/** The simulation thread of GameOfLife_MAC.py, built on the
    GoL_tools.py helpers. Screen resolution, wallpaper setting, sleeping,
    pickling and the Qt widgets are outside the model: the resolution is a
    parameter, the directory is a set of image indices plus an optional
    snapshot, and the stop flag set by the window is the number of
    generations the thread completes before it sees the flag. */
module MacApp {
  import opened Common
  import opened GridModel
  import opened Neighbours
  import opened Rules
  import opened Initialization
  import Raster

  /** The messages of the `status_update` signal. */
  datatype Status =
    | DimensionMismatch                          // "Initial grid dimensions do not match. ..."
    | GenerationDone(gen: nat, liveCells: int)   // "Generation {gen}: {live_cells} live cells"
    | Error(error: PyError)                      // "Error: {e}"

  /** `rows = screen_height // cell_size`, `cols = screen_width // cell_size`:
      the most whole cells that fit on the screen. */
  function GridSize(width: nat, height: nat, cs: nat): (r: (nat, nat))
    requires cs >= 1
    ensures r.0 * cs <= height < (r.0 + 1) * cs && r.1 * cs <= width < (r.1 + 1) * cs
  {
    Raster.InBlock(height, cs, height / cs);
    Raster.InBlock(width, cs, width / cs);
    (height / cs, width / cs)
  }

  /** `len(grid) != rows or len(grid[0]) != cols`, negated: whether a grid
      from outside is kept. Looking at `grid[0]` of an empty grid raises. */
  function DimensionsMatch(g: Grid, rows: nat, cols: nat): (r: Result<bool, PyError>)
    ensures r.Failure? <==> |g| == rows == 0
    ensures r.Failure? ==> r.error == IndexError
    ensures r == Success(true) <==> |g| == rows && rows > 0 && |g[0]| == cols
  {
    if |g| != rows then Success(false)
    else if |g| == 0 then Failure(IndexError)
    else Success(|g[0]| == cols)
  }

  /** The grid the loop starts from (`None` where `initialize_grid` returned
      nothing), or the exception raised while choosing it, and whether the
      mismatch warning was emitted first. */
  datatype Setup = Setup(warned: bool, outcome: Result<Option<Grid>, PyError>)

  function FromInit(r: InitOutcome): Result<Option<Grid>, PyError>
  {
    match r
    case Initialized(g) => Success(Some(g))
    case Raised(e) => Failure(e)
    case ReturnedNone => Success(None)
  }

  /** GameOfLife_MAC.py:27-38: an imported grid is kept when its dimensions
      match, otherwise a warning is emitted and a grid is initialised with
      the mode; failing that, a snapshot left in the directory gets the same
      check without the warning; failing that, a grid is initialised. */
  function ChooseStart(platform: Platform, imported: Option<Grid>, stored: Option<Grid>,
                       rows: nat, cols: nat, mode: string, coin: Coin): (s: Setup)
    ensures imported.Some? ==>
      (s.outcome == Success(Some(imported.value)) <==> DimensionsMatch(imported.value, rows, cols) == Success(true))
    ensures imported.None? && stored.Some? ==>
      (s.outcome == Success(Some(stored.value)) <==> DimensionsMatch(stored.value, rows, cols) == Success(true))
    ensures s.warned <==> imported.Some? && DimensionsMatch(imported.value, rows, cols) == Success(false)
    ensures (imported.Some? && DimensionsMatch(imported.value, rows, cols) == Success(false))
      || (imported.None? && stored.Some? && DimensionsMatch(stored.value, rows, cols) == Success(false))
      || (imported.None? && stored.None?)
      ==> s.outcome == FromInit(InitializeTools(platform, rows, cols, mode, coin))
    ensures (imported.Some? && rows == |imported.value| == 0) || (imported.None? && stored.Some? && rows == |stored.value| == 0)
      ==> s.outcome == Failure(IndexError)
  {
    var init := FromInit(InitializeTools(platform, rows, cols, mode, coin));
    match imported
    case Some(g) =>
      (match DimensionsMatch(g, rows, cols)
       case Failure(e) => Setup(false, Failure(e))
       case Success(ok) => if ok then Setup(false, Success(Some(g))) else Setup(true, init))
    case None =>
      match stored
      case Some(g) =>
        (match DimensionsMatch(g, rows, cols)
         case Failure(e) => Setup(false, Failure(e))
         case Success(ok) => if ok then Setup(false, Success(Some(g))) else Setup(false, init))
      case None => Setup(false, init)
  }

  /** Which `count_neighbors` the step calls. GameOfLife_MAC.py:54 passes
      five arguments to the one-argument convolution version it imports
      from GoL_tools.py; the evidently intended call is the per-cell wrapped
      count of GoL_tools_mac.py. */
  datatype CountCall = AsWritten | Corrected

  /** The exception `create_image` raises on the grid it is given: none on a
      platform whose branch does not read the grid or when there is no cell
      to paint; otherwise indexing `None`, or a row shorter than `cols`. */
  function ImageError(platform: Platform, cur: Option<Grid>, rows: nat, cols: nat): (e: Option<PyError>)
    ensures platform == Other || rows == 0 || cols == 0 ==> e.None?
    ensures cur.Some? ==> (e.None? <==> platform == Other || rows == 0 || cols == 0 || Covers(cur.value, rows, cols))
  {
    if platform == Other || rows == 0 || cols == 0 then None
    else
      match cur
      case None => Some(TypeError)
      case Some(g) => if Covers(g, rows, cols) then None else Some(IndexError)
  }

  /** GameOfLife_MAC.py:51-60: the `new_grid` of one generation, or the
      exception raised while computing it. With no cell to visit nothing is
      called or read and the empty zero grid comes back. */
  function NextGrid(call: CountCall, cur: Option<Grid>, rows: nat, cols: nat): (r: Result<Grid, PyError>)
    ensures r.Success? ==> IsShape(r.value, rows, cols)
    ensures call == Corrected && cur.Some? && Covers(cur.value, rows, cols) ==> r == Success(Step(Wrap, cur.value, rows, cols))
    ensures call == AsWritten && rows > 0 && cols > 0 ==> r == Failure(TypeError)
  {
    if rows == 0 || cols == 0 then
      assert cur.Some? && Covers(cur.value, rows, cols) ==> Step(Wrap, cur.value, rows, cols) == ZeroGrid(rows, cols);
      Success(ZeroGrid(rows, cols))
    else
      match call
      case AsWritten => Failure(TypeError)
      case Corrected =>
        match cur
        case None => Failure(TypeError)
        case Some(g) => if Covers(g, rows, cols) then Success(Step(Wrap, g, rows, cols)) else Failure(IndexError)
  }

  /** The outcome of the generation drawn from `cur`: draw it, then step. */
  function GenerationOutcome(call: CountCall, platform: Platform, cur: Option<Grid>, rows: nat, cols: nat): Result<Grid, PyError>
  {
    match ImageError(platform, cur, rows, cols)
    case Some(e) => Failure(e)
    case None => NextGrid(call, cur, rows, cols)
  }

  /** The statuses the `while not self.stop_flag` loop emits from generation
      `gen` on, when the flag is seen after generation `stop`: reports of
      generations `gen + 1`, `gen + 2`, ... in order, cut short only by an
      exception, whose status is then the last. */
  function Loop(call: CountCall, platform: Platform, cur: Option<Grid>, rows: nat, cols: nat, gen: nat, stop: nat): (r: seq<Status>)
    ensures |r| == 0 || gen + |r| <= stop
    ensures forall k :: 0 <= k < |r| ==>
      (r[k].GenerationDone? && r[k].gen == gen + k + 1) || (r[k].Error? && k == |r| - 1)
    ensures gen < stop ==> |r| > 0 && (gen + |r| == stop || r[|r| - 1].Error?)
    decreases stop - gen
  {
    if gen >= stop then []
    else
      match GenerationOutcome(call, platform, cur, rows, cols)
      case Failure(e) => [Error(e)]
      case Success(next) =>
        [GenerationDone(gen + 1, LiveCount(next))] + Loop(call, platform, Some(next), rows, cols, gen + 1, stop)
  }

  /** Everything `SimulationThread.run` emits: the mismatch warning only
      first and only for an imported grid that does not fit, and something
      whenever a generation is attempted. */
  function RunStatuses(call: CountCall, platform: Platform, imported: Option<Grid>, stored: Option<Grid>,
                       width: nat, height: nat, cs: nat, mode: string, coin: Coin, stop: nat): (r: seq<Status>)
    requires cs >= 1
    ensures (|r| > 0 && r[0].DimensionMismatch?)
      <==> imported.Some? && DimensionsMatch(imported.value, height / cs, width / cs) == Success(false)
    ensures forall k :: 0 < k < |r| ==> !r[k].DimensionMismatch?
    ensures stop > 0 ==> |r| > 0
  {
    var (rows, cols) := GridSize(width, height, cs);
    var s := ChooseStart(platform, imported, stored, rows, cols, mode, coin);
    (if s.warned then [DimensionMismatch] else [])
    + match s.outcome
      case Failure(e) => [Error(e)]
      case Success(g) => Loop(call, platform, g, rows, cols, 0, stop)
  }

  /** The image indices left after `n` generations of a loop that saves
      image `g` and then removes image `g - 1` when `g > 1`: of the loop's
      own images only the last is left. */
  function ImagesAfter(images: set<nat>, n: nat): (r: set<nat>)
    ensures n == 0 ==> r == images
    ensures n > 0 ==> n in r && forall k :: 1 <= k < n ==> k !in r
    ensures forall k :: k in images && !(1 <= k <= n) ==> k in r
    ensures forall k :: k in r && k != n ==> k in images
  {
    if n == 0 then images else (set k | k in images && !(1 <= k < n)) + {n}
  }

  /** One more generation: add its image, then drop the previous one. */
  lemma ImagesAfterStep(images: set<nat>, n: nat)
    ensures ImagesAfter(images, n + 1) == ImagesAfter(images, n) + {n + 1} - (if n + 1 > 1 then {n} else {})
  {
    var lhs := ImagesAfter(images, n + 1);
    var rhs := ImagesAfter(images, n) + {n + 1} - (if n + 1 > 1 then {n} else {});
    forall k
      ensures k in lhs <==> k in rhs
    {
    }
  }

  /** The image indices and the snapshot after generation `gen` is drawn
      from `cur`: nothing changes when drawing raises; otherwise image `gen`
      is saved, image `gen - 1` removed, and the snapshot replaced when the
      step succeeds. */
  function GenerationFolder(call: CountCall, platform: Platform, cur: Option<Grid>, rows: nat, cols: nat, gen: nat,
                            images: set<nat>, snapshot: Option<Grid>): (set<nat>, Option<Grid>)
  {
    if ImageError(platform, cur, rows, cols).Some? then (images, snapshot)
    else
      var o := GenerationOutcome(call, platform, cur, rows, cols);
      (images + {gen} - (if gen > 1 then {gen - 1} else {}), if o.Success? then Some(o.value) else snapshot)
  }

  /** The image indices and the snapshot the loop leaves, from generation
      `gen` on. */
  function LoopFolder(call: CountCall, platform: Platform, cur: Option<Grid>, rows: nat, cols: nat, gen: nat, stop: nat,
                      images: set<nat>, snapshot: Option<Grid>): (set<nat>, Option<Grid>)
    decreases stop - gen
  {
    if gen >= stop then (images, snapshot)
    else
      var (imgs, snap) := GenerationFolder(call, platform, cur, rows, cols, gen + 1, images, snapshot);
      match GenerationOutcome(call, platform, cur, rows, cols)
      case Failure(_) => (imgs, snap)
      case Success(next) => LoopFolder(call, platform, Some(next), rows, cols, gen + 1, stop, imgs, snap)
  }

  /** The image indices and the snapshot `run` leaves before the `finally`
      clause clears the directory; `stored` is the snapshot it starts with. */
  function RunFolder(call: CountCall, platform: Platform, imported: Option<Grid>, stored: Option<Grid>,
                     width: nat, height: nat, cs: nat, mode: string, coin: Coin, stop: nat, images: set<nat>): (set<nat>, Option<Grid>)
    requires cs >= 1
  {
    var (rows, cols) := GridSize(width, height, cs);
    match ChooseStart(platform, imported, stored, rows, cols, mode, coin).outcome
    case Failure(_) => (images, stored)
    case Success(g) => LoopFolder(call, platform, g, rows, cols, 0, stop, images, stored)
  }

  /** From a readable grid the corrected loop keeps only the image of its
      last generation, and the snapshot is the grid evolved that far. */
  lemma {:induction false} CorrectedLoopFolder(platform: Platform, g: Grid, rows: nat, cols: nat, gen: nat, n: nat,
                                               images: set<nat>, snapshot: Option<Grid>)
    requires Covers(g, rows, cols)
    ensures LoopFolder(Corrected, platform, Some(g), rows, cols, gen, gen + n, ImagesAfter(images, gen), snapshot)
      == (ImagesAfter(images, gen + n), if n == 0 then snapshot else Some(Evolve(Wrap, g, rows, cols, n)))
    decreases n
  {
    if n > 0 {
      var next := Step(Wrap, g, rows, cols);
      CorrectedGeneration(platform, g, rows, cols);
      ImagesAfterStep(images, gen);
      assert GenerationFolder(Corrected, platform, Some(g), rows, cols, gen + 1, ImagesAfter(images, gen), snapshot)
        == (ImagesAfter(images, gen + 1), Some(next));
      CorrectedLoopFolder(platform, next, rows, cols, gen + 1, n - 1, images, Some(next));
      assert (gen + 1) + (n - 1) == gen + n;
      EvolveShift(Wrap, g, rows, cols, n - 1);
    }
  }

  /** The corrected thread, started on an imported grid of the screen's
      dimensions, leaves (before clearing, and for good on a platform where
      clearing removes nothing) the image of generation `stop` and the grid
      evolved `stop` times as the snapshot. */
  lemma CorrectedRunLeavesLastGeneration(platform: Platform, g: Grid, stored: Option<Grid>, width: nat, height: nat, cs: nat,
                                         mode: string, coin: Coin, stop: nat, images: set<nat>)
    requires cs >= 1 && height >= cs
    requires IsShape(g, height / cs, width / cs)
    ensures RunFolder(Corrected, platform, Some(g), stored, width, height, cs, mode, coin, stop, images)
      == (ImagesAfter(images, stop), if stop == 0 then stored else Some(Evolve(Wrap, g, height / cs, width / cs, stop)))
  {
    var rows, cols := height / cs, width / cs;
    assert GridSize(width, height, cs) == (rows, cols);
    assert rows >= 1 by {
      Raster.DivBound(height, cs, 1);
    }
    assert DimensionsMatch(g, rows, cols) == Success(true);
    assert ChooseStart(platform, Some(g), stored, rows, cols, mode, coin).outcome == Success(Some(g));
    CorrectedLoopFolder(platform, g, rows, cols, 0, stop, images, stored);
    assert 0 + stop == stop;
  }

  /** One turn of the loop: the status of generation `gen + 1`, then the rest
      of the loop when that generation succeeded. */
  lemma LoopUnfold(call: CountCall, platform: Platform, cur: Option<Grid>, rows: nat, cols: nat, gen: nat, stop: nat)
    requires gen < stop
    ensures var o := GenerationOutcome(call, platform, cur, rows, cols);
      Loop(call, platform, cur, rows, cols, gen, stop)
        == if o.Failure? then [Error(o.error)]
           else [GenerationDone(gen + 1, LiveCount(o.value))] + Loop(call, platform, Some(o.value), rows, cols, gen + 1, stop)
  {
  }

  /** A readable grid always makes a generation under the corrected call. */
  lemma CorrectedGeneration(platform: Platform, g: Grid, rows: nat, cols: nat)
    requires Covers(g, rows, cols)
    ensures GenerationOutcome(Corrected, platform, Some(g), rows, cols) == Success(Step(Wrap, g, rows, cols))
  {
    assert ImageError(platform, Some(g), rows, cols).None?;
  }

  /** The statuses of `n` successful generations after `gen` from `g`. */
  function Reports(g: Grid, rows: nat, cols: nat, gen: nat, n: nat): seq<Status>
    requires Covers(g, rows, cols)
    decreases n
  {
    if n == 0 then []
    else
      var next := Step(Wrap, g, rows, cols);
      [GenerationDone(gen + 1, LiveCount(next))] + Reports(next, rows, cols, gen + 1, n - 1)
  }

  /** `n` generations give `n` reports. */
  lemma {:induction false} ReportsLength(g: Grid, rows: nat, cols: nat, gen: nat, n: nat)
    requires Covers(g, rows, cols)
    ensures |Reports(g, rows, cols, gen, n)| == n
    decreases n
  {
    if n > 0 {
      ReportsLength(Step(Wrap, g, rows, cols), rows, cols, gen + 1, n - 1);
    }
  }

  /** The `k`-th report names generation `gen + k + 1` and the live count of
      the grid evolved `k + 1` times under the wrapped rule. */
  lemma {:induction false} ReportAt(g: Grid, rows: nat, cols: nat, gen: nat, n: nat, k: nat)
    requires Covers(g, rows, cols) && k < n
    ensures |Reports(g, rows, cols, gen, n)| == n
    ensures Reports(g, rows, cols, gen, n)[k] == GenerationDone(gen + k + 1, LiveCount(Evolve(Wrap, g, rows, cols, k + 1)))
    decreases k
  {
    ReportsLength(g, rows, cols, gen, n);
    var next := Step(Wrap, g, rows, cols);
    var rest := Reports(next, rows, cols, gen + 1, n - 1);
    assert Reports(g, rows, cols, gen, n) == [GenerationDone(gen + 1, LiveCount(next))] + rest;
    if k > 0 {
      ReportAt(next, rows, cols, gen + 1, n - 1, k - 1);
      EvolveShift(Wrap, g, rows, cols, k);
    }
  }

  /** From a readable start grid the corrected loop never fails: it reports
      generations `gen + 1`, `gen + 2`, ... up to `stop`, each with the live
      count of the grid evolved that far under the wrapped rule. */
  lemma {:induction false} CorrectedLoopTrace(platform: Platform, g: Grid, rows: nat, cols: nat, gen: nat, stop: nat)
    requires Covers(g, rows, cols) && gen <= stop
    ensures Loop(Corrected, platform, Some(g), rows, cols, gen, stop) == Reports(g, rows, cols, gen, stop - gen)
    decreases stop - gen
  {
    if gen < stop {
      var next := Step(Wrap, g, rows, cols);
      CorrectedGeneration(platform, g, rows, cols);
      LoopUnfold(Corrected, platform, Some(g), rows, cols, gen, stop);
      CorrectedLoopTrace(platform, next, rows, cols, gen + 1, stop);
    }
  }

  /** As written, a screen at least one cell wide and tall never gets a
      generation reported: the first generation ends in an error status. */
  lemma AsWrittenNeverReportsAGeneration(platform: Platform, imported: Option<Grid>, stored: Option<Grid>,
                                         width: nat, height: nat, cs: nat, mode: string, coin: Coin, stop: nat)
    requires cs >= 1 && width >= cs && height >= cs
    ensures var t := RunStatuses(AsWritten, platform, imported, stored, width, height, cs, mode, coin, stop);
      forall k :: 0 <= k < |t| ==> !t[k].GenerationDone?
  {
    var (rows, cols) := GridSize(width, height, cs);
    Raster.DivBound(height, cs, 1);
    Raster.DivBound(width, cs, 1);
    assert rows >= 1 && cols >= 1;
    var s := ChooseStart(platform, imported, stored, rows, cols, mode, coin);
    if s.outcome.Success? && stop > 0 {
      var cur := s.outcome.value;
      assert Loop(AsWritten, platform, cur, rows, cols, 0, stop) == [Error(GenerationOutcome(AsWritten, platform, cur, rows, cols).error)];
    }
  }

  /** An imported grid of the screen's dimensions is kept without a warning,
      so the run is the loop from that grid. */
  lemma MatchingImportIsKept(call: CountCall, platform: Platform, g: Grid, width: nat, height: nat, cs: nat, mode: string, coin: Coin, stop: nat)
    requires cs >= 1 && height >= cs
    requires IsShape(g, height / cs, width / cs)
    ensures RunStatuses(call, platform, Some(g), None, width, height, cs, mode, coin, stop)
      == Loop(call, platform, Some(g), height / cs, width / cs, 0, stop)
  {
    var rows, cols := height / cs, width / cs;
    assert GridSize(width, height, cs) == (rows, cols);
    assert rows >= 1 by {
      Raster.DivBound(height, cs, 1);
    }
    assert DimensionsMatch(g, rows, cols) == Success(true);
    assert ChooseStart(platform, Some(g), None, rows, cols, mode, coin) == Setup(false, Success(Some(g)));
  }

  /** The reports of `n` generations, read index by index. */
  lemma ReportsMeaning(g: Grid, rows: nat, cols: nat, gen: nat, n: nat)
    requires Covers(g, rows, cols)
    ensures var t := Reports(g, rows, cols, gen, n);
      |t| == n && forall k :: 0 <= k < n ==> t[k] == GenerationDone(gen + k + 1, LiveCount(Evolve(Wrap, g, rows, cols, k + 1)))
  {
    ReportsLength(g, rows, cols, gen, n);
    forall k | 0 <= k < n
      ensures Reports(g, rows, cols, gen, n)[k] == GenerationDone(gen + k + 1, LiveCount(Evolve(Wrap, g, rows, cols, k + 1)))
    {
      ReportAt(g, rows, cols, gen, n, k);
    }
  }

  /** The reports of the first `n` generations: report `k` names generation
      `k + 1`. */
  lemma ReportsFromStart(g: Grid, rows: nat, cols: nat, n: nat)
    requires Covers(g, rows, cols)
    ensures var t := Reports(g, rows, cols, 0, n);
      |t| == n && forall k :: 0 <= k < n ==> t[k] == GenerationDone(k + 1, LiveCount(Evolve(Wrap, g, rows, cols, k + 1)))
  {
    ReportsLength(g, rows, cols, 0, n);
    forall k | 0 <= k < n
      ensures Reports(g, rows, cols, 0, n)[k] == GenerationDone(k + 1, LiveCount(Evolve(Wrap, g, rows, cols, k + 1)))
    {
      ReportAt(g, rows, cols, 0, n, k);
      assert 0 + k + 1 == k + 1;
    }
  }

  /** The corrected thread, started on an imported grid of the screen's
      dimensions, emits exactly the reports of generations 1 to `stop`. */
  lemma CorrectedRunIsReports(platform: Platform, g: Grid, width: nat, height: nat, cs: nat, mode: string, coin: Coin, stop: nat)
    requires cs >= 1 && height >= cs
    requires IsShape(g, height / cs, width / cs)
    ensures RunStatuses(Corrected, platform, Some(g), None, width, height, cs, mode, coin, stop)
      == Reports(g, height / cs, width / cs, 0, stop)
  {
    var rows, cols := height / cs, width / cs;
    var loop := Loop(Corrected, platform, Some(g), rows, cols, 0, stop);
    MatchingImportIsKept(Corrected, platform, g, width, height, cs, mode, coin, stop);
    CorrectedLoopTrace(platform, g, rows, cols, 0, stop);
    assert loop == Reports(g, rows, cols, 0, stop - 0);
    assert stop - 0 == stop;
  }

  /** The corrected loop, started from a readable `rows x cols` grid under
      the wrapped rule, reports exactly `stop` generations, numbered from 1. */
  lemma CorrectedRunReportsEveryGeneration(platform: Platform, g: Grid, width: nat, height: nat, cs: nat, mode: string, coin: Coin, stop: nat)
    requires cs >= 1 && height >= cs
    requires IsShape(g, height / cs, width / cs)
    ensures var t := RunStatuses(Corrected, platform, Some(g), None, width, height, cs, mode, coin, stop);
      |t| == stop && forall k :: 0 <= k < stop ==> t[k] == GenerationDone(k + 1, LiveCount(Evolve(Wrap, g, height / cs, width / cs, k + 1)))
  {
    CorrectedRunIsReports(platform, g, width, height, cs, mode, coin, stop);
    ReportsFromStart(g, height / cs, width / cs, stop);
  }

  /** The statuses still owed after `emitted`, once generation `gen + 1` has
      emitted its own: none after a failure, the rest of the loop after a
      success. */
  lemma LoopAccount(call: CountCall, platform: Platform, cur: Option<Grid>, rows: nat, cols: nat, gen: nat, stop: nat,
                    emitted: seq<Status>, total: seq<Status>)
    requires gen < stop
    requires total == emitted + Loop(call, platform, cur, rows, cols, gen, stop)
    ensures var o := GenerationOutcome(call, platform, cur, rows, cols);
      (o.Failure? ==> total == emitted + [Error(o.error)]) &&
      (o.Success? ==> total == (emitted + [GenerationDone(gen + 1, LiveCount(o.value))])
                               + Loop(call, platform, Some(o.value), rows, cols, gen + 1, stop))
  {
    LoopUnfold(call, platform, cur, rows, cols, gen, stop);
    var o := GenerationOutcome(call, platform, cur, rows, cols);
    if o.Success? {
      AppendAssoc(emitted, [GenerationDone(gen + 1, LiveCount(o.value))], Loop(call, platform, Some(o.value), rows, cols, gen + 1, stop));
    }
  }

  lemma AppendAssoc<T>(a: seq<T>, b: seq<T>, c: seq<T>)
    ensures a + (b + c) == (a + b) + c
  {
  }

  /** The directory the thread writes into: the indices `k` of the files
      `game_of_life_<k>.png`, the snapshot `game_of_life_grid.pkl`, and how
      many times `clear_directory` has emptied it. */
  class Directory {
    var images: set<nat>
    var snapshot: Option<Grid>
    var clears: nat

    constructor (images: set<nat>, snapshot: Option<Grid>)
      ensures this.images == images && this.snapshot == snapshot && clears == 0
    {
      this.images := images;
      this.snapshot := snapshot;
      clears := 0;
    }

    /** `clear_directory` of GoL_tools.py: on macOS and Windows every file
        goes; on any other platform neither branch runs and nothing is
        removed. `clears` counts the calls. */
    method Clear(platform: Platform)
      modifies this
      ensures clears == old(clears) + 1
      ensures platform != Other ==> images == {} && snapshot == None
      ensures platform == Other ==> images == old(images) && snapshot == old(snapshot)
    {
      if platform != Other {
        images := {};
        snapshot := None;
      }
      clears := clears + 1;
    }
  }

  /** `SimulationThread`: its configuration and the statuses it has emitted. */
  class SimulationThread {
    const cellSize: nat
    const mode: string
    const initialGrid: Option<Grid>
    var statuses: seq<Status>

    constructor (cellSize: nat, mode: string, initialGrid: Option<Grid>)
      requires cellSize >= 1
      ensures this.cellSize == cellSize && this.mode == mode && this.initialGrid == initialGrid && statuses == []
    {
      this.cellSize := cellSize;
      this.mode := mode;
      this.initialGrid := initialGrid;
      statuses := [];
    }

    /** The body of the generation loop (GameOfLife_MAC.py:42-63) after `gen`
        has been incremented: draw and save image `gen`, delete image
        `gen - 1` when `gen > 1` and it exists, compute the next grid with
        the `count_neighbors` that `call` selects and save it as the
        snapshot. An exception stops the body where it is raised. */
    method Generation(call: CountCall, dir: Directory, platform: Platform, cur: Option<Grid>, rows: nat, cols: nat, gen: nat)
        returns (r: Result<Grid, PyError>)
      requires cellSize >= 1 && gen >= 1
      modifies dir
      ensures r == GenerationOutcome(call, platform, cur, rows, cols)
      ensures dir.clears == old(dir.clears)
      ensures ImageError(platform, cur, rows, cols).Some? ==> dir.images == old(dir.images)
      ensures ImageError(platform, cur, rows, cols).None? ==>
        dir.images == old(dir.images) + {gen} - (if gen > 1 then {gen - 1} else {})
      ensures dir.snapshot == if r.Success? then Some(r.value) else old(dir.snapshot)
    {
      var e := ImageError(platform, cur, rows, cols);
      if e.Some? {
        return Failure(e.value);
      }
      var drawn := if cur.Some? && Covers(cur.value, rows, cols) then cur.value else ZeroGrid(rows, cols);
      var image := Raster.CreateImageTools(platform, rows, cols, drawn, cellSize);
      dir.images := dir.images + {gen};
      if gen > 1 && gen - 1 in dir.images {
        dir.images := dir.images - {gen - 1};
      }
      if rows == 0 || cols == 0 {
        r := Success(ZeroGrid(rows, cols));
      } else if call == AsWritten || cur.None? {
        return Failure(TypeError);
      } else if !Covers(cur.value, rows, cols) {
        return Failure(IndexError);
      } else {
        var next := ComputeNextGeneration(Wrap, cur.value, rows, cols);
        r := Success(next);
      }
      dir.snapshot := Some(r.value);
    }

    /** One turn of `while not self.stop_flag`: generation `gen + 1` is made
        from `grid` and its status emitted; what the loop still owes, in
        statuses and in the directory, shrinks to the rest of the loop, or
        to nothing after an exception. */
    method Advance(call: CountCall, dir: Directory, platform: Platform, grid: Option<Grid>, rows: nat, cols: nat, gen: nat, stop: nat,
                   ghost total: seq<Status>, ghost folder: (set<nat>, Option<Grid>))
        returns (next: Option<Grid>, failed: bool)
      requires cellSize >= 1 && gen < stop
      requires total == statuses + Loop(call, platform, grid, rows, cols, gen, stop)
      requires folder == LoopFolder(call, platform, grid, rows, cols, gen, stop, dir.images, dir.snapshot)
      modifies this, dir
      ensures failed ==> total == statuses && folder == (dir.images, dir.snapshot)
      ensures !failed ==> total == statuses + Loop(call, platform, next, rows, cols, gen + 1, stop)
      ensures !failed ==> folder == LoopFolder(call, platform, next, rows, cols, gen + 1, stop, dir.images, dir.snapshot)
      ensures dir.clears == old(dir.clears)
    {
      LoopAccount(call, platform, grid, rows, cols, gen, stop, statuses, total);
      ghost var after := GenerationFolder(call, platform, grid, rows, cols, gen + 1, dir.images, dir.snapshot);
      var r := Generation(call, dir, platform, grid, rows, cols, gen + 1);
      assert (dir.images, dir.snapshot) == after;
      match r {
        case Failure(e) =>
          statuses := statuses + [Error(e)];
          next, failed := grid, true;
        case Success(g) =>
          statuses := statuses + [GenerationDone(gen + 1, LiveCount(g))];
          next, failed := Some(g), false;
      }
    }

    /** `while not self.stop_flag`: one generation after another until the
        flag is seen after generation `stop` or an exception ends the loop. */
    method RunLoop(call: CountCall, dir: Directory, platform: Platform, start: Option<Grid>, rows: nat, cols: nat, stop: nat)
      requires cellSize >= 1
      modifies this, dir
      ensures statuses == old(statuses) + Loop(call, platform, start, rows, cols, 0, stop)
      ensures (dir.images, dir.snapshot) == LoopFolder(call, platform, start, rows, cols, 0, stop, old(dir.images), old(dir.snapshot))
      ensures dir.clears == old(dir.clears)
    {
      var grid := start;
      var gen := 0;
      var failed := false;
      ghost var total := old(statuses) + Loop(call, platform, start, rows, cols, 0, stop);
      ghost var folder := LoopFolder(call, platform, start, rows, cols, 0, stop, dir.images, dir.snapshot);
      while !failed && gen < stop
        invariant gen <= stop
        invariant !failed ==> total == statuses + Loop(call, platform, grid, rows, cols, gen, stop)
        invariant !failed ==> folder == LoopFolder(call, platform, grid, rows, cols, gen, stop, dir.images, dir.snapshot)
        invariant failed ==> total == statuses && folder == (dir.images, dir.snapshot)
        invariant dir.clears == old(dir.clears)
        decreases stop - gen, if failed then 0 else 1
      {
        grid, failed := Advance(call, dir, platform, grid, rows, cols, gen, stop, total, folder);
        gen := gen + 1;
      }
    }

    /** `run`: choose the start grid, loop until the stop flag is seen after
        generation `stop`, report any exception as an error status, and
        clear the directory exactly once on every path. `call` selects the
        `count_neighbors` of line 54: `AsWritten` as the file has it,
        `Corrected` for the evidently intended per-cell count. */
    method Run(call: CountCall, dir: Directory, platform: Platform, width: nat, height: nat, coin: Coin, stop: nat)
      requires cellSize >= 1
      modifies this, dir
      ensures statuses == old(statuses)
        + RunStatuses(call, platform, initialGrid, old(dir.snapshot), width, height, cellSize, mode, coin, stop)
      ensures dir.clears == old(dir.clears) + 1
      ensures platform != Other ==> dir.images == {} && dir.snapshot == None
      ensures platform == Other ==>
        (dir.images, dir.snapshot) == RunFolder(call, platform, initialGrid, old(dir.snapshot), width, height, cellSize, mode, coin, stop, old(dir.images))
    {
      ghost var expected := RunStatuses(call, platform, initialGrid, dir.snapshot, width, height, cellSize, mode, coin, stop);
      ghost var left := RunFolder(call, platform, initialGrid, dir.snapshot, width, height, cellSize, mode, coin, stop, dir.images);
      var rows, cols := height / cellSize, width / cellSize;
      assert GridSize(width, height, cellSize) == (rows, cols);
      var setup := ChooseStart(platform, initialGrid, dir.snapshot, rows, cols, mode, coin);
      ghost var warning: seq<Status> := if setup.warned then [DimensionMismatch] else [];
      ghost var rest := match setup.outcome
        case Failure(e) => [Error(e)]
        case Success(start) => Loop(call, platform, start, rows, cols, 0, stop);
      assert expected == warning + rest;
      if setup.warned {
        statuses := statuses + [DimensionMismatch];
      }
      ghost var mid := statuses;
      assert mid == old(statuses) + warning;
      match setup.outcome {
        case Failure(e) =>
          assert rest == [Error(e)];
          statuses := statuses + [Error(e)];
        case Success(start) =>
          assert rest == Loop(call, platform, start, rows, cols, 0, stop);
          RunLoop(call, dir, platform, start, rows, cols, stop);
      }
      assert statuses == mid + rest;
      AppendAssoc(old(statuses), warning, rest);
      assert statuses == old(statuses) + expected;
      assert (dir.images, dir.snapshot) == left;
      dir.Clear(platform);
    }
  }
}
