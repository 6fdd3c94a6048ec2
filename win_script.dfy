/** The Windows script GoL_win.py: a fixed cell size of 20, a grid loaded
    from the snapshot file or drawn at random, generations painted with the
    GoL_tools_mac.py helpers until a keyboard interrupt, then a cleanup of
    the snapshot and the images. The screen is a parameter, the folder is a
    `MacApp.Directory`, and the interrupt is taken to arrive between two
    generations, after generation `stop`. */
module WinScript {
  import opened Common
  import opened GridModel
  import opened Neighbours
  import opened Rules
  import opened Initialization
  import opened MacApp
  import Raster

  /** `cell_size = 20` */
  const CellSize: nat := 20

  /** GoL_win.py:24-33: a snapshot whose row count and first row's length
      match is kept; any other snapshot, or none, is replaced by
      `initialize_grid(rows, cols)`, whose default mode draws every cell at
      random. Measuring `grid[0]` of an empty snapshot raises IndexError,
      which nothing catches. */
  function StartGrid(stored: Option<Grid>, rows: nat, cols: nat, coin: Coin): (r: Result<Grid, PyError>)
    ensures r.Failure? <==> stored.Some? && |stored.value| == rows == 0
    ensures r.Failure? ==> r.error == IndexError
    ensures stored.Some? ==> (r == Success(stored.value) <==> DimensionsMatch(stored.value, rows, cols) == Success(true))
    ensures stored.None? || (stored.Some? && DimensionsMatch(stored.value, rows, cols) == Success(false)) ==>
      r == Success(RandomGrid(rows, cols, coin))
    ensures r.Success? ==> |r.value| == rows
  {
    var drawn := InitializeMac(rows, cols, "random", coin).grid;
    match stored
    case None => Success(drawn)
    case Some(g) =>
      match DimensionsMatch(g, rows, cols)
      case Failure(e) => Failure(e)
      case Success(ok) => if ok then Success(g) else Success(drawn)
  }

  /** `images` without the indices `lo <= k < hi`. */
  function Without(images: set<nat>, lo: nat, hi: nat): (r: set<nat>)
    ensures forall k :: k in r <==> k in images && !(lo <= k < hi)
  {
    set k | k in images && !(lo <= k < hi)
  }

  /** Where the consecutive-index cleanup stops: the first index from `i`
      on that names no file. */
  function RunEnd(files: set<nat>, i: nat): (k: nat)
    ensures i <= k && k !in files
    ensures forall m :: i <= m < k ==> m in files
    decreases |files|
  {
    if i in files then
      var k := RunEnd(files - {i}, i + 1);
      assert k !in files - {i} && k != i;
      forall m | i <= m < k
        ensures m in files
      {
        if m > i {
          assert m in files - {i};
        }
      }
      k
    else i
  }

  /** GoL_win.py:79-86: remove `game_of_life_1.png`, `game_of_life_2.png`,
      ... while the next one exists. */
  method CleanupConsecutive(dir: Directory) returns (last: nat)
    modifies dir
    ensures last == RunEnd(old(dir.images), 1)
    ensures dir.images == Without(old(dir.images), 1, last)
    ensures dir.snapshot == old(dir.snapshot) && dir.clears == old(dir.clears)
  {
    var i := 1;
    while i in dir.images
      invariant 1 <= i
      invariant forall m :: 1 <= m < i ==> m in old(dir.images)
      invariant dir.images == Without(old(dir.images), 1, i)
      invariant dir.snapshot == old(dir.snapshot) && dir.clears == old(dir.clears)
      decreases |dir.images|
    {
      dir.images := dir.images - {i};
      i := i + 1;
      assert dir.images == Without(old(dir.images), 1, i);
    }
    last := i;
    var k := RunEnd(old(dir.images), 1);
    assert !(k < last) && !(last < k);
  }

  /** The cleanup the comment at GoL_win.py:78 promises: every image the
      script can have made, `1` to `gen`, is removed. */
  method CleanupEveryGeneration(dir: Directory, gen: nat)
    modifies dir
    ensures dir.images == Without(old(dir.images), 1, gen + 1)
    ensures dir.snapshot == old(dir.snapshot) && dir.clears == old(dir.clears)
  {
    for k := 1 to gen + 1
      invariant dir.images == Without(old(dir.images), 1, k)
      invariant dir.snapshot == old(dir.snapshot) && dir.clears == old(dir.clears)
    {
      if k in dir.images {
        dir.images := dir.images - {k};
      }
      assert dir.images == Without(old(dir.images), 1, k + 1);
    }
  }

  /** As written, once two or more generations have run the folder holds
      image `n` but not image 1, so the cleanup removes nothing and the last
      wallpaper image is left behind. */
  lemma ConsecutiveCleanupLeavesLastImage(images: set<nat>, n: nat)
    requires n >= 2
    ensures RunEnd(ImagesAfter(images, n), 1) == 1
    ensures n in Without(ImagesAfter(images, n), 1, RunEnd(ImagesAfter(images, n), 1))
  {
    assert 1 !in ImagesAfter(images, n);
  }

  /** With the corrected cleanup the folder holds exactly the files it held
      before the run, less any image numbered `1` to `n`: nothing of the run
      is left and nothing else is touched. */
  lemma EveryGenerationCleanupRemovesRun(images: set<nat>, n: nat)
    ensures Without(ImagesAfter(images, n), 1, n + 1) == Without(images, 1, n + 1)
  {
    var l := Without(ImagesAfter(images, n), 1, n + 1);
    var r := Without(images, 1, n + 1);
    forall k
      ensures k in l <==> k in r
    {
    }
  }

  /** Which cleanup the interrupt handler runs. */
  datatype CleanupCall = ConsecutiveFromOne | EveryGeneration

  /** How the script ends: by the keyboard interrupt it catches, or by an
      exception it does not. */
  datatype ScriptOutcome = Interrupted | Crashed(error: PyError)

  /** GoL_win.py:36-72: generations `1` to `stop` from a readable grid. Each
      paints its image, removes the previous one, and saves the next grid as
      the snapshot. */
  method RunGenerations(dir: Directory, start: Grid, rows: nat, cols: nat, stop: nat) returns (grid: Grid)
    requires Covers(start, rows, cols)
    modifies dir
    ensures grid == Evolve(Wrap, start, rows, cols, stop)
    ensures dir.images == ImagesAfter(old(dir.images), stop)
    ensures dir.snapshot == if stop == 0 then old(dir.snapshot) else Some(grid)
    ensures dir.clears == old(dir.clears)
  {
    grid := start;
    var gen := 0;
    while gen < stop
      invariant gen <= stop
      invariant grid == Evolve(Wrap, start, rows, cols, gen)
      invariant dir.images == ImagesAfter(old(dir.images), gen)
      invariant dir.snapshot == if gen == 0 then old(dir.snapshot) else Some(grid)
      invariant dir.clears == old(dir.clears)
    {
      gen := gen + 1;
      ImagesAfterStep(old(dir.images), gen - 1);
      grid := ScriptGeneration(dir, grid, rows, cols, gen);
    }
  }

  /** GoL_win.py:38-69, one generation `gen`: paint the grid, drop image
      `gen - 1` if there is one, step, and save the result as the snapshot. */
  method ScriptGeneration(dir: Directory, grid: Grid, rows: nat, cols: nat, gen: nat) returns (next: Grid)
    requires Covers(grid, rows, cols) && gen >= 1
    modifies dir
    ensures next == Step(Wrap, grid, rows, cols)
    ensures dir.images == old(dir.images) + {gen} - (if gen > 1 then {gen - 1} else {})
    ensures dir.snapshot == Some(next) && dir.clears == old(dir.clears)
  {
    var image := Raster.CreateImageMac(rows, cols, grid, CellSize);
    dir.images := dir.images + {gen};
    if gen > 1 && gen - 1 in dir.images {
      dir.images := dir.images - {gen - 1};
    }
    next := ComputeNextGeneration(Wrap, grid, rows, cols);
    dir.snapshot := Some(next);
  }

  /** The whole script with the screen `width x height`, the random draws
      `coin`, and the interrupt arriving after generation `stop`. */
  method RunScript(dir: Directory, width: nat, height: nat, coin: Coin, stop: nat, cleanup: CleanupCall)
    returns (outcome: ScriptOutcome, grid: Grid)
    modifies dir
    ensures dir.clears == old(dir.clears)
    ensures var rows, cols := height / CellSize, width / CellSize;
      var s := StartGrid(old(dir.snapshot), rows, cols, coin);
      (s.Failure? ==> outcome == Crashed(s.error) && dir.images == old(dir.images) && dir.snapshot == old(dir.snapshot)) &&
      (s.Success? && stop >= 1 && !Covers(s.value, rows, cols) ==>
         outcome == Crashed(IndexError) && dir.images == old(dir.images) && dir.snapshot == old(dir.snapshot)) &&
      (s.Success? && (stop == 0 || Covers(s.value, rows, cols)) ==>
         outcome == Interrupted && dir.snapshot == None &&
         (stop == 0 ==> grid == s.value) &&
         (Covers(s.value, rows, cols) ==> grid == Evolve(Wrap, s.value, rows, cols, stop)) &&
         dir.images == match cleanup
           case ConsecutiveFromOne => Without(ImagesAfter(old(dir.images), stop), 1, RunEnd(ImagesAfter(old(dir.images), stop), 1))
           case EveryGeneration => Without(ImagesAfter(old(dir.images), stop), 1, stop + 1))
  {
    var rows, cols := height / CellSize, width / CellSize;
    var s := StartGrid(dir.snapshot, rows, cols, coin);
    if s.Failure? {
      return Crashed(s.error), [];
    }
    grid := s.value;
    if stop >= 1 && !Covers(grid, rows, cols) {
      return Crashed(IndexError), grid;
    }
    if Covers(grid, rows, cols) {
      grid := RunGenerations(dir, grid, rows, cols, stop);
    }
    dir.snapshot := None;
    match cleanup {
      case ConsecutiveFromOne =>
        var _ := CleanupConsecutive(dir);
      case EveryGeneration =>
        CleanupEveryGeneration(dir, stop);
    }
    outcome := Interrupted;
  }
}
