/** The terminal script GoL.py: a 10 x 10 board with a glider, stepped with
    the clipped count until a keyboard interrupt. Printing and sleeping are
    outside the model; the grids the script prints are returned as frames,
    and the interrupt is taken to arrive after `n` generations. */
module Console {
  import opened GridModel
  import opened Neighbours
  import opened Rules
  import opened Initialization

  /** `rows = 10`, `cols = 10` */
  const Rows: nat := 10
  const Cols: nat := 10

  /** The live cells of the script's start position, as `(row, column)`. */
  const StartCells: set<(int, int)> := {(0, 1), (1, 2), (2, 0), (2, 1), (2, 2)}

  /** GoL.py:8-13: a zero board with five cells set to 1, one after another.
      The result is a 10 x 10 0/1 grid whose live cells are exactly the five
      start cells. */
  function StartGrid(): (r: Grid)
    ensures IsShape(r, Rows, Cols) && IsBinary(r)
    ensures forall i, j :: 0 <= i < Rows && 0 <= j < Cols ==> r[i][j] == if (i, j) in StartCells then 1 else 0
  {
    var g := ZeroGrid(Rows, Cols);
    SetCell(SetCell(SetCell(SetCell(SetCell(g, 0, 1, 1), 1, 2, 1), 2, 0, 1), 2, 1, 1), 2, 2, 1)
  }

  /** The start board has five live cells. */
  lemma StartLiveCount()
    ensures LiveCount(StartGrid()) == 5
  {
    var g0 := ZeroGrid(Rows, Cols);
    LiveCountBinary(g0);
    var g1 := SetCell(g0, 0, 1, 1);
    LiveCountSetCell(g0, 0, 1, 1);
    var g2 := SetCell(g1, 1, 2, 1);
    LiveCountSetCell(g1, 1, 2, 1);
    var g3 := SetCell(g2, 2, 0, 1);
    LiveCountSetCell(g2, 2, 0, 1);
    var g4 := SetCell(g3, 2, 1, 1);
    LiveCountSetCell(g3, 2, 1, 1);
    LiveCountSetCell(g4, 2, 2, 1);
  }

  /** The script's glider is the glider preset of `initialize_grid` with
      rows and columns exchanged. */
  lemma StartIsTransposedPreset()
    ensures forall i, j :: 0 <= i < Rows && 0 <= j < Cols ==> StartGrid()[i][j] == GliderGrid(Rows, Cols)[j][i]
  {
  }

  /** GoL.py:41-59: print generation `gen`, replace the board by its
      successor under the clipped count, add 1 to `gen`; `n` times. */
  method Simulate(n: nat) returns (frames: seq<Grid>, grid: Grid, gen: nat)
    ensures gen == n
    ensures grid == Evolve(Clip, StartGrid(), Rows, Cols, n)
    ensures |frames| == n
    ensures forall k :: 0 <= k < n ==> frames[k] == Evolve(Clip, StartGrid(), Rows, Cols, k)
  {
    frames, grid, gen := Generations(StartGrid(), Rows, Cols, n);
  }

  /** The boards of generations `0` to `n - 1`, in order. */
  function Trajectory(b: Boundary, start: Grid, rows: nat, cols: nat, n: nat): seq<Grid>
    requires Covers(start, rows, cols)
  {
    if n == 0 then [] else Trajectory(b, start, rows, cols, n - 1) + [Evolve(b, start, rows, cols, n - 1)]
  }

  /** Entry `k` of the trajectory is the board evolved `k` times. */
  lemma {:induction false} TrajectoryAt(b: Boundary, start: Grid, rows: nat, cols: nat, n: nat)
    requires Covers(start, rows, cols)
    ensures var t := Trajectory(b, start, rows, cols, n);
      |t| == n && forall k :: 0 <= k < n ==> t[k] == Evolve(b, start, rows, cols, k)
  {
    if n > 0 {
      TrajectoryAt(b, start, rows, cols, n - 1);
    }
  }

  /** The loop of GoL.py:42-59 from the board `start`. */
  method Generations(start: Grid, rows: nat, cols: nat, n: nat) returns (frames: seq<Grid>, grid: Grid, gen: nat)
    requires Covers(start, rows, cols)
    ensures gen == n
    ensures grid == Evolve(Clip, start, rows, cols, n)
    ensures |frames| == n
    ensures forall k :: 0 <= k < n ==> frames[k] == Evolve(Clip, start, rows, cols, k)
  {
    grid := start;
    gen := 0;
    frames := [];
    while gen < n
      invariant gen <= n
      invariant grid == Evolve(Clip, start, rows, cols, gen)
      invariant frames == Trajectory(Clip, start, rows, cols, gen)
    {
      frames := frames + [grid];
      grid := ComputeNextGeneration(Clip, grid, rows, cols);
      gen := gen + 1;
    }
    TrajectoryAt(Clip, start, rows, cols, n);
  }
}
