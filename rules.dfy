/** The transition rule of the automaton and the one-generation step, as
    written in GoL.py:46-56, GameOfLife_MAC.py:51-60 and GoL_win.py:54-63. */
module Rules {
  import opened GridModel
  import opened Neighbours

  /** The per-cell decision: a live cell (value 1) survives with 2 or 3
      neighbours, any other cell is born with exactly 3. Stated against
      Conway's usual formulation "3 neighbours, or alive with 2". */
  function NextCell(v: int, n: int): (r: int)
    ensures r == 0 || r == 1
    ensures r == 1 <==> n == 3 || (v == 1 && n == 2)
  {
    if v == 1 then
      if n == 2 || n == 3 then 1 else 0
    else
      if n == 3 then 1 else 0
  }

  /** The next generation: a fresh `rows x cols` 0/1 grid whose every cell
      is decided from the old grid alone (see `StepRule`). */
  function Step(b: Boundary, g: Grid, rows: nat, cols: nat): (r: Grid)
    requires Covers(g, rows, cols)
    ensures IsShape(r, rows, cols)
  {
    StepRows(b, g, rows, cols, rows)
  }

  /** The first `k` rows of the next generation, built row after row as the
      outer loop `for i in range(rows)` fills them. */
  function StepRows(b: Boundary, g: Grid, rows: nat, cols: nat, k: nat): (r: Grid)
    requires Covers(g, rows, cols) && k <= rows
    ensures IsShape(r, k, cols)
  {
    if k == 0 then []
    else StepRows(b, g, rows, cols, k - 1) + [seq(cols, j requires 0 <= j < cols => NextCell(g[k - 1][j], Count(b, g, rows, cols, k - 1, j)))]
  }

  /** Cell `(i, j)` of the first `k` rows is the rule applied to the old
      cell and its neighbour count. */
  lemma {:induction false} StepRowsAt(b: Boundary, g: Grid, rows: nat, cols: nat, k: nat, i: nat, j: nat)
    requires Covers(g, rows, cols) && i < k <= rows && j < cols
    ensures StepRows(b, g, rows, cols, k)[i][j] == NextCell(g[i][j], Count(b, g, rows, cols, i, j))
  {
    if i < k - 1 {
      StepRowsAt(b, g, rows, cols, k - 1, i, j);
    }
  }

  /** The next generation holds only 0s and 1s, whatever the old grid held. */
  lemma StepBinary(b: Boundary, g: Grid, rows: nat, cols: nat)
    requires Covers(g, rows, cols)
    ensures IsBinary(Step(b, g, rows, cols))
  {
    var r := Step(b, g, rows, cols);
    forall i, j | 0 <= i < |r| && 0 <= j < |r[i]|
      ensures r[i][j] == 0 || r[i][j] == 1
    {
      StepRowsAt(b, g, rows, cols, rows, i, j);
    }
  }

  /** Every cell of the next generation is the rule applied to the cell's old
      value and its eight neighbours' sum. */
  lemma StepRule(b: Boundary, g: Grid, rows: nat, cols: nat)
    requires Covers(g, rows, cols)
    ensures forall i, j :: 0 <= i < rows && 0 <= j < cols ==>
      Step(b, g, rows, cols)[i][j] == NextCell(g[i][j], MooreSum(b, g, rows, cols, i, j))
  {
    forall i, j | 0 <= i < rows && 0 <= j < cols
      ensures Step(b, g, rows, cols)[i][j] == NextCell(g[i][j], MooreSum(b, g, rows, cols, i, j))
    {
      StepRowsAt(b, g, rows, cols, rows, i, j);
      CountIsMooreSum(b, g, rows, cols, i, j);
    }
  }

  /** `n` generations in a row. */
  function Evolve(b: Boundary, g: Grid, rows: nat, cols: nat, n: nat): (r: Grid)
    requires Covers(g, rows, cols)
    ensures n > 0 ==> IsShape(r, rows, cols)
    ensures n == 0 ==> r == g
  {
    if n == 0 then g else Step(b, Evolve(b, g, rows, cols, n - 1), rows, cols)
  }

  /** The nested loops that fill `new_grid`: a fresh zero grid in which the
      cells the rule makes live are set to 1, each neighbour count taken from
      the old grid by the per-cell counting loop of the chosen policy. */
  method ComputeNextGeneration(b: Boundary, g: Grid, rows: nat, cols: nat) returns (next: Grid)
    requires Covers(g, rows, cols)
    ensures next == Step(b, g, rows, cols)
  {
    var newGrid := new int[rows, cols]((_, _) => 0);
    for i := 0 to rows
      invariant forall a, c :: 0 <= a < i && 0 <= c < cols ==> newGrid[a, c] == StepCell(b, g, rows, cols, a, c)
      invariant forall a, c :: i <= a < rows && 0 <= c < cols ==> newGrid[a, c] == 0
    {
      FillRow(newGrid, b, g, rows, cols, i);
    }
    next := seq(rows, i requires 0 <= i < rows reads newGrid => seq(cols, j requires 0 <= j < cols reads newGrid => newGrid[i, j]));
    StepIsCellwise(b, g, rows, cols, next);
  }

  /** The inner loop `for j in range(cols)` of row `i`: every cell of the
      row that the rule makes live is set to 1; no other row is touched. */
  method FillRow(newGrid: array2<int>, b: Boundary, g: Grid, rows: nat, cols: nat, i: nat)
    requires Covers(g, rows, cols) && i < rows
    requires newGrid.Length0 == rows && newGrid.Length1 == cols
    requires forall c :: 0 <= c < cols ==> newGrid[i, c] == 0
    modifies newGrid
    ensures forall c :: 0 <= c < cols ==> newGrid[i, c] == StepCell(b, g, rows, cols, i, c)
    ensures forall a, c :: 0 <= a < rows && 0 <= c < cols && a != i ==> newGrid[a, c] == old(newGrid[a, c])
  {
    for j := 0 to cols
      invariant forall c :: 0 <= c < j ==> newGrid[i, c] == StepCell(b, g, rows, cols, i, c)
      invariant forall c :: j <= c < cols ==> newGrid[i, c] == 0
      invariant forall a, c :: 0 <= a < rows && 0 <= c < cols && a != i ==> newGrid[a, c] == old(newGrid[a, c])
    {
      var neighbors;
      if b == Wrap {
        neighbors := CountNeighborsWrap(rows, cols, g, i, j);
      } else {
        neighbors := CountNeighborsClip(rows, cols, g, i, j);
      }
      if g[i][j] == 1 {
        if neighbors == 2 || neighbors == 3 {
          newGrid[i, j] := 1;
        }
      } else {
        if neighbors == 3 {
          newGrid[i, j] := 1;
        }
      }
      assert newGrid[i, j] == NextCell(g[i][j], neighbors);
    }
  }

  /** The rule applied to cell `(i, j)`. */
  function StepCell(b: Boundary, g: Grid, rows: nat, cols: nat, i: int, j: int): int
    requires InGrid(g, rows, cols, i, j)
  {
    NextCell(g[i][j], MooreSum(b, g, rows, cols, i, j))
  }

  /** A `rows x cols` grid holding the rule's value in every cell is the step. */
  lemma StepIsCellwise(b: Boundary, g: Grid, rows: nat, cols: nat, r: Grid)
    requires Covers(g, rows, cols) && IsShape(r, rows, cols)
    requires forall i, j :: 0 <= i < rows && 0 <= j < cols ==> r[i][j] == StepCell(b, g, rows, cols, i, j)
    ensures r == Step(b, g, rows, cols)
  {
    var s := Step(b, g, rows, cols);
    StepRule(b, g, rows, cols);
    forall i | 0 <= i < rows
      ensures r[i] == s[i]
    {
      assert forall c :: 0 <= c < cols ==> r[i][c] == s[i][c];
    }
  }

  /** A live cell with fewer than two or more than three neighbours dies, a
      dead cell with other than three stays dead. */
  lemma StepDeaths(b: Boundary, g: Grid, rows: nat, cols: nat, i: nat, j: nat)
    requires Covers(g, rows, cols) && i < rows && j < cols
    ensures var n := Count(b, g, rows, cols, i, j);
      (n < 2 || n > 3 || (g[i][j] != 1 && n != 3)) ==> Step(b, g, rows, cols)[i][j] == 0
  {
    StepRowsAt(b, g, rows, cols, rows, i, j);
  }

  /** After at least one generation the grid is a 0/1 grid. */
  lemma EvolveBinary(b: Boundary, g: Grid, rows: nat, cols: nat, n: nat)
    requires Covers(g, rows, cols) && n > 0
    ensures IsBinary(Evolve(b, g, rows, cols, n))
  {
    StepBinary(b, Evolve(b, g, rows, cols, n - 1), rows, cols);
  }

  /** Stepping first and then evolving `n` times is evolving `n + 1` times. */
  lemma {:induction false} EvolveShift(b: Boundary, g: Grid, rows: nat, cols: nat, n: nat)
    requires Covers(g, rows, cols)
    ensures Evolve(b, Step(b, g, rows, cols), rows, cols, n) == Evolve(b, g, rows, cols, n + 1)
  {
    if n > 0 {
      EvolveShift(b, g, rows, cols, n - 1);
    }
  }
}
