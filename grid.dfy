/** The grid of the automaton: a list of rows of integer cells, 1 for a live
    cell and 0 for a dead one. Grids read from a snapshot file may hold other
    values or rows of other lengths, so shape and binariness are predicates
    rather than part of the type. */
module GridModel {

  type Grid = seq<seq<int>>

  /** Exactly `rows` rows of exactly `cols` cells: the shape of every grid
      the engine builds itself. */
  predicate IsShape(g: Grid, rows: nat, cols: nat)
  {
    |g| == rows && forall i :: 0 <= i < rows ==> |g[i]| == cols
  }

  /** Exactly `rows` rows, and every `g[i][j]` with `j < cols` exists: what
      the nested loops of the engine read. Cells past `cols` are never read. */
  predicate Covers(g: Grid, rows: nat, cols: nat)
  {
    |g| == rows && forall i :: 0 <= i < rows ==> |g[i]| >= cols
  }

  /** Every cell is 0 or 1. */
  predicate IsBinary(g: Grid)
  {
    forall i, j :: 0 <= i < |g| && 0 <= j < |g[i]| ==> g[i][j] == 0 || g[i][j] == 1
  }

  /** `[[0 for _ in range(cols)] for _ in range(rows)]` */
  function ZeroGrid(rows: nat, cols: nat): (g: Grid)
    ensures IsShape(g, rows, cols) && IsBinary(g)
    ensures forall i, j :: 0 <= i < rows && 0 <= j < cols ==> g[i][j] == 0
  {
    seq(rows, _ => seq(cols, _ => 0))
  }

  /** `grid[i][j] = v` on a grid that has that cell. */
  function SetCell(g: Grid, i: nat, j: nat, v: int): (r: Grid)
    requires i < |g| && j < |g[i]|
    ensures |r| == |g| && forall k :: 0 <= k < |g| ==> |r[k]| == |g[k]|
    ensures r[i][j] == v
    ensures forall a, b :: 0 <= a < |g| && 0 <= b < |g[a]| && (a, b) != (i, j) ==> r[a][b] == g[a][b]
  {
    g[i := g[i][j := v]]
  }

  /** `sum(row)` */
  function RowSum(row: seq<int>): int
  {
    if row == [] then 0 else row[0] + RowSum(row[1..])
  }

  /** `sum(sum(row) for row in grid)`: the live-cell count of a 0/1 grid. */
  function LiveCount(g: Grid): int
  {
    if g == [] then 0 else RowSum(g[0]) + LiveCount(g[1..])
  }

  lemma {:induction false} RowSumUpdate(row: seq<int>, j: nat, v: int)
    requires j < |row|
    ensures RowSum(row[j := v]) == RowSum(row) - row[j] + v
  {
    if j == 0 {
      assert row[j := v][1..] == row[1..];
    } else {
      assert row[j := v][1..] == row[1..][j - 1 := v];
      RowSumUpdate(row[1..], j - 1, v);
    }
  }

  lemma {:induction false} LiveCountUpdate(g: Grid, i: nat, r: seq<int>)
    requires i < |g|
    ensures LiveCount(g[i := r]) == LiveCount(g) - RowSum(g[i]) + RowSum(r)
  {
    if i == 0 {
      assert g[i := r][1..] == g[1..];
    } else {
      assert g[i := r][1..] == g[1..][i - 1 := r];
      LiveCountUpdate(g[1..], i - 1, r);
    }
  }

  /** Setting one cell changes the live count by the difference of the values. */
  lemma LiveCountSetCell(g: Grid, i: nat, j: nat, v: int)
    requires i < |g| && j < |g[i]|
    ensures LiveCount(SetCell(g, i, j, v)) == LiveCount(g) - g[i][j] + v
  {
    RowSumUpdate(g[i], j, v);
    LiveCountUpdate(g, i, g[i][j := v]);
  }

  lemma {:induction false} RowSumBinary(row: seq<int>)
    requires forall k :: 0 <= k < |row| ==> row[k] == 0 || row[k] == 1
    ensures 0 <= RowSum(row) <= |row|
    ensures RowSum(row) == 0 <==> forall k :: 0 <= k < |row| ==> row[k] == 0
  {
    if row != [] {
      RowSumBinary(row[1..]);
      assert forall k :: 1 <= k < |row| ==> row[k] == row[1..][k - 1];
    }
  }

  /** A 0/1 grid has no live cell exactly when its live count is 0, and the
      count is non-negative. */
  lemma {:induction false} LiveCountBinary(g: Grid)
    requires IsBinary(g)
    ensures 0 <= LiveCount(g)
    ensures LiveCount(g) == 0 <==> forall i, j :: 0 <= i < |g| && 0 <= j < |g[i]| ==> g[i][j] == 0
  {
    if g != [] {
      RowSumBinary(g[0]);
      LiveCountBinary(g[1..]);
      assert forall i :: 1 <= i < |g| ==> g[i] == g[1..][i - 1];
    }
  }
  /** `sum(a + b) == sum(a) + sum(b)` for rows. */
  lemma {:induction false} RowSumAppend(a: seq<int>, b: seq<int>)
    ensures RowSum(a + b) == RowSum(a) + RowSum(b)
  {
    if a != [] {
      assert (a + b)[1..] == a[1..] + b;
      RowSumAppend(a[1..], b);
    } else {
      assert a + b == b;
    }
  }

  /** Moving the last cell of a row to its front keeps the row's sum. */
  lemma RowSumRotate(row: seq<int>)
    requires row != []
    ensures RowSum([row[|row| - 1]] + row[..|row| - 1]) == RowSum(row)
  {
    var n := |row|;
    RowSumAppend([row[n - 1]], row[..n - 1]);
    RowSumAppend(row[..n - 1], [row[n - 1]]);
    assert row[..n - 1] + [row[n - 1]] == row;
    assert [row[n - 1]][1..] == [];
  }

  /** The live count of two stacked grids is the sum of their counts. */
  lemma {:induction false} LiveCountAppend(a: Grid, b: Grid)
    ensures LiveCount(a + b) == LiveCount(a) + LiveCount(b)
  {
    if a != [] {
      assert (a + b)[1..] == a[1..] + b;
      LiveCountAppend(a[1..], b);
    } else {
      assert a + b == b;
    }
  }

  /** Moving the last row of a grid to its top keeps the live count. */
  lemma LiveCountRotate(g: Grid)
    requires g != []
    ensures LiveCount([g[|g| - 1]] + g[..|g| - 1]) == LiveCount(g)
  {
    var n := |g|;
    LiveCountAppend([g[n - 1]], g[..n - 1]);
    LiveCountAppend(g[..n - 1], [g[n - 1]]);
    assert g[..n - 1] + [g[n - 1]] == g;
    assert [g[n - 1]][1..] == [];
  }

  /** Grids whose rows have pairwise equal sums have equal live counts. */
  lemma {:induction false} LiveCountRowwise(a: Grid, b: Grid)
    requires |a| == |b| && forall i :: 0 <= i < |a| ==> RowSum(a[i]) == RowSum(b[i])
    ensures LiveCount(a) == LiveCount(b)
  {
    if a != [] {
      LiveCountRowwise(a[1..], b[1..]);
    }
  }
}
