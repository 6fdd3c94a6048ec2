/** Neighbour counting under the two boundary policies of the source:
    toroidal wrap-around (GoL_tools_mac.py and, by convolution, GoL_tools.py)
    and clipping at the border (GoL.py). */
module Neighbours {
  import opened GridModel

  datatype Boundary = Wrap | Clip

  /** `(x + d) % n` for a neighbour offset `d`: Python's `%` with a positive
      divisor is never negative, like Dafny's. */
  function WrapIndex(x: int, d: int, n: nat): (r: nat)
    requires 0 <= x < n && -1 <= d <= 1
    ensures r < n
    ensures r == if x + d < 0 then n - 1 else if x + d >= n then 0 else x + d
  {
    (x + d) % n
  }

  /** The cell `(i, j)` of a grid the loops can read. */
  predicate InGrid(g: Grid, rows: nat, cols: nat, i: int, j: int)
  {
    Covers(g, rows, cols) && 0 <= i < rows && 0 <= j < cols
  }

  /** What the neighbour at offset `(di, dj)` contributes to the count. */
  function Term(b: Boundary, g: Grid, rows: nat, cols: nat, i: int, j: int, di: int, dj: int): int
    requires InGrid(g, rows, cols, i, j) && -1 <= di <= 1 && -1 <= dj <= 1
  {
    match b
    case Wrap => g[WrapIndex(i, di, rows)][WrapIndex(j, dj, cols)]
    case Clip => if 0 <= i + di < rows && 0 <= j + dj < cols then g[i + di][j + dj] else 0
  }

  /** The first `n` steps of the inner loop `for dj in [-1, 0, 1]` on row
      offset `di`, with the centre skipped. */
  function RowPart(b: Boundary, g: Grid, rows: nat, cols: nat, i: int, j: int, di: int, n: nat): int
    requires InGrid(g, rows, cols, i, j) && -1 <= di <= 1 && n <= 3
  {
    if n == 0 then 0
    else
      var dj := n - 2;
      RowPart(b, g, rows, cols, i, j, di, n - 1) + (if di == 0 && dj == 0 then 0 else Term(b, g, rows, cols, i, j, di, dj))
  }

  /** The first `m` steps of the outer loop `for di in [-1, 0, 1]`. */
  function RowsPart(b: Boundary, g: Grid, rows: nat, cols: nat, i: int, j: int, m: nat): int
    requires InGrid(g, rows, cols, i, j) && m <= 3
  {
    if m == 0 then 0 else RowsPart(b, g, rows, cols, i, j, m - 1) + RowPart(b, g, rows, cols, i, j, m - 2, 3)
  }

  /** `count_neighbors`: the whole 3x3 walk. */
  function Count(b: Boundary, g: Grid, rows: nat, cols: nat, i: int, j: int): int
    requires InGrid(g, rows, cols, i, j)
  {
    RowsPart(b, g, rows, cols, i, j, 3)
  }

  /** The eight Moore neighbours written out one by one: an independent
      statement of what the count must add up. */
  function MooreSum(b: Boundary, g: Grid, rows: nat, cols: nat, i: int, j: int): int
    requires InGrid(g, rows, cols, i, j)
  {
    Term(b, g, rows, cols, i, j, -1, -1) + Term(b, g, rows, cols, i, j, -1, 0) + Term(b, g, rows, cols, i, j, -1, 1)
    + Term(b, g, rows, cols, i, j, 0, -1) + Term(b, g, rows, cols, i, j, 0, 1)
    + Term(b, g, rows, cols, i, j, 1, -1) + Term(b, g, rows, cols, i, j, 1, 0) + Term(b, g, rows, cols, i, j, 1, 1)
  }

  /** The count is the sum of the three completed inner loops. */
  lemma CountByRows(b: Boundary, g: Grid, rows: nat, cols: nat, i: int, j: int)
    requires InGrid(g, rows, cols, i, j)
    ensures Count(b, g, rows, cols, i, j)
      == RowPart(b, g, rows, cols, i, j, -1, 3) + RowPart(b, g, rows, cols, i, j, 0, 3) + RowPart(b, g, rows, cols, i, j, 1, 3)
  {
    assert RowsPart(b, g, rows, cols, i, j, 1) == RowPart(b, g, rows, cols, i, j, -1, 3);
    assert RowsPart(b, g, rows, cols, i, j, 2) == RowsPart(b, g, rows, cols, i, j, 1) + RowPart(b, g, rows, cols, i, j, 0, 3);
  }

  /** One completed inner loop: its three offsets, without the centre. */
  lemma RowPartFull(b: Boundary, g: Grid, rows: nat, cols: nat, i: int, j: int, di: int)
    requires InGrid(g, rows, cols, i, j) && -1 <= di <= 1
    ensures RowPart(b, g, rows, cols, i, j, di, 3)
      == Term(b, g, rows, cols, i, j, di, -1) + (if di == 0 then 0 else Term(b, g, rows, cols, i, j, di, 0))
         + Term(b, g, rows, cols, i, j, di, 1)
  {
    assert RowPart(b, g, rows, cols, i, j, di, 1) == Term(b, g, rows, cols, i, j, di, -1);
  }

  /** The loop adds exactly the eight neighbours and never the centre cell. */
  lemma CountIsMooreSum(b: Boundary, g: Grid, rows: nat, cols: nat, i: int, j: int)
    requires InGrid(g, rows, cols, i, j)
    ensures Count(b, g, rows, cols, i, j) == MooreSum(b, g, rows, cols, i, j)
  {
    CountByRows(b, g, rows, cols, i, j);
    RowPartFull(b, g, rows, cols, i, j, -1);
    RowPartFull(b, g, rows, cols, i, j, 0);
    RowPartFull(b, g, rows, cols, i, j, 1);
  }

  /** `count_neighbors(rows, cols, grid, i, j)` of GoL_tools_mac.py: nested
      loops accumulating `total` over the wrapped neighbours. */
  method CountNeighborsWrap(rows: nat, cols: nat, g: Grid, i: int, j: int) returns (total: int)
    requires InGrid(g, rows, cols, i, j)
    ensures total == MooreSum(Wrap, g, rows, cols, i, j)
  {
    total := 0;
    for di := -1 to 2
      invariant total == RowsPart(Wrap, g, rows, cols, i, j, di + 1)
    {
      for dj := -1 to 2
        invariant total == RowsPart(Wrap, g, rows, cols, i, j, di + 1) + RowPart(Wrap, g, rows, cols, i, j, di, dj + 1)
      {
        if di == 0 && dj == 0 {
          continue;
        }
        var r := (i + di) % rows;
        var c := (j + dj) % cols;
        total := total + g[r][c];
      }
    }
    CountIsMooreSum(Wrap, g, rows, cols, i, j);
  }

  /** `count_neighbors(grid, i, j)` of GoL.py: only neighbours inside the
      grid are added. */
  method CountNeighborsClip(rows: nat, cols: nat, g: Grid, i: int, j: int) returns (count: int)
    requires InGrid(g, rows, cols, i, j)
    ensures count == MooreSum(Clip, g, rows, cols, i, j)
  {
    count := 0;
    for di := -1 to 2
      invariant count == RowsPart(Clip, g, rows, cols, i, j, di + 1)
    {
      for dj := -1 to 2
        invariant count == RowsPart(Clip, g, rows, cols, i, j, di + 1) + RowPart(Clip, g, rows, cols, i, j, di, dj + 1)
      {
        if di == 0 && dj == 0 {
          continue;
        }
        var ni, nj := i + di, j + dj;
        if 0 <= ni < rows && 0 <= nj < cols {
          count := count + g[ni][nj];
        }
      }
    }
    CountIsMooreSum(Clip, g, rows, cols, i, j);
  }

  /** On a 0/1 grid each neighbour contributes 0 or 1. */
  lemma TermBinary(b: Boundary, g: Grid, rows: nat, cols: nat, i: int, j: int, di: int, dj: int)
    requires InGrid(g, rows, cols, i, j) && IsBinary(g) && -1 <= di <= 1 && -1 <= dj <= 1
    ensures 0 <= Term(b, g, rows, cols, i, j, di, dj) <= 1
  {
  }

  /** Under either policy, a 0/1 grid gives a count in [0, 8]. */
  lemma CountBounds(b: Boundary, g: Grid, rows: nat, cols: nat, i: int, j: int)
    requires InGrid(g, rows, cols, i, j) && IsBinary(g)
    ensures 0 <= Count(b, g, rows, cols, i, j) <= 8
  {
    CountIsMooreSum(b, g, rows, cols, i, j);
    TermBinary(b, g, rows, cols, i, j, -1, -1);
    TermBinary(b, g, rows, cols, i, j, -1, 0);
    TermBinary(b, g, rows, cols, i, j, -1, 1);
    TermBinary(b, g, rows, cols, i, j, 0, -1);
    TermBinary(b, g, rows, cols, i, j, 0, 1);
    TermBinary(b, g, rows, cols, i, j, 1, -1);
    TermBinary(b, g, rows, cols, i, j, 1, 0);
    TermBinary(b, g, rows, cols, i, j, 1, 1);
  }

  /** The cell (0, 0) sees the opposite corner under wrap-around. */
  lemma WrapSeesOppositeCorner(g: Grid, rows: nat, cols: nat)
    requires InGrid(g, rows, cols, 0, 0)
    ensures Term(Wrap, g, rows, cols, 0, 0, -1, -1) == g[rows - 1][cols - 1]
  {
  }

  /** Number of row (or column) offsets in [-1, 1] that stay inside [0, n). */
  function Span(x: int, n: nat): (s: nat)
    requires 0 <= x < n
    ensures 1 <= s <= 3
    ensures s <= 2 <==> x == 0 || x == n - 1
  {
    (if x > 0 then 1 else 0) + 1 + (if x + 1 < n then 1 else 0)
  }

  lemma {:induction false} ClipRowBound(g: Grid, rows: nat, cols: nat, i: int, j: int, di: int, n: nat)
    requires InGrid(g, rows, cols, i, j) && IsBinary(g) && -1 <= di <= 1 && n <= 3
    ensures 0 <= RowPart(Clip, g, rows, cols, i, j, di, n)
    ensures RowPart(Clip, g, rows, cols, i, j, di, n)
      <= if 0 <= i + di < rows
         then (if n >= 1 && j > 0 then 1 else 0) + (if n >= 2 && di != 0 then 1 else 0) + (if n == 3 && j + 1 < cols then 1 else 0)
         else 0
  {
    if n > 0 {
      ClipRowBound(g, rows, cols, i, j, di, n - 1);
    }
  }

  /** The clipped count is at most the number of in-grid neighbours. */
  lemma ClipCountBound(g: Grid, rows: nat, cols: nat, i: int, j: int)
    requires InGrid(g, rows, cols, i, j) && IsBinary(g)
    ensures 0 <= Count(Clip, g, rows, cols, i, j) <= Span(i, rows) * Span(j, cols) - 1
  {
    CountByRows(Clip, g, rows, cols, i, j);
    ClipRowBound(g, rows, cols, i, j, -1, 3);
    ClipRowBound(g, rows, cols, i, j, 0, 3);
    ClipRowBound(g, rows, cols, i, j, 1, 3);
    var sj := Span(j, cols);
    var si := Span(i, rows);
    assert si * sj == (if i > 0 then sj else 0) + sj + (if i + 1 < rows then sj else 0);
  }

  /** A corner cell has at most 3 live neighbours under clipping, an edge
      cell at most 5. */
  lemma ClipCornerAndEdge(g: Grid, rows: nat, cols: nat, i: int, j: int)
    requires InGrid(g, rows, cols, i, j) && IsBinary(g)
    ensures (i == 0 || i == rows - 1) && (j == 0 || j == cols - 1) ==> Count(Clip, g, rows, cols, i, j) <= 3
    ensures (i == 0 || i == rows - 1 || j == 0 || j == cols - 1) ==> Count(Clip, g, rows, cols, i, j) <= 5
  {
    ClipCountBound(g, rows, cols, i, j);
    var si, sj := Span(i, rows), Span(j, cols);
    if si <= 2 && sj <= 2 {
      assert si * sj <= 4;
    }
    if si <= 2 {
      assert si * sj <= 6;
    }
    if sj <= 2 {
      assert si * sj <= 6;
    }
  }

  lemma {:induction false} InteriorRowAgree(g: Grid, rows: nat, cols: nat, i: int, j: int, di: int, n: nat)
    requires InGrid(g, rows, cols, i, j) && 1 <= i < rows - 1 && 1 <= j < cols - 1 && -1 <= di <= 1 && n <= 3
    ensures RowPart(Wrap, g, rows, cols, i, j, di, n) == RowPart(Clip, g, rows, cols, i, j, di, n)
  {
    if n > 0 {
      InteriorRowAgree(g, rows, cols, i, j, di, n - 1);
    }
  }

  /** Away from the border the two policies count the same neighbours. */
  lemma InteriorAgree(g: Grid, rows: nat, cols: nat, i: int, j: int)
    requires InGrid(g, rows, cols, i, j) && 1 <= i < rows - 1 && 1 <= j < cols - 1
    ensures Count(Wrap, g, rows, cols, i, j) == Count(Clip, g, rows, cols, i, j)
  {
    CountByRows(Wrap, g, rows, cols, i, j);
    CountByRows(Clip, g, rows, cols, i, j);
    InteriorRowAgree(g, rows, cols, i, j, -1, 3);
    InteriorRowAgree(g, rows, cols, i, j, 0, 3);
    InteriorRowAgree(g, rows, cols, i, j, 1, 3);
  }

  /** The kernel of GoL_tools.py: ones around a zero centre. */
  const Kernel: seq<seq<int>> := [[1, 1, 1], [1, 0, 1], [1, 1, 1]]

  /** One product of `convolve2d(grid, kernel, mode='same', boundary='wrap')`.
      A convolution flips its kernel, so entry `(a, b)` weighs the input at
      `(i + 1 - a, j + 1 - b)`, wrapped around the torus. */
  function ConvTerm(g: Grid, rows: nat, cols: nat, i: int, j: int, a: int, b: int): int
    requires InGrid(g, rows, cols, i, j) && 0 <= a < 3 && 0 <= b < 3
  {
    Kernel[a][b] * g[WrapIndex(i, 1 - a, rows)][WrapIndex(j, 1 - b, cols)]
  }

  /** The entry `(i, j)` of the convolution: all nine products. */
  function ConvAt(g: Grid, rows: nat, cols: nat, i: int, j: int): int
    requires InGrid(g, rows, cols, i, j)
  {
    ConvTerm(g, rows, cols, i, j, 0, 0) + ConvTerm(g, rows, cols, i, j, 0, 1) + ConvTerm(g, rows, cols, i, j, 0, 2)
    + ConvTerm(g, rows, cols, i, j, 1, 0) + ConvTerm(g, rows, cols, i, j, 1, 1) + ConvTerm(g, rows, cols, i, j, 1, 2)
    + ConvTerm(g, rows, cols, i, j, 2, 0) + ConvTerm(g, rows, cols, i, j, 2, 1) + ConvTerm(g, rows, cols, i, j, 2, 2)
  }

  lemma ConvAtIsMooreSum(g: Grid, rows: nat, cols: nat, i: int, j: int)
    requires InGrid(g, rows, cols, i, j)
    ensures ConvAt(g, rows, cols, i, j) == MooreSum(Wrap, g, rows, cols, i, j)
  {
    assert Kernel[1][1] == 0;
  }

  /** `count_neighbors(grid)` of GoL_tools.py: the whole neighbour-count
      field of the `rows x cols` array `np.array(grid)` at once, wrapping at
      the array's own borders. It has the grid's shape, and every entry is
      the sum of the eight wrapped neighbours, the same number the scalar
      loop of GoL_tools_mac.py computes. */
  function ConvolveWrap(g: Grid, rows: nat, cols: nat): (field: seq<seq<int>>)
    requires rows >= 1 && IsShape(g, rows, cols)
    ensures IsShape(field, rows, cols)
    ensures forall i, j :: 0 <= i < rows && 0 <= j < cols ==> field[i][j] == MooreSum(Wrap, g, rows, cols, i, j)
  {
    var field := seq(rows, i requires 0 <= i < rows => seq(cols, j requires 0 <= j < cols => ConvAt(g, rows, cols, i, j)));
    assert forall i, j :: 0 <= i < rows && 0 <= j < cols ==> field[i][j] == MooreSum(Wrap, g, rows, cols, i, j) by {
      forall i, j | 0 <= i < rows && 0 <= j < cols {
        ConvAtIsMooreSum(g, rows, cols, i, j);
      }
    }
    field
  }
}
