/** Patterns whose fate the rule of GoL.py:46-56 fixes: the block, a still
    life; the blinker, an oscillator of period 2; and the glider, which
    moves one cell down and one cell right every four generations. Each
    pattern is first followed on the unbounded plane and on the torus, then
    laid on a board of the engine. The wrapped rule commutes with moving the
    whole grid diagonally, so the glider of `initialize_grid` glides round a
    wrapped board for ever. */
module Patterns {
  import opened GridModel
  import opened Neighbours
  import opened Rules
  import Initialization
  import Console

  /** A pattern in one of its phases. `Glider(k, false)` is phase `k` of the
      glider of `initialize_grid`; `Glider(k, true)` is its transpose, the
      glider of GoL.py. */
  datatype Pattern = Block | Blinker(vertical: bool) | Glider(phase: nat, transposed: bool)

  /** Whether cell `(r, c)` of the plane is live in pattern `p`. */
  predicate Live(p: Pattern, r: int, c: int)
  {
    match p
    case Block => 1 <= r <= 2 && 1 <= c <= 2
    case Blinker(v) => if v then c == 2 && 1 <= r <= 3 else r == 2 && 1 <= c <= 3
    case Glider(k, t) => if t then GliderLive(k, c, r) else GliderLive(k, r, c)
  }

  /** Whether cell `(r, c)` is live in phase `k` of the glider of
      `initialize_grid`. Phase `k + 4` is phase `k` moved by one row and one
      column. */
  predicate GliderLive(k: nat, r: int, c: int)
  {
    if k == 0 then (r == 0 && c == 2) || (r == 1 && (c == 0 || c == 2)) || (r == 2 && (c == 1 || c == 2))
    else if k == 1 then (r == 0 && c == 1) || (r == 1 && (c == 2 || c == 3)) || (r == 2 && (c == 1 || c == 2))
    else if k == 2 then (r == 0 && c == 2) || (r == 1 && c == 3) || (r == 2 && 1 <= c <= 3)
    else if k == 3 then (r == 1 && (c == 1 || c == 3)) || (r == 2 && (c == 2 || c == 3)) || (r == 3 && c == 2)
    else GliderLive(k - 4, r - 1, c - 1)
  }

  /** The value of cell `(r, c)` of the plane. */
  function Cell(p: Pattern, r: int, c: int): int
  {
    if Live(p, r, c) then 1 else 0
  }

  /** The live neighbours of `(r, c)` on the plane. */
  function Around(p: Pattern, r: int, c: int): int
  {
    Cell(p, r - 1, c - 1) + Cell(p, r - 1, c) + Cell(p, r - 1, c + 1)
    + Cell(p, r, c - 1) + Cell(p, r, c + 1)
    + Cell(p, r + 1, c - 1) + Cell(p, r + 1, c) + Cell(p, r + 1, c + 1)
  }

  /** The phase that follows. */
  function Next(p: Pattern): Pattern
  {
    match p
    case Block => Block
    case Blinker(v) => Blinker(!v)
    case Glider(k, t) => Glider(k + 1, t)
  }

  lemma BlockPlane(r: int, c: int)
    ensures NextCell(Cell(Block, r, c), Around(Block, r, c)) == Cell(Block, r, c)
  {
  }

  lemma BlinkerPlane(v: bool, r: int, c: int)
    ensures NextCell(Cell(Blinker(v), r, c), Around(Blinker(v), r, c)) == Cell(Blinker(!v), r, c)
  {
  }

  /** The glider of `initialize_grid`, one phase at a time. */
  lemma GliderPlane0(r: int, c: int)
    ensures NextCell(Cell(Glider(0, false), r, c), Around(Glider(0, false), r, c)) == Cell(Glider(1, false), r, c)
  {
  }

  lemma GliderPlane1(r: int, c: int)
    ensures NextCell(Cell(Glider(1, false), r, c), Around(Glider(1, false), r, c)) == Cell(Glider(2, false), r, c)
  {
  }

  lemma GliderPlane2(r: int, c: int)
    ensures NextCell(Cell(Glider(2, false), r, c), Around(Glider(2, false), r, c)) == Cell(Glider(3, false), r, c)
  {
  }

  lemma GliderPlane3(r: int, c: int)
    ensures NextCell(Cell(Glider(3, false), r, c), Around(Glider(3, false), r, c)) == Cell(Glider(4, false), r, c)
  {
    assert Cell(Glider(4, false), r, c) == Cell(Glider(0, false), r - 1, c - 1);
  }

  /** Glider phase `k` becomes phase `k + 1` on the plane: the glider keeps
      moving for ever. */
  lemma {:induction false} GliderPlane(k: nat, r: int, c: int)
    ensures NextCell(Cell(Glider(k, false), r, c), Around(Glider(k, false), r, c)) == Cell(Glider(k + 1, false), r, c)
    decreases k
  {
    if k == 0 {
      GliderPlane0(r, c);
    } else if k == 1 {
      GliderPlane1(r, c);
    } else if k == 2 {
      GliderPlane2(r, c);
    } else if k == 3 {
      GliderPlane3(r, c);
    } else {
      GliderPlane(k - 4, r - 1, c - 1);
      GliderShift(k, r, c);
    }
  }

  /** Glider phase `k`, for `k >= 4`, is phase `k - 4` moved by one row
      and one column. */
  lemma CellShift(k: nat, t: bool, r: int, c: int)
    requires k >= 4
    ensures Cell(Glider(k, t), r, c) == Cell(Glider(k - 4, t), r - 1, c - 1)
  {
    if t {
      assert GliderLive(k, c, r) == GliderLive(k - 4, c - 1, r - 1);
    } else {
      assert GliderLive(k, r, c) == GliderLive(k - 4, r - 1, c - 1);
    }
  }

  /** The same shift, for the neighbour counts. */
  lemma GliderShift(k: nat, r: int, c: int)
    requires k >= 4
    ensures Around(Glider(k, false), r, c) == Around(Glider(k - 4, false), r - 1, c - 1)
    ensures Cell(Glider(k + 1, false), r, c) == Cell(Glider(k - 3, false), r - 1, c - 1)
  {
    CellShift(k, false, r - 1, c - 1);
    CellShift(k, false, r - 1, c);
    CellShift(k, false, r - 1, c + 1);
    CellShift(k, false, r, c - 1);
    CellShift(k, false, r, c + 1);
    CellShift(k, false, r + 1, c - 1);
    CellShift(k, false, r + 1, c);
    CellShift(k, false, r + 1, c + 1);
    CellShift(k + 1, false, r, c);
  }

  /** Every pattern becomes its next phase on the unbounded plane. */
  lemma PlaneStep(p: Pattern, r: int, c: int)
    ensures NextCell(Cell(p, r, c), Around(p, r, c)) == Cell(Next(p), r, c)
  {
    match p
    case Block => BlockPlane(r, c);
    case Blinker(v) => BlinkerPlane(v, r, c);
    case Glider(k, t) =>
      if t {
        GliderPlane(k, c, r);
        assert Around(p, r, c) == Around(Glider(k, false), c, r);
      } else {
        GliderPlane(k, r, c);
      }
  }

  /** An index one step off a board of size `n`, wrapped back onto it. */
  function Torus(x: int, n: nat): int
  {
    if x < 0 then x + n else if x >= n then x - n else x
  }

  /** The values of `f` at the eight neighbours of `(r, c)` on the
      `rows x cols` torus, added up. */
  function TorusSum(f: (int, int) -> int, rows: nat, cols: nat, r: int, c: int): int
  {
    f(Torus(r - 1, rows), Torus(c - 1, cols)) + f(Torus(r - 1, rows), c) + f(Torus(r - 1, rows), Torus(c + 1, cols))
    + f(r, Torus(c - 1, cols)) + f(r, Torus(c + 1, cols))
    + f(Torus(r + 1, rows), Torus(c - 1, cols)) + f(Torus(r + 1, rows), c) + f(Torus(r + 1, rows), Torus(c + 1, cols))
  }

  /** The plane cells of `p`, as a function. */
  function CellsOf(p: Pattern): (int, int) -> int
  {
    (r, c) => Cell(p, r, c)
  }

  /** The live neighbours of `(r, c)` on the `rows x cols` torus. */
  function TorusAround(p: Pattern, rows: nat, cols: nat, r: int, c: int): int
  {
    TorusSum(CellsOf(p), rows, cols, r, c)
  }

  /** Pattern `p` becomes its next phase on the `rows x cols` torus. */
  ghost predicate TorusSteps(p: Pattern, rows: nat, cols: nat)
  {
    forall r, c :: 0 <= r < rows && 0 <= c < cols ==>
      NextCell(Cell(p, r, c), TorusAround(p, rows, cols, r, c)) == Cell(Next(p), r, c)
  }

  /** No live cell of `p` lies off the board. */
  ghost predicate Fits(p: Pattern, rows: nat, cols: nat)
  {
    forall r, c :: Live(p, r, c) ==> 0 <= r < rows && 0 <= c < cols
  }

  /** No live cell of `p` lies off the board or on its outer ring. */
  ghost predicate Clear(p: Pattern, rows: nat, cols: nat)
  {
    forall r, c :: Live(p, r, c) ==> 1 <= r < rows - 1 && 1 <= c < cols - 1
  }

  /** For a pattern clear of the outer ring, a neighbour of a board cell
      wrapped onto the board and the plane cell it stands for are both
      dead, or are the same cell. */
  lemma ClearTorusTerm(p: Pattern, rows: nat, cols: nat, r: int, c: int, dr: int, dc: int)
    requires Clear(p, rows, cols) && 0 <= r < rows && 0 <= c < cols && -1 <= dr <= 1 && -1 <= dc <= 1
    ensures CellsOf(p)(Torus(r + dr, rows), Torus(c + dc, cols)) == Cell(p, r + dr, c + dc)
  {
    var r', c' := Torus(r + dr, rows), Torus(c + dc, cols);
    if r' != r + dr || c' != c + dc {
      assert !Live(p, r', c') && !Live(p, r + dr, c + dc);
    }
  }

  /** A pattern clear of the outer ring sees the same neighbours on the
      torus as on the plane. */
  lemma ClearTorusAround(p: Pattern, rows: nat, cols: nat, r: int, c: int)
    requires Clear(p, rows, cols) && 0 <= r < rows && 0 <= c < cols
    ensures TorusAround(p, rows, cols, r, c) == Around(p, r, c)
  {
    ClearTorusTerm(p, rows, cols, r, c, -1, -1);
    ClearTorusTerm(p, rows, cols, r, c, -1, 0);
    ClearTorusTerm(p, rows, cols, r, c, -1, 1);
    ClearTorusTerm(p, rows, cols, r, c, 0, -1);
    ClearTorusTerm(p, rows, cols, r, c, 0, 1);
    ClearTorusTerm(p, rows, cols, r, c, 1, -1);
    ClearTorusTerm(p, rows, cols, r, c, 1, 0);
    ClearTorusTerm(p, rows, cols, r, c, 1, 1);
  }

  /** So it evolves on the torus as on the plane. */
  lemma ClearTorusSteps(p: Pattern, rows: nat, cols: nat)
    requires Clear(p, rows, cols)
    ensures TorusSteps(p, rows, cols)
  {
    forall r, c | 0 <= r < rows && 0 <= c < cols
      ensures NextCell(Cell(p, r, c), TorusAround(p, rows, cols, r, c)) == Cell(Next(p), r, c)
    {
      ClearTorusAround(p, rows, cols, r, c);
      PlaneStep(p, r, c);
    }
  }

  /** The glider of `initialize_grid` on a torus of at least 5 x 5, one
      phase at a time: the cells it wraps onto never change the outcome. */
  lemma GliderTorus0(rows: nat, cols: nat, r: int, c: int)
    requires 5 <= rows && 5 <= cols && 0 <= r < rows && 0 <= c < cols
    ensures NextCell(Cell(Glider(0, false), r, c), TorusAround(Glider(0, false), rows, cols, r, c)) == Cell(Glider(1, false), r, c)
  {
  }

  lemma GliderTorus1(rows: nat, cols: nat, r: int, c: int)
    requires 5 <= rows && 5 <= cols && 0 <= r < rows && 0 <= c < cols
    ensures NextCell(Cell(Glider(1, false), r, c), TorusAround(Glider(1, false), rows, cols, r, c)) == Cell(Glider(2, false), r, c)
  {
  }

  lemma GliderTorus2(rows: nat, cols: nat, r: int, c: int)
    requires 5 <= rows && 5 <= cols && 0 <= r < rows && 0 <= c < cols
    ensures NextCell(Cell(Glider(2, false), r, c), TorusAround(Glider(2, false), rows, cols, r, c)) == Cell(Glider(3, false), r, c)
  {
  }

  lemma GliderTorus3(rows: nat, cols: nat, r: int, c: int)
    requires 5 <= rows && 5 <= cols && 0 <= r < rows && 0 <= c < cols
    ensures NextCell(Cell(Glider(3, false), r, c), TorusAround(Glider(3, false), rows, cols, r, c)) == Cell(Glider(4, false), r, c)
  {
    assert Cell(Glider(4, false), r, c) == Cell(Glider(0, false), r - 1, c - 1);
  }

  /** Pattern `p` laid on a `rows x cols` board, the cells off the board
      dropped. */
  function Board(p: Pattern, rows: nat, cols: nat): (g: Grid)
    ensures IsShape(g, rows, cols) && IsBinary(g)
    ensures forall i, j :: 0 <= i < rows && 0 <= j < cols ==> g[i][j] == Cell(p, i, j)
  {
    seq(rows, r => seq(cols, c => Cell(p, r, c)))
  }

  /** Grid `g` holds `f(i, j)` in each of its `rows x cols` cells. */
  ghost predicate Holds(g: Grid, rows: nat, cols: nat, f: (int, int) -> int)
  {
    IsShape(g, rows, cols) && forall i, j :: 0 <= i < rows && 0 <= j < cols ==> g[i][j] == f(i, j)
  }

  /** `f` is zero off the `rows x cols` board. */
  ghost predicate ZeroOff(rows: nat, cols: nat, f: (int, int) -> int)
  {
    forall i, j :: !(0 <= i < rows && 0 <= j < cols) ==> f(i, j) == 0
  }

  /** A wrapped neighbour of a grid cell is `f` at the wrapped position. */
  lemma WrapTerm(g: Grid, rows: nat, cols: nat, f: (int, int) -> int, i: int, j: int, di: int, dj: int)
    requires Holds(g, rows, cols, f)
    requires 0 <= i < rows && 0 <= j < cols && -1 <= di <= 1 && -1 <= dj <= 1
    ensures Term(Wrap, g, rows, cols, i, j, di, dj) == f(Torus(i + di, rows), Torus(j + dj, cols))
  {
  }

  /** A clipped neighbour of a grid cell is `f` at the neighbour's position
      when `f` is zero off the board. */
  lemma ClipTerm(g: Grid, rows: nat, cols: nat, f: (int, int) -> int, i: int, j: int, di: int, dj: int)
    requires Holds(g, rows, cols, f) && ZeroOff(rows, cols, f)
    requires 0 <= i < rows && 0 <= j < cols && -1 <= di <= 1 && -1 <= dj <= 1
    ensures Term(Clip, g, rows, cols, i, j, di, dj) == f(i + di, j + dj)
  {
  }

  /** The wrapped neighbours add up to `f` summed round the torus. */
  lemma WrapMooreSum(g: Grid, rows: nat, cols: nat, f: (int, int) -> int, i: int, j: int)
    requires Holds(g, rows, cols, f)
    requires 0 <= i < rows && 0 <= j < cols
    ensures MooreSum(Wrap, g, rows, cols, i, j) == TorusSum(f, rows, cols, i, j)
  {
    WrapTerm(g, rows, cols, f, i, j, -1, -1);
    WrapTerm(g, rows, cols, f, i, j, -1, 0);
    WrapTerm(g, rows, cols, f, i, j, -1, 1);
    WrapTerm(g, rows, cols, f, i, j, 0, -1);
    WrapTerm(g, rows, cols, f, i, j, 0, 1);
    WrapTerm(g, rows, cols, f, i, j, 1, -1);
    WrapTerm(g, rows, cols, f, i, j, 1, 0);
    WrapTerm(g, rows, cols, f, i, j, 1, 1);
  }

  /** The clipped neighbours add up to `f` summed round the cell. */
  lemma ClipMooreSum(g: Grid, rows: nat, cols: nat, f: (int, int) -> int, i: int, j: int)
    requires Holds(g, rows, cols, f) && ZeroOff(rows, cols, f)
    requires 0 <= i < rows && 0 <= j < cols
    ensures MooreSum(Clip, g, rows, cols, i, j)
      == f(i - 1, j - 1) + f(i - 1, j) + f(i - 1, j + 1)
       + f(i, j - 1) + f(i, j + 1)
       + f(i + 1, j - 1) + f(i + 1, j) + f(i + 1, j + 1)
  {
    ClipTerm(g, rows, cols, f, i, j, -1, -1);
    ClipTerm(g, rows, cols, f, i, j, -1, 0);
    ClipTerm(g, rows, cols, f, i, j, -1, 1);
    ClipTerm(g, rows, cols, f, i, j, 0, -1);
    ClipTerm(g, rows, cols, f, i, j, 0, 1);
    ClipTerm(g, rows, cols, f, i, j, 1, -1);
    ClipTerm(g, rows, cols, f, i, j, 1, 0);
    ClipTerm(g, rows, cols, f, i, j, 1, 1);
  }

  /** What lets pattern `p` evolve undisturbed on the board: under clipping
      it must fit, under wrapping its torus counts must give its next phase. */
  ghost predicate Undisturbed(b: Boundary, p: Pattern, rows: nat, cols: nat)
  {
    if b == Clip then Fits(p, rows, cols) else TorusSteps(p, rows, cols)
  }

  /** The board of `p` holds its plane cells, and they are zero off the
      board when `p` fits. */
  lemma BoardHolds(p: Pattern, rows: nat, cols: nat)
    ensures Holds(Board(p, rows, cols), rows, cols, CellsOf(p))
    ensures Fits(p, rows, cols) ==> ZeroOff(rows, cols, CellsOf(p))
  {
  }

  /** Cell `(i, j)` after one clipped generation of a grid holding `f`:
      the rule applied to `f` and its eight neighbours. */
  lemma ClipStepHolds(g: Grid, rows: nat, cols: nat, f: (int, int) -> int, i: nat, j: nat)
    requires Holds(g, rows, cols, f) && ZeroOff(rows, cols, f) && i < rows && j < cols
    ensures Step(Clip, g, rows, cols)[i][j]
      == NextCell(f(i, j), f(i - 1, j - 1) + f(i - 1, j) + f(i - 1, j + 1)
                          + f(i, j - 1) + f(i, j + 1)
                          + f(i + 1, j - 1) + f(i + 1, j) + f(i + 1, j + 1))
  {
    StepRowsAt(Clip, g, rows, cols, rows, i, j);
    CountIsMooreSum(Clip, g, rows, cols, i, j);
    ClipMooreSum(g, rows, cols, f, i, j);
  }

  /** Cell `(i, j)` after one wrapped generation of a grid holding `f`:
      the rule applied to `f` and its eight neighbours round the torus. */
  lemma WrapStepHolds(g: Grid, rows: nat, cols: nat, f: (int, int) -> int, i: nat, j: nat)
    requires Holds(g, rows, cols, f) && i < rows && j < cols
    ensures Step(Wrap, g, rows, cols)[i][j] == NextCell(f(i, j), TorusSum(f, rows, cols, i, j))
  {
    StepRowsAt(Wrap, g, rows, cols, rows, i, j);
    CountIsMooreSum(Wrap, g, rows, cols, i, j);
    WrapMooreSum(g, rows, cols, f, i, j);
  }

  /** Cell `(i, j)` after one clipped generation is the cell of the next
      phase, when the pattern fits. */
  lemma ClipStepAt(p: Pattern, rows: nat, cols: nat, i: nat, j: nat)
    requires Fits(p, rows, cols) && i < rows && j < cols
    ensures Step(Clip, Board(p, rows, cols), rows, cols)[i][j] == Cell(Next(p), i, j)
  {
    BoardHolds(p, rows, cols);
    ClipStepHolds(Board(p, rows, cols), rows, cols, CellsOf(p), i, j);
    PlaneStep(p, i, j);
  }

  /** Cell `(i, j)` after one wrapped generation is the cell of the next
      phase, when the torus counts give it. */
  lemma WrapStepAt(p: Pattern, rows: nat, cols: nat, i: nat, j: nat)
    requires TorusSteps(p, rows, cols) && i < rows && j < cols
    ensures Step(Wrap, Board(p, rows, cols), rows, cols)[i][j] == Cell(Next(p), i, j)
  {
    BoardHolds(p, rows, cols);
    WrapStepHolds(Board(p, rows, cols), rows, cols, CellsOf(p), i, j);
  }

  /** One generation of the engine turns the board of a pattern into the
      board of its next phase. */
  lemma BoardStep(b: Boundary, p: Pattern, rows: nat, cols: nat)
    requires Undisturbed(b, p, rows, cols)
    ensures Step(b, Board(p, rows, cols), rows, cols) == Board(Next(p), rows, cols)
  {
    var s := Step(b, Board(p, rows, cols), rows, cols);
    var h := Board(Next(p), rows, cols);
    forall i, j | 0 <= i < rows && 0 <= j < cols
      ensures s[i][j] == h[i][j]
    {
      if b == Clip {
        ClipStepAt(p, rows, cols, i, j);
      } else {
        WrapStepAt(p, rows, cols, i, j);
      }
    }
    assert forall i | 0 <= i < rows :: s[i] == h[i];
  }

  /** The block is a still life: on any board of at least 4 x 4, under
      either policy, a generation leaves it as it is. */
  lemma BlockIsStill(b: Boundary, rows: nat, cols: nat)
    requires 4 <= rows && 4 <= cols
    ensures Step(b, Board(Block, rows, cols), rows, cols) == Board(Block, rows, cols)
  {
    assert Fits(Block, rows, cols) && Clear(Block, rows, cols);
    ClearTorusSteps(Block, rows, cols);
    BoardStep(b, Block, rows, cols);
  }

  /** On any board of at least 5 x 5, under either policy, a generation
      turns the blinker from one orientation to the other. */
  lemma BlinkerTurns(b: Boundary, v: bool, rows: nat, cols: nat)
    requires 5 <= rows && 5 <= cols
    ensures Step(b, Board(Blinker(v), rows, cols), rows, cols) == Board(Blinker(!v), rows, cols)
  {
    assert Fits(Blinker(v), rows, cols) && Clear(Blinker(v), rows, cols);
    ClearTorusSteps(Blinker(v), rows, cols);
    BoardStep(b, Blinker(v), rows, cols);
  }

  /** The blinker is an oscillator of period 2: one generation changes the
      board, the second restores it. */
  lemma BlinkerOscillates(b: Boundary, v: bool, rows: nat, cols: nat)
    requires 5 <= rows && 5 <= cols
    ensures Step(b, Board(Blinker(v), rows, cols), rows, cols) != Board(Blinker(v), rows, cols)
    ensures Evolve(b, Board(Blinker(v), rows, cols), rows, cols, 2) == Board(Blinker(v), rows, cols)
  {
    BlinkerTurns(b, v, rows, cols);
    BlinkerTurns(b, !v, rows, cols);
    assert Board(Blinker(v), rows, cols)[2][1] != Board(Blinker(!v), rows, cols)[2][1];
  }

  /** Glider phases 0 to 3 lie in the 4 x 4 square at the origin. */
  lemma GliderBox0(k: nat, r: int, c: int)
    requires k < 4
    ensures Live(Glider(k, false), r, c) ==> 0 <= r <= 3 && 0 <= c <= 3
  {
  }

  /** Glider phase `4 * m + k` lies in the 4 x 4 square whose corner is
      `(m, m)`. */
  lemma {:induction false} GliderBox(m: nat, k: nat, r: int, c: int)
    requires k < 4
    ensures Cell(Glider(4 * m + k, false), r, c) == 1 ==> m <= r <= m + 3 && m <= c <= m + 3
    decreases m
  {
    if m == 0 {
      GliderBox0(k, r, c);
    } else {
      GliderBox(m - 1, k, r - 1, c - 1);
      CellShift(4 * m + k, false, r, c);
    }
  }

  /** No phase of either glider has a live cell above row 0 or left of
      column 0. */
  lemma GliderNonNegative(k: nat, t: bool, r: int, c: int)
    ensures Cell(Glider(k, t), r, c) == 1 ==> 0 <= r && 0 <= c
  {
    var m, q := k / 4, k % 4;
    assert k == 4 * m + q;
    if t {
      GliderBox(m, q, c, r);
      assert Cell(Glider(k, t), r, c) == Cell(Glider(k, false), c, r);
    } else {
      GliderBox(m, q, r, c);
    }
  }

  /** Glider phase `k` fits on any board with room for that square. */
  lemma GliderFits(k: nat, t: bool, rows: nat, cols: nat)
    requires k / 4 + 4 <= rows && k / 4 + 4 <= cols
    ensures Fits(Glider(k, t), rows, cols)
  {
    var m, q := k / 4, k % 4;
    assert k == 4 * m + q;
    forall r, c | Live(Glider(k, t), r, c)
      ensures 0 <= r < rows && 0 <= c < cols
    {
      if t {
        GliderBox(m, q, c, r);
        assert Cell(Glider(k, t), r, c) == Cell(Glider(k, false), c, r);
      } else {
        GliderBox(m, q, r, c);
      }
    }
  }

  /** Under clipping, `n` generations take either glider from phase 0 to
      phase `n` as long as every phase before `n` fits on the board. */
  lemma {:induction false} ClippedGliderGlides(t: bool, rows: nat, cols: nat, n: nat)
    requires n <= 4 * (rows - 3) && n <= 4 * (cols - 3)
    ensures Evolve(Clip, Board(Glider(0, t), rows, cols), rows, cols, n) == Board(Glider(n, t), rows, cols)
  {
    if n > 0 {
      ClippedGliderGlides(t, rows, cols, n - 1);
      GliderFits(n - 1, t, rows, cols);
      BoardStep(Clip, Glider(n - 1, t), rows, cols);
    }
  }

  /** A grid moved one row down and one column right, a zero row and a
      zero column entering at the top and the left. */
  function Shifted(g: Grid, rows: nat, cols: nat): (r: Grid)
    requires IsShape(g, rows, cols)
    ensures IsShape(r, rows, cols)
    ensures forall i, j :: 0 <= i < rows && 0 <= j < cols ==> r[i][j] == if 1 <= i && 1 <= j then g[i - 1][j - 1] else 0
  {
    seq(rows, i requires 0 <= i < rows => seq(cols, j requires 0 <= j < cols => if 1 <= i && 1 <= j then g[i - 1][j - 1] else 0))
  }

  /** The board of glider phase `k + 4` is the board of phase `k` shifted. */
  lemma GliderMovesOn(k: nat, t: bool, rows: nat, cols: nat)
    ensures Board(Glider(k + 4, t), rows, cols) == Shifted(Board(Glider(k, t), rows, cols), rows, cols)
  {
    var h := Board(Glider(k + 4, t), rows, cols);
    var s := Shifted(Board(Glider(k, t), rows, cols), rows, cols);
    forall i, j | 0 <= i < rows && 0 <= j < cols
      ensures h[i][j] == s[i][j]
    {
      CellShift(k + 4, t, i, j);
      GliderNonNegative(k, t, i - 1, j - 1);
    }
    assert forall i | 0 <= i < rows :: h[i] == s[i];
  }

  /** The start board of GoL.py is the transposed glider in phase 0. */
  lemma StartIsGlider()
    ensures Console.StartGrid() == Board(Glider(0, true), Console.Rows, Console.Cols)
  {
    var g := Console.StartGrid();
    var h := Board(Glider(0, true), Console.Rows, Console.Cols);
    assert forall i | 0 <= i < Console.Rows :: g[i] == h[i];
  }

  /** GoL.py's glider glides: for the first 28 generations of the clipped
      10 x 10 board, every four generations move it one row down and one
      column right. */
  lemma StartGliderGlides(n: nat)
    requires n + 4 <= 28
    ensures Evolve(Clip, Console.StartGrid(), Console.Rows, Console.Cols, n + 4)
      == Shifted(Evolve(Clip, Console.StartGrid(), Console.Rows, Console.Cols, n), Console.Rows, Console.Cols)
  {
    StartIsGlider();
    ClippedGliderGlides(true, Console.Rows, Console.Cols, n);
    ClippedGliderGlides(true, Console.Rows, Console.Cols, n + 4);
    GliderMovesOn(n, true, Console.Rows, Console.Cols);
  }

  /** The first four phases of the glider of `initialize_grid` evolve
      undisturbed on a wrapped board of at least 5 x 5. */
  lemma GliderUndisturbedWrapped(k: nat, rows: nat, cols: nat)
    requires k < 4 && 5 <= rows && 5 <= cols
    ensures Undisturbed(Wrap, Glider(k, false), rows, cols)
  {
    if k == 0 {
      GliderTorusSteps0(rows, cols);
    } else if k == 1 {
      GliderTorusSteps1(rows, cols);
    } else if k == 2 {
      GliderTorusSteps2(rows, cols);
    } else {
      GliderTorusSteps3(rows, cols);
    }
  }

  lemma GliderTorusSteps0(rows: nat, cols: nat)
    requires 5 <= rows && 5 <= cols
    ensures TorusSteps(Glider(0, false), rows, cols)
  {
    forall r, c | 0 <= r < rows && 0 <= c < cols
      ensures NextCell(Cell(Glider(0, false), r, c), TorusAround(Glider(0, false), rows, cols, r, c)) == Cell(Glider(1, false), r, c)
    {
      GliderTorus0(rows, cols, r, c);
    }
  }

  lemma GliderTorusSteps1(rows: nat, cols: nat)
    requires 5 <= rows && 5 <= cols
    ensures TorusSteps(Glider(1, false), rows, cols)
  {
    forall r, c | 0 <= r < rows && 0 <= c < cols
      ensures NextCell(Cell(Glider(1, false), r, c), TorusAround(Glider(1, false), rows, cols, r, c)) == Cell(Glider(2, false), r, c)
    {
      GliderTorus1(rows, cols, r, c);
    }
  }

  lemma GliderTorusSteps2(rows: nat, cols: nat)
    requires 5 <= rows && 5 <= cols
    ensures TorusSteps(Glider(2, false), rows, cols)
  {
    forall r, c | 0 <= r < rows && 0 <= c < cols
      ensures NextCell(Cell(Glider(2, false), r, c), TorusAround(Glider(2, false), rows, cols, r, c)) == Cell(Glider(3, false), r, c)
    {
      GliderTorus2(rows, cols, r, c);
    }
  }

  lemma GliderTorusSteps3(rows: nat, cols: nat)
    requires 5 <= rows && 5 <= cols
    ensures TorusSteps(Glider(3, false), rows, cols)
  {
    forall r, c | 0 <= r < rows && 0 <= c < cols
      ensures NextCell(Cell(Glider(3, false), r, c), TorusAround(Glider(3, false), rows, cols, r, c)) == Cell(Glider(4, false), r, c)
    {
      GliderTorus3(rows, cols, r, c);
    }
  }

  /** A grid moved one row down and one column right, its last row and
      column wrapping round to the first. */
  function Diagonal(g: Grid, rows: nat, cols: nat): (r: Grid)
    requires IsShape(g, rows, cols)
    ensures IsShape(r, rows, cols)
    ensures forall i, j :: 0 <= i < rows && 0 <= j < cols ==> r[i][j] == g[WrapIndex(i, -1, rows)][WrapIndex(j, -1, cols)]
  {
    seq(rows, i requires 0 <= i < rows => seq(cols, j requires 0 <= j < cols => g[WrapIndex(i, -1, rows)][WrapIndex(j, -1, cols)]))
  }

  /** Moving back one place and moving by `d` commute on a cycle. */
  lemma WrapCommutes(x: int, d: int, n: nat)
    requires 0 <= x < n && -1 <= d <= 1
    ensures WrapIndex(WrapIndex(x, d, n), -1, n) == WrapIndex(WrapIndex(x, -1, n), d, n)
  {
  }

  /** A wrapped neighbour in the moved grid is the wrapped neighbour of the
      cell it came from. */
  lemma DiagonalTerm(g: Grid, rows: nat, cols: nat, i: int, j: int, di: int, dj: int)
    requires IsShape(g, rows, cols) && 0 <= i < rows && 0 <= j < cols && -1 <= di <= 1 && -1 <= dj <= 1
    ensures Term(Wrap, Diagonal(g, rows, cols), rows, cols, i, j, di, dj)
      == Term(Wrap, g, rows, cols, WrapIndex(i, -1, rows), WrapIndex(j, -1, cols), di, dj)
  {
    WrapCommutes(i, di, rows);
    WrapCommutes(j, dj, cols);
  }

  /** The wrapped neighbour count is the same after the move. */
  lemma DiagonalMooreSum(g: Grid, rows: nat, cols: nat, i: int, j: int)
    requires IsShape(g, rows, cols) && 0 <= i < rows && 0 <= j < cols
    ensures MooreSum(Wrap, Diagonal(g, rows, cols), rows, cols, i, j)
      == MooreSum(Wrap, g, rows, cols, WrapIndex(i, -1, rows), WrapIndex(j, -1, cols))
  {
    DiagonalTerm(g, rows, cols, i, j, -1, -1);
    DiagonalTerm(g, rows, cols, i, j, -1, 0);
    DiagonalTerm(g, rows, cols, i, j, -1, 1);
    DiagonalTerm(g, rows, cols, i, j, 0, -1);
    DiagonalTerm(g, rows, cols, i, j, 0, 1);
    DiagonalTerm(g, rows, cols, i, j, 1, -1);
    DiagonalTerm(g, rows, cols, i, j, 1, 0);
    DiagonalTerm(g, rows, cols, i, j, 1, 1);
  }

  /** The wrapped rule has no preferred place: cell `(i, j)` of the step of
      the moved grid is the cell it came from in the step of the grid. */
  lemma StepDiagonalAt(g: Grid, rows: nat, cols: nat, i: nat, j: nat)
    requires IsShape(g, rows, cols) && i < rows && j < cols
    ensures Step(Wrap, Diagonal(g, rows, cols), rows, cols)[i][j] == Diagonal(Step(Wrap, g, rows, cols), rows, cols)[i][j]
  {
    var d := Diagonal(g, rows, cols);
    var i', j' := WrapIndex(i, -1, rows), WrapIndex(j, -1, cols);
    StepRowsAt(Wrap, d, rows, cols, rows, i, j);
    CountIsMooreSum(Wrap, d, rows, cols, i, j);
    StepRowsAt(Wrap, g, rows, cols, rows, i', j');
    CountIsMooreSum(Wrap, g, rows, cols, i', j');
    DiagonalMooreSum(g, rows, cols, i, j);
  }

  /** Stepping the moved grid is moving the stepped grid. */
  lemma StepDiagonal(g: Grid, rows: nat, cols: nat)
    requires IsShape(g, rows, cols)
    ensures Step(Wrap, Diagonal(g, rows, cols), rows, cols) == Diagonal(Step(Wrap, g, rows, cols), rows, cols)
  {
    var s := Step(Wrap, Diagonal(g, rows, cols), rows, cols);
    var h := Diagonal(Step(Wrap, g, rows, cols), rows, cols);
    forall i, j | 0 <= i < rows && 0 <= j < cols
      ensures s[i][j] == h[i][j]
    {
      StepDiagonalAt(g, rows, cols, i, j);
    }
    assert forall i | 0 <= i < rows :: s[i] == h[i];
  }

  /** So is evolving it for any number of generations. */
  lemma {:induction false} EvolveDiagonal(g: Grid, rows: nat, cols: nat, n: nat)
    requires IsShape(g, rows, cols)
    ensures Evolve(Wrap, Diagonal(g, rows, cols), rows, cols, n) == Diagonal(Evolve(Wrap, g, rows, cols, n), rows, cols)
  {
    if n > 0 {
      EvolveDiagonal(g, rows, cols, n - 1);
      StepDiagonal(Evolve(Wrap, g, rows, cols, n - 1), rows, cols);
    }
  }

  /** Evolving `m` generations and then `n` more is evolving `m + n`. */
  lemma {:induction false} EvolveAdd(b: Boundary, g: Grid, rows: nat, cols: nat, m: nat, n: nat)
    requires IsShape(g, rows, cols)
    ensures Evolve(b, Evolve(b, g, rows, cols, m), rows, cols, n) == Evolve(b, g, rows, cols, m + n)
  {
    if n > 0 {
      EvolveAdd(b, g, rows, cols, m, n - 1);
    }
  }

  /** The glider preset of `initialize_grid` is phase 0 of the glider. */
  lemma PresetIsGlider(rows: nat, cols: nat)
    requires 3 <= rows && 3 <= cols
    ensures Initialization.GliderGrid(rows, cols) == Board(Glider(0, false), rows, cols)
  {
    var g := Initialization.GliderGrid(rows, cols);
    var h := Board(Glider(0, false), rows, cols);
    assert forall i | 0 <= i < rows :: g[i] == h[i];
  }

  /** Four wrapped generations move the preset one row down and one column
      right on any board of at least 5 x 5. */
  lemma PresetFourGenerations(rows: nat, cols: nat)
    requires 5 <= rows && 5 <= cols
    ensures Evolve(Wrap, Initialization.GliderGrid(rows, cols), rows, cols, 4)
      == Diagonal(Initialization.GliderGrid(rows, cols), rows, cols)
  {
    PresetIsGlider(rows, cols);
    var g := Board(Glider(0, false), rows, cols);
    var k := 0;
    while k < 4
      invariant k <= 4
      invariant Evolve(Wrap, g, rows, cols, k) == Board(Glider(k, false), rows, cols)
    {
      GliderUndisturbedWrapped(k, rows, cols);
      BoardStep(Wrap, Glider(k, false), rows, cols);
      k := k + 1;
    }
    GliderFourIsDiagonal(rows, cols);
  }

  /** Cell `(i, j)` of glider phase 4 is the cell diagonally before it in
      phase 0, wrapping round the board. */
  lemma GliderFourIsDiagonalAt(rows: nat, cols: nat, i: nat, j: nat)
    requires 5 <= rows && 5 <= cols && i < rows && j < cols
    ensures Cell(Glider(4, false), i, j) == Cell(Glider(0, false), WrapIndex(i, -1, rows), WrapIndex(j, -1, cols))
  {
    CellShift(4, false, i, j);
    GliderBox0(0, WrapIndex(i, -1, rows), WrapIndex(j, -1, cols));
    GliderNonNegative(0, false, i - 1, j - 1);
  }

  /** On a board of at least 5 x 5, glider phase 4 is phase 0 moved one row
      down and one column right. */
  lemma GliderFourIsDiagonal(rows: nat, cols: nat)
    requires 5 <= rows && 5 <= cols
    ensures Board(Glider(4, false), rows, cols) == Diagonal(Board(Glider(0, false), rows, cols), rows, cols)
  {
    var h := Board(Glider(4, false), rows, cols);
    var d := Diagonal(Board(Glider(0, false), rows, cols), rows, cols);
    forall i, j | 0 <= i < rows && 0 <= j < cols
      ensures h[i][j] == d[i][j]
    {
      GliderFourIsDiagonalAt(rows, cols, i, j);
    }
    assert forall i | 0 <= i < rows :: h[i] == d[i];
  }

  /** On a wrapped board of at least 5 x 5 the preset of `initialize_grid`
      glides for ever: every four generations move it one row down and one
      column right, round the edges. */
  lemma PresetGlides(rows: nat, cols: nat, n: nat)
    requires 5 <= rows && 5 <= cols
    ensures Evolve(Wrap, Initialization.GliderGrid(rows, cols), rows, cols, n + 4)
      == Diagonal(Evolve(Wrap, Initialization.GliderGrid(rows, cols), rows, cols, n), rows, cols)
  {
    var g := Initialization.GliderGrid(rows, cols);
    PresetFourGenerations(rows, cols);
    EvolveAdd(Wrap, g, rows, cols, 4, n);
    EvolveDiagonal(g, rows, cols, n);
  }
  /** Row `i` of the moved grid is row `i - 1` (row `rows - 1` for the
      first) rotated by one cell, so it has the same sum. */
  lemma DiagonalRowSum(g: Grid, rows: nat, cols: nat, i: nat)
    requires IsShape(g, rows, cols) && i < rows
    ensures RowSum(Diagonal(g, rows, cols)[i]) == RowSum(g[WrapIndex(i, -1, rows)])
  {
    var row, e := g[WrapIndex(i, -1, rows)], Diagonal(g, rows, cols)[i];
    if cols > 0 {
      assert e == [row[cols - 1]] + row[..cols - 1];
      RowSumRotate(row);
    } else {
      assert e == row;
    }
  }

  /** Moving a grid diagonally round the board keeps its live count: each
      row is rotated by one cell, and the rows are rotated by one row. */
  lemma DiagonalLiveCount(g: Grid, rows: nat, cols: nat)
    requires IsShape(g, rows, cols)
    ensures LiveCount(Diagonal(g, rows, cols)) == LiveCount(g)
  {
    if rows > 0 {
      var d := Diagonal(g, rows, cols);
      var h := [g[rows - 1]] + g[..rows - 1];
      forall i | 0 <= i < rows
        ensures RowSum(d[i]) == RowSum(h[i])
      {
        DiagonalRowSum(g, rows, cols, i);
        assert h[i] == g[WrapIndex(i, -1, rows)];
      }
      LiveCountRowwise(d, h);
      LiveCountRotate(g);
    }
  }

  /** The glider preset keeps its five live cells: every fourth wrapped
      generation on a board of at least 5 x 5 has exactly five. */
  lemma {:induction false} PresetLiveCount(rows: nat, cols: nat, m: nat)
    requires 5 <= rows && 5 <= cols
    ensures LiveCount(Evolve(Wrap, Initialization.GliderGrid(rows, cols), rows, cols, 4 * m)) == 5
  {
    var g := Initialization.GliderGrid(rows, cols);
    if m == 0 {
      Initialization.GliderLiveCount(rows, cols);
    } else {
      PresetLiveCount(rows, cols, m - 1);
      PresetGlides(rows, cols, 4 * (m - 1));
      DiagonalLiveCount(Evolve(Wrap, g, rows, cols, 4 * (m - 1)), rows, cols);
    }
  }
}
