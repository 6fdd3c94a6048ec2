/** `initialize_grid(rows, cols, mode)` of GoL_tools_mac.py:44-57 and its
    platform-forked copy in GoL_tools.py:61-83. */
module Initialization {
  import opened Common
  import opened GridModel

  /** `random.choice([0, 1])` for the cell `(i, j)`: an arbitrary oracle,
      true for 1. */
  type Coin = (nat, nat) -> bool

  /** What `initialize_grid` hands back: a grid, a raised exception, or, on
      a platform the GoL_tools.py copy does not handle, the implicit `None`
      of a Python function that falls off its end. */
  datatype InitOutcome = Initialized(grid: Grid) | Raised(error: PyError) | ReturnedNone

  /** Random mode: every cell drawn independently from {0, 1}. */
  function RandomGrid(rows: nat, cols: nat, coin: Coin): (g: Grid)
    ensures IsShape(g, rows, cols) && IsBinary(g)
    ensures forall i, j :: 0 <= i < rows && 0 <= j < cols ==> (g[i][j] == 1 <==> coin(i, j))
  {
    seq(rows, i requires 0 <= i < rows => seq(cols, j requires 0 <= j < cols => if coin(i, j) then 1 else 0))
  }

  /** The cells the glider preset sets, as `(row, column)`. */
  const GliderCells: set<(int, int)> := {(1, 0), (2, 1), (0, 2), (1, 2), (2, 2)}

  /** Glider mode: a fresh zero grid in which five cells are assigned 1 when
      the grid is at least 3 x 3. The result is a `rows x cols` 0/1 grid; on
      a grid of at least 3 x 3 exactly the five glider cells are live, on a
      smaller one none. */
  function GliderGrid(rows: nat, cols: nat): (r: Grid)
    ensures IsShape(r, rows, cols) && IsBinary(r)
    ensures rows >= 3 && cols >= 3 ==>
      forall i, j :: 0 <= i < rows && 0 <= j < cols ==> r[i][j] == if (i, j) in GliderCells then 1 else 0
    ensures rows < 3 || cols < 3 ==> forall i, j :: 0 <= i < rows && 0 <= j < cols ==> r[i][j] == 0
  {
    var g := ZeroGrid(rows, cols);
    if rows >= 3 && cols >= 3 then
      SetCell(SetCell(SetCell(SetCell(SetCell(g, 1, 0, 1), 2, 1, 1), 0, 2, 1), 1, 2, 1), 2, 2, 1)
    else
      g
  }

  /** The glider preset on a grid of at least 3 x 3 has five live cells. */
  lemma GliderLiveCount(rows: nat, cols: nat)
    requires rows >= 3 && cols >= 3
    ensures LiveCount(GliderGrid(rows, cols)) == 5
  {
    var g0 := ZeroGrid(rows, cols);
    LiveCountBinary(g0);
    var g1 := SetCell(g0, 1, 0, 1);
    LiveCountSetCell(g0, 1, 0, 1);
    var g2 := SetCell(g1, 2, 1, 1);
    LiveCountSetCell(g1, 2, 1, 1);
    var g3 := SetCell(g2, 0, 2, 1);
    LiveCountSetCell(g2, 0, 2, 1);
    var g4 := SetCell(g3, 1, 2, 1);
    LiveCountSetCell(g3, 1, 2, 1);
    LiveCountSetCell(g4, 2, 2, 1);
  }

  /** GoL_tools_mac.py: 'random' and 'glider' build a grid, any other mode
      raises ValueError. */
  function InitializeMac(rows: nat, cols: nat, mode: string, coin: Coin): (r: InitOutcome)
    ensures r.Raised? <==> mode != "random" && mode != "glider"
    ensures r.Raised? ==> r.error == ValueError
    ensures r.Initialized? ==> IsShape(r.grid, rows, cols) && IsBinary(r.grid)
    ensures mode == "random" ==> r == Initialized(RandomGrid(rows, cols, coin))
    ensures mode == "glider" ==> r == Initialized(GliderGrid(rows, cols))
  {
    if mode == "random" then Initialized(RandomGrid(rows, cols, coin))
    else if mode == "glider" then Initialized(GliderGrid(rows, cols))
    else Raised(ValueError)
  }

  /** GoL_tools.py: the macOS branch behaves as GoL_tools_mac.py; the Windows
      branch never raises and leaves the grid all zero for every mode except
      'random' (the glider is not implemented there); on any other platform
      nothing is returned. */
  function InitializeTools(platform: Platform, rows: nat, cols: nat, mode: string, coin: Coin): (r: InitOutcome)
    ensures platform == Darwin ==> r == InitializeMac(rows, cols, mode, coin)
    ensures platform == Windows ==> r.Initialized? && IsShape(r.grid, rows, cols) && IsBinary(r.grid)
    ensures platform == Windows && mode != "random" ==>
      forall i, j :: 0 <= i < rows && 0 <= j < cols ==> r.grid[i][j] == 0
    ensures platform != Other && mode == "random" ==> r == Initialized(RandomGrid(rows, cols, coin))
    ensures platform == Other ==> r == ReturnedNone
  {
    match platform
    case Darwin => InitializeMac(rows, cols, mode, coin)
    case Windows =>
      var grid := ZeroGrid(rows, cols);
      if mode == "random" then Initialized(RandomGrid(rows, cols, coin))
      else Initialized(grid)
    case Other => ReturnedNone
  }
}
