/** `create_image`: painting a grid into a pixel buffer of
    `cols * cell_size` by `rows * cell_size` pixels, as in
    GoL_tools_mac.py:30-42 and GoL_tools.py:39-59. The buffer is indexed
    `[y, x]`, row of pixels first. */
module Raster {
  import opened Common
  import opened GridModel

  datatype Colour = Black | White

  /** The fill of a cell: white for 1, black for anything else. */
  function CellColour(v: int): Colour
  {
    if v == 1 then White else Black
  }

  lemma MulMonotone(a: int, b: int, c: int)
    requires a <= b && c >= 0
    ensures a * c <= b * c
  {
    var d := b - a;
    assert d * c >= 0;
    assert b * c == a * c + d * c;
  }

  /** Floor division locates a coordinate: `k * cs <= x` exactly when
      `k <= x / cs`. */
  lemma DivBound(x: int, cs: int, k: int)
    requires cs >= 1 && x >= 0
    ensures k * cs <= x <==> k <= x / cs
  {
    var q, r := x / cs, x % cs;
    assert x == q * cs + r && 0 <= r < cs;
    if k <= q {
      MulMonotone(k, q, cs);
    } else {
      MulMonotone(q + 1, k, cs);
      assert (q + 1) * cs == q * cs + cs;
    }
  }

  /** A coordinate lies in block `k` exactly when it divides down to `k`. */
  lemma InBlock(x: int, cs: int, k: int)
    requires cs >= 1 && x >= 0
    ensures k * cs <= x <= (k + 1) * cs - 1 <==> x / cs == k
  {
    DivBound(x, cs, k);
    DivBound(x, cs, k + 1);
  }

  /** The cell owning a coordinate of a buffer `n * cs` wide is inside the grid. */
  lemma OwnerInRange(x: int, cs: int, n: nat)
    requires cs >= 1 && 0 <= x < n * cs
    ensures 0 <= x / cs < n
  {
    DivBound(x, cs, n);
  }

  /** The value of the cell `(y div cs, x div cs)` that pixel `(x, y)` lies in. */
  function CellAt(g: Grid, rows: nat, cols: nat, cs: nat, y: int, x: int): int
    requires Covers(g, rows, cols) && cs >= 1 && 0 <= y < rows * cs && 0 <= x < cols * cs
  {
    OwnerInRange(y, cs, rows);
    OwnerInRange(x, cs, cols);
    g[y / cs][x / cs]
  }

  /** The colour pixel `(x, y)` must have: that of the cell it lies in. */
  function Pixel(g: Grid, rows: nat, cols: nat, cs: nat, y: int, x: int): Colour
    requires Covers(g, rows, cols) && cs >= 1 && 0 <= y < rows * cs && 0 <= x < cols * cs
  {
    CellColour(CellAt(g, rows, cols, cs, y, x))
  }

  /** Every pixel of the `cs x cs` block of cell `(i, j)` has the cell's
      colour: no gaps and no bleeding into neighbouring blocks. */
  lemma BlockColour(g: Grid, rows: nat, cols: nat, cs: nat, i: nat, j: nat, dy: nat, dx: nat)
    requires Covers(g, rows, cols) && cs >= 1 && i < rows && j < cols && dy < cs && dx < cs
    ensures 0 <= i * cs + dy < rows * cs && 0 <= j * cs + dx < cols * cs
    ensures CellAt(g, rows, cols, cs, i * cs + dy, j * cs + dx) == g[i][j]
    ensures Pixel(g, rows, cols, cs, i * cs + dy, j * cs + dx) == CellColour(g[i][j])
  {
    InBlock(i * cs + dy, cs, i);
    InBlock(j * cs + dx, cs, j);
    DivBound(i * cs + dy, cs, rows);
    DivBound(j * cs + dx, cs, cols);
  }

  /** `draw.rectangle([x0, y0, x1, y1], fill=c)`: the inclusive rectangle,
      clipped to the image, takes colour `c`; nothing else changes. */
  method FillRect(img: array2<Colour>, x0: int, y0: int, x1: int, y1: int, c: Colour)
    modifies img
    ensures forall y, x :: 0 <= y < img.Length0 && 0 <= x < img.Length1 ==>
      img[y, x] == if y0 <= y <= y1 && x0 <= x <= x1 then c else old(img[y, x])
  {
    var ya := if y0 < 0 then 0 else y0;
    var yb := if y1 + 1 > img.Length0 then img.Length0 else y1 + 1;
    var xa := if x0 < 0 then 0 else x0;
    var xb := if x1 + 1 > img.Length1 then img.Length1 else x1 + 1;
    var y := ya;
    while y < yb
      invariant forall v, u :: 0 <= v < img.Length0 && 0 <= u < img.Length1 ==>
        img[v, u] == if ya <= v < y && y0 <= v <= y1 && x0 <= u <= x1 then c else old(img[v, u])
    {
      var x := xa;
      while x < xb
        invariant forall v, u :: 0 <= v < img.Length0 && 0 <= u < img.Length1 ==>
          img[v, u] == if (ya <= v < y || (v == y && xa <= u < x)) && y0 <= v <= y1 && x0 <= u <= x1 then c else old(img[v, u])
      {
        img[y, x] := c;
        x := x + 1;
      }
      y := y + 1;
    }
  }

  /** Row-major order: cell `(a, b)` is painted before cell `(i, j)`. */
  predicate Before(a: int, b: int, i: int, j: int)
  {
    a < i || (a == i && b < j)
  }

  /** The cell owning a pixel of a `cols * cs` by `rows * cs` image is a
      cell of the grid. */
  lemma OwnerBounds(rows: nat, cols: nat, cs: nat, y: int, x: int)
    requires cs >= 1 && 0 <= y < rows * cs && 0 <= x < cols * cs
    ensures 0 <= y / cs < rows && 0 <= x / cs < cols
  {
    OwnerInRange(y, cs, rows);
    OwnerInRange(x, cs, cols);
  }

  /** The state of the macOS painting loops before cell `(i, j)`: pixels of
      the cells painted so far have their final colour, the rest are black. */
  predicate PaintedBefore(img: array2<Colour>, g: Grid, rows: nat, cols: nat, cs: nat, i: int, j: int)
    requires Covers(g, rows, cols) && cs >= 1
    requires img.Length0 == rows * cs && img.Length1 == cols * cs
    reads img
  {
    forall y, x :: 0 <= y < img.Length0 && 0 <= x < img.Length1 ==>
      img[y, x] == if Before(y / cs, x / cs, i, j) then Pixel(g, rows, cols, cs, y, x) else Black
  }

  /** On the black image no cell has been painted yet. */
  lemma NothingPainted(img: array2<Colour>, g: Grid, rows: nat, cols: nat, cs: nat)
    requires Covers(g, rows, cols) && cs >= 1
    requires img.Length0 == rows * cs && img.Length1 == cols * cs
    requires forall y, x :: 0 <= y < img.Length0 && 0 <= x < img.Length1 ==> img[y, x] == Black
    ensures PaintedBefore(img, g, rows, cols, cs, 0, 0)
  {
    forall y, x | 0 <= y < img.Length0 && 0 <= x < img.Length1
      ensures img[y, x] == if Before(y / cs, x / cs, 0, 0) then Pixel(g, rows, cols, cs, y, x) else Black
    {
      OwnerBounds(rows, cols, cs, y, x);
    }
  }

  /** A finished row is the start of the next. */
  lemma NextRowPainted(img: array2<Colour>, g: Grid, rows: nat, cols: nat, cs: nat, i: int)
    requires Covers(g, rows, cols) && cs >= 1
    requires img.Length0 == rows * cs && img.Length1 == cols * cs
    requires PaintedBefore(img, g, rows, cols, cs, i, cols)
    ensures PaintedBefore(img, g, rows, cols, cs, i + 1, 0)
  {
    forall y, x | 0 <= y < img.Length0 && 0 <= x < img.Length1
      ensures img[y, x] == if Before(y / cs, x / cs, i + 1, 0) then Pixel(g, rows, cols, cs, y, x) else Black
    {
      OwnerBounds(rows, cols, cs, y, x);
      assert Before(y / cs, x / cs, i, cols) == Before(y / cs, x / cs, i + 1, 0);
    }
  }

  /** Once every row is done, every pixel has its final colour. */
  lemma AllPainted(img: array2<Colour>, g: Grid, rows: nat, cols: nat, cs: nat)
    requires Covers(g, rows, cols) && cs >= 1
    requires img.Length0 == rows * cs && img.Length1 == cols * cs
    requires PaintedBefore(img, g, rows, cols, cs, rows, 0)
    ensures forall y, x :: 0 <= y < img.Length0 && 0 <= x < img.Length1 ==> img[y, x] == Pixel(g, rows, cols, cs, y, x)
  {
    forall y, x | 0 <= y < img.Length0 && 0 <= x < img.Length1
      ensures img[y, x] == Pixel(g, rows, cols, cs, y, x)
    {
      OwnerBounds(rows, cols, cs, y, x);
      assert Before(y / cs, x / cs, rows, 0);
    }
  }

  /** One turn of the inner macOS loop: a live cell's exact block
      `[j*cs, i*cs, (j+1)*cs - 1, (i+1)*cs - 1]` is painted white. */
  method PaintExactBlock(img: array2<Colour>, g: Grid, rows: nat, cols: nat, cs: nat, i: nat, j: nat)
    requires Covers(g, rows, cols) && cs >= 1 && i < rows && j < cols
    requires img.Length0 == rows * cs && img.Length1 == cols * cs
    requires PaintedBefore(img, g, rows, cols, cs, i, j)
    modifies img
    ensures PaintedBefore(img, g, rows, cols, cs, i, j + 1)
  {
    if g[i][j] == 1 {
      FillRect(img, j * cs, i * cs, (j + 1) * cs - 1, (i + 1) * cs - 1, White);
    }
    forall y, x | 0 <= y < img.Length0 && 0 <= x < img.Length1
      ensures img[y, x] == if Before(y / cs, x / cs, i, j + 1) then Pixel(g, rows, cols, cs, y, x) else Black
    {
      InBlock(x, cs, j);
      InBlock(y, cs, i);
    }
  }

  /** The macOS painting loops (GoL_tools_mac.py:35-41, GoL_tools.py:45-51):
      only live cells are painted, white, each over its exact block, on an
      all-black image. */
  method PaintExactBlocks(img: array2<Colour>, g: Grid, rows: nat, cols: nat, cs: nat)
    requires Covers(g, rows, cols) && cs >= 1
    requires img.Length0 == rows * cs && img.Length1 == cols * cs
    requires forall y, x :: 0 <= y < img.Length0 && 0 <= x < img.Length1 ==> img[y, x] == Black
    modifies img
    ensures forall y, x :: 0 <= y < img.Length0 && 0 <= x < img.Length1 ==> img[y, x] == Pixel(g, rows, cols, cs, y, x)
  {
    NothingPainted(img, g, rows, cols, cs);
    for i := 0 to rows
      invariant PaintedBefore(img, g, rows, cols, cs, i, 0)
    {
      for j := 0 to cols
        invariant PaintedBefore(img, g, rows, cols, cs, i, j)
      {
        PaintExactBlock(img, g, rows, cols, cs, i, j);
      }
      NextRowPainted(img, g, rows, cols, cs, i);
    }
    AllPainted(img, g, rows, cols, cs);
  }

  /** The rectangle `[j*cs, i*cs, j*cs + cs, i*cs + cs]` holds the whole
      block of cell `(i, j)`, and the only pixels of it owned by a cell
      painted no later than `(i, j)` are those of that block. */
  lemma OverlapOwner(y: int, x: int, cs: int, i: int, j: int)
    requires cs >= 1 && y >= 0 && x >= 0
    ensures y / cs == i && x / cs == j ==> i * cs <= y <= i * cs + cs && j * cs <= x <= j * cs + cs
    ensures i * cs <= y <= i * cs + cs && j * cs <= x <= j * cs + cs && Before(y / cs, x / cs, i, j + 1) ==>
      y / cs == i && x / cs == j
  {
    InBlock(x, cs, j);
    InBlock(y, cs, i);
    DivBound(x, cs, j);
    DivBound(y, cs, i);
  }

  /** The state of the Windows painting loops before cell `(i, j)`: pixels of
      the cells painted so far have their final colour (the rest may hold
      anything, including a neighbour's overlap). */
  predicate SettledBefore(img: array2<Colour>, g: Grid, rows: nat, cols: nat, cs: nat, i: int, j: int)
    requires Covers(g, rows, cols) && cs >= 1
    requires img.Length0 == rows * cs && img.Length1 == cols * cs
    reads img
  {
    forall y, x :: 0 <= y < img.Length0 && 0 <= x < img.Length1 && Before(y / cs, x / cs, i, j) ==>
      img[y, x] == Pixel(g, rows, cols, cs, y, x)
  }

  /** Before the first cell nothing is settled, so any image will do. */
  lemma NothingSettled(img: array2<Colour>, g: Grid, rows: nat, cols: nat, cs: nat)
    requires Covers(g, rows, cols) && cs >= 1
    requires img.Length0 == rows * cs && img.Length1 == cols * cs
    ensures SettledBefore(img, g, rows, cols, cs, 0, 0)
  {
    forall y, x | 0 <= y < img.Length0 && 0 <= x < img.Length1
      ensures !Before(y / cs, x / cs, 0, 0)
    {
      OwnerBounds(rows, cols, cs, y, x);
    }
  }

  /** A finished row is the start of the next. */
  lemma NextRowSettled(img: array2<Colour>, g: Grid, rows: nat, cols: nat, cs: nat, i: int)
    requires Covers(g, rows, cols) && cs >= 1
    requires img.Length0 == rows * cs && img.Length1 == cols * cs
    requires SettledBefore(img, g, rows, cols, cs, i, cols)
    ensures SettledBefore(img, g, rows, cols, cs, i + 1, 0)
  {
    forall y, x | 0 <= y < img.Length0 && 0 <= x < img.Length1 && Before(y / cs, x / cs, i + 1, 0)
      ensures img[y, x] == Pixel(g, rows, cols, cs, y, x)
    {
      OwnerBounds(rows, cols, cs, y, x);
      assert Before(y / cs, x / cs, i, cols);
    }
  }

  /** Once every row is done, every pixel has its final colour. */
  lemma AllSettled(img: array2<Colour>, g: Grid, rows: nat, cols: nat, cs: nat)
    requires Covers(g, rows, cols) && cs >= 1
    requires img.Length0 == rows * cs && img.Length1 == cols * cs
    requires SettledBefore(img, g, rows, cols, cs, rows, 0)
    ensures forall y, x :: 0 <= y < img.Length0 && 0 <= x < img.Length1 ==> img[y, x] == Pixel(g, rows, cols, cs, y, x)
  {
    forall y, x | 0 <= y < img.Length0 && 0 <= x < img.Length1
      ensures img[y, x] == Pixel(g, rows, cols, cs, y, x)
    {
      OwnerBounds(rows, cols, cs, y, x);
      assert Before(y / cs, x / cs, rows, 0);
    }
  }

  /** One turn of the inner Windows loop: cell `(i, j)`, live or dead, is
      painted over `[x0, y0, x0 + cs, y0 + cs]`, one pixel wider and taller
      than its block. Its own block gets its colour; the overlap lands only
      on pixels of cells not yet painted. */
  method PaintOverlappingBlock(img: array2<Colour>, g: Grid, rows: nat, cols: nat, cs: nat, i: nat, j: nat)
    requires Covers(g, rows, cols) && cs >= 1 && i < rows && j < cols
    requires img.Length0 == rows * cs && img.Length1 == cols * cs
    requires SettledBefore(img, g, rows, cols, cs, i, j)
    modifies img
    ensures SettledBefore(img, g, rows, cols, cs, i, j + 1)
  {
    var x0, y0 := j * cs, i * cs;
    var x1, y1 := x0 + cs, y0 + cs;
    var colour := if g[i][j] == 1 then White else Black;
    FillRect(img, x0, y0, x1, y1, colour);
    forall y, x | 0 <= y < img.Length0 && 0 <= x < img.Length1 && Before(y / cs, x / cs, i, j + 1)
      ensures img[y, x] == Pixel(g, rows, cols, cs, y, x)
    {
      OverlapOwner(y, x, cs, i, j);
    }
  }

  /** The Windows painting loops (GoL_tools.py:53-58): every cell is painted
      in row-major order over a rectangle one pixel too large. A cell's block
      is never touched by a later cell, and the overlap an earlier cell
      spills into a later block is overwritten when that block is painted,
      so every pixel ends up with the colour of the cell it lies in. */
  method PaintOverlappingBlocks(img: array2<Colour>, g: Grid, rows: nat, cols: nat, cs: nat)
    requires Covers(g, rows, cols) && cs >= 1
    requires img.Length0 == rows * cs && img.Length1 == cols * cs
    modifies img
    ensures forall y, x :: 0 <= y < img.Length0 && 0 <= x < img.Length1 ==> img[y, x] == Pixel(g, rows, cols, cs, y, x)
  {
    NothingSettled(img, g, rows, cols, cs);
    for i := 0 to rows
      invariant SettledBefore(img, g, rows, cols, cs, i, 0)
    {
      for j := 0 to cols
        invariant SettledBefore(img, g, rows, cols, cs, i, j)
      {
        PaintOverlappingBlock(img, g, rows, cols, cs, i, j);
      }
      NextRowSettled(img, g, rows, cols, cs, i);
    }
    AllSettled(img, g, rows, cols, cs);
  }

  /** `create_image` of GoL_tools_mac.py: a black `cols * cs` by `rows * cs`
      image on which live cells become white blocks. */
  method CreateImageMac(rows: nat, cols: nat, g: Grid, cs: nat) returns (img: array2<Colour>)
    requires Covers(g, rows, cols) && cs >= 1
    ensures img.Length0 == rows * cs && img.Length1 == cols * cs
    ensures forall y, x :: 0 <= y < img.Length0 && 0 <= x < img.Length1 ==>
      (img[y, x] == White <==> CellAt(g, rows, cols, cs, y, x) == 1)
  {
    img := new Colour[rows * cs, cols * cs]((_, _) => Black);
    PaintExactBlocks(img, g, rows, cols, cs);
  }

  /** `create_image` of GoL_tools.py: the same picture on macOS and on
      Windows, though painted differently, and an all-black image on any other
      platform (the grid is not read there). */
  method CreateImageTools(platform: Platform, rows: nat, cols: nat, g: Grid, cs: nat) returns (img: array2<Colour>)
    requires platform != Other ==> Covers(g, rows, cols)
    requires cs >= 1
    ensures img.Length0 == rows * cs && img.Length1 == cols * cs
    ensures platform != Other ==> Covers(g, rows, cols) && forall y, x :: 0 <= y < img.Length0 && 0 <= x < img.Length1 ==>
      img[y, x] == Pixel(g, rows, cols, cs, y, x)
    ensures platform == Other ==> forall y, x :: 0 <= y < img.Length0 && 0 <= x < img.Length1 ==> img[y, x] == Black
  {
    img := new Colour[rows * cs, cols * cs]((_, _) => Black);
    match platform {
      case Darwin => PaintExactBlocks(img, g, rows, cols, cs);
      case Windows => PaintOverlappingBlocks(img, g, rows, cols, cs);
      case Other =>
    }
  }
}
