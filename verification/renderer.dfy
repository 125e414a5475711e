/**
 The fractal renderer: a configuration of image size, plane window and
 per-point computation, the per-pixel value, and the sweep that visits every
 pixel of the inclusive grid `[0, width] x [0, height]` row by row. The
 drawing surface is not modelled; the sweep yields the records it paints, in
 the order it paints them.
 */
module Renderer {
  import opened Plane
  import opened Palette
  import opened Escape

  /** A renderer: image size, plane window and the escape computation to apply. */
  datatype Fractal = Fractal(size: Size, scale: Window, computation: Point -> int)

  /** A painted pixel: its coordinates and the colour filled in there. */
  datatype Drawn = Drawn(x: int, y: int, color: Rgb)

  /** The result of a sweep: the pixels painted, in order, and the value returned. */
  datatype Render = Render(drawn: seq<Drawn>, finished: bool)

  /** The width of the grid swept per row: columns 0 .. width inclusive. */
  function Columns(f: Fractal): int {
    f.size.width + 1
  }

  /**
   The number of records in `n` full rows of `c` columns, counted row by row
   the way the sweep paints them.
   */
  function Cells(n: int, c: int): int
    decreases n
  {
    if n <= 0 then 0 else c + Cells(n - 1, c)
  }

  /** `n` full rows of `c` columns hold `n * c` records. */
  lemma {:induction false} CellsIsProduct(n: int, c: int)
    requires n >= 0
    ensures Cells(n, c) == n * c
    decreases n
  {
    if n > 0 {
      CellsIsProduct(n - 1, c);
    }
  }

  /** `(x, y)` lies on the inclusive grid the sweep covers. */
  predicate OnGrid(f: Fractal, x: int, y: int) {
    0 <= x <= f.size.width && 0 <= y <= f.size.height
  }

  /** `a` is painted before `b` in row-major order (row first, then column). */
  predicate RowMajorBefore(a: Drawn, b: Drawn) {
    a.y < b.y || (a.y == b.y && a.x < b.x)
  }

  /** Consecutive records of `s` are painted strictly in row-major order, so no pixel appears twice. */
  predicate StrictlyRowMajor(s: seq<Drawn>) {
    forall i, j :: 0 <= i < j < |s| ==> RowMajorBefore(s[i], s[j])
  }

  /**
   Every record of `s` is a pixel of the grid in row `top` or below, painted
   with the colour of its own pixel.
   */
  predicate PaintsOwnPixels(f: Fractal, s: seq<Drawn>, top: int)
    requires Drawable(f.size)
  {
    forall k :: 0 <= k < |s| ==> OnGrid(f, s[k].x, s[k].y) && top <= s[k].y && s[k] == Visit(f, s[k].x, s[k].y)
  }

  /** The computation's value at the plane point that pixel `(px, py)` stands for. */
  function PixelValue(f: Fractal, px: int, py: int): int
    requires Drawable(f.size)
  {
    f.computation(PixelToPlane(f.size, f.scale, px, py))
  }

  /** What the sweep paints at one pixel. */
  function Visit(f: Fractal, x: int, y: int): (d: Drawn)
    requires Drawable(f.size)
    ensures d.x == x && d.y == y
    ensures IsColor(d.color)
  {
    Drawn(x, y, ColorOf(PixelValue(f, x, y)))
  }

  /** The inner loop: columns `x` .. width of row `y`. */
  function RowFrom(f: Fractal, x: int, y: int): (row: seq<Drawn>)
    requires Drawable(f.size) && 0 <= x <= Columns(f)
    ensures |row| == Columns(f) - x
    ensures forall k :: 0 <= k < |row| ==> row[k] == Visit(f, x + k, y)
    decreases Columns(f) - x
  {
    if x == Columns(f) then [] else [Visit(f, x, y)] + RowFrom(f, x + 1, y)
  }

  /** The outer loop: rows `y` .. height, each row swept in full. */
  function RowsFrom(f: Fractal, y: int): (rows: seq<Drawn>)
    requires Drawable(f.size) && 0 <= y <= f.size.height + 1
    ensures |rows| == Cells(f.size.height + 1 - y, Columns(f))
    decreases f.size.height + 1 - y
  {
    if y == f.size.height + 1 then [] else RowFrom(f, 0, y) + RowsFrom(f, y + 1)
  }

  /** `compute`: sweeps the whole inclusive grid and returns true. */
  function Compute(f: Fractal): (r: Render)
    requires Drawable(f.size)
    ensures r.finished
    ensures |r.drawn| == (f.size.height + 1) * (f.size.width + 1)
    ensures StrictlyRowMajor(r.drawn)
    ensures PaintsOwnPixels(f, r.drawn, 0)
  {
    RowsFromShape(f, 0);
    CellsIsProduct(f.size.height + 1, Columns(f));
    Render(RowsFrom(f, 0), true)
  }

  /**
   The records of rows `y` .. height are painted strictly in row-major order,
   each lies on the grid in one of those rows, and each carries the colour of
   its own pixel.
   */
  lemma {:induction false} RowsFromShape(f: Fractal, y: int)
    requires Drawable(f.size) && 0 <= y <= f.size.height + 1
    ensures StrictlyRowMajor(RowsFrom(f, y))
    ensures PaintsOwnPixels(f, RowsFrom(f, y), y)
    decreases f.size.height + 1 - y
  {
    if y <= f.size.height {
      var row := RowFrom(f, 0, y);
      var rest := RowsFrom(f, y + 1);
      RowsFromShape(f, y + 1);
      var rows := row + rest;
      assert RowsFrom(f, y) == rows;
      forall i, j | 0 <= i < j < |rows|
        ensures RowMajorBefore(rows[i], rows[j])
      {
        if j < |row| {
          assert rows[i] == Visit(f, i, y) && rows[j] == Visit(f, j, y);
        } else if i < |row| {
          assert rows[i] == Visit(f, i, y);
          assert rows[j] == rest[j - |row|];
          assert rest[j - |row|].y >= y + 1;
        } else {
          assert rows[i] == rest[i - |row|] && rows[j] == rest[j - |row|];
        }
      }
      forall k | 0 <= k < |rows|
        ensures OnGrid(f, rows[k].x, rows[k].y) && y <= rows[k].y && rows[k] == Visit(f, rows[k].x, rows[k].y)
      {
        if k < |row| {
          assert rows[k] == Visit(f, k, y);
        } else {
          assert rows[k] == rest[k - |row|];
        }
      }
    }
  }

  /** Pixel `(x, j)` of rows `y` .. height sits after the `j - y` full rows above it, at column `x`. */
  lemma {:induction false} RowsFromAt(f: Fractal, y: int, j: int, x: int)
    requires Drawable(f.size) && 0 <= y <= j <= f.size.height && 0 <= x <= f.size.width
    ensures 0 <= Cells(j - y, Columns(f)) + x < |RowsFrom(f, y)|
    ensures RowsFrom(f, y)[Cells(j - y, Columns(f)) + x] == Visit(f, x, j)
    decreases j - y
  {
    var c := Columns(f);
    var row := RowFrom(f, 0, y);
    var rest := RowsFrom(f, y + 1);
    var rows := RowsFrom(f, y);
    assert rows == row + rest;
    var off := Cells(j - y, c) + x;
    if j == y {
      assert rows[off] == row[x];
    } else {
      RowsFromAt(f, y + 1, j, x);
      var off' := Cells(j - (y + 1), c) + x;
      assert off == |row| + off';
      assert rows[off] == rest[off'];
    }
  }

  /**
   Every pixel of the inclusive grid is painted, at offset
   `y * (width + 1) + x` of the sweep, with the colour of its own escape count.
   Together with the strict row-major order of `Compute`, each grid pixel is
   painted exactly once.
   */
  lemma ComputeCoversGrid(f: Fractal, x: int, y: int)
    requires Drawable(f.size) && OnGrid(f, x, y)
    ensures y * Columns(f) + x < |Compute(f).drawn|
    ensures Compute(f).drawn[y * Columns(f) + x] == Drawn(x, y, ColorOf(PixelValue(f, x, y)))
  {
    RowsFromAt(f, 0, y, x);
    CellsIsProduct(y, Columns(f));
    assert Compute(f).drawn == RowsFrom(f, 0);
    assert y * Columns(f) + x == Cells(y - 0, Columns(f)) + x;
  }

  /** No pixel is painted twice: distinct positions of the sweep hold distinct coordinates. */
  lemma ComputePaintsOnce(f: Fractal, i: int, j: int)
    requires Drawable(f.size)
    requires 0 <= i < |Compute(f).drawn| && 0 <= j < |Compute(f).drawn| && i != j
    ensures (Compute(f).drawn[i].x, Compute(f).drawn[i].y) != (Compute(f).drawn[j].x, Compute(f).drawn[j].y)
  {
  }

  /** A capped Julia pixel is painted white. */
  lemma {:induction false} JuliaCappedPixelsAreWhite(sin: real -> real, size: Size, scale: Window, x: int, y: int)
    requires Drawable(size)
    requires StaysWithin(JuliaStep(sin), PixelToPlane(size, scale, x, y), Cap)
    ensures Visit(Fractal(size, scale, p => JuliaComputation(sin, p)), x, y).color == White
  {
    JuliaMeaning(sin, PixelToPlane(size, scale, x, y));
  }

  /** A capped Mandelbrot pixel is not white: it gets the colour of the count 255. */
  lemma MandelbrotCappedColor(size: Size, scale: Window, x: int, y: int)
    requires Drawable(size)
    requires StaysWithin(MandelbrotStep(PixelToPlane(size, scale, x, y)), PixelToPlane(size, scale, x, y), Cap)
    ensures Visit(Fractal(size, scale, MandelbrotComputation), x, y).color == Rgb(248, 240, 224)
  {
    MandelbrotMeaning(PixelToPlane(size, scale, x, y));
  }
}
