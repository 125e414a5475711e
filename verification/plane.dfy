/**
 The pixel-to-plane mapping of the renderer. An image of `width` x `height`
 pixels is laid over a window of the plane given by a lower corner
 (min_x, min_y) and an upper corner (max_x, max_y). The horizontal axis runs
 from min_x at pixel column 0 to max_x at column `width`; the vertical axis is
 inverted, running from max_y at pixel row 0 down to min_y at row `height`.

 Coordinates are exact reals: this idealises the floating-point arithmetic of
 the renderer, whose rounding is not modelled.
 */
module Plane {

  /** A point of the plane; `re` is the horizontal and `im` the vertical coordinate. */
  datatype Point = Point(re: real, im: real)

  /** Image size in pixels. */
  datatype Size = Size(width: int, height: int)

  /** The plane window `[(min_x, min_y), (max_x, max_y)]`. */
  datatype Window = Window(lo: Point, hi: Point)

  /** The renderer divides by both dimensions, so neither may be zero. */
  predicate Drawable(size: Size) {
    size.width > 0 && size.height > 0
  }

  /** Neither axis of the window has zero span. */
  predicate Spans(scale: Window) {
    scale.lo.re != scale.hi.re && scale.lo.im != scale.hi.im
  }

  /** Plane distance covered by one pixel column, left to right. */
  function WidthChange(size: Size, scale: Window): (w: real)
    requires Drawable(size)
    ensures w * size.width as real == scale.hi.re - scale.lo.re
  {
    (scale.hi.re - scale.lo.re) / size.width as real
  }

  /** Plane distance covered by one pixel row, top to bottom (negative when min_y < max_y). */
  function HeightChange(size: Size, scale: Window): (h: real)
    requires Drawable(size)
    ensures h * size.height as real == scale.lo.im - scale.hi.im
  {
    (scale.lo.im - scale.hi.im) / size.height as real
  }

  /** The plane point a pixel stands for. */
  function PixelToPlane(size: Size, scale: Window, px: int, py: int): Point
    requires Drawable(size)
  {
    Point(scale.lo.re + px as real * WidthChange(size, scale),
          scale.hi.im + py as real * HeightChange(size, scale))
  }

  /**
   The inverse map: the (fractional) pixel coordinates at which a plane point
   lies. Defined only when neither axis of the window is degenerate.
   */
  function PlaneToPixel(size: Size, scale: Window, p: Point): (real, real)
    requires Drawable(size) && Spans(scale)
  {
    ((p.re - scale.lo.re) / WidthChange(size, scale),
     (p.im - scale.hi.im) / HeightChange(size, scale))
  }

  /** A step times a positive pixel count has the step's sign. */
  lemma StepSign(step: real, count: real, span: real)
    requires count > 0.0 && step * count == span
    ensures step > 0.0 <==> span > 0.0
    ensures step < 0.0 <==> span < 0.0
  {
  }

  /** The top-left pixel is (min_x, max_y) and the pixel (width, height) is (max_x, min_y). */
  lemma MapCorners(size: Size, scale: Window)
    requires Drawable(size)
    ensures PixelToPlane(size, scale, 0, 0) == Point(scale.lo.re, scale.hi.im)
    ensures PixelToPlane(size, scale, size.width, size.height) == Point(scale.hi.re, scale.lo.im)
  {
  }

  /**
   The map is affine on each axis: one column to the right moves `re` by the
   width step and leaves `im` alone; one row down moves `im` by the height
   step and leaves `re` alone.
   */
  lemma MapSteps(size: Size, scale: Window, px: int, py: int)
    requires Drawable(size)
    ensures PixelToPlane(size, scale, px + 1, py).re - PixelToPlane(size, scale, px, py).re == WidthChange(size, scale)
    ensures PixelToPlane(size, scale, px + 1, py).im == PixelToPlane(size, scale, px, py).im
    ensures PixelToPlane(size, scale, px, py + 1).im - PixelToPlane(size, scale, px, py).im == HeightChange(size, scale)
    ensures PixelToPlane(size, scale, px, py + 1).re == PixelToPlane(size, scale, px, py).re
  {
  }

  /** Over a non-degenerate window, mapping a pixel to the plane and back returns the pixel. */
  lemma {:induction false} MapRoundTrip(size: Size, scale: Window, px: int, py: int)
    requires Drawable(size) && Spans(scale)
    ensures PlaneToPixel(size, scale, PixelToPlane(size, scale, px, py)) == (px as real, py as real)
  {
    var w := WidthChange(size, scale);
    var h := HeightChange(size, scale);
    assert w != 0.0 && h != 0.0;
    var p := PixelToPlane(size, scale, px, py);
    assert p.re - scale.lo.re == px as real * w;
    assert p.im - scale.hi.im == py as real * h;
    assert (px as real * w) / w == px as real;
    assert (py as real * h) / h == py as real;
  }

  /**
   With the window's corners in order, every pixel of the inclusive grid
   `[0, width] x [0, height]` maps inside the window.
   */
  lemma {:induction false} MapWithinWindow(size: Size, scale: Window, px: int, py: int)
    requires Drawable(size)
    requires scale.lo.re <= scale.hi.re && scale.lo.im <= scale.hi.im
    requires 0 <= px <= size.width && 0 <= py <= size.height
    ensures scale.lo.re <= PixelToPlane(size, scale, px, py).re <= scale.hi.re
    ensures scale.lo.im <= PixelToPlane(size, scale, px, py).im <= scale.hi.im
  {
    var w := WidthChange(size, scale);
    var h := HeightChange(size, scale);
    var W := size.width as real;
    var H := size.height as real;
    StepSign(w, W, scale.hi.re - scale.lo.re);
    StepSign(h, H, scale.lo.im - scale.hi.im);
    assert 0.0 <= px as real * w <= W * w by {
      assert (W - px as real) * w >= 0.0;
    }
    assert H * h <= py as real * h <= 0.0 by {
      assert (H - py as real) * h <= 0.0;
    }
  }

  /**
   With the window's corners in order, `re` increases left to right and `im`
   decreases top to bottom: row 0 is the top of the window.
   */
  lemma {:induction false} MapOrientation(size: Size, scale: Window, x1: int, x2: int, y1: int, y2: int)
    requires Drawable(size)
    requires scale.lo.re < scale.hi.re && scale.lo.im < scale.hi.im
    requires x1 < x2 && y1 < y2
    ensures PixelToPlane(size, scale, x1, y1).re < PixelToPlane(size, scale, x2, y1).re
    ensures PixelToPlane(size, scale, x1, y1).im > PixelToPlane(size, scale, x1, y2).im
  {
    var w := WidthChange(size, scale);
    var h := HeightChange(size, scale);
    StepSign(w, size.width as real, scale.hi.re - scale.lo.re);
    StepSign(h, size.height as real, scale.lo.im - scale.hi.im);
    assert (x2 as real - x1 as real) * w > 0.0;
    assert (y2 as real - y1 as real) * h < 0.0;
  }
}
