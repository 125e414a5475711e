# Escape-time fractal renderer, modelled in Dafny

This project models the core of a small escape-time fractal renderer (`EX10.py`,
class `Fractal` and the two per-point computations next to it):

- **Plane** (`plane.dfy`): the affine map from a pixel `(px, py)` of a `width` x `height`
  image to a point of the plane window `[(min_x, min_y), (max_x, max_y)]`. Column 0
  maps to `min_x` and column `width` to `max_x`; the vertical axis is inverted, so
  row 0 maps to `max_y` and row `height` to `min_y`.
- **Escape** (`escape.dfy`): `mandelbrot_computation` and `julia_computation`. Both
  share one counting skeleton:
  - a start point outside radius 2 gives 1 at once;
  - otherwise a counter starts at 1 and grows by one per application of the map;
  - when the counter passes 1000, the loop stops with a sentinel before it tests the
    new point. The sentinel is 255 for Mandelbrot and 200 for Julia.

  The loop is a tail recursion `EscapeLoop` with measure `1000 - count`. It returns a
  tagged `Outcome` (`Escaped(count)` or `Capped`). `Settle` turns that into the number
  the code returns. The tag is needed because both sentinels collide with genuine
  counts: a Mandelbrot orbit that leaves the circle with the counter at 255 gives the
  same number as a capped one, and likewise 200 for Julia. Properties about "capped"
  are therefore stated on the `Outcome`.
- **Palette** (`palette.dfy`): `color`, which gives `(e%32*8, e%16*16, e%8*32)` and
  white for the count 200.
- **Renderer** (`renderer.dfy`): the `Fractal` configuration, `pixel_value`, and
  `compute`. The sweep covers the inclusive grid `[0, width] x [0, height]`, y outer
  and x inner. It is modelled as the sequence of `(x, y, colour)` records it paints, in
  order, plus the value `True` it returns.

Coordinates are Dafny `real`s. This idealises the float arithmetic: it has no
rounding and no overflow. The sine in the Julia map is a parameter `sin: real -> real`,
so no property of sine is assumed. The program's `%` is the floored modulus. For the
positive divisors used here it agrees with Dafny's Euclidean `%`, so the colour formula
holds for every integer count.

## Model

| member | source | states |
|---|---|---|
| Palette.ColorOf | EX10.py:77-84 | every channel is a byte; the colour is white exactly when the count is 200; otherwise red <= 248, green <= 240, blue <= 224, and the channels are multiples of 8, 16 and 32 |
| Palette.ResidueOfColor | EX10.py:79 | reading the red channel back divided by 8 recovers the count modulo 32, for every count other than 200 |
| Palette.SameColorIffSameResidue | EX10.py:79-81 | two counts other than 200 get the same colour if and only if they agree modulo 32 |
| Palette.ColorPeriod | EX10.py:79-81 | apart from the count 200, the palette has period 32 |
| Palette.ColorSamples | EX10.py:77-84 | count 17 gives (136, 16, 32), count 200 gives white, count 255 gives (248, 240, 224) |
| Plane.WidthChange | EX10.py:27 | the column step multiplied by the width is the window's horizontal span max_x - min_x |
| Plane.HeightChange | EX10.py:28 | the row step multiplied by the height is min_y - max_y, so rows run from top to bottom |
| Plane.PixelToPlane | EX10.py:62-63 | the plane point of a pixel: `re = min_x + px * width step`, `im = max_y + py * height step`; its properties are the Map lemmas below |
| Plane.MapCorners | EX10.py:62-63 | pixel (0, 0) maps to (min_x, max_y) and pixel (width, height) maps to (max_x, min_y) |
| Plane.MapSteps | EX10.py:62-63 | the map is affine per axis: one column moves only `re`, by the column step; one row moves only `im`, by the row step |
| Plane.MapRoundTrip | EX10.py:62-63 | for a window with non-zero span on both axes, mapping a pixel to the plane and back gives the pixel |
| Plane.MapWithinWindow | EX10.py:62-63 | with ordered corners, every pixel of the inclusive grid maps inside the window |
| Plane.MapOrientation | EX10.py:62-63 | with ordered corners, `re` increases strictly to the right and `im` decreases strictly downwards |
| Escape.MandelbrotStep | EX10.py:97-102 | one round of the Mandelbrot recurrence: `(x*x - y*y + x_start, 2*x*y + y_start)` with the start point as constant |
| Escape.JuliaStep | EX10.py:120-125 | one round of the Julia recurrence: `(sin(x*x - y*y + 0.28), 2*x*y + 0.008)` |
| Escape.Settle | EX10.py:104-106 | the number returned for an outcome: the count for an escaped orbit, the sentinel (255 here, 200 at EX10.py:127-128) for a capped one |
| Escape.EscapeLoop | EX10.py:96-106 | the loop terminates, and a count it reports is at least the entry counter and at most 1000 |
| Escape.EscapeOutcome | EX10.py:92-108 | a reported count lies in 1..1000, and the count is 1 exactly when the start point is outside radius 2 |
| Escape.MandelbrotComputation | EX10.py:87-108 | the result lies in 1..1000 and is 1 exactly when x*x + y*y > 4 |
| Escape.JuliaComputation | EX10.py:110-129 | the result lies in 1..1000 and is 1 exactly when x*x + y*y > 4 |
| Escape.LoopCountsExit | EX10.py:96-103 | if orbit point n is the first outside the circle and the counter stays within the cap, the loop reports the entry counter plus n |
| Escape.LoopCapsBounded | EX10.py:101-106 | an orbit that stays within the circle until the counter passes 1000 is capped |
| Escape.ExitOrStay | EX10.py:96 | every orbit either stays within the circle for its first n points or has a first exit before n |
| Escape.EscapeOutcomeMeaning | EX10.py:92-108 | the outcome is Capped if and only if orbit points 0..999 all lie within radius 2; it is Escaped(n + 1) if and only if orbit point n is the first outside |
| Escape.MandelbrotMeaning | EX10.py:87-108 | Mandelbrot returns n + 1 when orbit point n is the first outside the circle, and 255 when the first 1000 orbit points stay inside |
| Escape.JuliaMeaning | EX10.py:110-129 | Julia returns n + 1 when orbit point n is the first outside the circle, and 200 when the first 1000 orbit points stay inside |
| Escape.MandelbrotOriginCapped | EX10.py:101-106 | the origin is a fixed point of the Mandelbrot map, so its computation returns the sentinel 255 |
| Renderer.PixelValue | EX10.py:53-66 | `pixel_value`: the configured computation applied to the plane point of the pixel |
| Renderer.Visit | EX10.py:46-48 | the record painted for a pixel carries that pixel's coordinates and a colour whose channels are bytes |
| Renderer.RowFrom | EX10.py:45-49 | the inner loop paints width + 1 - x records; record k is pixel (x + k, y) with its own colour |
| Renderer.RowsFrom | EX10.py:44-49 | the outer loop from row y paints height + 1 - y full rows of width + 1 records each |
| Renderer.RowsFromShape | EX10.py:44-49 | the records from row y on are in strict row-major order, lie on the grid at row y or below, and carry their own pixel's colour |
| Renderer.RowsFromAt | EX10.py:44-48 | in the sweep from row y, pixel (x, j) is painted right after the j - y full rows above it plus x records of its own row |
| Renderer.CellsIsProduct | EX10.py:44-45 | n full rows of c columns hold n * c records, so the sweep paints (height + 1) * (width + 1) pixels |
| Renderer.Compute | EX10.py:43-51 | compute returns true after painting (height + 1) * (width + 1) records; they are in strict row-major order and are grid pixels with their own colours |
| Renderer.ComputeCoversGrid | EX10.py:44-48 | every pixel of the inclusive grid is painted at offset y * (width + 1) + x, with the colour of its own escape count |
| Renderer.ComputePaintsOnce | EX10.py:44-45 | two different positions of the sweep never hold the same pixel |
| Renderer.JuliaCappedPixelsAreWhite | EX10.py:82-83 | a pixel whose Julia orbit stays inside for 1000 points is painted white |
| Renderer.MandelbrotCappedColor | EX10.py:104-106 | a pixel whose Mandelbrot orbit stays inside for 1000 points gets the colour of count 255, (248, 240, 224), not white |

## Left out

- The drawing surface: `Image.new`, `ImageDraw.rectangle` and `save_image` (EX10.py:25-26, 48, 75) belong to an imaging library and to file output. The sweep yields the painted records instead. The canvas has `width` x `height` pixels, so it clips the extra row and column of the inclusive grid; that clipping is not modelled.
- The progress and diagnostic prints (EX10.py:50, 105, 107). They are side effects only. The progress percentage divides by `width * height` while the sweep paints `(width + 1) * (height + 1)` pixels, so it ends above 100 %. This affects only the printed text.
- The animation driver `anime` and the module-level calls (EX10.py:131-153). They scale the window by float powers, save hundreds of files and use hard-coded parameters.
- Floating-point rounding, overflow and NaN in the recurrences, and the real behaviour of `math.sin`. Points are exact reals, and the sine is an arbitrary function passed in.
- Zero or negative image sizes. A zero dimension fails at the divisions of the constructor (EX10.py:27-28); a negative one is rejected earlier, when the canvas is created (EX10.py:25). So `Drawable` (width > 0 and height > 0) is a precondition of the map and the renderer. A window with zero span on an axis is allowed: it maps every pixel to the same coordinate on that axis. Only the inverse map `PlaneToPixel` needs a non-degenerate window.
- The fields `coordinates`, `pixel_width` and `pixel_height` (EX10.py:22, 29-30). They are assigned and never read; the painted rectangle is hard-coded as `[x, y, x + 1, y + 1]` (EX10.py:48).
- Determinism of `compute`: the model is a pure function, so two sweeps of the same configuration are equal by construction and no separate lemma states it.
