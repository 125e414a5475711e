/**
 The two escape-time computations, Mandelbrot and Julia. Both iterate a
 quadratic-style map from the start point and count how many points of the
 orbit they look at before one lies outside the circle of radius 2:

 - a start point already outside the circle gives 1 at once;
 - otherwise a counter starts at 1; each round applies the map once and adds
   one to the counter, and when the counter passes 1000 the computation stops
   with a sentinel (255 for Mandelbrot, 200 for Julia) before testing the new
   point;
 - otherwise the count reached when the orbit first leaves the circle is the
   result.

 Arithmetic is over exact reals, an idealisation of floating point. The sine
 used by the Julia map is a parameter, so nothing is assumed about it.
 */
module Escape {
  import opened Plane

  /** The iteration cap: the counter may not exceed this value. */
  const Cap: int := 1000

  const MandelbrotSentinel: int := 255
  const JuliaSentinel: int := 200

  /** The loop condition: the point lies on or inside the circle of radius 2. */
  predicate WithinRadius(z: Point) {
    z.re * z.re + z.im * z.im <= 4.0
  }

  /** The Mandelbrot map with the start point `c` as additive constant. */
  function MandelbrotStep(c: Point): Point -> Point {
    (z: Point) => Point(z.re * z.re - z.im * z.im + c.re, 2.0 * z.re * z.im + c.im)
  }

  /** The Julia variant: fixed constant (0.28, 0.008), real part passed through `sin`. */
  function JuliaStep(sin: real -> real): Point -> Point {
    (z: Point) => Point(sin(z.re * z.re - z.im * z.im + 0.28), 2.0 * z.re * z.im + 0.008)
  }

  /** The `n`-th point of the orbit of `z` under `step`. */
  function Orbit(step: Point -> Point, z: Point, n: nat): Point
    decreases n
  {
    if n == 0 then z else Orbit(step, step(z), n - 1)
  }

  /** The first `n` orbit points (indices 0 .. n-1) all lie within the radius. */
  ghost predicate StaysWithin(step: Point -> Point, z: Point, n: nat) {
    forall i: nat :: i < n ==> WithinRadius(Orbit(step, z, i))
  }

  /** Orbit point `n` is the first one outside the radius. */
  ghost predicate ExitsAt(step: Point -> Point, z: Point, n: nat) {
    StaysWithin(step, z, n) && !WithinRadius(Orbit(step, z, n))
  }

  /**
   The counting result with the sentinel kept apart from genuine counts:
   `Escaped(k)` when the orbit left the circle with the counter at `k`,
   `Capped` when the counter passed the cap first.
   */
  datatype Outcome = Escaped(count: int) | Capped

  /** The number the program returns for an outcome, given the variant's sentinel. */
  function Settle(o: Outcome, sentinel: int): int {
    match o
    case Escaped(k) => k
    case Capped => sentinel
  }

  /**
   The `while` loop, entered at its test with current point `z` and counter
   `count`. The counter is checked against the cap right after it is
   incremented, before the new point is tested.
   */
  function EscapeLoop(step: Point -> Point, z: Point, count: int): (o: Outcome)
    requires 1 <= count <= Cap
    ensures o.Escaped? ==> count <= o.count <= Cap
    decreases Cap - count
  {
    if !WithinRadius(z) then Escaped(count)
    else if count + 1 > Cap then Capped
    else EscapeLoop(step, step(z), count + 1)
  }

  /** The whole computation: the early exit, then the loop from counter 1. */
  function EscapeOutcome(step: Point -> Point, start: Point): (o: Outcome)
    ensures o.Escaped? ==> 1 <= o.count <= Cap
    ensures o == Escaped(1) <==> !WithinRadius(start)
  {
    if !WithinRadius(start) then Escaped(1)
    else EscapeLoop(step, start, 1)
  }

  /** `mandelbrot_computation`: the count, or 255 for a capped point. */
  function MandelbrotComputation(p: Point): (r: int)
    ensures 1 <= r <= Cap
    ensures r == 1 <==> !WithinRadius(p)
  {
    Settle(EscapeOutcome(MandelbrotStep(p), p), MandelbrotSentinel)
  }

  /** `julia_computation`: the count, or 200 for a capped point. */
  function JuliaComputation(sin: real -> real, p: Point): (r: int)
    ensures 1 <= r <= Cap
    ensures r == 1 <==> !WithinRadius(p)
  {
    Settle(EscapeOutcome(JuliaStep(sin), p), JuliaSentinel)
  }

  /** One more step of the orbit is the orbit of the stepped point. */
  lemma OrbitShift(step: Point -> Point, z: Point, n: nat)
    ensures Orbit(step, z, n + 1) == Orbit(step, step(z), n)
  {
  }

  /** Staying within for `n + 1` points means `z` is within and its successor stays within for `n`. */
  lemma {:induction false} StaysWithinShift(step: Point -> Point, z: Point, n: nat)
    ensures StaysWithin(step, z, n + 1) <==> WithinRadius(z) && StaysWithin(step, step(z), n)
  {
    if StaysWithin(step, z, n + 1) {
      assert WithinRadius(Orbit(step, z, 0));
      forall i: nat | i < n
        ensures WithinRadius(Orbit(step, step(z), i))
      {
        OrbitShift(step, z, i);
        assert WithinRadius(Orbit(step, z, i + 1));
      }
    }
    if WithinRadius(z) && StaysWithin(step, step(z), n) {
      forall i: nat | i < n + 1
        ensures WithinRadius(Orbit(step, z, i))
      {
        if i > 0 {
          OrbitShift(step, z, i - 1);
          assert WithinRadius(Orbit(step, step(z), i - 1));
        }
      }
    }
  }

  /** An orbit whose point `n` is its first outside the circle is counted `count + n`. */
  lemma {:induction false} LoopCountsExit(step: Point -> Point, z: Point, count: int, n: nat)
    requires 1 <= count && count + n <= Cap
    requires ExitsAt(step, z, n)
    ensures EscapeLoop(step, z, count) == Escaped(count + n)
    decreases n
  {
    if n > 0 {
      StaysWithinShift(step, z, n - 1);
      assert StaysWithin(step, z, n - 1 + 1);
      OrbitShift(step, z, n - 1);
      LoopCountsExit(step, step(z), count + 1, n - 1);
    }
  }

  /** An orbit that stays within long enough for the counter to pass the cap is capped. */
  lemma {:induction false} LoopCapsBounded(step: Point -> Point, z: Point, count: int)
    requires 1 <= count <= Cap
    requires StaysWithin(step, z, Cap + 1 - count)
    ensures EscapeLoop(step, z, count) == Capped
    decreases Cap - count
  {
    StaysWithinShift(step, z, Cap - count);
    if count + 1 <= Cap {
      LoopCapsBounded(step, step(z), count + 1);
    }
  }

  /** Every orbit either stays within for `n` points or leaves at some earlier index. */
  lemma {:induction false} ExitOrStay(step: Point -> Point, z: Point, n: nat)
    ensures StaysWithin(step, z, n) || exists k: nat :: k < n && ExitsAt(step, z, k)
  {
    if n > 0 {
      ExitOrStay(step, z, n - 1);
      if StaysWithin(step, z, n - 1) && !StaysWithin(step, z, n) {
        assert !WithinRadius(Orbit(step, z, n - 1));
        assert ExitsAt(step, z, n - 1);
      }
    }
  }

  /** The first exit index is unique, and an orbit that exits at `k` does not stay within past `k`. */
  lemma ExitUnique(step: Point -> Point, z: Point, k: nat, m: nat)
    requires ExitsAt(step, z, k)
    ensures ExitsAt(step, z, m) ==> k == m
    ensures m > k ==> !StaysWithin(step, z, m)
  {
  }

  /**
   The count of the whole computation, both ways round: the outcome is
   `Capped` exactly when orbit points 0 .. 999 all lie within the circle, and
   `Escaped(n + 1)` exactly when orbit point `n` is the first outside it.
   So an escaped point with count `k` has had the map applied `k - 1` times,
   and a capped one 1000 times.
   */
  lemma {:induction false} EscapeOutcomeMeaning(step: Point -> Point, start: Point)
    ensures EscapeOutcome(step, start) == Capped <==> StaysWithin(step, start, Cap)
    ensures forall n: nat :: n < Cap ==> (EscapeOutcome(step, start) == Escaped(n + 1) <==> ExitsAt(step, start, n))
  {
    var o := EscapeOutcome(step, start);
    ExitOrStay(step, start, Cap);
    if StaysWithin(step, start, Cap) {
      assert WithinRadius(Orbit(step, start, 0));
      LoopCapsBounded(step, start, 1);
      assert o == Capped;
      forall n: nat | n < Cap
        ensures !ExitsAt(step, start, n)
      {
        assert WithinRadius(Orbit(step, start, n));
      }
    } else {
      var k: nat :| k < Cap && ExitsAt(step, start, k);
      if k == 0 {
        assert o == Escaped(1);
      } else {
        assert WithinRadius(Orbit(step, start, 0));
        LoopCountsExit(step, start, 1, k);
      }
      assert o == Escaped(k + 1);
      forall n: nat | n < Cap
        ensures ExitsAt(step, start, n) ==> n == k
      {
        ExitUnique(step, start, k, n);
      }
    }
  }

  /** The Mandelbrot orbit of the origin never moves. */
  lemma {:induction false} OriginIsFixed(n: nat)
    ensures Orbit(MandelbrotStep(Point(0.0, 0.0)), Point(0.0, 0.0), n) == Point(0.0, 0.0)
  {
    if n > 0 {
      OriginIsFixed(n - 1);
      OrbitShift(MandelbrotStep(Point(0.0, 0.0)), Point(0.0, 0.0), n - 1);
    }
  }

  /** The origin is capped by the Mandelbrot computation and reported as 255. */
  lemma {:induction false} MandelbrotOriginCapped()
    ensures MandelbrotComputation(Point(0.0, 0.0)) == MandelbrotSentinel
  {
    var step := MandelbrotStep(Point(0.0, 0.0));
    forall i: nat | i < Cap
      ensures WithinRadius(Orbit(step, Point(0.0, 0.0), i))
    {
      OriginIsFixed(i);
    }
    EscapeOutcomeMeaning(step, Point(0.0, 0.0));
  }

  /**
   What `mandelbrot_computation` returns: the count `n + 1` of the first orbit
   point `n` outside the circle, or 255 when the first 1000 orbit points all
   stay within.
   */
  lemma {:induction false} MandelbrotMeaning(p: Point)
    ensures StaysWithin(MandelbrotStep(p), p, Cap) ==> MandelbrotComputation(p) == MandelbrotSentinel
    ensures forall n: nat :: n < Cap && ExitsAt(MandelbrotStep(p), p, n) ==> MandelbrotComputation(p) == n + 1
  {
    EscapeOutcomeMeaning(MandelbrotStep(p), p);
  }

  /** What `julia_computation` returns: as for Mandelbrot, with sentinel 200. */
  lemma {:induction false} JuliaMeaning(sin: real -> real, p: Point)
    ensures StaysWithin(JuliaStep(sin), p, Cap) ==> JuliaComputation(sin, p) == JuliaSentinel
    ensures forall n: nat :: n < Cap && ExitsAt(JuliaStep(sin), p, n) ==> JuliaComputation(sin, p) == n + 1
  {
    EscapeOutcomeMeaning(JuliaStep(sin), p);
  }
}
