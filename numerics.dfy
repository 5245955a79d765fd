/** The parts of JavaScript's `Math` that the animation relies on, over exact
    reals. `Math.random`, `Math.sin` and `Math.cos` are not computed: their
    results are handed in by the caller, with the ranges the platform promises. */
module Numerics {

  /** `Math.PI`, as the shortest decimal that denotes the engine's double. */
  const PI: real := 3.141592653589793

  /** The results of successive `Math.random()` calls made by one operation:
      the k-th call (counting from 0) returns `rand(k)`. */
  type Draws = nat -> real

  /** Every draw lies in [0, 1), which is what `Math.random` promises. */
  ghost predicate IsDrawStream(rand: Draws)
  {
    forall k: nat :: 0.0 <= rand(k) < 1.0
  }

  /** A stand-in for `Math.sin` or `Math.cos`: every value lies in [-1, 1]. */
  ghost predicate IsTrig(f: real -> real)
  {
    forall a: real :: -1.0 <= f(a) <= 1.0
  }

  /** The draws left after the first one has been consumed. */
  function Tail(rand: Draws): (rest: Draws)
    ensures forall k: nat :: rest(k) == rand(k + 1)
    ensures IsDrawStream(rand) ==> IsDrawStream(rest)
  {
    (k: nat) => rand(k + 1)
  }

  /** `Math.round`: the integer nearest to `x`, halves rounded up. */
  function Round(x: real): (n: int)
    ensures x - 0.5 < n as real <= x + 0.5
  {
    (x + 0.5).Floor
  }

  /** `Math.max` of two numbers. */
  function Max(a: real, b: real): (m: real)
    ensures a <= m && b <= m
    ensures m == a || m == b
  {
    if a < b then b else a
  }

  /** `Math.min` of two numbers. */
  function Min(a: real, b: real): (m: real)
    ensures m <= a && m <= b
    ensures m == a || m == b
  {
    if b < a then b else a
  }

  /** A draw in [0, 1) scaled by a positive extent lands in [0, extent). */
  lemma ScaledDraw(u: real, extent: real)
    requires 0.0 <= u < 1.0 && 0.0 < extent
    ensures 0.0 <= u * extent < extent
  {
  }

  /** A value in [-1, 1] scaled by a non-negative extent stays within that extent of 0. */
  lemma UnitScaled(c: real, extent: real)
    requires -1.0 <= c <= 1.0 && 0.0 <= extent
    ensures -extent <= c * extent <= extent
  {
    assert (1.0 - c) * extent >= 0.0;
    assert (1.0 + c) * extent >= 0.0;
  }
}
