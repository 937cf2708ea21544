/** The numeric building blocks of the car: Python's `int()` on a float, the
    `max(min(v, hi), lo)` clamp, and `int(math.sqrt(v))`. */
module Numeric {

  /** `t` is `r` with its fractional part dropped, rounding toward zero. */
  predicate TruncatesTo(r: real, t: int) {
    && (r >= 0.0 ==> 0 <= t && t as real <= r < t as real + 1.0)
    && (r < 0.0 ==> t <= 0 && t as real - 1.0 < r <= t as real)
  }

  /** Python's `int(r)` on a float: truncation toward zero. */
  function Trunc(r: real): (t: int)
    ensures TruncatesTo(r, t)
  {
    if r >= 0.0 then r.Floor else -((-r).Floor)
  }

  /** Every real truncates to exactly one integer. */
  lemma TruncUnique(r: real)
    ensures forall t :: TruncatesTo(r, t) <==> t == Trunc(r)
  {
  }

  /** `r` is the point of [lo, hi] nearest to `v`. */
  predicate NearestInRange(v: real, lo: real, hi: real, r: real) {
    && lo <= r <= hi
    && (v < lo ==> r == lo)
    && (hi < v ==> r == hi)
    && (lo <= v <= hi ==> r == v)
  }

  /** `max(min(v, hi), lo)`, the clamp of `_move`. */
  function Clamp(v: real, lo: real, hi: real): (r: real)
    ensures lo <= r
    ensures lo <= hi ==> NearestInRange(v, lo, hi, r)
  {
    var m := if v <= hi then v else hi;
    if m >= lo then m else lo
  }

  /** The largest natural number whose square is at most `v`, searched upward from `n`. */
  function SqrtFrom(v: real, n: nat): (r: nat)
    requires (n * n) as real <= v
    ensures n <= r
    ensures (r * r) as real <= v < ((r + 1) * (r + 1)) as real
    decreases v.Floor - n
  {
    if ((n + 1) * (n + 1)) as real <= v then
      assert n + 1 <= (n + 1) * (n + 1);
      SqrtFrom(v, n + 1)
    else
      n
  }

  /** `int(math.sqrt(v))` for a non-negative `v`, computed exactly. */
  function FloorSqrt(v: real): (r: nat)
    requires 0.0 <= v
    ensures (r * r) as real <= v < ((r + 1) * (r + 1)) as real
  {
    SqrtFrom(v, 0)
  }

  /** The floor square root is the only natural number with that property. */
  lemma FloorSqrtUnique(v: real, n: nat)
    requires 0.0 <= v
    requires (n * n) as real <= v < ((n + 1) * (n + 1)) as real
    ensures n == FloorSqrt(v)
  {
    var r := FloorSqrt(v);
    if n < r {
      SquareMonotone(n + 1, r);
    } else if r < n {
      SquareMonotone(r + 1, n);
    }
  }

  lemma SquareMonotone(a: nat, b: nat)
    requires a <= b
    ensures a * a <= b * b
  {
  }
}
