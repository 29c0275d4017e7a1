/** Numeric helpers shared by the analytics: the handful of IEEE-754 values the
    Python code produces on purpose (`float('inf')`) or guards against (NaN),
    the built-ins `max`/`min`, and `int()`'s truncation toward zero. */
module Numbers {

  /** A Python float: a finite value, one of the two infinities, or NaN. */
  datatype Float = Num(v: real) | PosInf | NegInf | NaN {
    predicate IsFinite() { Num? }
  }

  function Max(a: real, b: real): (m: real)
    ensures m >= a && m >= b
    ensures m == a || m == b
  {
    if a >= b then a else b
  }

  /** Python's `min(a, b)`: the first argument unless the second is smaller. */
  function Min(a: real, b: real): (m: real)
    ensures m <= a && m <= b
    ensures m == a || m == b
  {
    if b < a then b else a
  }

  /** `int(x)` / `astype(int)` on a finite float: truncation toward zero. */
  function Trunc(x: real): (n: int)
    ensures x >= 0.0 ==> 0 <= n && n as real <= x < n as real + 1.0
    ensures x < 0.0 ==> n <= 0 && n as real - 1.0 < x <= n as real
  {
    if x >= 0.0 then x.Floor else -((-x).Floor)
  }

  predicate IsIntegral(x: real) {
    x == x.Floor as real
  }
}
