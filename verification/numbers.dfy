/**
  The part of JavaScript number arithmetic that the pages' percentage
  formulas touch: magnitudes and division, where a zero divisor yields an
  infinity or NaN instead of failing. Values are exact reals; rounding is not
  modelled.
 */
module Numbers {

  /** A JavaScript number as far as these formulas can produce one. */
  datatype Num = Finite(value: real) | PosInfinity | NegInfinity | NaN

  /** An optional value (a field that may be `undefined`). */
  datatype Option<T> = None | Some(value: T)

  /** `Math.abs`. */
  function Abs(x: real): (r: real)
    ensures r >= 0.0
    ensures r == x || r == -x
  {
    if x < 0.0 then -x else x
  }

  /** `|a - b|` is a distance: symmetric and zero only between equal points. */
  lemma AbsDistance(a: real, b: real)
    ensures Abs(a - b) == Abs(b - a)
    ensures Abs(a - b) == 0.0 <==> a == b
  {
  }

  /** `a / b`: the exact quotient for a non-zero divisor; for a zero divisor
      NaN when `a` is zero too, otherwise the infinity of `a`'s sign. */
  function Div(a: real, b: real): (r: Num)
    ensures r.Finite? <==> b != 0.0
    ensures r.Finite? ==> r.value * b == a
    ensures r == NaN <==> a == 0.0 && b == 0.0
    ensures r == PosInfinity <==> a > 0.0 && b == 0.0
    ensures r == NegInfinity <==> a < 0.0 && b == 0.0
  {
    if b != 0.0 then Finite(a / b)
    else if a == 0.0 then NaN
    else if a > 0.0 then PosInfinity
    else NegInfinity
  }

  /** Multiplying by a positive factor keeps the sign. */
  lemma ProductSign(a: real, m: real)
    requires m > 0.0
    ensures a * m < 0.0 <==> a < 0.0
    ensures a * m == 0.0 <==> a == 0.0
  {
  }

  /** How a quotient by a positive divisor compares with 0 and with 1. */
  lemma QuotientSign(x: real, m: real)
    requires m > 0.0
    ensures x / m < 0.0 <==> x < 0.0
    ensures x / m == 0.0 <==> x == 0.0
    ensures x / m <= 1.0 <==> x <= m
    ensures x / m == 1.0 <==> x == m
  {
    var q := x / m;
    assert q * m == x;
    ProductSign(q, m);
    assert (q - 1.0) * m == q * m - m;
    ProductSign(q - 1.0, m);
  }

  /** `n * k` for a finite factor `k`. */
  function Scale(n: Num, k: real): (r: Num)
    ensures r.Finite? <==> n.Finite?
    ensures n.Finite? ==> r.value == n.value * k
    ensures r == NaN <==> n == NaN || (k == 0.0 && !n.Finite?)
  {
    match n
    case Finite(v) => Finite(v * k)
    case NaN => NaN
    case PosInfinity => if k > 0.0 then PosInfinity else if k < 0.0 then NegInfinity else NaN
    case NegInfinity => if k > 0.0 then NegInfinity else if k < 0.0 then PosInfinity else NaN
  }
}
