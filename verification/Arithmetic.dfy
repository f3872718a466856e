/** Sums, and multiplication kept as repeated addition where a proof should stay linear. */
module Arithmetic {

  function Larger(a: int, b: int): int { if a >= b then a else b }

  function Smaller(a: int, b: int): int { if a <= b then a else b }

  function Sum(s: seq<nat>): nat {
    if s == [] then 0 else Sum(s[..|s| - 1]) + s[|s| - 1]
  }

  // Multiplication by a count, kept as repeated addition so that the bounds below stay linear

  function Times(m: nat, x: nat): nat {
    if m == 0 then 0 else Times(m - 1, x) + x
  }

  lemma {:induction false} TimesIsProduct(m: nat, x: nat)
    ensures Times(m, x) == m * x
  {
    if m > 0 {
      TimesIsProduct(m - 1, x);
      assert m * x == (m - 1) * x + x;
    }
  }

  lemma {:induction false} TimesAdd(m: nat, x: nat, y: nat)
    ensures Times(m, x + y) == Times(m, x) + Times(m, y)
  {
    if m > 0 {
      TimesAdd(m - 1, x, y);
    }
  }

  lemma {:induction false} TimesMonotone(m: nat, x: nat, y: nat)
    ensures x <= y ==> Times(m, x) <= Times(m, y)
    ensures 3 * x <= y ==> 3 * Times(m, x) <= Times(m, y)
  {
    if m > 0 {
      TimesMonotone(m - 1, x, y);
    }
  }

  /** Places in a row of equal strides do not reach into each other. */
  lemma {:induction false} StridesApart(v: int, w: int, stride: nat)
    requires v < w
    ensures v * stride + stride <= w * stride
    decreases w - v
  {
    NextStride(w - 1, stride);
    if v < w - 1 {
      StridesApart(v, w - 1, stride);
    }
  }

  lemma NextStride(n: int, stride: nat)
    ensures (n + 1) * stride == n * stride + stride
  {
  }

  lemma StridesJoin(m: int, n: int, stride: nat)
    ensures m * stride + n * stride == (m + n) * stride
  {
  }

  lemma ScaledBy(a: nat, b: nat, d: nat)
    requires a <= b
    ensures a * d <= b * d && d * a <= d * b
  {
    assert (b - a) * d >= 0;
  }

  /** A multiple fits below x exactly when its factor is at most the quotient. */
  lemma AtMostQuotient(k: nat, d: nat, x: nat)
    requires d > 0
    ensures k * d <= x <==> k <= x / d
  {
    var q := x / d;
    if k <= q {
      ScaledBy(k, q, d);
    } else {
      ScaledBy(q + 1, k, d);
    }
  }
}
