/**
 * Rounding to double precision: section 4.3.1 of IEEE 754-2019, round to nearest with ties to
 * even, for non-negative values.  The exponent is unbounded: the times and ratios modelled here
 * are far from overflow and underflow.
 */
module Doubles {
  const P52 := 0x10_0000_0000_0000
  const P53 := 0x20_0000_0000_0000

  /** The nearest integer, ties to even. */
  function ToInteger(x: real): (n: int)
    requires x >= 0.0
    ensures n as real - x <= 0.5 && x - n as real <= 0.5
  {
    var f := x.Floor;
    if x - f as real < 0.5 then f
    else if x - f as real > 0.5 then f + 1
    else if f % 2 == 0 then f else f + 1
  }

  lemma PositiveFactor(a: real, b: real)
    requires b > 0.0
    ensures a * b > 0.0 <==> a > 0.0
    ensures a * b >= 0.0 <==> a >= 0.0
  {}

  /** How far x is from the binade [2^52, 2^53), where doubles are the integers. */
  function Distance(x: real): nat
    requires x > 0.0
  {
    if x < P52 as real then (P52 as real / x).Floor
    else if x < P53 as real then 0
    else x.Floor
  }

  /** The double nearest to x. */
  function Round(x: real): (r: real)
    requires x >= 0.0
    ensures r >= 0.0
    decreases if x == 0.0 then 0 else Distance(x)
  {
    if x == 0.0 then 0.0
    else if x < P52 as real then
      Halving(x);
      Round(2.0 * x) / 2.0
    else if x >= P53 as real then 2.0 * Round(x / 2.0)
    else ToInteger(x) as real
  }

  lemma Halving(x: real)
    requires 0.0 < x < P52 as real
    ensures Distance(2.0 * x) < Distance(x)
  {
    var q := P52 as real / x;
    assert q * x == P52 as real;
    PositiveFactor(q - 1.0, x);
    if 2.0 * x < P52 as real {
      var h := P52 as real / (2.0 * x);
      assert h * (2.0 * x) == P52 as real;
      assert (2.0 * h - q) * x == 0.0;
      assert 2.0 * h == q;
    }
  }

  predicate Representable(r: real) {
    r >= 0.0 && Round(r) == r
  }

  lemma Doubled(x: real)
    requires x >= 0.0
    ensures Round(2.0 * x) == 2.0 * Round(x)
  {
    if x >= P52 as real {
      assert 2.0 * x >= P53 as real && (2.0 * x) / 2.0 == x;
    }
  }

  /** Integers of up to 53 bits are doubles. */
  lemma {:induction false} IntegersExact(k: nat)
    requires k <= P53
    ensures Round(k as real) == k as real
    decreases P53 - k
  {
    if k == P53 {
      assert P53 as real / 2.0 == P52 as real;
      assert ToInteger(P52 as real) == P52;
    } else if 0 < k < P52 {
      IntegersExact(2 * k);
      assert (2 * k) as real == 2.0 * (k as real);
    }
  }

  /** Halfway between two doubles the even one is taken; Doubled carries this to every binade. */
  lemma {:induction false} TiesToEven(m: nat)
    requires P52 <= m < P53
    ensures Round(m as real + 0.5) == (if m % 2 == 0 then m else m + 1) as real
  {
    assert (m as real + 0.5).Floor == m;
  }

  lemma {:induction false} Bounded(x: real)
    requires x >= 0.0
    ensures x < P53 as real ==> Round(x) <= P53 as real
    ensures x < P52 as real ==> Round(x) <= P52 as real
    ensures x >= P52 as real ==> Round(x) >= P52 as real
    ensures x >= P53 as real ==> Round(x) >= P53 as real
    decreases if x == 0.0 then 0 else Distance(x)
  {
    if x == 0.0 {
    } else if x < P52 as real {
      Halving(x);
      Bounded(2.0 * x);
    } else if x >= P53 as real {
      Bounded(x / 2.0);
    }
  }

  /** Rounding keeps order. */
  lemma {:induction false} Monotone(x: real, y: real)
    requires 0.0 <= x <= y
    ensures Round(x) <= Round(y)
    decreases if x == 0.0 then 0 else Distance(x), if y == 0.0 then 0 else Distance(y)
  {
    if x == 0.0 {
    } else if y < P52 as real {
      Halving(x);
      Halving(y);
      Monotone(2.0 * x, 2.0 * y);
    } else if x >= P53 as real {
      Monotone(x / 2.0, y / 2.0);
    } else if x < P52 as real || y >= P53 as real {
      Bounded(x);
      Bounded(y);
    } else {
      IntegersMonotone(x, y);
    }
  }

  lemma IntegersMonotone(x: real, y: real)
    requires 0.0 <= x <= y
    ensures ToInteger(x) <= ToInteger(y)
  {}

  /** Rounding moves a value by at most its 2^-53. */
  lemma {:induction false} ErrorBound(x: real)
    requires x >= 0.0
    ensures (Round(x) - x) * P53 as real <= x
    ensures (x - Round(x)) * P53 as real <= x
    decreases if x == 0.0 then 0 else Distance(x)
  {
    if x == 0.0 {
    } else if x < P52 as real {
      Halving(x);
      ErrorBound(2.0 * x);
    } else if x >= P53 as real {
      ErrorBound(x / 2.0);
    }
  }

  /** No double is nearer to x than Round(x). */
  lemma {:induction false} RoundIsNearest(x: real, r: real)
    requires x >= 0.0 && Representable(r)
    ensures Round(x) - x <= r - x || Round(x) - x <= x - r
    ensures x - Round(x) <= r - x || x - Round(x) <= x - r
    decreases if x == 0.0 then 0 else Distance(x)
  {
    Bounded(r);
    if x == 0.0 {
    } else if x < P52 as real {
      Halving(x);
      Doubled(r);
      RoundIsNearest(2.0 * x, 2.0 * r);
    } else if x >= P53 as real {
      Doubled(r / 2.0);
      assert 2.0 * (r / 2.0) == r;
      RoundIsNearest(x / 2.0, r / 2.0);
    } else {
      NearestInteger(x, r);
    }
  }

  lemma NearestInteger(x: real, r: real)
    requires P52 as real <= x < P53 as real && Representable(r)
    ensures var n := ToInteger(x) as real; (n - x <= r - x || n - x <= x - r) && (x - n <= r - x || x - n <= x - r)
  {
    if r < P52 as real {
      IntegersMonotone(P52 as real, x);
    } else if r >= P53 as real {
      IntegersMonotone(x, P53 as real);
    } else {
      assert r == ToInteger(r) as real;
      NearestOfIntegers(x, ToInteger(r));
    }
  }

  lemma NearestOfIntegers(x: real, m: int)
    requires x >= 0.0
    ensures var n, r := ToInteger(x) as real, m as real;
            (n - x <= r - x || n - x <= x - r) && (x - n <= r - x || x - n <= x - r)
  {
    var f := x.Floor;
    var fr: real, mr: real := f as real, m as real;
    var n := ToInteger(x);
    if m <= f {
      assert mr <= fr;
    } else {
      assert mr >= fr + 1.0;
    }
    if n == f {
      assert n as real == fr && x - fr <= 0.5;
    } else {
      assert n == f + 1 && n as real == fr + 1.0 && x - fr >= 0.5;
    }
  }

  /** A rounded value below an integer stays below it when the gap is wider than the rounding error. */
  lemma StaysBelow(x: real, k: nat)
    requires 0.0 <= x < k as real && x < (k as real - x) * P53 as real
    ensures Round(x) < k as real
  {
    ErrorBound(x);
  }

  /** Below 2^53, truncating a rounded quotient of integers is integer division, whatever the divisor. */
  lemma QuotientTruncates(t: nat, d: nat)
    requires t < P53 && 0 < d
    ensures Round(t as real / d as real).Floor == t / d
  {
    var q, x := t / d, t as real / d as real;
    QuotientBounds(t, d, q);
    IntegersExact(q);
    Monotone(q as real, x);
    StaysBelow(x, q + 1);
  }

  lemma QuotientBounds(t: nat, d: nat, q: nat)
    requires t < P53 && 0 < d && q == t / d
    ensures var x := t as real / d as real;
            && q as real <= x < (q + 1) as real
            && x < ((q + 1) as real - x) * P53 as real
            && q < P53
  {
    var x, dr, qr := t as real / d as real, d as real, q as real;
    assert x * dr == t as real;
    assert q * d <= t <= q * d + d - 1;
    assert (q * d) as real == qr * dr;
    assert (x - qr) * dr >= 0.0;
    PositiveFactor(x - qr, dr);
    var gap := qr + 1.0 - x;
    assert gap * dr >= 1.0;
    PositiveFactor(gap, dr);
    Gap(x, gap, dr, P53 as real);
  }

  lemma Gap(x: real, g: real, d: real, p: real)
    requires d > 0.0 && p > 0.0 && x * d < p && g * d >= 1.0
    ensures x < g * p
  {
    assert (g * d - 1.0) * p >= 0.0;
    assert (g * p - x) * d == (g * d) * p - x * d;
    PositiveFactor(g * p - x, d);
  }
}
