/**
 * When TimespecToNanos is exact, over the whole range of 64-bit nanoseconds: beyond 2^62 doubles are
 * 1024 apart, the product of the seconds may be rounded, and the sum is rounded again.
 */
module Nanoseconds {
  import opened Common
  import opened Doubles
  import opened Timespec

  const NANOS_MAX := 0x7FFF_FFFF_FFFF_FFFF
  const P62 := 0x4000_0000_0000_0000
  const P63 := 0x8000_0000_0000_0000

  // ---------------------------------------------------------------- rounding between 2^62 and 2^63

  lemma Scaled(y: real)
    requires y >= 0.0
    ensures Round(1024.0 * y) == 1024.0 * Round(y)
  {
    Doubled(y);
    Doubled(2.0 * y);
    Doubled(4.0 * y);
    Doubled(8.0 * y);
    Doubled(16.0 * y);
    Doubled(32.0 * y);
    Doubled(64.0 * y);
    Doubled(128.0 * y);
    Doubled(256.0 * y);
    Doubled(512.0 * y);
  }

  /** Whole multiples of 1024 plus a part below, rounded to a multiple of 1024. */
  lemma RoundsTo1024(x: nat, w: nat, part: nat)
    requires x == 1024 * w + part && part < 1024 && P62 <= x < P63
    ensures Round(x as real) == (1024 * Nearest(w, part)) as real
  {
    var y := x as real / 1024.0;
    assert y == w as real + part as real / 1024.0;
    assert P52 as real <= y < P53 as real;
    Scaled(y);
    assert 1024.0 * y == x as real;
    assert y.Floor == w;
    assert ToInteger(y) == Nearest(w, part);
  }

  /** The nearest integer to w + part / 1024, ties to even. */
  function Nearest(w: nat, part: nat): nat {
    if part < 512 || (part == 512 && w % 2 == 0) then w else w + 1
  }

  // ---------------------------------------------------------------- 53 bits beyond 2^62

  function Pow2(n: nat): nat {
    if n == 0 then 1 else 2 * Pow2(n - 1)
  }

  lemma ModTwice(v: nat, m: nat)
    requires m > 0
    ensures v % (2 * m) == 0 <==> v % 2 == 0 && (v / 2) % m == 0
  {
    var h, p := v / 2, v % 2;
    var q, r := h / m, h % m;
    assert h == q * m + r;
    Remainder(v, 2 * m, q, 2 * r + p);
  }

  lemma Remainder(v: nat, d: nat, q: nat, r: nat)
    requires r < d && v == q * d + r
    ensures v % d == r
  {
    var e := v / d - q;
    assert e * d + v % d == r;
    Multiples(e, d);
  }

  /** With n bits too many, having few bits is being divisible by 2 to the n. */
  lemma {:induction false} FewBitsDivides(v: nat, n: nat, m: nat)
    requires n > 0 && m == Pow2(n - 1) && P53 * m < v < 2 * (P53 * m)
    ensures FewBits(v) <==> v % (2 * m) == 0
  {
    if n == 1 {
      assert m == 1;
    } else {
      var k := Pow2(n - 2);
      assert m == 2 * k && P53 * m == 2 * (P53 * k) && P53 * k >= P53;
      ModTwice(v, m);
      if v % 2 == 0 { FewBitsDivides(v / 2, n - 1, k); }
    }
  }

  /** Between 2^62 and 2^63, the numbers of at most 53 bits are the multiples of 1024. */
  lemma FewBitsHigh(v: nat)
    requires P62 < v < P63
    ensures FewBits(v) <==> v % 1024 == 0
  {
    assert Pow2(3) == 8 && Pow2(6) == 8 * Pow2(3) && Pow2(9) == 8 * Pow2(6);
    FewBitsDivides(v, 10, 512);
  }

  // ---------------------------------------------------------------- the whole conversion

  /** The converted seconds when they are beyond 2^62: an odd number of them is rounded to an even multiple. */
  lemma SecondsHigh(sec: nat, k: nat)
    requires k == sec * 1_953_125 && k > P53 && sec * GIGA < P63
    ensures Round(Round(sec as real) * 1e9) == (1024 * Nearest(k / 2, 512 * (k % 2))) as real
  {
    IntegersExact(sec);
    assert sec as real * 1e9 == (sec * GIGA) as real;
    assert sec * GIGA == 512 * k == 1024 * (k / 2) + 512 * (k % 2);
    RoundsTo1024(sec * GIGA, k / 2, 512 * (k % 2));
  }

  lemma OddFactor(sec: nat)
    ensures (sec * 1_953_125) % 2 == sec % 2
  {}

  /** The rounded seconds: as they are, or half a unit of 1024 away at an even number of units. */
  lemma RoundedSeconds(k: nat, j: nat, p: nat)
    requires k == 2 * j + p && p < 2
    ensures var h := Nearest(j, 512 * p);
            && (p == 0 ==> 1024 * h == 512 * k)
            && (p == 1 ==> h % 2 == 0 && (1024 * h == 512 * k + 512 || 1024 * h == 512 * k - 512))
  {}

  /** Rounding the seconds does not leave the range: the greatest number of them is even. */
  lemma RoundedBelow(sec: nat, nsec: nat, k: nat, h: nat)
    requires k == sec * 1_953_125 && k > P53 && nsec < GIGA && sec * GIGA + nsec <= NANOS_MAX
    requires h == Nearest(k / 2, 512 * (k % 2))
    ensures P62 <= 1024 * h + nsec < P63
  {
    OddFactor(sec);
    RoundedSeconds(k, k / 2, k % 2);
    assert sec <= 9_223_372_036 && 512 * k == sec * GIGA;
    if k % 2 == 1 { assert sec <= 9_223_372_035; }
  }

  lemma ToNanosHigh(t: Timespec)
    requires Normal(t) && Value(t) <= NANOS_MAX && t.sec * 1_953_125 > P53
    ensures TimespecToNanos(t) == Value(t) <==> Value(t) % 1024 == 0 && (t.sec % 2 == 0 || Value(t) % 2048 == 0)
  {
    var k := t.sec * 1_953_125;
    SecondsHigh(t.sec, k);
    IntegersExact(t.nsec);
    var h := Nearest(k / 2, 512 * (k % 2));
    var x := 1024 * h + t.nsec;
    assert Round(Round(t.sec as real) * 1e9) + Round(t.nsec as real) == x as real;
    RoundedBelow(t.sec, t.nsec, k, h);
    RoundsTo1024(x, x / 1024, x % 1024);
    Parities(t.sec, t.nsec, k, h, x);
  }

  lemma WholeUnits(x: nat)
    ensures 1024 * Nearest(x / 1024, x % 1024) == x <==> x % 1024 == 0
  {
    UnitsOf(x, Nearest(x / 1024, x % 1024));
  }

  lemma UnitsOf(v: nat, a: nat)
    ensures 1024 * a == v <==> v % 1024 == 0 && a == v / 1024
    ensures v % 2048 == 0 <==> v % 1024 == 0 && (v / 1024) % 2 == 0
  {}

  lemma TieToEven(w: nat, x: nat)
    requires x == 1024 * w + 512 || x == 1024 * w - 512
    ensures Nearest(x / 1024, x % 1024) == w <==> w % 2 == 0
  {
    assert x % 1024 == 512;
  }

  /** Which sums of the rounded seconds and the nanoseconds round to the time itself. */
  lemma Parities(sec: nat, nsec: nat, k: nat, h: nat, x: nat)
    requires k == sec * 1_953_125 && h == Nearest(k / 2, 512 * (k % 2)) && x == 1024 * h + nsec
    ensures var v := 512 * k + nsec;
            1024 * Nearest(x / 1024, x % 1024) == v <==> v % 1024 == 0 && (sec % 2 == 0 || v % 2048 == 0)
  {
    OddFactor(sec);
    RoundedSeconds(k, k / 2, k % 2);
    UnitsOf(512 * k + nsec, 0);
    if k % 2 == 0 {
      assert x == 512 * k + nsec;
      WholeUnits(x);
    } else {
      OddSeconds(k, h, nsec, x);
    }
  }

  /** From an odd number of units of 512, rounded to an even number of units of 1024. */
  lemma OddSeconds(k: nat, h: nat, nsec: nat, x: nat)
    requires h % 2 == 0 && (1024 * h == 512 * k + 512 || 1024 * h == 512 * k - 512) && x == 1024 * h + nsec
    ensures var v := 512 * k + nsec; 1024 * Nearest(x / 1024, x % 1024) == v <==> v % 2048 == 0
  {
    var v := 512 * k + nsec;
    assert x == v + 512 || x == v - 512;
    UnitsOf(v, Nearest(x / 1024, x % 1024));
    if v % 1024 == 0 { TieToEven(v / 1024, x); }
  }

  /**
   * TimespecToNanos is exact, for times of up to 2^63 - 1 nanoseconds, exactly if the nanoseconds have at
   * most 53 bits besides trailing zeros and, beyond 2^62 with an odd number of seconds, also an even
   * number of units of 1024.
   */
  lemma ToNanosExactly(t: Timespec)
    requires Normal(t) && Value(t) <= NANOS_MAX
    ensures TimespecToNanos(t) == Value(t)
       <==> FewBits(Value(t)) && (t.sec * 1_953_125 <= P53 || t.sec % 2 == 0 || Value(t) % 2048 == 0)
  {
    if t.sec * 1_953_125 <= P53 {
      ToNanosBelow(t);
    } else {
      ToNanosHigh(t);
      FewBitsHigh(Value(t));
    }
  }

  /** A time that is a double and is still lost: it reads 1024 nanoseconds too small. */
  lemma RoundedTwice()
    ensures var t := Timespec(4_611_686_021, 512);
            FewBits(Value(t)) && TimespecToNanos(t) == Value(t) - 1024
  {
    var t := Timespec(4_611_686_021, 512);
    var k := t.sec * 1_953_125;
    SecondsHigh(t.sec, k);
    IntegersExact(t.nsec);
    var h := Nearest(k / 2, 512 * (k % 2));
    var x := 1024 * h + t.nsec;
    assert Round(Round(t.sec as real) * 1e9) + Round(t.nsec as real) == x as real;
    RoundsTo1024(x, x / 1024, x % 1024);
    FewBitsHigh(Value(t));
  }
}
