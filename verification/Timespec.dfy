/**
 * Time arithmetic.  The conversions go through double precision, so each product, sum and quotient
 * of doubles below is rounded; the results are integers again.
 */
module Timespec {
  import opened Common
  import opened Doubles

  const GIGA := 1_000_000_000
  const MEGA := 1_000_000

  datatype Timespec = Timespec(sec: nat, nsec: nat)

  predicate Normal(t: Timespec) {
    t.nsec < GIGA
  }

  /** The time in nanoseconds, as a number. */
  function Value(t: Timespec): nat {
    t.sec * GIGA + t.nsec
  }

  // ---------------------------------------------------------------- conversions

  function TimespecToNanos(t: Timespec): int {
    Round(Round(Round(t.sec as real) * 1e9) + Round(t.nsec as real)).Floor
  }

  function NanosToTimespec(ns: nat): Timespec {
    Timespec(Round(Round(ns as real) / 1e9).Floor, ns % GIGA)
  }

  function MicrosToTimespec(us: nat): Timespec {
    Timespec(Round(Round(us as real) / 1e6).Floor, (us % MEGA) * 1000)
  }

  lemma Division(n: nat, d: nat)
    requires d > 0
    ensures n == (n / d) * d + n % d
  {}

  /** NanosToTimespec is exact below 2^53 nanoseconds. */
  lemma FromNanosExact(ns: nat)
    requires ns < P53
    ensures Normal(NanosToTimespec(ns)) && Value(NanosToTimespec(ns)) == ns
  {
    IntegersExact(ns);
    QuotientTruncates(ns, GIGA);
    Division(ns, GIGA);
    var q, r := ns / GIGA, ns % GIGA;
    assert q * GIGA + r == ns && 0 <= q && 0 <= r < GIGA;
    assert GIGA as real == 1e9 && Round(ns as real) == ns as real;
    assert Round(Round(ns as real) / 1e9).Floor == q;
    assert NanosToTimespec(ns) == Timespec(q, r);
  }

  /** MicrosToTimespec is exact below 2^53 microseconds. */
  lemma FromMicrosExact(us: nat)
    requires us < P53
    ensures Normal(MicrosToTimespec(us)) && Value(MicrosToTimespec(us)) == us * 1000
  {
    IntegersExact(us);
    QuotientTruncates(us, MEGA);
    Division(us, MEGA);
    var q, r := us / MEGA, us % MEGA;
    assert q * MEGA + r == us && 0 <= q && 0 <= r < MEGA;
    assert MEGA as real == 1e6 && Round(us as real) == us as real;
    assert Round(Round(us as real) / 1e6).Floor == q;
    assert MicrosToTimespec(us) == Timespec(q, r * 1000);
    assert q * GIGA + r * 1000 == (q * MEGA + r) * 1000;
  }

  function Shifted(k: nat, j: nat): nat {
    if j == 0 then k else 2 * Shifted(k, j - 1)
  }

  /** Shifting left keeps an integer of up to 53 bits a double. */
  lemma {:induction false} ShiftedExact(k: nat, j: nat)
    requires k <= P53
    ensures Round(Shifted(k, j) as real) == Shifted(k, j) as real
  {
    if j == 0 {
      IntegersExact(k);
    } else {
      ShiftedExact(k, j - 1);
      Doubled(Shifted(k, j - 1) as real);
    }
  }

  lemma SecondsExact(sec: nat)
    requires sec * 1_953_125 <= P53
    ensures Round(Round(sec as real) * 1e9) == (sec * GIGA) as real
  {
    IntegersExact(sec);
    var k := sec * 1_953_125;
    ShiftedExact(k, 9);
    assert Shifted(k, 1) == 2 * k;
    assert Shifted(k, 2) == 4 * k;
    assert Shifted(k, 4) == 2 * Shifted(k, 3) == 16 * k;
    assert Shifted(k, 6) == 2 * Shifted(k, 5) == 64 * k;
    assert Shifted(k, 8) == 2 * Shifted(k, 7) == 256 * k;
    assert sec as real * 1e9 == (sec * GIGA) as real;
  }

  /** The rounding of an integer is an integer. */
  lemma {:induction false} RoundsToInteger(x: real)
    requires x >= P52 as real
    ensures Round(x).Floor as real == Round(x)
    decreases Distance(x)
  {
    if x >= P53 as real {
      RoundsToInteger(x / 2.0);
      TwiceInteger(Round(x / 2.0));
    } else {
      assert Round(x) == ToInteger(x) as real;
    }
  }

  lemma TwiceInteger(r: real)
    requires r.Floor as real == r
    ensures (2.0 * r).Floor as real == 2.0 * r
  {
    var n := r.Floor;
    assert (2 * n) as real == 2.0 * r;
  }

  /** At most 53 bits once the trailing zeros are dropped, or 2^53 itself. */
  predicate FewBits(v: nat) {
    v <= P53 || (v % 2 == 0 && FewBits(v / 2))
  }

  lemma OddHalf(v: nat)
    requires v % 2 == 1
    ensures (v as real / 2.0).Floor as real != v as real / 2.0
  {
    var f := (v as real / 2.0).Floor;
    assert (2 * f) as real != v as real;
  }

  /** The whole numbers that are doubles. */
  lemma {:induction false} FewBitsExactly(v: nat)
    ensures FewBits(v) <==> Representable(v as real)
  {
    if v <= P53 {
      IntegersExact(v);
    } else {
      var half := v as real / 2.0;
      RoundsToInteger(half);
      if v % 2 == 0 {
        assert half == (v / 2) as real;
        FewBitsExactly(v / 2);
      } else {
        OddHalf(v);
      }
    }
  }

  /** v is k shifted left by j, where k has at most 53 bits or is 2^53. */
  predicate ShiftOf(v: nat, k: nat, j: nat) {
    k <= P53 && v == Shifted(k, j)
  }

  lemma ShiftedHalf(v: nat, k: nat, j: nat)
    requires v > P53 && ShiftOf(v, k, j)
    ensures j > 0 && v % 2 == 0 && ShiftOf(v / 2, k, j - 1)
  {
    Twice(v, Shifted(k, j - 1));
  }

  lemma Twice(v: nat, h: nat)
    ensures v == 2 * h <==> v % 2 == 0 && v / 2 == h
  {}

  /** They are the integers of up to 53 bits, shifted left. */
  lemma {:induction false} FewBitsShifted(v: nat)
    ensures FewBits(v) <==> exists k: nat, j: nat :: ShiftOf(v, k, j)
  {
    if v <= P53 {
      assert ShiftOf(v, v, 0);
    } else {
      if v % 2 == 0 { FewBitsShifted(v / 2); }
      if FewBits(v) {
        var k: nat, j: nat :| ShiftOf(v / 2, k, j);
        assert ShiftOf(v, k, j + 1);
      } else {
        forall k: nat, j: nat ensures !ShiftOf(v, k, j) {
          if ShiftOf(v, k, j) { ShiftedHalf(v, k, j); }
        }
      }
    }
  }

  /**
   * As long as the seconds are a double once converted, TimespecToNanos gives the nearest double to the
   * time.  So it is exact exactly for the times whose nanoseconds have at most 53 bits besides trailing
   * zeros, in particular up to 2^53.
   */
  lemma ToNanosBelow(t: Timespec)
    requires Normal(t) && t.sec * 1_953_125 <= P53
    ensures TimespecToNanos(t) == Value(t) <==> FewBits(Value(t))
    ensures Value(t) <= P53 ==> TimespecToNanos(t) == Value(t)
  {
    SecondsExact(t.sec);
    IntegersExact(t.nsec);
    FewBitsExactly(Value(t));
    var v := Value(t) as real;
    assert (t.sec * GIGA) as real + t.nsec as real == v;
    if Value(t) <= P53 {
      IntegersExact(Value(t));
    } else {
      RoundsToInteger(v);
    }
  }

  /** The first time that is lost: 2^53 + 1 nanoseconds read as 2^53. */
  lemma ToNanosBound()
    ensures var t := Timespec(9007199, 254740993);
            Value(t) == P53 + 1 && TimespecToNanos(t) == P53
  {
    var t := Timespec(9007199, 254740993);
    SecondsExact(t.sec);
    IntegersExact(t.nsec);
    var v := (P53 + 1) as real;
    assert Value(t) as real == v;
    assert v / 2.0 == P52 as real + 0.5;
    assert ToInteger(v / 2.0) == P52 by {
      assert (v / 2.0).Floor == P52;
    }
    assert Round(v / 2.0) == P52 as real;
    assert Round(v) == P53 as real;
    assert (t.sec * GIGA) as real + t.nsec as real == v;
  }

  /** Below 2^53 nanoseconds the conversions are mutual inverses. */
  lemma ConversionsInvert(t: Timespec, ns: nat)
    requires Normal(t) && Value(t) < P53 && ns < P53
    ensures TimespecToNanos(NanosToTimespec(ns)) == ns
    ensures TimespecToNanos(t) == Value(t) && NanosToTimespec(Value(t)) == t
  {
    FromNanosExact(ns);
    ToNanosBelow(NanosToTimespec(ns));
    ToNanosBelow(t);
    FromNanosExact(Value(t));
    assert Value(NanosToTimespec(Value(t))) == Value(t);
    SameValue(NanosToTimespec(Value(t)), t);
  }

  lemma SameValue(a: Timespec, b: Timespec)
    requires Normal(a) && Normal(b) && Value(a) == Value(b)
    ensures a == b
  {
    LessIsLess(a, b);
    LessIsLess(b, a);
  }

  // ---------------------------------------------------------------- comparisons

  predicate Less(t1: Timespec, t2: Timespec) {
    t1.sec < t2.sec || (t1.sec == t2.sec && t1.nsec < t2.nsec)
  }

  predicate LessOrEqual(t1: Timespec, t2: Timespec) {
    t1 == t2 || Less(t1, t2)
  }

  predicate Greater(t1: Timespec, t2: Timespec) {
    !LessOrEqual(t1, t2)
  }

  predicate GreaterOrEqual(t1: Timespec, t2: Timespec) {
    t1 == t2 || Greater(t1, t2)
  }

  /** On normalised times the comparisons are those of the nanoseconds, without any bound. */
  lemma LessIsLess(t1: Timespec, t2: Timespec)
    requires Normal(t1) && Normal(t2)
    ensures Less(t1, t2) <==> Value(t1) < Value(t2)
    ensures LessOrEqual(t1, t2) <==> Value(t1) <= Value(t2)
    ensures Greater(t1, t2) <==> Value(t1) > Value(t2)
    ensures GreaterOrEqual(t1, t2) <==> Value(t1) >= Value(t2)
  {
    if t1.sec < t2.sec {
      assert t1.sec * GIGA + GIGA <= t2.sec * GIGA;
    } else if t1.sec > t2.sec {
      assert t2.sec * GIGA + GIGA <= t1.sec * GIGA;
    }
  }

  // ---------------------------------------------------------------- arithmetic

  /** operator+: the sum of normalised times, normalised. */
  method Plus(t1: Timespec, t2: Timespec) returns (result: Timespec)
    requires Normal(t1) && Normal(t2)
    ensures Normal(result) && Value(result) == Value(t1) + Value(t2)
  {
    var sec, nsec := t1.sec + t2.sec, t1.nsec + t2.nsec;
    IntegersExact(nsec);
    if Round(nsec as real) >= 1e9 {
      sec := sec + 1;
      IntegersExact(nsec - GIGA);
      assert Round(nsec as real) - 1e9 == (nsec - GIGA) as real;
      nsec := Round(Round(nsec as real) - 1e9).Floor;
    }
    result := Timespec(sec, nsec);
  }

  /** operator-: None where the program exits, which is exactly when the difference would be negative. */
  method Minus(t1: Timespec, t2: Timespec) returns (result: Option<Timespec>)
    requires Normal(t1) && Normal(t2)
    ensures result.Some? <==> Value(t1) >= Value(t2)
    ensures result.Some? ==> Normal(result.value) && Value(result.value) == Value(t1) - Value(t2)
  {
    LessIsLess(t1, t2);
    if Less(t1, t2) { return None; }
    var sec := t1.sec - t2.sec;
    if t1.nsec < t2.nsec {
      IntegersExact(t2.nsec);
      IntegersExact(GIGA - t2.nsec);
      IntegersExact(t1.nsec);
      IntegersExact(GIGA - t2.nsec + t1.nsec);
      assert 1e9 - Round(t2.nsec as real) == (GIGA - t2.nsec) as real;
      assert (GIGA - t2.nsec) as real + t1.nsec as real == (GIGA - t2.nsec + t1.nsec) as real;
      result := Some(Timespec(sec - 1, Round(Round(1e9 - Round(t2.nsec as real)) + Round(t1.nsec as real)).Floor));
    } else {
      result := Some(Timespec(sec, t1.nsec - t2.nsec));
    }
  }

  /** operator/ by a number of nanoseconds; None where the program exits. */
  function Divide(t: Timespec, n: nat): Option<Timespec> {
    if n == 0 then None
    else
      var ns := TimespecToNanos(t);
      if ns < 0 then None else Some(NanosToTimespec(ns / n))
  }

  /** operator/ by another time. */
  function DivideBy(t1: Timespec, t2: Timespec): Option<Timespec> {
    var ns := TimespecToNanos(t2);
    if ns < 0 then None else Divide(t1, ns)
  }

  /** Division is the integer division of the nanoseconds. */
  lemma {:induction false} DivisionIs(t1: Timespec, t2: Timespec, n: nat)
    requires Normal(t1) && Normal(t2) && Value(t1) < P53 && Value(t2) < P53
    ensures Divide(t1, n).Some? <==> n > 0
    ensures n > 0 ==> Normal(Divide(t1, n).value) && Value(Divide(t1, n).value) == Value(t1) / n
    ensures DivideBy(t1, t2) == Divide(t1, Value(t2))
  {
    ToNanosBelow(t1);
    ToNanosBelow(t2);
    if n > 0 {
      NotLarger(Value(t1), n);
      FromNanosExact(Value(t1) / n);
    }
  }

  lemma {:induction false} NotLarger(a: nat, n: nat)
    requires n > 0
    ensures 0 <= a / n <= a
  {
    AtLeastItself(a / n, n);
    Division(a, n);
  }

  lemma AtLeastItself(q: nat, n: nat)
    requires n > 0
    ensures q <= q * n
  {}

  /** The conversion of a whole list. */
  method AllToNanos(tv: seq<Timespec>) returns (nsv: seq<int>)
    requires forall i :: 0 <= i < |tv| ==> Normal(tv[i]) && Value(tv[i]) <= P53
    ensures |nsv| == |tv| && forall i :: 0 <= i < |tv| ==> nsv[i] == Value(tv[i])
  {
    nsv := [];
    for k := 0 to |tv|
      invariant |nsv| == k && forall i :: 0 <= i < k ==> nsv[i] == Value(tv[i])
    {
      ToNanosBelow(tv[k]);
      nsv := nsv + [TimespecToNanos(tv[k])];
    }
  }
}
