/**
 * Histograms of samples: at most 20 bins of equal size, and bars of at most 50 characters.
 */
module Histogram {
  import opened Common
  import opened Doubles

  const HEIGHT := 20
  const WIDTH := 50

  // ---------------------------------------------------------------- C++ conversions

  /** double to int64_t: towards zero. */
  function Truncated(x: real): int {
    if x >= 0.0 then x.Floor else -((-x).Floor)
  }

  /** Integer division: towards zero. */
  function Quotient(a: int, b: int): int
    requires b != 0
  {
    var q := (if a < 0 then -a else a) / (if b < 0 then -b else b);
    if (a < 0) == (b < 0) then q else -q
  }

  lemma {:induction false} QuotientOrder(a: int, b: int, d: int)
    requires a <= b && d > 0
    ensures Quotient(a, d) <= Quotient(b, d)
  {
    if 0 <= a {
      DivisionOrder(a, b, d);
    } else if b <= 0 {
      DivisionOrder(-b, -a, d);
    } else {
      DivisionOrder(0, b, d);
      DivisionOrder(0, -a, d);
    }
  }

  lemma DivisionOrder(a: nat, b: nat, d: nat)
    requires a <= b && d > 0
    ensures 0 <= a / d <= b / d
  {
    var p, q := a / d, b / d;
    assert p * d <= a && b < q * d + d;
    assert (p - q - 1) * d < 0;
    Negative(p - q - 1, d);
    assert a < p * d + d;
    Negative(-p - 1, d);
  }

  lemma Negative(e: int, d: nat)
    requires d > 0 && e * d < 0
    ensures e < 0
  {}

  // ---------------------------------------------------------------- the values that are binned

  function MinOf(samples: seq<real>): (m: real)
    requires samples != []
    ensures m in samples && forall i :: 0 <= i < |samples| ==> m <= samples[i]
  {
    if |samples| == 1 then samples[0]
    else
      var m := MinOf(samples[1..]);
      if samples[0] <= m then samples[0] else m
  }

  function MaxOf(samples: seq<real>): (m: real)
    requires samples != []
    ensures m in samples && forall i :: 0 <= i < |samples| ==> samples[i] <= m
  {
    if |samples| == 1 then samples[0]
    else
      var m := MaxOf(samples[1..]);
      if samples[0] >= m then samples[0] else m
  }

  /** A sample in display units; `factor` is the dividing factor of the unit. */
  function Shown(x: real, factor: int): int
    requires factor > 0
  {
    Quotient(Truncated(x), factor)
  }

  /** A shown value is the number of whole units in the sample, without the sign's part of the last one. */
  lemma {:induction false} ShownBounds(x: real, factor: int)
    requires factor > 0
    ensures var v := Shown(x, factor);
      if x >= 0.0 then 0 <= v && (v * factor) as real <= x < ((v + 1) * factor) as real
      else v <= 0 && ((v - 1) * factor) as real < x <= (v * factor) as real
  {
    var v := Shown(x, factor);
    if x >= 0.0 {
      WholeUnits(x.Floor, factor);
    } else {
      WholeUnits((-x).Floor, factor);
      assert (v - 1) * factor == -((-v + 1) * factor) && v * factor == -(-v * factor);
    }
  }

  lemma WholeUnits(t: nat, factor: int)
    requires factor > 0
    ensures 0 <= t / factor && (t / factor) * factor <= t && t + 1 <= (t / factor + 1) * factor
  {
    var q := t / factor;
    assert q * factor <= t < q * factor + factor;
    assert (q + 1) * factor == q * factor + factor;
    Negative(-q - 1, factor);
  }

  lemma {:induction false} ShownOrder(x: real, y: real, factor: int)
    requires x <= y && factor > 0
    ensures Shown(x, factor) <= Shown(y, factor)
  {
    QuotientOrder(Truncated(x), Truncated(y), factor);
  }

  function Range(samples: seq<real>, factor: int): int
    requires samples != [] && factor > 0
  {
    Shown(MaxOf(samples), factor) - Shown(MinOf(samples), factor)
  }

  /** bin_size is a 32-bit int. */
  function BinSize(samples: seq<real>, factor: int): int
    requires samples != [] && factor > 0
  {
    ToInt(Quotient(Range(samples, factor), HEIGHT) + 1)
  }

  function Bin(samples: seq<real>, factor: int, x: real): int
    requires samples != [] && factor > 0 && BinSize(samples, factor) != 0
  {
    Quotient(Shown(x, factor) - Shown(MinOf(samples), factor), BinSize(samples, factor))
  }

  /** The range of the samples is small enough for a 32-bit bin size. */
  predicate RangeFits(samples: seq<real>, factor: int)
    requires samples != [] && factor > 0
  {
    Range(samples, factor) / HEIGHT < INT_MAX
  }

  lemma RangeIsNatural(samples: seq<real>, factor: int)
    requires samples != [] && factor > 0
    ensures 0 <= Range(samples, factor)
  {
    var i :| 0 <= i < |samples| && samples[i] == MaxOf(samples);
    ShownOrder(MinOf(samples), MaxOf(samples), factor);
  }

  lemma SizeOfRange(samples: seq<real>, factor: int)
    requires samples != [] && factor > 0
    ensures BinSize(samples, factor) == ToInt(Range(samples, factor) / HEIGHT + 1)
  {
    RangeIsNatural(samples, factor);
  }

  lemma SmallIsInt(n: int)
    requires 0 <= n <= INT_MAX
    ensures ToInt(n) == n
  {}

  lemma {:induction false} BinOfOffset(d: nat, range: nat)
    requires d <= range
    ensures 0 <= Quotient(d, range / HEIGHT + 1) < HEIGHT
  {
    DivisionBelow(d, range / HEIGHT + 1, HEIGHT);
  }

  /** With a 32-bit bin size that did not overflow, every sample has a bin. */
  lemma {:induction false} BinInRange(samples: seq<real>, factor: int, x: real)
    requires samples != [] && factor > 0 && RangeFits(samples, factor)
    requires MinOf(samples) <= x <= MaxOf(samples)
    ensures BinSize(samples, factor) == (Shown(MaxOf(samples), factor) - Shown(MinOf(samples), factor)) / 20 + 1 > 0
    ensures 0 <= Bin(samples, factor, x) < 20
  {
    RangeIsNatural(samples, factor);
    SizeOfRange(samples, factor);
    SmallIsInt(Range(samples, factor) / HEIGHT + 1);
    ShownOrder(MinOf(samples), x, factor);
    ShownOrder(x, MaxOf(samples), factor);
    BinOfOffset(Shown(x, factor) - Shown(MinOf(samples), factor), Range(samples, factor));
  }

  /** Bin b holds the samples whose shown value lies b to b + 1 bin sizes above the least one. */
  lemma {:induction false} BinHolds(samples: seq<real>, factor: int, x: real, b: int)
    requires samples != [] && factor > 0 && RangeFits(samples, factor)
    requires MinOf(samples) <= x <= MaxOf(samples)
    ensures BinSize(samples, factor) > 0
    ensures var size, above := BinSize(samples, factor), Shown(x, factor) - Shown(MinOf(samples), factor);
      Bin(samples, factor, x) == b <==> b * size <= above < (b + 1) * size
  {
    BinInRange(samples, factor, x);
    ShownOrder(MinOf(samples), x, factor);
    QuotientIs(Shown(x, factor) - Shown(MinOf(samples), factor), BinSize(samples, factor), b);
  }

  lemma QuotientIs(d: nat, size: nat, b: int)
    requires size > 0
    ensures d / size == b <==> b * size <= d < (b + 1) * size
  {
    var q := d / size;
    assert q * size <= d < q * size + size;
    assert (b + 1) * size == b * size + size && (q - b - 1) * size == q * size - b * size - size;
    assert (b - q - 1) * size == b * size - q * size - size;
    if b * size <= d < (b + 1) * size {
      Negative(q - b - 1, size);
      Negative(b - q - 1, size);
    }
  }

  lemma DivisionBelow(d: nat, b: nat, n: nat)
    requires b > 0 && d < n * b
    ensures 0 <= d / b < n
  {
    var q := d / b;
    assert q * b <= d;
    assert (q - n) * b < 0;
    Negative(q - n, b);
    assert d < q * b + b;
    Negative(-q - 1, b);
  }

  /**
   * Every sample falls in one of the 20 bins if and only if the range divided by 20 fits in a 32-bit
   * int; otherwise the bin size wraps around and the greatest sample has no bin.
   */
  lemma {:induction false} BinsExactly(samples: seq<real>, factor: int)
    requires samples != [] && factor > 0
    ensures RangeFits(samples, factor) <==>
      BinSize(samples, factor) != 0 && forall i :: 0 <= i < |samples| ==> 0 <= Bin(samples, factor, samples[i]) < 20
  {
    if RangeFits(samples, factor) {
      forall i | 0 <= i < |samples|
        ensures BinSize(samples, factor) != 0 && 0 <= Bin(samples, factor, samples[i]) < HEIGHT
      {
        BinInRange(samples, factor, samples[i]);
      }
      BinInRange(samples, factor, samples[0]);
    } else if BinSize(samples, factor) != 0 {
      RangeIsNatural(samples, factor);
      SizeOfRange(samples, factor);
      var i :| 0 <= i < |samples| && samples[i] == MaxOf(samples);
      WrappedBin(Range(samples, factor), BinSize(samples, factor));
      assert Bin(samples, factor, samples[i]) == Quotient(Range(samples, factor), BinSize(samples, factor));
    }
  }

  /** For instance, with samples up to 42949672960 the bin size wraps around, and their greatest gets bin -20. */
  lemma WrappedExample()
    ensures var samples := [0.0, 42_949_672_960.0];
            && BinSize(samples, 1) == -2_147_483_647 && Bin(samples, 1, samples[1]) == -20
            && !RangeFits(samples, 1)
  {
    var samples := [0.0, 42_949_672_960.0];
    assert samples[1..] == [42_949_672_960.0];
    assert MaxOf(samples) == 42_949_672_960.0 && MinOf(samples) == 0.0;
    var range := 42_949_672_960;
    assert Shown(samples[1], 1) == range && Shown(0.0, 1) == 0 && Range(samples, 1) == range;
    assert Quotient(range, HEIGHT) + 1 == 2_147_483_649;
  }

  lemma WrappedInt(w: nat)
    requires w > INT_MAX
    ensures ToInt(w) > 0 ==> w >= ToInt(w) + 0x1_0000_0000
    ensures -ToInt(w) <= w
  {}

  /** The bin of the greatest sample when the bin size has wrapped around. */
  lemma WrappedBin(range: nat, b: int)
    requires range / HEIGHT >= INT_MAX && b == ToInt(range / HEIGHT + 1) && b != 0
    ensures !(0 <= Quotient(range, b) < HEIGHT)
  {
    var w := range / HEIGHT + 1;
    WrappedInt(w);
    assert HEIGHT * (w - 1) <= range;
    if b > 0 {
      AtLeast(range, b, HEIGHT);
    } else {
      AtLeast(range, -b, 1);
    }
  }

  lemma AtLeast(a: nat, b: nat, n: nat)
    requires b > 0 && a >= n * b
    ensures a / b >= n
  {
    var q := a / b;
    assert a < q * b + b;
    assert (n - q - 1) * b == n * b - q * b - b;
    Negative(n - q - 1, b);
  }

  // ---------------------------------------------------------------- counting

  function Count(bins: seq<int>, b: int): nat {
    if bins == [] then 0 else Count(bins[..|bins| - 1], b) + if bins[|bins| - 1] == b then 1 else 0
  }

  function Bins(samples: seq<real>, factor: int): (r: seq<int>)
    requires samples != [] && factor > 0 && BinSize(samples, factor) != 0
    ensures |r| == |samples|
  {
    seq(|samples|, i requires 0 <= i < |samples| => Bin(samples, factor, samples[i]))
  }

  /** Nothing is lost: the counts of all bins add up to the number of samples. */
  lemma {:induction false} CountsAddUp(bins: seq<int>, counts: seq<nat>)
    requires forall i :: 0 <= i < |bins| ==> 0 <= bins[i] < |counts|
    requires forall b :: 0 <= b < |counts| ==> counts[b] == Count(bins, b)
    ensures Sum(counts) == |bins|
  {
    if bins == [] {
      AllZero(counts);
    } else {
      var last := bins[|bins| - 1];
      var before := counts[last := counts[last] - 1];
      CountsAddUp(bins[..|bins| - 1], before);
      SumChange(before, counts, last);
    }
  }

  lemma {:induction false} AllZero(counts: seq<nat>)
    requires forall b :: 0 <= b < |counts| ==> counts[b] == 0
    ensures Sum(counts) == 0
  {
    if counts != [] { AllZero(counts[..|counts| - 1]); }
  }

  lemma CountStep(bins: seq<int>, i: nat, b: int)
    requires i < |bins|
    ensures Count(bins[..i + 1], b) == Count(bins[..i], b) + if bins[i] == b then 1 else 0
  {
    assert bins[..i + 1][..i] == bins[..i];
  }

  lemma {:induction false} AllBinsInRange(samples: seq<real>, factor: int)
    requires samples != [] && factor > 0 && RangeFits(samples, factor)
    ensures BinSize(samples, factor) > 0
    ensures forall i :: 0 <= i < |samples| ==> 0 <= Bins(samples, factor)[i] < HEIGHT
  {
    BinInRange(samples, factor, samples[0]);
    forall i | 0 <= i < |samples| ensures 0 <= Bins(samples, factor)[i] < HEIGHT {
      BinInRange(samples, factor, samples[i]);
    }
  }

  /** ComputeNormalizedFrequencyVector: how many samples each bin has. */
  method FrequencyVector(samples: seq<real>, factor: int) returns (freq: array<nat>)
    requires samples != [] && factor > 0 && RangeFits(samples, factor)
    ensures fresh(freq) && freq.Length == 20 && BinSize(samples, factor) != 0
    ensures forall b :: 0 <= b < 20 ==> freq[b] == Count(Bins(samples, factor), b)
    ensures Sum(freq[..]) == |samples|
  {
    freq := new nat[HEIGHT](_ => 0);
    AllBinsInRange(samples, factor);
    var minValue, binSize := Shown(MinOf(samples), factor), BinSize(samples, factor);
    ghost var bins := Bins(samples, factor);
    for i := 0 to |samples|
      invariant forall b :: 0 <= b < HEIGHT ==> freq[b] == Count(bins[..i], b)
    {
      var bin := Quotient(Shown(samples[i], factor) - minValue, binSize);
      assert bin == bins[i];
      forall b ensures Count(bins[..i + 1], b) == Count(bins[..i], b) + if bins[i] == b then 1 else 0 {
        CountStep(bins, i, b);
      }
      freq[bin] := freq[bin] + 1;
    }
    assert bins[..|samples|] == bins;
    CountsAddUp(bins, freq[..]);
  }

  // ---------------------------------------------------------------- the bars

  function Ceiling(x: real): int {
    -((-x).Floor)
  }

  /** The width of a bar, computed in double precision. */
  function BarWidth(count: nat, most: nat): int
    requires 0 < most
  {
    Ceiling(Round(Round((count * WIDTH) as real) / most as real))
  }

  /** The rounding does not show: a bar is the least whole number of characters not below its share. */
  lemma {:induction false} BarWidthExact(count: nat, most: nat)
    requires count <= most && 0 < most <= INT_MAX
    ensures var w := BarWidth(count, most);
            && (w - 1) * most < count * 50 <= w * most
            && 0 <= w <= 50
            && (1 <= w <==> count > 0)
  {
    var n := count * WIDTH;
    IntegersExact(n);
    var x, m := n as real / most as real, most as real;
    assert x * m == n as real;
    var k := Ceiling(x);
    CeilingOf(x, k);
    ShareBounds(n, most, k, x);
    IntegersExact(k);
    Monotone(x, k as real);
    if k > 0 { StaysAbove(x, k - 1); }
    CeilingOf(Round(x), k);
  }

  lemma CeilingOf(x: real, k: int)
    ensures k == Ceiling(x) <==> (k - 1) as real < x <= k as real
  {}

  lemma ShareBounds(n: nat, most: nat, k: int, x: real)
    requires n <= most * WIDTH && 0 < most <= INT_MAX
    requires x * most as real == n as real && (k - 1) as real < x <= k as real
    ensures 0 <= k <= WIDTH && (k - 1) * most < n <= k * most && (k == 0 <==> n == 0)
    ensures 0.0 <= x && (k > 0 ==> x < (x - (k - 1) as real) * P53 as real)
  {
    var m, kr, a := most as real, k as real, k * most;
    PositiveFactor(x, m);
    assert kr * m == a as real;
    Share(x, kr, m, n as real, a as real);
    WholeNumbers(n, a, most);
    assert (k - 1) * most == a - most;
    assert 50.0 * m == (most * WIDTH) as real;
    AtMostFifty(x, m, n as real);
    Gap(x, x - (kr - 1.0), m, P53 as real);
  }

  lemma Share(x: real, kr: real, m: real, n: real, a: real)
    requires m > 0.0 && kr - 1.0 < x <= kr && x * m == n && kr * m == a
    ensures (x - (kr - 1.0)) * m == n - a + m && n - a + m > 0.0 && a - n >= 0.0
  {
    var d := x - kr;
    assert d * m == x * m - kr * m;
    var e := d + 1.0;
    assert e > 0.0;
    PositiveFactor(e, m);
    assert e * m == d * m + m;
    assert e * m == n - a + m;
    PositiveFactor(-d, m);
    assert (-d) * m == -(d * m);
    assert x - (kr - 1.0) == d + 1.0;
  }

  lemma AtMostFifty(x: real, m: real, n: real)
    requires m > 0.0 && x * m == n && n <= 50.0 * m
    ensures x <= 50.0
  {
    assert (50.0 - x) * m == 50.0 * m - x * m;
    PositiveFactor(50.0 - x, m);
  }

  lemma WholeNumbers(n: int, a: int, most: int)
    requires n as real - a as real + most as real > 0.0 && a as real - n as real >= 0.0
    ensures a - most < n <= a
    ensures n as real - a as real + most as real >= 1.0
  {
    assert (n - a + most) as real == n as real - a as real + most as real;
  }

  lemma StaysAbove(x: real, k: nat)
    requires 0.0 <= x && k as real < x && x < (x - k as real) * P53 as real
    ensures Round(x) > k as real
  {
    ErrorBound(x);
  }

  /** MakeHistogramFromVector: one bar a bin, empty exactly when its bin is, and 50 characters for the fullest. */
  method Bars(freq: seq<nat>) returns (widths: seq<int>)
    requires exists i :: 0 <= i < |freq| && freq[i] > 0
    requires forall i :: 0 <= i < |freq| ==> freq[i] <= INT_MAX
    ensures |widths| == |freq|
    ensures forall i :: 0 <= i < |freq| ==> 0 <= widths[i] <= 50 && (1 <= widths[i] <==> freq[i] > 0)
    ensures exists i :: 0 <= i < |freq| && widths[i] == 50
    ensures forall i, j :: 0 <= i < |freq| && 0 <= j < |freq| && freq[i] <= freq[j] ==> widths[i] <= widths[j]
  {
    var most := freq[0];
    ghost var at := 0;
    for i := 1 to |freq|
      invariant 0 <= at < |freq| && freq[at] == most
      invariant forall j :: 0 <= j < i ==> freq[j] <= most
    {
      if freq[i] > most { most, at := freq[i], i; }
    }
    widths := [];
    for i := 0 to |freq|
      invariant |widths| == i
      invariant forall j :: 0 <= j < i ==> widths[j] == BarWidth(freq[j], most)
    {
      widths := widths + [BarWidth(freq[i], most)];
    }
    forall i | 0 <= i < |freq| ensures 0 <= widths[i] <= WIDTH && (1 <= widths[i] <==> freq[i] > 0) {
      BarWidthExact(freq[i], most);
    }
    FullBar(most);
    assert widths[at] == WIDTH;
    forall i, j | 0 <= i < |freq| && 0 <= j < |freq| && freq[i] <= freq[j] ensures widths[i] <= widths[j] {
      BarOrder(freq[i], freq[j], most);
    }
  }

  lemma FullBar(most: nat)
    requires 0 < most <= INT_MAX
    ensures BarWidth(most, most) == WIDTH
  {
    BarWidthExact(most, most);
    var w := BarWidth(most, most);
    assert (WIDTH - w - 1) * most == most * WIDTH - w * most - most;
    Negative(WIDTH - w - 1, most);
  }

  lemma BarOrder(a: nat, b: nat, most: nat)
    requires a <= b <= most && 0 < most <= INT_MAX
    ensures BarWidth(a, most) <= BarWidth(b, most)
  {
    BarWidthExact(a, most);
    BarWidthExact(b, most);
    var v, w := BarWidth(a, most), BarWidth(b, most);
    assert (v - 1 - w) * most == (v - 1) * most - w * most;
    Negative(v - 1 - w, most);
  }
}
