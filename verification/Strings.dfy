/**
 * The string operations of the tracer.  A position or count is an integer; -1 is the "not found"
 * position, and a negative number stands for its residue modulo 2^64, which is beyond the end of
 * every string.
 */
module Strings {
  import opened Common

  const NPOS := -1

  predicate At(s: string, p: string, i: int) {
    0 <= i && i + |p| <= |s| && s[i..i + |p|] == p
  }

  /** The first occurrence of p at or after `from`. */
  function Find(s: string, p: string, from: nat): (r: int)
    ensures r == NPOS || from <= r <= |s| - |p|
    decreases |s| - from
  {
    if from + |p| > |s| then NPOS
    else if s[from..from + |p|] == p then from
    else Find(s, p, from + 1)
  }

  lemma {:induction false} FindIsFirst(s: string, p: string, from: nat)
    ensures var r := Find(s, p, from);
            && (r == NPOS || At(s, p, r))
            && forall j :: from <= j && At(s, p, j) ==> r != NPOS && r <= j
    decreases |s| - from
  {
    if from + |p| <= |s| && s[from..from + |p|] != p { FindIsFirst(s, p, from + 1); }
  }

  /** None where std::string::substr throws. */
  function Substr(s: string, pos: int, count: int): Option<string> {
    if pos < 0 || pos > |s| then None
    else if count < 0 || count > |s| - pos then Some(s[pos..])
    else Some(s[pos..pos + count])
  }

  ghost predicate Free(s: string, p: string) {
    forall i :: !At(s, p, i)
  }

  /** No occurrence of p can begin in `a` and reach into `b`, nor lie in `a`. */
  ghost predicate Cut(a: string, b: string, p: string) {
    && p != ""
    && (|| (forall c :: c in a ==> c != p[0])
        || (Free(a, p) && (b != "" ==> forall j :: 0 < j < |p| ==> p[j] != b[0])))
  }

  /** Across a cut, the occurrences in a + b are those in b. */
  lemma CutNone(a: string, b: string, p: string, i: int)
    requires Cut(a, b, p) && i < |a|
    ensures !At(a + b, p, i)
  {
    if 0 <= i && i + |p| <= |a| {
      assert (a + b)[i..i + |p|] == a[i..i + |p|];
      assert At(a + b, p, i) <==> At(a, p, i);
      AtHead(a, p, i);
    } else if 0 <= i && i + |p| <= |a + b| {
      Straddles(a, b, p, i);
    }
  }

  lemma AtHead(a: string, p: string, i: nat)
    requires p != ""
    ensures At(a, p, i) ==> p[0] in a
  {
    assert At(a, p, i) ==> a[i..i + |p|][0] == a[i];
  }

  lemma Straddles(a: string, b: string, p: string, i: nat)
    requires i < |a| < i + |p| <= |a + b|
    ensures At(a + b, p, i) ==> a[i] in a && a[i] == p[0] && b[0] == p[|a| - i]
  {
    var piece := (a + b)[i..i + |p|];
    assert piece[0] == a[i];
    assert piece[|a| - i] == b[0];
  }

  lemma {:induction false} FindSkip(s: string, p: string, i: nat, n: nat)
    requires i <= n && forall j :: i <= j < n ==> !At(s, p, j)
    ensures Find(s, p, i) == Find(s, p, n)
    decreases n - i
  {
    if i < n {
      assert !At(s, p, i);
      FindSkip(s, p, i + 1, n);
    }
  }

  /** Searching past a prefix is searching what follows it. */
  lemma {:induction false} FindShift(a: string, b: string, p: string, k: nat)
    ensures Find(a + b, p, |a| + k) == if Find(b, p, k) == NPOS then NPOS else |a| + Find(b, p, k)
    decreases |b| - k
  {
    if k + |p| <= |b| {
      assert (a + b)[|a| + k..|a| + k + |p|] == b[k..k + |p|];
      if b[k..k + |p|] != p { FindShift(a, b, p, k + 1); }
    }
  }

  lemma FindAcross(a: string, b: string, p: string)
    requires Cut(a, b, p)
    ensures Find(a + b, p, 0) == if Find(b, p, 0) == NPOS then NPOS else |a| + Find(b, p, 0)
  {
    forall i | 0 <= i < |a| ensures !At(a + b, p, i) { CutNone(a, b, p, i); }
    FindSkip(a + b, p, 0, |a|);
    FindShift(a, b, p, 0);
  }

  lemma FreeIff(s: string, p: string)
    ensures Free(s, p) <==> Find(s, p, 0) == NPOS
  {
    FindIsFirst(s, p, 0);
  }

  /** A first occurrence right at the end of a prefix. */
  lemma FindHere(a: string, p: string, b: string)
    requires Cut(a, p + b, p)
    ensures Find(a + p + b, p, 0) == |a|
  {
    assert a + p + b == a + (p + b);
    FindIsFirst(p + b, p, 0);
    assert At(p + b, p, 0);
    FindAcross(a, p + b, p);
  }

  lemma FreeOfPart(s: string, p: string, n: nat)
    requires Free(s, p) && n <= |s|
    ensures Free(s[..n], p)
  {
    forall i | 0 <= i && i + |p| <= n ensures !At(s[..n], p, i) {
      assert s[..n][i..i + |p|] == s[i..i + |p|];
      assert !At(s, p, i);
    }
  }

  // ---------------------------------------------------------------- numbers

  predicate IsDigit(c: char) { '0' <= c <= '9' }

  predicate IsSpace(c: char) {
    c == ' ' || 9 <= c as int <= 13
  }

  function DigitValue(c: char): (d: nat)
    requires IsDigit(c)
    ensures d < 10
  {
    c as int - '0' as int
  }

  function DigitChar(d: nat): (c: char)
    requires d < 10
    ensures IsDigit(c) && DigitValue(c) == d
  {
    ('0' as int + d) as char
  }

  function Digits(n: nat): (s: string)
    ensures s != "" && forall c :: c in s ==> IsDigit(c)
  {
    if n < 10 then [DigitChar(n)] else Digits(n / 10) + [DigitChar(n % 10)]
  }

  /** The value of the digits at the front of s, appended to those read so far. */
  function Leading(s: string, sofar: nat): nat {
    if s == "" || !IsDigit(s[0]) then sofar
    else Leading(s[1..], 10 * sofar + DigitValue(s[0]))
  }

  function SkipSpaces(s: string): string {
    if s != "" && IsSpace(s[0]) then SkipSpaces(s[1..]) else s
  }

  const LLONG_MAX := 0x7FFF_FFFF_FFFF_FFFF

  /** strtoll in base 10, with its clamping. */
  function Strtoll(s: string): int {
    var t := SkipSpaces(s);
    if t != "" && t[0] == '-' then
      var n: int := Leading(t[1..], 0); if n > LLONG_MAX then -LLONG_MAX - 1 else -n
    else
      var n := Leading(if t != "" && t[0] == '+' then t[1..] else t, 0); if n > LLONG_MAX then LLONG_MAX else n
  }

  lemma {:induction false} LeadingDigits(n: nat, tail: string)
    ensures Leading(Digits(n) + tail, 0) == Leading(tail, n)
  {
    var d := DigitChar(n % 10);
    assert ([d] + tail)[1..] == tail;
    if n < 10 {
      assert n % 10 == n;
    } else {
      LeadingDigits(n / 10, [d] + tail);
      assert Digits(n) + tail == Digits(n / 10) + ([d] + tail);
    }
  }

  /** Reading back a printed number, whatever non-digit follows it. */
  lemma StrtollDigits(n: nat, tail: string)
    requires n <= LLONG_MAX && (tail == "" || !IsDigit(tail[0]))
    ensures Strtoll(Digits(n) + tail) == n
  {
    var s := Digits(n) + tail;
    assert s[0] == Digits(n)[0] && Digits(n)[0] in Digits(n);
    LeadingDigits(n, tail);
  }

  lemma {:induction false} SpacesSkipped(spaces: string, s: string)
    requires forall c :: c in spaces ==> IsSpace(c)
    requires s == "" || !IsSpace(s[0])
    ensures SkipSpaces(spaces + s) == s
  {
    if spaces == "" {
      assert spaces + s == s;
    } else {
      assert (spaces + s)[1..] == spaces[1..] + s;
      SpacesSkipped(spaces[1..], s);
    }
  }

  /** A number with white space and a sign before it and no digit after it, clamped to 64 bits. */
  lemma {:induction false} StrtollSigned(spaces: string, sign: string, n: nat, tail: string)
    requires forall c :: c in spaces ==> IsSpace(c)
    requires sign in ["", "-", "+"] && (tail == "" || !IsDigit(tail[0]))
    ensures Strtoll(spaces + (sign + (Digits(n) + tail))) ==
      if sign == "-" then (if n <= 9_223_372_036_854_775_808 then 0 - n else -9_223_372_036_854_775_808)
      else if n <= 9_223_372_036_854_775_807 then n else 9_223_372_036_854_775_807
  {
    var number := Digits(n) + tail;
    assert number[0] == Digits(n)[0] && Digits(n)[0] in Digits(n);
    var s := sign + number;
    assert sign != "" ==> s[0] == sign[0] && s[1..] == number;
    assert sign == "" ==> s == number;
    SpacesSkipped(spaces, s);
    LeadingDigits(n, tail);
  }
}
