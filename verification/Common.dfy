/** Small shapes that several components share. */
module Common {
  datatype Option<+T> = None | Some(value: T)

  type Byte = b: int | 0 <= b < 256

  const INT_MAX := 0x7FFF_FFFF

  /** Conversion to a 32-bit int. */
  function ToInt(n: int): int {
    var m := n % 0x1_0000_0000;
    if m <= INT_MAX then m else m - 0x1_0000_0000
  }

  /** Narrowing keeps exactly the natural numbers that an int can hold; the others become smaller. */
  lemma Narrowing(n: nat)
    ensures ToInt(n) <= n && (ToInt(n) == n <==> n <= INT_MAX)
    ensures -INT_MAX - 1 <= ToInt(n) <= INT_MAX
  {}

  lemma Multiples(e: int, n: int)
    requires n > 0
    ensures e >= 1 ==> e * n >= n
    ensures e <= -1 ==> e * n <= -n
  {}

  function Sum(s: seq<nat>): nat {
    if s == [] then 0 else Sum(s[..|s| - 1]) + s[|s| - 1]
  }

  /** Changing one entry moves the sum by exactly the change of that entry. */
  lemma {:induction false} SumChange(s: seq<nat>, t: seq<nat>, i: nat)
    requires |s| == |t| && i < |s|
    requires forall j :: 0 <= j < |s| && j != i ==> s[j] == t[j]
    ensures Sum(s) + t[i] == Sum(t) + s[i]
  {
    var n := |s| - 1;
    if i < n {
      SumChange(s[..n], t[..n], i);
    } else {
      assert s[..n] == t[..n];
    }
  }

  /** A set of `n` numbers below `n` is all of them. */
  lemma {:induction false} FullSet(a: set<nat>, n: nat)
    requires forall x :: x in a ==> x < n
    ensures |a| <= n
    ensures |a| == n ==> forall x: nat :: x < n ==> x in a
    decreases n
  {
    if n == 0 {
      assert a == {};
    } else {
      var b := a - {n - 1};
      FullSet(b, n - 1);
      assert |b| == if n - 1 in a then |a| - 1 else |a|;
      forall x: nat | |a| == n && x < n ensures x in a {
        assert x < n - 1 ==> x in b;
      }
    }
  }

  /** The numbers below `n` are `n` many. */
  lemma {:induction false} FullSetSize(a: set<nat>, n: nat)
    requires forall x: nat :: x in a <==> x < n
    ensures |a| == n
    decreases n
  {
    if n == 0 {
      assert a == {};
    } else {
      FullSetSize(a - {n - 1}, n - 1);
    }
  }
}
