/**
 * For trees of which only the root iterates, the durations collected by index arithmetic are those of
 * the nested loops that recorded the samples.
 */
module Regrouping {
  import opened Common
  import opened Results
  import opened SampleRuns

  // ---------------------------------------------------------------- regrouping one child

  lemma BlockCount(samples: seq<real>, repeat: nat, m: nat)
    requires repeat > 0 && |samples| == m * repeat
    ensures Blocks(samples, repeat) == m
  {
    var e := m - Blocks(samples, repeat);
    assert e * repeat == |samples| % repeat;
    Multiples(e, repeat);
  }

  lemma {:induction false} OldBlock(x: seq<real>, w: seq<real>, repeat: nat, m: nat, i: nat, j: nat)
    requires repeat > 0 && |x| == m * repeat && i < m && j <= repeat && i * repeat + repeat <= |x|
    ensures BlockSum(x + w, repeat, i, j) == BlockSum(x, repeat, i, j)
  {
    if j > 0 { OldBlock(x, w, repeat, m, i, j - 1); }
  }

  lemma {:induction false} NewBlock(x: seq<real>, w: seq<real>, repeat: nat, m: nat, j: nat)
    requires repeat > 0 && |x| == m * repeat && |w| == repeat && j <= repeat
    ensures BlockSum(x + w, repeat, m, j) == Total(w[..j])
  {
    if j > 0 {
      NewBlock(x, w, repeat, m, j - 1);
      assert w[..j][..j - 1] == w[..j - 1];
    }
  }

  /** One more round of a child adds its work to one new entry and changes no earlier entry. */
  lemma AccumulateGrows(base: seq<real>, v: real, x: seq<real>, w: seq<real>, repeat: nat)
    requires repeat > 0 && |x| == |base| * repeat && |w| == repeat
    ensures Accumulate(base, x, repeat).Some?
    ensures Accumulate(base + [v], x + w, repeat)
         == Some(Accumulate(base, x, repeat).value + [v + Total(w)])
  {
    var m := |base|;
    BlockCount(x, repeat, m);
    assert |x + w| == (m + 1) * repeat;
    BlockCount(x + w, repeat, m + 1);
    NewBlock(x, w, repeat, m, repeat);
    assert w[..repeat] == w;
    var after := Accumulate(base + [v], x + w, repeat).value;
    forall i | 0 <= i < m ensures after[i] == Accumulate(base, x, repeat).value[i] {
      BlockInBounds(x, repeat, i);
      OldBlock(x, w, repeat, m, i, repeat);
    }
    assert after == Accumulate(base, x, repeat).value + [v + Total(w)];
  }

  // ---------------------------------------------------------------- all children, then the whole tree

  /** A child whose duration covers m rounds. */
  ghost predicate HasRounds(c: Tree, s: Samples, m: nat)
    requires Matches(c, s) && Positive(c)
  {
    Duration(c, s).Some? && |Duration(c, s).value| == m * c.repeat
  }

  /** `after` has one round of the child c more than `before`, and w is what the round recorded. */
  ghost predicate Grows(c: Tree, before: Samples, after: Samples, m: nat, w: seq<real>)
    requires Matches(c, before) && Matches(c, after) && Positive(c)
  {
    && HasRounds(c, before, m) && |w| == c.repeat
    && Duration(c, after) == Some(Duration(c, before).value + w)
  }

  function TotalWork(works: seq<seq<real>>): real {
    if works == [] then 0.0 else TotalWork(works[..|works| - 1]) + Total(works[|works| - 1])
  }

  lemma NextChildGrows(d: seq<real>, v: real, x: seq<real>, w: seq<real>, repeat: nat)
    requires repeat > 0 && |x| == |d| * repeat && |w| == repeat
    ensures AddChild(d, x, repeat).Some? && |AddChild(d, x, repeat).value| == |d|
    ensures AddChild(d + [v], x + w, repeat) == Some(AddChild(d, x, repeat).value + [v + Total(w)])
  {
    AccumulateGrows(d, v, x, w, repeat);
    BlockCount(x, repeat, |d|);
    assert d == [] ==> Zeros(|d|) == d;
  }

  lemma FirstChildGrows(x: seq<real>, w: seq<real>, repeat: nat, m: nat)
    requires repeat > 0 && |x| == m * repeat && |w| == repeat
    ensures AddChild([], x, repeat).Some? && |AddChild([], x, repeat).value| == m
    ensures AddChild([], x + w, repeat) == Some(AddChild([], x, repeat).value + [Total(w)])
  {
    BlockCount(x, repeat, m);
    assert |x + w| == (m + 1) * repeat;
    BlockCount(x + w, repeat, m + 1);
    AccumulateGrows(Zeros(m), 0.0, x, w, repeat);
    assert Zeros(m) + [0.0] == Zeros(m + 1);
  }

  ghost predicate AllPositive(t: Tree)
    requires t.Set?
  {
    forall i :: 0 <= i < |t.children| ==> Positive(t.children[i])
  }

  ghost predicate GrowsAt(t: Tree, s1: seq<Samples>, s2: seq<Samples>, m: nat, works: seq<seq<real>>, i: nat)
    requires t.Set? && i < |works| == |s2| <= |s1| <= |t.children| && FirstMatch(t, s1) && FirstMatch(t, s2)
    requires AllPositive(t)
  {
    Grows(t.children[i], s1[i], s2[i], m, works[i])
  }

  ghost predicate AllGrow(t: Tree, s1: seq<Samples>, s2: seq<Samples>, m: nat, works: seq<seq<real>>)
    requires t.Set? && |works| == |s2| <= |s1| <= |t.children| && FirstMatch(t, s1) && FirstMatch(t, s2)
    requires AllPositive(t)
  {
    forall i: nat :: i < |works| ==> GrowsAt(t, s1, s2, m, works, i)
  }

  /** One more round of each child appends to the set's duration what the first n of them have worked. */
  lemma {:induction false} DurationOfGrows(t: Tree, s1: seq<Samples>, s2: seq<Samples>, m: nat, works: seq<seq<real>>,
        n: nat)
    requires t.Set? && 1 <= n <= |works| == |s2| <= |s1| <= |t.children| && Positive(t) && AllPositive(t)
    requires FirstMatch(t, s1) && FirstMatch(t, s2) && AllGrow(t, s1, s2, m, works)
    ensures DurationOf(t, s1, n).Some? && |DurationOf(t, s1, n).value| == m
    ensures DurationOf(t, s2, n) == Some(DurationOf(t, s1, n).value + [TotalWork(works[..n])])
    decreases n
  {
    var i := n - 1;
    if i > 0 { DurationOfGrows(t, s1, s2, m, works, i); }
    assert DurationOf(t, s1, 0) == DurationOf(t, s2, 0) == Some([]);
    assert works[..n][..i] == works[..i];
    assert GrowsAt(t, s1, s2, m, works, i);
    var c, d := t.children[i], DurationOf(t, s1, i).value;
    LastGrows(d, i == 0, Duration(c, s1[i]).value, works[i], c.repeat, m, TotalWork(works[..i]));
  }

  /** The last child, after what the earlier ones have contributed. */
  lemma LastGrows(d: seq<real>, first: bool, x: seq<real>, w: seq<real>, repeat: nat, m: nat, v: real)
    requires repeat > 0 && |x| == m * repeat && |w| == repeat
    requires if first then d == [] && v == 0.0 else |d| == m
    ensures AddChild(d, x, repeat).Some? && |AddChild(d, x, repeat).value| == m
    ensures AddChild(if first then [] else d + [v], x + w, repeat)
         == Some(AddChild(d, x, repeat).value + [v + Total(w)])
  {
    if first { FirstChildGrows(x, w, repeat, m); } else { NextChildGrows(d, v, x, w, repeat); }
  }

  /** Only the root of the tree may iterate over a list. */
  ghost predicate PlainBelow(t: Tree)
    decreases t
  {
    t.Set? ==> forall c :: c in t.children ==> PassCount(c) == 1 && PlainBelow(c)
  }

  lemma ChildFacts(t: Tree, i: nat)
    requires t.Set? && Positive(t) && PlainBelow(t) && i < |t.children|
    ensures Positive(t.children[i]) && PlainBelow(t.children[i]) && PassCount(t.children[i]) == 1
    ensures AllPositive(t)
  {
    assert t.children[i] in t.children;
  }

  /** Collecting never leaves the vectors, and a node has one entry per repetition and pass. */
  lemma {:induction false} DurationLength(t: Tree, s: Samples, reps: nat)
    requires Matches(t, s) && Positive(t) && PlainBelow(t) && WellRan(t, s, reps)
    ensures Duration(t, s).Some? && |Duration(t, s).value| == reps * PassCount(t)
    decreases t, |Children(t)| + 1
  {
    if t.Set? {
      DurationOfLength(t, s.children, reps * t.passes, |t.children|);
    }
  }

  lemma {:induction false} DurationOfLength(t: Tree, s: seq<Samples>, m: nat, n: nat)
    requires t.Set? && 1 <= n <= |s| <= |t.children| && FirstMatch(t, s)
    requires Positive(t) && PlainBelow(t) && FirstRan(t, s, m)
    ensures DurationOf(t, s, n).Some? && |DurationOf(t, s, n).value| == m
    decreases t, n
  {
    var c := t.children[n - 1];
    ChildFacts(t, n - 1);
    DurationLength(c, s[n - 1], m * c.repeat);
    var x := Duration(c, s[n - 1]).value;
    var w := seq(c.repeat, _ => 0.0);
    if n == 1 {
      assert DurationOf(t, s, 0) == Some([]);
      FirstChildGrows(x, w, c.repeat, m);
    } else {
      DurationOfLength(t, s, m, n - 1);
      NextChildGrows(DurationOf(t, s, n - 1).value, 0.0, x, w, c.repeat);
    }
  }

  /** n more repetitions append exactly their work to the collected durations. */
  lemma {:induction false} RepeatsGrow(t: Tree, s: Samples, clock: Clock, at: nat, n: nat, reps: nat)
    requires Matches(t, s) && Positive(t) && PlainBelow(t) && WellRan(t, s, reps)
    ensures var r := Repeats(t, s, clock, at, n);
            && WellRan(t, r.samples, reps + n) && |r.work| == n * PassCount(t)
            && Duration(t, s).Some? && Duration(t, r.samples) == Some(Duration(t, s).value + r.work)
    decreases t, 3, n
  {
    DurationLength(t, s, reps);
    if n == 0 {
      assert Duration(t, s).value + [] == Duration(t, s).value;
    } else {
      RepeatsGrow(t, s, clock, at, n - 1, reps);
      RepeatsRan(t, s, clock, at, n, reps);
      if t.Set? {
        SetRepeatGrows(t, s, clock, at, n, reps + n - 1, Duration(t, s).value);
      } else {
        LeafRepeatGrows(t, s, clock, at, n, Duration(t, s).value);
      }
    }
  }

  lemma LeafRepeatGrows(t: Tree, s: Samples, clock: Clock, at: nat, n: nat, d: seq<real>)
    requires t.Leaf? && Matches(t, s) && Positive(t) && n > 0
    requires Duration(t, Repeats(t, s, clock, at, n - 1).samples) == Some(d + Repeats(t, s, clock, at, n - 1).work)
    ensures Duration(t, Repeats(t, s, clock, at, n).samples) == Some(d + Repeats(t, s, clock, at, n).work)
  {
    var r := Repeats(t, s, clock, at, n - 1);
    assert d + (r.work + [clock(r.at)]) == (d + r.work) + [clock(r.at)];
  }

  lemma {:induction false} SetRepeatGrows(t: Tree, s: Samples, clock: Clock, at: nat, n: nat, reps: nat, d: seq<real>)
    requires t.Set? && Matches(t, s) && Positive(t) && PlainBelow(t) && n > 0
    requires WellRan(t, Repeats(t, s, clock, at, n - 1).samples, reps)
    requires Duration(t, Repeats(t, s, clock, at, n - 1).samples) == Some(d + Repeats(t, s, clock, at, n - 1).work)
    ensures Duration(t, Repeats(t, s, clock, at, n).samples) == Some(d + Repeats(t, s, clock, at, n).work)
    decreases t, 2, 0
  {
    var r := Repeats(t, s, clock, at, n - 1);
    PassesGrow(t, r.samples.children, clock, r.at, t.passes, reps * t.passes);
    SetAppends(t, s, clock, at, n, d);
  }

  lemma SetAppends(t: Tree, s: Samples, clock: Clock, at: nat, n: nat, d: seq<real>)
    requires t.Set? && Matches(t, s) && Positive(t) && n > 0
    requires var r := Repeats(t, s, clock, at, n - 1); var k := |t.children|;
             var p := Passes(t, r.samples.children, clock, r.at, t.passes);
             && Duration(t, r.samples) == Some(d + r.work)
             && DurationOf(t, p.0, k) == Some(d + r.work + p.2)
    ensures Duration(t, Repeats(t, s, clock, at, n).samples) == Some(d + Repeats(t, s, clock, at, n).work)
  {
    var r := Repeats(t, s, clock, at, n - 1);
    var p := Passes(t, r.samples.children, clock, r.at, t.passes);
    assert (d + r.work) + p.2 == d + (r.work + p.2);
  }

  lemma {:induction false} PassesGrow(t: Tree, s: seq<Samples>, clock: Clock, at: nat, n: nat, m: nat)
    requires AllMatch(t, s) && Positive(t) && PlainBelow(t) && FirstRan(t, s, m)
    ensures var p := Passes(t, s, clock, at, n); var k := |t.children|;
            && DurationOf(t, s, k).Some? && DurationOf(t, p.0, k) == Some(DurationOf(t, s, k).value + p.2)
    decreases t, 1, n
  {
    var k := |t.children|;
    DurationOfLength(t, s, m, k);
    var d := DurationOf(t, s, k).value;
    if n == 0 {
      assert d + [] == d;
    } else {
      PassesGrow(t, s, clock, at, n - 1, m);
      PassesRan(t, s, clock, at, n - 1, m);
      var p := Passes(t, s, clock, at, n - 1);
      PassGrows(t, p.0, clock, p.1, m + n - 1);
      var v := RunChildren(t, p.0, clock, p.1, k).2;
      assert (d + p.2) + [v] == d + (p.2 + [v]);
    }
  }

  lemma {:induction false} PassGrows(t: Tree, s: seq<Samples>, clock: Clock, at: nat, m: nat)
    requires AllMatch(t, s) && Positive(t) && PlainBelow(t) && FirstRan(t, s, m)
    ensures var c := RunChildren(t, s, clock, at, |t.children|); var k := |t.children|;
            && DurationOf(t, s, k).Some? && DurationOf(t, c.0, k) == Some(DurationOf(t, s, k).value + [c.2])
    decreases t, 0, |t.children| + 1
  {
    var k := |t.children|;
    ChildFacts(t, 0);
    var works := ChildrenGrow(t, s, clock, at, k, m);
    DurationOfGrows(t, s, RunChildren(t, s, clock, at, k).0, m, works, k);
    assert works[..k] == works;
  }

  lemma {:induction false} ChildrenGrow(t: Tree, s: seq<Samples>, clock: Clock, at: nat, n: nat, m: nat)
    returns (works: seq<seq<real>>)
    requires AllMatch(t, s) && Positive(t) && AllPositive(t) && PlainBelow(t) && FirstRan(t, s, m)
    requires n <= |t.children|
    ensures |works| == n
    ensures var c := RunChildren(t, s, clock, at, n);
            && c.2 == TotalWork(works)
            && AllGrow(t, s, c.0, m, works)
    decreases t, 0, n
  {
    if n == 0 {
      works := [];
    } else {
      works := ChildrenGrow(t, s, clock, at, n - 1, m);
      var c := RunChildren(t, s, clock, at, n - 1);
      ChildFacts(t, n - 1);
      ChildGrows(t.children[n - 1], s[n - 1], clock, c.1, m);
      var r := Round(t.children[n - 1], s[n - 1], clock, c.1);
      assert RunChildren(t, s, clock, at, n) == (c.0 + [r.samples], r.at, c.2 + Total(r.work));
      OneMoreGrown(t, s, c.0, r.samples, m, works, r.work);
      works := works + [r.work];
    }
  }

  lemma OneMoreMatch(t: Tree, done: seq<Samples>, x: Samples)
    requires t.Set? && |done| < |t.children| && FirstMatch(t, done) && Matches(t.children[|done|], x)
    ensures FirstMatch(t, done + [x])
  {}

  lemma TotalWorkStep(works: seq<seq<real>>, w: seq<real>)
    ensures TotalWork(works + [w]) == TotalWork(works) + Total(w)
  {
    assert (works + [w])[..|works|] == works;
  }

  lemma {:induction false} OneMoreGrown(t: Tree, s: seq<Samples>, done: seq<Samples>, x: Samples, m: nat,
        works: seq<seq<real>>, w: seq<real>)
    requires AllMatch(t, s) && AllPositive(t) && |done| == |works| < |t.children| && FirstMatch(t, done)
    requires AllGrow(t, s, done, m, works)
    requires Matches(t.children[|works|], x) && Grows(t.children[|works|], s[|works|], x, m, w)
    ensures FirstMatch(t, done + [x]) && TotalWork(works + [w]) == TotalWork(works) + Total(w)
    ensures AllGrow(t, s, done + [x], m, works + [w])
  {
    OneMoreMatch(t, done, x);
    TotalWorkStep(works, w);
    forall i: nat | i < |works + [w]| ensures GrowsAt(t, s, done + [x], m, works + [w], i) {
      if i < |works| { OldGrown(t, s, done, x, m, works, w, i); } else { NewGrown(t, s, done, x, m, works, w); }
    }
  }

  lemma OldGrown(t: Tree, s: seq<Samples>, done: seq<Samples>, x: Samples, m: nat, works: seq<seq<real>>,
        w: seq<real>, i: nat)
    requires AllMatch(t, s) && AllPositive(t) && |done| == |works| < |t.children| && FirstMatch(t, done)
    requires FirstMatch(t, done + [x]) && i < |works| && GrowsAt(t, s, done, m, works, i)
    ensures GrowsAt(t, s, done + [x], m, works + [w], i)
  {
    assert (done + [x])[i] == done[i] && (works + [w])[i] == works[i];
  }

  lemma NewGrown(t: Tree, s: seq<Samples>, done: seq<Samples>, x: Samples, m: nat, works: seq<seq<real>>, w: seq<real>)
    requires AllMatch(t, s) && AllPositive(t) && |done| == |works| < |t.children| && FirstMatch(t, done)
    requires FirstMatch(t, done + [x]) && Matches(t.children[|works|], x)
    requires Grows(t.children[|works|], s[|works|], x, m, w)
    ensures GrowsAt(t, s, done + [x], m, works + [w], |works|)
  {
    assert (done + [x])[|works|] == x && (works + [w])[|works|] == w;
  }

  lemma {:induction false} ChildGrows(c: Tree, s: Samples, clock: Clock, at: nat, m: nat)
    requires Matches(c, s) && Positive(c) && PlainBelow(c) && PassCount(c) == 1 && WellRan(c, s, m * c.repeat)
    ensures var r := Round(c, s, clock, at);
            Grows(c, s, r.samples, m, r.work)
    decreases c, 4, 0
  {
    RepeatsGrow(c, s, clock, at, c.repeat, m * c.repeat);
    DurationLength(c, s, m * c.repeat);
  }

  // ---------------------------------------------------------------- main results

  lemma {:induction false} EmptyDuration(t: Tree)
    requires Positive(t) && PlainBelow(t)
    ensures Duration(t, Empty(t)) == Some([])
  {
    EmptyRan(t);
    DurationLength(t, Empty(t), 0);
  }

  /**
   * Regrouping agrees with execution.  After k rounds the collected duration of a tree is exactly
   * what its leaves recorded, pass by pass, in order; it has one entry per repetition (and pass,
   * for an iterating root), and every index the regrouping loop uses is in bounds.
   */
  lemma {:induction false} RegroupingAgrees(t: Tree, clock: Clock, at: nat, k: nat)
    requires Positive(t) && PlainBelow(t)
    ensures var r := RunRounds(t, clock, at, k);
            && WellRan(t, r.samples, k * t.repeat)
            && Duration(t, r.samples) == Some(r.work)
            && |r.work| == k * t.repeat * PassCount(t)
  {
    if k == 0 {
      EmptyRan(t);
      EmptyDuration(t);
    } else {
      RegroupingAgrees(t, clock, at, k - 1);
      var r := RunRounds(t, clock, at, k - 1);
      RepeatsGrow(t, r.samples, clock, r.at, t.repeat, (k - 1) * t.repeat);
      assert (k - 1) * t.repeat + t.repeat == k * t.repeat;
      assert k * t.repeat * PassCount(t) == (k - 1) * t.repeat * PassCount(t) + t.repeat * PassCount(t) by {
        Distribute((k - 1) * t.repeat, t.repeat, PassCount(t));
      }
    }
  }

  /** All samples the leaves below a node hold. */
  function LeafTotal(t: Tree, s: Samples): real
    requires Matches(t, s)
    decreases t, 1, 0
  {
    match t
    case Leaf(_) => Total(s.own)
    case Set(_, _, l) => LeafTotals(t, s.children, |l|)
  }

  function LeafTotals(t: Tree, s: seq<Samples>, n: nat): real
    requires t.Set? && n <= |s| <= |t.children| && FirstMatch(t, s)
    decreases t, 0, n
  {
    if n == 0 then 0.0 else LeafTotals(t, s, n - 1) + LeafTotal(t.children[n - 1], s[n - 1])
  }

  lemma {:induction false} AccumulateTotal(base: seq<real>, x: seq<real>, repeat: nat)
    requires repeat > 0 && |x| == |base| * repeat
    ensures Accumulate(base, x, repeat).Some?
    ensures Total(Accumulate(base, x, repeat).value) == Total(base) + Total(x)
    decreases |base|
  {
    BlockCount(x, repeat, |base|);
    if base == [] {
      assert x == [] && Accumulate(base, x, repeat).value == [];
    } else {
      var n := |base| - 1;
      assert n * repeat + repeat == |base| * repeat;
      var front, w := x[..n * repeat], x[n * repeat..];
      assert x == front + w && base == base[..n] + [base[n]];
      AccumulateTotal(base[..n], front, repeat);
      AccumulateGrows(base[..n], base[n], front, w, repeat);
      TotalConcat(front, w);
    }
  }

  lemma {:induction false} ZerosTotal(n: nat)
    ensures Total(Zeros(n)) == 0.0
  {
    if n > 0 {
      ZerosTotal(n - 1);
      assert Zeros(n)[..n - 1] == Zeros(n - 1);
    }
  }

  /** Totals are conserved up the tree: a node's duration sums to the samples of its leaves. */
  lemma {:induction false} DurationConserves(t: Tree, s: Samples, reps: nat)
    requires Matches(t, s) && Positive(t) && PlainBelow(t) && WellRan(t, s, reps)
    ensures Duration(t, s).Some? && Total(Duration(t, s).value) == LeafTotal(t, s)
    decreases t, |Children(t)| + 1
  {
    DurationLength(t, s, reps);
    if t.Set? {
      DurationOfConserves(t, s.children, reps * t.passes, |t.children|);
    }
  }

  lemma AddChildTotal(d: seq<real>, x: seq<real>, repeat: nat, m: nat)
    requires repeat > 0 && |x| == m * repeat && (|d| == m || d == [])
    ensures AddChild(d, x, repeat).Some? && Total(AddChild(d, x, repeat).value) == Total(d) + Total(x)
  {
    BlockCount(x, repeat, m);
    ZerosTotal(m);
    AccumulateTotal(if d == [] then Zeros(m) else d, x, repeat);
  }

  lemma {:induction false} DurationOfConserves(t: Tree, s: seq<Samples>, m: nat, n: nat)
    requires t.Set? && 1 <= n <= |s| <= |t.children| && FirstMatch(t, s)
    requires Positive(t) && PlainBelow(t) && FirstRan(t, s, m)
    ensures DurationOf(t, s, n).Some? && Total(DurationOf(t, s, n).value) == LeafTotals(t, s, n)
    decreases t, n
  {
    var c := t.children[n - 1];
    ChildFacts(t, n - 1);
    DurationLength(c, s[n - 1], m * c.repeat);
    DurationConserves(c, s[n - 1], m * c.repeat);
    if n > 1 {
      DurationOfConserves(t, s, m, n - 1);
      DurationOfLength(t, s, m, n - 1);
    }
    assert DurationOf(t, s, n)
        == AddChild(DurationOf(t, s, n - 1).value, Duration(c, s[n - 1]).value, c.repeat);
    AddChildTotal(DurationOf(t, s, n - 1).value, Duration(c, s[n - 1]).value, c.repeat, m);
  }
}
