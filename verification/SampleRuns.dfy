/** How many samples every node of a tree has after it was run, iterating sets anywhere. */
module SampleRuns {
  import opened Results

  function PassCount(t: Tree): nat {
    if t.Leaf? then 1 else t.passes
  }

  /** The node has been repeated `reps` times in all, and its descendants accordingly often. */
  ghost predicate WellRan(t: Tree, s: Samples, reps: nat)
    requires Matches(t, s)
    decreases t, 1
  {
    match t
    case Leaf(_) => |s.own| == reps
    case Set(_, passes, _) => FirstRan(t, s.children, reps * passes)
  }

  /** Each of the children that s covers has had m rounds. */
  ghost predicate FirstRan(t: Tree, s: seq<Samples>, m: nat)
    requires t.Set? && |s| <= |t.children| && FirstMatch(t, s)
    decreases t, 0
  {
    forall i :: 0 <= i < |s| ==> WellRan(t.children[i], s[i], m * t.children[i].repeat)
  }

  lemma OneMoreRan(t: Tree, s: seq<Samples>, x: Samples, m: nat)
    requires t.Set? && |s| < |t.children| && FirstMatch(t, s) && FirstRan(t, s, m)
    requires Matches(t.children[|s|], x) && WellRan(t.children[|s|], x, m * t.children[|s|].repeat)
    ensures FirstMatch(t, s + [x]) && FirstRan(t, s + [x], m)
  {}

  lemma Distribute(a: int, b: int, c: int)
    ensures (a + b) * c == a * c + b * c
  {}

  /** n more repetitions of any tree, iterating sets anywhere, are n more repetitions of its node. */
  lemma {:induction false} RepeatsRan(t: Tree, s: Samples, clock: Clock, at: nat, n: nat, reps: nat)
    requires Matches(t, s) && WellRan(t, s, reps)
    ensures var r := Repeats(t, s, clock, at, n); WellRan(t, r.samples, reps + n) && |r.work| == n * PassCount(t)
    decreases t, 2, n
  {
    if n > 0 {
      RepeatsRan(t, s, clock, at, n - 1, reps);
      var r := Repeats(t, s, clock, at, n - 1);
      Distribute(n - 1, 1, PassCount(t));
      if t.Set? {
        PassesRan(t, r.samples.children, clock, r.at, t.passes, (reps + n - 1) * t.passes);
        Distribute(reps + n - 1, 1, t.passes);
      }
    }
  }

  lemma {:induction false} PassesRan(t: Tree, s: seq<Samples>, clock: Clock, at: nat, n: nat, m: nat)
    requires AllMatch(t, s) && FirstRan(t, s, m)
    ensures FirstRan(t, Passes(t, s, clock, at, n).0, m + n)
    decreases t, 1, n
  {
    if n > 0 {
      PassesRan(t, s, clock, at, n - 1, m);
      var p := Passes(t, s, clock, at, n - 1);
      ChildrenRan(t, p.0, clock, p.1, |t.children|, m + n - 1);
    }
  }

  lemma {:induction false} ChildrenRan(t: Tree, s: seq<Samples>, clock: Clock, at: nat, n: nat, m: nat)
    requires AllMatch(t, s) && FirstRan(t, s, m) && n <= |t.children|
    ensures FirstRan(t, RunChildren(t, s, clock, at, n).0, m + 1)
    decreases t, 0, n
  {
    if n > 0 {
      ChildrenRan(t, s, clock, at, n - 1, m);
      var c := RunChildren(t, s, clock, at, n - 1);
      var r := Round(t.children[n - 1], s[n - 1], clock, c.1);
      ChildRan(t.children[n - 1], s[n - 1], clock, c.1, m);
      OneMoreRan(t, c.0, r.samples, m + 1);
      assert RunChildren(t, s, clock, at, n).0 == c.0 + [r.samples];
    }
  }

  lemma {:induction false} ChildRan(c: Tree, s: Samples, clock: Clock, at: nat, m: nat)
    requires Matches(c, s) && WellRan(c, s, m * c.repeat)
    ensures WellRan(c, Round(c, s, clock, at).samples, (m + 1) * c.repeat)
    decreases c, 3, 0
  {
    RepeatsRan(c, s, clock, at, c.repeat, m * c.repeat);
    Distribute(m, 1, c.repeat);
  }

  /** The tree after k rounds from the parent, and everything the leaves recorded, pass by pass. */
  function RunRounds(t: Tree, clock: Clock, at: nat, k: nat): (r: Ran)
    ensures Matches(t, r.samples)
  {
    if k == 0 then Ran(Empty(t), at, [])
    else
      var r := RunRounds(t, clock, at, k - 1);
      var next := Round(t, r.samples, clock, r.at);
      Ran(next.samples, next.at, r.work + next.work)
  }

  lemma {:induction false} EmptyRan(t: Tree)
    requires Positive(t)
    ensures WellRan(t, Empty(t), 0)
    decreases t
  {
    if t.Set? {
      forall i | 0 <= i < |t.children| ensures WellRan(t.children[i], Empty(t).children[i], 0 * t.children[i].repeat) {
        assert t.children[i] in t.children;
        EmptyRan(t.children[i]);
      }
      assert 0 * t.passes == 0;
    }
  }

  lemma {:induction false} RoundsRan(t: Tree, clock: Clock, at: nat, k: nat)
    requires Positive(t)
    ensures var r := RunRounds(t, clock, at, k);
            WellRan(t, r.samples, k * t.repeat) && |r.work| == k * t.repeat * PassCount(t)
  {
    if k == 0 {
      EmptyRan(t);
    } else {
      RoundsRan(t, clock, at, k - 1);
      var r := RunRounds(t, clock, at, k - 1);
      RepeatsRan(t, r.samples, clock, r.at, t.repeat, (k - 1) * t.repeat);
      assert (k - 1) * t.repeat + t.repeat == k * t.repeat;
      Distribute((k - 1) * t.repeat, t.repeat, PassCount(t));
    }
  }

  // ---------------------------------------------------------------- which durations are recorded

  /** How many samples a tree of samples holds. */
  function Recorded(s: Samples): nat
    decreases s, 1
  {
    |s.own| + RecordedIn(s.children)
  }

  function RecordedIn(l: seq<Samples>): nat
    decreases l, 0
  {
    if l == [] then 0 else RecordedIn(l[..|l| - 1]) + Recorded(l[|l| - 1])
  }

  /** Every duration measured is recorded once: the clock advances by as many as are recorded. */
  lemma {:induction false} EachRecorded(t: Tree, s: Samples, clock: Clock, at: nat, n: nat)
    requires Matches(t, s)
    ensures var r := Repeats(t, s, clock, at, n); r.at + Recorded(s) == at + Recorded(r.samples)
    decreases t, 2, n
  {
    if n > 0 {
      EachRecorded(t, s, clock, at, n - 1);
      var r := Repeats(t, s, clock, at, n - 1);
      if t.Set? { PassesRecorded(t, r.samples.children, clock, r.at, t.passes); }
    }
  }

  lemma {:induction false} PassesRecorded(t: Tree, s: seq<Samples>, clock: Clock, at: nat, n: nat)
    requires AllMatch(t, s)
    ensures var p := Passes(t, s, clock, at, n); p.1 + RecordedIn(s) == at + RecordedIn(p.0)
    decreases t, 1, n
  {
    if n > 0 {
      PassesRecorded(t, s, clock, at, n - 1);
      var p := Passes(t, s, clock, at, n - 1);
      ChildrenRecorded(t, p.0, clock, p.1, |t.children|);
      assert p.0[..|t.children|] == p.0;
    }
  }

  lemma {:induction false} ChildrenRecorded(t: Tree, s: seq<Samples>, clock: Clock, at: nat, n: nat)
    requires AllMatch(t, s) && n <= |t.children|
    ensures var c := RunChildren(t, s, clock, at, n); c.1 + RecordedIn(s[..n]) == at + RecordedIn(c.0)
    decreases t, 0, n
  {
    if n > 0 {
      ChildrenRecorded(t, s, clock, at, n - 1);
      var c := RunChildren(t, s, clock, at, n - 1);
      EachRecorded(t.children[n - 1], s[n - 1], clock, c.1, t.children[n - 1].repeat);
      assert s[..n][..n - 1] == s[..n - 1];
      assert RunChildren(t, s, clock, at, n).0[..n - 1] == c.0;
    }
  }

  /** The last duration measured in a repetition is the node's own sample of it. */
  lemma {:induction false} OwnIsLast(t: Tree, s: Samples, clock: Clock, at: nat, n: nat)
    requires Matches(t, s) && n > 0
    ensures var before, r := Repeats(t, s, clock, at, n - 1), Repeats(t, s, clock, at, n);
      && before.at < r.at && r.samples.own == before.samples.own + [clock(r.at - 1)]
      && (t.Leaf? ==> r.at == before.at + 1)
  {
    if t.Set? {
      var before := Repeats(t, s, clock, at, n - 1);
      PassesForward(t, before.samples.children, clock, before.at, t.passes);
    }
  }

  lemma {:induction false} RepeatsForward(t: Tree, s: Samples, clock: Clock, at: nat, n: nat)
    requires Matches(t, s)
    ensures at <= Repeats(t, s, clock, at, n).at
    decreases t, 2, n
  {
    if n > 0 {
      RepeatsForward(t, s, clock, at, n - 1);
      var r := Repeats(t, s, clock, at, n - 1);
      if t.Set? { PassesForward(t, r.samples.children, clock, r.at, t.passes); }
    }
  }

  lemma {:induction false} PassesForward(t: Tree, s: seq<Samples>, clock: Clock, at: nat, n: nat)
    requires AllMatch(t, s)
    ensures at <= Passes(t, s, clock, at, n).1
    decreases t, 1, n
  {
    if n > 0 {
      PassesForward(t, s, clock, at, n - 1);
      var p := Passes(t, s, clock, at, n - 1);
      ChildrenForward(t, p.0, clock, p.1, |t.children|);
    }
  }

  lemma {:induction false} ChildrenForward(t: Tree, s: seq<Samples>, clock: Clock, at: nat, n: nat)
    requires AllMatch(t, s) && n <= |t.children|
    ensures at <= RunChildren(t, s, clock, at, n).1
    decreases t, 0, n
  {
    if n > 0 {
      ChildrenForward(t, s, clock, at, n - 1);
      RepeatsForward(t.children[n - 1], s[n - 1], clock, RunChildren(t, s, clock, at, n - 1).1,
                     t.children[n - 1].repeat);
    }
  }
}
