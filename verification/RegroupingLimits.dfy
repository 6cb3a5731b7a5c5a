/** For any tree: when collecting stays inside its vectors, and when it agrees with the run. */
module RegroupingLimits {
  import opened Common
  import opened Results
  import opened SampleRuns
  import opened Regrouping

  /**
   * In general, when child i has recorded blocks[i] groups of its repetitions, the loop stays in
   * bounds exactly when no child has more groups than the first one, whose count the result gets.
   * Children of one set have equal counts exactly when their numbers of passes are equal.
   */
  lemma {:induction false} OneSetInBounds(t: Tree, s: seq<Samples>, blocks: seq<nat>, n: nat)
    requires AllMatch(t, s) && Positive(t) && AllPositive(t) && |blocks| == |t.children| && 1 <= n <= |t.children|
    requires forall i :: 0 <= i < |t.children| ==>
      Duration(t.children[i], s[i]).Some? && blocks[i] > 0
      && |Duration(t.children[i], s[i]).value| == blocks[i] * t.children[i].repeat
    ensures DurationOf(t, s, n).Some? <==> forall i :: 0 <= i < n ==> blocks[i] <= blocks[0]
    ensures DurationOf(t, s, n).Some? ==> |DurationOf(t, s, n).value| == blocks[0]
  {
    var x := Duration(t.children[n - 1], s[n - 1]).value;
    BlockCount(x, t.children[n - 1].repeat, blocks[n - 1]);
    if n == 1 {
      assert DurationOf(t, s, 0) == Some([]);
    } else {
      OneSetInBounds(t, s, blocks, n - 1);
    }
  }

  /** The entries of a node's duration for one repetition: its own passes times those of its first child. */
  function Groups(t: Tree): nat
    decreases t
  {
    if t.Leaf? then 1 else if t.children == [] then t.passes else t.passes * Groups(t.children[0])
  }

  /** In every set, no child has more groups than the first one. */
  ghost predicate Regroupable(t: Tree)
    decreases t
  {
    t.Set? ==> forall c :: c in t.children ==> Regroupable(c) && Groups(c) <= Groups(t.children[0])
  }

  lemma {:induction false} GroupsPositive(t: Tree)
    requires Positive(t)
    ensures Groups(t) >= PassCount(t) >= 1
    decreases t
  {
    if t.Set? {
      assert t.children[0] in t.children;
      GroupsPositive(t.children[0]);
      ProductGrows(t.passes, Groups(t.children[0]));
    }
  }

  lemma ProductGrows(a: nat, b: nat)
    requires a > 0 && b > 0
    ensures a * b >= a && a * b > 0 && (a * b == a <==> b == 1)
  {
    if b > 1 { Multiples(b - 1, a); }
    assert a * b == a + (b - 1) * a;
  }

  lemma Exchange(a: nat, b: nat, c: nat)
    ensures a * b * c == a * c * b
  {}

  lemma SameFactor(a: nat, b: nat, c: nat)
    requires a > 0
    ensures a * b <= a * c <==> b <= c
  {
    assert a * c - a * b == (c - b) * a;
    Multiples(c - b, a);
  }

  /**
   * When collecting stays inside its vectors: for any tree and any samples of at least one
   * repetition, exactly if no set has a child with more groups than the set's first child; the
   * result then has as many entries per repetition as the node has groups.
   */
  lemma {:induction false} InBoundsExactly(t: Tree, s: Samples, reps: nat)
    requires Matches(t, s) && Positive(t) && WellRan(t, s, reps) && reps > 0
    ensures Duration(t, s).Some? <==> Regroupable(t)
    ensures Duration(t, s).Some? ==> |Duration(t, s).value| == reps * Groups(t)
    decreases t
  {
    if t.Set? {
      var m := reps * t.passes;
      ProductGrows(reps, t.passes);
      forall i | 0 <= i < |t.children| ensures Positive(t.children[i]) { assert t.children[i] in t.children; }
      forall i: nat | i < |t.children| ensures ChildInBounds(t, s.children, m, i) {
        ChildInBoundsExactly(t, s, m, i);
      }
      assert reps * t.passes * Groups(t.children[0]) == reps * (t.passes * Groups(t.children[0]));
      SetInBounds(t, s.children, m);
    }
  }

  lemma {:induction false} ChildInBoundsExactly(t: Tree, s: Samples, m: nat, i: nat)
    requires t.Set? && Matches(t, s) && Positive(t) && AllPositive(t) && FirstRan(t, s.children, m) && m > 0
    requires i < |t.children|
    ensures ChildInBounds(t, s.children, m, i)
    decreases t, i
  {
    var c := t.children[i];
    ProductGrows(m, c.repeat);
    InBoundsExactly(c, s.children[i], m * c.repeat);
    Exchange(m, c.repeat, Groups(c));
  }

  ghost predicate ChildInBounds(t: Tree, s: seq<Samples>, m: nat, i: nat)
    requires AllMatch(t, s) && i < |t.children| && AllPositive(t)
  {
    && (Duration(t.children[i], s[i]).Some? <==> Regroupable(t.children[i]))
    && (Duration(t.children[i], s[i]).Some? ==>
          |Duration(t.children[i], s[i]).value| == m * Groups(t.children[i]) * t.children[i].repeat)
  }

  lemma SetInBounds(t: Tree, s: seq<Samples>, m: nat)
    requires AllMatch(t, s) && Positive(t) && AllPositive(t) && m > 0
    requires forall i: nat :: i < |t.children| ==> ChildInBounds(t, s, m, i)
    ensures DurationOf(t, s, |t.children|).Some? <==> Regroupable(t)
    ensures DurationOf(t, s, |t.children|).Some? ==> |DurationOf(t, s, |t.children|).value| == m * Groups(t.children[0])
  {
    if DurationOf(t, s, |t.children|).Some? { DefinedBelow(t, s, m); }
    if forall i :: 0 <= i < |t.children| ==> Regroupable(t.children[i]) {
      ChildrenInBounds(t, s, m);
    } else {
      assert forall i :: 0 <= i < |t.children| ==> t.children[i] in t.children;
    }
  }

  lemma DefinedBelow(t: Tree, s: seq<Samples>, m: nat)
    requires AllMatch(t, s) && Positive(t) && AllPositive(t) && DurationOf(t, s, |t.children|).Some?
    requires forall i: nat :: i < |t.children| ==> ChildInBounds(t, s, m, i)
    ensures forall i :: 0 <= i < |t.children| ==> Regroupable(t.children[i])
  {
    Defined(t, s, |t.children|);
    forall i | 0 <= i < |t.children| ensures Regroupable(t.children[i]) {
      assert ChildInBounds(t, s, m, i) && DurationOf(t, s, i + 1).Some?;
    }
  }

  lemma ChildrenInBounds(t: Tree, s: seq<Samples>, m: nat)
    requires AllMatch(t, s) && Positive(t) && AllPositive(t) && m > 0
    requires forall i: nat :: i < |t.children| ==> ChildInBounds(t, s, m, i) && Regroupable(t.children[i])
    ensures DurationOf(t, s, |t.children|).Some? <==> Regroupable(t)
    ensures DurationOf(t, s, |t.children|).Some? ==> |DurationOf(t, s, |t.children|).value| == m * Groups(t.children[0])
  {
    var blocks: seq<nat> := seq(|t.children|, i requires 0 <= i < |t.children| => m * Groups(t.children[i]));
    forall i | 0 <= i < |t.children|
      ensures blocks[i] > 0 && (blocks[i] <= blocks[0] <==> Groups(t.children[i]) <= Groups(t.children[0]))
    {
      GroupsPositive(t.children[i]);
      ProductGrows(m, Groups(t.children[i]));
      SameFactor(m, Groups(t.children[i]), Groups(t.children[0]));
    }
    forall i | 0 <= i < |t.children| ensures Duration(t.children[i], s[i]).Some? { assert ChildInBounds(t, s, m, i); }
    OneSetInBounds(t, s, blocks, |t.children|);
    assert forall i :: 0 <= i < |t.children| ==> t.children[i] in t.children;
  }

  /** Iterating only at the root is the same as being regroupable with one group per pass of the root. */
  lemma {:induction false} PlainExactly(t: Tree)
    requires Positive(t)
    ensures PlainBelow(t) <==> Regroupable(t) && Groups(t) == PassCount(t)
    decreases t
  {
    if t.Set? {
      forall c | c in t.children
        ensures Groups(c) >= PassCount(c) >= 1 && (PlainBelow(c) <==> Regroupable(c) && Groups(c) == PassCount(c))
      {
        GroupsPositive(c);
        PlainExactly(c);
      }
      assert t.children[0] in t.children;
      ProductGrows(t.passes, Groups(t.children[0]));
    }
  }

  /**
   * After one round or more, of any tree: collecting stays in bounds exactly if the tree is
   * regroupable, and it agrees with what the leaves recorded exactly if no set below the root
   * iterates over a list of any other length than one.
   */
  lemma RegroupingAgreesExactly(t: Tree, clock: Clock, at: nat, k: nat)
    requires Positive(t) && k > 0
    ensures var r := RunRounds(t, clock, at, k);
            && (Duration(t, r.samples).Some? <==> Regroupable(t))
            && (Duration(t, r.samples).Some? ==> |Duration(t, r.samples).value| == k * t.repeat * Groups(t))
            && (Duration(t, r.samples) == Some(r.work) <==> PlainBelow(t))
  {
    var r := RunRounds(t, clock, at, k);
    RoundsRan(t, clock, at, k);
    ProductGrows(k, t.repeat);
    InBoundsExactly(t, r.samples, k * t.repeat);
    PlainExactly(t);
    if PlainBelow(t) {
      RegroupingAgrees(t, clock, at, k);
    } else if Duration(t, r.samples) == Some(r.work) {
      SameFactor(k * t.repeat, Groups(t), PassCount(t));
      SameFactor(k * t.repeat, PassCount(t), Groups(t));
    }
  }

  /**
   * Two ways to fail, each after a single round.  With an iterating set as a later child the loop
   * writes past the vector; with an iterating set as the only child it stays inside and reports two
   * entries where the outer set was repeated once.
   */
  lemma NestedIterationFails(clock: Clock)
    ensures var t := Set(1, 1, [Leaf(1), Set(1, 2, [Leaf(1)])]);
            Positive(t) && Duration(t, RunRounds(t, clock, 0, 1).samples) == None
    ensures var t := Set(1, 1, [Set(1, 2, [Leaf(1)])]); var r := RunRounds(t, clock, 0, 1);
            Positive(t) && Duration(t, r.samples).Some? && |Duration(t, r.samples).value| == 2 && |r.work| == 1
  {
    var inner := Set(1, 2, [Leaf(1)]);
    assert Groups(inner) == 2;
    var late, only := Set(1, 1, [Leaf(1), inner]), Set(1, 1, [inner]);
    assert late.children[1] == inner && inner in late.children;
    assert Groups(only) == 1 * Groups(only.children[0]) == 2 && Groups(late) == 1 * Groups(late.children[0]) == 1;
    assert Positive(late) && Positive(only) && !Regroupable(late) && Regroupable(only);
    RegroupingAgreesExactly(late, clock, 0, 1);
    RegroupingAgreesExactly(only, clock, 0, 1);
    RoundsRan(only, clock, 0, 1);
  }
}
