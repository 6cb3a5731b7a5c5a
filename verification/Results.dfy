/**
 * Durations of instruction sets.  While the tree runs, every instruction appends one sample per
 * repetition to its own flat list.  Afterwards a set's duration is rebuilt from its children's
 * flat lists by index arithmetic; it must agree with the nested loops that produced them.
 * Sample values are reals.
 */
module Results {
  import opened Common

  /**
   * `passes` is how often one repetition of a set runs through its children: 1, or the length of
   * the list it iterates over.
   */
  datatype Tree = Leaf(repeat: nat) | Set(repeat: nat, passes: nat, children: seq<Tree>)

  /** The sample lists of a tree, node by node. */
  datatype Samples = Samples(own: seq<real>, children: seq<Samples>)

  function Children(t: Tree): seq<Tree> {
    if t.Leaf? then [] else t.children
  }

  predicate Matches(t: Tree, s: Samples)
    decreases t, 1
  {
    |s.children| == |Children(t)| && (t.Set? ==> FirstMatch(t, s.children))
  }

  /** The sample trees fit the children they belong to, which are the first |s| children. */
  predicate FirstMatch(t: Tree, s: seq<Samples>)
    requires t.Set? && |s| <= |t.children|
    decreases t, 0
  {
    forall i :: 0 <= i < |s| ==> Matches(t.children[i], s[i])
  }

  predicate AllMatch(t: Tree, s: seq<Samples>) {
    t.Set? && |s| == |t.children| && FirstMatch(t, s)
  }

  function Empty(t: Tree): (s: Samples)
    ensures Matches(t, s)
    decreases t
  {
    match t
    case Leaf(_) => Samples([], [])
    case Set(_, _, l) => Samples([], seq(|l|, i requires 0 <= i < |l| => Empty(l[i])))
  }

  function Total(s: seq<real>): real {
    if s == [] then 0.0 else Total(s[..|s| - 1]) + s[|s| - 1]
  }

  lemma {:induction false} TotalConcat(a: seq<real>, b: seq<real>)
    ensures Total(a + b) == Total(a) + Total(b)
  {
    if b == [] {
      assert a + b == a;
    } else {
      TotalConcat(a, b[..|b| - 1]);
      assert (a + b)[..|a + b| - 1] == a + b[..|b| - 1];
    }
  }

  // ---------------------------------------------------------------- running

  /** `clock(n)` is the n-th duration measured; a run draws them in order. */
  type Clock = nat -> real

  /**
   * The samples after some repetitions, the clock position, and the work: what the leaves
   * recorded, one entry per pass (for a leaf: per repetition).
   */
  datatype Ran = Ran(samples: Samples, at: nat, work: seq<real>)

  function Round(t: Tree, s: Samples, clock: Clock, at: nat): (r: Ran)
    requires Matches(t, s)
    ensures Matches(t, r.samples)
    decreases t, 3, 0
  {
    Repeats(t, s, clock, at, t.repeat)
  }

  function Repeats(t: Tree, s: Samples, clock: Clock, at: nat, n: nat): (r: Ran)
    requires Matches(t, s)
    ensures Matches(t, r.samples)
    decreases t, 2, n
  {
    if n == 0 then Ran(s, at, [])
    else
      var r := Repeats(t, s, clock, at, n - 1);
      match t
      case Leaf(_) => Ran(Samples(r.samples.own + [clock(r.at)], []), r.at + 1, r.work + [clock(r.at)])
      case Set(_, passes, l) =>
        var p := Passes(t, r.samples.children, clock, r.at, passes);
        Ran(Samples(r.samples.own + [clock(p.1)], p.0), p.1 + 1, r.work + p.2)
  }

  /** The list of passes through the children in one repetition. */
  function Passes(t: Tree, s: seq<Samples>, clock: Clock, at: nat, n: nat): (r: (seq<Samples>, nat, seq<real>))
    requires AllMatch(t, s)
    ensures AllMatch(t, r.0) && |r.2| == n
    decreases t, 1, n
  {
    if n == 0 then (s, at, [])
    else
      var p := Passes(t, s, clock, at, n - 1);
      var c := RunChildren(t, p.0, clock, p.1, |t.children|);
      (c.0, c.1, p.2 + [c.2])
  }

  /** RunInstructions over the first n children: a full round of each. */
  function RunChildren(t: Tree, s: seq<Samples>, clock: Clock, at: nat, n: nat): (r: (seq<Samples>, nat, real))
    requires AllMatch(t, s) && n <= |t.children|
    ensures |r.0| == n && FirstMatch(t, r.0)
    decreases t, 0, n
  {
    if n == 0 then ([], at, 0.0)
    else
      var c := RunChildren(t, s, clock, at, n - 1);
      var r := Round(t.children[n - 1], s[n - 1], clock, c.1);
      (c.0 + [r.samples], r.at, c.2 + Total(r.work))
  }

  // ---------------------------------------------------------------- collecting

  /** The sum of the i-th block of `repeat` samples, up to its j-th sample. */
  function BlockSum(samples: seq<real>, repeat: nat, i: nat, j: nat): real
    requires j <= repeat && i * repeat + repeat <= |samples|
  {
    if j == 0 then 0.0 else BlockSum(samples, repeat, i, j - 1) + samples[i * repeat + j - 1]
  }

  function Blocks(samples: seq<real>, repeat: nat): nat
    requires repeat > 0
  {
    |samples| / repeat
  }

  lemma BlockInBounds(samples: seq<real>, repeat: nat, i: nat)
    requires repeat > 0 && i < Blocks(samples, repeat)
    ensures i * repeat + repeat <= |samples|
  {
    assert (i + 1) * repeat <= Blocks(samples, repeat) * repeat <= |samples|;
  }

  /** The accumulation loop for one child; None where it would write past the vector. */
  function Accumulate(base: seq<real>, samples: seq<real>, repeat: nat): (r: Option<seq<real>>)
    requires repeat > 0
    ensures r.Some? ==> |r.value| == |base|
  {
    var n := Blocks(samples, repeat);
    if n > |base| then None
    else Some(seq(|base|, i requires 0 <= i < |base| =>
           if i >= n then base[i]
           else BlockInBounds(samples, repeat, i); base[i] + BlockSum(samples, repeat, i, repeat)))
  }

  function Zeros(n: nat): seq<real> {
    seq(n, _ => 0.0)
  }

  /** The duration vector after one child: an empty vector is first resized to the child's blocks. */
  function AddChild(duration: seq<real>, samples: seq<real>, repeat: nat): Option<seq<real>>
    requires repeat > 0
  {
    Accumulate(if duration == [] then Zeros(Blocks(samples, repeat)) else duration, samples, repeat)
  }

  ghost predicate Positive(t: Tree)
    decreases t
  {
    t.repeat > 0 && (t.Set? ==> t.children != [] && t.passes > 0 && forall c :: c in t.children ==> Positive(c))
  }

  /** CollectResults: the "duration" samples of a node. */
  function Duration(t: Tree, s: Samples): Option<seq<real>>
    requires Matches(t, s) && Positive(t)
    decreases t, 1, 0
  {
    match t
    case Leaf(_) => Some(s.own)
    case Set(_, _, l) => DurationOf(t, s.children, |l|)
  }

  function DurationOf(t: Tree, s: seq<Samples>, n: nat): Option<seq<real>>
    requires t.Set? && n <= |s| <= |t.children| && FirstMatch(t, s) && Positive(t)
    decreases t, 0, n
  {
    if n == 0 then Some([])
    else
      match DurationOf(t, s, n - 1)
      case None => None
      case Some(d) =>
        match Duration(t.children[n - 1], s[n - 1])
        case None => None
        case Some(samples) => AddChild(d, samples, t.children[n - 1].repeat)
  }

  // ---------------------------------------------------------------- the collecting loops

  /** `duration[i] += samples[i * repeat + j]`, in place, for every block and repetition. */
  method AddBlocks(duration: array<real>, samples: seq<real>, repeat: nat)
    requires repeat > 0 && Blocks(samples, repeat) <= duration.Length
    modifies duration
    ensures Some(duration[..]) == Accumulate(old(duration[..]), samples, repeat)
  {
    ghost var base := duration[..];
    for i := 0 to |samples| / repeat
      invariant forall k :: i <= k < duration.Length ==> duration[k] == base[k]
      invariant forall k :: 0 <= k < i ==> duration[k] == Accumulate(base, samples, repeat).value[k]
    {
      BlockInBounds(samples, repeat, i);
      for j := 0 to repeat
        invariant forall k :: i < k < duration.Length ==> duration[k] == base[k]
        invariant forall k :: 0 <= k < i ==> duration[k] == Accumulate(base, samples, repeat).value[k]
        invariant duration[i] == base[i] + BlockSum(samples, repeat, i, j)
      {
        duration[i] := duration[i] + samples[i * repeat + j];
      }
    }
    assert duration[..] == Accumulate(base, samples, repeat).value;
  }

  /** InstructionSet::CollectResults and Instruction::CollectResults, for the "duration" samples. */
  method CollectResults(t: Tree, s: Samples) returns (duration: seq<real>)
    requires Matches(t, s) && Positive(t) && Duration(t, s).Some?
    ensures Some(duration) == Duration(t, s)
    decreases t
  {
    match t
    case Leaf(_) => duration := s.own;
    case Set(_, _, l) =>
      Defined(t, s.children, |l|);
      var total := new real[0];
      assert total[..] == [];
      for n := 0 to |l|
        invariant fresh(total) && Some(total[..]) == DurationOf(t, s.children, n)
      {
        assert l[n] in l && DurationOf(t, s.children, n + 1).Some?;
        var samples := CollectResults(l[n], s.children[n]);
        if total.Length == 0 {
          total := new real[|samples| / l[n].repeat](_ => 0.0);
          assert total[..] == Zeros(Blocks(samples, l[n].repeat));
        }
        AddBlocks(total, samples, l[n].repeat);
      }
      duration := total[..];
  }

  lemma {:induction false} Defined(t: Tree, s: seq<Samples>, k: nat)
    requires t.Set? && k <= |s| <= |t.children| && FirstMatch(t, s) && Positive(t) && DurationOf(t, s, k).Some?
    ensures forall n :: 0 <= n <= k ==> DurationOf(t, s, n).Some?
  {
    if k > 0 { Defined(t, s, k - 1); }
  }
}
