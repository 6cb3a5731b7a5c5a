/** How often, and in which order, nested repetitions run their leaves. */
module Repetition {
  import opened Common
  import opened Workload
  import opened Interpreter
  import opened NameResolution

  // ---------------------------------------------------------------- a run as a sequence of leaf cycles

  /** One cycle of the leaf at `site`. */
  datatype LeafCycle = LeafCycle(site: Site, body: Body<string>)

  datatype Step<K> = Step(leaf: LeafCycle, before: Machine<Names, K>, after: Machine<Names, K>)

  /** Between two leaves: draws and reseeding at most, and no variable changed but item variables. */
  ghost predicate Glued<K>(items: set<string>, m: Machine<Names, K>, n: Machine<Names, K>) {
    && !m.sys.halted && !n.sys.halted && m.sys.calls <= n.sys.calls
    && (forall k :: |m.sys.calls| <= k < |n.sys.calls| ==> n.sys.calls[k].Seed? || n.sys.calls[k].Draw?)
    && forall x :: x !in items ==> NameValue(n.store, x) == NameValue(m.store, x)
  }

  predicate IsLeaf(b: Body<string>) {
    !b.InstructionSet? && !b.Multithreading?
  }

  /** The run from m to n consists of these cycles of leaves, one after the other. */
  ghost predicate Runs<K(!new)>(kernel: Kernel<K>, prefix: string, items: set<string>, m: Machine<Names, K>,
                                n: Machine<Names, K>, steps: seq<Step<K>>)
    decreases |steps|
  {
    if steps == [] then Glued(items, m, n)
    else
      var last := steps[|steps| - 1];
      && IsLeaf(last.leaf.body)
      && last.after == Leaf(kernel, NameEnv(), prefix, last.leaf.site, last.leaf.body, last.before)
      && Glued(items, last.after, n)
      && Runs(kernel, prefix, items, m, last.before, steps[..|steps| - 1])
  }

  function Leaves<K>(steps: seq<Step<K>>): (r: seq<LeafCycle>)
    ensures |r| == |steps|
  {
    seq(|steps|, k requires 0 <= k < |steps| => steps[k].leaf)
  }

  lemma {:induction false} RunsGlued<K(!new)>(kernel: Kernel<K>, prefix: string, items: set<string>,
        m: Machine<Names, K>, n: Machine<Names, K>, t: Machine<Names, K>, steps: seq<Step<K>>)
    requires Runs(kernel, prefix, items, m, n, steps) && Glued(items, n, t)
    ensures Runs(kernel, prefix, items, m, t, steps)
  {}

  lemma {:induction false} RunsTogether<K(!new)>(kernel: Kernel<K>, prefix: string, items: set<string>,
        m: Machine<Names, K>, n: Machine<Names, K>, t: Machine<Names, K>, a: seq<Step<K>>, b: seq<Step<K>>)
    requires Runs(kernel, prefix, items, m, n, a) && Runs(kernel, prefix, items, n, t, b)
    ensures Runs(kernel, prefix, items, m, t, a + b)
    decreases |b|
  {
    if b == [] {
      assert a + b == a;
      RunsGlued(kernel, prefix, items, m, n, t, a);
    } else {
      var last := b[|b| - 1];
      RunsTogether(kernel, prefix, items, m, n, last.before, a, b[..|b| - 1]);
      assert (a + b)[..|a + b| - 1] == a + b[..|b| - 1] && (a + b)[|a + b| - 1] == last;
    }
  }

  lemma LeavesTogether<K>(a: seq<Step<K>>, b: seq<Step<K>>)
    ensures Leaves(a + b) == Leaves(a) + Leaves(b)
  {}

  // ---------------------------------------------------------------- the order in which leaves run

  function Repeated<T>(n: int, s: seq<T>): seq<T> {
    if n <= 0 then [] else Repeated(n - 1, s) + s
  }

  /** The cycles of the leaves of a tree in the order in which they run; lists have the given lengths. */
  function Order(i: Instr<string>, site: Site, length: string -> nat): seq<LeafCycle>
    decreases i, 2
  {
    Repeated(i.repeat, OrderOnce(i, site, length))
  }

  function OrderOnce(i: Instr<string>, site: Site, length: string -> nat): seq<LeafCycle>
    decreases i, 1
  {
    match i.body
    case InstructionSet(l, None) => OrderAll(l, site, length)
    case InstructionSet(l, Some(it)) => Repeated(length(it.list), OrderAll(l, site, length))
    case _ => [LeafCycle(site, i.body)]
  }

  function OrderAll(l: seq<Instr<string>>, site: Site, length: string -> nat): seq<LeafCycle>
    decreases l, 0
  {
    if l == [] then []
    else OrderAll(l[..|l| - 1], site, length) + Order(l[|l| - 1], site + [|l| - 1], length)
  }

  // ---------------------------------------------------------------- trees whose counts are fixed

  /** The variables that the cycles of a body itself assign. */
  function Assigned(b: Body<string>): set<string> {
    match b
    case OpenFile(_, Some(output), _) => {output}
    case ReadDirectory(_, output) => {output}
    case InstructionSet(_, Some(it)) => {it.item}
    case _ => {}
  }

  /**
   * Every list the tree iterates over is one of `lists`, every item variable one of `items`, and the tree
   * assigns none of the lists.
   */
  ghost predicate Steady(i: Instr<string>, lists: set<string>, items: set<string>)
    decreases i
  {
    && Assigned(i.body) !! lists
    && match i.body
       case InstructionSet(l, it) =>
         && (it.Some? ==> it.value.list in lists && it.value.item in items)
         && forall x :: x in l ==> Steady(x, lists, items)
       case Multithreading(_, _) => false
       case _ => true
  }

  ghost predicate AllSteady(l: seq<Instr<string>>, lists: set<string>, items: set<string>) {
    forall x :: x in l ==> Steady(x, lists, items)
  }

  lemma {:induction false} SteadyThreadFree(i: Instr<string>, lists: set<string>, items: set<string>)
    requires Steady(i, lists, items)
    ensures ThreadFree(i)
    decreases i
  {
    if i.body.InstructionSet? {
      forall x | x in i.body.instructions ensures ThreadFree(x) { SteadyThreadFree(x, lists, items); }
    }
  }

  /** The lists have the given lengths. */
  ghost predicate Lengths(store: Names, lists: set<string>, length: string -> nat) {
    forall x :: x in lists ==> HasLength(store, x, length(x))
  }

  ghost predicate HasLength(store: Names, x: string, n: nat) {
    NameValue(store, x).ListValue? && |NameValue(store, x).l| == n
  }

  /** From m to n: these leaf cycles in this order, and the lists as they were. */
  ghost predicate Ran<K(!new)>(kernel: Kernel<K>, prefix: string, lists: set<string>, items: set<string>,
                               length: string -> nat, m: Machine<Names, K>, n: Machine<Names, K>,
                               steps: seq<Step<K>>, order: seq<LeafCycle>)
  {
    Runs(kernel, prefix, items, m, n, steps) && Leaves(steps) == order && Lengths(n.store, lists, length)
  }

  lemma RanTogether<K(!new)>(kernel: Kernel<K>, prefix: string, lists: set<string>, items: set<string>,
        length: string -> nat, m: Machine<Names, K>, n: Machine<Names, K>, t: Machine<Names, K>, a: seq<Step<K>>,
        first: seq<LeafCycle>, b: seq<Step<K>>, second: seq<LeafCycle>)
    requires Ran(kernel, prefix, lists, items, length, m, n, a, first)
    requires Ran(kernel, prefix, lists, items, length, n, t, b, second)
    ensures Ran(kernel, prefix, lists, items, length, m, t, a + b, first + second)
  {
    RunsTogether(kernel, prefix, items, m, n, t, a, b);
    LeavesTogether(a, b);
  }

  // ---------------------------------------------------------------- runs that do not stop

  lemma LeafRuns<K(!new)>(kernel: Kernel<K>, prefix: string, site: Site, b: Body<string>, lists: set<string>,
        items: set<string>, length: string -> nat, m: Machine<Names, K>)
    returns (steps: seq<Step<K>>)
    requires IsLeaf(b) && Assigned(b) !! lists && Lengths(m.store, lists, length) && !m.sys.halted
    requires !Leaf(kernel, NameEnv(), prefix, site, b, m).sys.halted
    ensures Ran(kernel, prefix, lists, items, length, m, Leaf(kernel, NameEnv(), prefix, site, b, m), steps,
                [LeafCycle(site, b)])
  {
    var n := Leaf(kernel, NameEnv(), prefix, site, b, m);
    steps := [Step(LeafCycle(site, b), m, n)];
    assert steps[..0] == [] && Runs(kernel, prefix, items, m, m, []);
    forall x | x in lists ensures NameValue(n.store, x) == NameValue(m.store, x) {
      LeafStore(kernel, prefix, site, b, m, x);
    }
    assert forall x :: x in lists ==> HasLength(m.store, x, length(x));
  }

  lemma LeafStore<K(!new)>(kernel: Kernel<K>, prefix: string, site: Site, b: Body<string>, m: Machine<Names, K>,
                           x: string)
    requires IsLeaf(b) && x !in Assigned(b)
    ensures NameValue(Leaf(kernel, NameEnv(), prefix, site, b, m).store, x) == NameValue(m.store, x)
  {
    assert b.OpenFile? && b.output.Some? ==> b.output.value in Assigned(b);
    assert b.ReadDirectory? ==> b.outputList in Assigned(b);
  }

  /** Reseeding, before a round or a cycle. */
  lemma SeedRuns<K(!new)>(kernel: Kernel<K>, prefix: string, lists: set<string>, items: set<string>,
                          length: string -> nat, call: Call, m: Machine<Names, K>)
    requires (call.Seed? || call.Draw?) && !m.sys.halted && Lengths(m.store, lists, length)
    ensures Ran(kernel, prefix, lists, items, length, m, m.(sys := Ask(kernel, m.sys, call).0), [], [])
    ensures Ran(kernel, prefix, lists, items, length, m, m, [], [])
  {}

  /**
   * A run that does not stop consists of exactly the cycles of its leaves, in the order of the tree: for any
   * tree without threads that assigns none of the lists it iterates over, and any kernel.
   */
  lemma {:induction false} PerformRuns<K(!new)>(kernel: Kernel<K>, prefix: string, site: Site, i: Instr<string>,
        lists: set<string>, items: set<string>, length: string -> nat, m: Machine<Names, K>)
    returns (steps: seq<Step<K>>)
    requires Steady(i, lists, items) && ThreadFree(i) && Lengths(m.store, lists, length)
    requires !Perform(kernel, NameEnv(), prefix, site, i, m).sys.halted
    ensures Ran(kernel, prefix, lists, items, length, m, Perform(kernel, NameEnv(), prefix, site, i, m), steps,
                Order(i, site, length))
    decreases i, 4, 0
  {
    if m.sys.halted { StoppedPerform(kernel, NameEnv(), prefix, site, i, m); }
    var m1 := m.(sys := SetUpRound(kernel, site, i.body, m.sys));
    forall x: int ensures Ran(kernel, prefix, lists, items, length, m,
                              m.(sys := Ask(kernel, m.sys, Seed(site, x)).0), [], []) {
      SeedRuns(kernel, prefix, lists, items, length, Seed(site, x), m);
    }
    assert Ran(kernel, prefix, lists, items, length, m, m, [], []);
    steps := RoundsRun(kernel, prefix, site, i, i.repeat, lists, items, length, m1);
    RanTogether(kernel, prefix, lists, items, length, m, m1, Perform(kernel, NameEnv(), prefix, site, i, m), [], [],
                steps, Order(i, site, length));
    assert [] + steps == steps && [] + Order(i, site, length) == Order(i, site, length);
  }

  lemma {:induction false} RoundsRun<K(!new)>(kernel: Kernel<K>, prefix: string, site: Site, i: Instr<string>, n: int,
        lists: set<string>, items: set<string>, length: string -> nat, m: Machine<Names, K>)
    returns (steps: seq<Step<K>>)
    requires Steady(i, lists, items) && ThreadFree(i) && Lengths(m.store, lists, length)
    requires !Rounds(kernel, NameEnv(), prefix, site, i, n, m).sys.halted
    ensures Ran(kernel, prefix, lists, items, length, m, Rounds(kernel, NameEnv(), prefix, site, i, n, m), steps,
                Repeated(n, OrderOnce(i, site, length)))
    decreases i, 3, n
  {
    if n <= 0 {
      steps := [];
    } else {
      var t := Rounds(kernel, NameEnv(), prefix, site, i, n - 1, m);
      var first := RoundsRun(kernel, prefix, site, i, n - 1, lists, items, length, m);
      var second := CycleRuns(kernel, prefix, site, i, lists, items, length, t);
      var once := OrderOnce(i, site, length);
      RanTogether(kernel, prefix, lists, items, length, m, t, Cycle(kernel, NameEnv(), prefix, site, i, t), first,
                  Repeated(n - 1, once), second, once);
      steps := first + second;
    }
  }

  lemma {:induction false} CycleRuns<K(!new)>(kernel: Kernel<K>, prefix: string, site: Site, i: Instr<string>,
        lists: set<string>, items: set<string>, length: string -> nat, m: Machine<Names, K>)
    returns (steps: seq<Step<K>>)
    requires Steady(i, lists, items) && ThreadFree(i) && Lengths(m.store, lists, length)
    requires !Cycle(kernel, NameEnv(), prefix, site, i, m).sys.halted
    ensures Ran(kernel, prefix, lists, items, length, m, Cycle(kernel, NameEnv(), prefix, site, i, m), steps,
                OrderOnce(i, site, length))
    decreases i, 2, 0
  {
    if IsLeaf(i.body) {
      steps := LeafRuns(kernel, prefix, site, i.body, lists, items, length, m);
    } else if i.body.iterate.None? {
      steps := AllRun(kernel, prefix, site, i.body.instructions, lists, items, length, m);
    } else {
      var it, l := i.body.iterate.value, i.body.instructions;
      SeedRuns(kernel, prefix, lists, items, length, Seed(site, it.seed), m);
      var m1 := if it.reseeding.EachCycle? then m.(sys := Ask(kernel, m.sys, Seed(site, it.seed)).0) else m;
      assert HasLength(m.store, it.list, length(it.list));
      var names := NameValue(m.store, it.list).l;
      assert NameEnv().get(m1.store, it.list) == Some(ListValue(names));
      steps := IterationsRun(kernel, prefix, site, l, it, names, |names|, lists, items, length, m1);
      RanTogether(kernel, prefix, lists, items, length, m, m1, Cycle(kernel, NameEnv(), prefix, site, i, m), [], [],
                  steps, OrderOnce(i, site, length));
      assert [] + steps == steps && [] + OrderOnce(i, site, length) == OrderOnce(i, site, length);
    }
  }

  lemma {:induction false} IterationsRun<K(!new)>(kernel: Kernel<K>, prefix: string, site: Site,
        l: seq<Instr<string>>, it: Iterate<string>, names: seq<string>, n: nat, lists: set<string>,
        items: set<string>, length: string -> nat, m: Machine<Names, K>)
    returns (steps: seq<Step<K>>)
    requires AllSteady(l, lists, items) && AllThreadFree(l) && it.item !in lists && it.item in items && n <= |names|
    requires Lengths(m.store, lists, length) && !m.sys.halted
    requires !Iterations(kernel, NameEnv(), prefix, site, l, it, names, n, m).sys.halted
    ensures Ran(kernel, prefix, lists, items, length, m,
                Iterations(kernel, NameEnv(), prefix, site, l, it, names, n, m), steps,
                Repeated(n, OrderAll(l, site, length)))
    decreases l, 1, n
  {
    if n == 0 {
      steps := [];
    } else {
      var t := Iterations(kernel, NameEnv(), prefix, site, l, it, names, n - 1, m);
      var picked := PickItem(kernel, NameEnv(), site, it, names, n - 1, t);
      if picked.sys.halted { StoppedAll(kernel, NameEnv(), prefix, site, l, picked); }
      var first := IterationsRun(kernel, prefix, site, l, it, names, n - 1, lists, items, length, m);
      PickRuns(kernel, prefix, site, it, names, n - 1, lists, items, length, t);
      var second := AllRun(kernel, prefix, site, l, lists, items, length, picked);
      var once := OrderAll(l, site, length);
      RanTogether(kernel, prefix, lists, items, length, m, t, picked, first, Repeated(n - 1, once), [], []);
      assert first + [] == first && Repeated(n - 1, once) + [] == Repeated(n - 1, once);
      RanTogether(kernel, prefix, lists, items, length, m, picked,
                  PerformAll(kernel, NameEnv(), prefix, site, l, picked), first, Repeated(n - 1, once), second, once);
      steps := first + second;
    }
  }

  lemma PickRuns<K(!new)>(kernel: Kernel<K>, prefix: string, site: Site, it: Iterate<string>, names: seq<string>,
        n: nat, lists: set<string>, items: set<string>, length: string -> nat, t: Machine<Names, K>)
    requires n < |names| && it.item !in lists && it.item in items && Lengths(t.store, lists, length)
    requires !PickItem(kernel, NameEnv(), site, it, names, n, t).sys.halted
    ensures Ran(kernel, prefix, lists, items, length, t, PickItem(kernel, NameEnv(), site, it, names, n, t), [], [])
  {
    var picked := PickItem(kernel, NameEnv(), site, it, names, n, t);
    forall x | x != it.item ensures NameValue(picked.store, x) == NameValue(t.store, x) {}
    assert forall x :: x in lists ==> HasLength(t.store, x, length(x));
  }

  lemma {:induction false} AllRun<K(!new)>(kernel: Kernel<K>, prefix: string, site: Site, l: seq<Instr<string>>,
        lists: set<string>, items: set<string>, length: string -> nat, m: Machine<Names, K>)
    returns (steps: seq<Step<K>>)
    requires AllSteady(l, lists, items) && AllThreadFree(l) && Lengths(m.store, lists, length)
    requires !PerformAll(kernel, NameEnv(), prefix, site, l, m).sys.halted
    ensures Ran(kernel, prefix, lists, items, length, m, PerformAll(kernel, NameEnv(), prefix, site, l, m), steps,
                OrderAll(l, site, length))
    decreases l, 0, 0
  {
    if l == [] {
      steps := [];
    } else {
      var front, last := l[..|l| - 1], l[|l| - 1];
      var t := PerformAll(kernel, NameEnv(), prefix, site, front, m);
      if t.sys.halted { StoppedPerform(kernel, NameEnv(), prefix, site + [|l| - 1], last, t); }
      var first := AllRun(kernel, prefix, site, front, lists, items, length, m);
      var second := PerformRuns(kernel, prefix, site + [|l| - 1], last, lists, items, length, t);
      RanTogether(kernel, prefix, lists, items, length, m, t,
                  Perform(kernel, NameEnv(), prefix, site + [|l| - 1], last, t), first,
                  OrderAll(front, site, length), second, Order(last, site + [|l| - 1], length));
      steps := first + second;
    }
  }

  // ---------------------------------------------------------------- how often each leaf runs

  function Count(order: seq<LeafCycle>, site: Site): nat {
    if order == [] then 0
    else Count(order[..|order| - 1], site) + if order[|order| - 1].site == site then 1 else 0
  }

  function Times(n: int, c: nat): nat {
    if n <= 0 then 0 else n * c
  }

  /**
   * The product of the repetitions and list lengths on the way from a tree to the leaf at `rel` in it; 0 if
   * there is no leaf.
   */
  function Multiplicity(i: Instr<string>, rel: Site, length: string -> nat): nat
    decreases i
  {
    Times(i.repeat,
      match i.body
      case InstructionSet(l, it) =>
        if rel == [] || rel[0] >= |l| then 0
        else Times(if it.Some? then length(it.value.list) else 1, Multiplicity(l[rel[0]], rel[1..], length))
      case _ => if rel == [] then 1 else 0)
  }

  lemma {:induction false} CountAppend(a: seq<LeafCycle>, b: seq<LeafCycle>, site: Site)
    ensures Count(a + b, site) == Count(a, site) + Count(b, site)
  {
    if b == [] {
      assert a + b == a;
    } else {
      CountAppend(a, b[..|b| - 1], site);
      assert (a + b)[..|a + b| - 1] == a + b[..|b| - 1];
    }
  }

  lemma {:induction false} CountRepeated(n: int, s: seq<LeafCycle>, site: Site)
    ensures Count(Repeated(n, s), site) == Times(n, Count(s, site))
  {
    if n > 0 {
      CountRepeated(n - 1, s, site);
      CountAppend(Repeated(n - 1, s), s, site);
      TimesStep(n, Count(s, site));
    }
  }

  lemma TimesStep(n: int, c: nat)
    requires n > 0
    ensures Times(n, c) == Times(n - 1, c) + c
  {
    assert n * c == (n - 1) * c + c;
  }

  lemma NoTimes(n: int)
    ensures Times(n, 0) == 0
  {}

  /** Every leaf of a tree has a site below that of the tree. */
  lemma {:induction false} NoneElsewhere(i: Instr<string>, site: Site, length: string -> nat, x: Site)
    requires !(site <= x)
    ensures Count(Order(i, site, length), x) == 0
    decreases i, 2
  {
    NoneOnce(i, site, length, x);
    CountRepeated(i.repeat, OrderOnce(i, site, length), x);
    NoTimes(i.repeat);
  }

  lemma {:induction false} NoneOnce(i: Instr<string>, site: Site, length: string -> nat, x: Site)
    requires !(site <= x)
    ensures Count(OrderOnce(i, site, length), x) == 0
    decreases i, 1
  {
    if i.body.InstructionSet? {
      var l := i.body.instructions;
      NoneOfAll(l, site, length, x);
      if i.body.iterate.Some? {
        var n := length(i.body.iterate.value.list);
        CountRepeated(n, OrderAll(l, site, length), x);
        NoTimes(n);
      }
    } else {
      CountOne(LeafCycle(site, i.body), x);
    }
  }

  lemma CountOne(c: LeafCycle, site: Site)
    ensures Count([c], site) == if c.site == site then 1 else 0
  {
    assert [c][..0] == [];
  }

  lemma Further(site: Site, n: nat, x: Site)
    ensures site + [n] <= x ==> site <= x
  {}

  lemma {:induction false} NoneOfAll(l: seq<Instr<string>>, site: Site, length: string -> nat, x: Site)
    requires !(site <= x)
    ensures Count(OrderAll(l, site, length), x) == 0
    decreases l, 0
  {
    if l != [] {
      var n := |l| - 1;
      NoneOfAll(l[..n], site, length, x);
      Further(site, n, x);
      NoneElsewhere(l[n], site + [n], length, x);
      CountAppend(OrderAll(l[..n], site, length), Order(l[n], site + [n], length), x);
    }
  }

  lemma {:induction false} CountOrder(i: Instr<string>, site: Site, rel: Site, length: string -> nat)
    ensures Count(Order(i, site, length), site + rel) == Multiplicity(i, rel, length)
    decreases i, 1
  {
    var x := site + rel;
    CountRepeated(i.repeat, OrderOnce(i, site, length), x);
    match i.body
    case InstructionSet(l, it) =>
      CountAll(l, site, rel, length);
      if it.Some? { CountRepeated(length(it.value.list), OrderAll(l, site, length), x); }
    case _ =>
      CountOne(LeafCycle(site, i.body), x);
      assert site == x <==> rel == [];
  }

  lemma {:induction false} CountAll(l: seq<Instr<string>>, site: Site, rel: Site, length: string -> nat)
    ensures Count(OrderAll(l, site, length), site + rel)
         == if rel == [] || rel[0] >= |l| then 0 else Multiplicity(l[rel[0]], rel[1..], length)
    decreases l, 0
  {
    if l != [] {
      var n := |l| - 1;
      CountAll(l[..n], site, rel, length);
      CountAppend(OrderAll(l[..n], site, length), Order(l[n], site + [n], length), site + rel);
      if rel != [] && rel[0] == n {
        assert site + rel == (site + [n]) + rel[1..];
        CountOrder(l[n], site + [n], rel[1..], length);
      } else {
        assert rel != [] ==> (site + rel)[|site|] == rel[0];
        NoneElsewhere(l[n], site + [n], length, site + rel);
      }
    }
  }

  /**
   * Nested repetitions multiply.  For any tree without threads that assigns none of the lists it
   * iterates over, and any kernel: a run that does not stop consists of the cycles of its leaves in the
   * order of the tree, and each leaf has as many as there are combinations of the repetitions and list
   * items above it.
   */
  lemma RepetitionsMultiply<K(!new)>(kernel: Kernel<K>, prefix: string, site: Site, i: Instr<string>,
        lists: set<string>, items: set<string>, length: string -> nat, m: Machine<Names, K>)
    returns (steps: seq<Step<K>>)
    requires Steady(i, lists, items) && Lengths(m.store, lists, length)
    ensures ThreadFree(i)
    ensures var t := Perform(kernel, NameEnv(), prefix, site, i, m);
            !t.sys.halted ==> Runs(kernel, prefix, items, m, t, steps) && Leaves(steps) == Order(i, site, length)
    ensures forall rel: Site :: Count(Order(i, site, length), site + rel) == Multiplicity(i, rel, length)
  {
    SteadyThreadFree(i, lists, items);
    if Perform(kernel, NameEnv(), prefix, site, i, m).sys.halted {
      steps := [];
    } else {
      steps := PerformRuns(kernel, prefix, site, i, lists, items, length, m);
    }
    forall rel: Site ensures Count(Order(i, site, length), site + rel) == Multiplicity(i, rel, length) {
      CountOrder(i, site, rel, length);
    }
  }
}
