/**
 * What executing compiled code can touch: it changes no slot that the code does not name, and it
 * depends on no other slot, but for the absolute path.
 */
module Footprint {
  import opened Common
  import opened Scopes
  import opened Workload
  import opened Factory
  import opened Interpreter
  import opened NameResolution
  import opened Siblings

  /** All variables of a thread-free tree are among `own`. */
  ghost predicate Within(i: Instr<nat>, own: iset<nat>)
    decreases i
  {
    && (forall k :: k in Refs(i.body) ==> k in own)
    && (i.body.InstructionSet? ==> forall x :: x in i.body.instructions ==> Within(x, own))
  }

  ghost predicate AllWithin(l: seq<Instr<nat>>, own: iset<nat>) {
    forall x :: x in l ==> Within(x, own)
  }

  lemma {:induction false} WithinMore(i: Instr<nat>, own: iset<nat>, more: iset<nat>)
    requires Within(i, own) && own <= more
    ensures Within(i, more)
    decreases i
  {
    if i.body.InstructionSet? {
      forall x | x in i.body.instructions ensures Within(x, more) { WithinMore(x, own, more); }
    }
  }

  /** The slots that occur in the code. */
  ghost function UsedBy(c: Instr<nat>): iset<nat> {
    iset k: nat | Uses(c, k)
  }

  lemma {:induction false} UsesWithin(c: Instr<nat>)
    requires ThreadFree(c)
    ensures Within(c, UsedBy(c))
    decreases c
  {
    if c.body.InstructionSet? {
      ChildrenLower(c);
      forall x | x in c.body.instructions ensures Within(x, UsedBy(c)) {
        UsesWithin(x);
        WithinMore(x, UsedBy(x), UsedBy(c));
      }
    }
  }

  // ---------------------------------------------------------------- the relations that execution keeps

  /** The same slots, but for those among `own`. */
  ghost predicate Elsewhere(own: iset<nat>, a: Slots, b: Slots) {
    |a| == |b| && forall k :: 0 <= k < |a| && k !in own ==> a[k] == b[k]
  }

  /** The same values in the slots among `own`. */
  ghost predicate Agree(own: iset<nat>, a: Slots, b: Slots) {
    |a| == |b| && forall k :: 0 <= k < |a| && k in own ==> a[k] == b[k]
  }

  /** Two machines that code over `own` cannot tell apart. */
  ghost predicate Alike<K(!new)>(own: iset<nat>, m: Machine<Slots, K>, n: Machine<Slots, K>) {
    m.sys == n.sys && Agree(own, m.store, n.store)
  }

  // ---------------------------------------------------------------- nothing else is changed

  lemma LeafKeeps<K(!new)>(kernel: Kernel<K>, abs: nat, site: Site, b: Body<nat>, own: iset<nat>, m: Machine<Slots, K>)
    requires !b.InstructionSet? && !b.Multithreading? && forall k :: k in Refs(b) ==> k in own
    ensures Elsewhere(own, m.store, Leaf(kernel, SlotEnv(abs), "", site, b, m).store)
  {
    if b.OpenFile? && b.output.Some? { assert Refs(b)[0] == b.output.value; }
    if b.ReadDirectory? { assert Refs(b)[0] == b.outputList; }
  }

  lemma {:induction false} PerformKeeps<K(!new)>(kernel: Kernel<K>, abs: nat, site: Site, i: Instr<nat>,
                                                 own: iset<nat>, m: Machine<Slots, K>)
    requires ThreadFree(i) && Within(i, own)
    ensures Elsewhere(own, m.store, Perform(kernel, SlotEnv(abs), "", site, i, m).store)
    decreases i, 4, 0
  {
    RoundsKeep(kernel, abs, site, i, i.repeat, own, m.(sys := SetUpRound(kernel, site, i.body, m.sys)));
  }

  lemma {:induction false} RoundsKeep<K(!new)>(kernel: Kernel<K>, abs: nat, site: Site, i: Instr<nat>, n: int,
                                               own: iset<nat>, m: Machine<Slots, K>)
    requires ThreadFree(i) && Within(i, own)
    ensures Elsewhere(own, m.store, Rounds(kernel, SlotEnv(abs), "", site, i, n, m).store)
    decreases i, 3, n
  {
    if n > 0 {
      RoundsKeep(kernel, abs, site, i, n - 1, own, m);
      CycleKeeps(kernel, abs, site, i, own, Rounds(kernel, SlotEnv(abs), "", site, i, n - 1, m));
    }
  }

  lemma {:induction false} CycleKeeps<K(!new)>(kernel: Kernel<K>, abs: nat, site: Site, i: Instr<nat>,
                                               own: iset<nat>, m: Machine<Slots, K>)
    requires ThreadFree(i) && Within(i, own)
    ensures Elsewhere(own, m.store, Cycle(kernel, SlotEnv(abs), "", site, i, m).store)
    decreases i, 2, 0
  {
    if !m.sys.halted {
      match i.body
      case InstructionSet(l, None) => AllKeep(kernel, abs, site, l, own, m);
      case InstructionSet(l, Some(it)) =>
        assert it.item == Refs(i.body)[1];
        var m1 := if it.reseeding.EachCycle? then m.(sys := Ask(kernel, m.sys, Seed(site, it.seed)).0) else m;
        if it.list < |m.store| && m.store[it.list].ListValue? {
          var names := m.store[it.list].l;
          IterationsKeep(kernel, abs, site, l, it, names, |names|, own, m1);
        }
      case _ => LeafKeeps(kernel, abs, site, i.body, own, m);
    }
  }

  lemma {:induction false} IterationsKeep<K(!new)>(kernel: Kernel<K>, abs: nat, site: Site, l: seq<Instr<nat>>,
        it: Iterate<nat>, names: seq<string>, n: nat, own: iset<nat>, m: Machine<Slots, K>)
    requires AllThreadFree(l) && AllWithin(l, own) && it.item in own && n <= |names|
    ensures Elsewhere(own, m.store, Iterations(kernel, SlotEnv(abs), "", site, l, it, names, n, m).store)
    decreases l, 1, n
  {
    if n > 0 {
      IterationsKeep(kernel, abs, site, l, it, names, n - 1, own, m);
      var t := Iterations(kernel, SlotEnv(abs), "", site, l, it, names, n - 1, m);
      var picked := PickItem(kernel, SlotEnv(abs), site, it, names, n - 1, t);
      assert Elsewhere(own, t.store, picked.store);
      AllKeep(kernel, abs, site, l, own, picked);
    }
  }

  lemma {:induction false} AllKeep<K(!new)>(kernel: Kernel<K>, abs: nat, site: Site, l: seq<Instr<nat>>,
                                            own: iset<nat>, m: Machine<Slots, K>)
    requires AllThreadFree(l) && AllWithin(l, own)
    ensures Elsewhere(own, m.store, PerformAll(kernel, SlotEnv(abs), "", site, l, m).store)
    decreases l, 0, 0
  {
    if l != [] {
      AllKeep(kernel, abs, site, l[..|l| - 1], own, m);
      PerformKeeps(kernel, abs, site + [|l| - 1], l[|l| - 1], own,
                   PerformAll(kernel, SlotEnv(abs), "", site, l[..|l| - 1], m));
    }
  }

  // ---------------------------------------------------------------- nothing else matters

  lemma SetDepends<K(!new)>(abs: nat, own: iset<nat>, k: nat, v: Value, m: Machine<Slots, K>, n: Machine<Slots, K>)
    requires Alike(own, m, n) && k in own
    ensures Alike(own, SetVar(SlotEnv(abs), m, k, v), SetVar(SlotEnv(abs), n, k, v))
  {}

  lemma GetDepends<K(!new)>(abs: nat, own: iset<nat>, k: nat, m: Machine<Slots, K>, n: Machine<Slots, K>)
    requires Alike(own, m, n) && k in own
    ensures SlotEnv(abs).get(m.store, k) == SlotEnv(abs).get(n.store, k)
  {}

  lemma LeafDepends<K(!new)>(kernel: Kernel<K>, abs: nat, site: Site, b: Body<nat>, own: iset<nat>,
                             m: Machine<Slots, K>, n: Machine<Slots, K>)
    requires !b.InstructionSet? && !b.Multithreading? && abs in own && forall k :: k in Refs(b) ==> k in own
    requires Alike(own, m, n)
    ensures Alike(own, Leaf(kernel, SlotEnv(abs), "", site, b, m), Leaf(kernel, SlotEnv(abs), "", site, b, n))
  {
    GetDepends(abs, own, abs, m, n);
    forall k | k in Refs(b) ensures SlotEnv(abs).get(m.store, k) == SlotEnv(abs).get(n.store, k) {
      GetDepends(abs, own, k, m, n);
    }
    match b
    case OpenFile(file, output, flags) => OpenDepends(kernel, abs, site, file, output, flags, own, m, n);
    case DeleteFile(file) => assert file.Input? ==> file.v == Refs(b)[0];
    case ReadDirectory(directory, output) =>
      assert output == Refs(b)[0];
      var (s, reply) := Ask(kernel, m.sys, ListDirectory("" + directory));
      SetDepends(abs, own, output, ListValue(Listing("" + directory, reply.entries)), m.(sys := s), n.(sys := s));
    case _ =>
  }

  lemma OpenDepends<K(!new)>(kernel: Kernel<K>, abs: nat, site: Site, file: FileName<nat>, output: Option<nat>,
                             flags: OpenFlags, own: iset<nat>, m: Machine<Slots, K>, n: Machine<Slots, K>)
    requires abs in own && (file.Input? ==> file.v in own) && (output.Some? ==> output.value in own)
    requires Alike(own, m, n)
    ensures Alike(own, Leaf(kernel, SlotEnv(abs), "", site, OpenFile(file, output, flags), m),
                  Leaf(kernel, SlotEnv(abs), "", site, OpenFile(file, output, flags), n))
  {
    GetDepends(abs, own, abs, m, n);
    if file.Input? { GetDepends(abs, own, file.v, m, n); }
    var (path, s) := PathOf(kernel, SlotEnv(abs), "", site, file, m);
    assert (path, s) == PathOf(kernel, SlotEnv(abs), "", site, file, n);
    if path.Some? && output.Some? {
      var (s1, reply) := Ask(kernel, s, Open(path.value, flags));
      SetDepends(abs, own, output.value, IntValue(reply.number), m.(sys := s1), n.(sys := s1));
    }
  }

  lemma {:induction false} PerformDepends<K(!new)>(kernel: Kernel<K>, abs: nat, site: Site, i: Instr<nat>,
        own: iset<nat>, m: Machine<Slots, K>, n: Machine<Slots, K>)
    requires ThreadFree(i) && Within(i, own) && abs in own && Alike(own, m, n)
    ensures Alike(own, Perform(kernel, SlotEnv(abs), "", site, i, m), Perform(kernel, SlotEnv(abs), "", site, i, n))
    decreases i, 4, 0
  {
    var s := SetUpRound(kernel, site, i.body, m.sys);
    RoundsDepend(kernel, abs, site, i, i.repeat, own, m.(sys := s), n.(sys := s));
  }

  lemma {:induction false} RoundsDepend<K(!new)>(kernel: Kernel<K>, abs: nat, site: Site, i: Instr<nat>, k: int,
        own: iset<nat>, m: Machine<Slots, K>, n: Machine<Slots, K>)
    requires ThreadFree(i) && Within(i, own) && abs in own && Alike(own, m, n)
    ensures Alike(own, Rounds(kernel, SlotEnv(abs), "", site, i, k, m), Rounds(kernel, SlotEnv(abs), "", site, i, k, n))
    decreases i, 3, k
  {
    if k > 0 {
      RoundsDepend(kernel, abs, site, i, k - 1, own, m, n);
      CycleDepends(kernel, abs, site, i, own, Rounds(kernel, SlotEnv(abs), "", site, i, k - 1, m),
                   Rounds(kernel, SlotEnv(abs), "", site, i, k - 1, n));
    }
  }

  lemma {:induction false} CycleDepends<K(!new)>(kernel: Kernel<K>, abs: nat, site: Site, i: Instr<nat>,
        own: iset<nat>, m: Machine<Slots, K>, n: Machine<Slots, K>)
    requires ThreadFree(i) && Within(i, own) && abs in own && Alike(own, m, n)
    ensures Alike(own, Cycle(kernel, SlotEnv(abs), "", site, i, m), Cycle(kernel, SlotEnv(abs), "", site, i, n))
    decreases i, 2, 0
  {
    if !m.sys.halted {
      match i.body
      case InstructionSet(l, None) => AllDepend(kernel, abs, site, l, own, m, n);
      case InstructionSet(l, Some(it)) =>
        assert it.list == Refs(i.body)[0] && it.item == Refs(i.body)[1];
        var s := if it.reseeding.EachCycle? then Ask(kernel, m.sys, Seed(site, it.seed)).0 else m.sys;
        GetDepends(abs, own, it.list, m, n);
        if it.list < |m.store| && m.store[it.list].ListValue? {
          var names := m.store[it.list].l;
          IterationsDepend(kernel, abs, site, l, it, names, |names|, own, m.(sys := s), n.(sys := s));
        }
      case _ => LeafDepends(kernel, abs, site, i.body, own, m, n);
    }
  }

  lemma {:induction false} IterationsDepend<K(!new)>(kernel: Kernel<K>, abs: nat, site: Site, l: seq<Instr<nat>>,
        it: Iterate<nat>, names: seq<string>, k: nat, own: iset<nat>, m: Machine<Slots, K>, n: Machine<Slots, K>)
    requires AllThreadFree(l) && AllWithin(l, own) && it.item in own && k <= |names| && abs in own && Alike(own, m, n)
    ensures Alike(own, Iterations(kernel, SlotEnv(abs), "", site, l, it, names, k, m),
                  Iterations(kernel, SlotEnv(abs), "", site, l, it, names, k, n))
    decreases l, 1, k
  {
    if k > 0 {
      IterationsDepend(kernel, abs, site, l, it, names, k - 1, own, m, n);
      var m1 := Iterations(kernel, SlotEnv(abs), "", site, l, it, names, k - 1, m);
      var n1 := Iterations(kernel, SlotEnv(abs), "", site, l, it, names, k - 1, n);
      PickDepends(kernel, abs, site, it, names, k - 1, own, m1, n1);
      AllDepend(kernel, abs, site, l, own, PickItem(kernel, SlotEnv(abs), site, it, names, k - 1, m1),
                PickItem(kernel, SlotEnv(abs), site, it, names, k - 1, n1));
    }
  }

  lemma PickDepends<K(!new)>(kernel: Kernel<K>, abs: nat, site: Site, it: Iterate<nat>, names: seq<string>, k: nat,
                             own: iset<nat>, m: Machine<Slots, K>, n: Machine<Slots, K>)
    requires it.item in own && k < |names| && Alike(own, m, n)
    ensures Alike(own, PickItem(kernel, SlotEnv(abs), site, it, names, k, m),
                  PickItem(kernel, SlotEnv(abs), site, it, names, k, n))
  {
    var (s, reply) := Ask(kernel, m.sys, Draw(site, 0, ToInt(|names| - 1)));
    SetDepends(abs, own, it.item, StringValue(names[k]), m, n);
    if 0 <= reply.number < |names| {
      SetDepends(abs, own, it.item, StringValue(names[reply.number]), m.(sys := s), n.(sys := s));
    }
  }

  lemma {:induction false} AllDepend<K(!new)>(kernel: Kernel<K>, abs: nat, site: Site, l: seq<Instr<nat>>,
        own: iset<nat>, m: Machine<Slots, K>, n: Machine<Slots, K>)
    requires AllThreadFree(l) && AllWithin(l, own) && abs in own && Alike(own, m, n)
    ensures Alike(own, PerformAll(kernel, SlotEnv(abs), "", site, l, m),
                  PerformAll(kernel, SlotEnv(abs), "", site, l, n))
    decreases l, 0, 0
  {
    if l != [] {
      var front := l[..|l| - 1];
      AllDepend(kernel, abs, site, front, own, m, n);
      PerformDepends(kernel, abs, site + [|front|], l[|front|], own,
                     PerformAll(kernel, SlotEnv(abs), "", site, front, m),
                     PerformAll(kernel, SlotEnv(abs), "", site, front, n));
    }
  }

  // ---------------------------------------------------------------- main results

  /**
   * The footprint of compiled code.  Executing it keeps the length of the variable vector and every slot
   * that it does not name; and where two stores agree on the slots it names and on the absolute path, it
   * makes the same calls from both and leaves the same values in those slots.
   */
  lemma Executes<K(!new)>(kernel: Kernel<K>, abs: nat, site: Site, c: Instr<nat>, m: Machine<Slots, K>, other: Slots)
    requires ThreadFree(c)
    ensures var ran := Perform(kernel, SlotEnv(abs), "", site, c, m);
            && |ran.store| == |m.store|
            && forall k :: 0 <= k < |m.store| && !Uses(c, k) ==> ran.store[k] == m.store[k]
    ensures |other| == |m.store| && abs < |other| && other[abs] == m.store[abs]
              && (forall k :: 0 <= k < |other| && Uses(c, k) ==> other[k] == m.store[k]) ==>
            var ran := Perform(kernel, SlotEnv(abs), "", site, c, m);
            var same := Perform(kernel, SlotEnv(abs), "", site, c, m.(store := other));
            && same.sys == ran.sys && |same.store| == |ran.store|
            && forall k :: 0 <= k < |other| && (Uses(c, k) || k == abs) ==> same.store[k] == ran.store[k]
  {
    UsesWithin(c);
    PerformKeeps(kernel, abs, site, c, UsedBy(c), m);
    var own := UsedBy(c) + iset{abs};
    WithinMore(c, UsedBy(c), own);
    if Agree(own, m.store, other) {
      PerformDepends(kernel, abs, site, c, own, m, m.(store := other));
    }
  }

  /**
   * So threads that `multithreading` spawned do not disturb each other: executing the code of one leaves
   * every slot that the code of another uses and that no common ancestor binds.
   */
  lemma SiblingsUndisturbed<K(!new)>(t: Tables, prefix: string, path: Path, l: seq<Instr<string>>, bound: nat,
        kernel: Kernel<K>, abs: nat, site: Site, i: nat, j: nat, k: nat, m: Machine<Slots, K>)
    requires Inv(t) && Registered(t, path) && i < |l| && j < |l| && i != j && k < |m.store|
    requires forall x :: x in l ==> Height(x) < bound
    requires ThreadFree(CompileAll(t, prefix, path, l, true, bound).0[j])
    requires Uses(CompileAll(t, prefix, path, l, true, bound).0[i], k)
    requires !Shared(CompileAll(t, prefix, path, l, true, bound).1, path, k)
    ensures var ran := Perform(kernel, SlotEnv(abs), "", site, CompileAll(t, prefix, path, l, true, bound).0[j], m);
            |ran.store| == |m.store| && ran.store[k] == m.store[k]
  {
    var c := CompileAll(t, prefix, path, l, true, bound).0[j];
    Executes(kernel, abs, site, c, m, m.store);
    if Uses(c, k) { SiblingsShareOnlyAncestors(t, prefix, path, l, bound, i, j, k); }
  }
}
