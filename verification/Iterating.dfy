/**
 * What a set does that iterates over a list: which items it picks, whatever its body does, and what
 * it performs for each of them.
 */
module Iterating {
  import opened Common
  import opened Workload
  import opened Interpreter
  import opened NameResolution
  import opened ReadWriteFile

  // ---------------------------------------------------------------- whose generator it is

  /** `g` is the state of the generator of the instruction at `site`; only its own calls change it. */
  ghost predicate Owned<K(!new), G(!new)>(kernel: Kernel<K>, gen: Generator<G>, site: Site, g: K -> G) {
    forall k: K, call: Call :: OwnedAnswers(kernel, gen, site, g, k, call)
  }

  ghost predicate OwnedAnswers<K, G>(kernel: Kernel<K>, gen: Generator<G>, site: Site, g: K -> G, k: K, call: Call) {
    var (after, reply) := kernel(k, call);
    match call
    case Seed(s, x) => g(after) == if s == site then gen.seeded(x) else g(k)
    case Draw(s, low, high) =>
      if s == site then (reply.number, g(after)) == gen.draw(g(k), low, high) else g(after) == g(k)
    case _ => g(after) == g(k)
  }

  predicate Uses(call: Call, site: Site) {
    (call.Seed? || call.Draw?) && call.site == site
  }

  lemma AskKeeps<K(!new), G(!new)>(kernel: Kernel<K>, gen: Generator<G>, site: Site, g: K -> G, s: Sys<K>, call: Call)
    requires Owned(kernel, gen, site, g) && !Uses(call, site)
    ensures g(Ask(kernel, s, call).0.kernel) == g(s.kernel)
  {
    assert OwnedAnswers(kernel, gen, site, g, s.kernel, call);
  }

  lemma {:induction false} TransferKeeps<K(!new), G(!new)>(kernel: Kernel<K>, gen: Generator<G>, site: Site, g: K -> G,
        write: bool, fd: int, units: seq<BlockPlan.Unit>, s: Sys<K>)
    requires Owned(kernel, gen, site, g)
    ensures g(Transfer(kernel, write, fd, units, s).kernel) == g(s.kernel)
  {
    if units != [] {
      var front, u := units[..|units| - 1], units[|units| - 1];
      TransferKeeps(kernel, gen, site, g, write, fd, front, s);
      AskKeeps(kernel, gen, site, g, Transfer(kernel, write, fd, front, s), PWrite(fd, u.count, u.offset));
      AskKeeps(kernel, gen, site, g, Transfer(kernel, write, fd, front, s), PRead(fd, u.count, u.offset));
    }
  }

  lemma {:induction false} RandomPlanKeeps<K(!new), G(!new)>(kernel: Kernel<K>, gen: Generator<G>, owner: Site,
        g: K -> G, site: Site, block: int, high: int, n: nat, s: Sys<K>)
    requires Owned(kernel, gen, owner, g) && site != owner
    ensures g(RandomPlan(kernel, site, block, high, n, s).1.kernel) == g(s.kernel)
  {
    if n > 0 {
      RandomPlanKeeps(kernel, gen, owner, g, site, block, high, n - 1, s);
      AskKeeps(kernel, gen, owner, g, RandomPlan(kernel, site, block, high, n - 1, s).1, Draw(site, 0, high));
    }
  }

  lemma PlanKeeps<K(!new), G(!new)>(kernel: Kernel<K>, gen: Generator<G>, owner: Site, g: K -> G, site: Site, fd: int,
        rw: RwParams, s: Sys<K>)
    requires Owned(kernel, gen, owner, g) && site != owner
    ensures g(Plan(kernel, site, fd, rw, s).1.kernel) == g(s.kernel)
  {
    AskKeeps(kernel, gen, owner, g, s, FStat(fd));
    var (s1, stat) := Ask(kernel, s, FStat(fd));
    AskKeeps(kernel, gen, owner, g, s1, Seed(site, rw.seed));
    var s2 := if rw.reseeding.EachCycle? then Ask(kernel, s1, Seed(site, rw.seed)).0 else s1;
    var size := if rw.size == -1 then stat.number else rw.size;
    var block := if rw.blockSize == -1 then stat.number else rw.blockSize;
    if block > 0 {
      var n := BlockPlan.UnitCount(size, block);
      RandomPlanKeeps(kernel, gen, owner, g, site, block, ToInt(stat.number - block), n, s2);
    }
  }

  lemma FileKeeps<K(!new), G(!new)>(kernel: Kernel<K>, gen: Generator<G>, owner: Site, g: K -> G, site: Site, fd: int,
        rw: RwParams, fsync: bool, advice: int, s: Sys<K>)
    requires Owned(kernel, gen, owner, g) && site != owner
    ensures g(RunWrite(kernel, site, fd, rw, fsync, s).kernel) == g(s.kernel)
    ensures g(RunRead(kernel, site, fd, rw, advice, s).kernel) == g(s.kernel)
  {
    PlanKeeps(kernel, gen, owner, g, site, fd, rw, s);
    var (units, s1) := Plan(kernel, site, fd, rw, s);
    TransferKeeps(kernel, gen, owner, g, true, fd, units, s1);
    AskKeeps(kernel, gen, owner, g, Transfer(kernel, true, fd, units, s1), FSync(fd));
    AskKeeps(kernel, gen, owner, g, s, FStat(fd));
    var (r1, stat) := Ask(kernel, s, FStat(fd));
    AskKeeps(kernel, gen, owner, g, r1, FAdvise(fd, stat.number, advice));
    var r2 := if stat.number == -1 then Halt(r1) else Require(kernel, r1, FAdvise(fd, stat.number, advice), IsZero);
    PlanKeeps(kernel, gen, owner, g, site, fd, rw, r2);
    var (planned, r3) := Plan(kernel, site, fd, rw, r2);
    TransferKeeps(kernel, gen, owner, g, false, fd, planned, r3);
  }

  lemma ResizeKeeps<K(!new), G(!new)>(kernel: Kernel<K>, gen: Generator<G>, owner: Site, g: K -> G, fd: int,
        size: int, s: Sys<K>)
    requires Owned(kernel, gen, owner, g)
    ensures g(RunResize(kernel, fd, size, s).kernel) == g(s.kernel)
  {
    AskKeeps(kernel, gen, owner, g, s, FStat(fd));
    var s1 := Ask(kernel, s, FStat(fd)).0;
    AskKeeps(kernel, gen, owner, g, s1, FAllocate(fd, size));
    AskKeeps(kernel, gen, owner, g, s1, FTruncate(fd, size));
  }

  lemma DrawSizeKeeps<K(!new), G(!new)>(kernel: Kernel<K>, gen: Generator<G>, owner: Site, g: K -> G, site: Site,
                                        min: int, max: int, seed: int, reseeding: Reseeding, s: Sys<K>)
    requires Owned(kernel, gen, owner, g) && site != owner
    ensures g(DrawSize(kernel, site, min, max, seed, reseeding, s).1.kernel) == g(s.kernel)
  {
    AskKeeps(kernel, gen, owner, g, s, Seed(site, seed));
    var s1 := if reseeding.EachCycle? then Ask(kernel, s, Seed(site, seed)).0 else s;
    AskKeeps(kernel, gen, owner, g, s1, Draw(site, ToInt(min), ToInt(max)));
  }

  /** Opening and deleting files. */
  lemma NamedKeeps<K(!new), G(!new)>(kernel: Kernel<K>, gen: Generator<G>, owner: Site, g: K -> G, prefix: string,
                                     site: Site, b: Body<string>, m: Machine<Names, K>)
    requires Owned(kernel, gen, owner, g) && site != owner && (b.OpenFile? || b.DeleteFile?)
    ensures g(Leaf(kernel, NameEnv(), prefix, site, b, m).sys.kernel) == g(m.sys.kernel)
  {
    var file: FileName<string> := if b.OpenFile? then b.file else b.target;
    var (path, s) := PathOf(kernel, NameEnv(), prefix, site, file, m);
    match GetString(NameEnv(), m.store, ABSOLUTE_PATH) {
      case None =>
      case Some(base) => AskKeeps(kernel, gen, owner, g, m.sys, UnusedName(site, base));
    }
    assert g(s.kernel) == g(m.sys.kernel);
    if path.Some? {
      if b.OpenFile? { AskKeeps(kernel, gen, owner, g, s, Open(path.value, b.flags)); }
      AskKeeps(kernel, gen, owner, g, s, Unlink(path.value));
    }
  }

  lemma LeafKeeps<K(!new), G(!new)>(kernel: Kernel<K>, gen: Generator<G>, owner: Site, g: K -> G, prefix: string,
                                    site: Site, b: Body<string>, m: Machine<Names, K>)
    requires Owned(kernel, gen, owner, g) && site != owner && !b.InstructionSet? && !b.Multithreading?
    ensures g(Leaf(kernel, NameEnv(), prefix, site, b, m).sys.kernel) == g(m.sys.kernel)
  {
    match b
    case OpenFile(_, _, _) => NamedKeeps(kernel, gen, owner, g, prefix, site, b, m);
    case DeleteFile(_) => NamedKeeps(kernel, gen, owner, g, prefix, site, b, m);
    case ReadDirectory(directory, _) => AskKeeps(kernel, gen, owner, g, m.sys, ListDirectory(prefix + directory));
    case Lock(_) => AskKeeps(kernel, gen, owner, g, m.sys, LockMutex);
    case Unlock(_) => AskKeeps(kernel, gen, owner, g, m.sys, UnlockMutex);
    case NoVariables(work) => AskKeeps(kernel, gen, owner, g, m.sys, Work(site, work));
    case _ => FdKeeps(kernel, gen, owner, g, prefix, site, b, m);
  }

  lemma FdKeeps<K(!new), G(!new)>(kernel: Kernel<K>, gen: Generator<G>, owner: Site, g: K -> G, prefix: string,
                                  site: Site, b: Body<string>, m: Machine<Names, K>)
    requires Owned(kernel, gen, owner, g) && site != owner
    requires b.CloseFile? || b.ResizeFile? || b.ResizeFileRandom? || b.WriteFile? || b.ReadFile?
    ensures g(Leaf(kernel, NameEnv(), prefix, site, b, m).sys.kernel) == g(m.sys.kernel)
  {
    var fd := GetInt(NameEnv(), m.store, b.fd);
    if b.ResizeFileRandom? {
      DrawSizeKeeps(kernel, gen, owner, g, site, b.min, b.max, b.seed, b.reseeding, m.sys);
      var (size, s) := DrawSize(kernel, site, b.min, b.max, b.seed, b.reseeding, m.sys);
      if fd.Some? { ResizeKeeps(kernel, gen, owner, g, fd.value, size, s); }
    } else if fd.Some? {
      match b
      case CloseFile(_) => AskKeeps(kernel, gen, owner, g, m.sys, Close(fd.value));
      case ResizeFile(_, size) => ResizeKeeps(kernel, gen, owner, g, fd.value, size, m.sys);
      case WriteFile(_, rw, fsync) => FileKeeps(kernel, gen, owner, g, site, fd.value, rw, fsync, 0, m.sys);
      case ReadFile(_, rw, advice) => FileKeeps(kernel, gen, owner, g, site, fd.value, rw, false, advice, m.sys);
      case _ =>
    }
  }

  /** Performing any tree further down leaves the generator alone. */
  lemma {:induction false} PerformKeeps<K(!new), G(!new)>(kernel: Kernel<K>, gen: Generator<G>, owner: Site, g: K -> G,
        prefix: string, site: Site, i: Instr<string>, m: Machine<Names, K>)
    requires Owned(kernel, gen, owner, g) && |owner| < |site| && ThreadFree(i)
    ensures g(Perform(kernel, NameEnv(), prefix, site, i, m).sys.kernel) == g(m.sys.kernel)
    decreases i, 4, 0
  {
    forall x ensures g(Ask(kernel, m.sys, Seed(site, x)).0.kernel) == g(m.sys.kernel) {
      AskKeeps(kernel, gen, owner, g, m.sys, Seed(site, x));
    }
    RoundsKeep(kernel, gen, owner, g, prefix, site, i, i.repeat, m.(sys := SetUpRound(kernel, site, i.body, m.sys)));
  }

  lemma {:induction false} RoundsKeep<K(!new), G(!new)>(kernel: Kernel<K>, gen: Generator<G>, owner: Site, g: K -> G,
        prefix: string, site: Site, i: Instr<string>, n: int, m: Machine<Names, K>)
    requires Owned(kernel, gen, owner, g) && |owner| < |site| && ThreadFree(i)
    ensures g(Interpreter.Rounds(kernel, NameEnv(), prefix, site, i, n, m).sys.kernel) == g(m.sys.kernel)
    decreases i, 3, n
  {
    if n > 0 {
      RoundsKeep(kernel, gen, owner, g, prefix, site, i, n - 1, m);
      var before := Interpreter.Rounds(kernel, NameEnv(), prefix, site, i, n - 1, m);
      CycleKeeps(kernel, gen, owner, g, prefix, site, i, before);
    }
  }

  lemma {:induction false} CycleKeeps<K(!new), G(!new)>(kernel: Kernel<K>, gen: Generator<G>, owner: Site, g: K -> G,
        prefix: string, site: Site, i: Instr<string>, m: Machine<Names, K>)
    requires Owned(kernel, gen, owner, g) && |owner| < |site| && ThreadFree(i)
    ensures g(Cycle(kernel, NameEnv(), prefix, site, i, m).sys.kernel) == g(m.sys.kernel)
    decreases i, 2, 0
  {
    if i.body.InstructionSet? {
      var l := i.body.instructions;
      if i.body.iterate.None? {
        AllKeep(kernel, gen, owner, g, prefix, site, l, m);
      } else {
        var it := i.body.iterate.value;
        AskKeeps(kernel, gen, owner, g, m.sys, Seed(site, it.seed));
        var m1 := if it.reseeding.EachCycle? then m.(sys := Ask(kernel, m.sys, Seed(site, it.seed)).0) else m;
        var list := NameValue(m.store, it.list);
        if list.ListValue? { IterationsKeep(kernel, gen, owner, g, prefix, site, l, it, list.l, |list.l|, m1); }
      }
    } else if !i.body.Multithreading? {
      LeafKeeps(kernel, gen, owner, g, prefix, site, i.body, m);
    }
  }

  lemma {:induction false} IterationsKeep<K(!new), G(!new)>(kernel: Kernel<K>, gen: Generator<G>, owner: Site,
        g: K -> G, prefix: string, site: Site, l: seq<Instr<string>>, it: Iterate<string>, names: seq<string>, n: nat,
        m: Machine<Names, K>)
    requires Owned(kernel, gen, owner, g) && |owner| < |site| && AllThreadFree(l) && n <= |names|
    ensures g(Iterations(kernel, NameEnv(), prefix, site, l, it, names, n, m).sys.kernel) == g(m.sys.kernel)
    decreases l, 1, n
  {
    if n > 0 {
      IterationsKeep(kernel, gen, owner, g, prefix, site, l, it, names, n - 1, m);
      var t := Iterations(kernel, NameEnv(), prefix, site, l, it, names, n - 1, m);
      AskKeeps(kernel, gen, owner, g, t.sys, Draw(site, 0, ToInt(|names| - 1)));
      AllKeep(kernel, gen, owner, g, prefix, site, l, PickItem(kernel, NameEnv(), site, it, names, n - 1, t));
    }
  }

  lemma {:induction false} AllKeep<K(!new), G(!new)>(kernel: Kernel<K>, gen: Generator<G>, owner: Site, g: K -> G,
        prefix: string, site: Site, l: seq<Instr<string>>, m: Machine<Names, K>)
    requires Owned(kernel, gen, owner, g) && |owner| <= |site| && AllThreadFree(l)
    ensures g(PerformAll(kernel, NameEnv(), prefix, site, l, m).sys.kernel) == g(m.sys.kernel)
    decreases l, 0, 0
  {
    if l != [] {
      AllKeep(kernel, gen, owner, g, prefix, site, l[..|l| - 1], m);
      PerformKeeps(kernel, gen, owner, g, prefix, site + [|l| - 1], l[|l| - 1],
                   PerformAll(kernel, NameEnv(), prefix, site, l[..|l| - 1], m));
    }
  }

  // ---------------------------------------------------------------- iterating over a list

  /** The names that n iterations pick, and the generator state after them. */
  function Picked<G>(gen: Generator<G>, order: Order, g: G, names: seq<string>, n: nat): (seq<string>, G)
    requires n <= |names|
  {
    if n == 0 then ([], g)
    else
      var (before, g1) := Picked(gen, order, g, names, n - 1);
      if order.Sequential? then (before + [names[n - 1]], g1)
      else
        var (x, g2) := gen.draw(g1, 0, ToInt(|names| - 1));
        (if 0 <= x < |names| then before + [names[x]] else before, g2)
  }

  /** In list order every name is picked once. */
  lemma {:induction false} SequentialPicksAll<G>(gen: Generator<G>, g: G, names: seq<string>, n: nat)
    requires n <= |names|
    ensures Picked(gen, Sequential, g, names, n) == (names[..n], g)
  {
    if n > 0 {
      SequentialPicksAll(gen, g, names, n - 1);
      assert names[..n - 1] + [names[n - 1]] == names[..n];
    }
  }

  /** The generator state in which a cycle of an iterating set begins. */
  function CycleStart<G>(gen: Generator<G>, it: Iterate<string>, g: G): G {
    if it.reseeding.EachCycle? then gen.seeded(it.seed) else g
  }

  /** From `before`: one draw if the order is random, then the body with the item variable set. */
  ghost predicate PerformsItem<K>(kernel: Kernel<K>, prefix: string, site: Site, l: seq<Instr<string>>,
        it: Iterate<string>, count: nat, before: Machine<Names, K>, item: string, after: Machine<Names, K>)
    requires AllThreadFree(l)
  {
    var sys := if it.order.Sequential? then before.sys else Ask(kernel, before.sys, Draw(site, 0, ToInt(count - 1))).0;
    var begin := Machine(before.store[it.item := StringValue(item)], sys);
    after == PerformAll(kernel, NameEnv(), prefix, site, l, begin)
  }

  lemma {:induction false} StoppedIterations<K(!new)>(kernel: Kernel<K>, prefix: string, site: Site,
        l: seq<Instr<string>>, it: Iterate<string>, names: seq<string>, n: nat, m: Machine<Names, K>)
    requires AllThreadFree(l) && n <= |names| && m.sys.halted
    ensures Iterations(kernel, NameEnv(), prefix, site, l, it, names, n, m) == m
  {
    if n > 0 {
      StoppedIterations(kernel, prefix, site, l, it, names, n - 1, m);
      StoppedAll(kernel, NameEnv(), prefix, site, l, m);
    }
  }

  /** One more item, in a run that does not stop. */
  lemma OneMoreItem<K(!new), G(!new)>(kernel: Kernel<K>, gen: Generator<G>, g: K -> G, prefix: string, site: Site,
        l: seq<Instr<string>>, it: Iterate<string>, names: seq<string>, n: nat, t: Machine<Names, K>)
    returns (item: string)
    requires Owned(kernel, gen, site, g) && AllThreadFree(l) && n < |names| && !t.sys.halted
    requires var picked := PickItem(kernel, NameEnv(), site, it, names, n, t);
             !PerformAll(kernel, NameEnv(), prefix, site, l, picked).sys.halted
    ensures var u := PerformAll(kernel, NameEnv(), prefix, site, l, PickItem(kernel, NameEnv(), site, it, names, n, t));
            && PerformsItem(kernel, prefix, site, l, it, |names|, t, item, u)
            && if it.order.Sequential? then item == names[n] && g(u.sys.kernel) == g(t.sys.kernel)
               else var (x, after) := gen.draw(g(t.sys.kernel), 0, ToInt(|names| - 1));
                    0 <= x < |names| && item == names[x] && g(u.sys.kernel) == after
  {
    var picked := PickItem(kernel, NameEnv(), site, it, names, n, t);
    if picked.sys.halted { StoppedAll(kernel, NameEnv(), prefix, site, l, picked); }
    AllKeep(kernel, gen, site, g, prefix, site, l, picked);
    item := names[n];
    if it.order.Random? {
      var call := Draw(site, 0, ToInt(|names| - 1));
      assert OwnedAnswers(kernel, gen, site, g, t.sys.kernel, call);
      var (s, reply) := Ask(kernel, t.sys, call);
      assert 0 <= reply.number < |names|;
      item := names[reply.number];
    }
  }

  lemma {:induction false} IterationsPerform<K(!new), G(!new)>(kernel: Kernel<K>, gen: Generator<G>, g: K -> G,
        prefix: string, site: Site, l: seq<Instr<string>>, it: Iterate<string>, names: seq<string>, n: nat,
        m: Machine<Names, K>)
    returns (items: seq<string>, states: seq<Machine<Names, K>>)
    requires Owned(kernel, gen, site, g) && AllThreadFree(l) && n <= |names|
    requires !Iterations(kernel, NameEnv(), prefix, site, l, it, names, n, m).sys.halted
    ensures |items| == n && |states| == n + 1
    ensures states[0] == m && states[n] == Iterations(kernel, NameEnv(), prefix, site, l, it, names, n, m)
    ensures (items, g(states[n].sys.kernel)) == Picked(gen, it.order, g(m.sys.kernel), names, n)
    ensures forall k :: 0 <= k < n ==>
      PerformsItem(kernel, prefix, site, l, it, |names|, states[k], items[k], states[k + 1])
  {
    if n == 0 {
      items, states := [], [m];
    } else {
      var t := Iterations(kernel, NameEnv(), prefix, site, l, it, names, n - 1, m);
      if t.sys.halted {
        StoppedPick(kernel, site, it, names, n - 1, t);
        StoppedAll(kernel, NameEnv(), prefix, site, l, t);
      }
      var before, front := IterationsPerform(kernel, gen, g, prefix, site, l, it, names, n - 1, m);
      var item := OneMoreItem(kernel, gen, g, prefix, site, l, it, names, n - 1, t);
      items, states := before + [item], front + [Iterations(kernel, NameEnv(), prefix, site, l, it, names, n, m)];
      forall k | 0 <= k < n
        ensures PerformsItem(kernel, prefix, site, l, it, |names|, states[k], items[k], states[k + 1])
      {
        if k < n - 1 { assert states[k] == front[k] && states[k + 1] == front[k + 1] && items[k] == before[k]; }
      }
    }
  }

  lemma StoppedPick<K(!new)>(kernel: Kernel<K>, site: Site, it: Iterate<string>, names: seq<string>, n: nat,
        t: Machine<Names, K>)
    requires t.sys.halted && n < |names|
    ensures PickItem(kernel, NameEnv(), site, it, names, n, t) == t
  {}

  /**
   * A cycle of an iterating set, for any body, any list and any kernel: if it does not stop, it
   * performs the body once for each item picked, in order, with the item variable holding that
   * item.  The items are those of the list in order, or what the set's own generator draws, right
   * after its seed with EACH_CYCLE; the body cannot disturb the choice, not even by changing the list.
   */
  lemma CyclePerforms<K(!new), G(!new)>(kernel: Kernel<K>, gen: Generator<G>, g: K -> G, prefix: string, site: Site,
        i: Instr<string>, l: seq<Instr<string>>, it: Iterate<string>, names: seq<string>, m: Machine<Names, K>)
    returns (items: seq<string>, states: seq<Machine<Names, K>>)
    requires Owned(kernel, gen, site, g) && ThreadFree(i) && i.body == InstructionSet(l, Some(it))
    requires NameValue(m.store, it.list) == ListValue(names)
    requires !Cycle(kernel, NameEnv(), prefix, site, i, m).sys.halted
    ensures |items| == |names| && |states| == |names| + 1
    ensures items == Picked(gen, it.order, CycleStart(gen, it, g(m.sys.kernel)), names, |names|).0
    ensures it.order.Sequential? ==> items == names
    ensures states[0].store == m.store && states[|names|] == Cycle(kernel, NameEnv(), prefix, site, i, m)
    ensures states[0].sys.calls == m.sys.calls + if it.reseeding.EachCycle? then [Seed(site, it.seed)] else []
    ensures forall k :: 0 <= k < |names| ==>
      PerformsItem(kernel, prefix, site, l, it, |names|, states[k], items[k], states[k + 1])
  {
    assert OwnedAnswers(kernel, gen, site, g, m.sys.kernel, Seed(site, it.seed));
    var m1 := if it.reseeding.EachCycle? then m.(sys := Ask(kernel, m.sys, Seed(site, it.seed)).0) else m;
    assert m.sys.calls + [] == m.sys.calls;
    assert NameEnv().get(m1.store, it.list) == Some(ListValue(names));
    items, states := IterationsPerform(kernel, gen, g, prefix, site, l, it, names, |names|, m1);
    SequentialPicksAll(gen, g(m1.sys.kernel), names, |names|);
    assert names[..|names|] == names;
  }
}
