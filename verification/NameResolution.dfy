/**
 * Resolving names to slots preserves meaning: a thread-free benchmark run in its executable form
 * makes the same calls and leaves the same variable values as its direct interpretation, which
 * looks every name up in one map.
 */
module NameResolution {
  import opened Common
  import opened Scopes
  import opened Workload
  import opened Factory
  import opened Interpreter

  // ---------------------------------------------------------------- the two memories

  type Names = map<string, Value>

  type Slots = seq<Value>

  /** A variable that was never set reads as the integer 0. */
  function NameValue(m: Names, x: string): Value {
    if x in m then m[x] else IntValue(0)
  }

  const ABSOLUTE_PATH: string := "absolute_path"

  function NameEnv(): Env<Names, string> {
    Env((m: Names, x: string) => Some(NameValue(m, x)),
        (m: Names, x: string, v: Value) => Some(m[x := v]), ABSOLUTE_PATH)
  }

  /** SharedVariables::Get and Set by key, which check the bounds. */
  function SlotEnv(absolutePathKey: nat): Env<Slots, nat> {
    Env((s: Slots, k: nat) => if k < |s| then Some(s[k]) else None,
        (s: Slots, k: nat, v: Value) => if k < |s| then Some(s[k := v]) else None, absolutePathKey)
  }

  // ---------------------------------------------------------------- compiled form = resolved form

  function ResolveTree(t: Tables, path: Path, prefix: string, i: Instr<string>): Instr<nat>
    decreases Height(i), 0
  {
    ChildrenLower(i);
    Instr(i.repeat, Resolve(t, path, prefix, i.body, ResolveAll(t, path, prefix, Children(i.body), Height(i))))
  }

  function ResolveAll(t: Tables, path: Path, prefix: string, l: seq<Instr<string>>, ghost bound: nat)
    : (r: seq<Instr<nat>>)
    requires forall i :: i in l ==> Height(i) < bound
    ensures |r| == |l|
    decreases bound, 0, |l|
  {
    if l == [] then []
    else ResolveAll(t, path, prefix, l[..|l| - 1], bound) + [ResolveTree(t, path, prefix, l[|l| - 1])]
  }

  ghost predicate AllBound(t: Tables, path: Path, i: Instr<string>)
    decreases Height(i)
  {
    && (forall x :: x in Refs(i.body) ==> Bound(t, path, x))
    && (ChildrenLower(i); forall c :: c in Children(i.body) ==> AllBound(t, path, c))
  }

  /** For a thread-free instruction, resolving early or in any later table gives the same code. */
  lemma {:induction false} CompileResolves(t: Tables, prefix: string, path: Path, i: Instr<string>, later: Tables)
    requires Inv(t) && Registered(t, path) && ThreadFree(i)
    requires Extends(Compile(t, prefix, path, i).1, later)
    ensures Compile(t, prefix, path, i).0 == ResolveTree(later, path, prefix, i)
    ensures AllBound(later, path, i)
    decreases Height(i), 0
  {
    ChildrenLower(i);
    var l := Children(i.body);
    CompileAllExtends(t, prefix, path, l, false, Height(i));
    var u := CompileAll(t, prefix, path, l, false, Height(i)).1;
    ExtendsKeeps(t, u);
    KeysExtend(u, path, Refs(i.body));
    var v := AfterKeys(u, path, Refs(i.body));
    ExtendsKeeps(u, v);
    ExtendsTransitive(u, v, later);
    CompileAllResolves(t, prefix, path, l, later, Height(i));
    KeysBind(u, path, Refs(i.body));
    ExtendsKeeps(v, later);
    forall x | x in Refs(i.body) ensures Bound(later, path, x) && Slot(v, path, x) == Slot(later, path, x) {
      assert Bound(v, path, x);
    }
    ResolveDepends(v, later, path, prefix, i.body, ResolveAll(later, path, prefix, l, Height(i)));
  }

  lemma ResolveDepends(t: Tables, u: Tables, path: Path, prefix: string, b: Body<string>, kids: seq<Instr<nat>>)
    requires forall x :: x in Refs(b) ==> Slot(t, path, x) == Slot(u, path, x)
    ensures Resolve(t, path, prefix, b, kids) == Resolve(u, path, prefix, b, kids)
  {
    match b
    case OpenFile(file, output, _) =>
      assert output.Some? ==> output.value == Refs(b)[0];
      assert file.Input? ==> file.v == Refs(b)[|Refs(b)| - 1];
    case DeleteFile(file) => assert file.Input? ==> file.v == Refs(b)[0];
    case InstructionSet(_, it) => assert it.Some? ==> it.value.list == Refs(b)[0] && it.value.item == Refs(b)[1];
    case ReadDirectory(_, output) => assert output == Refs(b)[0];
    case ReadFile(fd, _, _) => assert fd == Refs(b)[0];
    case WriteFile(fd, _, _) => assert fd == Refs(b)[0];
    case CloseFile(fd) => assert fd == Refs(b)[0];
    case ResizeFile(fd, _) => assert fd == Refs(b)[0];
    case ResizeFileRandom(fd, _, _, _, _) => assert fd == Refs(b)[0];
    case _ =>
  }

  lemma {:induction false} CompileAllResolves(t: Tables, prefix: string, path: Path, l: seq<Instr<string>>,
                                              later: Tables, bound: nat)
    requires Inv(t) && Registered(t, path)
    requires forall i :: i in l ==> Height(i) < bound && ThreadFree(i)
    requires Extends(CompileAll(t, prefix, path, l, false, bound).1, later)
    ensures CompileAll(t, prefix, path, l, false, bound).0 == ResolveAll(later, path, prefix, l, bound)
    ensures forall i :: i in l ==> AllBound(later, path, i)
    decreases bound, 0, |l|
  {
    if l != [] {
      var front, last := l[..|l| - 1], l[|l| - 1];
      var u := CompileAll(t, prefix, path, front, false, bound).1;
      CompileAllExtends(t, prefix, path, front, false, bound);
      ExtendsKeeps(t, u);
      CompileExtends(u, prefix, path, last);
      var w := Compile(u, prefix, path, last).1;
      ExtendsTransitive(u, w, later);
      CompileAllResolves(t, prefix, path, front, later, bound);
      CompileResolves(u, prefix, path, last, later);
      assert l == front + [last];
    }
  }

  // ---------------------------------------------------------------- simulation

  /** The slots hold the values of the names bound on the path. */
  ghost predicate StoreRel(t: Tables, path: Path, names: Names, slots: Slots) {
    forall x :: Bound(t, path, x) ==> Slot(t, path, x) < |slots| && slots[Slot(t, path, x)] == NameValue(names, x)
  }

  ghost predicate Sim<K(!new)>(t: Tables, path: Path, m: Machine<Names, K>, n: Machine<Slots, K>) {
    m.sys == n.sys && StoreRel(t, path, m.store, n.store)
  }

  /** Writing one variable changes no other: different names have different slots. */
  lemma SetSim<K(!new)>(t: Tables, path: Path, abs: nat, x: string, v: Value, m: Machine<Names, K>,
                        n: Machine<Slots, K>)
    requires Inv(t) && Registered(t, path) && Bound(t, path, x) && Sim(t, path, m, n)
    ensures Sim(t, path, SetVar(NameEnv(), m, x, v), SetVar(SlotEnv(abs), n, Slot(t, path, x), v))
  {
    forall y | Bound(t, path, y) && y != x ensures Slot(t, path, y) != Slot(t, path, x) {
      SameSlot(t, path, x, path, y);
    }
  }

  lemma PathSim<K(!new)>(t: Tables, path: Path, prefix: string, kernel: Kernel<K>, site: Site,
                         file: FileName<string>, m: Machine<Names, K>, n: Machine<Slots, K>)
    requires Sim(t, path, m, n) && Bound(t, path, ABSOLUTE_PATH)
    requires file.Input? ==> Bound(t, path, file.v)
    ensures PathOf(kernel, NameEnv(), prefix, site, file, m)
         == PathOf(kernel, SlotEnv(Slot(t, path, ABSOLUTE_PATH)), "", site, ResolveFile(t, path, prefix, file), n)
  {
    if file.PathName? {
      assert "" + (prefix + file.path) == prefix + file.path;
    }
  }

  lemma {:induction false} LeafSim<K(!new)>(t: Tables, path: Path, prefix: string, kernel: Kernel<K>, site: Site,
        b: Body<string>, m: Machine<Names, K>, n: Machine<Slots, K>)
    requires Inv(t) && Registered(t, path) && Bound(t, path, ABSOLUTE_PATH)
    requires forall x :: x in Refs(b) ==> Bound(t, path, x)
    requires Sim(t, path, m, n)
    requires !b.InstructionSet? && !b.Multithreading?
    ensures Sim(t, path, Leaf(kernel, NameEnv(), prefix, site, b, m),
                Leaf(kernel, SlotEnv(Slot(t, path, ABSOLUTE_PATH)), "", site, Resolve(t, path, prefix, b, []), n))
  {
    var abs := Slot(t, path, ABSOLUTE_PATH);
    match b
    case OpenFile(file, output, flags) => OpenSim(t, path, prefix, kernel, site, b, m, n);
    case DeleteFile(file) =>
      assert file.Input? ==> file.v == Refs(b)[0];
      PathSim(t, path, prefix, kernel, site, file, m, n);
    case ReadDirectory(directory, output) =>
      assert output == Refs(b)[0];
      assert "" + (prefix + directory) == prefix + directory;
      var (s, reply) := Ask(kernel, m.sys, ListDirectory(prefix + directory));
      SetSim(t, path, abs, output, ListValue(Listing(prefix + directory, reply.entries)),
             m.(sys := s), n.(sys := s));
    case NoVariables(_) =>
    case Lock(mutex) => assert mutex == Refs(b)[0];
    case Unlock(mutex) => assert mutex == Refs(b)[0];
    case _ => FdSim(t, path, prefix, kernel, site, b, m, n);
  }

  lemma FdSim<K(!new)>(t: Tables, path: Path, prefix: string, kernel: Kernel<K>, site: Site, b: Body<string>,
                       m: Machine<Names, K>, n: Machine<Slots, K>)
    requires b.CloseFile? || b.ResizeFile? || b.ResizeFileRandom? || b.WriteFile? || b.ReadFile?
    requires Bound(t, path, Refs(b)[0]) && Sim(t, path, m, n)
    ensures Sim(t, path, Leaf(kernel, NameEnv(), prefix, site, b, m),
                Leaf(kernel, SlotEnv(Slot(t, path, ABSOLUTE_PATH)), "", site, Resolve(t, path, prefix, b, []), n))
  {
    assert b.fd == Refs(b)[0];
    assert GetInt(NameEnv(), m.store, b.fd)
        == GetInt(SlotEnv(Slot(t, path, ABSOLUTE_PATH)), n.store, Slot(t, path, b.fd));
  }

  lemma {:induction false} OpenSim<K(!new)>(t: Tables, path: Path, prefix: string, kernel: Kernel<K>, site: Site,
        b: Body<string>, m: Machine<Names, K>, n: Machine<Slots, K>)
    requires Inv(t) && Registered(t, path) && Bound(t, path, ABSOLUTE_PATH) && b.OpenFile?
    requires forall x :: x in Refs(b) ==> Bound(t, path, x)
    requires Sim(t, path, m, n)
    ensures Sim(t, path, Leaf(kernel, NameEnv(), prefix, site, b, m),
                Leaf(kernel, SlotEnv(Slot(t, path, ABSOLUTE_PATH)), "", site, Resolve(t, path, prefix, b, []), n))
  {
    assert b.file.Input? ==> b.file.v == Refs(b)[|Refs(b)| - 1];
    PathSim(t, path, prefix, kernel, site, b.file, m, n);
    var (name, s) := PathOf(kernel, NameEnv(), prefix, site, b.file, m);
    if name.Some? && b.output.Some? {
      assert b.output.value == Refs(b)[0];
      var (s1, reply) := Ask(kernel, s, Open(name.value, b.flags));
      SetSim(t, path, Slot(t, path, ABSOLUTE_PATH), b.output.value, IntValue(reply.number),
             m.(sys := s1), n.(sys := s1));
    }
  }

  lemma {:induction false} ResolvedThreadFree(t: Tables, path: Path, prefix: string, i: Instr<string>)
    requires ThreadFree(i)
    ensures ThreadFree(ResolveTree(t, path, prefix, i))
    decreases Height(i), 0
  {
    ChildrenLower(i);
    ResolvedAllThreadFree(t, path, prefix, Children(i.body), Height(i));
  }

  lemma {:induction false} ResolvedAllThreadFree(t: Tables, path: Path, prefix: string, l: seq<Instr<string>>,
        bound: nat)
    requires forall i :: i in l ==> Height(i) < bound
    requires AllThreadFree(l)
    ensures AllThreadFree(ResolveAll(t, path, prefix, l, bound))
    decreases bound, 0, |l|
  {
    if l != [] {
      assert l == l[..|l| - 1] + [l[|l| - 1]];
      ResolvedAllThreadFree(t, path, prefix, l[..|l| - 1], bound);
      ResolvedThreadFree(t, path, prefix, l[|l| - 1]);
    }
  }

  ghost predicate Ready(t: Tables, path: Path) {
    Inv(t) && Registered(t, path) && Bound(t, path, ABSOLUTE_PATH)
  }

  lemma {:induction false} PerformSim<K(!new)>(t: Tables, path: Path, prefix: string, kernel: Kernel<K>, site: Site,
                                               i: Instr<string>, m: Machine<Names, K>, n: Machine<Slots, K>)
    requires Ready(t, path) && ThreadFree(i) && AllBound(t, path, i) && Sim(t, path, m, n)
    requires ThreadFree(ResolveTree(t, path, prefix, i))
    ensures Sim(t, path, Perform(kernel, NameEnv(), prefix, site, i, m),
                Perform(kernel, SlotEnv(Slot(t, path, ABSOLUTE_PATH)), "", site, ResolveTree(t, path, prefix, i), n))
    decreases Height(i), 4, 0
  {
    var c := ResolveTree(t, path, prefix, i);
    var s := SetUpRound(kernel, site, i.body, m.sys);
    assert s == SetUpRound(kernel, site, c.body, n.sys);
    RoundsSim(t, path, prefix, kernel, site, i, i.repeat, m.(sys := s), n.(sys := s));
  }

  lemma {:induction false} RoundsSim<K(!new)>(t: Tables, path: Path, prefix: string, kernel: Kernel<K>, site: Site,
                                              i: Instr<string>, k: int, m: Machine<Names, K>, n: Machine<Slots, K>)
    requires Ready(t, path) && ThreadFree(i) && AllBound(t, path, i) && Sim(t, path, m, n)
    requires ThreadFree(ResolveTree(t, path, prefix, i))
    ensures Sim(t, path, Rounds(kernel, NameEnv(), prefix, site, i, k, m),
                Rounds(kernel, SlotEnv(Slot(t, path, ABSOLUTE_PATH)), "", site, ResolveTree(t, path, prefix, i), k, n))
    decreases Height(i), 3, k
  {
    if k > 0 {
      var env := SlotEnv(Slot(t, path, ABSOLUTE_PATH));
      RoundsSim(t, path, prefix, kernel, site, i, k - 1, m, n);
      CycleSim(t, path, prefix, kernel, site, i, Rounds(kernel, NameEnv(), prefix, site, i, k - 1, m),
               Rounds(kernel, env, "", site, ResolveTree(t, path, prefix, i), k - 1, n));
    }
  }

  lemma {:induction false} CycleSim<K(!new)>(t: Tables, path: Path, prefix: string, kernel: Kernel<K>, site: Site,
                                             i: Instr<string>, m: Machine<Names, K>, n: Machine<Slots, K>)
    requires Ready(t, path) && ThreadFree(i) && AllBound(t, path, i) && Sim(t, path, m, n)
    requires ThreadFree(ResolveTree(t, path, prefix, i))
    ensures Sim(t, path, Cycle(kernel, NameEnv(), prefix, site, i, m),
                Cycle(kernel, SlotEnv(Slot(t, path, ABSOLUTE_PATH)), "", site, ResolveTree(t, path, prefix, i), n))
    decreases Height(i), 2, 1
  {
    ChildrenLower(i);
    if m.sys.halted { return; }
    match i.body
    case InstructionSet(l, None) =>
      PerformAllSim(t, path, prefix, kernel, site, l, Height(i), m, n);
    case InstructionSet(l, Some(it)) =>
      IterateSim(t, path, prefix, kernel, site, i, l, it, m, n);
    case Multithreading(_, _) =>
    case _ => LeafSim(t, path, prefix, kernel, site, i.body, m, n);
  }

  /** A cycle of a set that iterates over a list. */
  lemma {:induction false} IterateSim<K(!new)>(t: Tables, path: Path, prefix: string, kernel: Kernel<K>, site: Site,
        i: Instr<string>, l: seq<Instr<string>>, it: Iterate<string>, m: Machine<Names, K>, n: Machine<Slots, K>)
    requires Ready(t, path) && ThreadFree(i) && AllBound(t, path, i) && Sim(t, path, m, n) && !m.sys.halted
    requires i.body == InstructionSet(l, Some(it)) && ThreadFree(ResolveTree(t, path, prefix, i))
    ensures Sim(t, path, Cycle(kernel, NameEnv(), prefix, site, i, m),
                Cycle(kernel, SlotEnv(Slot(t, path, ABSOLUTE_PATH)), "", site, ResolveTree(t, path, prefix, i), n))
    decreases Height(i), 2, 0
  {
    ChildrenLower(i);
    assert it.list == Refs(i.body)[0] && it.item == Refs(i.body)[1];
    var s := if it.reseeding.EachCycle? then Ask(kernel, m.sys, Seed(site, it.seed)).0 else m.sys;
    var env, c := SlotEnv(Slot(t, path, ABSOLUTE_PATH)), ResolveTree(t, path, prefix, i);
    CycleIterates(kernel, NameEnv(), prefix, site, i, l, it, m);
    CycleIterates(kernel, env, "", site, c, c.body.instructions, c.body.iterate.value, n);
    match NameValue(m.store, it.list) {
      case ListValue(names) =>
        IterationsSim(t, path, prefix, kernel, site, l, Height(i), it, c.body.iterate.value, names, |names|,
                      m.(sys := s), n.(sys := s));
      case _ =>
    }
  }

  lemma {:induction false} PerformAllSim<K(!new)>(t: Tables, path: Path, prefix: string, kernel: Kernel<K>,
        site: Site, l: seq<Instr<string>>, bound: nat, m: Machine<Names, K>, n: Machine<Slots, K>)
    requires Ready(t, path) && Sim(t, path, m, n)
    requires forall i :: i in l ==> Height(i) < bound
    requires AllThreadFree(l)
    requires forall i :: i in l ==> AllBound(t, path, i)
    requires AllThreadFree(ResolveAll(t, path, prefix, l, bound))
    ensures Sim(t, path, PerformAll(kernel, NameEnv(), prefix, site, l, m),
                PerformAll(kernel, SlotEnv(Slot(t, path, ABSOLUTE_PATH)), "", site,
                           ResolveAll(t, path, prefix, l, bound), n))
    decreases bound, 0, |l|
  {
    if l != [] {
      var env := SlotEnv(Slot(t, path, ABSOLUTE_PATH));
      var front, last := l[..|l| - 1], l[|l| - 1];
      var code := ResolveAll(t, path, prefix, l, bound);
      assert code[..|l| - 1] == ResolveAll(t, path, prefix, front, bound);
      assert code[|l| - 1] == ResolveTree(t, path, prefix, last);
      PerformAllSim(t, path, prefix, kernel, site, front, bound, m, n);
      PerformSim(t, path, prefix, kernel, site + [|l| - 1], last,
                 PerformAll(kernel, NameEnv(), prefix, site, front, m),
                 PerformAll(kernel, env, "", site, code[..|l| - 1], n));
    }
  }

  lemma {:induction false} IterationsSim<K(!new)>(t: Tables, path: Path, prefix: string, kernel: Kernel<K>,
        site: Site, l: seq<Instr<string>>, bound: nat, it: Iterate<string>, it': Iterate<nat>, names: seq<string>,
        k: nat, m: Machine<Names, K>, n: Machine<Slots, K>)
    requires Ready(t, path) && Sim(t, path, m, n) && k <= |names|
    requires Bound(t, path, it.item) && it'.item == Slot(t, path, it.item) && it'.order == it.order
    requires forall i :: i in l ==> Height(i) < bound
    requires AllThreadFree(l)
    requires forall i :: i in l ==> AllBound(t, path, i)
    requires AllThreadFree(ResolveAll(t, path, prefix, l, bound))
    ensures var env := SlotEnv(Slot(t, path, ABSOLUTE_PATH));
            Sim(t, path, Iterations(kernel, NameEnv(), prefix, site, l, it, names, k, m),
                Iterations(kernel, env, "", site, ResolveAll(t, path, prefix, l, bound), it', names, k, n))
    decreases bound, 1, k
  {
    if k > 0 {
      var env, code := SlotEnv(Slot(t, path, ABSOLUTE_PATH)), ResolveAll(t, path, prefix, l, bound);
      IterationsSim(t, path, prefix, kernel, site, l, bound, it, it', names, k - 1, m, n);
      var m1 := Iterations(kernel, NameEnv(), prefix, site, l, it, names, k - 1, m);
      var n1 := Iterations(kernel, env, "", site, code, it', names, k - 1, n);
      OneIterationSim(t, path, prefix, kernel, site, l, bound, it, it', names, k - 1, m1, n1);
    }
  }

  lemma {:induction false} OneIterationSim<K(!new)>(t: Tables, path: Path, prefix: string, kernel: Kernel<K>,
        site: Site, l: seq<Instr<string>>, bound: nat, it: Iterate<string>, it': Iterate<nat>, names: seq<string>,
        k: nat, m: Machine<Names, K>, n: Machine<Slots, K>)
    requires Ready(t, path) && Sim(t, path, m, n) && k < |names|
    requires Bound(t, path, it.item) && it'.item == Slot(t, path, it.item) && it'.order == it.order
    requires forall i :: i in l ==> Height(i) < bound
    requires AllThreadFree(l)
    requires forall i :: i in l ==> AllBound(t, path, i)
    requires AllThreadFree(ResolveAll(t, path, prefix, l, bound))
    ensures var env := SlotEnv(Slot(t, path, ABSOLUTE_PATH));
            Sim(t, path,
                PerformAll(kernel, NameEnv(), prefix, site, l, PickItem(kernel, NameEnv(), site, it, names, k, m)),
                PerformAll(kernel, env, "", site, ResolveAll(t, path, prefix, l, bound),
                           PickItem(kernel, env, site, it', names, k, n)))
    decreases bound, 0, |l| + 1
  {
    var env := SlotEnv(Slot(t, path, ABSOLUTE_PATH));
    PickSim(t, path, kernel, site, it, it', names, k, m, n);
    PerformAllSim(t, path, prefix, kernel, site, l, bound, PickItem(kernel, NameEnv(), site, it, names, k, m),
                  PickItem(kernel, env, site, it', names, k, n));
  }

  lemma PickSim<K(!new)>(t: Tables, path: Path, kernel: Kernel<K>, site: Site, it: Iterate<string>, it': Iterate<nat>,
                         names: seq<string>, k: nat, m: Machine<Names, K>, n: Machine<Slots, K>)
    requires Ready(t, path) && Sim(t, path, m, n) && k < |names| && Bound(t, path, it.item)
    requires it'.item == Slot(t, path, it.item) && it'.order == it.order
    ensures Sim(t, path, PickItem(kernel, NameEnv(), site, it, names, k, m),
                PickItem(kernel, SlotEnv(Slot(t, path, ABSOLUTE_PATH)), site, it', names, k, n))
  {
    var abs := Slot(t, path, ABSOLUTE_PATH);
    var (s, reply) := Ask(kernel, m.sys, Draw(site, 0, ToInt(|names| - 1)));
    SetSim(t, path, abs, it.item, StringValue(names[k]), m, n);
    if 0 <= reply.number < |names| {
      SetSim(t, path, abs, it.item, StringValue(names[reply.number]), m.(sys := s), n.(sys := s));
    }
  }
}
