/**
 * From parsed instructions to executable ones: every variable name is resolved to a slot, in the
 * scope of the thread path, spawned threads get fresh ids, and relative paths become absolute.
 */
module Factory {
  import opened Common
  import opened Scopes
  import opened Workload

  /** The slot that GetKey(path, name) answers in the tables t. */
  function Slot(t: Tables, path: Path, name: string): nat {
    match Lookup(t.keys, path, name) case Some(k) => k case None => t.size
  }

  function AfterKeys(t: Tables, path: Path, names: seq<string>): Tables
    requires path != []
  {
    if names == [] then t
    else AfterGetKey(AfterKeys(t, path, names[..|names| - 1]), path, names[|names| - 1])
  }

  function ResolveFile(t: Tables, path: Path, prefix: string, file: FileName<string>): FileName<nat> {
    match file
    case PathName(p) => PathName(prefix + p)
    case Input(v) => Input(Slot(t, path, v))
    case RandomName => RandomName
  }

  /** A body with its own variables resolved in t and its children replaced. */
  function Resolve(t: Tables, path: Path, prefix: string, b: Body<string>, kids: seq<Instr<nat>>): Body<nat> {
    match b
    case OpenFile(file, output, flags) =>
      OpenFile(ResolveFile(t, path, prefix, file),
               if output.Some? then Some(Slot(t, path, output.value)) else None, flags)
    case DeleteFile(file) => DeleteFile(ResolveFile(t, path, prefix, file))
    case CloseFile(fd) => CloseFile(Slot(t, path, fd))
    case ResizeFile(fd, size) => ResizeFile(Slot(t, path, fd), size)
    case ResizeFileRandom(fd, min, max, seed, r) => ResizeFileRandom(Slot(t, path, fd), min, max, seed, r)
    case WriteFile(fd, rw, fsync) => WriteFile(Slot(t, path, fd), rw, fsync)
    case ReadFile(fd, rw, advice) => ReadFile(Slot(t, path, fd), rw, advice)
    case ReadDirectory(directory, output) => ReadDirectory(prefix + directory, Slot(t, path, output))
    case Lock(mutex) => Lock(Slot(t, path, mutex))
    case Unlock(mutex) => Unlock(Slot(t, path, mutex))
    case NoVariables(work) => NoVariables(work)
    case InstructionSet(_, None) => InstructionSet(kids, None)
    case InstructionSet(_, Some(it)) =>
      InstructionSet(kids, Some(Iterate(Slot(t, path, it.list), Slot(t, path, it.item),
                                        it.order, it.reseeding, it.seed)))
    case Multithreading(fork, _) => Multithreading(fork, Single(kids))
  }

  /** The executable form has one entry per thread. */
  function Single(kids: seq<Instr<nat>>): seq<Thread<nat>> {
    seq(|kids|, i requires 0 <= i < |kids| => Thread(1, kids[i]))
  }

  /** CreateFromProtoInstruction: children first, then the instruction's own variables. */
  function Compile(t: Tables, prefix: string, path: Path, i: Instr<string>): (Instr<nat>, Tables)
    requires path != []
    decreases Height(i), 0
  {
    ChildrenLower(i);
    var (kids, u) := CompileAll(t, prefix, path, Children(i.body), i.body.Multithreading?, Height(i));
    var v := AfterKeys(u, path, Refs(i.body));
    (Instr(i.repeat, Resolve(v, path, prefix, i.body, kids)), v)
  }

  /** The children of one node in order; with `spawn`, each in a fresh scope below the path. */
  function CompileAll(t: Tables, prefix: string, path: Path, l: seq<Instr<string>>, spawn: bool, ghost bound: nat)
    : (r: (seq<Instr<nat>>, Tables))
    requires path != []
    requires forall i :: i in l ==> Height(i) < bound
    ensures |r.0| == |l|
    decreases bound, 0, |l|
  {
    if l == [] then ([], t)
    else
      var (kids, u) := CompileAll(t, prefix, path, l[..|l| - 1], spawn, bound);
      var (own, v) := if spawn then (path + [u.nextId], AfterSpawn(u, path)) else (path, u);
      var (kid, w) := Compile(v, prefix, own, l[|l| - 1]);
      (kids + [kid], w)
  }

  // ---------------------------------------------------------------- a parse is a run of requests

  /** t2 can be reached from t1 by requests of the factory. */
  ghost predicate Extends(t1: Tables, t2: Tables) {
    exists ops :: DoAll(t1, ops) == Some(t2)
  }

  lemma ExtendsSelf(t: Tables)
    ensures Extends(t, t)
  {
    assert DoAll(t, []) == Some(t);
  }

  lemma {:induction false} DoAllConcat(t: Tables, a: seq<Op>, b: seq<Op>)
    requires DoAll(t, a).Some?
    ensures DoAll(t, a + b) == DoAll(DoAll(t, a).value, b)
  {
    if b == [] {
      assert a + b == a;
    } else {
      DoAllConcat(t, a, b[..|b| - 1]);
      assert (a + b)[..|a + b| - 1] == a + b[..|b| - 1];
    }
  }

  lemma ExtendsOne(t1: Tables, t2: Tables, op: Op)
    requires Extends(t1, t2) && Legal(t2, op)
    ensures Extends(t1, Do(t2, op))
  {
    var ops :| DoAll(t1, ops) == Some(t2);
    assert (ops + [op])[..|ops|] == ops;
    assert DoAll(t1, ops + [op]) == Some(Do(t2, op));
  }

  lemma ExtendsTransitive(t1: Tables, t2: Tables, t3: Tables)
    requires Extends(t1, t2) && Extends(t2, t3)
    ensures Extends(t1, t3)
  {
    var a :| DoAll(t1, a) == Some(t2);
    var b :| DoAll(t2, b) == Some(t3);
    DoAllConcat(t1, a, b);
  }

  /** What every extension keeps: the invariant, the registered paths, all answers; slots and ids only grow. */
  ghost predicate Kept(t1: Tables, t2: Tables) {
    && Inv(t2) && t1.size <= t2.size && t1.nextId <= t2.nextId
    && (forall path :: Registered(t1, path) ==> Registered(t2, path))
    && (forall path, x :: Registered(t1, path) && Lookup(t1.keys, path, x).Some? ==>
          Lookup(t2.keys, path, x) == Lookup(t1.keys, path, x))
    && (forall id, x :: Binds(t1.keys, id, x) ==> Binds(t2.keys, id, x) && t2.keys[id][x] == t1.keys[id][x])
    && (forall id, x :: Binds(t2.keys, id, x) ==> Binds(t1.keys, id, x) || t1.size <= t2.keys[id][x])
  }

  lemma {:induction false} ExtendsKeeps(t1: Tables, t2: Tables)
    requires Inv(t1) && Extends(t1, t2)
    ensures Kept(t1, t2)
  {
    var ops :| DoAll(t1, ops) == Some(t2);
    OpsKeep(t1, ops);
  }

  lemma {:induction false} StepKeeps(t: Tables, op: Op)
    requires Inv(t) && Legal(t, op)
    ensures Kept(t, Do(t, op))
  {
    DoKeepsInv(t, op);
    FreshId(t);
    forall path, x | Registered(t, path) && Lookup(t.keys, path, x).Some?
      ensures Lookup(Do(t, op).keys, path, x) == Lookup(t.keys, path, x)
    {
      LookupStable(t, op, path, x);
    }
  }

  lemma KeptTransitive(t1: Tables, t2: Tables, t3: Tables)
    requires Kept(t1, t2) && Kept(t2, t3)
    ensures Kept(t1, t3)
  {}

  lemma {:induction false} OpsKeep(t: Tables, ops: seq<Op>)
    requires Inv(t) && DoAll(t, ops).Some?
    ensures Kept(t, DoAll(t, ops).value)
  {
    if ops != [] {
      var front, op := ops[..|ops| - 1], ops[|ops| - 1];
      OpsKeep(t, front);
      var u := DoAll(t, front).value;
      StepKeeps(u, op);
      KeptTransitive(t, u, Do(u, op));
    }
  }

  lemma {:induction false} KeysExtend(t: Tables, path: Path, names: seq<string>)
    requires Inv(t) && Registered(t, path)
    ensures Extends(t, AfterKeys(t, path, names))
  {
    if names == [] {
      ExtendsSelf(t);
    } else {
      KeysExtend(t, path, names[..|names| - 1]);
      var u := AfterKeys(t, path, names[..|names| - 1]);
      ExtendsKeeps(t, u);
      ExtendsOne(t, u, GetKey(path, names[|names| - 1]));
    }
  }

  predicate Bound(t: Tables, path: Path, x: string) {
    Lookup(t.keys, path, x).Some?
  }

  lemma {:induction false} KeysBind(t: Tables, path: Path, names: seq<string>)
    requires Inv(t) && Registered(t, path)
    ensures forall x :: x in names ==> Bound(AfterKeys(t, path, names), path, x)
  {
    if names != [] {
      var u := AfterKeys(t, path, names[..|names| - 1]);
      KeysBind(t, path, names[..|names| - 1]);
      KeysExtend(t, path, names[..|names| - 1]);
      ExtendsKeeps(t, u);
      var last := names[|names| - 1];
      var v := Do(u, GetKey(path, last));
      assert Bound(v, path, last) by {
        assert Bound(u, path, last) || Binds(v.keys, path[|path| - 1], last);
      }
      forall x | x in names ensures Bound(v, path, x) {
        if x != last {
          assert x in names[..|names| - 1];
          LookupStable(u, GetKey(path, last), path, x);
        }
      }
    }
  }

  /** Compiling an instruction is a run of legal requests, so everything proved of those holds of it. */
  lemma {:induction false} CompileExtends(t: Tables, prefix: string, path: Path, i: Instr<string>)
    requires Inv(t) && Registered(t, path)
    ensures Extends(t, Compile(t, prefix, path, i).1)
    decreases Height(i), 0
  {
    ChildrenLower(i);
    var u := CompileAll(t, prefix, path, Children(i.body), i.body.Multithreading?, Height(i)).1;
    CompileAllExtends(t, prefix, path, Children(i.body), i.body.Multithreading?, Height(i));
    ExtendsKeeps(t, u);
    KeysExtend(u, path, Refs(i.body));
    ExtendsTransitive(t, u, AfterKeys(u, path, Refs(i.body)));
  }

  lemma {:induction false} CompileAllExtends(t: Tables, prefix: string, path: Path, l: seq<Instr<string>>,
                                             spawn: bool, bound: nat)
    requires Inv(t) && Registered(t, path)
    requires forall i :: i in l ==> Height(i) < bound
    ensures Extends(t, CompileAll(t, prefix, path, l, spawn, bound).1)
    decreases bound, 0, |l|
  {
    if l == [] {
      ExtendsSelf(t);
    } else {
      var u := CompileAll(t, prefix, path, l[..|l| - 1], spawn, bound).1;
      CompileAllExtends(t, prefix, path, l[..|l| - 1], spawn, bound);
      ExtendsKeeps(t, u);
      var (own, v) := if spawn then (path + [u.nextId], AfterSpawn(u, path)) else (path, u);
      if spawn { ExtendsOne(t, u, Spawn(path)); ExtendsKeeps(t, v); }
      CompileExtends(v, prefix, own, l[|l| - 1]);
      ExtendsTransitive(t, v, Compile(v, prefix, own, l[|l| - 1]).1);
    }
  }

  // ---------------------------------------------------------------- which scopes the code refers to

  /** Slot k occurs somewhere in the executable code. */
  ghost predicate Uses(c: Instr<nat>, k: nat)
    decreases Height(c)
  {
    || k in Refs(c.body)
    || (ChildrenLower(c); exists d :: d in Children(c.body) && Uses(d, k))
  }

  /** Slot k is bound on the path or in a scope generated since `low`. */
  ghost predicate Reaches(t: Tables, path: Path, low: int, k: nat) {
    exists id, x :: Binds(t.keys, id, x) && t.keys[id][x] == k && (id in path || low <= id < t.nextId)
  }

  lemma {:induction false} SingleChildren(kids: seq<Instr<nat>>)
    ensures Expand(Single(kids)) == kids
  {
    if kids != [] {
      var n := |kids| - 1;
      SingleChildren(kids[..n]);
      assert Single(kids)[..n] == Single(kids[..n]);
      assert Copies(kids[n], 1) == Copies(kids[n], 0) + [kids[n]];
    }
  }

  lemma ResolvedRefs(t: Tables, path: Path, prefix: string, b: Body<string>, kids: seq<Instr<nat>>)
    ensures var own := Refs(Resolve(t, path, prefix, b, kids));
            |own| == |Refs(b)| && forall n :: 0 <= n < |own| ==> own[n] == Slot(t, path, Refs(b)[n])
  {}

  lemma ResolvedParts(t: Tables, path: Path, prefix: string, b: Body<string>, kids: seq<Instr<nat>>)
    requires |kids| == |Children(b)|
    ensures Children(Resolve(t, path, prefix, b, kids)) == kids
    ensures forall k :: k in Refs(Resolve(t, path, prefix, b, kids)) ==>
      exists x :: x in Refs(b) && k == Slot(t, path, x)
  {
    SingleChildren(kids);
    ResolvedRefs(t, path, prefix, b, kids);
    var own, names := Refs(Resolve(t, path, prefix, b, kids)), Refs(b);
    forall k | k in own ensures exists x :: x in names && k == Slot(t, path, x) {
      var n :| 0 <= n < |own| && own[n] == k;
      assert names[n] in names;
    }
  }

  /** Code compiled for a path reaches only scopes on that path and scopes of its own descendants. */
  lemma {:induction false} CompileReaches(t: Tables, prefix: string, path: Path, i: Instr<string>, k: nat)
    requires Inv(t) && Registered(t, path) && Uses(Compile(t, prefix, path, i).0, k)
    ensures Reaches(Compile(t, prefix, path, i).1, path, t.nextId, k)
    decreases Height(i), 0
  {
    ChildrenLower(i);
    var l, spawn := Children(i.body), i.body.Multithreading?;
    var (kids, u) := CompileAll(t, prefix, path, l, spawn, Height(i));
    var (code, v) := Compile(t, prefix, path, i);
    CompileAllExtends(t, prefix, path, l, spawn, Height(i));
    ExtendsKeeps(t, u);
    KeysExtend(u, path, Refs(i.body));
    ExtendsKeeps(u, v);
    ResolvedParts(v, path, prefix, i.body, kids);
    if k in Refs(code.body) {
      var x :| x in Refs(i.body) && k == Slot(v, path, x);
      KeysBind(u, path, Refs(i.body));
      assert Binds(v.keys, path[Innermost(v.keys, path, x).value], x);
    } else {
      var d :| d in kids && Uses(d, k);
      var n :| 0 <= n < |kids| && kids[n] == d;
      CompileAllReaches(t, prefix, path, l, spawn, Height(i), n, k);
      ReachesLater(u, v, path, t.nextId, k);
    }
  }

  lemma ReachesLater(t: Tables, u: Tables, path: Path, low: int, k: nat)
    requires Inv(t) && Extends(t, u) && Reaches(t, path, low, k)
    ensures Reaches(u, path, low, k)
  {
    ExtendsKeeps(t, u);
    var id, x :| Binds(t.keys, id, x) && t.keys[id][x] == k && (id in path || low <= id < t.nextId);
    assert Binds(u.keys, id, x);
  }

  lemma CompileAllIs(t: Tables, prefix: string, path: Path, l: seq<Instr<string>>, spawn: bool, bound: nat)
    requires path != [] && l != []
    requires forall i :: i in l ==> Height(i) < bound
    ensures var front := l[..|l| - 1];
            var (kids, u) := CompileAll(t, prefix, path, front, spawn, bound);
            var (own, v) := if spawn then (path + [u.nextId], AfterSpawn(u, path)) else (path, u);
            var (kid, w) := Compile(v, prefix, own, l[|l| - 1]);
            && CompileAll(t, prefix, path, l, spawn, bound) == (kids + [kid], w)
            && |kids| == |front|
  {}

  lemma {:induction false} CompileAllReaches(t: Tables, prefix: string, path: Path, l: seq<Instr<string>>, spawn: bool,
                                             bound: nat, n: nat, k: nat)
    requires Inv(t) && Registered(t, path) && n < |l|
    requires forall i :: i in l ==> Height(i) < bound
    requires Uses(CompileAll(t, prefix, path, l, spawn, bound).0[n], k)
    ensures Reaches(CompileAll(t, prefix, path, l, spawn, bound).1, path, t.nextId, k)
    decreases bound, 0, |l|
  {
    var front := l[..|l| - 1];
    var u := CompileAll(t, prefix, path, front, spawn, bound).1;
    var (own, v) := if spawn then (path + [u.nextId], AfterSpawn(u, path)) else (path, u);
    var w := Compile(v, prefix, own, l[|l| - 1]).1;
    LastChild(t, prefix, path, l, spawn, bound);
    CompileAllIs(t, prefix, path, l, spawn, bound);
    if n < |l| - 1 {
      CompileAllReaches(t, prefix, path, front, spawn, bound, n, k);
      ReachesLater(u, w, path, t.nextId, k);
    } else {
      CompileReaches(v, prefix, own, l[n], k);
      ReachesWider(w, own, v.nextId, path, t.nextId, k);
    }
  }

  /** The tables around the compilation of the last child. */
  lemma LastChild(t: Tables, prefix: string, path: Path, l: seq<Instr<string>>, spawn: bool, bound: nat)
    requires Inv(t) && Registered(t, path) && l != []
    requires forall i :: i in l ==> Height(i) < bound
    ensures var u := CompileAll(t, prefix, path, l[..|l| - 1], spawn, bound).1;
            var (own, v) := if spawn then (path + [u.nextId], AfterSpawn(u, path)) else (path, u);
            var w := Compile(v, prefix, own, l[|l| - 1]).1;
            && Inv(u) && Registered(u, path) && Inv(v) && Registered(v, own)
            && t.nextId <= u.nextId <= v.nextId <= w.nextId && Extends(u, w)
            && (spawn ==> u.nextId < w.nextId)
  {
    var u := CompileAll(t, prefix, path, l[..|l| - 1], spawn, bound).1;
    CompileAllExtends(t, prefix, path, l[..|l| - 1], spawn, bound);
    ExtendsKeeps(t, u);
    var (own, v) := if spawn then (path + [u.nextId], AfterSpawn(u, path)) else (path, u);
    ExtendsSelf(u);
    if spawn { ExtendsOne(u, u, Spawn(path)); }
    ExtendsKeeps(u, v);
    CompileExtends(v, prefix, own, l[|l| - 1]);
    ExtendsKeeps(v, Compile(v, prefix, own, l[|l| - 1]).1);
    ExtendsTransitive(u, v, Compile(v, prefix, own, l[|l| - 1]).1);
  }

  /** What a child scope reaches, seen from its parent. */
  lemma ReachesWider(w: Tables, own: Path, ownLow: int, path: Path, low: int, k: nat)
    requires Reaches(w, own, ownLow, k) && low <= ownLow
    requires forall id :: id in own ==> id in path || low <= id < w.nextId
    ensures Reaches(w, path, low, k)
  {
    var id, x :| Binds(w.keys, id, x) && w.keys[id][x] == k && (id in own || ownLow <= id < w.nextId);
    assert id in path || low <= id < w.nextId;
  }
}
