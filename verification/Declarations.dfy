/**
 * Which benchmarks parse to their end: a lock or unlock whose mutex no scope on its path has declared
 * ends the program while the benchmark is being parsed.
 */
module Declarations {
  import opened Scopes
  import opened Workload
  import opened Factory

  /** A lock or unlock of a name that no scope on the path has declared. */
  predicate LockUndeclared(t: Tables, path: Path, b: Body<string>) {
    match b
    case Lock(mutex) => !Bound(t, path, mutex)
    case Unlock(mutex) => !Bound(t, path, mutex)
    case _ => false
  }

  /** Compiling i from the tables t meets no undeclared lock or unlock. */
  predicate Declared(t: Tables, prefix: string, path: Path, i: Instr<string>)
    requires path != []
    decreases Height(i), 0
  {
    ChildrenLower(i);
    var l, spawn := Children(i.body), i.body.Multithreading?;
    && DeclaredAll(t, prefix, path, l, spawn, Height(i))
    && !LockUndeclared(CompileAll(t, prefix, path, l, spawn, Height(i)).1, path, i.body)
  }

  predicate DeclaredAll(t: Tables, prefix: string, path: Path, l: seq<Instr<string>>, spawn: bool, ghost bound: nat)
    requires path != []
    requires forall i :: i in l ==> Height(i) < bound
    decreases bound, 0, |l|
  {
    l == [] || (
      var u := CompileAll(t, prefix, path, l[..|l| - 1], spawn, bound).1;
      var (own, v) := if spawn then (path + [u.nextId], AfterSpawn(u, path)) else (path, u);
      DeclaredAll(t, prefix, path, l[..|l| - 1], spawn, bound) && Declared(v, prefix, own, l[|l| - 1]))
  }

  // ---------------------------------------------------------------- what a reader of the benchmark can check

  /** The instructions of a tree in the order in which they are compiled: children before their set. */
  function InOrder(i: Instr<string>): seq<Body<string>>
    decreases i, 1
  {
    (match i.body case InstructionSet(l, _) => AllInOrder(l) case _ => []) + [i.body]
  }

  function AllInOrder(l: seq<Instr<string>>): seq<Body<string>>
    decreases l, 0
  {
    if l == [] then [] else AllInOrder(l[..|l| - 1]) + InOrder(l[|l| - 1])
  }

  ghost predicate NamedBefore(bodies: seq<Body<string>>, n: nat, x: string)
    requires n <= |bodies|
  {
    exists m :: 0 <= m < n && x in Refs(bodies[m])
  }

  /** A lock or unlock names a global, or a variable that an earlier instruction names. */
  ghost predicate LockNamed(globals: seq<string>, bodies: seq<Body<string>>, n: nat)
    requires n < |bodies|
  {
    var b := bodies[n];
    b.Lock? || b.Unlock? ==> b.mutex in globals || NamedBefore(bodies, n, b.mutex)
  }

  ghost predicate LocksNamed(globals: seq<string>, bodies: seq<Body<string>>) {
    forall n: nat :: n < |bodies| ==> LockNamed(globals, bodies, n)
  }

  /** No lock or unlock anywhere in the tree. */
  ghost predicate LockFree(i: Instr<string>)
    decreases i
  {
    match i.body
    case Lock(_) => false
    case Unlock(_) => false
    case InstructionSet(l, _) => forall x :: x in l ==> LockFree(x)
    case _ => true
  }

  predicate NoLocks(bodies: seq<Body<string>>) {
    forall n :: 0 <= n < |bodies| ==> !bodies[n].Lock? && !bodies[n].Unlock?
  }

  lemma {:induction false} LockFreeInOrder(i: Instr<string>)
    requires LockFree(i)
    ensures NoLocks(InOrder(i))
    decreases i, 1
  {
    if i.body.InstructionSet? { AllLockFree(i.body.instructions); }
  }

  lemma {:induction false} AllLockFree(l: seq<Instr<string>>)
    requires forall x :: x in l ==> LockFree(x)
    ensures NoLocks(AllInOrder(l))
    decreases l, 0
  {
    if l != [] {
      AllLockFree(l[..|l| - 1]);
      LockFreeInOrder(l[|l| - 1]);
    }
  }

  // ---------------------------------------------------------------- compiling in order

  /** All variables the bodies name, in order. */
  function Names(bodies: seq<Body<string>>): seq<string> {
    if bodies == [] then [] else Names(bodies[..|bodies| - 1]) + Refs(bodies[|bodies| - 1])
  }

  /** Compiled one after the other in one scope, the bodies meet no undeclared lock or unlock. */
  predicate DeclaredInOrder(t: Tables, path: Path, bodies: seq<Body<string>>)
    requires path != []
  {
    bodies == [] || (
      var front := bodies[..|bodies| - 1];
      && DeclaredInOrder(t, path, front)
      && !LockUndeclared(AfterKeys(t, path, Names(front)), path, bodies[|bodies| - 1]))
  }

  lemma {:induction false} NamesAppend(a: seq<Body<string>>, b: seq<Body<string>>)
    ensures Names(a + b) == Names(a) + Names(b)
  {
    if b == [] {
      assert a + b == a;
    } else {
      var front := b[..|b| - 1];
      NamesAppend(a, front);
      assert (a + b)[..|a + b| - 1] == a + front && (a + b)[|a + b| - 1] == b[|b| - 1];
      Associative(Names(a), Names(front), Refs(b[|b| - 1]));
    }
  }

  lemma Associative(a: seq<string>, b: seq<string>, c: seq<string>)
    ensures a + b + c == a + (b + c)
  {}

  lemma {:induction false} AfterKeysAppend(t: Tables, path: Path, a: seq<string>, b: seq<string>)
    requires path != []
    ensures AfterKeys(t, path, a + b) == AfterKeys(AfterKeys(t, path, a), path, b)
  {
    if b == [] {
      assert a + b == a;
    } else {
      AfterKeysAppend(t, path, a, b[..|b| - 1]);
      assert (a + b)[..|a + b| - 1] == a + b[..|b| - 1];
    }
  }

  lemma {:induction false} DeclaredAppend(t: Tables, path: Path, a: seq<Body<string>>, b: seq<Body<string>>)
    requires path != []
    ensures DeclaredInOrder(t, path, a + b)
       <==> DeclaredInOrder(t, path, a) && DeclaredInOrder(AfterKeys(t, path, Names(a)), path, b)
  {
    if b == [] {
      assert a + b == a;
    } else {
      var front := b[..|b| - 1];
      DeclaredAppend(t, path, a, front);
      assert (a + b)[..|a + b| - 1] == a + front && (a + b)[|a + b| - 1] == b[|b| - 1];
      NamesAppend(a, front);
      AfterKeysAppend(t, path, Names(a), Names(front));
    }
  }

  lemma OneName(t: Tables, path: Path, b: Body<string>)
    requires path != []
    ensures Names([b]) == Refs(b)
    ensures DeclaredInOrder(t, path, [b]) <==> !LockUndeclared(t, path, b)
  {
    assert [b][..0] == [] && Names([]) == [] && [] + Refs(b) == Refs(b);
    assert AfterKeys(t, path, []) == t && DeclaredInOrder(t, path, []);
  }

  /** Without threads, compiling a tree is compiling its bodies in order, all in the scope of the tree. */
  lemma {:induction false} CompilesInOrder(t: Tables, prefix: string, path: Path, i: Instr<string>)
    requires path != [] && ThreadFree(i)
    ensures Compile(t, prefix, path, i).1 == AfterKeys(t, path, Names(InOrder(i)))
    ensures Declared(t, prefix, path, i) <==> DeclaredInOrder(t, path, InOrder(i))
    decreases Height(i), 0
  {
    ChildrenLower(i);
    var l := Children(i.body);
    var below := AllInOrder(l);
    AllCompileInOrder(t, prefix, path, l, Height(i));
    var u := CompileAll(t, prefix, path, l, false, Height(i)).1;
    assert InOrder(i) == below + [i.body];
    DeclaredAppend(t, path, below, [i.body]);
    OneName(u, path, i.body);
    NamesAppend(below, [i.body]);
    AfterKeysAppend(t, path, Names(below), Refs(i.body));
  }

  lemma {:induction false} AllCompileInOrder(t: Tables, prefix: string, path: Path, l: seq<Instr<string>>, bound: nat)
    requires path != [] && AllThreadFree(l)
    requires forall i :: i in l ==> Height(i) < bound
    ensures CompileAll(t, prefix, path, l, false, bound).1 == AfterKeys(t, path, Names(AllInOrder(l)))
    ensures DeclaredAll(t, prefix, path, l, false, bound) <==> DeclaredInOrder(t, path, AllInOrder(l))
    decreases bound, 0, |l|
  {
    if l == [] {
      assert AfterKeys(t, path, []) == t;
    } else {
      var front, last := l[..|l| - 1], l[|l| - 1];
      AllCompileInOrder(t, prefix, path, front, bound);
      var u := CompileAll(t, prefix, path, front, false, bound).1;
      CompilesInOrder(u, prefix, path, last);
      DeclaredAppend(t, path, AllInOrder(front), InOrder(last));
      NamesAppend(AllInOrder(front), InOrder(last));
      AfterKeysAppend(t, path, Names(AllInOrder(front)), Names(InOrder(last)));
    }
  }

  // ---------------------------------------------------------------- the exact condition

  /** After requests for some names, exactly those are visible besides what was visible before. */
  lemma {:induction false} BoundAfterKeys(t: Tables, path: Path, names: seq<string>, x: string)
    requires path != []
    ensures Bound(AfterKeys(t, path, names), path, x) <==> Bound(t, path, x) || x in names
  {
    if names != [] {
      var front, last := names[..|names| - 1], names[|names| - 1];
      BoundAfterKeys(t, path, front, x);
      BoundAfterGetKey(AfterKeys(t, path, front), path, last, x);
      assert names == front + [last];
    }
  }

  lemma BoundAfterGetKey(t: Tables, path: Path, name: string, x: string)
    requires path != []
    ensures Bound(AfterGetKey(t, path, name), path, x) <==> Bound(t, path, x) || x == name
  {
    var u := AfterGetKey(t, path, name);
    if !Bound(t, path, name) {
      forall id ensures Binds(u.keys, id, x) <==> Binds(t.keys, id, x) || (id == Last(path) && x == name) {
        BindAt(t.keys, Last(path), name, t.size, id, x);
      }
      BoundExactly(u.keys, path, x);
      BoundExactly(t.keys, path, x);
    }
  }

  lemma BoundExactly(keys: map<int, map<string, nat>>, path: Path, x: string)
    ensures Lookup(keys, path, x).Some? <==> exists k :: 0 <= k < |path| && Binds(keys, path[k], x)
  {}

  lemma {:induction false} InNames(bodies: seq<Body<string>>, n: nat, x: string)
    requires n <= |bodies|
    ensures x in Names(bodies[..n]) <==> NamedBefore(bodies, n, x)
  {
    if n > 0 {
      InNames(bodies, n - 1, x);
      NamesStep(bodies, n);
      BeforeStep(bodies, n, x);
    }
  }

  lemma BeforeStep(bodies: seq<Body<string>>, n: nat, x: string)
    requires 0 < n <= |bodies|
    ensures NamedBefore(bodies, n, x) <==> NamedBefore(bodies, n - 1, x) || x in Refs(bodies[n - 1])
  {}

  lemma NamesStep(bodies: seq<Body<string>>, n: nat)
    requires 0 < n <= |bodies|
    ensures Names(bodies[..n]) == Names(bodies[..n - 1]) + Refs(bodies[n - 1])
  {
    assert bodies[..n][..n - 1] == bodies[..n - 1];
  }

  lemma {:induction false} DeclaredExactly(t: Tables, path: Path, globals: seq<string>, bodies: seq<Body<string>>)
    requires path != [] && forall x :: Bound(t, path, x) <==> x in globals
    ensures DeclaredInOrder(t, path, bodies) <==> LocksNamed(globals, bodies)
  {
    if bodies != [] {
      var k := |bodies| - 1;
      var front, last := bodies[..k], bodies[k];
      DeclaredExactly(t, path, globals, front);
      NamedStep(globals, bodies, front, k);
      LastNamed(t, path, globals, bodies, k);
    }
  }

  lemma LastNamed(t: Tables, path: Path, globals: seq<string>, bodies: seq<Body<string>>, n: nat)
    requires path != [] && n < |bodies| && forall x :: Bound(t, path, x) <==> x in globals
    ensures LockUndeclared(AfterKeys(t, path, Names(bodies[..n])), path, bodies[n]) <==> !LockNamed(globals, bodies, n)
  {
    if bodies[n].Lock? || bodies[n].Unlock? {
      BoundAfterKeys(t, path, Names(bodies[..n]), bodies[n].mutex);
      InNames(bodies, n, bodies[n].mutex);
    }
  }

  lemma NamedStep(globals: seq<string>, bodies: seq<Body<string>>, front: seq<Body<string>>, k: nat)
    requires |bodies| == k + 1 && front == bodies[..k]
    ensures LocksNamed(globals, bodies) <==> LocksNamed(globals, front) && LockNamed(globals, bodies, k)
  {
    forall n: nat | n < k ensures LockNamed(globals, bodies, n) <==> LockNamed(globals, front, n) {
      assert forall x :: NamedBefore(bodies, n, x) <==> NamedBefore(front, n, x);
    }
  }
}
