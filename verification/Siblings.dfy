/**
 * Sibling threads of one `multithreading` node do not interfere: the slots that the code of one
 * thread binds for itself never occur in the code of another, so in any interleaving of the
 * threads' reads and writes they hold what they hold when the thread runs alone.
 */
module Siblings {
  import opened Scopes
  import opened Workload
  import opened Factory

  /** Slot k is bound in a scope on the path, so every thread below the path can see it. */
  ghost predicate Shared(t: Tables, path: Path, k: nat) {
    exists id, x :: Binds(t.keys, id, x) && t.keys[id][x] == k && id in path
  }

  ghost predicate BoundBetween(t: Tables, low: int, high: int, k: nat) {
    exists id, x :: Binds(t.keys, id, x) && t.keys[id][x] == k && low <= id < high
  }

  /** Compiling the first n children is a prefix of compiling them all. */
  lemma {:induction false} CompilePrefix(t: Tables, prefix: string, path: Path, l: seq<Instr<string>>, bound: nat,
        n: nat)
    requires Inv(t) && Registered(t, path) && n <= |l|
    requires forall i :: i in l ==> Height(i) < bound
    ensures CompileAll(t, prefix, path, l, true, bound).0[..n] == CompileAll(t, prefix, path, l[..n], true, bound).0
    ensures Inv(CompileAll(t, prefix, path, l[..n], true, bound).1)
    ensures Registered(CompileAll(t, prefix, path, l[..n], true, bound).1, path)
    ensures Extends(CompileAll(t, prefix, path, l[..n], true, bound).1, CompileAll(t, prefix, path, l, true, bound).1)
    decreases |l|
  {
    CompileAllExtends(t, prefix, path, l[..n], true, bound);
    ExtendsKeeps(t, CompileAll(t, prefix, path, l[..n], true, bound).1);
    if n == |l| {
      assert l[..n] == l;
      ExtendsSelf(CompileAll(t, prefix, path, l, true, bound).1);
    } else {
      var front := l[..|l| - 1];
      assert front[..n] == l[..n];
      CompilePrefix(t, prefix, path, front, bound, n);
      var u := CompileAll(t, prefix, path, front, true, bound).1;
      CompileAllExtends(t, prefix, path, front, true, bound);
      ExtendsKeeps(t, u);
      ExtendsSelf(u);
      var v := AfterSpawn(u, path);
      ExtendsOne(u, u, Spawn(path));
      ExtendsKeeps(u, v);
      CompileExtends(v, prefix, path + [u.nextId], l[|l| - 1]);
      ExtendsTransitive(u, v, CompileAll(t, prefix, path, l, true, bound).1);
      ExtendsTransitive(CompileAll(t, prefix, path, l[..n], true, bound).1, u,
                        CompileAll(t, prefix, path, l, true, bound).1);
    }
  }

  lemma {:induction false} ChildCode(t: Tables, prefix: string, path: Path, l: seq<Instr<string>>, bound: nat, n: nat)
    requires Inv(t) && Registered(t, path) && n < |l|
    requires forall i :: i in l ==> Height(i) < bound
    ensures var u := CompileAll(t, prefix, path, l[..n], true, bound).1;
            var child := Compile(AfterSpawn(u, path), prefix, path + [u.nextId], l[n]);
            && CompileAll(t, prefix, path, l, true, bound).0[n] == child.0
            && CompileAll(t, prefix, path, l[..n + 1], true, bound).1 == child.1
  {
    CompilePrefix(t, prefix, path, l, bound, n + 1);
    assert l[..n + 1][..n] == l[..n];
    var all := CompileAll(t, prefix, path, l, true, bound).0;
    assert all[n] == all[..n + 1][n];
  }

  /** Where child n's slots live: on the path, or in the scopes generated while child n was compiled. */
  lemma {:induction false} ChildReaches(t: Tables, prefix: string, path: Path, l: seq<Instr<string>>, bound: nat,
        n: nat, k: nat)
    requires Inv(t) && Registered(t, path) && n < |l|
    requires forall i :: i in l ==> Height(i) < bound
    requires Uses(CompileAll(t, prefix, path, l, true, bound).0[n], k)
    ensures var last := CompileAll(t, prefix, path, l, true, bound).1;
            || Shared(last, path, k)
            || BoundBetween(last, CompileAll(t, prefix, path, l[..n], true, bound).1.nextId,
                            CompileAll(t, prefix, path, l[..n + 1], true, bound).1.nextId, k)
  {
    AroundChild(t, prefix, path, l, bound, n);
    ChildCode(t, prefix, path, l, bound, n);
    OwnReaches(CompileAll(t, prefix, path, l[..n], true, bound).1, prefix, path, l[n],
               CompileAll(t, prefix, path, l, true, bound).1, k);
  }

  /** The tables around the compilation of child n. */
  lemma AroundChild(t: Tables, prefix: string, path: Path, l: seq<Instr<string>>, bound: nat, n: nat)
    requires Inv(t) && Registered(t, path) && n < |l|
    requires forall i :: i in l ==> Height(i) < bound
    ensures var u := CompileAll(t, prefix, path, l[..n], true, bound).1;
            var w := CompileAll(t, prefix, path, l[..n + 1], true, bound).1;
            && Inv(AfterSpawn(u, path)) && Registered(AfterSpawn(u, path), path + [u.nextId])
            && u.nextId < w.nextId && Kept(w, CompileAll(t, prefix, path, l, true, bound).1)
  {
    BeforeChild(t, prefix, path, l, l[..n + 1], bound, n);
    CompilePrefix(t, prefix, path, l, bound, n + 1);
    ExtendsKeeps(CompileAll(t, prefix, path, l[..n + 1], true, bound).1, CompileAll(t, prefix, path, l, true, bound).1);
  }

  lemma BeforeChild(t: Tables, prefix: string, path: Path, l: seq<Instr<string>>, part: seq<Instr<string>>,
                    bound: nat, n: nat)
    requires Inv(t) && Registered(t, path) && n < |l| && part == l[..n + 1]
    requires forall i :: i in l ==> Height(i) < bound
    ensures var u := CompileAll(t, prefix, path, l[..n], true, bound).1;
            && Inv(AfterSpawn(u, path)) && Registered(AfterSpawn(u, path), path + [u.nextId])
            && u.nextId < CompileAll(t, prefix, path, part, true, bound).1.nextId
  {
    assert part[..|part| - 1] == l[..n];
    LastChild(t, prefix, path, part, true, bound);
  }

  /** The same, seen from the tables before and after the child. */
  lemma OwnReaches(u: Tables, prefix: string, path: Path, i: Instr<string>, last: Tables, k: nat)
    requires path != [] && Inv(AfterSpawn(u, path)) && Registered(AfterSpawn(u, path), path + [u.nextId])
    requires var child := Compile(AfterSpawn(u, path), prefix, path + [u.nextId], i);
             Uses(child.0, k) && Kept(child.1, last) && u.nextId < child.1.nextId
    ensures var w := Compile(AfterSpawn(u, path), prefix, path + [u.nextId], i).1;
            Shared(last, path, k) || BoundBetween(last, u.nextId, w.nextId, k)
  {
    var v, own := AfterSpawn(u, path), path + [u.nextId];
    CompileReaches(v, prefix, own, i, k);
    ReachesHere(Compile(v, prefix, own, i).1, last, own, v.nextId, path, u.nextId, k);
  }

  lemma ReachesHere(w: Tables, last: Tables, own: Path, ownLow: int, path: Path, low: int, k: nat)
    requires Reaches(w, own, ownLow, k) && Kept(w, last)
    requires low <= ownLow && own == path + [low] && low < w.nextId
    ensures Shared(last, path, k) || BoundBetween(last, low, w.nextId, k)
  {
    var id, x :| Binds(w.keys, id, x) && w.keys[id][x] == k && (id in own || ownLow <= id < w.nextId);
    assert Binds(last.keys, id, x) && last.keys[id][x] == k;
    assert id in path || low <= id < w.nextId;
  }

  /** A slot that occurs in the code of two siblings is bound by a common ancestor. */
  lemma SiblingsShareOnlyAncestors(t: Tables, prefix: string, path: Path, l: seq<Instr<string>>, bound: nat,
                                   i: nat, j: nat, k: nat)
    requires Inv(t) && Registered(t, path) && i < |l| && j < |l| && i != j
    requires forall x :: x in l ==> Height(x) < bound
    requires Uses(CompileAll(t, prefix, path, l, true, bound).0[i], k)
    requires Uses(CompileAll(t, prefix, path, l, true, bound).0[j], k)
    ensures Shared(CompileAll(t, prefix, path, l, true, bound).1, path, k)
  {
    if j < i {
      SiblingsShareOnlyAncestors(t, prefix, path, l, bound, j, i, k);
    } else {
      ChildReaches(t, prefix, path, l, bound, i, k);
      ChildReaches(t, prefix, path, l, bound, j, k);
      IdsInOrder(t, prefix, path, l, bound, i + 1, j);
      CompileAllExtends(t, prefix, path, l, true, bound);
      ExtendsKeeps(t, CompileAll(t, prefix, path, l, true, bound).1);
    }
  }

  lemma IdsInOrder(t: Tables, prefix: string, path: Path, l: seq<Instr<string>>, bound: nat, i: nat, j: nat)
    requires Inv(t) && Registered(t, path) && i <= j <= |l|
    requires forall x :: x in l ==> Height(x) < bound
    ensures CompileAll(t, prefix, path, l[..i], true, bound).1.nextId
         <= CompileAll(t, prefix, path, l[..j], true, bound).1.nextId
  {
    assert l[..j][..i] == l[..i];
    CompilePrefix(t, prefix, path, l[..j], bound, i);
    ExtendsKeeps(CompileAll(t, prefix, path, l[..i], true, bound).1,
                 CompileAll(t, prefix, path, l[..j], true, bound).1);
  }

  // ---------------------------------------------------------------- interleaved reads and writes

  datatype Access = Read(thread: nat, slot: nat) | Write(thread: nat, slot: nat, value: Value)

  /** The slots after a log of accesses; the vector never grows. */
  function Replay(slots: seq<Value>, log: seq<Access>): (r: seq<Value>)
    ensures |r| == |slots|
  {
    if log == [] then slots
    else
      var before := Replay(slots, log[..|log| - 1]);
      match log[|log| - 1]
      case Read(_, _) => before
      case Write(_, k, v) => if k < |before| then before[k := v] else before
  }

  /** The values that the reads of one thread from the given slots return, in order. */
  function Reads(slots: seq<Value>, log: seq<Access>, thread: nat, mine: set<nat>): seq<Value> {
    if log == [] then []
    else
      var a, front := log[|log| - 1], log[..|log| - 1];
      Reads(slots, front, thread, mine)
      + if a.Read? && a.thread == thread && a.slot in mine && a.slot < |slots|
        then [Replay(slots, front)[a.slot]] else []
  }

  /** The accesses of one thread: what is left when it runs alone. */
  function Alone(log: seq<Access>, thread: nat): seq<Access> {
    if log == [] then []
    else
      Alone(log[..|log| - 1], thread)
      + if log[|log| - 1].thread == thread then [log[|log| - 1]] else []
  }

  lemma {:induction false} NoOtherAccess(slots: seq<Value>, log: seq<Access>, thread: nat, mine: set<nat>)
    requires forall n :: 0 <= n < |log| && log[n].thread != thread ==> log[n].slot !in mine
    ensures forall k :: k in mine && k < |slots| ==> Replay(slots, log)[k] == Replay(slots, Alone(log, thread))[k]
    ensures Reads(slots, log, thread, mine) == Reads(slots, Alone(log, thread), thread, mine)
  {
    if log != [] {
      var front, a := log[..|log| - 1], log[|log| - 1];
      NoOtherAccess(slots, front, thread, mine);
      if a.thread == thread {
        assert Alone(log, thread)[..|Alone(front, thread)|] == Alone(front, thread);
      } else {
        assert Alone(log, thread) == Alone(front, thread);
      }
    }
  }

  /**
   * In any interleaving of the accesses of sibling threads, to slots of their own code or of common
   * ancestors such as the absolute path, the slots private to thread i end with the values, and its
   * reads of them return the values, of thread i running alone.
   */
  lemma NonInterference(t: Tables, prefix: string, path: Path, l: seq<Instr<string>>, bound: nat,
                        slots: seq<Value>, log: seq<Access>, i: nat, mine: set<nat>)
    requires Inv(t) && Registered(t, path) && i < |l|
    requires forall x :: x in l ==> Height(x) < bound
    requires forall n :: 0 <= n < |log| ==> log[n].thread < |l|
    requires forall n :: 0 <= n < |log| ==>
      || Uses(CompileAll(t, prefix, path, l, true, bound).0[log[n].thread], log[n].slot)
      || Shared(CompileAll(t, prefix, path, l, true, bound).1, path, log[n].slot)
    requires forall k :: k in mine ==>
      Uses(CompileAll(t, prefix, path, l, true, bound).0[i], k)
      && !Shared(CompileAll(t, prefix, path, l, true, bound).1, path, k)
    ensures forall k :: k in mine && k < |slots| ==> Replay(slots, log)[k] == Replay(slots, Alone(log, i))[k]
    ensures Reads(slots, log, i, mine) == Reads(slots, Alone(log, i), i, mine)
  {
    forall n | 0 <= n < |log| && log[n].thread != i ensures log[n].slot !in mine {
      if log[n].slot in mine {
        SiblingsShareOnlyAncestors(t, prefix, path, l, bound, log[n].thread, i, log[n].slot);
      }
    }
    NoOtherAccess(slots, log, i, mine);
  }
}
