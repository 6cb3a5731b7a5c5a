/**
 * How many threads a `multithreading` instruction starts and what each of them runs: thread t of the
 * workload is spawned `spawn` times, each copy compiled under a fresh id of its own.
 */
module Spawning {
  import opened Scopes
  import opened Workload
  import opened Factory
  import opened Siblings

  /** How many copies the first t threads ask for; a count below zero asks for none. */
  function SpawnedBefore<V>(threads: seq<Thread<V>>, t: nat): nat
    requires t <= |threads|
  {
    if t == 0 then 0
    else SpawnedBefore(threads, t - 1) + if threads[t - 1].spawn < 0 then 0 else threads[t - 1].spawn
  }

  lemma {:induction false} CopiesCount<V>(i: Instr<V>, n: int)
    ensures |Copies(i, n)| == if n < 0 then 0 else n
    ensures forall k :: 0 <= k < n ==> Copies(i, n)[k] == i
  {
    if n > 0 { CopiesCount(i, n - 1); }
  }

  lemma {:induction false} SpawnedWithin<V>(threads: seq<Thread<V>>, t: nat)
    requires t < |threads|
    ensures SpawnedBefore(threads[..|threads| - 1], t) == SpawnedBefore(threads, t)
  {
    if t > 0 { SpawnedWithin(threads, t - 1); }
  }

  lemma {:induction false} ExpandCount<V>(threads: seq<Thread<V>>)
    ensures |Expand(threads)| == SpawnedBefore(threads, |threads|)
  {
    if threads != [] {
      var n := |threads| - 1;
      ExpandCount(threads[..n]);
      SpawnedWithin(threads, n);
      CopiesCount(threads[n].instruction, threads[n].spawn);
    }
  }

  /** Copy k of thread t comes after all copies of the threads before it. */
  lemma {:induction false} ExpandAt<V>(threads: seq<Thread<V>>, t: nat, k: nat)
    requires t < |threads| && k < threads[t].spawn
    ensures SpawnedBefore(threads, t) + k < |Expand(threads)|
    ensures Expand(threads)[SpawnedBefore(threads, t) + k] == threads[t].instruction
  {
    var n := |threads| - 1;
    SpawnedWithin(threads, t);
    CopiesCount(threads[n].instruction, threads[n].spawn);
    if t < n {
      ExpandAt(threads[..n], t, k);
    } else {
      ExpandCount(threads[..n]);
    }
  }

  /** The tables when child m of the node is about to get its id. */
  function BeforeSpawn(t: Tables, prefix: string, path: Path, i: Instr<string>, m: nat): Tables
    requires path != [] && i.body.Multithreading? && m <= |Expand(i.body.threads)|
  {
    ChildrenLower(i);
    CompileAll(t, prefix, path, Expand(i.body.threads)[..m], true, Height(i)).1
  }

  /** The ids of the children are new and increase from one child to the next. */
  lemma {:induction false} FreshIds(t: Tables, prefix: string, path: Path, i: Instr<string>, m: nat, n: nat)
    requires Inv(t) && Registered(t, path) && i.body.Multithreading? && m < n < |Expand(i.body.threads)|
    ensures t.nextId <= BeforeSpawn(t, prefix, path, i, m).nextId < BeforeSpawn(t, prefix, path, i, n).nextId
  {
    ChildrenLower(i);
    var l := Expand(i.body.threads);
    IdsInOrder(t, prefix, path, l, Height(i), 0, m);
    AroundChild(t, prefix, path, l, Height(i), m);
    IdsInOrder(t, prefix, path, l, Height(i), m + 1, n);
  }

  /**
   * The executable form of a `multithreading` instruction keeps its repetitions and its choice between
   * threads and processes, and has one entry for each copy asked for.
   */
  lemma {:induction false} SpawnsAll(t: Tables, prefix: string, path: Path, i: Instr<string>)
    requires path != [] && i.body.Multithreading?
    ensures var c := Compile(t, prefix, path, i).0;
      && c.repeat == i.repeat && c.body.Multithreading? && c.body.fork == i.body.fork
      && |c.body.threads| == SpawnedBefore(i.body.threads, |i.body.threads|)
      && forall m :: 0 <= m < |c.body.threads| ==> c.body.threads[m].spawn == 1
  {
    ExpandCount(i.body.threads);
  }

  /** Copy k of thread n is that thread's instruction, compiled below the path under the copy's own id. */
  lemma {:induction false} SpawnsEach(t: Tables, prefix: string, path: Path, i: Instr<string>, n: nat, k: nat)
    requires Inv(t) && Registered(t, path) && i.body.Multithreading?
    requires n < |i.body.threads| && k < i.body.threads[n].spawn
    ensures var c, m := Compile(t, prefix, path, i).0, SpawnedBefore(i.body.threads, n) + k;
      && c.body.Multithreading? && m < |c.body.threads| && m < |Expand(i.body.threads)|
      && var u := BeforeSpawn(t, prefix, path, i, m);
        c.body.threads[m].instruction
          == Compile(AfterSpawn(u, path), prefix, path + [u.nextId], i.body.threads[n].instruction).0
  {
    ChildrenLower(i);
    ExpandAt(i.body.threads, n, k);
    ChildCode(t, prefix, path, Expand(i.body.threads), Height(i), SpawnedBefore(i.body.threads, n) + k);
  }
}
