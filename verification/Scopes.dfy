/**
 * The table that maps variable names to slots, scoped by thread path.
 *
 * A path lists the thread ids from the root of the benchmark down to a thread.  `paths` is a
 * history variable: it records under which path each id was generated, and the program never
 * reads it.
 */
module Scopes {
  import opened Common

  type Path = seq<int>

  datatype Tables = Tables(keys: map<int, map<string, nat>>, size: nat, nextId: int, paths: map<int, Path>)

  function Last(path: Path): int
    requires path != []
  {
    path[|path| - 1]
  }

  predicate Binds(keys: map<int, map<string, nat>>, id: int, name: string) {
    id in keys && name in keys[id]
  }

  /** The position of the last id on the path that binds the name. */
  function Innermost(keys: map<int, map<string, nat>>, path: Path, name: string): (r: Option<nat>)
    ensures r.Some? ==> r.value < |path| && Binds(keys, path[r.value], name)
    ensures forall j :: (if r.Some? then r.value + 1 else 0) <= j < |path| ==> !Binds(keys, path[j], name)
  {
    if path == [] then None
    else if Binds(keys, Last(path), name) then Some(|path| - 1)
    else Innermost(keys, path[..|path| - 1], name)
  }

  function Lookup(keys: map<int, map<string, nat>>, path: Path, name: string): Option<nat> {
    match Innermost(keys, path, name)
    case None => None
    case Some(k) => Some(keys[path[k]][name])
  }

  function Bind(keys: map<int, map<string, nat>>, id: int, name: string, slot: nat): map<int, map<string, nat>> {
    keys[id := (if id in keys then keys[id] else map[])[name := slot]]
  }

  /** What GetKey does to the table: nothing if the name is visible, else one new slot. */
  function AfterGetKey(t: Tables, path: Path, name: string): Tables
    requires path != []
  {
    if Lookup(t.keys, path, name).Some? then t
    else t.(keys := Bind(t.keys, Last(path), name, t.size), size := t.size + 1)
  }

  function AfterSpawn(t: Tables, path: Path): Tables {
    t.(nextId := t.nextId + 1, paths := t.paths[t.nextId := path + [t.nextId]])
  }

  /** Before a parse: no names, no paths, whatever slots and ids earlier parses have used. */
  predicate Fresh(t: Tables) {
    t.keys == map[] && t.paths == map[]
  }

  predicate Registered(t: Tables, path: Path) {
    path != [] && Last(path) in t.paths && t.paths[Last(path)] == path
  }

  // ---------------------------------------------------------------- the scope invariant

  /** The ids form a tree: a path ends in its id, and each of its prefixes is a path. */
  ghost predicate PathInv(t: Tables, id: int)
    requires id in t.paths
  {
    && id < t.nextId && t.paths[id] != [] && Last(t.paths[id]) == id
    && forall k: nat :: k < |t.paths[id]| ==> PrefixRegistered(t, t.paths[id], k)
  }

  predicate PrefixRegistered(t: Tables, path: Path, k: nat)
    requires k < |path|
  {
    Registered(t, path[..k + 1])
  }

  /** Names are bound to existing slots, in scopes that exist. */
  ghost predicate SlotsInRange(t: Tables) {
    forall id, x :: Binds(t.keys, id, x) ==> t.keys[id][x] < t.size && id in t.paths
  }

  /** No two bindings share a slot. */
  ghost predicate SlotsDistinct(t: Tables) {
    forall id, x, id', x' ::
      Binds(t.keys, id, x) && Binds(t.keys, id', x') && t.keys[id][x] == t.keys[id'][x'] ==> id == id' && x == x'
  }

  ghost predicate SlotsInv(t: Tables) {
    SlotsInRange(t) && SlotsDistinct(t)
  }

  ghost predicate Inv(t: Tables) {
    SlotsInv(t) && forall id :: id in t.paths ==> PathInv(t, id)
  }

  datatype Op = GetKey(path: Path, name: string) | Spawn(path: Path)

  /** A request the factory can make: it names a registered path, or starts a new root. */
  predicate Legal(t: Tables, op: Op) {
    Registered(t, op.path) || (op.Spawn? && op.path == [])
  }

  function Do(t: Tables, op: Op): Tables
    requires Legal(t, op)
  {
    match op
    case GetKey(path, name) => AfterGetKey(t, path, name)
    case Spawn(path) => AfterSpawn(t, path)
  }

  /** The tables after a list of requests, or None if one of them is not legal. */
  function DoAll(t: Tables, ops: seq<Op>): Option<Tables> {
    if ops == [] then Some(t)
    else
      match DoAll(t, ops[..|ops| - 1])
      case None => None
      case Some(u) => if Legal(u, ops[|ops| - 1]) then Some(Do(u, ops[|ops| - 1])) else None
  }

  lemma DoKeepsInv(t: Tables, op: Op)
    requires Inv(t) && Legal(t, op)
    ensures Inv(Do(t, op))
  {
    FreshId(t);
    DoKeepsSlots(t, op);
    forall id | id in Do(t, op).paths ensures PathInv(Do(t, op), id) {
      if op.GetKey? {
        SamePaths(t, Do(t, op), id);
      } else {
        SpawnKeepsPath(t, op.path, id);
      }
    }
  }

  lemma DoKeepsSlots(t: Tables, op: Op)
    requires Inv(t) && Legal(t, op)
    ensures SlotsInv(Do(t, op))
  {
    if op.GetKey? && Lookup(t.keys, op.path, op.name).None? {
      BindKeepsRange(t, op.path, op.name);
      BindKeepsDistinct(t, op.path, op.name);
    }
  }

  /** The one binding that is new, and the others. */
  lemma BindAt(keys: map<int, map<string, nat>>, id: int, name: string, slot: nat, id': int, x: string)
    ensures Binds(Bind(keys, id, name, slot), id', x) <==> (id' == id && x == name) || Binds(keys, id', x)
    ensures Binds(Bind(keys, id, name, slot), id', x) ==>
      Bind(keys, id, name, slot)[id'][x] == if id' == id && x == name then slot else keys[id'][x]
  {}

  lemma BindKeepsRange(t: Tables, path: Path, name: string)
    requires SlotsInRange(t) && Registered(t, path)
    ensures SlotsInRange(t.(keys := Bind(t.keys, Last(path), name, t.size), size := t.size + 1))
  {
    var u := t.(keys := Bind(t.keys, Last(path), name, t.size), size := t.size + 1);
    forall id, x | Binds(u.keys, id, x) ensures u.keys[id][x] < u.size && id in u.paths {
      BindAt(t.keys, Last(path), name, t.size, id, x);
    }
  }

  lemma BindKeepsDistinct(t: Tables, path: Path, name: string)
    requires SlotsInv(t) && path != []
    ensures SlotsDistinct(t.(keys := Bind(t.keys, Last(path), name, t.size), size := t.size + 1))
  {
    var keys := Bind(t.keys, Last(path), name, t.size);
    forall id, x, id', x' | Binds(keys, id, x) && Binds(keys, id', x') && keys[id][x] == keys[id'][x']
      ensures id == id' && x == x'
    {
      BindAt(t.keys, Last(path), name, t.size, id, x);
      BindAt(t.keys, Last(path), name, t.size, id', x');
    }
  }

  lemma SamePaths(t: Tables, u: Tables, id: int)
    requires Inv(t) && u.paths == t.paths && u.nextId == t.nextId && id in t.paths
    ensures PathInv(u, id)
  {
    assert PathInv(t, id);
    forall k: nat | k < |t.paths[id]| ensures PrefixRegistered(u, t.paths[id], k) {
      assert PrefixRegistered(t, t.paths[id], k);
    }
  }

  /** A fresh id below a registered path, or as a new root, keeps the tree. */
  lemma SpawnKeepsPath(t: Tables, parent: Path, id: int)
    requires Inv(t) && t.nextId !in t.paths && (parent == [] || Registered(t, parent))
    requires id in AfterSpawn(t, parent).paths
    ensures PathInv(AfterSpawn(t, parent), id)
  {
    var u := AfterSpawn(t, parent);
    var path := u.paths[id];
    assert id != t.nextId ==> PathInv(t, id);
    forall k: nat | k < |path| ensures PrefixRegistered(u, path, k) {
      if id != t.nextId {
        assert PrefixRegistered(t, path, k);
      } else if k < |parent| {
        assert PathInv(t, Last(parent)) && PrefixRegistered(t, parent, k);
        assert path[..k + 1] == parent[..k + 1];
      } else {
        assert path[..k + 1] == path;
      }
    }
  }

  lemma FreshId(t: Tables)
    requires Inv(t)
    ensures t.nextId !in t.paths
  {
    forall id | id in t.paths ensures id != t.nextId { assert PathInv(t, id); }
  }

  /** If the last id of one registered path occurs in another, the one is a prefix of the other. */
  lemma TreePrefix(t: Tables, p: Path, q: Path, k: nat)
    requires Inv(t) && Registered(t, p) && Registered(t, q) && k < |p| && p[k] == Last(q)
    ensures q == p[..k + 1]
  {
    assert PathInv(t, Last(p)) && PrefixRegistered(t, p, k);
  }

  /** An answer of GetKey survives every later request. */
  lemma LookupStable(t: Tables, op: Op, path: Path, name: string)
    requires Inv(t) && Legal(t, op) && Registered(t, path)
    requires Lookup(t.keys, path, name).Some?
    ensures Registered(Do(t, op), path)
    ensures Lookup(Do(t, op).keys, path, name) == Lookup(t.keys, path, name)
  {
    var u := Do(t, op);
    if op.GetKey? {
      var k := Innermost(t.keys, path, name).value;
      forall j | k < j < |path| ensures !Binds(u.keys, path[j], name) {
        if path[j] == Last(op.path) {
          TreePrefix(t, path, op.path, j);
          assert op.path[k] == path[k];
        }
      }
      assert Binds(u.keys, path[k], name);
    } else {
      FreshId(t);
    }
  }

  /**
   * A name that a thread introduces is bound in that thread's own scope: the threads below it see
   * it, and for every other thread nothing changes.
   */
  lemma NewNameIsPrivate(t: Tables, path: Path, name: string, q: Path)
    requires Inv(t) && Registered(t, path) && Registered(t, q) && Lookup(t.keys, path, name).None?
    ensures var u := AfterGetKey(t, path, name);
            && Innermost(u.keys, path, name) == Some(|path| - 1)
            && (Last(path) in q ==> path <= q && Lookup(u.keys, q, name).Some?)
            && (Last(path) !in q ==> Lookup(u.keys, q, name) == Lookup(t.keys, q, name))
  {
    var u := AfterGetKey(t, path, name);
    assert Binds(u.keys, Last(path), name);
    if Last(path) in q {
      var k :| 0 <= k < |q| && q[k] == Last(path);
      TreePrefix(t, q, path, k);
      assert Binds(u.keys, q[k], name);
    } else {
      SameElsewhere(t.keys, u.keys, q, name);
    }
  }

  lemma {:induction false} SameElsewhere(k1: map<int, map<string, nat>>, k2: map<int, map<string, nat>>, q: Path,
        name: string)
    requires forall i :: 0 <= i < |q| ==> (Binds(k1, q[i], name) <==> Binds(k2, q[i], name))
    requires forall i :: 0 <= i < |q| && Binds(k1, q[i], name) && Binds(k2, q[i], name) ==>
      k1[q[i]][name] == k2[q[i]][name]
    ensures Innermost(k1, q, name) == Innermost(k2, q, name) && Lookup(k1, q, name) == Lookup(k2, q, name)
  {
    if q != [] && !Binds(k1, Last(q), name) { SameElsewhere(k1, k2, q[..|q| - 1], name); }
  }

  lemma {:induction false} Reachable(t: Tables, ops: seq<Op>)
    requires Inv(t) && DoAll(t, ops).Some?
    ensures Inv(DoAll(t, ops).value)
    ensures forall path :: Registered(t, path) ==> Registered(DoAll(t, ops).value, path)
  {
    if ops != [] {
      var front := ops[..|ops| - 1];
      Reachable(t, front);
      var u := DoAll(t, front).value;
      DoKeepsInv(u, ops[|ops| - 1]);
      FreshId(u);
    }
  }

  /**
   * Over a whole parse, whatever its requests: once GetKey(path, name) has been answered, every
   * later lookup of that name on that path gives the same slot.
   */
  lemma {:induction false} AnswerIsFinal(t: Tables, path: Path, name: string, ops: seq<Op>)
    requires Inv(t) && Registered(t, path) && DoAll(AfterGetKey(t, path, name), ops).Some?
    ensures var slot := Lookup(AfterGetKey(t, path, name).keys, path, name);
            slot.Some? && Lookup(DoAll(AfterGetKey(t, path, name), ops).value.keys, path, name) == slot
  {
    var t' := Do(t, GetKey(path, name));
    assert Binds(t'.keys, Last(path), name) || Lookup(t.keys, path, name).Some?;
    DoKeepsInv(t, GetKey(path, name));
    if ops != [] {
      var front := ops[..|ops| - 1];
      AnswerIsFinal(t, path, name, front);
      Reachable(t', front);
      LookupStable(DoAll(t', front).value, ops[|ops| - 1], path, name);
    }
  }

  /**
   * Two answers are the same slot exactly when they are for the same name and come from one
   * binding in a common ancestor of the two paths.
   */
  lemma SameSlot(t: Tables, p: Path, x: string, q: Path, y: string)
    requires Inv(t) && Registered(t, p) && Registered(t, q)
    requires Lookup(t.keys, p, x).Some? && Lookup(t.keys, q, y).Some?
    ensures Lookup(t.keys, p, x).value < t.size
    ensures Lookup(t.keys, p, x) == Lookup(t.keys, q, y) <==>
              x == y && Innermost(t.keys, p, x) == Innermost(t.keys, q, y)
              && var k := Innermost(t.keys, p, x).value; p[..k + 1] == q[..k + 1]
  {
    var k, l := Innermost(t.keys, p, x).value, Innermost(t.keys, q, y).value;
    BindingOnPath(t, p, x);
    BindingOnPath(t, q, y);
    if Lookup(t.keys, p, x) == Lookup(t.keys, q, y) {
      assert p[k] == q[l];
      assert |p[..k + 1]| == |q[..l + 1]|;
    }
    if x == y && k == l && p[..k + 1] == q[..k + 1] {
      assert p[..k + 1][k] == q[..k + 1][k];
    }
  }

  /** The scope that answers a lookup is a registered prefix of the path. */
  lemma BindingOnPath(t: Tables, p: Path, x: string)
    requires Inv(t) && Registered(t, p) && Lookup(t.keys, p, x).Some?
    ensures var k := Innermost(t.keys, p, x).value;
            && k < |p| && Binds(t.keys, p[k], x) && t.keys[p[k]][x] < t.size
            && p[k] in t.paths && t.paths[p[k]] == p[..k + 1]
  {
    var k := Innermost(t.keys, p, x).value;
    assert PathInv(t, Last(p)) && PrefixRegistered(t, p, k);
    assert Last(p[..k + 1]) == p[k];
  }
}
