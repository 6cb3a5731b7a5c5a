/** The shared variable store: named slots during a parse, slots alone during a run. */
module SharedVariables {
  import opened Common
  import opened Scopes
  import opened Workload

  class SharedVariables {
    var keys: map<int, map<string, nat>>
    var variables: seq<Value>

    constructor ()
      ensures keys == map[] && variables == []
    {
      keys, variables := map[], [];
    }

    /** The tables as the scope theory sees them, with the id generator's part filled in. */
    ghost function Scope(nextId: int, paths: map<int, Path>): Tables
      reads this
    {
      Tables(keys, |variables|, nextId, paths)
    }

    method Exists(threadIds: Path, name: string) returns (found: bool)
      ensures found <==> Lookup(keys, threadIds, name).Some?
    {
      var i := |threadIds|;
      while i > 0
        invariant 0 <= i <= |threadIds|
        invariant forall j :: i <= j < |threadIds| ==> !Binds(keys, threadIds[j], name)
      {
        i := i - 1;
        if threadIds[i] !in keys || name !in keys[threadIds[i]] {
          continue;
        }
        return true;
      }
      return false;
    }

    /** The slot visible under the name, or else a new one bound in the innermost scope. */
    method GetKey(threadIds: Path, name: string) returns (key: nat)
      requires threadIds != []
      modifies this
      ensures Scope(0, map[]) == AfterGetKey(old(Scope(0, map[])), threadIds, name)
      ensures Lookup(keys, threadIds, name) == Some(key)
      ensures old(Lookup(keys, threadIds, name).Some?) ==>
        unchanged(this) && Some(key) == old(Lookup(keys, threadIds, name))
      ensures old(Lookup(keys, threadIds, name).None?) ==>
        key == old(|variables|) && variables == old(variables) + [IntValue(0)]
    {
      var i := |threadIds|;
      while i > 0
        invariant 0 <= i <= |threadIds|
        invariant forall j :: i <= j < |threadIds| ==> !Binds(keys, threadIds[j], name)
      {
        i := i - 1;
        if threadIds[i] !in keys || name !in keys[threadIds[i]] {
          continue;
        }
        return keys[threadIds[i]][name];
      }
      key := |variables|;
      keys := Bind(keys, threadIds[|threadIds| - 1], name, key);
      variables := variables + [IntValue(0)];
      assert Binds(keys, threadIds[|threadIds| - 1], name);
    }

    method Get(key: int) returns (value: Value)
      requires 0 <= key < |variables|
      ensures value == variables[key]
    {
      value := variables[key];
    }

    method Set(key: int, value: Value)
      requires 0 <= key < |variables|
      modifies this`variables
      ensures variables == old(variables)[key := value]
    {
      variables := variables[key := value];
    }

    method ClearKeys()
      modifies this`keys
      ensures keys == map[]
    {
      keys := map[];
    }
  }
}
