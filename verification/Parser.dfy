/**
 * A whole benchmark: parsing it allocates one root scope, binds the global variables, compiles
 * init, main and clean_up in that scope, and running it performs the three in order.
 */
module Parser {
  import opened Common
  import opened Scopes
  import opened Workload
  import opened Factory
  import opened Declarations
  import opened Interpreter
  import opened NameResolution

  datatype Benchmark = Benchmark(
    absolutePath: string, mutex: Option<string>,
    init: Option<Instr<string>>, main: Instr<string>, cleanUp: Option<Instr<string>>)

  datatype Program = Program(absolutePathKey: nat, mutexKey: Option<nat>, parts: seq<Instr<nat>>)

  function Parts(b: Benchmark): seq<Instr<string>> {
    (if b.init.Some? then [b.init.value] else []) + [b.main] + if b.cleanUp.Some? then [b.cleanUp.value] else []
  }

  function HeightBound(b: Benchmark): (h: nat)
    ensures forall i :: i in Parts(b) ==> Height(i) < h
  {
    MaxHeight(Parts(b)) + 1
  }

  function Globals(b: Benchmark): seq<string> {
    [ABSOLUTE_PATH] + if b.mutex.Some? then [b.mutex.value] else []
  }

  function RootPath(t: Tables): Path {
    [t.nextId]
  }

  /** Parser::__Parse from the creation of the root scope to ClearKeys, which is not applied here. */
  function Parse(t: Tables, b: Benchmark): (Program, Tables) {
    var path := RootPath(t);
    var u := GlobalTables(t, b);
    var (parts, v) := CompileAll(u, b.absolutePath, path, Parts(b), false, HeightBound(b));
    var mutex := if b.mutex.Some? then Some(Slot(u, path, b.mutex.value)) else None;
    (Program(Slot(u, path, ABSOLUTE_PATH), mutex, parts), v)
  }

  /** The parse comes to its end; otherwise the program exits during it. */
  predicate Parses(t: Tables, b: Benchmark) {
    DeclaredAll(GlobalTables(t, b), b.absolutePath, RootPath(t), Parts(b), false, HeightBound(b))
  }

  /** Every lock and unlock names a global, or a variable that an instruction compiled earlier names. */
  ghost predicate LocksDeclared(b: Benchmark) {
    LocksNamed(Globals(b), AllInOrder(Parts(b)))
  }

  /** The slots when the run starts: earlier parses' slots, then zeros, then the two globals. */
  function InitialSlots(prior: Slots, size: nat, b: Benchmark, p: Program): Slots
    requires |prior| <= size && p.absolutePathKey < size && (p.mutexKey.Some? ==> p.mutexKey.value < size)
  {
    var s := (prior + seq(size - |prior|, _ => IntValue(0)))[p.absolutePathKey := StringValue(b.absolutePath)];
    if p.mutexKey.Some? then s[p.mutexKey.value := MutexValue] else s
  }

  function InitialNames(b: Benchmark): Names {
    var m := map[ABSOLUTE_PATH := StringValue(b.absolutePath)];
    if b.mutex.Some? then m[b.mutex.value := MutexValue] else m
  }

  function Start<K>(kernel: K): Sys<K> {
    Sys(kernel, [], false)
  }

  /** Direct interpretation: names stay names, and live in one map. */
  function RunDirectly<K>(kernel: Kernel<K>, k: K, b: Benchmark): Machine<Names, K>
    requires AllThreadFree(Parts(b))
  {
    PerformAll(kernel, NameEnv(), b.absolutePath, [], Parts(b), Machine(InitialNames(b), Start(k)))
  }

  /** What dittobench does: it runs the parsed program, unless it has exited while parsing. */
  function RunProgram<K>(kernel: Kernel<K>, k: K, parsed: bool, p: Program, slots: Slots): Machine<Slots, K>
    requires AllThreadFree(p.parts)
  {
    if parsed then PerformAll(kernel, SlotEnv(p.absolutePathKey), "", [], p.parts, Machine(slots, Start(k)))
    else Machine(slots, Halt(Start(k)))
  }

  /** At the start the absolute path and the mutex are set, and every other variable reads as 0. */
  ghost predicate GlobalsOnly(b: Benchmark, m: Names) {
    forall x :: NameValue(m, x) ==
      if b.mutex == Some(x) then MutexValue
      else if x == "absolute_path" then StringValue(b.absolutePath)
      else IntValue(0)
  }

  /** From the global variables alone: init, if there is one, then main, then clean_up, if there is one. */
  lemma PartsInOrder<K(!new)>(kernel: Kernel<K>, k: K, b: Benchmark)
    requires AllThreadFree(Parts(b))
    ensures GlobalsOnly(b, InitialNames(b))
    ensures b.init.Some? ==> ThreadFree(b.init.value)
    ensures b.cleanUp.Some? ==> ThreadFree(b.cleanUp.value)
    ensures ThreadFree(b.main)
    ensures var begin := Machine(InitialNames(b), Sys(k, [], false));
            var at := if b.init.Some? then 1 else 0;
            var ready := if b.init.None? then begin
                         else Perform(kernel, NameEnv(), b.absolutePath, [0], b.init.value, begin);
            var done := Perform(kernel, NameEnv(), b.absolutePath, [at], b.main, ready);
            RunDirectly(kernel, k, b) ==
              if b.cleanUp.None? then done
              else Perform(kernel, NameEnv(), b.absolutePath, [at + 1], b.cleanUp.value, done)
  {
    var begin := Machine(InitialNames(b), Start(k));
    var parts := Parts(b);
    var first := if b.init.Some? then [b.init.value] else [];
    assert parts == if b.cleanUp.Some? then first + [b.main] + [b.cleanUp.value] else first + [b.main];
    assert b.main in parts
      && (b.init.Some? ==> b.init.value in parts) && (b.cleanUp.Some? ==> b.cleanUp.value in parts) by {
      assert parts[|first|] == b.main;
      assert b.init.Some? ==> parts[0] == b.init.value;
      assert b.cleanUp.Some? ==> parts[|parts| - 1] == b.cleanUp.value;
    }
    OnePart(kernel, b.absolutePath, begin);
    if b.init.Some? { LastPart(kernel, b.absolutePath, [], b.init.value, begin); assert [] + [b.init.value] == first; }
    LastPart(kernel, b.absolutePath, first, b.main, begin);
    if b.cleanUp.Some? { LastPart(kernel, b.absolutePath, first + [b.main], b.cleanUp.value, begin); }
  }

  lemma OnePart<K(!new)>(kernel: Kernel<K>, prefix: string, m: Machine<Names, K>)
    ensures PerformAll(kernel, NameEnv(), prefix, [], [], m) == m
  {}

  lemma LastPart<K(!new)>(kernel: Kernel<K>, prefix: string, l: seq<Instr<string>>, i: Instr<string>,
        m: Machine<Names, K>)
    requires AllThreadFree(l) && ThreadFree(i)
    ensures AllThreadFree(l + [i])
    ensures PerformAll(kernel, NameEnv(), prefix, [], l + [i], m)
         == Perform(kernel, NameEnv(), prefix, [|l|], i, PerformAll(kernel, NameEnv(), prefix, [], l, m))
  {
    assert (l + [i])[..|l|] == l && (l + [i])[|l|] == i;
    assert [] + [|l|] == [|l|];
  }

  /** The state of the tables before the parts are compiled. */
  lemma GlobalsBound(t: Tables, b: Benchmark)
    requires Fresh(t)
    ensures var u := AfterKeys(AfterSpawn(t, []), RootPath(t), Globals(b));
            && Inv(u) && Registered(u, RootPath(t)) && Extends(t, u)
            && forall x :: x in Globals(b) ==> Bound(u, RootPath(t), x)
  {
    var r := AfterSpawn(t, []);
    assert Do(t, Spawn([])) == r;
    DoKeepsInv(t, Spawn([]));
    assert [] + [t.nextId] == RootPath(t);
    ExtendsSelf(t);
    ExtendsOne(t, t, Spawn([]));
    KeysExtend(r, RootPath(t), Globals(b));
    KeysBind(r, RootPath(t), Globals(b));
    ExtendsKeeps(r, AfterKeys(r, RootPath(t), Globals(b)));
    ExtendsTransitive(t, r, AfterKeys(r, RootPath(t), Globals(b)));
  }

  /** The tables just before the three parts are compiled. */
  function GlobalTables(t: Tables, b: Benchmark): Tables {
    AfterKeys(AfterSpawn(t, []), RootPath(t), Globals(b))
  }

  /** Parsing is a run of factory requests from the root on; it binds the global variables. */
  lemma ParseExtends(t: Tables, b: Benchmark)
    requires Fresh(t)
    ensures var (p, v) := Parse(t, b); var path := RootPath(t);
            && Ready(v, path) && Extends(t, v)
            && p.absolutePathKey == Slot(v, path, ABSOLUTE_PATH)
            && (b.mutex.Some? ==> Bound(v, path, b.mutex.value) && p.mutexKey == Some(Slot(v, path, b.mutex.value)))
  {
    GlobalsBound(t, b);
    var u := GlobalTables(t, b);
    var v := Parse(t, b).1;
    CompileAllExtends(u, b.absolutePath, RootPath(t), Parts(b), false, HeightBound(b));
    ExtendsKeeps(u, v);
    ExtendsTransitive(t, u, v);
    assert ABSOLUTE_PATH in Globals(b) by { assert Globals(b)[0] == ABSOLUTE_PATH; }
    assert b.mutex.Some? ==> b.mutex.value in Globals(b) by {
      assert b.mutex.Some? ==> Globals(b)[1] == b.mutex.value;
    }
  }

  /** A thread-free benchmark parses to its end exactly when all its locks and unlocks are declared. */
  lemma ParsesExactly(t: Tables, b: Benchmark)
    requires Fresh(t) && AllThreadFree(Parts(b))
    ensures Parses(t, b) <==> LocksDeclared(b)
  {
    var r, path := AfterSpawn(t, []), RootPath(t);
    AllCompileInOrder(GlobalTables(t, b), b.absolutePath, path, Parts(b), HeightBound(b));
    forall x ensures Bound(GlobalTables(t, b), path, x) <==> x in Globals(b) {
      BoundExactly(r.keys, path, x);
      BoundAfterKeys(r, path, Globals(b), x);
    }
    DeclaredExactly(GlobalTables(t, b), path, Globals(b), AllInOrder(Parts(b)));
  }

  /** The code of a thread-free benchmark is the benchmark with every name resolved. */
  lemma ParseResolves(t: Tables, b: Benchmark)
    requires Fresh(t) && AllThreadFree(Parts(b))
    ensures var (p, v) := Parse(t, b); var path := RootPath(t);
            && p.parts == ResolveAll(v, path, b.absolutePath, Parts(b), HeightBound(b))
            && AllThreadFree(p.parts)
            && forall i :: i in Parts(b) ==> AllBound(v, path, i)
  {
    GlobalsBound(t, b);
    var v := Parse(t, b).1;
    ExtendsSelf(v);
    CompileAllResolves(GlobalTables(t, b), b.absolutePath, RootPath(t), Parts(b), v, HeightBound(b));
    ResolvedAllThreadFree(v, RootPath(t), b.absolutePath, Parts(b), HeightBound(b));
  }

  lemma InitialStores(t: Tables, b: Benchmark, prior: Slots)
    requires Fresh(t) && |prior| == t.size && b.mutex != Some(ABSOLUTE_PATH)
    ensures var (p, v) := Parse(t, b);
            && |prior| <= v.size && p.absolutePathKey < v.size && (p.mutexKey.Some? ==> p.mutexKey.value < v.size)
            && StoreRel(v, RootPath(t), InitialNames(b), InitialSlots(prior, v.size, b, p))
  {
    ParseExtends(t, b);
    ParseWithoutMutex(t, b);
    var (p, v) := Parse(t, b);
    ExtendsKeeps(t, v);
    InitialStoresOf(t, v, b, p, prior, RootPath(t));
  }

  lemma ParseWithoutMutex(t: Tables, b: Benchmark)
    ensures b.mutex.None? ==> Parse(t, b).0.mutexKey.None?
  {}

  lemma InitialStoresOf(t: Tables, v: Tables, b: Benchmark, p: Program, prior: Slots, path: Path)
    requires Fresh(t) && |prior| == t.size && b.mutex != Some(ABSOLUTE_PATH)
    requires Kept(t, v) && Ready(v, path) && p.absolutePathKey == Slot(v, path, ABSOLUTE_PATH)
    requires b.mutex.Some? ==> Bound(v, path, b.mutex.value) && p.mutexKey == Some(Slot(v, path, b.mutex.value))
    requires b.mutex.None? ==> p.mutexKey.None?
    ensures |prior| <= v.size && p.absolutePathKey < v.size && (p.mutexKey.Some? ==> p.mutexKey.value < v.size)
    ensures StoreRel(v, path, InitialNames(b), InitialSlots(prior, v.size, b, p))
  {
    SameSlot(v, path, ABSOLUTE_PATH, path, ABSOLUTE_PATH);
    if b.mutex.Some? { SameSlot(v, path, b.mutex.value, path, b.mutex.value); }
    forall x | Bound(v, path, x)
      ensures Slot(v, path, x) < v.size
        && InitialSlots(prior, v.size, b, p)[Slot(v, path, x)] == NameValue(InitialNames(b), x)
    {
      InitialValue(t, v, b, p, prior, path, x);
    }
  }

  /** A name bound after the parse starts with the value it has in the map of names. */
  lemma InitialValue(t: Tables, v: Tables, b: Benchmark, p: Program, prior: Slots, path: Path, x: string)
    requires Fresh(t) && |prior| == t.size <= v.size && b.mutex != Some(ABSOLUTE_PATH)
    requires Kept(t, v) && Ready(v, path) && Bound(v, path, x)
    requires p.absolutePathKey == Slot(v, path, ABSOLUTE_PATH) < v.size
    requires b.mutex.Some? ==> Bound(v, path, b.mutex.value) && p.mutexKey == Some(Slot(v, path, b.mutex.value))
    requires b.mutex.None? ==> p.mutexKey.None?
    requires p.mutexKey.Some? ==> p.mutexKey.value < v.size
    ensures Slot(v, path, x) < v.size
      && InitialSlots(prior, v.size, b, p)[Slot(v, path, x)] == NameValue(InitialNames(b), x)
  {
    assert Binds(v.keys, path[Innermost(v.keys, path, x).value], x);
    var slot := Slot(v, path, x);
    assert slot >= t.size;
    SameSlot(v, path, ABSOLUTE_PATH, path, x);
    if b.mutex.Some? { SameSlot(v, path, b.mutex.value, path, x); }
    InitialValueAt(b, p, prior, v.size, x, slot);
  }

  lemma InitialValueAt(b: Benchmark, p: Program, prior: Slots, size: nat, x: string, slot: nat)
    requires |prior| <= slot < size && p.absolutePathKey < size && (p.mutexKey.Some? ==> p.mutexKey.value < size)
    requires p.absolutePathKey == slot <==> x == ABSOLUTE_PATH
    requires p.mutexKey == Some(slot) <==> b.mutex == Some(x)
    requires b.mutex.Some? <==> p.mutexKey.Some?
    ensures InitialSlots(prior, size, b, p)[slot] == NameValue(InitialNames(b), x)
  {}

  /**
   * Name resolution preserves meaning.  For every thread-free benchmark whose locks are declared, every
   * kernel and whatever earlier parses left in the slots, the program makes exactly the calls of the
   * direct interpretation, stops at the same point if it stops, and ends with the same value in every
   * variable the benchmark names.  With an undeclared lock it exits before it makes any call.
   */
  lemma MeaningPreserved<K(!new)>(t: Tables, b: Benchmark, prior: Slots, kernel: Kernel<K>, k: K)
    requires Fresh(t) && AllThreadFree(Parts(b)) && |prior| == t.size && b.mutex != Some(ABSOLUTE_PATH)
    ensures var (p, v) := Parse(t, b);
            && AllThreadFree(p.parts)
            && |prior| <= v.size && p.absolutePathKey < v.size && (p.mutexKey.Some? ==> p.mutexKey.value < v.size)
            && var direct := RunDirectly(kernel, k, b);
               var compiled := RunProgram(kernel, k, Parses(t, b), p, InitialSlots(prior, v.size, b, p));
            && (forall i :: i in Parts(b) ==> AllBound(v, RootPath(t), i))
            && (!LocksDeclared(b) ==> compiled.sys == Halt(Start(k)))
            && (LocksDeclared(b) ==>
                  && compiled.sys == direct.sys
                  && forall x :: Bound(v, RootPath(t), x) ==>
                       && Slot(v, RootPath(t), x) < |compiled.store|
                       && compiled.store[Slot(v, RootPath(t), x)] == NameValue(direct.store, x))
  {
    ParsesExactly(t, b);
    ParseExtends(t, b);
    ParseResolves(t, b);
    InitialStores(t, b, prior);
    var (p, v) := Parse(t, b);
    PerformAllSim(v, RootPath(t), b.absolutePath, kernel, [], Parts(b), HeightBound(b),
                  Machine(InitialNames(b), Start(k)), Machine(InitialSlots(prior, v.size, b, p), Start(k)));
  }
}
