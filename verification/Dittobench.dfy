/**
 * The program as it runs: parse a benchmark into the shared store, then execute init, main and
 * clean_up on it.  The methods are proved against the functions of Parser and Interpreter.
 */
module Dittobench {
  import opened Common
  import opened Scopes
  import opened Workload
  import opened Factory
  import opened Interpreter
  import opened NameResolution
  import opened Parser
  import opened SharedVariables
  import opened InstructionFactory

  /** A fresh root scope that binds the absolute path. */
  method BindAbsolutePath(factory: InstructionFactory, b: Benchmark) returns (threadIds: Path)
    requires Fresh(factory.Scope())
    modifies factory, factory.vars
    ensures threadIds == RootPath(old(factory.Scope()))
    ensures factory.Scope() == AfterGetKey(AfterSpawn(old(factory.Scope()), []), threadIds, ABSOLUTE_PATH)
    ensures factory.absolutePathKey == Slot(factory.Scope(), threadIds, ABSOLUTE_PATH) == old(|factory.vars.variables|)
    ensures factory.vars.variables == old(factory.vars.variables) + [StringValue(b.absolutePath)]
    ensures factory.exited == old(factory.exited)
  {
    var vars := factory.vars;
    var root := factory.GenerateThreadId([]);
    threadIds := [root];
    assert [] + [root] == threadIds;
    var absolutePathKey := vars.GetKey(threadIds, ABSOLUTE_PATH);
    vars.Set(absolutePathKey, StringValue(b.absolutePath));
    factory.absolutePathKey := absolutePathKey;
  }

  /** The global mutex, in the same scope. */
  method BindMutex(factory: InstructionFactory, threadIds: Path, name: string) returns (key: nat)
    requires threadIds != [] && Bound(factory.Scope(), threadIds, ABSOLUTE_PATH)
    requires Lookup(factory.vars.keys, threadIds, name).None?
    modifies factory.vars
    ensures factory.Scope() == AfterGetKey(old(factory.Scope()), threadIds, name)
    ensures key == Slot(factory.Scope(), threadIds, name)
    ensures key == old(|factory.vars.variables|)
    ensures factory.vars.variables == old(factory.vars.variables) + [MutexValue]
    ensures Slot(factory.Scope(), threadIds, ABSOLUTE_PATH) == old(Slot(factory.Scope(), threadIds, ABSOLUTE_PATH))
  {
    var vars := factory.vars;
    SamePathStable(factory.Scope(), threadIds, ABSOLUTE_PATH, name);
    key := vars.GetKey(threadIds, name);
    vars.Set(key, MutexValue);
  }

  /** The root scope, the absolute path and the global mutex. */
  method BindGlobals(factory: InstructionFactory, b: Benchmark) returns (p: Program)
    requires Fresh(factory.Scope()) && b.mutex != Some(ABSOLUTE_PATH)
    modifies factory, factory.vars
    ensures factory.Scope() == GlobalTables(old(factory.Scope()), b)
    ensures p == Program(Parse(old(factory.Scope()), b).0.absolutePathKey,
                         Parse(old(factory.Scope()), b).0.mutexKey, [])
    ensures old(|factory.vars.variables|) <= |factory.base|
      && p.absolutePathKey < |factory.base| && (p.mutexKey.Some? ==> p.mutexKey.value < |factory.base|)
    ensures factory.base == factory.vars.variables
         == InitialSlots(old(factory.vars.variables), |factory.base|, b, p)
    ensures factory.absolutePathKey == p.absolutePathKey && factory.Parsing(b.absolutePath)
    ensures factory.exited == old(factory.exited)
  {
    ghost var t := factory.Scope();
    GlobalKeys(AfterSpawn(t, []), RootPath(t), b);
    var threadIds := BindAbsolutePath(factory, b);
    p := Program(factory.absolutePathKey, None, []);
    if b.mutex.Some? {
      var key := BindMutex(factory, threadIds, b.mutex.value);
      p := Program(factory.absolutePathKey, Some(key), []);
    }
    factory.base := factory.vars.variables;
  }

  lemma GlobalKeys(r: Tables, path: Path, b: Benchmark)
    requires path != []
    ensures var u := AfterGetKey(r, path, ABSOLUTE_PATH);
            AfterKeys(r, path, Globals(b)) == if b.mutex.Some? then AfterGetKey(u, path, b.mutex.value) else u
  {
    assert [ABSOLUTE_PATH][..0] == [] && AfterKeys(r, path, []) == r;
    assert AfterKeys(r, path, [ABSOLUTE_PATH]) == AfterGetKey(r, path, ABSOLUTE_PATH);
    if b.mutex.Some? {
      assert Globals(b)[..1] == [ABSOLUTE_PATH];
    } else {
      assert Globals(b) == [ABSOLUTE_PATH];
    }
  }

  /** Parser::__Parse after the text has become a benchmark message; `exited` says if the program has ended. */
  method ParseBenchmark(factory: InstructionFactory, b: Benchmark) returns (p: Program)
    requires Fresh(factory.Scope()) && b.mutex != Some(ABSOLUTE_PATH)
    modifies factory, factory.vars
    ensures p == Parse(old(factory.Scope()), b).0
    ensures Fresh(factory.Scope())
    ensures factory.exited <==> old(factory.exited) || !Parses(old(factory.Scope()), b)
    ensures var v := Parse(old(factory.Scope()), b).1;
            && old(|factory.vars.variables|) <= v.size
            && p.absolutePathKey < v.size && (p.mutexKey.Some? ==> p.mutexKey.value < v.size)
            && factory.vars.variables == InitialSlots(old(factory.vars.variables), v.size, b, p)
            && factory.currentThreadId == v.nextId
  {
    ghost var t := factory.Scope();
    ghost var prior := factory.vars.variables;
    var root := factory.currentThreadId;
    p := BindGlobals(factory, b);
    var parts := factory.CreateChildren([root], Parts(b), b.absolutePath, HeightBound(b));
    MoreZeros(prior, factory.base, factory.vars.variables, b, p);
    p := p.(parts := parts);
    factory.vars.ClearKeys();
    factory.paths := map[];
  }

  lemma MoreZeros(prior: Slots, base: Slots, final: Slots, b: Benchmark, p: Program)
    requires |prior| <= |base| <= |final|
    requires p.absolutePathKey < |base| && (p.mutexKey.Some? ==> p.mutexKey.value < |base|)
    requires base == InitialSlots(prior, |base|, b, p)
    requires forall k :: 0 <= k < |final| ==> final[k] == if k < |base| then base[k] else IntValue(0)
    ensures final == InitialSlots(prior, |final|, b, p)
    ensures forall q: Program :: q.absolutePathKey == p.absolutePathKey && q.mutexKey == p.mutexKey ==>
              final == InitialSlots(prior, |final|, b, q)
  {}

  /** A run: the shared store, the state of the operating system and the calls made so far. */
  class Runner<K> {
    const kernel: Kernel<K>
    const vars: SharedVariables
    const absolutePathKey: nat
    var sys: Sys<K>

    constructor (kernel: Kernel<K>, k: K, vars: SharedVariables, absolutePathKey: nat)
      ensures this.kernel == kernel && this.vars == vars && this.absolutePathKey == absolutePathKey
      ensures sys == Start(k)
    {
      this.kernel, this.vars, this.absolutePathKey := kernel, vars, absolutePathKey;
      sys := Start(k);
    }

    ghost function State(): Machine<Slots, K>
      reads this, vars
    {
      Machine(vars.variables, sys)
    }

    function Store(): Env<Slots, nat> {
      SlotEnv(absolutePathKey)
    }

    method Make(call: Call)
      modifies this`sys
      ensures sys == Ask(kernel, old(sys), call).0
    {
      sys := Ask(kernel, sys, call).0;
    }

    /** SetUp, Run and TearDown of one instruction. */
    method Perform(site: Site, i: Instr<nat>)
      requires ThreadFree(i)
      modifies this`sys, vars`variables
      ensures State() == Interpreter.Perform(kernel, Store(), "", site, i, old(State()))
      decreases i, 2
    {
      sys := SetUpRound(kernel, site, i.body, sys);
      Run(site, i);
    }

    /** Instruction::Run: the loop over the repetitions. */
    method Run(site: Site, i: Instr<nat>)
      requires ThreadFree(i)
      modifies this`sys, vars`variables
      ensures State() == Rounds(kernel, Store(), "", site, i, i.repeat, old(State()))
      decreases i, 1
    {
      var n := 0;
      while n < i.repeat
        invariant 0 <= n && (n <= i.repeat || n == 0)
        invariant State() == Rounds(kernel, Store(), "", site, i, n, old(State()))
      {
        RunCycle(site, i);
        n := n + 1;
      }
    }

    /** SetUpSingle, RunSingle and TearDownSingle. */
    method RunCycle(site: Site, i: Instr<nat>)
      requires ThreadFree(i)
      modifies this`sys, vars`variables
      ensures State() == Cycle(kernel, Store(), "", site, i, old(State()))
      decreases i, 0
    {
      if sys.halted {
        return;
      }
      match i.body
      case InstructionSet(l, None) => RunInstructions(site, l);
      case InstructionSet(l, Some(it)) =>
        if it.reseeding.EachCycle? {
          Make(Seed(site, it.seed));
        }
        if it.list < |vars.variables| && vars.variables[it.list].ListValue? {
          RunIterations(site, l, it, vars.variables[it.list].l);
        } else {
          sys := Halt(sys);
        }
      case Multithreading(_, _) =>
      case _ =>
        var m := Leaf(kernel, Store(), "", site, i.body, Machine(vars.variables, sys));
        vars.variables, sys := m.store, m.sys;
    }

    /** The loop over a snapshot of the list variable. */
    method RunIterations(site: Site, l: seq<Instr<nat>>, it: Iterate<nat>, names: seq<string>)
      requires AllThreadFree(l)
      modifies this`sys, vars`variables
      ensures State() == Iterations(kernel, Store(), "", site, l, it, names, |names|, old(State()))
      decreases l, 1
    {
      for n := 0 to |names|
        invariant State() == Iterations(kernel, Store(), "", site, l, it, names, n, old(State()))
      {
        var m := PickItem(kernel, Store(), site, it, names, n, Machine(vars.variables, sys));
        vars.variables, sys := m.store, m.sys;
        RunInstructions(site, l);
      }
    }

    method RunInstructions(site: Site, l: seq<Instr<nat>>)
      requires AllThreadFree(l)
      modifies this`sys, vars`variables
      ensures State() == PerformAll(kernel, Store(), "", site, l, old(State()))
      decreases l, 0
    {
      for n := 0 to |l|
        invariant State() == PerformAll(kernel, Store(), "", site, l[..n], old(State()))
      {
        assert l[..n + 1][..n] == l[..n];
        Perform(site + [n], l[n]);
      }
      assert l[..|l|] == l;
    }
  }

  /**
   * From the parsed text to the end of clean_up: the calls made, and the final value of every
   * variable the benchmark names, are those of the direct interpretation.  If some lock or unlock is
   * not declared, the program exits while parsing and makes no call.
   */
  method Execute<K(!new)>(factory: InstructionFactory, b: Benchmark, kernel: Kernel<K>, k: K)
    returns (runner: Runner<K>)
    requires Fresh(factory.Scope()) && AllThreadFree(Parts(b)) && b.mutex != Some(ABSOLUTE_PATH)
    requires !factory.exited
    modifies factory, factory.vars
    ensures factory.exited <==> !LocksDeclared(b)
    ensures factory.exited ==> runner.sys == Halt(Start(k))
    ensures !factory.exited ==> runner.sys == RunDirectly(kernel, k, b).sys
    ensures var (p, v) := Parse(old(factory.Scope()), b); var path := RootPath(old(factory.Scope()));
            !factory.exited ==> forall x :: Bound(v, path, x) ==>
              && Slot(v, path, x) < |factory.vars.variables|
              && factory.vars.variables[Slot(v, path, x)] == NameValue(RunDirectly(kernel, k, b).store, x)
  {
    ParsesExactly(factory.Scope(), b);
    MeaningPreserved(factory.Scope(), b, factory.vars.variables, kernel, k);
    var p := ParseBenchmark(factory, b);
    runner := new Runner(kernel, k, factory.vars, p.absolutePathKey);
    if factory.exited {
      runner.sys := Halt(runner.sys);
    } else {
      runner.RunInstructions([], p.parts);
    }
  }
}
