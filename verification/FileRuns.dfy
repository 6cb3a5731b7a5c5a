/**
 * What the interpreter does for a read_file or write_file: its calls are those of the plans of
 * ReadWriteFile, cycle after cycle, with the reseeding in the right places.
 */
module FileRuns {
  import opened Common
  import opened Workload
  import opened BlockPlan
  import opened ReadWriteFile
  import opened FileTransfer
  import opened Interpreter
  import opened NameResolution

  /**
   * A kernel with one file of length `size`, and whose generator at `site` is `gen`; `g` reads the
   * generator's state.  Transfers inside the file succeed, transfers at negative offsets fail, and
   * nothing is said of others.
   */
  ghost predicate Disk<K(!new), G(!new)>(kernel: Kernel<K>, gen: Generator<G>, site: Site, size: nat, g: K -> G) {
    forall k: K, call: Call :: DiskAnswers(kernel, gen, site, size, g, k, call)
  }

  ghost predicate DiskAnswers<K, G>(kernel: Kernel<K>, gen: Generator<G>, site: Site, size: nat, g: K -> G, k: K,
        call: Call) {
    var (after, reply) := kernel(k, call);
    match call
    case FStat(_) => reply.number == size && g(after) == g(k)
    case FAdvise(_, _, _) => reply.number == 0 && g(after) == g(k)
    case FSync(_) => reply.number == 0 && g(after) == g(k)
    case PRead(_, count, offset) => TransferAnswers(size, count, offset, reply) && g(after) == g(k)
    case PWrite(_, count, offset) => TransferAnswers(size, count, offset, reply) && g(after) == g(k)
    case Seed(s, x) => s == site ==> g(after) == gen.seeded(x)
    case Draw(s, low, high) => s == site ==> (reply.number, g(after)) == gen.draw(g(k), low, high)
    case _ => true
  }

  predicate TransferAnswers(size: nat, count: int, offset: int, reply: Reply) {
    && (0 <= offset && 0 <= count && offset + count <= size ==> reply.number != -1)
    && (offset < 0 ==> reply.number == -1)
  }

  /** What keeps every unit of every cycle inside the file. */
  ghost predicate StaysInside<G(!new)>(gen: Generator<G>, rw: RwParams, size: nat) {
    if rw.order.Random? then DrawsInRange(gen) && Drawable(rw, size) else 0 <= rw.startingOffset
  }

  lemma PlanInside<G(!new)>(gen: Generator<G>, rw: RwParams, size: nat, g: G)
    requires Fits(rw, size) && StaysInside(gen, rw, size)
    ensures Inside(CyclePlan(gen, rw, size, g).0, size)
  {
    var (total, block) := Sizes(rw, size);
    if rw.order.Random? {
      CyclePlanFits(gen, rw, size, g);
    } else {
      SequentialClosedForm(rw.startingOffset, block, size, total);
    }
  }

  lemma AskDisk<K(!new), G(!new)>(kernel: Kernel<K>, gen: Generator<G>, site: Site, size: nat, g: K -> G, s: Sys<K>,
        call: Call)
    requires Disk(kernel, gen, site, size, g) && !s.halted
    ensures var (s1, reply) := Ask(kernel, s, call);
            && s1.calls == s.calls + [call] && !s1.halted
            && kernel(s.kernel, call) == (s1.kernel, reply) && DiskAnswers(kernel, gen, site, size, g, s.kernel, call)
  {
    assert DiskAnswers(kernel, gen, site, size, g, s.kernel, call);
  }

  // ---------------------------------------------------------------- the calls of one cycle

  function TransferCall(write: bool, fd: int, u: Unit): Call {
    if write then PWrite(fd, u.count, u.offset) else PRead(fd, u.count, u.offset)
  }

  function TransferCalls(write: bool, fd: int, units: seq<Unit>): (r: seq<Call>)
    ensures |r| == |units|
  {
    seq(|units|, i requires 0 <= i < |units| => TransferCall(write, fd, units[i]))
  }

  /** Looking up the file length, reseeding, and drawing the offsets. */
  function PlanCalls(site: Site, fd: int, rw: RwParams, size: nat, n: nat): seq<Call>
    requires Fits(rw, size)
  {
    [FStat(fd)]
    + (if rw.reseeding.EachCycle? then [Seed(site, rw.seed)] else [])
    + (if rw.order.Random? then Same(Draw(site, 0, ToInt(size - Sizes(rw, size).1)), n) else [])
  }

  /** A cycle of a write_file with the given plan. */
  function WriteCalls(site: Site, fd: int, rw: RwParams, fsync: bool, size: nat, plan: seq<Unit>): seq<Call>
    requires Fits(rw, size)
  {
    PlanCalls(site, fd, rw, size, |plan|) + TransferCalls(true, fd, plan) + if fsync then [FSync(fd)] else []
  }

  /** A cycle of a read_file with the given plan. */
  function ReadCalls(site: Site, fd: int, rw: RwParams, advice: int, size: nat, plan: seq<Unit>): seq<Call>
    requires Fits(rw, size)
  {
    [FStat(fd), FAdvise(fd, size, advice)] + PlanCalls(site, fd, rw, size, |plan|) + TransferCalls(false, fd, plan)
  }

  lemma {:induction false} TransferMakes<K(!new), G(!new)>(kernel: Kernel<K>, gen: Generator<G>, site: Site,
        size: nat, g: K -> G, write: bool, fd: int, units: seq<Unit>, s: Sys<K>)
    requires Disk(kernel, gen, site, size, g) && !s.halted && Inside(units, size)
    ensures var t := Transfer(kernel, write, fd, units, s);
            && !t.halted && g(t.kernel) == g(s.kernel) && t.calls == s.calls + TransferCalls(write, fd, units)
  {
    if units == [] {
      assert s.calls + [] == s.calls;
    } else {
      var front, u := units[..|units| - 1], units[|units| - 1];
      TransferMakes(kernel, gen, site, size, g, write, fd, front, s);
      AskDisk(kernel, gen, site, size, g, Transfer(kernel, write, fd, front, s), TransferCall(write, fd, u));
      assert TransferCalls(write, fd, units) == TransferCalls(write, fd, front) + [TransferCall(write, fd, u)];
    }
  }

  lemma {:induction false} RandomPlanMakes<K(!new), G(!new)>(kernel: Kernel<K>, gen: Generator<G>, site: Site,
        size: nat, g: K -> G, block: int, high: int, n: nat, s: Sys<K>)
    requires Disk(kernel, gen, site, size, g) && !s.halted
    ensures var (units, t) := RandomPlan(kernel, site, block, high, n, s);
            && !t.halted && (units, g(t.kernel)) == Draws(gen, g(s.kernel), block, high, n)
            && t.calls == s.calls + Same(Draw(site, 0, high), n)
  {
    if n == 0 {
      assert s.calls + [] == s.calls;
    } else {
      RandomPlanMakes(kernel, gen, site, size, g, block, high, n - 1, s);
      AskDisk(kernel, gen, site, size, g, RandomPlan(kernel, site, block, high, n - 1, s).1, Draw(site, 0, high));
      assert Same(Draw(site, 0, high), n) == Same(Draw(site, 0, high), n - 1) + [Draw(site, 0, high)];
    }
  }

  lemma {:induction false} DrawsLength<G>(gen: Generator<G>, g: G, block: int, high: int, n: nat)
    ensures |Draws(gen, g, block, high, n).0| == n
  {
    if n > 0 { DrawsLength(gen, g, block, high, n - 1); }
  }

  lemma AfterSeed<K(!new), G(!new)>(kernel: Kernel<K>, gen: Generator<G>, site: Site, size: nat, g: K -> G,
        rw: RwParams, s: Sys<K>)
    requires Disk(kernel, gen, site, size, g) && !s.halted
    ensures var t := if rw.reseeding.EachCycle? then Ask(kernel, s, Seed(site, rw.seed)).0 else s;
            && !t.halted && g(t.kernel) == (if rw.reseeding.EachCycle? then gen.seeded(rw.seed) else g(s.kernel))
            && t.calls == s.calls + if rw.reseeding.EachCycle? then [Seed(site, rw.seed)] else []
  {
    if rw.reseeding.EachCycle? { AskDisk(kernel, gen, site, size, g, s, Seed(site, rw.seed)); }
  }

  /** The interpreter's plan is the plan of the cycle, whatever the order and the reseeding. */
  lemma PlanMakes<K(!new), G(!new)>(kernel: Kernel<K>, gen: Generator<G>, site: Site, size: nat, g: K -> G,
                                    fd: int, rw: RwParams, s: Sys<K>)
    requires Disk(kernel, gen, site, size, g) && !s.halted && Fits(rw, size)
    ensures var (units, t) := Plan(kernel, site, fd, rw, s);
            && !t.halted && (units, g(t.kernel)) == CyclePlan(gen, rw, size, g(s.kernel))
            && t.calls == s.calls + PlanCalls(site, fd, rw, size, |units|)
  {
    var (total, block) := Sizes(rw, size);
    var n := UnitCount(total, block);
    AskDisk(kernel, gen, site, size, g, s, FStat(fd));
    var s1 := Ask(kernel, s, FStat(fd)).0;
    AfterSeed(kernel, gen, site, size, g, rw, s1);
    var s2 := if rw.reseeding.EachCycle? then Ask(kernel, s1, Seed(site, rw.seed)).0 else s1;
    var head := s.calls + [FStat(fd)] + if rw.reseeding.EachCycle? then [Seed(site, rw.seed)] else [];
    if rw.order.Random? {
      var high := ToInt(size - block);
      RandomPlanMakes(kernel, gen, site, size, g, block, high, n, s2);
      DrawsLength(gen, g(s2.kernel), block, high, n);
      assert head + Same(Draw(site, 0, high), n) == s.calls + PlanCalls(site, fd, rw, size, n);
    } else {
      assert head == s.calls + PlanCalls(site, fd, rw, size, n);
    }
  }

  lemma WriteCycle<K(!new), G(!new)>(kernel: Kernel<K>, gen: Generator<G>, site: Site, size: nat, g: K -> G,
                                     fd: int, rw: RwParams, fsync: bool, s: Sys<K>)
    requires Disk(kernel, gen, site, size, g) && !s.halted && Fits(rw, size) && StaysInside(gen, rw, size)
    ensures var (plan, after) := CyclePlan(gen, rw, size, g(s.kernel));
            var t := RunWrite(kernel, site, fd, rw, fsync, s);
            && !t.halted && g(t.kernel) == after && t.calls == s.calls + WriteCalls(site, fd, rw, fsync, size, plan)
  {
    PlanMakes(kernel, gen, site, size, g, fd, rw, s);
    PlanInside(gen, rw, size, g(s.kernel));
    var (plan, s1) := Plan(kernel, site, fd, rw, s);
    TransferMakes(kernel, gen, site, size, g, true, fd, plan, s1);
    var s2 := Transfer(kernel, true, fd, plan, s1);
    Regroup(s.calls, PlanCalls(site, fd, rw, size, |plan|), TransferCalls(true, fd, plan),
            if fsync then [FSync(fd)] else []);
    if fsync { AskDisk(kernel, gen, site, size, g, s2, FSync(fd)); }
  }

  lemma Regroup(a: seq<Call>, b: seq<Call>, c: seq<Call>, d: seq<Call>)
    ensures a + b + c + d == a + (b + c + d) && a + b + c + [] == a + b + c
  {}

  lemma ReadCycle<K(!new), G(!new)>(kernel: Kernel<K>, gen: Generator<G>, site: Site, size: nat, g: K -> G,
                                    fd: int, rw: RwParams, advice: int, s: Sys<K>)
    requires Disk(kernel, gen, site, size, g) && !s.halted && Fits(rw, size) && StaysInside(gen, rw, size)
    ensures var (plan, after) := CyclePlan(gen, rw, size, g(s.kernel));
            var t := RunRead(kernel, site, fd, rw, advice, s);
            && !t.halted && g(t.kernel) == after && t.calls == s.calls + ReadCalls(site, fd, rw, advice, size, plan)
  {
    AskDisk(kernel, gen, site, size, g, s, FStat(fd));
    var s1 := Ask(kernel, s, FStat(fd)).0;
    AskDisk(kernel, gen, site, size, g, s1, FAdvise(fd, size, advice));
    var s2 := Ask(kernel, s1, FAdvise(fd, size, advice)).0;
    PlanMakes(kernel, gen, site, size, g, fd, rw, s2);
    PlanInside(gen, rw, size, g(s2.kernel));
    var (plan, s3) := Plan(kernel, site, fd, rw, s2);
    TransferMakes(kernel, gen, site, size, g, false, fd, plan, s3);
    RegroupRead(s.calls, FStat(fd), FAdvise(fd, size, advice), PlanCalls(site, fd, rw, size, |plan|),
                TransferCalls(false, fd, plan));
  }

  lemma RegroupRead(a: seq<Call>, x: Call, y: Call, b: seq<Call>, c: seq<Call>)
    ensures a + [x] + [y] + b + c == a + ([x, y] + b + c)
  {}

  // ---------------------------------------------------------------- a negative starting offset

  lemma {:induction false} TransferStops<K(!new), G(!new)>(kernel: Kernel<K>, gen: Generator<G>, site: Site, size: nat,
        g: K -> G, write: bool, fd: int, units: seq<Unit>, s: Sys<K>)
    requires Disk(kernel, gen, site, size, g) && !s.halted && units != [] && units[0].offset < 0
    ensures Transfer(kernel, write, fd, units, s).halted
  {
    var front, u := units[..|units| - 1], units[|units| - 1];
    if front == [] {
      assert Transfer(kernel, write, fd, front, s) == s;
      AskDisk(kernel, gen, site, size, g, s, TransferCall(write, fd, u));
    } else {
      TransferStops(kernel, gen, site, size, g, write, fd, front, s);
    }
  }

  /** A sequential write_file or read_file of at least one block exits exactly if it starts at a negative offset. */
  lemma SequentialExactly<K(!new), G(!new)>(kernel: Kernel<K>, gen: Generator<G>, site: Site, size: nat, g: K -> G,
                                            fd: int, rw: RwParams, fsync: bool, advice: int, s: Sys<K>)
    requires Disk(kernel, gen, site, size, g) && !s.halted && Fits(rw, size) && rw.order.Sequential?
    requires UnitCount(Sizes(rw, size).0, Sizes(rw, size).1) > 0
    ensures RunWrite(kernel, site, fd, rw, fsync, s).halted <==> rw.startingOffset < 0
    ensures RunRead(kernel, site, fd, rw, advice, s).halted <==> rw.startingOffset < 0
  {
    if rw.startingOffset >= 0 {
      WriteCycle(kernel, gen, site, size, g, fd, rw, fsync, s);
      ReadCycle(kernel, gen, site, size, g, fd, rw, advice, s);
    } else {
      NegativeStart(kernel, gen, site, size, g, true, fd, rw, s);
      AskDisk(kernel, gen, site, size, g, s, FStat(fd));
      var s1 := Ask(kernel, s, FStat(fd)).0;
      AskDisk(kernel, gen, site, size, g, s1, FAdvise(fd, size, advice));
      NegativeStart(kernel, gen, site, size, g, false, fd, rw, Ask(kernel, s1, FAdvise(fd, size, advice)).0);
    }
  }

  lemma NegativeStart<K(!new), G(!new)>(kernel: Kernel<K>, gen: Generator<G>, site: Site, size: nat, g: K -> G,
                                        write: bool, fd: int, rw: RwParams, s: Sys<K>)
    requires Disk(kernel, gen, site, size, g) && !s.halted && Fits(rw, size) && rw.order.Sequential?
    requires UnitCount(Sizes(rw, size).0, Sizes(rw, size).1) > 0 && rw.startingOffset < 0
    ensures var (plan, s1) := Plan(kernel, site, fd, rw, s); Transfer(kernel, write, fd, plan, s1).halted
  {
    PlanMakes(kernel, gen, site, size, g, fd, rw, s);
    var (plan, s1) := Plan(kernel, site, fd, rw, s);
    assert plan[0].offset == rw.startingOffset;
    TransferStops(kernel, gen, site, size, g, write, fd, plan, s1);
  }

  // ---------------------------------------------------------------- a whole instruction

  predicate Transfers(b: Body<string>) {
    b.WriteFile? || b.ReadFile?
  }

  function CycleCalls(site: Site, fd: int, b: Body<string>, size: nat, plan: seq<Unit>): seq<Call>
    requires Transfers(b) && Fits(b.rw, size)
  {
    match b
    case WriteFile(_, rw, fsync) => WriteCalls(site, fd, rw, fsync, size, plan)
    case ReadFile(_, rw, advice) => ReadCalls(site, fd, rw, advice, size, plan)
  }

  function RoundCalls(site: Site, fd: int, b: Body<string>, size: nat, plans: seq<seq<Unit>>): seq<Call>
    requires Transfers(b) && Fits(b.rw, size)
  {
    if plans == [] then []
    else RoundCalls(site, fd, b, size, plans[..|plans| - 1]) + CycleCalls(site, fd, b, size, plans[|plans| - 1])
  }

  /** From m to t: the calls made, the generator state reached, and no variable changed. */
  ghost predicate Made<K(!new), G(!new)>(g: K -> G, m: Machine<Names, K>, t: Machine<Names, K>, calls: seq<Call>,
        state: G) {
    !t.sys.halted && g(t.sys.kernel) == state && t.store == m.store && t.sys.calls == m.sys.calls + calls
  }

  lemma MadeTogether<K(!new), G(!new)>(g: K -> G, m: Machine<Names, K>, t: Machine<Names, K>, u: Machine<Names, K>,
                                       first: seq<Call>, between: G, second: seq<Call>, state: G)
    requires Made(g, m, t, first, between) && Made(g, t, u, second, state)
    ensures Made(g, m, u, first + second, state)
  {
    assert m.sys.calls + first + second == m.sys.calls + (first + second);
  }

  lemma CycleMakes<K(!new), G(!new)>(kernel: Kernel<K>, gen: Generator<G>, site: Site, size: nat, g: K -> G,
        prefix: string, i: Instr<string>, m: Machine<Names, K>)
    requires Transfers(i.body) && Disk(kernel, gen, site, size, g) && !m.sys.halted && Fits(i.body.rw, size)
    requires StaysInside(gen, i.body.rw, size) && NameValue(m.store, i.body.fd).IntValue?
    ensures var (plan, after) := CyclePlan(gen, i.body.rw, size, g(m.sys.kernel));
            Made(g, m, Cycle(kernel, NameEnv(), prefix, site, i, m),
                 CycleCalls(site, NameValue(m.store, i.body.fd).n, i.body, size, plan), after)
  {
    var fd := NameValue(m.store, i.body.fd).n;
    assert GetInt(NameEnv(), m.store, i.body.fd) == Some(fd);
    match i.body
    case WriteFile(_, rw, fsync) => WriteCycle(kernel, gen, site, size, g, fd, rw, fsync, m.sys);
    case ReadFile(_, rw, advice) => ReadCycle(kernel, gen, site, size, g, fd, rw, advice, m.sys);
  }

  lemma {:induction false} RoundsMake<K(!new), G(!new)>(kernel: Kernel<K>, gen: Generator<G>, site: Site, size: nat,
        g: K -> G, prefix: string, i: Instr<string>, n: nat, m: Machine<Names, K>)
    requires Transfers(i.body) && Disk(kernel, gen, site, size, g) && !m.sys.halted && Fits(i.body.rw, size)
    requires StaysInside(gen, i.body.rw, size) && NameValue(m.store, i.body.fd).IntValue?
    ensures var (plans, after) := Cycles(gen, i.body.rw, size, g(m.sys.kernel), n);
            Made(g, m, Interpreter.Rounds(kernel, NameEnv(), prefix, site, i, n, m),
                 RoundCalls(site, NameValue(m.store, i.body.fd).n, i.body, size, plans), after)
  {
    if n == 0 {
      assert m.sys.calls + [] == m.sys.calls;
    } else {
      var fd := NameValue(m.store, i.body.fd).n;
      RoundsMake(kernel, gen, site, size, g, prefix, i, n - 1, m);
      var t := Interpreter.Rounds(kernel, NameEnv(), prefix, site, i, n - 1, m);
      var (plans, between) := Cycles(gen, i.body.rw, size, g(m.sys.kernel), n - 1);
      var (plan, after) := CyclePlan(gen, i.body.rw, size, between);
      CycleMakes(kernel, gen, site, size, g, prefix, i, t);
      var u := Cycle(kernel, NameEnv(), prefix, site, i, t);
      MadeTogether(g, m, t, u, RoundCalls(site, fd, i.body, size, plans), between,
                   CycleCalls(site, fd, i.body, size, plan), after);
      RoundCallsStep(site, fd, i.body, size, plans, plan);
    }
  }

  lemma RoundCallsStep(site: Site, fd: int, b: Body<string>, size: nat, plans: seq<seq<Unit>>, plan: seq<Unit>)
    requires Transfers(b) && Fits(b.rw, size)
    ensures RoundCalls(site, fd, b, size, plans + [plan])
         == RoundCalls(site, fd, b, size, plans) + CycleCalls(site, fd, b, size, plan)
  {
    assert (plans + [plan])[..|plans|] == plans;
  }

  /**
   * Performing a read_file or write_file makes exactly the calls of the plans of one round, cycle by
   * cycle, after the reseeding of the round; it leaves the generator after them and no variable changed.
   */
  lemma InstructionMakes<K(!new), G(!new)>(kernel: Kernel<K>, gen: Generator<G>, site: Site, size: nat, g: K -> G,
                                           prefix: string, i: Instr<string>, m: Machine<Names, K>)
    requires Transfers(i.body) && Disk(kernel, gen, site, size, g) && !m.sys.halted && Fits(i.body.rw, size)
    requires StaysInside(gen, i.body.rw, size) && NameValue(m.store, i.body.fd).IntValue? && i.repeat >= 0
    ensures var rw := i.body.rw;
            var (plans, after) := Round(gen, rw, size, g(m.sys.kernel), i.repeat);
            var reseed := if rw.reseeding.EachRoundOfCycles? then [Seed(site, rw.seed)] else [];
            var t := Perform(kernel, NameEnv(), prefix, site, i, m);
            Made(g, m, t, reseed + RoundCalls(site, NameValue(m.store, i.body.fd).n, i.body, size, plans), after)
  {
    var rw := i.body.rw;
    if rw.reseeding.EachRoundOfCycles? { AskDisk(kernel, gen, site, size, g, m.sys, Seed(site, rw.seed)); }
    var m1 := m.(sys := SetUpRound(kernel, site, i.body, m.sys));
    assert m.sys.calls + [] == m.sys.calls;
    RoundsMake(kernel, gen, site, size, g, prefix, i, i.repeat, m1);
    var (plans, after) := Round(gen, rw, size, g(m.sys.kernel), i.repeat);
    MadeTogether(g, m, m1, Perform(kernel, NameEnv(), prefix, site, i, m),
                 if rw.reseeding.EachRoundOfCycles? then [Seed(site, rw.seed)] else [], g(m1.sys.kernel),
                 RoundCalls(site, NameValue(m.store, i.body.fd).n, i.body, size, plans), after);
  }
}
