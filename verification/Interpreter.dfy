/**
 * Execution of workload trees without threads.
 *
 * The operating system and the random generators are one abstract `kernel` function: it answers
 * each call from its own state.  `Env` says how variables are read and written, so the same
 * rules run a tree over names and over slots.  Where the program would exit or throw, the
 * machine is `halted` and does nothing more.
 */
module Interpreter {
  import opened Common
  import opened Workload
  import opened BlockPlan

  /** `site` is the position of an instruction object in the tree; it owns its generator. */
  type Site = seq<nat>

  datatype Call =
    | Open(path: string, flags: OpenFlags) | Close(fd: int) | Unlink(path: string)
    | FStat(fd: int) | FAllocate(fd: int, length: int) | FTruncate(fd: int, length: int)
    | PRead(fd: int, count: int, offset: int) | PWrite(fd: int, count: int, offset: int)
    | FAdvise(fd: int, length: int, advice: int) | FSync(fd: int)
    | ListDirectory(path: string) | UnusedName(site: Site, base: string)
    | Seed(site: Site, seed: int) | Draw(site: Site, low: int, high: int)
    | LockMutex | UnlockMutex   // a benchmark has at most one mutex
    | Work(site: Site, work: nat)

  datatype Entry = Entry(regular: bool, name: string)

  datatype Reply = Reply(number: int, text: string, entries: seq<Entry>)

  type Kernel<!K> = (K, Call) -> (K, Reply)

  datatype Sys<K> = Sys(kernel: K, calls: seq<Call>, halted: bool)

  datatype Env<!S, !V> = Env(
    get: (S, V) -> Option<Value>, put: (S, V, Value) -> Option<S>, absolutePath: V)

  datatype Machine<S, K> = Machine(store: S, sys: Sys<K>)

  function Halt<K>(s: Sys<K>): Sys<K> {
    s.(halted := true)
  }

  predicate NotMinusOne(r: Reply) { r.number != -1 }

  predicate IsZero(r: Reply) { r.number == 0 }

  function Ask<K>(kernel: Kernel<K>, s: Sys<K>, call: Call): (Sys<K>, Reply) {
    if s.halted then (s, Reply(0, "", []))
    else
      var (k, reply) := kernel(s.kernel, call);
      (Sys(k, s.calls + [call], false), reply)
  }

  /** A call that must be answered `ok`; otherwise the program exits. */
  function Require<K>(kernel: Kernel<K>, s: Sys<K>, call: Call, ok: Reply -> bool): Sys<K> {
    var (s1, reply) := Ask(kernel, s, call);
    if ok(reply) then s1 else Halt(s1)
  }

  // ---------------------------------------------------------------- file instructions

  function Transfer<K>(kernel: Kernel<K>, write: bool, fd: int, units: seq<Unit>, s: Sys<K>): Sys<K> {
    if units == [] then s
    else
      var u := units[|units| - 1];
      Require(kernel, Transfer(kernel, write, fd, units[..|units| - 1], s),
              if write then PWrite(fd, u.count, u.offset) else PRead(fd, u.count, u.offset),
              NotMinusOne)
  }

  function RandomPlan<K>(kernel: Kernel<K>, site: Site, block: int, high: int, n: nat, s: Sys<K>)
    : (seq<Unit>, Sys<K>)
  {
    if n == 0 then ([], s)
    else
      var (units, s1) := RandomPlan(kernel, site, block, high, n - 1, s);
      var (s2, reply) := Ask(kernel, s1, Draw(site, 0, high));
      (units + [Unit(block, reply.number)], s2)
  }

  /** ReadWriteFile::SetUpSingle: sizes, reseeding and the plan; None where the program exits. */
  function Plan<K>(kernel: Kernel<K>, site: Site, fd: int, rw: RwParams, s: Sys<K>): (seq<Unit>, Sys<K>) {
    var (s1, stat) := Ask(kernel, s, FStat(fd));
    var fileSize := stat.number;
    var size := if rw.size == -1 then fileSize else rw.size;
    var block := if rw.blockSize == -1 then fileSize else rw.blockSize;
    if fileSize == -1 || block > fileSize || block <= 0 then ([], Halt(s1))
    else
      var s2 := if rw.reseeding.EachCycle? then Ask(kernel, s1, Seed(site, rw.seed)).0 else s1;
      var n := UnitCount(size, block);
      match rw.order
      case Sequential => (SequentialPlan(rw.startingOffset, block, fileSize, n), s2)
      case Random => RandomPlan(kernel, site, block, ToInt(fileSize - block), n, s2)
  }

  function RunWrite<K>(kernel: Kernel<K>, site: Site, fd: int, rw: RwParams, fsync: bool, s: Sys<K>): Sys<K> {
    var (units, s1) := Plan(kernel, site, fd, rw, s);
    var s2 := Transfer(kernel, true, fd, units, s1);
    if fsync then Require(kernel, s2, FSync(fd), IsZero) else s2
  }

  function RunRead<K>(kernel: Kernel<K>, site: Site, fd: int, rw: RwParams, advice: int, s: Sys<K>): Sys<K> {
    var (s1, stat) := Ask(kernel, s, FStat(fd));
    var s2 := if stat.number == -1 then Halt(s1)
              else Require(kernel, s1, FAdvise(fd, stat.number, advice), IsZero);
    var (units, s3) := Plan(kernel, site, fd, rw, s2);
    Transfer(kernel, false, fd, units, s3)
  }

  function RunResize<K>(kernel: Kernel<K>, fd: int, size: int, s: Sys<K>): Sys<K> {
    var (s1, stat) := Ask(kernel, s, FStat(fd));
    if stat.number == -1 then Halt(s1)
    else if size > stat.number then Require(kernel, s1, FAllocate(fd, size), IsZero)
    else if size < stat.number then Require(kernel, s1, FTruncate(fd, size), IsZero)
    else s1
  }

  /** ResizeFileRandom::SetUpSingle: the size of the next resize, drawn between ints. */
  function DrawSize<K>(kernel: Kernel<K>, site: Site, min: int, max: int, seed: int, reseeding: Reseeding, s: Sys<K>)
    : (int, Sys<K>)
  {
    var s1 := if reseeding.EachCycle? then Ask(kernel, s, Seed(site, seed)).0 else s;
    var (s2, reply) := Ask(kernel, s1, Draw(site, ToInt(min), ToInt(max)));
    (reply.number, s2)
  }

  /** The regular files of a directory, as paths. */
  function Listing(directory: string, entries: seq<Entry>): seq<string> {
    if entries == [] then []
    else
      var e := entries[|entries| - 1];
      var slash := if directory != "" && directory[|directory| - 1] != '/' then "/" else "";
      Listing(directory, entries[..|entries| - 1]) + if e.regular then [directory + slash + e.name] else []
  }

  // ---------------------------------------------------------------- variables

  function GetInt<S, V>(env: Env<S, V>, store: S, v: V): Option<int> {
    match env.get(store, v)
    case Some(IntValue(n)) => Some(n)
    case _ => None
  }

  function GetString<S, V>(env: Env<S, V>, store: S, v: V): Option<string> {
    match env.get(store, v)
    case Some(StringValue(x)) => Some(x)
    case _ => None
  }

  function SetVar<S, V, K>(env: Env<S, V>, m: Machine<S, K>, v: V, x: Value): Machine<S, K> {
    if m.sys.halted then m
    else
      match env.put(m.store, v, x)
      case Some(store) => m.(store := store)
      case None => m.(sys := Halt(m.sys))
  }

  /** The path of an open_file or delete_file, or None where the program exits. */
  function PathOf<S, V, K>(kernel: Kernel<K>, env: Env<S, V>, prefix: string, site: Site, file: FileName<V>,
                           m: Machine<S, K>): (Option<string>, Sys<K>)
  {
    match file
    case PathName(path) => (Some(prefix + path), m.sys)
    case Input(v) => (GetString(env, m.store, v), m.sys)
    case RandomName =>
      match GetString(env, m.store, env.absolutePath)
      case None => (None, m.sys)
      case Some(base) =>
        var (s, reply) := Ask(kernel, m.sys, UnusedName(site, base));
        (Some(base + reply.text), s)
  }

  // ---------------------------------------------------------------- one cycle of a leaf

  function OnFd<S, V, K>(env: Env<S, V>, m: Machine<S, K>, fd: V, run: (int, Sys<K>) -> Sys<K>): Machine<S, K> {
    match GetInt(env, m.store, fd)
    case None => m.(sys := Halt(m.sys))
    case Some(n) => m.(sys := run(n, m.sys))
  }

  /** lock and unlock; a variable that holds no mutex gives a null pointer. */
  function OnMutex<S, V, K>(kernel: Kernel<K>, env: Env<S, V>, m: Machine<S, K>, mutex: V, call: Call): Machine<S, K> {
    if env.get(m.store, mutex) == Some(MutexValue) then m.(sys := Require(kernel, m.sys, call, IsZero))
    else m.(sys := Halt(m.sys))
  }

  function Leaf<S, V, K>(kernel: Kernel<K>, env: Env<S, V>, prefix: string, site: Site, b: Body<V>,
                         m: Machine<S, K>): Machine<S, K>
    requires !b.InstructionSet? && !b.Multithreading?
  {
    match b
    case OpenFile(file, output, flags) => (
      var (path, s) := PathOf(kernel, env, prefix, site, file, m);
      match path
      case None => m.(sys := Halt(s))
      case Some(name) =>
        var (s1, reply) := Ask(kernel, s, Open(name, flags));
        if reply.number == -1 then m.(sys := Halt(s1))
        else if output.None? then m.(sys := s1)
        else SetVar(env, m.(sys := s1), output.value, IntValue(reply.number)))
    case DeleteFile(file) => (
      var (path, s) := PathOf(kernel, env, prefix, site, file, m);
      match path
      case None => m.(sys := Halt(s))
      case Some(name) => m.(sys := Require(kernel, s, Unlink(name), NotMinusOne)))
    case CloseFile(fd) =>
      OnFd(env, m, fd, (n, s) => Require(kernel, s, Close(n), IsZero))
    case ResizeFile(fd, size) => OnFd(env, m, fd, (n, s) => RunResize(kernel, n, size, s))
    case ResizeFileRandom(fd, min, max, seed, reseeding) =>
      var (size, s) := DrawSize(kernel, site, min, max, seed, reseeding, m.sys);
      OnFd(env, m.(sys := s), fd, (n, s) => RunResize(kernel, n, size, s))
    case WriteFile(fd, rw, fsync) => OnFd(env, m, fd, (n, s) => RunWrite(kernel, site, n, rw, fsync, s))
    case ReadFile(fd, rw, advice) => OnFd(env, m, fd, (n, s) => RunRead(kernel, site, n, rw, advice, s))
    case ReadDirectory(directory, output) => (
      var path := prefix + directory;
      var (s, reply) := Ask(kernel, m.sys, ListDirectory(path));
      if reply.number == -1 then m.(sys := Halt(s))
      else SetVar(env, m.(sys := s), output, ListValue(Listing(path, reply.entries))))
    case Lock(mutex) => OnMutex(kernel, env, m, mutex, LockMutex)
    case Unlock(mutex) => OnMutex(kernel, env, m, mutex, UnlockMutex)
    case NoVariables(work) => m.(sys := Ask(kernel, m.sys, Work(site, work)).0)
  }

  // ---------------------------------------------------------------- rounds and cycles

  /** SetUp: the reseeding before a round of cycles. */
  function SetUpRound<V, K>(kernel: Kernel<K>, site: Site, b: Body<V>, s: Sys<K>): Sys<K> {
    var seed := match b
      case InstructionSet(_, Some(it)) => if it.reseeding.EachRoundOfCycles? then Some(it.seed) else None
      case ResizeFileRandom(_, _, _, seed, r) => if r.EachRoundOfCycles? then Some(seed) else None
      case WriteFile(_, rw, _) => if rw.reseeding.EachRoundOfCycles? then Some(rw.seed) else None
      case ReadFile(_, rw, _) => if rw.reseeding.EachRoundOfCycles? then Some(rw.seed) else None
      case _ => None;
    match seed
    case None => s
    case Some(x) => Ask(kernel, s, Seed(site, x)).0
  }

  /** SetUp, Run, TearDown of one instruction. */
  function Perform<S, V, K>(kernel: Kernel<K>, env: Env<S, V>, prefix: string, site: Site, i: Instr<V>,
                            m: Machine<S, K>): Machine<S, K>
    requires ThreadFree(i)
    decreases i, 2, 0
  {
    Rounds(kernel, env, prefix, site, i, i.repeat, m.(sys := SetUpRound(kernel, site, i.body, m.sys)))
  }

  function Rounds<S, V, K>(kernel: Kernel<K>, env: Env<S, V>, prefix: string, site: Site, i: Instr<V>, n: int,
                           m: Machine<S, K>): Machine<S, K>
    requires ThreadFree(i)
    decreases i, 1, n
  {
    if n <= 0 then m
    else Cycle(kernel, env, prefix, site, i, Rounds(kernel, env, prefix, site, i, n - 1, m))
  }

  function Cycle<S, V, K>(kernel: Kernel<K>, env: Env<S, V>, prefix: string, site: Site, i: Instr<V>,
                          m: Machine<S, K>): Machine<S, K>
    requires ThreadFree(i)
    decreases i, 0, 0
  {
    if m.sys.halted then m
    else
      match i.body
      case InstructionSet(l, None) => PerformAll(kernel, env, prefix, site, l, m)
      case InstructionSet(l, Some(it)) => (
        var m1 := if it.reseeding.EachCycle? then m.(sys := Ask(kernel, m.sys, Seed(site, it.seed)).0) else m;
        match env.get(m1.store, it.list)
        case Some(ListValue(names)) => Iterations(kernel, env, prefix, site, l, it, names, |names|, m1)
        case _ => m1.(sys := Halt(m1.sys)))
      case Multithreading(_, _) => m
      case _ => Leaf(kernel, env, prefix, site, i.body, m)
  }

  function PerformAll<S, V, K>(kernel: Kernel<K>, env: Env<S, V>, prefix: string, site: Site, l: seq<Instr<V>>,
                               m: Machine<S, K>): Machine<S, K>
    requires AllThreadFree(l)
    decreases l, 0, 0
  {
    if l == [] then m
    else
      Perform(kernel, env, prefix, site + [|l| - 1], l[|l| - 1],
              PerformAll(kernel, env, prefix, site, l[..|l| - 1], m))
  }

  /** The item variable for iteration n over the snapshot of the list. */
  function PickItem<S, V, K>(kernel: Kernel<K>, env: Env<S, V>, site: Site, it: Iterate<V>, names: seq<string>,
                             n: nat, m: Machine<S, K>): Machine<S, K>
    requires n < |names|
  {
    match it.order
    case Sequential => SetVar(env, m, it.item, StringValue(names[n]))
    case Random =>
      var (s, reply) := Ask(kernel, m.sys, Draw(site, 0, ToInt(|names| - 1)));
      if 0 <= reply.number < |names| then SetVar(env, m.(sys := s), it.item, StringValue(names[reply.number]))
      else m.(sys := Halt(s))
  }

  function Iterations<S, V, K>(kernel: Kernel<K>, env: Env<S, V>, prefix: string, site: Site, l: seq<Instr<V>>,
                               it: Iterate<V>, names: seq<string>, n: nat, m: Machine<S, K>): Machine<S, K>
    requires AllThreadFree(l) && n <= |names|
    decreases l, 1, n
  {
    if n == 0 then m
    else
      PerformAll(kernel, env, prefix, site, l,
        PickItem(kernel, env, site, it, names, n - 1,
          Iterations(kernel, env, prefix, site, l, it, names, n - 1, m)))
  }

  /** A cycle of an iterating set: the iterations over the list, or an exit if the variable holds none. */
  lemma CycleIterates<S, V, K>(kernel: Kernel<K>, env: Env<S, V>, prefix: string, site: Site, i: Instr<V>,
                               l: seq<Instr<V>>, it: Iterate<V>, m: Machine<S, K>)
    requires ThreadFree(i) && i.body == InstructionSet(l, Some(it)) && !m.sys.halted
    ensures var m1 := if it.reseeding.EachCycle? then m.(sys := Ask(kernel, m.sys, Seed(site, it.seed)).0) else m;
            Cycle(kernel, env, prefix, site, i, m) ==
              match env.get(m.store, it.list)
              case Some(ListValue(names)) => Iterations(kernel, env, prefix, site, l, it, names, |names|, m1)
              case _ => m1.(sys := Halt(m1.sys))
  {}

  // ---------------------------------------------------------------- after a stop

  /** A stopped machine stays as it is. */
  lemma {:induction false} StoppedRounds<S, V, K>(kernel: Kernel<K>, env: Env<S, V>, prefix: string, site: Site,
                                                  i: Instr<V>, n: int, m: Machine<S, K>)
    requires ThreadFree(i) && m.sys.halted
    ensures Rounds(kernel, env, prefix, site, i, n, m) == m
    decreases n
  {
    if n > 0 { StoppedRounds(kernel, env, prefix, site, i, n - 1, m); }
  }

  lemma StoppedPerform<S, V, K>(kernel: Kernel<K>, env: Env<S, V>, prefix: string, site: Site, i: Instr<V>,
                                m: Machine<S, K>)
    requires ThreadFree(i) && m.sys.halted
    ensures Perform(kernel, env, prefix, site, i, m) == m
  {
    StoppedRounds(kernel, env, prefix, site, i, i.repeat, m);
  }

  lemma {:induction false} StoppedAll<S, V, K>(kernel: Kernel<K>, env: Env<S, V>, prefix: string, site: Site,
                                               l: seq<Instr<V>>, m: Machine<S, K>)
    requires AllThreadFree(l) && m.sys.halted
    ensures PerformAll(kernel, env, prefix, site, l, m) == m
  {
    if l != [] {
      StoppedAll(kernel, env, prefix, site, l[..|l| - 1], m);
      StoppedPerform(kernel, env, prefix, site + [|l| - 1], l[|l| - 1], m);
    }
  }
}
