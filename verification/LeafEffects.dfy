/**
 * What one cycle of each instruction without children does, on any kernel: the exact calls it makes, when
 * it ends the program, and the one variable it changes.
 */
module LeafEffects {
  import BlockPlan
  import opened Common
  import opened Workload
  import opened Interpreter
  import opened NameResolution

  /** The system after a call, which ends the program or not. */
  function Made<K>(kernel: Kernel<K>, s: Sys<K>, call: Call, stops: bool): Sys<K> {
    Sys(kernel(s.kernel, call).0, s.calls + [call], stops)
  }

  function Answer<K>(kernel: Kernel<K>, s: Sys<K>, call: Call): Reply {
    kernel(s.kernel, call).1
  }

  /** The name of the file is `path`, given literally or held by a variable. */
  predicate NamedBy<K>(file: FileName<string>, abs: string, m: Machine<Names, K>, path: string) {
    match file
    case PathName(p) => path == abs + p
    case Input(v) => NameValue(m.store, v) == StringValue(path)
    case RandomName => false
  }

  // ---------------------------------------------------------------- open_file and delete_file

  /** What the open itself does, from the system in which the name is known. */
  ghost predicate OpensFile<K>(kernel: Kernel<K>, output: Option<string>, m: Machine<Names, K>, s: Sys<K>, open: Call,
                           n: Machine<Names, K>)
  {
    var fd := Answer(kernel, s, open).number;
    && n.sys == Made(kernel, s, open, fd == -1)
    && n.store == if fd == -1 || output.None? then m.store else m.store[output.value := IntValue(fd)]
  }

  /**
   * open_file with a known name makes one call.  If it is answered with -1 the program ends; otherwise the
   * answer is the integer in the output variable, if there is one, and no other variable changes.
   */
  lemma {:induction false} OpenNamed<K(!new)>(kernel: Kernel<K>, abs: string, site: Site, file: FileName<string>,
        path: string, output: Option<string>, flags: OpenFlags, m: Machine<Names, K>)
    requires !m.sys.halted && NamedBy(file, abs, m, path)
    ensures OpensFile(kernel, output, m, m.sys, Open(path, flags),
                      Leaf(kernel, NameEnv(), abs, site, OpenFile(file, output, flags), m))
  {
    match file
    case PathName(_) =>
    case Input(v) => assert GetString(NameEnv(), m.store, v) == Some(path);
  }

  /** With a random name, the name is first drawn until it is unused, below the absolute path of that moment. */
  lemma {:induction false} OpenRandom<K(!new)>(kernel: Kernel<K>, abs: string, site: Site, base: string,
        output: Option<string>, flags: OpenFlags, m: Machine<Names, K>)
    requires !m.sys.halted && NameValue(m.store, "absolute_path") == StringValue(base)
    ensures var draw := UnusedName(site, base);
      OpensFile(kernel, output, m, Made(kernel, m.sys, draw, false),
                Open(base + Answer(kernel, m.sys, draw).text, flags),
                Leaf(kernel, NameEnv(), abs, site, OpenFile(RandomName, output, flags), m))
  {
    assert GetString(NameEnv(), m.store, ABSOLUTE_PATH) == Some(base);
  }

  /** delete_file makes one call, which ends the program if it is answered with -1. */
  lemma {:induction false} DeleteNamed<K(!new)>(kernel: Kernel<K>, abs: string, site: Site, file: NamedFile<string>,
        path: string, m: Machine<Names, K>)
    requires !m.sys.halted && NamedBy(file, abs, m, path)
    ensures var unlink := Unlink(path);
      Leaf(kernel, NameEnv(), abs, site, DeleteFile(file), m)
        == Machine(m.store, Made(kernel, m.sys, unlink, Answer(kernel, m.sys, unlink).number == -1))
  {
    if file.Input? { assert GetString(NameEnv(), m.store, file.v) == Some(path); }
  }

  /** A file named by a variable that holds no string ends the program before any call. */
  lemma {:induction false} NoName<K(!new)>(kernel: Kernel<K>, abs: string, site: Site, v: string,
        output: Option<string>, flags: OpenFlags, m: Machine<Names, K>)
    requires !m.sys.halted && !NameValue(m.store, v).StringValue?
    ensures var ended := m.(sys := m.sys.(halted := true));
      && Leaf(kernel, NameEnv(), abs, site, OpenFile(Input(v), output, flags), m) == ended
      && Leaf(kernel, NameEnv(), abs, site, DeleteFile(Input(v)), m) == ended
  {
    assert GetString(NameEnv(), m.store, v) == None;
  }

  // ---------------------------------------------------------------- instructions on a descriptor

  /**
   * close_file closes the descriptor that its variable holds; any answer but 0 ends the program, and so
   * does a variable that holds no integer, before any call.
   */
  lemma {:induction false} CloseHeld<K(!new)>(kernel: Kernel<K>, abs: string, site: Site, v: string,
        m: Machine<Names, K>)
    requires !m.sys.halted
    ensures Leaf(kernel, NameEnv(), abs, site, CloseFile(v), m) ==
      match NameValue(m.store, v)
      case IntValue(fd) => m.(sys := Made(kernel, m.sys, Close(fd), Answer(kernel, m.sys, Close(fd)).number != 0))
      case _ => m.(sys := m.sys.(halted := true))
  {
    assert GetInt(NameEnv(), m.store, v)
        == if NameValue(m.store, v).IntValue? then Some(NameValue(m.store, v).n) else None;
  }

  /** Resizing asks for the length, and then extends, truncates or does nothing; failures end the program. */
  ghost predicate Resizes<K>(kernel: Kernel<K>, fd: int, size: int, s: Sys<K>, t: Sys<K>) {
    var length := Answer(kernel, s, FStat(fd)).number;
    var known := Made(kernel, s, FStat(fd), false);
    var grow, shrink := FAllocate(fd, size), FTruncate(fd, size);
    t == if length == -1 then Made(kernel, s, FStat(fd), true)
         else if size > length then Made(kernel, known, grow, Answer(kernel, known, grow).number != 0)
         else if size < length then Made(kernel, known, shrink, Answer(kernel, known, shrink).number != 0)
         else known
  }

  lemma {:induction false} ResizeHeld<K(!new)>(kernel: Kernel<K>, abs: string, site: Site, v: string, fd: int,
        size: int, m: Machine<Names, K>)
    requires !m.sys.halted && NameValue(m.store, v) == IntValue(fd)
    ensures var n := Leaf(kernel, NameEnv(), abs, site, ResizeFile(v, size), m);
      n.store == m.store && Resizes(kernel, fd, size, m.sys, n.sys)
  {
    assert GetInt(NameEnv(), m.store, v) == Some(fd);
  }

  /** A random resize draws its size first, between bounds narrowed to int, after its seed with EACH_CYCLE. */
  lemma {:induction false} ResizeRandomHeld<K(!new)>(kernel: Kernel<K>, abs: string, site: Site, v: string, fd: int,
        min: int, max: int, seed: int, reseeding: Reseeding, m: Machine<Names, K>)
    requires !m.sys.halted && NameValue(m.store, v) == IntValue(fd)
    ensures var n := Leaf(kernel, NameEnv(), abs, site, ResizeFileRandom(v, min, max, seed, reseeding), m);
      var seeded := if reseeding == EachCycle then Made(kernel, m.sys, Seed(site, seed), false) else m.sys;
      var draw := Draw(site, ToInt(min), ToInt(max));
      && n.store == m.store
      && Resizes(kernel, fd, Answer(kernel, seeded, draw).number, Made(kernel, seeded, draw, false), n.sys)
  {
    assert GetInt(NameEnv(), m.store, v) == Some(fd);
  }

  // ---------------------------------------------------------------- where write_file and read_file end the program

  /** The file has no length, or its length and the block size do not go together; -1 stands for the length. */
  predicate Misfit(rw: RwParams, length: int) {
    length == -1 || (if rw.blockSize == -1 then length <= 0 else rw.blockSize > length || rw.blockSize <= 0)
  }

  /** write_file ends the program right after it has asked for the length, if the block size does not fit. */
  lemma {:induction false} WriteMisfit<K(!new)>(kernel: Kernel<K>, abs: string, site: Site, v: string, fd: int,
        rw: RwParams, fsync: bool, m: Machine<Names, K>)
    requires !m.sys.halted && NameValue(m.store, v) == IntValue(fd)
    requires Misfit(rw, Answer(kernel, m.sys, FStat(fd)).number)
    ensures Leaf(kernel, NameEnv(), abs, site, WriteFile(v, rw, fsync), m)
         == m.(sys := Made(kernel, m.sys, FStat(fd), true))
  {
    assert GetInt(NameEnv(), m.store, v) == Some(fd);
    assert Transfer(kernel, true, fd, [], Made(kernel, m.sys, FStat(fd), true)) == Made(kernel, m.sys, FStat(fd), true);
  }

  /** With fsync, the same and then one call, which ends the program unless it is answered with 0. */
  lemma {:induction false} WriteSyncs<K(!new)>(kernel: Kernel<K>, abs: string, site: Site, v: string, fd: int,
        rw: RwParams, m: Machine<Names, K>)
    requires !m.sys.halted && NameValue(m.store, v) == IntValue(fd)
    ensures var plain := Leaf(kernel, NameEnv(), abs, site, WriteFile(v, rw, false), m);
      Leaf(kernel, NameEnv(), abs, site, WriteFile(v, rw, true), m) ==
        if plain.sys.halted then plain
        else plain.(sys := Made(kernel, plain.sys, FSync(fd), Answer(kernel, plain.sys, FSync(fd)).number != 0))
  {
    assert GetInt(NameEnv(), m.store, v) == Some(fd);
  }

  /**
   * read_file asks for the length and gives its advice for the whole of it; it ends the program if either
   * fails, and after asking again if the block size does not fit.
   */
  lemma {:induction false} ReadEnds<K(!new)>(kernel: Kernel<K>, abs: string, site: Site, v: string, fd: int,
        rw: RwParams, advice: int, m: Machine<Names, K>)
    requires !m.sys.halted && NameValue(m.store, v) == IntValue(fd)
    ensures var n := Leaf(kernel, NameEnv(), abs, site, ReadFile(v, rw, advice), m);
      var length := Answer(kernel, m.sys, FStat(fd)).number;
      var known, advise := Made(kernel, m.sys, FStat(fd), false), FAdvise(fd, length, advice);
      var advised := Made(kernel, known, advise, false);
      if length == -1 then n == m.(sys := Made(kernel, m.sys, FStat(fd), true))
      else if Answer(kernel, known, advise).number != 0 then n == m.(sys := Made(kernel, known, advise, true))
      else Misfit(rw, Answer(kernel, advised, FStat(fd)).number) ==>
             n == m.(sys := Made(kernel, advised, FStat(fd), true))
  {
    assert GetInt(NameEnv(), m.store, v) == Some(fd);
    var length := Answer(kernel, m.sys, FStat(fd)).number;
    var known, advise := Made(kernel, m.sys, FStat(fd), false), FAdvise(fd, length, advice);
    var advised := Made(kernel, known, advise, false);
    StoppedPlan(kernel, site, fd, rw, Made(kernel, m.sys, FStat(fd), true));
    StoppedPlan(kernel, site, fd, rw, Made(kernel, known, advise, true));
    StoppedTransfer(kernel, fd, [], Made(kernel, advised, FStat(fd), true));
  }

  lemma {:induction false} StoppedTransfer<K(!new)>(kernel: Kernel<K>, fd: int, units: seq<BlockPlan.Unit>, s: Sys<K>)
    requires s.halted
    ensures Transfer(kernel, false, fd, units, s) == s
  {
    if units != [] { StoppedTransfer(kernel, fd, units[..|units| - 1], s); }
  }

  lemma {:induction false} StoppedPlan<K(!new)>(kernel: Kernel<K>, site: Site, fd: int, rw: RwParams, s: Sys<K>)
    requires s.halted
    ensures var (units, t) := Plan(kernel, site, fd, rw, s); Transfer(kernel, false, fd, units, t) == s
  {
    var (units, t) := Plan(kernel, site, fd, rw, s);
    StoppedTransfer(kernel, fd, units, s);
  }

  // ---------------------------------------------------------------- read_directory

  /** How many of the first n entries are regular files. */
  function RegularBefore(entries: seq<Entry>, n: nat): nat
    requires n <= |entries|
  {
    if n == 0 then 0 else RegularBefore(entries, n - 1) + if entries[n - 1].regular then 1 else 0
  }

  /** The path of a name in a directory: exactly one slash between them, none after an empty directory. */
  predicate JoinedBy(path: string, directory: string, name: string) {
    if directory == "" || '/' == directory[|directory| - 1] then path == directory + name
    else path == directory + "/" + name
  }

  lemma {:induction false} RegularWithin(entries: seq<Entry>, n: nat)
    requires n < |entries|
    ensures RegularBefore(entries[..|entries| - 1], n) == RegularBefore(entries, n)
  {
    if n > 0 { RegularWithin(entries, n - 1); }
  }

  lemma {:induction false} ListingCount(directory: string, entries: seq<Entry>)
    ensures |Listing(directory, entries)| == RegularBefore(entries, |entries|)
  {
    if entries != [] {
      ListingCount(directory, entries[..|entries| - 1]);
      RegularWithin(entries, |entries| - 1);
    }
  }

  /** The list has exactly the regular files, in the order of the entries, each as a path below the directory. */
  ghost predicate Lists(list: seq<string>, directory: string, entries: seq<Entry>) {
    && |list| == RegularBefore(entries, |entries|)
    && forall n :: 0 <= n < |entries| && entries[n].regular ==>
         RegularBefore(entries, n) < |list| && JoinedBy(list[RegularBefore(entries, n)], directory, entries[n].name)
  }

  lemma {:induction false} ListingAt(directory: string, entries: seq<Entry>, n: nat)
    requires n < |entries| && entries[n].regular
    ensures RegularBefore(entries, n) < |Listing(directory, entries)|
    ensures JoinedBy(Listing(directory, entries)[RegularBefore(entries, n)], directory, entries[n].name)
  {
    var front := entries[..|entries| - 1];
    ListingCount(directory, entries);
    ListingCount(directory, front);
    RegularWithin(entries, n);
    if n < |front| { ListingAt(directory, front, n); }
  }

  /**
   * read_directory lists the directory below the path; -1 ends the program, otherwise the output variable
   * holds the list of its regular files and no other variable changes.
   */
  lemma {:induction false} ReadDirectoryLists<K(!new)>(kernel: Kernel<K>, abs: string, site: Site, directory: string,
        output: string, m: Machine<Names, K>)
    requires !m.sys.halted
    ensures var n := Leaf(kernel, NameEnv(), abs, site, ReadDirectory(directory, output), m);
      var call := ListDirectory(abs + directory);
      var answer := Answer(kernel, m.sys, call);
      && n.sys == Made(kernel, m.sys, call, answer.number == -1)
      && if answer.number == -1 then n.store == m.store
         else
           var value := NameValue(n.store, output);
           && value.ListValue? && Lists(value.l, abs + directory, answer.entries)
           && n.store == m.store[output := value]
  {
    var path := abs + directory;
    var entries := Answer(kernel, m.sys, ListDirectory(path)).entries;
    ListingCount(path, entries);
    forall n | 0 <= n < |entries| && entries[n].regular
      ensures RegularBefore(entries, n) < |Listing(path, entries)|
      ensures JoinedBy(Listing(path, entries)[RegularBefore(entries, n)], path, entries[n].name)
    {
      ListingAt(path, entries, n);
    }
  }

  // ---------------------------------------------------------------- lock, unlock and the rest

  /**
   * lock and unlock make one call each on the mutex of their variable; any answer but 0 ends the program,
   * and so does a variable that holds no mutex, before any call.
   */
  lemma {:induction false} LocksHeld<K(!new)>(kernel: Kernel<K>, abs: string, site: Site, v: string,
        m: Machine<Names, K>)
    requires !m.sys.halted
    ensures Leaf(kernel, NameEnv(), abs, site, Lock(v), m) ==
      m.(sys := if NameValue(m.store, v) == MutexValue
                then Made(kernel, m.sys, LockMutex, Answer(kernel, m.sys, LockMutex).number != 0)
                else m.sys.(halted := true))
    ensures Leaf(kernel, NameEnv(), abs, site, Unlock(v), m) ==
      m.(sys := if NameValue(m.store, v) == MutexValue
                then Made(kernel, m.sys, UnlockMutex, Answer(kernel, m.sys, UnlockMutex).number != 0)
                else m.sys.(halted := true))
  {}

  /**
   * Before a round of cycles, exactly the instructions with EACH_ROUND_OF_CYCLES seed their generator, each
   * with its own seed, and nothing else happens.
   */
  lemma {:induction false} SeedsOfRound<K(!new)>(kernel: Kernel<K>, site: Site, b: Body<string>, s: Sys<K>)
    requires !s.halted
    ensures SetUpRound(kernel, site, b, s) ==
      if b.WriteFile? && b.rw.reseeding == EachRoundOfCycles then Made(kernel, s, Seed(site, b.rw.seed), false)
      else if b.ReadFile? && b.rw.reseeding == EachRoundOfCycles then Made(kernel, s, Seed(site, b.rw.seed), false)
      else if b.ResizeFileRandom? && b.reseeding == EachRoundOfCycles then Made(kernel, s, Seed(site, b.seed), false)
      else if b.InstructionSet? && b.iterate.Some? && b.iterate.value.reseeding == EachRoundOfCycles
      then Made(kernel, s, Seed(site, b.iterate.value.seed), false)
      else s
  {
    if b.InstructionSet? && b.iterate.Some? { var it := b.iterate.value; }
  }

  /** The instructions without variables make one call and change nothing. */
  lemma {:induction false} WorkOnly<K(!new)>(kernel: Kernel<K>, abs: string, site: Site, work: nat,
        m: Machine<Names, K>)
    requires !m.sys.halted
    ensures Leaf(kernel, NameEnv(), abs, site, NoVariables(work), m)
         == m.(sys := Made(kernel, m.sys, Work(site, work), false))
  {}
}
