/**
 * Workload trees.  `Instr<string>` is a parsed .ditto instruction, which refers to shared
 * variables by name; `Instr<nat>` is the executable form, which refers to them by slot.
 */
module Workload {
  import opened Common

  datatype Value = IntValue(n: int) | StringValue(s: string) | MutexValue | ListValue(l: seq<string>)

  datatype Order = Sequential | Random

  datatype Reseeding = Once | EachRoundOfCycles | EachCycle

  datatype FileName<V> = PathName(path: string) | Input(v: V) | RandomName

  /** delete_file has no random names. */
  type NamedFile<V> = f: FileName<V> | !f.RandomName? witness PathName("")

  datatype OpenFlags = OpenFlags(create: bool, directIo: bool, accessMode: nat)

  datatype RwParams = RwParams(
    size: int, blockSize: int, startingOffset: int, order: Order, seed: int, reseeding: Reseeding)

  datatype Iterate<V> = Iterate(list: V, item: V, order: Order, reseeding: Reseeding, seed: int)

  datatype Thread<V> = Thread(spawn: int, instruction: Instr<V>)

  datatype Instr<V> = Instr(repeat: int, body: Body<V>)

  datatype Body<V> =
    | OpenFile(file: FileName<V>, output: Option<V>, flags: OpenFlags)
    | DeleteFile(target: NamedFile<V>)
    | CloseFile(fd: V)
    | ResizeFile(fd: V, size: int)
    | ResizeFileRandom(fd: V, min: int, max: int, seed: int, reseeding: Reseeding)
    | WriteFile(fd: V, rw: RwParams, fsync: bool)
    | ReadFile(fd: V, rw: RwParams, fadvise: int)
    | ReadDirectory(directory: string, outputList: V)
    | Lock(mutex: V)
    | Unlock(mutex: V)
    | NoVariables(work: nat)   // cpu_work, mem_alloc, invalidate_cache, binder calls: no shared variable
    | InstructionSet(instructions: seq<Instr<V>>, iterate: Option<Iterate<V>>)
    | Multithreading(fork: bool, threads: seq<Thread<V>>)

  /** One entry per spawned thread, in spawn order. */
  function Expand<V>(threads: seq<Thread<V>>): seq<Instr<V>> {
    if threads == [] then []
    else
      var t := threads[|threads| - 1];
      Expand(threads[..|threads| - 1]) + Copies(t.instruction, t.spawn)
  }

  function Copies<V>(i: Instr<V>, n: int): seq<Instr<V>> {
    if n <= 0 then [] else Copies(i, n - 1) + [i]
  }

  function Children<V>(b: Body<V>): seq<Instr<V>> {
    match b
    case InstructionSet(l, _) => l
    case Multithreading(_, threads) => Expand(threads)
    case _ => []
  }

  // ---------------------------------------------------------------- height, for termination

  function Height<V>(i: Instr<V>): (h: nat)
    decreases i
  {
    match i.body
    case InstructionSet(l, _) => 1 + MaxHeight(l)
    case Multithreading(_, threads) => 1 + ThreadsHeight(threads)
    case _ => 0
  }

  function MaxHeight<V>(l: seq<Instr<V>>): (h: nat)
    ensures forall i :: i in l ==> Height(i) <= h
    decreases l
  {
    if l == [] then 0
    else
      var h, k := MaxHeight(l[..|l| - 1]), Height(l[|l| - 1]);
      assert l == l[..|l| - 1] + [l[|l| - 1]];
      if h < k then k else h
  }

  function ThreadHeight<V>(t: Thread<V>): nat
    decreases t
  {
    match t case Thread(_, i) => Height(i)
  }

  function ThreadsHeight<V>(l: seq<Thread<V>>): (h: nat)
    ensures forall t :: t in l ==> ThreadHeight(t) <= h
    decreases l
  {
    if l == [] then 0
    else
      var h, k := ThreadsHeight(l[..|l| - 1]), ThreadHeight(l[|l| - 1]);
      assert l == l[..|l| - 1] + [l[|l| - 1]];
      if h < k then k else h
  }

  lemma {:induction false} ExpandHeight<V>(threads: seq<Thread<V>>, bound: nat)
    requires forall t :: t in threads ==> ThreadHeight(t) < bound
    ensures forall i :: i in Expand(threads) ==> Height(i) < bound
  {
    if threads != [] {
      var t := threads[|threads| - 1];
      ExpandHeight(threads[..|threads| - 1], bound);
      CopiesAre(t.instruction, t.spawn);
      assert t in threads;
    }
  }

  lemma {:induction false} CopiesAre<V>(i: Instr<V>, n: int)
    ensures forall x :: x in Copies(i, n) ==> x == i
  {
    if n > 0 { CopiesAre(i, n - 1); }
  }

  lemma ChildrenLower<V>(i: Instr<V>)
    ensures forall x :: x in Children(i.body) ==> Height(x) < Height(i)
  {
    if i.body.Multithreading? {
      ExpandHeight(i.body.threads, Height(i));
    }
  }

  // ---------------------------------------------------------------- variables

  /** The variables an instruction itself refers to, in the order they are resolved. */
  function Refs<V>(b: Body<V>): seq<V> {
    match b
    case OpenFile(file, output, _) => (if output.Some? then [output.value] else []) + FileRefs(file)
    case DeleteFile(file) => FileRefs(file)
    case CloseFile(fd) => [fd]
    case ResizeFile(fd, _) => [fd]
    case ResizeFileRandom(fd, _, _, _, _) => [fd]
    case WriteFile(fd, _, _) => [fd]
    case ReadFile(fd, _, _) => [fd]
    case ReadDirectory(_, output) => [output]
    case Lock(mutex) => [mutex]
    case Unlock(mutex) => [mutex]
    case InstructionSet(_, Some(it)) => [it.list, it.item]
    case _ => []
  }

  function FileRefs<V>(file: FileName<V>): seq<V> {
    if file.Input? then [file.v] else []
  }

  ghost predicate ThreadFree<V>(i: Instr<V>)
    decreases i
  {
    match i.body
    case InstructionSet(l, _) => forall x :: x in l ==> ThreadFree(x)
    case Multithreading(_, _) => false
    case _ => true
  }

  ghost predicate AllThreadFree<V>(l: seq<Instr<V>>) {
    forall x :: x in l ==> ThreadFree(x)
  }
}
