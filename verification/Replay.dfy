/**
 * Replaying a traced workload: which sessions the tracer emits, and when executing them issues
 * exactly the transfers of the trace.
 */
module Replay {
  import opened Common
  import opened Strings
  import opened TraceText
  import opened TraceRoundTrip
  import opened Workload
  import opened BlockPlan
  import opened Interpreter
  import opened NameResolution
  import opened Scopes
  import opened Declarations
  import opened Parser
  import opened DittoTrace

  // ---------------------------------------------------------------- completeness of the sessions

  /** How many sessions the first events finish. */
  function Closings(es: seq<Event>): nat {
    if es == [] then 0
    else
      var init, last := es[..|es| - 1], es[|es| - 1];
      Closings(init) + if last.Closed? && OpenIndex(init, last.fd).Some? then 1 else 0
  }

  /**
   * Exactly the closes of open descriptors finish a session, in the order of the closes; the session
   * runs from the last openat of the descriptor to the close and has all transfers in between.
   */
  lemma {:induction false} FinishedExactly(es: seq<Event>, j: nat, i: nat, fd: int)
    requires j < |es| && es[j] == Closed(fd) && OpenSince(es[..j], fd, i)
    ensures |Finished(es)| == Closings(es) && Closings(es[..j]) < Closings(es)
    ensures Finished(es)[Closings(es[..j])] == Session(es[i].path, MovesFrom(es[..j], fd, i))
    decreases |es|
  {
    var n := |es| - 1;
    FinishedCount(es);
    if j < n {
      assert es[..n][..j] == es[..j];
      FinishedExactly(es[..n], j, i, fd);
    } else {
      OpenIndexIs(es[..j], fd, i);
      FinishedCount(es[..j]);
    }
  }

  lemma {:induction false} FinishedCount(es: seq<Event>)
    ensures |Finished(es)| == Closings(es)
  {
    if es != [] { FinishedCount(es[..|es| - 1]); }
  }

  /** The sessions finished on one descriptor. */
  function FinishedOn(es: seq<Event>, fd: int): seq<Session> {
    if es == [] then []
    else
      var init, last := es[..|es| - 1], es[|es| - 1];
      FinishedOn(init, fd) + if last == Closed(fd) && Current(init, fd).Some? then [Current(init, fd).value] else []
  }

  /** The transfers traced on a descriptor while it is open. */
  function MovesWhileOpen(es: seq<Event>, fd: int): seq<Move> {
    if es == [] then []
    else
      var init, last := es[..|es| - 1], es[|es| - 1];
      MovesWhileOpen(init, fd) + if last.Moved? && last.fd == fd && OpenIndex(init, fd).Some? then [last.move] else []
  }

  function AllMoves(sessions: seq<Session>): seq<Move> {
    if sessions == [] then [] else AllMoves(sessions[..|sessions| - 1]) + sessions[|sessions| - 1].moves
  }

  lemma AllMovesStep(sessions: seq<Session>, s: Session)
    ensures AllMoves(sessions + [s]) == AllMoves(sessions) + s.moves
  {
    assert (sessions + [s])[..|sessions|] == sessions;
  }

  function PendingMoves(es: seq<Event>, fd: int): seq<Move> {
    match Current(es, fd)
    case None => []
    case Some(s) => s.moves
  }

  /** What one more event adds, descriptor by descriptor. */
  lemma WhileOpenStep(es: seq<Event>, e: Event, fd: int)
    ensures MovesWhileOpen(es + [e], fd)
         == MovesWhileOpen(es, fd) + if e.Moved? && e.fd == fd && OpenIndex(es, fd).Some? then [e.move] else []
  {
    assert (es + [e])[..|es|] == es;
  }

  lemma FinishedOnStep(es: seq<Event>, e: Event, fd: int)
    ensures FinishedOn(es + [e], fd)
         == FinishedOn(es, fd) + if e == Closed(fd) && Current(es, fd).Some? then [Current(es, fd).value] else []
  {
    assert (es + [e])[..|es|] == es;
  }

  lemma HistoryStep(es: seq<Event>, e: Event, fd: int)
    ensures AllMoves(FinishedOn(es + [e], fd))
         == AllMoves(FinishedOn(es, fd)) + if e == Closed(fd) then PendingMoves(es, fd) else []
  {
    FinishedOnStep(es, e, fd);
    if e == Closed(fd) && Current(es, fd).Some? {
      AllMovesStep(FinishedOn(es, fd), Current(es, fd).value);
    } else {
      assert FinishedOn(es, fd) + [] == FinishedOn(es, fd);
    }
  }

  lemma {:induction false} PendingStep(es: seq<Event>, e: Event, fd: int)
    ensures PendingMoves(es + [e], fd) ==
      if TogglesFd(e, fd) then []
      else PendingMoves(es, fd) + if e.Moved? && e.fd == fd && OpenIndex(es, fd).Some? then [e.move] else []
  {
    CurrentStep(es, e, fd);
    assert PendingMoves(es, fd) + [] == PendingMoves(es, fd);
  }

  /** The transfers that end up in sessions on a descriptor, finished or still open. */
  function Kept(es: seq<Event>, fd: int): seq<Move> {
    AllMoves(FinishedOn(es, fd)) + PendingMoves(es, fd)
  }

  predicate OpensFd(e: Event, fd: int) {
    e.Opened? && e.fd == fd
  }

  predicate MovesFd(e: Event, fd: int) {
    e.Moved? && e.fd == fd
  }

  /** Event j opens the descriptor, event n transfers on it, and no close of it lies between j and k. */
  ghost predicate Unfinished(es: seq<Event>, fd: int, j: nat, n: nat, k: nat) {
    j < n < k <= |es| && OpensFd(es[j], fd) && MovesFd(es[n], fd) && NoClose(es, fd, j, k)
  }

  ghost predicate NoClose(es: seq<Event>, fd: int, j: nat, k: nat)
    requires k <= |es|
  {
    forall c :: j < c < k ==> es[c] != Closed(fd)
  }

  /** Between two openings of the descriptor that have a transfer on it between them, it is closed. */
  ghost predicate OpenedAfresh(es: seq<Event>, fd: int) {
    forall j: nat, n: nat, k: nat :: k < |es| && OpensFd(es[k], fd) ==> !Unfinished(es, fd, j, n, k)
  }

  /** What one more event does to the transfers kept: only opening the descriptor can drop any. */
  lemma {:induction false} KeptStep(es: seq<Event>, e: Event, fd: int)
    ensures Kept(es + [e], fd) ==
      if OpensFd(e, fd) then AllMoves(FinishedOn(es, fd))
      else Kept(es, fd) + if e.Moved? && e.fd == fd && OpenIndex(es, fd).Some? then [e.move] else []
  {
    HistoryStep(es, e, fd);
    PendingStep(es, e, fd);
    Regroup(AllMoves(FinishedOn(es, fd)), PendingMoves(es, fd), if e.Moved? then [e.move] else []);
    assert Kept(es, fd) + [] == Kept(es, fd);
  }

  lemma {:induction false} MovesFromIff(es: seq<Event>, fd: int, i: nat)
    ensures MovesFrom(es, fd, i) == [] <==> forall n :: i <= n < |es| ==> !MovesFd(es[n], fd)
  {
    if i < |es| {
      var init := es[..|es| - 1];
      MovesFromIff(init, fd, i);
      assert forall n :: 0 <= n < |init| ==> es[n] == init[n];
    }
  }

  /** A descriptor opened at j and not closed since has been open since j or a later opening. */
  lemma {:induction false} OpenSinceSome(es: seq<Event>, fd: int, j: nat)
    requires j < |es| && OpensFd(es[j], fd) && NoClose(es, fd, j, |es|)
    ensures OpenIndex(es, fd).Some? && OpenIndex(es, fd).value >= j
  {
    var init := es[..|es| - 1];
    if j < |init| {
      assert forall c :: 0 <= c < |init| ==> es[c] == init[c];
      OpenSinceSome(init, fd, j);
    }
  }

  /** Transfers are pending exactly after an opening and a transfer with no close since. */
  lemma {:induction false} PendingIff(es: seq<Event>, fd: int)
    requires OpenedAfresh(es, fd)
    ensures PendingMoves(es, fd) == [] <==> forall j: nat, n: nat :: !Unfinished(es, fd, j, n, |es|)
  {
    if OpenIndex(es, fd).Some? {
      var i := OpenIndex(es, fd).value;
      OpenIndexIs(es, fd, i);
      MovesFromIff(es, fd, i);
      forall n: nat | i <= n < |es| && MovesFd(es[n], fd) ensures Unfinished(es, fd, i, n, |es|) {}
    }
    forall j: nat, n: nat | Unfinished(es, fd, j, n, |es|) ensures PendingMoves(es, fd) != [] {
      OpenSinceSome(es, fd, j);
      var i := OpenIndex(es, fd).value;
      OpenIndexIs(es, fd, i);
      assert i > n ==> Unfinished(es, fd, j, n, i);
      MovesFromIff(es, fd, i);
    }
  }

  lemma {:induction false} AfreshStep(es: seq<Event>, e: Event, fd: int)
    ensures OpenedAfresh(es + [e], fd)
       <==> OpenedAfresh(es, fd) && (OpensFd(e, fd) ==> PendingMoves(es, fd) == [])
  {
    var all := es + [e];
    forall j: nat, n: nat, k: nat | k <= |es| ensures Unfinished(all, fd, j, n, k) <==> Unfinished(es, fd, j, n, k) {
      assert forall c :: 0 <= c < |es| ==> all[c] == es[c];
    }
    assert forall k :: 0 <= k < |es| ==> all[k] == es[k];
    if OpenedAfresh(es, fd) { PendingIff(es, fd); }
  }

  /**
   * Conservation: the finished sessions on a descriptor and the one still open together hold every
   * transfer traced on it while it was open, once and in order, if and only if it is closed between
   * any two openings with a transfer between them.  Otherwise some are missing, and none is ever added.
   */
  lemma {:induction false} NothingLostExactly(es: seq<Event>, fd: int)
    ensures Kept(es, fd) == MovesWhileOpen(es, fd) <==> OpenedAfresh(es, fd)
    ensures |Kept(es, fd)| <= |MovesWhileOpen(es, fd)|
    ensures |Kept(es, fd)| == |MovesWhileOpen(es, fd)| ==> Kept(es, fd) == MovesWhileOpen(es, fd)
  {
    if es != [] {
      var init, last := es[..|es| - 1], es[|es| - 1];
      assert es == init + [last];
      NothingLostExactly(init, fd);
      KeptStep(init, last, fd);
      WhileOpenStep(init, last, fd);
      AfreshStep(init, last, fd);
      if OpensFd(last, fd) && PendingMoves(init, fd) == [] {
        assert Kept(init, fd) == AllMoves(FinishedOn(init, fd));
      }
    }
  }

  lemma Regroup(a: seq<Move>, b: seq<Move>, c: seq<Move>)
    ensures a + b + c == a + (b + c) && a + b + [] == a + b && a + [] == a
  {}

  // ---------------------------------------------------------------- the path of a session

  /**
   * The path that the replay opens is never the path that was traced: whatever openat the tracer
   * takes for an opening, and wherever in its quoted argument it finds the prefix.
   */
  lemma ReplayedPathDiffers(prefix: string, c: Syscall, traced: string)
    requires |c.arguments| >= 2 && c.arguments[1] == "\"" + traced + "\""
    requires EventOf(prefix, c).Some? && EventOf(prefix, c).value.Opened?
    ensures prefix + EventOf(prefix, c).value.path != traced
  {
    var path := EventOf(prefix, c).value.path;
    assert |c.arguments[1]| == |traced| + 2;
    assert |prefix + path| < |traced|;
  }

  // ---------------------------------------------------------------- what a replay issues

  /** The transfers among the calls made. */
  function Transfers(calls: seq<Call>): seq<Move> {
    if calls == [] then []
    else
      Transfers(calls[..|calls| - 1]) +
        match calls[|calls| - 1]
        case PRead(_, count, offset) => [Move(false, count, offset)]
        case PWrite(_, count, offset) => [Move(true, count, offset)]
        case _ => []
  }

  /** The paths among the calls made. */
  function Opens(calls: seq<Call>): seq<string> {
    if calls == [] then []
    else
      Opens(calls[..|calls| - 1]) +
        match calls[|calls| - 1]
        case Open(path, _) => [path]
        case _ => []
  }

  lemma CallsStep(calls: seq<Call>, c: Call)
    ensures Transfers(calls + [c]) == Transfers(calls) +
      (match c case PRead(_, count, offset) => [Move(false, count, offset)]
              case PWrite(_, count, offset) => [Move(true, count, offset)]
              case _ => [])
    ensures Opens(calls + [c]) == Opens(calls) + if c.Open? then [c.path] else []
  {
    assert (calls + [c])[..|calls|] == calls;
  }

  /**
   * A kernel on which the traced calls succeed: every path opens, `size` is the length of the file
   * at each path, and `current` is the length of the one opened last.  A transfer fails exactly at
   * negative offsets.
   */
  ghost predicate Friendly<K(!new)>(kernel: Kernel<K>, size: string -> nat, current: K -> nat) {
    forall k: K, call: Call :: Answers(kernel, size, current, k, call)
  }

  ghost predicate Answers<K>(kernel: Kernel<K>, size: string -> nat, current: K -> nat, k: K, call: Call) {
    var (after, reply) := kernel(k, call);
    match call
    case Open(path, _) => reply.number != -1 && current(after) == size(path)
    case FStat(_) => reply.number == current(k) && current(after) == current(k)
    case FAdvise(_, _, _) => reply.number == 0 && current(after) == current(k)
    case PRead(_, _, offset) => (reply.number != -1 <==> offset >= 0) && current(after) == current(k)
    case PWrite(_, _, offset) => (reply.number != -1 <==> offset >= 0) && current(after) == current(k)
    case Close(_) => reply.number == 0
    case _ => true
  }

  /** The transfer that a read or write instruction of one block plans for a file; None where it exits. */
  function Issued(m: Move, fileSize: nat): Option<Move> {
    var block := if m.size == -1 then fileSize else m.size;
    if block > fileSize || block <= 0 then None
    else Some(Move(m.write, block, Wrap(m.offset, block, fileSize)))
  }

  /** The transfer lies inside the file. */
  predicate FitsIn(m: Move, fileSize: nat) {
    0 < m.size && 0 <= m.offset && m.offset + m.size <= fileSize
  }

  lemma IssuedExactly(m: Move, fileSize: nat)
    ensures Issued(m, fileSize) == Some(m) && m.offset >= 0 <==> FitsIn(m, fileSize)
  {}

  // ---------------------------------------------------------------- running one instruction

  /** What has been observed of a run: its transfers, and whether it stopped. */
  datatype Outcome = Outcome(moves: seq<Move>, stopped: bool)

  function Out<S, K>(m: Machine<S, K>): Outcome {
    Outcome(Transfers(m.sys.calls), m.sys.halted)
  }

  datatype Job = Job(move: Move, fileSize: nat)

  function Issue(o: Outcome, j: Job): Outcome {
    if o.stopped then o
    else
      match Issued(j.move, j.fileSize)
      case None => Outcome(o.moves, true)
      case Some(x) => Outcome(o.moves + [x], x.offset < 0)   // a transfer that fails has been made
  }

  /**
   * The tracer does not look at what a transfer returned, so it keeps one that failed at a negative offset;
   * such a transfer is issued and ends the replay.
   */
  lemma FailedTransferReplayed(prefix: string, fileSize: nat)
    requires fileSize >= 10
    ensures var call := Syscall("pread64", ["3", "\"\"", "10", "-5"], "-1 EINVAL"); var move := Move(false, 10, -5);
            && EventOf(prefix, call) == Some(Moved(3, move))
            && Issue(Outcome([], false), Job(move, fileSize)) == Outcome([move], true)
            && !FitsIn(move, fileSize)
  {
    OneDigit('3', 0);
    OneDigit('5', 0);
    OneDigit('0', 1);
    assert "10"[1..] == "0" && "-5"[1..] == "5";
    assert Strtoll("3") == 3 && Strtoll("10") == 10 && Strtoll("-5") == -5;
    assert [] + [Move(false, 10, -5)] == [Move(false, 10, -5)];
  }

  lemma OneDigit(c: char, sofar: nat)
    requires IsDigit(c)
    ensures Leading([c], sofar) == 10 * sofar + DigitValue(c)
  {
    assert [c][1..] == "";
  }

  function IssueAll(o: Outcome, jobs: seq<Job>): Outcome {
    if jobs == [] then o else Issue(IssueAll(o, jobs[..|jobs| - 1]), jobs[|jobs| - 1])
  }

  lemma {:induction false} IssueAllAppend(o: Outcome, a: seq<Job>, b: seq<Job>)
    ensures IssueAll(o, a + b) == IssueAll(IssueAll(o, a), b)
  {
    if b == [] {
      assert a + b == a;
    } else {
      assert (a + b)[..|a + b| - 1] == a + b[..|b| - 1];
      IssueAllAppend(o, a, b[..|b| - 1]);
    }
  }

  /** An instruction without reseeding that is not a set, once. */
  lemma PerformOnce<K(!new)>(kernel: Kernel<K>, abs: string, site: Site, b: Body<string>, m: Machine<Names, K>)
    requires b.OpenFile? || b.CloseFile?
          || (b.WriteFile? && b.rw.reseeding.Once?) || (b.ReadFile? && b.rw.reseeding.Once?)
    requires !m.sys.halted
    ensures Perform(kernel, NameEnv(), abs, site, Instr(1, b), m) == Leaf(kernel, NameEnv(), abs, site, b, m)
  {
    SetUpNothing(kernel, site, b, m.sys);
    OneRound(kernel, abs, site, Instr(1, b), m);
  }

  lemma SetUpNothing<K(!new)>(kernel: Kernel<K>, site: Site, b: Body<string>, s: Sys<K>)
    requires b.OpenFile? || b.CloseFile?
          || (b.WriteFile? && b.rw.reseeding.Once?) || (b.ReadFile? && b.rw.reseeding.Once?)
          || (b.InstructionSet? && b.iterate.None?)
    ensures SetUpRound(kernel, site, b, s) == s
  {}

  lemma OneRound<K(!new)>(kernel: Kernel<K>, abs: string, site: Site, i: Instr<string>, m: Machine<Names, K>)
    requires ThreadFree(i) && i.repeat == 1
    ensures Rounds(kernel, NameEnv(), abs, site, i, 1, m) == Cycle(kernel, NameEnv(), abs, site, i, m)
  {
    assert Rounds(kernel, NameEnv(), abs, site, i, 0, m) == m;
  }

  /** A plain set, once. */
  lemma PerformSet<K(!new)>(kernel: Kernel<K>, abs: string, site: Site, l: seq<Instr<string>>, m: Machine<Names, K>)
    requires AllThreadFree(l) && !m.sys.halted
    ensures ThreadFree(Instr(1, InstructionSet(l, None)))
    ensures Perform(kernel, NameEnv(), abs, site, Instr(1, InstructionSet(l, None)), m)
         == PerformAll(kernel, NameEnv(), abs, site, l, m)
  {
    var i := Instr(1, InstructionSet(l, None));
    SetUpNothing(kernel, site, i.body, m.sys);
    OneRound(kernel, abs, site, i, m);
  }

  /** The file of the session is open in `fd`. */
  ghost predicate Ready<K>(current: K -> nat, fileSize: nat, m: Machine<Names, K>) {
    !m.sys.halted && NameValue(m.store, FD).IntValue? && current(m.sys.kernel) == fileSize
  }

  /** The plan of a one-block transfer. */
  lemma PlanOfMove<K(!new)>(kernel: Kernel<K>, size: string -> nat, current: K -> nat, site: Site, fd: int,
        move: Move, s: Sys<K>)
    requires Friendly(kernel, size, current) && !s.halted
    ensures var rw := RwParams(move.size, move.size, move.offset, Sequential, UNSEEDED, Once);
            var s1 := Ask(kernel, s, FStat(fd)).0;
            Plan(kernel, site, fd, rw, s) ==
              match Issued(move, current(s.kernel))
              case None => ([], Halt(s1))
              case Some(x) => ([Unit(x.size, x.offset)], s1)
  {
    assert Answers(kernel, size, current, s.kernel, FStat(fd));
    var fileSize := current(s.kernel);
    var block := if move.size == -1 then fileSize else move.size;
    if 0 < block <= fileSize {
      assert UnitCount(block, block) == 1;
      assert SequentialPlan(move.offset, block, fileSize, 1)
          == [Unit(block, Wrap(OffsetAt(move.offset, block, fileSize, 0), block, fileSize))];
    }
  }

  lemma AskFriendly<K(!new)>(kernel: Kernel<K>, size: string -> nat, current: K -> nat, s: Sys<K>, call: Call)
    requires Friendly(kernel, size, current) && !s.halted
    ensures var (s1, reply) := Ask(kernel, s, call);
            && s1.calls == s.calls + [call] && !s1.halted
            && Answers(kernel, size, current, s.kernel, call) && kernel(s.kernel, call) == (s1.kernel, reply)
  {
    assert Answers(kernel, size, current, s.kernel, call);
  }

  /** Transferring the planned unit. */
  lemma TransferOne<K(!new)>(kernel: Kernel<K>, size: string -> nat, current: K -> nat, write: bool, fd: int, u: Unit,
        s: Sys<K>)
    requires Friendly(kernel, size, current) && !s.halted
    ensures var t := Transfer(kernel, write, fd, [u], s);
            && t.halted == (u.offset < 0) && current(t.kernel) == current(s.kernel)
            && Transfers(t.calls) == Transfers(s.calls) + [Move(write, u.count, u.offset)]
            && Opens(t.calls) == Opens(s.calls)
  {
    var call := if write then PWrite(fd, u.count, u.offset) else PRead(fd, u.count, u.offset);
    AskFriendly(kernel, size, current, s, call);
    CallsStep(s.calls, call);
    assert [u][..0] == [];
    assert Transfer(kernel, write, fd, [], s) == s;
    assert Opens(s.calls) + [] == Opens(s.calls);
  }

  /** A call that neither opens nor transfers. */
  lemma QuietCall(calls: seq<Call>, c: Call)
    requires c.FStat? || c.FAdvise? || c.Close?
    ensures Transfers(calls + [c]) == Transfers(calls) && Opens(calls + [c]) == Opens(calls)
  {
    CallsStep(calls, c);
    assert Transfers(calls) + [] == Transfers(calls) && Opens(calls) + [] == Opens(calls);
  }

  lemma RunPlanned<K(!new)>(kernel: Kernel<K>, size: string -> nat, current: K -> nat, site: Site, fd: int,
        move: Move, s: Sys<K>)
    requires Friendly(kernel, size, current) && !s.halted
    ensures var rw := RwParams(move.size, move.size, move.offset, Sequential, UNSEEDED, Once);
            var (units, s1) := Plan(kernel, site, fd, rw, s);
            var t := Transfer(kernel, move.write, fd, units, s1);
            && Outcome(Transfers(t.calls), t.halted)
               == Issue(Outcome(Transfers(s.calls), false), Job(move, current(s.kernel)))
            && Opens(t.calls) == Opens(s.calls)
            && (!t.halted ==> current(t.kernel) == current(s.kernel))
  {
    PlanOfMove(kernel, size, current, site, fd, move, s);
    AskFriendly(kernel, size, current, s, FStat(fd));
    QuietCall(s.calls, FStat(fd));
    var s1 := Ask(kernel, s, FStat(fd)).0;
    match Issued(move, current(s.kernel))
    case None =>
      assert Transfer(kernel, move.write, fd, [], Halt(s1)) == Halt(s1);
    case Some(x) => TransferOne(kernel, size, current, move.write, fd, Unit(x.size, x.offset), s1);
  }

  /** Performing one traced transfer issues exactly what Issued says. */
  lemma ReplayMove<K(!new)>(kernel: Kernel<K>, size: string -> nat, current: K -> nat, abs: string, site: Site,
        move: Move, fileSize: nat, m: Machine<Names, K>)
    requires Friendly(kernel, size, current) && Ready(current, fileSize, m)
    ensures var n := Perform(kernel, NameEnv(), abs, site, MoveInstruction(move), m);
            && Out(n) == Issue(Out(m), Job(move, fileSize))
            && Opens(n.sys.calls) == Opens(m.sys.calls)
            && (!n.sys.halted ==> Ready(current, fileSize, n))
  {
    var i := MoveInstruction(move);
    PerformOnce(kernel, abs, site, i.body, m);
    var fd := NameValue(m.store, FD).n;
    assert GetInt(NameEnv(), m.store, FD) == Some(fd);
    if move.write {
      RunPlanned(kernel, size, current, site, fd, move, m.sys);
    } else {
      ReplayRead(kernel, size, current, site, fd, move, m.sys);
    }
  }

  lemma ReplayRead<K(!new)>(kernel: Kernel<K>, size: string -> nat, current: K -> nat, site: Site, fd: int,
        move: Move, s: Sys<K>)
    requires Friendly(kernel, size, current) && !s.halted && !move.write
    ensures var rw := RwParams(move.size, move.size, move.offset, Sequential, UNSEEDED, Once);
            var t := RunRead(kernel, site, fd, rw, POSIX_FADV_SEQUENTIAL, s);
            && Outcome(Transfers(t.calls), t.halted)
               == Issue(Outcome(Transfers(s.calls), false), Job(move, current(s.kernel)))
            && Opens(t.calls) == Opens(s.calls)
            && (!t.halted ==> current(t.kernel) == current(s.kernel))
  {
    AskFriendly(kernel, size, current, s, FStat(fd));
    QuietCall(s.calls, FStat(fd));
    var s1 := Ask(kernel, s, FStat(fd)).0;
    var advise := FAdvise(fd, current(s.kernel), POSIX_FADV_SEQUENTIAL);
    AskFriendly(kernel, size, current, s1, advise);
    QuietCall(s1.calls, advise);
    RunPlanned(kernel, size, current, site, fd, move, Ask(kernel, s1, advise).0);
  }

  // ---------------------------------------------------------------- running a session

  function JobsOf(moves: seq<Move>, fileSize: nat): (r: seq<Job>)
    ensures |r| == |moves|
  {
    seq(|moves|, i requires 0 <= i < |moves| => Job(moves[i], fileSize))
  }

  lemma ReplayOpen<K(!new)>(kernel: Kernel<K>, size: string -> nat, current: K -> nat, abs: string, site: Site,
        path: string, m: Machine<Names, K>)
    requires Friendly(kernel, size, current) && !m.sys.halted
    ensures var n := Perform(kernel, NameEnv(), abs, site, OpenInstruction(path), m);
            && Ready(current, size(abs + path), n) && Out(n) == Out(m)
            && Opens(n.sys.calls) == Opens(m.sys.calls) + [abs + path]
  {
    var b := OpenInstruction(path).body;
    PerformOnce(kernel, abs, site, b, m);
    var call := Open(abs + path, b.flags);
    AskFriendly(kernel, size, current, m.sys, call);
    CallsStep(m.sys.calls, call);
    assert Transfers(m.sys.calls) + [] == Transfers(m.sys.calls);
  }

  /** The open and the transfers of a session. */
  lemma {:induction false} ReplayOpening<K(!new)>(kernel: Kernel<K>, size: string -> nat, current: K -> nat,
        abs: string, site: Site, s: Session, m: Machine<Names, K>)
    requires Friendly(kernel, size, current) && !m.sys.halted
    ensures var n := PerformAll(kernel, NameEnv(), abs, site, Opening(s), m);
            && Out(n) == IssueAll(Out(m), JobsOf(s.moves, size(abs + s.path)))
            && Opens(n.sys.calls) == Opens(m.sys.calls) + [abs + s.path]
            && (!n.sys.halted ==> Ready(current, size(abs + s.path), n))
    decreases |s.moves|
  {
    var l := Opening(s);
    if s.moves == [] {
      assert l[..0] == [] && l == [OpenInstruction(s.path)];
      ReplayOpen(kernel, size, current, abs, site + [0], s.path, m);
    } else {
      var k := |s.moves| - 1;
      var before := Session(s.path, s.moves[..k]);
      assert l[..|l| - 1] == Opening(before) && l[|l| - 1] == MoveInstruction(s.moves[k]);
      ReplayOpening(kernel, size, current, abs, site, before, m);
      var n := PerformAll(kernel, NameEnv(), abs, site, Opening(before), m);
      assert JobsOf(s.moves, size(abs + s.path))[..k] == JobsOf(before.moves, size(abs + s.path));
      if n.sys.halted {
        StoppedPerform(kernel, NameEnv(), abs, site + [k + 1], MoveInstruction(s.moves[k]), n);
      } else {
        ReplayMove(kernel, size, current, abs, site + [k + 1], s.moves[k], size(abs + s.path), n);
      }
    }
  }

  lemma ReplayClose<K(!new)>(kernel: Kernel<K>, size: string -> nat, current: K -> nat, abs: string, site: Site,
        fileSize: nat, m: Machine<Names, K>)
    requires Friendly(kernel, size, current) && Ready(current, fileSize, m)
    ensures var n := Perform(kernel, NameEnv(), abs, site, CloseInstruction(), m);
            Out(n) == Out(m) && Opens(n.sys.calls) == Opens(m.sys.calls)
  {
    var fd := NameValue(m.store, FD).n;
    PerformOnce(kernel, abs, site, CloseFile(FD), m);
    assert GetInt(NameEnv(), m.store, FD) == Some(fd);
    AskFriendly(kernel, size, current, m.sys, Close(fd));
    QuietCall(m.sys.calls, Close(fd));
  }

  /** A whole session. */
  lemma ReplaySession<K(!new)>(kernel: Kernel<K>, size: string -> nat, current: K -> nat, abs: string, site: Site,
        s: Session, m: Machine<Names, K>)
    requires Friendly(kernel, size, current) && !m.sys.halted
    ensures var n := Perform(kernel, NameEnv(), abs, site, SetOf(s), m);
            && Out(n) == IssueAll(Out(m), JobsOf(s.moves, size(abs + s.path)))
            && Opens(n.sys.calls) == Opens(m.sys.calls) + [abs + s.path]
  {
    var l := Opening(s) + [CloseInstruction()];
    PerformSet(kernel, abs, site, l, m);
    ReplayOpening(kernel, size, current, abs, site, s, m);
    var n := PerformAll(kernel, NameEnv(), abs, site, Opening(s), m);
    assert l[..|l| - 1] == Opening(s);
    if n.sys.halted {
      StoppedPerform(kernel, NameEnv(), abs, site + [|l| - 1], CloseInstruction(), n);
    } else {
      ReplayClose(kernel, size, current, abs, site + [|l| - 1], size(abs + s.path), n);
    }
  }

  // ---------------------------------------------------------------- running a traced workload

  /** Every traced transfer with the length of the file it goes to, in replay order. */
  function AllJobs(sessions: seq<Session>, abs: string, size: string -> nat): seq<Job> {
    if sessions == [] then []
    else
      var s := sessions[|sessions| - 1];
      AllJobs(sessions[..|sessions| - 1], abs, size) + JobsOf(s.moves, size(abs + s.path))
  }

  function Paths(sessions: seq<Session>, abs: string): seq<string> {
    seq(|sessions|, i requires 0 <= i < |sessions| => abs + sessions[i].path)
  }

  /** A session after what the sessions before it have left. */
  lemma ReplayNext<K(!new)>(kernel: Kernel<K>, size: string -> nat, current: K -> nat, abs: string, site: Site,
        s: Session, m: Machine<Names, K>)
    requires Friendly(kernel, size, current)
    ensures var n := Perform(kernel, NameEnv(), abs, site, SetOf(s), m);
            && Out(n) == IssueAll(Out(m), JobsOf(s.moves, size(abs + s.path)))
            && (!n.sys.halted ==> !m.sys.halted && Opens(n.sys.calls) == Opens(m.sys.calls) + [abs + s.path])
  {
    if m.sys.halted {
      StoppedPerform(kernel, NameEnv(), abs, site, SetOf(s), m);
      StoppedIssue(Out(m), JobsOf(s.moves, size(abs + s.path)));
    } else {
      ReplaySession(kernel, size, current, abs, site, s, m);
    }
  }

  lemma SetsThreadFree(sessions: seq<Session>)
    ensures AllThreadFree(SetsOf(sessions))
  {}

  lemma {:induction false} ReplaySessions<K(!new)>(kernel: Kernel<K>, size: string -> nat, current: K -> nat,
        abs: string, site: Site, sessions: seq<Session>, m: Machine<Names, K>)
    requires Friendly(kernel, size, current) && !m.sys.halted && AllThreadFree(SetsOf(sessions))
    ensures var n := PerformAll(kernel, NameEnv(), abs, site, SetsOf(sessions), m);
            && Out(n) == IssueAll(Out(m), AllJobs(sessions, abs, size))
            && (!n.sys.halted ==> Opens(n.sys.calls) == Opens(m.sys.calls) + Paths(sessions, abs))
    decreases |sessions|
  {
    if sessions == [] {
      assert Opens(m.sys.calls) + [] == Opens(m.sys.calls);
    } else {
      var k := |sessions| - 1;
      var init, s := sessions[..k], sessions[k];
      SetsThreadFree(init);
      ReplaySessions(kernel, size, current, abs, site, init, m);
      var n := PerformAll(kernel, NameEnv(), abs, site, SetsOf(init), m);
      assert SetsOf(sessions) == SetsOf(init) + [SetOf(s)];
      PerformAllLast(kernel, abs, site, SetsOf(init), SetOf(s), m);
      ReplayNext(kernel, size, current, abs, site + [k], s, n);
      IssueAllAppend(Out(m), AllJobs(init, abs, size), JobsOf(s.moves, size(abs + s.path)));
      PathsStep(Opens(m.sys.calls), sessions, abs);
    }
  }

  lemma PathsStep(before: seq<string>, sessions: seq<Session>, abs: string)
    requires sessions != []
    ensures before + Paths(sessions[..|sessions| - 1], abs) + [abs + sessions[|sessions| - 1].path]
         == before + Paths(sessions, abs)
  {}

  lemma PerformAllLast<K(!new)>(kernel: Kernel<K>, abs: string, site: Site, l: seq<Instr<string>>, i: Instr<string>,
                                m: Machine<Names, K>)
    requires AllThreadFree(l + [i])
    ensures AllThreadFree(l) && ThreadFree(i)
    ensures PerformAll(kernel, NameEnv(), abs, site, l + [i], m)
         == Perform(kernel, NameEnv(), abs, site + [|l|], i, PerformAll(kernel, NameEnv(), abs, site, l, m))
  {
    assert (l + [i])[..|l|] == l && (l + [i])[|l|] == i;
    assert forall x :: x in l ==> x in l + [i];
  }

  lemma {:induction false} StoppedIssue(o: Outcome, jobs: seq<Job>)
    requires o.stopped
    ensures IssueAll(o, jobs) == o
  {
    if jobs != [] { StoppedIssue(o, jobs[..|jobs| - 1]); }
  }

  /** The benchmark the tracer prints. */
  function TraceBenchmark(prefix: string, sets: seq<Instr<string>>): Benchmark {
    Benchmark(prefix, None, None, Instr(1, InstructionSet(sets, None)), None)
  }

  // ---------------------------------------------------------------- when a replay is exact

  function MovesOf(jobs: seq<Job>): (r: seq<Move>)
    ensures |r| == |jobs|
  {
    seq(|jobs|, i requires 0 <= i < |jobs| => jobs[i].move)
  }

  ghost predicate AllFit(jobs: seq<Job>) {
    forall i :: 0 <= i < |jobs| ==> FitsIn(jobs[i].move, jobs[i].fileSize)
  }

  lemma {:induction false} IssueAllExactly(jobs: seq<Job>)
    ensures var o := IssueAll(Outcome([], false), jobs);
            && (!o.stopped ==> |o.moves| == |jobs|)
            && (o == Outcome(MovesOf(jobs), false) <==> AllFit(jobs))
  {
    if jobs != [] {
      var init, last := jobs[..|jobs| - 1], jobs[|jobs| - 1];
      var before, o := IssueAll(Outcome([], false), init), IssueAll(Outcome([], false), jobs);
      IssueAllExactly(init);
      IssuedExactly(last.move, last.fileSize);
      assert MovesOf(jobs) == MovesOf(init) + [last.move];
      assert AllFit(jobs) <==> AllFit(init) && FitsIn(last.move, last.fileSize) by {
        assert forall i :: 0 <= i < |init| ==> init[i] == jobs[i];
      }
      if o == Outcome(MovesOf(jobs), false) {
        assert o.moves[..|init|] == before.moves && MovesOf(jobs)[..|init|] == MovesOf(init);
        assert o.moves[|init|] == last.move;
      }
    }
  }

  lemma {:induction false} MovesOfAllJobs(sessions: seq<Session>, abs: string, size: string -> nat)
    ensures MovesOf(AllJobs(sessions, abs, size)) == AllMoves(sessions)
    ensures AllFit(AllJobs(sessions, abs, size)) <==> EveryMoveFits(sessions, abs, size)
  {
    if sessions != [] {
      var init, s := sessions[..|sessions| - 1], sessions[|sessions| - 1];
      MovesOfAllJobs(init, abs, size);
      var a, b := AllJobs(init, abs, size), JobsOf(s.moves, size(abs + s.path));
      assert MovesOf(b) == s.moves;
      assert MovesOf(a + b) == MovesOf(a) + MovesOf(b);
      FitTogether(a, b);
      assert SessionFits(s, abs, size) <==> AllFit(b) by {
        assert forall i :: 0 <= i < |b| ==> b[i] == Job(s.moves[i], size(abs + s.path));
      }
      assert EveryMoveFits(sessions, abs, size) <==> EveryMoveFits(init, abs, size) && SessionFits(s, abs, size) by {
        assert forall i :: 0 <= i < |init| ==> init[i] == sessions[i];
      }
    }
  }

  lemma FitTogether(a: seq<Job>, b: seq<Job>)
    ensures AllFit(a + b) <==> AllFit(a) && AllFit(b)
  {
    if AllFit(a + b) {
      assert forall i :: 0 <= i < |a| ==> a[i] == (a + b)[i];
      assert forall i :: 0 <= i < |b| ==> b[i] == (a + b)[|a| + i];
    }
  }

  ghost predicate SessionFits(s: Session, abs: string, size: string -> nat) {
    forall i :: 0 <= i < |s.moves| ==> FitsIn(s.moves[i], size(abs + s.path))
  }

  ghost predicate EveryMoveFits(sessions: seq<Session>, abs: string, size: string -> nat) {
    forall i :: 0 <= i < |sessions| ==> SessionFits(sessions[i], abs, size)
  }

  /**
   * Replaying the emitted workload runs to the end and issues exactly the traced transfers, in
   * order, if and only if every one of them has a positive size and ends inside the replayed file.
   */
  lemma ReplayIsExact<K(!new)>(kernel: Kernel<K>, size: string -> nat, current: K -> nat, k: K, prefix: string,
                               sessions: seq<Session>)
    requires Friendly(kernel, size, current)
    ensures var b := TraceBenchmark(prefix, SetsOf(sessions));
            && AllThreadFree(Parts(b))
            && var s := RunDirectly(kernel, k, b).sys;
            && ((!s.halted && Transfers(s.calls) == AllMoves(sessions)) <==> EveryMoveFits(sessions, prefix, size))
            && (!s.halted ==> Opens(s.calls) == Paths(sessions, prefix))
  {
    var sets := SetsOf(sessions);
    var b := TraceBenchmark(prefix, sets);
    var m := Machine(InitialNames(b), Start(k));
    SetsThreadFree(sessions);
    assert Parts(b) == [] + [b.main];
    assert PerformAll(kernel, NameEnv(), prefix, [], [], m) == m;
    PerformAllLast(kernel, prefix, [], [], b.main, m);
    PerformSet(kernel, prefix, [] + [0], sets, m);
    ReplaySessions(kernel, size, current, prefix, [] + [0], sessions, m);
    IssueAllExactly(AllJobs(sessions, prefix, size));
    MovesOfAllJobs(sessions, prefix, size);
    assert [] + Paths(sessions, prefix) == Paths(sessions, prefix);
  }

  /** A traced workload has no locks, so it parses to its end. */
  lemma TraceParses(prefix: string, sessions: seq<Session>)
    ensures LocksDeclared(TraceBenchmark(prefix, SetsOf(sessions)))
  {
    var b := TraceBenchmark(prefix, SetsOf(sessions));
    forall i | 0 <= i < |sessions| ensures LockFree(SetOf(sessions[i])) {
      var l := Opening(sessions[i]) + [CloseInstruction()];
      assert forall k :: 0 <= k < |l| ==> LockFree(l[k]);
    }
    assert LockFree(b.main) && Parts(b) == [b.main];
    AllLockFree(Parts(b));
  }

  /** The same for the parsed and compiled workload, as dittobench runs it. */
  lemma CompiledReplayIsExact<K(!new)>(kernel: Kernel<K>, size: string -> nat, current: K -> nat, k: K, prefix: string,
                                       sessions: seq<Session>, t: Tables, prior: Slots)
    requires Friendly(kernel, size, current) && Fresh(t) && |prior| == t.size
    ensures var b := TraceBenchmark(prefix, SetsOf(sessions)); var (p, v) := Parse(t, b);
            && AllThreadFree(p.parts) && |prior| <= v.size && p.absolutePathKey < v.size && p.mutexKey.None?
            && var s := RunProgram(kernel, k, Parses(t, b), p, InitialSlots(prior, v.size, b, p)).sys;
               (!s.halted && Transfers(s.calls) == AllMoves(sessions)) <==> EveryMoveFits(sessions, prefix, size)
  {
    ReplayIsExact(kernel, size, current, k, prefix, sessions);
    TraceParses(prefix, sessions);
    MeaningPreserved(t, TraceBenchmark(prefix, SetsOf(sessions)), prior, kernel, k);
  }

  // ---------------------------------------------------------------- from the text of a trace to its replay

  /** The sessions of all processes, in ascending order of pid. */
  function SessionsUpTo(prefix: string, m: map<int, seq<Syscall>>, pids: seq<int>): seq<Session>
    requires forall i :: 0 <= i < |pids| ==> pids[i] in m && EventsOf(prefix, m[pids[i]]).Some?
  {
    if pids == [] then []
    else
      var own := EventsOf(prefix, m[pids[|pids| - 1]]);
      SessionsUpTo(prefix, m, pids[..|pids| - 1]) + Finished(own.value)
  }

  /** The sessions of each process come together, after those of the processes before it. */
  lemma {:induction false} ProcessesInTurn(prefix: string, m: map<int, seq<Syscall>>, pids: seq<int>, i: nat)
    requires forall k :: 0 <= k < |pids| ==> pids[k] in m && EventsOf(prefix, m[pids[k]]).Some?
    requires i < |pids|
    ensures SessionsUpTo(prefix, m, pids[..i]) + Finished(EventsOf(prefix, m[pids[i]]).value)
         <= SessionsUpTo(prefix, m, pids)
  {
    var front := pids[..|pids| - 1];
    if i < |front| {
      ProcessesInTurn(prefix, m, front, i);
      assert front[..i] == pids[..i];
    }
  }

  lemma {:induction false} SetsOfSessions(prefix: string, m: map<int, seq<Syscall>>, pids: seq<int>)
    requires forall i :: 0 <= i < |pids| ==> pids[i] in m && EventsOf(prefix, m[pids[i]]).Some?
    ensures SetsUpTo(prefix, m, pids) == Some(SetsOf(SessionsUpTo(prefix, m, pids)))
  {
    if pids != [] {
      SetsOfSessions(prefix, m, pids[..|pids| - 1]);
      var before := SessionsUpTo(prefix, m, pids[..|pids| - 1]);
      var own := Finished(EventsOf(prefix, m[pids[|pids| - 1]]).value);
      assert SetsOf(before + own) == SetsOf(before) + SetsOf(own);
    }
  }

  /**
   * The tracer end to end.  Take any printed trace of readable calls whose meaning is defined; run
   * the tracer on its text and replay what it prints.  The replay issues exactly the transfers of
   * the finished sessions of each process if and only if each of them fits in the replayed file.
   */
  lemma TraceThenReplay<K(!new)>(trace: seq<Line>, shown: map<int, seq<Shown>>, tails: map<int, seq<string>>,
        prefix: string, kernel: Kernel<K>, size: string -> nat, current: K -> nat, k: K)
    requires Faithful(trace, shown, tails) && Friendly(kernel, size, current)
    requires forall pid :: pid in Expected(shown) ==> EventsOf(prefix, Expected(shown)[pid]).Some?
    ensures var calls := Expected(shown);
            var pids := Ascending(calls.Keys);
            var sets := Traced(prefix, Rendered(trace));
            && (forall i :: 0 <= i < |pids| ==> pids[i] in calls && EventsOf(prefix, calls[pids[i]]).Some?)
            && var sessions := SessionsUpTo(prefix, calls, pids);
            && sets == Some(SetsOf(sessions))
            && AllThreadFree(Parts(TraceBenchmark(prefix, sets.value)))
            && var s := RunDirectly(kernel, k, TraceBenchmark(prefix, sets.value)).sys;
               (!s.halted && Transfers(s.calls) == AllMoves(sessions)) <==> EveryMoveFits(sessions, prefix, size)
  {
    TraceRecovered(trace, shown, tails);
    var calls := Expected(shown);
    var pids := Ascending(calls.Keys);
    assert forall i :: 0 <= i < |pids| ==> pids[i] in calls by {
      assert forall i :: 0 <= i < |pids| ==> pids[i] in pids;
    }
    SetsOfSessions(prefix, calls, pids);
    ReplayIsExact(kernel, size, current, k, prefix, SessionsUpTo(prefix, calls, pids));
  }
}
