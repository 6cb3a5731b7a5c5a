/**
 * The calls of a replayed session, on any kernel: after its open, everything goes to the descriptor that
 * this open returned, up to and including one close.
 */
module ReplayCalls {
  import opened Common
  import opened BlockPlan
  import opened Workload
  import opened Interpreter
  import opened NameResolution
  import opened Strings
  import opened TraceText
  import opened DittoTrace
  import opened LeafEffects
  import opened Parser
  import opened Replay

  /** The call goes to this descriptor; advice is to expect sequential access, 2 for posix_fadvise. */
  predicate On(call: Call, fd: int) {
    match call
    case FStat(d) => d == fd
    case FAdvise(d, _, advice) => d == fd && advice == 2
    case PRead(d, _, _) => d == fd
    case PWrite(d, _, _) => d == fd
    case _ => false
  }

  /** From s to t only calls on the descriptor are added; what has stopped makes none. */
  ghost predicate AddsOn<K>(s: Sys<K>, t: Sys<K>, fd: int) {
    && s.calls <= t.calls && (s.halted ==> t == s)
    && forall k :: |s.calls| <= k < |t.calls| ==> On(t.calls[k], fd)
  }

  lemma AddsTogether<K>(s: Sys<K>, t: Sys<K>, u: Sys<K>, fd: int)
    requires AddsOn(s, t, fd) && AddsOn(t, u, fd)
    ensures AddsOn(s, u, fd)
  {}

  lemma {:induction false} TransferOn<K(!new)>(kernel: Kernel<K>, write: bool, fd: int, units: seq<Unit>, s: Sys<K>)
    ensures AddsOn(s, Transfer(kernel, write, fd, units, s), fd)
  {
    if units != [] {
      var front := units[..|units| - 1];
      TransferOn(kernel, write, fd, front, s);
      AddsTogether(s, Transfer(kernel, write, fd, front, s), Transfer(kernel, write, fd, units, s), fd);
    }
  }

  lemma MoveOn<K(!new)>(kernel: Kernel<K>, abs: string, site: Site, move: Move, fd: int, m: Machine<Names, K>)
    requires NameValue(m.store, "fd") == IntValue(fd)
    ensures var n := Perform(kernel, NameEnv(), abs, site, MoveInstruction(move), m);
      n.store == m.store && AddsOn(m.sys, n.sys, fd)
  {
    var i := MoveInstruction(move);
    if m.sys.halted {
      StoppedPerform(kernel, NameEnv(), abs, site, i, m);
    } else {
      PerformOnce(kernel, abs, site, i.body, m);
      assert GetInt(NameEnv(), m.store, FD) == Some(fd);
      var rw := i.body.rw;
      if move.write {
        PlanOn(kernel, true, site, fd, rw, m.sys);
      } else {
        ReadOn(kernel, site, fd, rw, m.sys);
      }
    }
  }

  lemma PlanOn<K(!new)>(kernel: Kernel<K>, write: bool, site: Site, fd: int, rw: RwParams, s: Sys<K>)
    requires rw.order.Sequential? && rw.reseeding.Once?
    ensures var (units, s1) := Plan(kernel, site, fd, rw, s); AddsOn(s, Transfer(kernel, write, fd, units, s1), fd)
  {
    var (units, s1) := Plan(kernel, site, fd, rw, s);
    assert AddsOn(s, s1, fd);
    TransferOn(kernel, write, fd, units, s1);
    AddsTogether(s, s1, Transfer(kernel, write, fd, units, s1), fd);
  }

  lemma ReadOn<K(!new)>(kernel: Kernel<K>, site: Site, fd: int, rw: RwParams, s: Sys<K>)
    requires rw.order.Sequential? && rw.reseeding.Once?
    ensures AddsOn(s, RunRead(kernel, site, fd, rw, 2, s), fd)
  {
    var (s1, stat) := Ask(kernel, s, FStat(fd));
    var s2 := if stat.number == -1 then Halt(s1) else Require(kernel, s1, FAdvise(fd, stat.number, 2), IsZero);
    assert AddsOn(s, s1, fd) && AddsOn(s1, s2, fd);
    AddsTogether(s, s1, s2, fd);
    PlanOn(kernel, false, site, fd, rw, s2);
    AddsTogether(s, s2, RunRead(kernel, site, fd, rw, 2, s), fd);
  }

  lemma {:induction false} MovesOn<K(!new)>(kernel: Kernel<K>, abs: string, site: Site, s: Session, n: nat, fd: int,
        m: Machine<Names, K>)
    requires n <= |s.moves| && AllThreadFree(Opening(s)[..n + 1])
    requires var first := Perform(kernel, NameEnv(), abs, site + [0], OpenInstruction(s.path), m);
      NameValue(first.store, "fd") == IntValue(fd)
    ensures var first := Perform(kernel, NameEnv(), abs, site + [0], OpenInstruction(s.path), m);
      var last := PerformAll(kernel, NameEnv(), abs, site, Opening(s)[..n + 1], m);
      last.store == first.store && AddsOn(first.sys, last.sys, fd)
  {
    var l := Opening(s);
    var first := Perform(kernel, NameEnv(), abs, site + [0], OpenInstruction(s.path), m);
    if n == 0 {
      assert l[..1][..0] == [] && l[..1] == [OpenInstruction(s.path)];
    } else {
      assert l[..n + 1][..n] == l[..n] && l[..n + 1][n] == MoveInstruction(s.moves[n - 1]);
      MovesOn(kernel, abs, site, s, n - 1, fd, m);
      var before := PerformAll(kernel, NameEnv(), abs, site, l[..n], m);
      MoveOn(kernel, abs, site + [n], s.moves[n - 1], fd, before);
      AddsTogether(first.sys, before.sys, PerformAll(kernel, NameEnv(), abs, site, l[..n + 1], m).sys, fd);
    }
  }

  /** The calls of one session: the open, and if it is answered, calls on its descriptor and at most one close. */
  ghost predicate SessionCalls<K>(kernel: Kernel<K>, path: string, s: Sys<K>, t: Sys<K>) {
    var open := Open(path, OpenFlags(true, false, 3));
    var fd := Answer(kernel, s, open).number;
    && s.calls + [open] <= t.calls
    && (fd == -1 ==> t.halted && t.calls == s.calls + [open])
    && (forall k :: |s.calls| < k < |t.calls| - 1 ==> On(t.calls[k], fd))
    && (|t.calls| > |s.calls| + 1 ==>
          t.calls[|t.calls| - 1] == Close(fd) || (t.halted && On(t.calls[|t.calls| - 1], fd)))
    && (!t.halted ==> |t.calls| > |s.calls| + 1)
  }

  /**
   * Replaying a session opens its path to read and write, creating it, and sends everything else to the
   * descriptor that this open returned; if it runs to its end, its last call is its only close.
   */
  lemma {:induction false} SessionOnItsDescriptor<K(!new)>(kernel: Kernel<K>, abs: string, site: Site, s: Session,
        m: Machine<Names, K>)
    requires !m.sys.halted
    ensures ThreadFree(SetOf(s))
    ensures SessionCalls(kernel, abs + s.path, m.sys, Perform(kernel, NameEnv(), abs, site, SetOf(s), m).sys)
  {
    var l := Opening(s) + [CloseInstruction()];
    var open := OpenInstruction(s.path);
    PerformSet(kernel, abs, site, l, m);
    PerformOnce(kernel, abs, site + [0], open.body, m);
    OpenNamed(kernel, abs, site + [0], open.body.file, abs + s.path, Some("fd"), open.body.flags, m);
    var fd := Answer(kernel, m.sys, Open(abs + s.path, OpenFlags(true, false, 3))).number;
    var first := Perform(kernel, NameEnv(), abs, site + [0], open, m);
    assert l[..|l| - 1] == Opening(s) && Opening(s)[..|s.moves| + 1] == Opening(s);
    if fd == -1 {
      StoppedSession(kernel, abs, site, s, |s.moves|, m);
      StoppedPerform(kernel, NameEnv(), abs, site + [|l| - 1], CloseInstruction(), first);
    } else {
      MovesOn(kernel, abs, site, s, |s.moves|, fd, m);
      var n := PerformAll(kernel, NameEnv(), abs, site, Opening(s), m);
      CloseAfter(kernel, abs, site + [|l| - 1], fd, n);
    }
  }

  lemma CloseAfter<K(!new)>(kernel: Kernel<K>, abs: string, site: Site, fd: int, n: Machine<Names, K>)
    requires NameValue(n.store, "fd") == IntValue(fd)
    ensures var t := Perform(kernel, NameEnv(), abs, site, CloseInstruction(), n);
      if n.sys.halted then t == n
      else t.sys.calls == n.sys.calls + [Close(fd)]
  {
    if n.sys.halted {
      StoppedPerform(kernel, NameEnv(), abs, site, CloseInstruction(), n);
    } else {
      PerformOnce(kernel, abs, site, CloseFile(FD), n);
      CloseHeld(kernel, abs, site, "fd", n);
    }
  }

  lemma {:induction false} StoppedSession<K(!new)>(kernel: Kernel<K>, abs: string, site: Site, s: Session, n: nat,
        m: Machine<Names, K>)
    requires n <= |s.moves| && AllThreadFree(Opening(s)[..n + 1])
    requires Perform(kernel, NameEnv(), abs, site + [0], OpenInstruction(s.path), m).sys.halted
    ensures PerformAll(kernel, NameEnv(), abs, site, Opening(s)[..n + 1], m)
         == Perform(kernel, NameEnv(), abs, site + [0], OpenInstruction(s.path), m)
  {
    var l := Opening(s);
    if n == 0 {
      assert l[..1][..0] == [] && l[..1] == [OpenInstruction(s.path)];
    } else {
      assert l[..n + 1][..n] == l[..n];
      StoppedSession(kernel, abs, site, s, n - 1, m);
      StoppedPerform(kernel, NameEnv(), abs, site + [n], l[n],
                     Perform(kernel, NameEnv(), abs, site + [0], OpenInstruction(s.path), m));
    }
  }

  // ---------------------------------------------------------------- the whole workload

  /** From one state to the next: the calls of a session, or nothing after a stop. */
  ghost predicate Turn<K>(kernel: Kernel<K>, path: string, s: Sys<K>, t: Sys<K>) {
    if s.halted then t == s else SessionCalls(kernel, path, s, t)
  }

  lemma {:induction false} SessionsInTurn<K(!new)>(kernel: Kernel<K>, abs: string, site: Site, sessions: seq<Session>,
        m: Machine<Names, K>) returns (states: seq<Sys<K>>)
    requires AllThreadFree(SetsOf(sessions))
    ensures |states| == |sessions| + 1 && states[0] == m.sys
    ensures states[|sessions|] == PerformAll(kernel, NameEnv(), abs, site, SetsOf(sessions), m).sys
    ensures forall i :: 0 <= i < |sessions| ==> Turn(kernel, abs + sessions[i].path, states[i], states[i + 1])
    decreases |sessions|
  {
    if sessions == [] {
      states := [m.sys];
    } else {
      var k := |sessions| - 1;
      var front, s := sessions[..k], sessions[k];
      SetsThreadFree(front);
      assert SetsOf(sessions) == SetsOf(front) + [SetOf(s)];
      PerformAllLast(kernel, abs, site, SetsOf(front), SetOf(s), m);
      var before := SessionsInTurn(kernel, abs, site, front, m);
      var n := PerformAll(kernel, NameEnv(), abs, site, SetsOf(front), m);
      var last := Perform(kernel, NameEnv(), abs, site + [k], SetOf(s), n);
      if n.sys.halted {
        StoppedPerform(kernel, NameEnv(), abs, site + [k], SetOf(s), n);
      } else {
        SessionOnItsDescriptor(kernel, abs, site + [k], s, n);
      }
      states := before + [last.sys];
      forall i | 0 <= i < |sessions| ensures Turn(kernel, abs + sessions[i].path, states[i], states[i + 1]) {
        if i < k { assert states[i] == before[i] && states[i + 1] == before[i + 1] && sessions[i] == front[i]; }
      }
    }
  }

  /**
   * On any kernel, the replay of a traced workload takes its sessions in turn: each opens its own path and
   * sends its transfers and its one close to the descriptor which that open returned.
   */
  lemma {:induction false} ReplayInTurn<K(!new)>(kernel: Kernel<K>, k: K, prefix: string, sessions: seq<Session>)
    returns (states: seq<Sys<K>>)
    ensures AllThreadFree(Parts(TraceBenchmark(prefix, SetsOf(sessions))))
    ensures |states| == |sessions| + 1 && states[0] == Sys(k, [], false)
    ensures states[|sessions|] == RunDirectly(kernel, k, TraceBenchmark(prefix, SetsOf(sessions))).sys
    ensures forall i :: 0 <= i < |sessions| ==> Turn(kernel, prefix + sessions[i].path, states[i], states[i + 1])
  {
    var sets := SetsOf(sessions);
    var b := TraceBenchmark(prefix, sets);
    var m := Machine(InitialNames(b), Start(k));
    SetsThreadFree(sessions);
    assert Parts(b) == [] + [b.main];
    assert PerformAll(kernel, NameEnv(), prefix, [], [], m) == m;
    PerformAllLast(kernel, prefix, [], [], b.main, m);
    PerformSet(kernel, prefix, [] + [0], sets, m);
    states := SessionsInTurn(kernel, prefix, [] + [0], sessions, m);
  }

  // ---------------------------------------------------------------- from a traced open to its replay

  /** Between an opening and the close of a descriptor, with nothing else toggling it, it stays open. */
  lemma {:induction false} StaysOpen(prefix: string, calls: seq<Syscall>, fd: int, i: nat, es: seq<Event>)
    requires EventsOf(prefix, calls) == Some(es) && i < |calls|
    requires EventOf(prefix, calls[i]).Some? && EventOf(prefix, calls[i]).value.Opened?
    requires EventOf(prefix, calls[i]).value.fd == fd
    requires forall k :: i < k < |calls| && EventOf(prefix, calls[k]).Some? ==>
      !TogglesFd(EventOf(prefix, calls[k]).value, fd)
    ensures |es| == |calls| && es[i] == EventOf(prefix, calls[i]).value && OpenIndex(es, fd) == Some(i)
  {
    var n := |calls| - 1;
    var front := EventsOf(prefix, calls[..n]).value;
    EventsLength(prefix, calls[..n]);
    if i < n {
      StaysOpen(prefix, calls[..n], fd, i, front);
      assert es[..n] == front && es[n] == EventOf(prefix, calls[n]).value;
    }
  }

  lemma {:induction false} EventsLength(prefix: string, calls: seq<Syscall>)
    requires EventsOf(prefix, calls).Some?
    ensures |EventsOf(prefix, calls).value| == |calls|
  {
    if calls != [] { EventsLength(prefix, calls[..|calls| - 1]); }
  }

  /** Closing a descriptor completes the set that begins with the opening. */
  lemma CloseCompletes(prefix: string, calls: seq<Syscall>, close: Syscall, fd: int, i: nat, path: string,
                       sets: seq<Instr<string>>)
    returns (s: Session)
    requires EventsOf(prefix, calls).Some? && OpenIndex(EventsOf(prefix, calls).value, fd) == Some(i)
    requires i < |EventsOf(prefix, calls).value| && EventsOf(prefix, calls).value[i] == Opened(fd, path)
    requires EventOf(prefix, close) == Some(Closed(fd)) && ProcessSets(prefix, calls + [close]) == Some(sets)
    ensures s.path == path && sets != [] && sets[|sets| - 1] == SetOf(s)
  {
    var all := calls + [close];
    assert all[..|calls|] == calls;
    var es := EventsOf(prefix, calls).value;
    assert EventsOf(prefix, all) == Some(es + [Closed(fd)]);
    FinishedStep(es, Closed(fd));
    s := Current(es, fd).value;
    assert Finished(es + [Closed(fd)])[|Finished(es)|] == s;
  }

  /** The history of one descriptor: an opening of a path, and no toggle of it since. */
  ghost predicate OpenedAt(prefix: string, calls: seq<Syscall>, i: nat, fd: int, path: string) {
    && i < |calls| && EventOf(prefix, calls[i]) == Some(Opened(fd, path))
    && forall k :: i < k < |calls| && EventOf(prefix, calls[k]).Some? ==>
         !TogglesFd(EventOf(prefix, calls[k]).value, fd)
  }

  lemma SessionOfOpening(prefix: string, calls: seq<Syscall>, i: nat, fd: int, path: string, close: Syscall)
    returns (s: Session)
    requires OpenedAt(prefix, calls, i, fd, path) && EventOf(prefix, close) == Some(Closed(fd))
    requires ProcessSets(prefix, calls + [close]).Some?
    ensures var sets := ProcessSets(prefix, calls + [close]).value;
      s.path == path && sets != [] && sets[|sets| - 1] == SetOf(s)
  {
    assert (calls + [close])[..|calls|] == calls;
    StaysOpen(prefix, calls, fd, i, EventsOf(prefix, calls).value);
    s := CloseCompletes(prefix, calls, close, fd, i, path, ProcessSets(prefix, calls + [close]).value);
  }

  /**
   * From the trace to the replay of one open: an openat of prefix + rest that is answered by a descriptor,
   * calls that neither open nor close this descriptor, and its close.  The last set that the tracer has then
   * emitted for the process opens prefix + rest[1..] when it is performed, and sends the rest of its calls to
   * the descriptor it gets.
   */
  lemma {:induction false} TracedOpenReplayed<K(!new)>(prefix: string, calls: seq<Syscall>, i: nat, close: Syscall,
        directory: string, rest: string, flags: seq<string>, fd: nat, kernel: Kernel<K>, site: Site,
        m: Machine<Names, K>)
    requires i < |calls| && rest != "" && fd < 0x8000_0000 && !m.sys.halted
    requires calls[i] == Syscall("openat", [directory, "\"" + prefix + rest + "\""] + flags, calls[i].returnValue)
    requires Numeral(calls[i].returnValue, fd) && Free(calls[i].returnValue, "-1")
    requires forall k :: i < k < |calls| && EventOf(prefix, calls[k]).Some? ==>
      !TogglesFd(EventOf(prefix, calls[k]).value, fd)
    requires EventOf(prefix, close) == Some(Closed(fd)) && ProcessSets(prefix, calls + [close]).Some?
    ensures var sets := ProcessSets(prefix, calls + [close]).value;
      && sets != [] && ThreadFree(sets[|sets| - 1])
      && SessionCalls(kernel, prefix + rest[1..], m.sys,
                      Perform(kernel, NameEnv(), prefix, site, sets[|sets| - 1], m).sys)
  {
    OpensMean(prefix, directory, rest, flags, calls[i].returnValue, fd);
    FindIsFirst(calls[i].returnValue, "-1", 0);
    var s := SessionOfOpening(prefix, calls, i, fd, rest[1..], close);
    SessionOnItsDescriptor(kernel, prefix, site, s, m);
  }
}
