/**
 * From system calls to a workload: each process's calls are grouped by file descriptor, from an
 * openat below the given path to the close of that descriptor.
 */
module DittoTrace {
  import opened Common
  import opened Strings
  import opened TraceText
  import opened Workload

  datatype Move = Move(write: bool, size: int, offset: int)

  /** One open file: what a set of instructions opens, transfers and closes. */
  datatype Session = Session(path: string, moves: seq<Move>)

  // ---------------------------------------------------------------- the instructions of a session

  const FD := "fd"
  const READ_WRITE: nat := 3
  const POSIX_FADV_SEQUENTIAL := 2
  /** The seed of a read or write without one is the time of parsing; sequential plans never draw. */
  const UNSEEDED := 0

  function OpenInstruction(path: string): Instr<string> {
    Instr(1, OpenFile(FileName.PathName(path), Some(FD), OpenFlags(true, false, READ_WRITE)))
  }

  function MoveInstruction(m: Move): Instr<string> {
    var rw := RwParams(m.size, m.size, m.offset, Sequential, UNSEEDED, Once);
    Instr(1, if m.write then WriteFile(FD, rw, false) else ReadFile(FD, rw, POSIX_FADV_SEQUENTIAL))
  }

  function CloseInstruction(): Instr<string> {
    Instr(1, CloseFile(FD))
  }

  function MoveInstructions(moves: seq<Move>): (r: seq<Instr<string>>)
    ensures |r| == |moves|
  {
    seq(|moves|, i requires 0 <= i < |moves| => MoveInstruction(moves[i]))
  }

  /** open (read | write)*: what is known of a session before its close. */
  function Opening(s: Session): seq<Instr<string>> {
    [OpenInstruction(s.path)] + MoveInstructions(s.moves)
  }

  function SetOf(s: Session): Instr<string> {
    Instr(1, InstructionSet(Opening(s) + [CloseInstruction()], None))
  }

  function SetsOf(sessions: seq<Session>): (r: seq<Instr<string>>)
    ensures |r| == |sessions|
  {
    seq(|sessions|, i requires 0 <= i < |sessions| => SetOf(sessions[i]))
  }

  // ---------------------------------------------------------------- what a call means

  datatype Event = Opened(fd: int, path: string) | Moved(fd: int, move: Move) | Closed(fd: int) | Irrelevant

  function FdOf(text: string): int {
    ToInt(Strtoll(text))
  }

  /** The part of a quoted argument after the prefix; None where the program throws or is undefined. */
  function StrippedName(argument: string, prefix: string): Option<string> {
    match Substr(argument, |prefix| + 2, -1)
    case None => None
    case Some(p) => if p == "" then None else Some(p[..|p| - 1])
  }

  function EventOf(prefix: string, c: Syscall): Option<Event> {
    if c.name == "openat" then
      if |c.arguments| < 2 then None
      else if Find(c.arguments[1], prefix, 0) == NPOS then Some(Irrelevant)
      else if StrippedName(c.arguments[1], prefix).None? then None
      else if Find(c.returnValue, "-1", 0) != NPOS then Some(Irrelevant)
      else Some(Opened(FdOf(c.returnValue), StrippedName(c.arguments[1], prefix).value))
    else if c.name == "pread64" || c.name == "pwrite64" then
      if c.arguments == [] then None
      else if |c.arguments| != 4 then Some(Irrelevant)
      else
        var move := Move(c.name == "pwrite64", Strtoll(c.arguments[2]), Strtoll(c.arguments[3]));
        Some(Moved(FdOf(c.arguments[0]), move))
    else if c.name == "close" then
      if c.arguments == [] then None else Some(Closed(FdOf(c.arguments[0])))
    else Some(Irrelevant)
  }

  /** strace prints a number, and perhaps something after it that does not start with a digit. */
  predicate Numeral(text: string, n: nat) {
    n <= LLONG_MAX && |Digits(n)| <= |text| && text[..|Digits(n)|] == Digits(n)
    && (|Digits(n)| < |text| ==> !IsDigit(text[|Digits(n)|]))
  }

  lemma NumeralReads(text: string, n: nat)
    requires Numeral(text, n)
    ensures Strtoll(text) == n
  {
    assert text == Digits(n) + text[|Digits(n)|..];
    StrtollDigits(n, text[|Digits(n)|..]);
  }

  /** What the printed calls on a descriptor mean: which argument is the descriptor, the size and the offset. */
  lemma TransfersMean(prefix: string, fdText: string, buffer: string, sizeText: string, offsetText: string, ret: string,
                      fd: nat, size: nat, offset: nat)
    requires Numeral(fdText, fd) && fd < 0x8000_0000 && Numeral(sizeText, size) && Numeral(offsetText, offset)
    ensures EventOf(prefix, Syscall("pread64", [fdText, buffer, sizeText, offsetText], ret))
         == Some(Moved(fd, Move(false, size, offset)))
    ensures EventOf(prefix, Syscall("pwrite64", [fdText, buffer, sizeText, offsetText], ret))
         == Some(Moved(fd, Move(true, size, offset)))
    ensures EventOf(prefix, Syscall("close", [fdText], ret)) == Some(Closed(fd))
  {
    NumeralReads(fdText, fd);
    NumeralReads(sizeText, size);
    NumeralReads(offsetText, offset);
  }

  /** The part of a quoted path after the prefix, without its first character. */
  lemma NameKept(prefix: string, rest: string)
    ensures StrippedName("\"" + prefix + rest + "\"", prefix) == if rest == "" then None else Some(rest[1..])
  {
    var argument := "\"" + prefix + rest + "\"";
    assert argument[|prefix| + 1..] == rest + "\"";
    if rest == "" {
      assert argument[|prefix| + 2..] == "";
    } else {
      assert argument[|prefix| + 2..] == rest[1..] + "\"";
      assert (rest[1..] + "\"")[..|rest| - 1] == rest[1..];
    }
  }

  /**
   * An openat of the quoted path prefix + rest opens the returned descriptor, with all of `rest` but its
   * first character as the path; with an empty `rest` the tracer throws, and a failed openat opens nothing.
   */
  lemma {:induction false} OpensMean(prefix: string, directory: string, rest: string, flags: seq<string>, ret: string,
                                     fd: nat)
    ensures var c := Syscall("openat", [directory, "\"" + prefix + rest + "\""] + flags, ret);
      if rest == "" then EventOf(prefix, c) == None
      else if Find(ret, "-1", 0) != NPOS then EventOf(prefix, c) == Some(Irrelevant)
      else Numeral(ret, fd) && fd < 0x8000_0000 ==> EventOf(prefix, c) == Some(Opened(fd, rest[1..]))
  {
    var argument := "\"" + prefix + rest + "\"";
    var c := Syscall("openat", [directory, argument] + flags, ret);
    assert c.arguments[1] == argument && |argument| == |prefix| + 2 + |rest|;
    FindIsFirst(argument, prefix, 0);
    assert argument[1..1 + |prefix|] == prefix;
    assert At(argument, prefix, 1);
    NameKept(prefix, rest);
    if Numeral(ret, fd) { NumeralReads(ret, fd); }
  }

  /** Not an openat, a transfer or a close; or an openat elsewhere; or a transfer without its four arguments. */
  ghost predicate Unrelated(prefix: string, c: Syscall) {
    || c.name !in ["openat", "pread64", "pwrite64", "close"]
    || (c.name == "openat" && |c.arguments| >= 2 && Free(c.arguments[1], prefix))
    || (c.name in ["pread64", "pwrite64"] && c.arguments != [] && |c.arguments| != 4)
  }

  lemma {:induction false} UnrelatedMeansNothing(prefix: string, c: Syscall)
    requires Unrelated(prefix, c)
    ensures EventOf(prefix, c) == Some(Irrelevant)
  {
    if c.name == "openat" { FindIsFirst(c.arguments[1], prefix, 0); }
  }

  /**
   * Exactly these calls make the tracer throw or read past its arguments: an openat without a second argument,
   * or with one that names the prefix but has nothing to drop after it, and a transfer or close without any.
   */
  lemma {:induction false} UndefinedExactly(prefix: string, c: Syscall)
    ensures EventOf(prefix, c).None? <==>
      if c.name == "openat"
      then |c.arguments| < 2 || (!Free(c.arguments[1], prefix) && |c.arguments[1]| <= |prefix| + 2)
      else c.name in ["pread64", "pwrite64", "close"] && c.arguments == []
  {
    if c.name == "openat" && |c.arguments| >= 2 {
      FreeIff(c.arguments[1], prefix);
    }
  }

  function EventsOf(prefix: string, calls: seq<Syscall>): Option<seq<Event>> {
    if calls == [] then Some([])
    else
      match EventsOf(prefix, calls[..|calls| - 1])
      case None => None
      case Some(es) =>
        match EventOf(prefix, calls[|calls| - 1])
        case None => None
        case Some(e) => Some(es + [e])
  }

  // ---------------------------------------------------------------- the sessions of a history

  /** After the events, `fd` is open since event i: opened there and neither closed nor reopened since. */
  predicate OpenSince(es: seq<Event>, fd: int, i: nat) {
    && i < |es| && es[i].Opened? && es[i].fd == fd
    && forall k :: i < k < |es| ==> !TogglesFd(es[k], fd)
  }

  predicate TogglesFd(e: Event, fd: int) {
    (e.Opened? || e.Closed?) && e.fd == fd
  }

  function OpenIndex(es: seq<Event>, fd: int): Option<nat> {
    if es == [] then None
    else
      var last := es[|es| - 1];
      if TogglesFd(last, fd) then (if last.Opened? then Some(|es| - 1) else None)
      else OpenIndex(es[..|es| - 1], fd)
  }

  lemma {:induction false} OpenIndexIs(es: seq<Event>, fd: int, i: nat)
    ensures OpenIndex(es, fd) == Some(i) <==> OpenSince(es, fd, i)
  {
    if es != [] {
      var init := es[..|es| - 1];
      OpenIndexIs(init, fd, i);
      if i < |init| {
        assert es[i] == init[i];
        assert forall k :: i < k < |init| ==> es[k] == init[k];
        assert TogglesFd(es[|init|], fd) ==> !OpenSince(es, fd, i);
      }
    }
  }

  /** The transfers on `fd` from event i on. */
  function MovesFrom(es: seq<Event>, fd: int, i: nat): seq<Move> {
    if |es| <= i then []
    else
      var last := es[|es| - 1];
      MovesFrom(es[..|es| - 1], fd, i) + if last.Moved? && last.fd == fd then [last.move] else []
  }

  /** The session of an open descriptor so far. */
  function Current(es: seq<Event>, fd: int): Option<Session> {
    match OpenIndex(es, fd)
    case None => None
    case Some(i) => OpenIndexIs(es, fd, i); Some(Session(es[i].path, MovesFrom(es, fd, i)))
  }

  /** The finished sessions, in the order of their closes. */
  function Finished(es: seq<Event>): seq<Session> {
    if es == [] then []
    else
      var init, last := es[..|es| - 1], es[|es| - 1];
      Finished(init) + if last.Closed? && Current(init, last.fd).Some? then [Current(init, last.fd).value] else []
  }

  // ---------------------------------------------------------------- the loop over the calls of one process

  type OpenSets = map<int, seq<Instr<string>>>

  /** The table of open descriptors says what the history says. */
  ghost predicate Tracks(es: seq<Event>, open: OpenSets) {
    forall fd :: Tracked(es, open, fd)
  }

  predicate Tracked(es: seq<Event>, open: OpenSets, fd: int) {
    match Current(es, fd)
    case None => fd !in open
    case Some(s) => fd in open && open[fd] == Opening(s)
  }

  lemma CurrentStep(es: seq<Event>, e: Event, fd: int)
    ensures Current(es + [e], fd) ==
      if TogglesFd(e, fd) then (if e.Opened? then Some(Session(e.path, [])) else None)
      else if e.Moved? && e.fd == fd && Current(es, fd).Some?
      then Some(Session(Current(es, fd).value.path, Current(es, fd).value.moves + [e.move]))
      else Current(es, fd)
  {
    var all := es + [e];
    assert all[..|es|] == es;
    if TogglesFd(e, fd) {
      if e.Opened? { assert MovesFrom(all, fd, |es|) == MovesFrom(es, fd, |es|) + []; }
    } else if OpenIndex(es, fd).Some? {
      var i := OpenIndex(es, fd).value;
      OpenIndexIs(es, fd, i);
      OpenIndexIs(all, fd, i);
      assert MovesFrom(es, fd, i) + [] == MovesFrom(es, fd, i);
    }
  }

  lemma FinishedStep(es: seq<Event>, e: Event)
    ensures Finished(es + [e]) == Finished(es)
      + if e.Closed? && Current(es, e.fd).Some? then [Current(es, e.fd).value] else []
  {
    assert (es + [e])[..|es|] == es;
  }

  lemma MoveInstructionsStep(moves: seq<Move>, m: Move)
    ensures MoveInstructions(moves + [m]) == MoveInstructions(moves) + [MoveInstruction(m)]
  {}

  /** One event on the table of open descriptors. */
  function Observed(open: OpenSets, e: Event): OpenSets {
    match e
    case Opened(fd, path) => open[fd := [OpenInstruction(path)]]
    case Moved(fd, move) => if fd in open then open[fd := open[fd] + [MoveInstruction(move)]] else open
    case Closed(fd) => open - {fd}
    case Irrelevant => open
  }

  lemma TracksStep(es: seq<Event>, open: OpenSets, e: Event)
    requires Tracks(es, open)
    ensures Tracks(es + [e], Observed(open, e))
  {
    forall fd ensures Tracked(es + [e], Observed(open, e), fd) {
      assert Tracked(es, open, fd);
      CurrentStep(es, e, fd);
      if e.Moved? && e.fd == fd && fd in open {
        var s := Current(es, fd).value;
        MoveInstructionsStep(s.moves, e.move);
        assert Opening(s) + [MoveInstruction(e.move)] == Opening(Session(s.path, s.moves + [e.move]));
      }
      if e.Opened? && e.fd == fd {
        assert Opening(Session(e.path, [])) == [OpenInstruction(e.path)];
      }
    }
  }

  /** Closing a tracked descriptor completes the set of its session. */
  lemma SetsStep(es: seq<Event>, open: OpenSets, e: Event)
    requires Tracks(es, open)
    ensures SetsOf(Finished(es + [e])) == SetsOf(Finished(es))
      + if e.Closed? && e.fd in open
        then [Instr(1, InstructionSet(open[e.fd] + [CloseInstruction()], None))] else []
  {
    FinishedStep(es, e);
    if e.Closed? {
      assert Tracked(es, open, e.fd);
    }
  }

  lemma EventsStep(prefix: string, calls: seq<Syscall>, i: nat)
    requires i < |calls|
    ensures EventsOf(prefix, calls[..i + 1])
         == if EventsOf(prefix, calls[..i]).None? || EventOf(prefix, calls[i]).None? then None
            else Some(EventsOf(prefix, calls[..i]).value + [EventOf(prefix, calls[i]).value])
  {
    assert calls[..i + 1][..i] == calls[..i];
  }

  lemma {:induction false} EventsPrefix(prefix: string, calls: seq<Syscall>, i: nat)
    requires i <= |calls| && EventsOf(prefix, calls[..i]).None?
    ensures EventsOf(prefix, calls).None?
    decreases |calls| - i
  {
    if i == |calls| {
      assert calls[..i] == calls;
    } else {
      EventsStep(prefix, calls, i);
      EventsPrefix(prefix, calls, i + 1);
    }
  }

  /** What the calls of one process contribute to the workload. */
  function ProcessSets(prefix: string, calls: seq<Syscall>): Option<seq<Instr<string>>> {
    match EventsOf(prefix, calls)
    case None => None
    case Some(es) => Some(SetsOf(Finished(es)))
  }

  /** The effect of one call on the table; `finished` is the set it completes. */
  method Observe(prefix: string, call: Syscall, open: OpenSets)
    returns (ok: bool, after: OpenSets, finished: seq<Instr<string>>)
    ensures ok <==> EventOf(prefix, call).Some?
    ensures ok ==> var e := EventOf(prefix, call).value;
      && after == Observed(open, e)
      && finished == if e.Closed? && e.fd in open
                     then [Instr(1, InstructionSet(open[e.fd] + [CloseInstruction()], None))] else []
  {
    ok, after, finished := true, open, [];
    if call.name == "openat" {
      if |call.arguments| < 2 { return false, open, []; }
      if Find(call.arguments[1], prefix, 0) != NPOS {
        var name := Substr(call.arguments[1], |prefix| + 2, -1);
        if name.None? || name.value == "" { return false, open, []; }
        var pathName := name.value[..|name.value| - 1];
        if Find(call.returnValue, "-1", 0) != NPOS { return; }
        after := open[FdOf(call.returnValue) := [OpenInstruction(pathName)]];
      }
    } else if call.name == "pread64" || call.name == "pwrite64" {
      if call.arguments == [] { return false, open, []; }
      var fd := FdOf(call.arguments[0]);
      if |call.arguments| != 4 || fd !in open { return; }
      var move := Move(call.name == "pwrite64", Strtoll(call.arguments[2]), Strtoll(call.arguments[3]));
      after := open[fd := open[fd] + [MoveInstruction(move)]];
    } else if call.name == "close" {
      if call.arguments == [] { return false, open, []; }
      var fd := FdOf(call.arguments[0]);
      if fd !in open {
        assert open - {fd} == open;
        return;
      }
      finished := [Instr(1, InstructionSet(open[fd] + [CloseInstruction()], None))];
      after := open - {fd};
    }
  }

  /** The loop over the calls of one process, appending to the main instruction set. */
  method AddProcess(prefix: string, calls: seq<Syscall>, sets: seq<Instr<string>>)
    returns (r: Option<seq<Instr<string>>>)
    ensures r == if ProcessSets(prefix, calls).None? then None else Some(sets + ProcessSets(prefix, calls).value)
  {
    var main := sets;
    var open: OpenSets := map[];
    ghost var es: seq<Event> := [];
    assert calls[..0] == [] && sets + [] == sets;
    for i := 0 to |calls|
      invariant EventsOf(prefix, calls[..i]) == Some(es)
      invariant Tracks(es, open)
      invariant main == sets + SetsOf(Finished(es))
    {
      EventsStep(prefix, calls, i);
      var ok, after, finished := Observe(prefix, calls[i], open);
      if !ok {
        EventsPrefix(prefix, calls, i + 1);
        return None;
      }
      ghost var e := EventOf(prefix, calls[i]).value;
      TracksStep(es, open, e);
      SetsStep(es, open, e);
      main := main + finished;
      open := after;
      es := es + [e];
    }
    assert calls[..|calls|] == calls;
    r := Some(main);
  }

  /** All processes, in ascending order of pid. */
  function SetsUpTo(prefix: string, m: map<int, seq<Syscall>>, pids: seq<int>): Option<seq<Instr<string>>>
    requires forall i :: 0 <= i < |pids| ==> pids[i] in m
  {
    if pids == [] then Some([])
    else
      var before, own := SetsUpTo(prefix, m, pids[..|pids| - 1]), ProcessSets(prefix, m[pids[|pids| - 1]]);
      if before.None? || own.None? then None else Some(before.value + own.value)
  }

  lemma {:induction false} SetsUpToFails(prefix: string, m: map<int, seq<Syscall>>, pids: seq<int>, i: nat)
    requires forall k :: 0 <= k < |pids| ==> pids[k] in m
    requires i <= |pids| && SetsUpTo(prefix, m, pids[..i]).None?
    ensures SetsUpTo(prefix, m, pids).None?
    decreases |pids| - i
  {
    if i == |pids| {
      assert pids[..i] == pids;
    } else {
      assert pids[..i + 1][..i] == pids[..i];
      SetsUpToFails(prefix, m, pids, i + 1);
    }
  }

  /** The whole tracer on the text of a trace. */
  function Traced(prefix: string, lines: seq<string>): Option<seq<Instr<string>>> {
    match Grouped(ByPid(lines))
    case None => None
    case Some(m) => SetsUpTo(prefix, m, Ascending(m.Keys))
  }

  method AddProcesses(prefix: string, m: map<int, seq<Syscall>>, pids: seq<int>) returns (r: Option<seq<Instr<string>>>)
    requires forall i :: 0 <= i < |pids| ==> pids[i] in m
    ensures r == SetsUpTo(prefix, m, pids)
  {
    var main: seq<Instr<string>> := [];
    assert pids[..0] == [];
    for i := 0 to |pids|
      invariant SetsUpTo(prefix, m, pids[..i]) == Some(main)
    {
      assert pids[..i + 1][..i] == pids[..i];
      var next := AddProcess(prefix, m[pids[i]], main);
      if next.None? {
        SetsUpToFails(prefix, m, pids, i + 1);
        return None;
      }
      main := next.value;
    }
    assert pids[..|pids|] == pids;
    r := Some(main);
  }

  method Trace(prefix: string, lines: seq<string>) returns (r: Option<seq<Instr<string>>>)
    ensures r == Traced(prefix, lines)
  {
    var linesByPid := SplitByPid(lines);
    var callsByPid := ProcessLines(linesByPid);
    if callsByPid.None? { return None; }
    var pids := Ascending(callsByPid.value.Keys);
    r := AddProcesses(prefix, callsByPid.value, pids);
  }
}
