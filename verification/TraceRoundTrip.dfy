/**
 * Reading undoes printing: from any interleaving of processes, and any splitting of calls into
 * unfinished and resumed halves, the tracer recovers the calls of each process.
 */
module TraceRoundTrip {
  import opened Common
  import opened Strings
  import opened TraceText

  /** How one call, or one line that is no call, shows up in the lines of its process. */
  datatype Shown =
    | Whole(call: Syscall, pad: nat)
    | Halves(call: Syscall, pad: nat, at: nat, note: string)   // at: where it was cut; note: "<... name "
    | Other(text: string)

  /** The lines of one entry, without the pid. */
  function Texts(e: Shown): seq<string> {
    match e
    case Whole(c, pad) => [Print(c, pad)]
    case Halves(c, pad, at, note) =>
      var line := Print(c, pad);
      var k := if at <= |line| then at else |line|;
      [line[..k] + "<unfinished ...>", note + "resumed>" + line[k..]]
    case Other(text) => [text]
  }

  function AllTexts(es: seq<Shown>): seq<string> {
    if es == [] then [] else Texts(es[0]) + AllTexts(es[1..])
  }

  function CallsOf(es: seq<Shown>): seq<Syscall> {
    if es == [] then [] else (if es[0].Other? then [] else [es[0].call]) + CallsOf(es[1..])
  }

  ghost predicate Untagged(text: string) {
    Free(text, "resumed>") && Free(text, "<detached ...>") && Free(text, "<unfinished ...>")
  }

  /** A line about a signal or about the end of a process. */
  predicate Notice(text: string) {
    "---" <= text || "+++" <= text
  }

  /** A call that reads back: separable arguments, and nothing in it that looks like a tag. */
  ghost predicate Readable(c: Syscall, pad: nat) {
    WellFormed(c) && Untagged(Print(c, pad)) && !Notice(Print(c, pad))
  }

  ghost predicate Good(e: Shown) {
    match e
    case Whole(c, pad) => Readable(c, pad)
    case Halves(c, pad, _, note) => Readable(c, pad) && Free(note, "resumed>")
    case Other(text) =>
      !Free(text, "resumed>") || !Free(text, "<detached ...>") || (Untagged(text) && Notice(text))
  }

  ghost predicate AllGood(es: seq<Shown>) {
    forall i :: 0 <= i < |es| ==> Good(es[i])
  }

  function Tag(pid: nat): string {
    Digits(pid) + "  "
  }

  function Labelled(column: string, texts: seq<string>): (r: seq<string>)
    ensures |r| == |texts|
  {
    seq(|texts|, i requires 0 <= i < |texts| => column + texts[i])
  }

  function Tagged(pid: nat, texts: seq<string>): (r: seq<string>)
    ensures |r| == |texts|
  {
    Labelled(Tag(pid), texts)
  }

  // ---------------------------------------------------------------- the pid in front

  /** Digits and blanks, as in front of every line. */
  ghost predicate PidLike(column: string) {
    forall c :: c in column ==> IsDigit(c) || c == ' '
  }

  lemma TagIsPidLike(pid: nat)
    ensures PidLike(Tag(pid))
  {}

  lemma NoTagInPid(column: string, text: string, p: string)
    requires PidLike(column) && p in {RESUMED, DETACHED, UNFINISHED}
    ensures Find(column + text, p, 0) == if Find(text, p, 0) == NPOS then NPOS else |column| + Find(text, p, 0)
  {
    FindAcross(column, text, p);
  }

  lemma PidInFront(pid: nat, text: string)
    ensures Find(Tag(pid) + text, "  ", 0) == |Digits(pid)|
    ensures Find(Tag(pid) + text, " ", 0) == |Digits(pid)|
  {
    var digits := Digits(pid);
    assert forall c :: c in digits ==> c != ' ';
    FindChar(digits, "  ", text);
    assert Tag(pid) + text == digits + " " + (" " + text);
    FindChar(digits, " ", " " + text);
  }

  lemma PidReadsBack(pid: nat, text: string)
    requires pid < 0x8000_0000
    ensures PidOf(Tag(pid) + text) == pid
  {
    PidInFront(pid, text);
    assert (Tag(pid) + text)[..|Digits(pid)|] == Digits(pid);
    StrtollDigits(pid, "");
    assert Digits(pid) + "" == Digits(pid);
  }

  lemma MarkerIs(text: string)
    ensures Marker(text) == Notice(text)
  {
    if |text| >= 3 {
      assert text[..3] == "---" <==> text[0] == '-' && text[1] == '-' && text[2] == '-';
      assert text[..3] == "+++" <==> text[0] == '+' && text[1] == '+' && text[2] == '+';
    }
  }

  lemma StripPid(pid: nat, text: string)
    ensures Strip(Tag(pid) + text) == if Notice(text) then Ignored else Text(text)
  {
    MarkerIs(text);
    PidInFront(pid, text);
    assert (Tag(pid) + text)[|Digits(pid)| + 2..] == text;
  }

  // ---------------------------------------------------------------- one entry

  /** None of the tags has its bracket again after its first character. */
  lemma NoBracketInside()
    ensures forall j :: 0 < j < |RESUMED| ==> RESUMED[j] != '<'
    ensures forall j :: 0 < j < |DETACHED| ==> DETACHED[j] != '<'
    ensures forall j :: 0 < j < |UNFINISHED| ==> UNFINISHED[j] != '<'
  {}

  lemma CutBeforeTag(half: string, p: string)
    requires Free(half, p) && p in [RESUMED, DETACHED, UNFINISHED]
    ensures Cut(half, UNFINISHED, p)
  {
    NoBracketInside();
    assert UNFINISHED[0] == '<';
  }

  /** Cutting a call in two leaves exactly the unfinished tag, at the cut. */
  lemma FirstHalf(text: string, k: nat)
    requires Untagged(text) && k <= |text|
    ensures Find(text[..k] + UNFINISHED, UNFINISHED, 0) == k
    ensures Find(text[..k] + UNFINISHED, RESUMED, 0) == NPOS
    ensures Find(text[..k] + UNFINISHED, DETACHED, 0) == NPOS
  {
    var half := text[..k];
    FreeOfPart(text, RESUMED, k);
    FreeOfPart(text, DETACHED, k);
    FreeOfPart(text, UNFINISHED, k);
    CutBeforeTag(half, RESUMED);
    CutBeforeTag(half, DETACHED);
    CutBeforeTag(half, UNFINISHED);
    FindAcross(half, UNFINISHED, UNFINISHED);
    FindAcross(half, UNFINISHED, RESUMED);
    FindAcross(half, UNFINISHED, DETACHED);
    NoResumedInUnfinished();
    NoDetachedInUnfinished();
  }

  lemma NoResumedInUnfinished()
    ensures Find(UNFINISHED, RESUMED, 0) == NPOS
  {
    forall i ensures !At(UNFINISHED, RESUMED, i) {
      AtHead(UNFINISHED, RESUMED, if i < 0 then 0 else i);
    }
    FreeIff(UNFINISHED, RESUMED);
  }

  lemma NoDetachedInUnfinished()
    ensures Find(UNFINISHED, DETACHED, 0) == NPOS
  {
    forall i: int ensures !At(UNFINISHED, DETACHED, i) {
      if 0 <= i <= 2 {
        assert UNFINISHED[i..i + 14][1] == UNFINISHED[i + 1];
        assert DETACHED[1] == 'd';
      }
    }
    FreeIff(UNFINISHED, DETACHED);
  }

  lemma SecondHalf(column: string, note: string, rest: string)
    requires PidLike(column) && Free(note, RESUMED)
    ensures var line := column + (note + RESUMED + rest);
            var r := Find(line, RESUMED, 0);
            r != NPOS && Substr(line, r + |RESUMED|, -1) == Some(rest)
  {
    NoTagInPid(column, note + RESUMED + rest, RESUMED);
    FindHere(note, RESUMED, rest);
    var line := column + (note + RESUMED + rest);
    assert line[|column| + |note| + |RESUMED|..] == rest;
  }

  /** A call's lines, at the front of any lines and below any column, come together as one labelled line. */
  lemma NextCall(column: string, e: Shown, more: seq<string>)
    requires PidLike(column) && Good(e) && !e.Other?
    ensures Next(Labelled(column, Texts(e)) + more) == (Strip(column + Print(e.call, e.pad)), |Texts(e)|)
  {
    match e
    case Whole(c, pad) => NextWhole(column, Print(c, pad), more);
    case Halves(c, pad, at, note) =>
      var line := Print(c, pad);
      NextHalves(column, line, if at <= |line| then at else |line|, note, more);
      assert Labelled(column, Texts(e)) == [column + Texts(e)[0], column + Texts(e)[1]];
  }

  /** An entry's lines, at the front of any lines, give its call or nothing. */
  lemma NextShown(pid: nat, e: Shown, more: seq<string>)
    requires Good(e)
    ensures Next(Tagged(pid, Texts(e)) + more)
         == (if e.Other? then Ignored else Text(Print(e.call, e.pad)), |Texts(e)|)
  {
    if e.Other? {
      NextOther(pid, e.text, more);
    } else {
      TagIsPidLike(pid);
      NextCall(Tag(pid), e, more);
      StripPid(pid, Print(e.call, e.pad));
    }
  }

  lemma NextWhole(column: string, text: string, more: seq<string>)
    requires PidLike(column) && Untagged(text)
    ensures Next(Labelled(column, [text]) + more) == (Strip(column + text), 1)
  {
    forall p | p in {RESUMED, DETACHED, UNFINISHED} ensures Find(column + text, p, 0) == NPOS {
      NoTagInPid(column, text, p);
      FreeIff(text, p);
    }
  }

  /**
   * A line without any of the three tags is skipped exactly if its text begins with "---" or "+++", as the
   * lines about signals and about the end of a process do; every other one is the text of a call.
   */
  lemma {:induction false} SkippedExactly(pid: nat, text: string, more: seq<string>)
    requires Untagged(text)
    ensures Next([Digits(pid) + "  " + text] + more)
         == (if "---" <= text || "+++" <= text then Ignored else Text(text), 1)
  {
    TagIsPidLike(pid);
    NextWhole(Tag(pid), text, more);
    StripPid(pid, text);
    assert Labelled(Tag(pid), [text]) == [Digits(pid) + "  " + text];
  }

  lemma NextOther(pid: nat, text: string, more: seq<string>)
    requires Good(Other(text))
    ensures Next(Tagged(pid, [text]) + more) == (Ignored, 1)
  {
    TagIsPidLike(pid);
    forall p | p in {RESUMED, DETACHED, UNFINISHED} ensures Find(Tag(pid) + text, p, 0) == NPOS <==> Free(text, p) {
      NoTagInPid(Tag(pid), text, p);
      FreeIff(text, p);
    }
    StripPid(pid, text);
  }

  lemma NextTwo(first: string, second: string, u: nat, rest: string, line: string, more: seq<string>)
    requires Find(first, RESUMED, 0) == NPOS && Find(first, DETACHED, 0) == NPOS && Find(first, UNFINISHED, 0) == u
    requires Substr(second, Find(second, RESUMED, 0) + |RESUMED|, -1) == Some(rest)
    requires first[..u] + rest == line
    ensures Next([first, second] + more) == (Strip(line), 2)
  {
    var lines := [first, second] + more;
    assert lines[0] == first && lines[1] == second;
  }

  lemma FirstHalfLabelled(column: string, text: string, k: nat)
    requires PidLike(column) && Untagged(text) && k <= |text|
    ensures var first := column + (text[..k] + UNFINISHED);
            && Find(first, RESUMED, 0) == NPOS && Find(first, DETACHED, 0) == NPOS
            && Find(first, UNFINISHED, 0) == |column| + k
            && first[..|column| + k] + text[k..] == column + text
  {
    FirstHalf(text, k);
    NoTagInPid(column, text[..k] + UNFINISHED, RESUMED);
    NoTagInPid(column, text[..k] + UNFINISHED, DETACHED);
    NoTagInPid(column, text[..k] + UNFINISHED, UNFINISHED);
  }

  lemma NextHalves(column: string, text: string, k: nat, note: string, more: seq<string>)
    requires PidLike(column) && Untagged(text) && Free(note, RESUMED) && k <= |text|
    ensures Next([column + (text[..k] + UNFINISHED), column + (note + RESUMED + text[k..])] + more)
         == (Strip(column + text), 2)
  {
    FirstHalfLabelled(column, text, k);
    SecondHalf(column, note, text[k..]);
    NextTwo(column + (text[..k] + UNFINISHED), column + (note + RESUMED + text[k..]), |column| + k, text[k..],
            column + text, more);
  }

  /**
   * After an unfinished call the next line of the process is taken for its second half even if it is not: its
   * first seven characters are dropped, or the tracer throws if it has fewer, and its own call is lost.
   */
  lemma {:induction false} UnfinishedTakesNext(pid: nat, text: string, second: string, more: seq<string>)
    requires Untagged(text) && Free(second, "resumed>")
    ensures Next([Digits(pid) + "  " + (text + "<unfinished ...>"), second] + more)
         == (if |second| < 7 then Thrown else Strip(Digits(pid) + "  " + text + second[7..]), 2)
  {
    var column := Tag(pid);
    var first, u := column + (text + UNFINISHED), |column| + |text|;
    TagIsPidLike(pid);
    WholeHalf(column, text);
    FreeIff(second, RESUMED);
    if |second| < 7 {
      NextThrows(first, second, u, more);
    } else {
      NextTwo(first, second, u, second[7..], column + text + second[7..], more);
    }
  }

  /** A call cut at its end. */
  lemma WholeHalf(column: string, text: string)
    requires PidLike(column) && Untagged(text)
    ensures var first := column + (text + UNFINISHED);
      && Find(first, RESUMED, 0) == NPOS && Find(first, DETACHED, 0) == NPOS
      && Find(first, UNFINISHED, 0) == |column| + |text| && first[..|column| + |text|] == column + text
  {
    FirstHalfLabelled(column, text, |text|);
    assert text[..|text|] == text;
  }

  lemma NextThrows(first: string, second: string, u: nat, more: seq<string>)
    requires Find(first, RESUMED, 0) == NPOS && Find(first, DETACHED, 0) == NPOS && Find(first, UNFINISHED, 0) == u
    requires Find(second, RESUMED, 0) == NPOS && |second| < 7
    ensures Next([first, second] + more) == (Thrown, 2)
  {
    var lines := [first, second] + more;
    assert lines[0] == first && lines[1] == second;
  }

  // ---------------------------------------------------------------- one process

  /** An unfinished call whose other half never came, as the last line. */
  ghost predicate Dangling(tail: seq<string>) {
    |tail| <= 1 && (tail != [] ==> !Free(tail[0], "<unfinished ...>"))
  }

  lemma DanglingIgnored(pid: nat, tail: seq<string>)
    requires Dangling(tail)
    ensures Calls(Tagged(pid, tail)) == Some([])
  {
    if tail != [] {
      TagIsPidLike(pid);
      NoTagInPid(Tag(pid), tail[0], UNFINISHED);
      FreeIff(tail[0], UNFINISHED);
      assert Next(Tagged(pid, tail)) == (Ignored, 1);
    }
  }

  lemma TaggedAppend(pid: nat, a: seq<string>, b: seq<string>)
    ensures Tagged(pid, a + b) == Tagged(pid, a) + Tagged(pid, b)
  {}

  /** The lines of one process give its calls, in order. */
  lemma {:induction false} ProcessRecovered(pid: nat, es: seq<Shown>, tail: seq<string>)
    requires AllGood(es) && Dangling(tail)
    ensures Calls(Tagged(pid, AllTexts(es) + tail)) == Some(CallsOf(es))
    decreases es
  {
    if es == [] {
      DanglingIgnored(pid, tail);
      assert AllTexts(es) + tail == tail;
    } else {
      var own, more := Tagged(pid, Texts(es[0])), Tagged(pid, AllTexts(es[1..]) + tail);
      assert AllTexts(es) + tail == Texts(es[0]) + (AllTexts(es[1..]) + tail);
      TaggedAppend(pid, Texts(es[0]), AllTexts(es[1..]) + tail);
      ProcessRecovered(pid, es[1..], tail);
      OneRecovered(pid, es[0], own, more);
    }
  }

  lemma OneRecovered(pid: nat, e: Shown, own: seq<string>, more: seq<string>)
    requires Good(e) && own == Tagged(pid, Texts(e)) && Calls(more).Some?
    ensures Calls(own + more) == Some((if e.Other? then [] else [e.call]) + Calls(more).value)
  {
    NextShown(pid, e, more);
    if e.Other? {
      CallsOfNext(own + more, Ignored, |own|, more);
      assert [] + Calls(more).value == Calls(more).value;
    } else {
      ProcessPrinted(e.call, e.pad);
      CallsOfNext(own + more, Text(Print(e.call, e.pad)), |own|, more);
    }
  }

  // ---------------------------------------------------------------- all processes

  /** A line of the trace: who printed it, and its text. */
  datatype Line = Line(pid: nat, text: string)

  function Raw(l: Line): string {
    Tag(l.pid) + l.text
  }

  function Rendered(trace: seq<Line>): (r: seq<string>)
    ensures |r| == |trace|
  {
    seq(|trace|, i requires 0 <= i < |trace| => Raw(trace[i]))
  }

  /** The texts of one process, in the order of the trace. */
  function Only(trace: seq<Line>, pid: int): seq<string> {
    if trace == [] then []
    else
      var l := trace[|trace| - 1];
      Only(trace[..|trace| - 1], pid) + if l.pid == pid then [l.text] else []
  }

  ghost predicate Pids32(trace: seq<Line>) {
    forall i :: 0 <= i < |trace| ==> trace[i].pid < 0x8000_0000
  }

  /** Grouping by pid recovers each process's own lines. */
  lemma {:induction false} SplitRecovered(trace: seq<Line>)
    requires Pids32(trace)
    ensures forall pid: int :: pid in ByPid(Rendered(trace)) <==> Only(trace, pid) != []
    ensures forall pid: int :: pid in ByPid(Rendered(trace)) ==>
      0 <= pid < 0x8000_0000 && ByPid(Rendered(trace))[pid] == Tagged(pid, Only(trace, pid))
  {
    forall pid: int ensures pid in ByPid(Rendered(trace)) <==> Only(trace, pid) != [] { RecoveredFor(trace, pid); }
    forall pid: int | pid in ByPid(Rendered(trace))
      ensures 0 <= pid < 0x8000_0000 && ByPid(Rendered(trace))[pid] == Tagged(pid, Only(trace, pid))
    {
      RecoveredFor(trace, pid);
    }
  }

  ghost predicate RecoveredAt(trace: seq<Line>, pid: int) {
    var m := ByPid(Rendered(trace));
    && (pid in m <==> Only(trace, pid) != [])
    && (pid in m ==> 0 <= pid < 0x8000_0000 && m[pid] == Tagged(pid, Only(trace, pid)))
  }

  lemma {:induction false} RecoveredFor(trace: seq<Line>, pid: int)
    requires Pids32(trace)
    ensures RecoveredAt(trace, pid)
  {
    if trace != [] {
      var init, last := trace[..|trace| - 1], trace[|trace| - 1];
      RecoveredFor(init, pid);
      PidReadsBack(last.pid, last.text);
      assert Rendered(trace)[..|trace| - 1] == Rendered(init);
      TaggedAppend(last.pid, Only(init, last.pid), [last.text]);
    }
  }

  /** The trace is an interleaving of the lines of the processes, all of which read back. */
  ghost predicate Faithful(trace: seq<Line>, shown: map<int, seq<Shown>>, tails: map<int, seq<string>>) {
    && Pids32(trace)
    && shown.Keys == tails.Keys
    && (forall pid :: pid in shown ==>
          AllGood(shown[pid]) && Dangling(tails[pid]) && Only(trace, pid) == AllTexts(shown[pid]) + tails[pid])
    && forall i :: 0 <= i < |trace| ==> trace[i].pid in shown
  }

  /**
   * The round trip.  For every trace of readable calls, however the processes are interleaved,
   * whichever calls were cut in two and wherever, with signals, exits and detached lines in
   * between: the tracer ends with exactly the calls of each process that made any, in order.
   */
  lemma TraceRecovered(trace: seq<Line>, shown: map<int, seq<Shown>>, tails: map<int, seq<string>>)
    requires Faithful(trace, shown, tails)
    ensures Grouped(ByPid(Rendered(trace))) == Some(Expected(shown))
  {
    SplitRecovered(trace);
    var m := ByPid(Rendered(trace));
    var expected := Expected(shown);
    forall pid | pid in m ensures pid in shown && Placed(m, expected, pid) {
      OnlyOfShown(trace, pid);
      ProcessRecovered(pid, shown[pid], tails[pid]);
    }
    forall pid | pid in expected ensures pid in m {
      NoTextsNoCalls(shown[pid]);
    }
    AllPlaced(m, expected);
  }

  /** The processes that made calls, with their calls. */
  function Expected(shown: map<int, seq<Shown>>): map<int, seq<Syscall>> {
    map pid | pid in shown && CallsOf(shown[pid]) != [] :: CallsOf(shown[pid])
  }

  lemma {:induction false} OnlyOfShown(trace: seq<Line>, pid: int)
    ensures Only(trace, pid) != [] ==> exists i :: 0 <= i < |trace| && trace[i].pid == pid
  {
    if trace != [] {
      var init := trace[..|trace| - 1];
      OnlyOfShown(init, pid);
      if i :| 0 <= i < |init| && init[i].pid == pid { assert trace[i].pid == pid; }
    }
  }

  lemma NoTextsNoCalls(es: seq<Shown>)
    ensures AllTexts(es) == [] ==> CallsOf(es) == []
  {
    if es != [] { assert Texts(es[0]) != []; }
  }
}
