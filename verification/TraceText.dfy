/**
 * Reading strace output: one line into a system call, lines grouped by process, and calls that
 * were printed in two halves put together again.  None stands for a thrown exception.
 */
module TraceText {
  import opened Common
  import opened Strings

  datatype Syscall = Syscall(name: string, arguments: seq<string>, returnValue: string)

  const RESUMED := "resumed>"
  const DETACHED := "<detached ...>"
  const UNFINISHED := "<unfinished ...>"
  const SEPARATOR := ", "

  // ---------------------------------------------------------------- ProcessLine

  function NonEmpty(part: string): seq<string> {
    if part == "" then [] else [part]
  }

  function SplitArguments(raw: string, last: nat): seq<string>
    requires last <= |raw|
    decreases |raw| - last
  {
    var next := Find(raw, SEPARATOR, last);
    if next == NPOS then NonEmpty(raw[last..])
    else NonEmpty(raw[last..next]) + SplitArguments(raw, next + 2)
  }

  /** The name, the text between the parentheses and the return value of a line. */
  function Fields(line: string): Option<(string, string, string)> {
    var open, close := Find(line, "(", 0), Find(line, ")", 0);
    var name, raw, tail := Substr(line, 0, open), Substr(line, open + 1, close - open - 1), Substr(line, close, -1);
    if name.None? || raw.None? || tail.None? then None
    else
      match Substr(tail.value, Find(tail.value, "= ", 0) + 2, -1)
      case None => None
      case Some(ret) => Some((name.value, raw.value, ret))
  }

  /** What ProcessLine makes of a line. */
  function Processed(line: string): Option<Syscall> {
    match Fields(line)
    case None => None
    case Some((name, raw, ret)) => Some(Syscall(name, SplitArguments(raw, 0), ret))
  }

  method ProcessLine(line: string) returns (r: Option<Syscall>)
    ensures r == Processed(line)
  {
    var fields := Fields(line);
    if fields.None? { return None; }
    var (name, raw, ret) := fields.value;
    var arguments := SplitAll(raw);
    r := Some(Syscall(name, arguments, ret));
  }

  /** Exactly the lines without a closing parenthesis throw. */
  lemma {:induction false} ThrowsExactly(line: string)
    ensures Processed(line).None? <==> ')' !in line
  {
    FindIsFirst(line, "(", 0);
    FindIsFirst(line, ")", 0);
    var close := Find(line, ")", 0);
    if close == NPOS {
      forall j | 0 <= j < |line| ensures line[j] != ')' {
        assert line[j..j + 1] == [line[j]];
        assert !At(line, ")", j);
      }
    } else {
      assert line[close..close + 1][0] == line[close];
      FindIsFirst(line[close..], "= ", 0);
    }
  }

  /** The arguments found so far, followed by those still in the text. */
  ghost predicate SplitInto(whole: seq<string>, arguments: seq<string>, raw: string, last: nat)
    requires last <= |raw|
  {
    whole == arguments + SplitArguments(raw, last)
  }

  lemma SplitStart(raw: string)
    ensures SplitInto(SplitArguments(raw, 0), [], raw, 0)
  {}

  lemma SplitOne(whole: seq<string>, arguments: seq<string>, raw: string, last: nat, next: nat)
    requires last <= |raw| && SplitInto(whole, arguments, raw, last) && Find(raw, SEPARATOR, last) == next
    ensures SplitInto(whole, arguments + NonEmpty(raw[last..next]), raw, next + 2)
  {}

  lemma SplitLast(whole: seq<string>, arguments: seq<string>, raw: string, last: nat)
    requires last <= |raw| && SplitInto(whole, arguments, raw, last) && Find(raw, SEPARATOR, last) == NPOS
    ensures whole == arguments + NonEmpty(raw[last..])
  {}

  method SplitAll(raw: string) returns (arguments: seq<string>)
    ensures arguments == SplitArguments(raw, 0)
  {
    arguments := [];
    ghost var whole := SplitArguments(raw, 0);
    SplitStart(raw);
    var last: nat := 0;
    var next := Find(raw, SEPARATOR, last);
    while next != NPOS
      invariant last <= |raw| && next == Find(raw, SEPARATOR, last)
      invariant SplitInto(whole, arguments, raw, last)
      decreases |raw| - last
    {
      SplitOne(whole, arguments, raw, last, next);
      var part := raw[last..next];
      arguments := Appended(arguments, part);
      last := next + 2;
      next := Find(raw, SEPARATOR, last);
    }
    SplitLast(whole, arguments, raw, last);
    arguments := Appended(arguments, raw[last..]);
  }

  /** The push_back of a part that is not empty. */
  function Appended(arguments: seq<string>, part: string): (r: seq<string>)
    ensures r == arguments + NonEmpty(part)
  {
    if part != "" then arguments + [part] else arguments
  }

  // ---------------------------------------------------------------- printing a call

  function Join(parts: seq<string>): string {
    if parts == [] then "" else if |parts| == 1 then parts[0] else parts[0] + ", " + Join(parts[1..])
  }

  /** A call as strace prints it, with `pad` blanks before the equals sign. */
  function Print(c: Syscall, pad: nat): string {
    c.name + "(" + Join(c.arguments) + ")" + Blanks(pad) + "= " + c.returnValue
  }

  function Blanks(n: nat): (s: string)
    ensures |s| == n && forall x :: x in s ==> x == ' '
  {
    seq(n, _ => ' ')
  }

  ghost predicate SeparableOne(a: string) {
    a != "" && Free(a, ", ") && ')' !in a
  }

  /** Arguments that can be told apart again. */
  ghost predicate Separable(arguments: seq<string>) {
    forall i :: 0 <= i < |arguments| ==> SeparableOne(arguments[i])
  }

  ghost predicate WellFormed(c: Syscall) {
    '(' !in c.name && ')' !in c.name && Separable(c.arguments)
  }

  lemma {:induction false} JoinHasNoParenthesis(arguments: seq<string>)
    requires Separable(arguments)
    ensures ')' !in Join(arguments)
  {
    if |arguments| > 1 { JoinHasNoParenthesis(arguments[1..]); }
  }

  /** Where the first separator after `prefix` stands. */
  lemma {:induction false} NextSeparator(prefix: string, first: string, rest: string)
    requires Free(first, SEPARATOR)
    ensures Find(prefix + (first + SEPARATOR + rest), SEPARATOR, |prefix|) == |prefix| + |first|
  {
    FindShift(prefix, first + SEPARATOR + rest, SEPARATOR, 0);
    FindHere(first, SEPARATOR, rest);
  }

  lemma {:induction false} NoSeparator(prefix: string, last: string)
    requires Free(last, SEPARATOR)
    ensures Find(prefix + last, SEPARATOR, |prefix|) == NPOS
  {
    FindShift(prefix, last, SEPARATOR, 0);
    FreeIff(last, SEPARATOR);
  }

  /** Splitting undoes joining. */
  lemma {:induction false} SplitJoined(prefix: string, arguments: seq<string>)
    requires Separable(arguments)
    ensures SplitArguments(prefix + Join(arguments), |prefix|) == arguments
    decreases arguments
  {
    var joined := Join(arguments);
    var raw := prefix + joined;
    assert raw[|prefix|..] == joined;
    if |arguments| == 0 {
      NoSeparator(prefix, "");
    } else if |arguments| == 1 {
      NoSeparator(prefix, arguments[0]);
    } else {
      var first, rest := arguments[0], Join(arguments[1..]);
      SplitFirst(prefix, first, rest);
      SplitJoined(prefix + first + SEPARATOR, arguments[1..]);
      assert arguments == [first] + arguments[1..];
    }
  }

  lemma SplitFirst(prefix: string, first: string, rest: string)
    requires SeparableOne(first)
    ensures SplitArguments(prefix + (first + SEPARATOR + rest), |prefix|)
         == [first] + SplitArguments(prefix + first + SEPARATOR + rest, |prefix + first + SEPARATOR|)
  {
    var raw := prefix + (first + SEPARATOR + rest);
    NextSeparator(prefix, first, rest);
    assert raw[|prefix|..|prefix| + |first|] == first;
    assert raw == prefix + first + SEPARATOR + rest;
  }

  lemma FindChar(a: string, p: string, b: string)
    requires p != "" && p[0] !in a
    ensures Find(a + p + b, p, 0) == |a|
  {
    FindHere(a, p, b);
  }

  /** Where the parentheses of a printed call stand. */
  lemma Parentheses(name: string, joined: string, after: string)
    requires '(' !in name && ')' !in name && ')' !in joined
    ensures var line := name + "(" + joined + ")" + after;
            && Find(line, "(", 0) == |name| && Find(line, ")", 0) == |name| + 1 + |joined|
            && line[..|name|] == name && line[|name| + 1..|name| + 1 + |joined|] == joined
            && line[|name| + 1 + |joined|..] == ")" + after
  {
    var line := name + "(" + joined + ")" + after;
    assert line == name + "(" + (joined + ")" + after);
    FindChar(name, "(", joined + ")" + after);
    var head := name + "(" + joined;
    assert line == head + ")" + after;
    FindChar(head, ")", after);
  }

  lemma AfterEquals(pad: nat, returnValue: string)
    ensures var tail := ")" + (Blanks(pad) + "= " + returnValue);
            Find(tail, "= ", 0) == 1 + pad && tail[1 + pad + 2..] == returnValue
  {
    var front := ")" + Blanks(pad);
    assert ")" + (Blanks(pad) + "= " + returnValue) == front + "= " + returnValue;
    FindChar(front, "= ", returnValue);
  }

  /** Reading a printed call gives the call back. */
  lemma ProcessPrinted(c: Syscall, pad: nat)
    requires WellFormed(c)
    ensures Processed(Print(c, pad)) == Some(c)
  {
    var joined, after := Join(c.arguments), Blanks(pad) + "= " + c.returnValue;
    assert Print(c, pad) == c.name + "(" + joined + ")" + after;
    JoinHasNoParenthesis(c.arguments);
    Parentheses(c.name, joined, after);
    AfterEquals(pad, c.returnValue);
    assert Fields(Print(c, pad)) == Some((c.name, joined, c.returnValue));
    SplitJoined("", c.arguments);
    assert "" + joined == joined;
  }

  /** Whatever is split, the pieces are separable, but for closing parentheses in what was split. */
  lemma {:induction false} PiecesSeparable(raw: string, last: nat)
    requires last <= |raw| && ')' !in raw
    ensures Separable(SplitArguments(raw, last))
    decreases |raw| - last
  {
    var next := Find(raw, SEPARATOR, last);
    FindIsFirst(raw, SEPARATOR, last);
    if next == NPOS {
      PieceFree(raw, last, |raw|);
      assert raw[last..|raw|] == raw[last..];
    } else {
      PieceFree(raw, last, next);
      PiecesSeparable(raw, next + 2);
      BothSeparable(NonEmpty(raw[last..next]), SplitArguments(raw, next + 2));
      assert SplitArguments(raw, last) == NonEmpty(raw[last..next]) + SplitArguments(raw, next + 2);
    }
  }

  lemma BothSeparable(a: seq<string>, b: seq<string>)
    requires Separable(a) && Separable(b)
    ensures Separable(a + b)
  {}

  lemma PieceFree(raw: string, from: nat, to: nat)
    requires from <= to <= |raw|
    requires forall j :: from <= j < to ==> !At(raw, SEPARATOR, j)
    requires ')' !in raw
    ensures raw[from..to] != "" ==> SeparableOne(raw[from..to])
  {
    var piece := raw[from..to];
    assert forall c :: c in piece ==> c in raw;
    forall i | 0 <= i && i + 2 <= |piece| ensures !At(piece, SEPARATOR, i) {
      var j := from + i;
      assert from <= j < to && !At(raw, SEPARATOR, j);
      assert piece[i..i + 2] == raw[j..j + 2];
    }
  }

  /** Exactly the calls with separable arguments read back as they were printed. */
  lemma ReadsBackExactly(c: Syscall, pad: nat)
    requires '(' !in c.name && ')' !in c.name
    ensures Processed(Print(c, pad)) == Some(c) <==> Separable(c.arguments)
  {
    if Separable(c.arguments) {
      ProcessPrinted(c, pad);
    } else {
      var rest := Join(c.arguments) + ")" + Blanks(pad) + "= " + c.returnValue;
      assert Print(c, pad) == c.name + "(" + rest;
      AlwaysSeparable(c.name, rest);
    }
  }

  /** What ProcessLine reads always has separable arguments. */
  lemma AlwaysSeparable(name: string, rest: string)
    requires '(' !in name && ')' !in name
    ensures var r := Processed(name + "(" + rest); r.Some? ==> Separable(r.value.arguments)
  {
    var line := name + "(" + rest;
    FindChar(name, "(", rest);
    var close := Find(line, ")", 0);
    if close != NPOS {
      NotInName(name, rest, close);
      RawHasNoParenthesis(line, |name| + 1);
      assert Substr(line, |name| + 1, close - |name| - 1) == Some(line[|name| + 1..close]);
    }
  }

  lemma NotInName(name: string, rest: string, close: nat)
    requires ')' !in name && close == Find(name + "(" + rest, ")", 0)
    ensures |name| + 1 <= close
  {
    var line := name + "(" + rest;
    FindIsFirst(line, ")", 0);
    assert line[close..close + 1][0] == line[close];
    assert forall j :: 0 <= j < |name| ==> line[j] == name[j];
  }

  /** What ProcessLine splits never contains a closing parenthesis, once the line has an opening one before it. */
  lemma RawHasNoParenthesis(line: string, from: nat)
    requires from <= |line|
    ensures var close := Find(line, ")", 0);
            from <= close ==> ')' !in line[from..close] && Separable(SplitArguments(line[from..close], 0))
  {
    var close := Find(line, ")", 0);
    FindIsFirst(line, ")", 0);
    if from <= close {
      forall j | from <= j < close ensures line[j] != ')' {
        assert line[j..j + 1] == [line[j]];
        assert !At(line, ")", j);
      }
      PiecesSeparable(line[from..close], 0);
    }
  }

  // ---------------------------------------------------------------- SplitByPid

  function PidOf(line: string): int {
    ToInt(Strtoll(if Find(line, " ", 0) == NPOS then line else line[..Find(line, " ", 0)]))
  }

  function LinesOf(m: map<int, seq<string>>, pid: int): seq<string> {
    if pid in m then m[pid] else []
  }

  /** The lines of each process, in order. */
  function ByPid(lines: seq<string>): map<int, seq<string>> {
    if lines == [] then map[]
    else
      var m, line := ByPid(lines[..|lines| - 1]), lines[|lines| - 1];
      m[PidOf(line) := LinesOf(m, PidOf(line)) + [line]]
  }

  method SplitByPid(lines: seq<string>) returns (m: map<int, seq<string>>)
    ensures m == ByPid(lines)
  {
    m := map[];
    for i := 0 to |lines|
      invariant m == ByPid(lines[..i])
    {
      var pid := PidOf(lines[i]);
      assert lines[..i + 1][..i] == lines[..i];
      m := m[pid := (if pid in m then m[pid] else []) + [lines[i]]];
    }
    assert lines[..|lines|] == lines;
  }

  // ---------------------------------------------------------------- ProcessLines

  predicate Marker(text: string) {
    |text| >= 3 && (text[..3] == "---" || text[..3] == "+++")
  }

  /** What one step of the loop finds. */
  datatype Found = Thrown | Ignored | Text(text: string)

  /** A merged line without its pid. */
  function Strip(line: string): Found {
    match Substr(line, Find(line, "  ", 0) + 2, -1)
    case None => Thrown
    case Some(text) => if Marker(text) then Ignored else Text(text)
  }

  /** The text of the next call, and how many lines it takes. */
  function Next(lines: seq<string>): (r: (Found, nat))
    requires lines != []
    ensures 1 <= r.1 <= |lines|
  {
    var line := lines[0];
    var u := Find(line, UNFINISHED, 0);
    if Find(line, RESUMED, 0) != NPOS || Find(line, DETACHED, 0) != NPOS then (Ignored, 1)
    else if u == NPOS then (Strip(line), 1)
    else if |lines| == 1 then (Ignored, 1)
    else
      match Substr(lines[1], Find(lines[1], RESUMED, 0) + |RESUMED|, -1)
      case None => (Thrown, 2)
      case Some(second) => (Strip(line[..u] + second), 2)
  }

  /** The calls of one process. */
  function Calls(lines: seq<string>): Option<seq<Syscall>> {
    if lines == [] then Some([])
    else
      var (found, n) := Next(lines);
      var rest := Calls(lines[n..]);
      match found
      case Thrown => None
      case Ignored => rest
      case Text(text) =>
        if Processed(text).None? || rest.None? then None else Some([Processed(text).value] + rest.value)
  }

  /** One step of Calls, given what it finds. */
  lemma CallsOfNext(lines: seq<string>, found: Found, n: nat, rest: seq<string>)
    requires lines != [] && Next(lines) == (found, n) && lines[n..] == rest
    ensures found.Ignored? ==> Calls(lines) == Calls(rest)
    ensures found.Text? && Processed(found.text).Some? && Calls(rest).Some? ==>
      Calls(lines) == Some([Processed(found.text).value] + Calls(rest).value)
  {}

  function Prepend(calls: seq<Syscall>, rest: Option<seq<Syscall>>): Option<seq<Syscall>> {
    if rest.None? then None else Some(calls + rest.value)
  }

  lemma CallsStep(calls: seq<Syscall>, lines: seq<string>)
    requires lines != []
    ensures var (found, n) := Next(lines); var rest := Calls(lines[n..]);
            Prepend(calls, Calls(lines)) ==
              if found.Thrown? then None
              else if found.Ignored? then Prepend(calls, rest)
              else if Processed(found.text).None? then None
              else Prepend(calls + [Processed(found.text).value], rest)
  {
    var (found, n) := Next(lines);
    var rest := Calls(lines[n..]);
    if found.Text? && Processed(found.text).Some? && rest.Some? {
      var c := Processed(found.text).value;
      assert calls + ([c] + rest.value) == calls + [c] + rest.value;
    }
  }

  /** The body of the loop over lines, up to the call to ProcessLine. */
  method TakeCall(lines: seq<string>, i: nat) returns (found: Found, j: nat)
    requires i < |lines|
    ensures (found, j - i) == Next(lines[i..]) && i < j <= |lines|
  {
    var line := lines[i];
    j := i + 1;
    if Find(line, RESUMED, 0) != NPOS { return Ignored, j; }
    if Find(line, DETACHED, 0) != NPOS { return Ignored, j; }
    var u := Find(line, UNFINISHED, 0);
    if u != NPOS {
      if j >= |lines| { return Ignored, j; }
      var second := Substr(lines[j], Find(lines[j], RESUMED, 0) + |RESUMED|, -1);
      j := j + 1;
      if second.None? { return Thrown, j; }
      line := line[..u] + second.value;
    }
    var text := Substr(line, Find(line, "  ", 0) + 2, -1);
    if text.None? { return Thrown, j; }
    if Marker(text.value) { return Ignored, j; }
    found := Text(text.value);
  }

  /** The inner loop of ProcessLines. */
  method ProcessOwn(lines: seq<string>) returns (r: Option<seq<Syscall>>)
    ensures r == Calls(lines)
  {
    var calls: seq<Syscall> := [];
    var i := 0;
    assert lines[0..] == lines;
    assert Calls(lines) == Prepend(calls, Calls(lines[i..])) by {
      assert Calls(lines).Some? ==> [] + Calls(lines).value == Calls(lines).value;
    }
    while i < |lines|
      invariant 0 <= i <= |lines|
      invariant Calls(lines) == Prepend(calls, Calls(lines[i..]))
    {
      CallsStep(calls, lines[i..]);
      var found, j := TakeCall(lines, i);
      assert lines[i..][j - i..] == lines[j..];
      i := j;
      if found.Thrown? { return None; }
      if found.Text? {
        var call := ProcessLine(found.text);
        if call.None? { return None; }
        calls := calls + [call.value];
      }
    }
    assert lines[i..] == [] && calls + [] == calls;
    r := Some(calls);
  }

  // ---------------------------------------------------------------- the processes in ascending order

  lemma HasMember(keys: set<int>)
    ensures keys == {} || exists x :: x in keys
  {
    if !exists x :: x in keys { assert keys == {}; }
  }

  lemma {:induction false} HasLeast(keys: set<int>)
    requires keys != {}
    ensures exists x :: Least(x, keys)
    decreases |keys|
  {
    HasMember(keys);
    var z :| z in keys;
    var others := keys - {z};
    if others == {} {
      assert keys == {z};
      assert Least(z, keys);
    } else {
      HasLeast(others);
      var x :| Least(x, others);
      assert forall y :: y in keys ==> y == z || y in others;
      assert Least(if z < x then z else x, keys);
    }
  }

  predicate Least(x: int, keys: set<int>) {
    x in keys && forall y :: y in keys ==> x <= y
  }

  /** The order in which a std::map<int, T> is traversed. */
  function Ascending(keys: set<int>): (s: seq<int>)
    ensures forall x :: x in s <==> x in keys
    ensures forall i, j :: 0 <= i < j < |s| ==> s[i] < s[j]
    decreases |keys|
  {
    if keys == {} then []
    else
      HasLeast(keys);
      var x :| Least(x, keys);
      [x] + Ascending(keys - {x})
  }

  /** The processes that made calls, with their calls; None if any line throws. */
  function Grouped(m: map<int, seq<string>>): Option<map<int, seq<Syscall>>> {
    if forall pid :: pid in m ==> Calls(m[pid]).Some?
    then Some(map pid | pid in m && Calls(m[pid]) != Some([]) :: Calls(m[pid]).value)
    else None
  }

  predicate Placed(m: map<int, seq<string>>, calls: map<int, seq<Syscall>>, pid: int)
    requires pid in m
  {
    var own := Calls(m[pid]);
    own.Some? && if own.value == [] then pid !in calls else pid in calls && calls[pid] == own.value
  }

  lemma AllPlaced(m: map<int, seq<string>>, calls: map<int, seq<Syscall>>)
    requires forall pid :: pid in m ==> Placed(m, calls, pid)
    requires calls.Keys <= m.Keys
    ensures Grouped(m) == Some(calls)
  {
    forall pid | pid in m ensures Calls(m[pid]).Some? { assert Placed(m, calls, pid); }
    var grouped := Grouped(m).value;
    forall pid ensures pid in grouped <==> pid in calls {
      assert pid in m ==> Placed(m, calls, pid);
    }
    forall pid | pid in grouped ensures grouped[pid] == calls[pid] {
      assert Placed(m, calls, pid);
    }
    assert grouped == calls;
  }

  method ProcessLines(m: map<int, seq<string>>) returns (r: Option<map<int, seq<Syscall>>>)
    ensures r == Grouped(m)
  {
    var calls: map<int, seq<Syscall>> := map[];
    var pids := Ascending(m.Keys);
    for i := 0 to |pids|
      invariant forall j :: 0 <= j < i ==> Placed(m, calls, pids[j])
      invariant forall j :: i <= j < |pids| ==> pids[j] !in calls
      invariant calls.Keys <= m.Keys
    {
      var pid := pids[i];
      var own := ProcessOwn(m[pid]);
      if own.None? {
        assert pid in m && Calls(m[pid]).None?;
        return None;
      }
      ghost var before := calls;
      if own.value != [] { calls := calls[pid := own.value]; }
      forall j | 0 <= j < i ensures Placed(m, calls, pids[j]) {
        assert Placed(m, before, pids[j]) && pids[j] != pid;
      }
      assert Placed(m, calls, pid);
    }
    forall pid | pid in m ensures Placed(m, calls, pid) {
      assert pid in pids;
    }
    AllPlaced(m, calls);
    r := Some(calls);
  }
}
