/**
 * How wide the column of the process numbers may be: the tracer looks for two blanks in a row, so
 * the calls of a process come back exactly when two blanks follow its number.
 */
module PidColumn {
  import opened Common
  import opened Strings
  import opened TraceText
  import opened TraceRoundTrip

  /** What stands in front of a line: the process number and some blanks. */
  function Label(pid: nat, blanks: nat): string {
    Digits(pid) + Blanks(blanks)
  }

  /** The text of a line is what follows its first two blanks in a row, or all but its first character. */
  lemma {:induction false} StripsAtBlanks(line: string, i: int)
    requires if i == -1 then Free(line, "  ") else At(line, "  ", i) && forall j :: 0 <= j < i ==> !At(line, "  ", j)
    ensures Strip(line) ==
      if i + 2 > |line| then Thrown
      else if "---" <= line[i + 2..] || "+++" <= line[i + 2..] then Ignored
      else Text(line[i + 2..])
  {
    FindIsFirst(line, "  ", 0);
    assert Find(line, "  ", 0) == i;
    if i + 2 <= |line| { MarkerIs(line[i + 2..]); }
  }

  // ---------------------------------------------------------------- more than two blanks

  /** With more than two blanks the rest of them becomes part of the name. */
  lemma ManyBlanks(pid: nat, blanks: nat, c: Syscall, pad: nat)
    requires blanks > 2 && WellFormed(c)
    ensures var found := Strip(Label(pid, blanks) + Print(c, pad));
            found.Text? && Processed(found.text) == Some(c.(name := Blanks(blanks - 2) + c.name))
  {
    var renamed := c.(name := Blanks(blanks - 2) + c.name);
    var text := Print(renamed, pad);
    assert text == Blanks(blanks - 2) + Print(c, pad);
    assert Label(pid, blanks) + Print(c, pad) == Tag(pid) + text;
    StripPid(pid, text);
    assert text[0] == ' ';
    assert text[..3][0] == ' ';
    ProcessPrinted(renamed, pad);
  }

  // ---------------------------------------------------------------- one blank

  lemma JoinFirst(first: string, rest: seq<string>)
    ensures |Join(NonEmpty(first) + rest)| <= |first| + (if rest == [] then 0 else |SEPARATOR| + |Join(rest)|)
  {
    var all := NonEmpty(first) + rest;
    if first == "" { assert all == rest; } else { assert all[0] == first && all[1..] == rest; }
  }

  /** The pieces of a text are not longer, joined again, than the text. */
  lemma {:induction false} SplitShrinks(raw: string, last: nat)
    requires last <= |raw|
    ensures |Join(SplitArguments(raw, last))| <= |raw| - last
    decreases |raw| - last
  {
    var next := Find(raw, SEPARATOR, last);
    if next == NPOS {
      JoinPiece(raw[last..]);
    } else {
      SplitShrinks(raw, next + 2);
      JoinFirst(raw[last..next], SplitArguments(raw, next + 2));
    }
  }

  lemma JoinPiece(piece: string)
    ensures Join(NonEmpty(piece)) == piece
  {}

  lemma DropPast(a: string, b: string, k: nat)
    requires k <= |b|
    ensures (a + b)[|a| + k..] == b[k..]
  {}

  lemma DropWithin(a: string, b: string, k: nat)
    requires k <= |a|
    ensures (a + b)[k..] == a[k..] + b
  {}

  /** A line whose name is cut short. */
  lemma FromName(shorter: string, c: Syscall, rest: string)
    requires '(' !in shorter && |shorter| < |c.name|
    ensures Processed(shorter + "(" + rest) != Some(c)
  {
    FindChar(shorter, "(", rest);
    assert (shorter + "(" + rest)[0..|shorter|] == shorter;
  }

  /** A line that begins among the arguments gives a name with a parenthesis, or less of the arguments. */
  lemma FromArguments(c: Syscall, rest: string, after: string)
    requires ')' !in c.name && ')' !in rest && |rest| <= |Join(c.arguments)|
    ensures Processed(rest + ")" + after) != Some(c)
  {
    var line := rest + ")" + after;
    var open := Find(line, "(", 0);
    FindChar(rest, ")", after);
    FindIsFirst(line, "(", 0);
    if open == NPOS || open >= |rest| {
      ParenthesisInName(line, |rest|, open);
    } else {
      assert Substr(line, open + 1, |rest| - open - 1) == Some(line[open + 1..|rest|]);
      SplitShrinks(line[open + 1..|rest|], 0);
    }
  }

  lemma ParenthesisInName(line: string, close: nat, open: int)
    requires close < |line| && line[close] == ')' && open == Find(line, "(", 0) && (open == NPOS || open >= close)
    ensures var name := Substr(line, 0, open); name.Some? && ')' in name.value
  {
    FindIsFirst(line, "(", 0);
    if open == NPOS {
      assert line[0..][close] == ')';
    } else {
      assert line[open..open + 1][0] == '(';
      assert line[0..open][close] == ')';
    }
  }

  lemma BehindFront(front: string, rest: string, i: nat)
    requires i < |front + rest| && (front + rest)[i] !in front
    ensures i >= |front|
  {}

  /** A line that begins after the closing parenthesis gives less of the return value. */
  lemma FromReturn(front: string, returnValue: string, k: nat)
    requires k <= |front + returnValue| && ')' !in front
    ensures var r := Processed((front + returnValue)[k..]); r.Some? ==> |r.value.returnValue| < |returnValue|
  {
    var after := front + returnValue;
    var line := after[k..];
    var close := Find(line, ")", 0);
    FindIsFirst(line, ")", 0);
    if close != NPOS {
      assert line[close..close + 1][0] == line[close] == after[k + close];
      BehindFront(front, returnValue, k + close);
    }
  }

  lemma PrintIs(c: Syscall, pad: nat)
    ensures Print(c, pad) == c.name + ("(" + Join(c.arguments) + ")" + (Blanks(pad) + "= " + c.returnValue))
    ensures ')' !in Blanks(pad) + "= "
  {}

  /** No line that lacks a part of a printed call at its front is read as that call. */
  lemma SuffixDiffers(c: Syscall, pad: nat, s: nat)
    requires WellFormed(c) && 1 <= s <= |Print(c, pad)|
    ensures Processed(Print(c, pad)[s..]) != Some(c)
  {
    PrintIs(c, pad);
    JoinHasNoParenthesis(c.arguments);
    var front := Blanks(pad) + "= ";
    SuffixOf(c, Join(c.arguments), front, "(" + Join(c.arguments) + ")" + (front + c.returnValue), s);
  }

  lemma SuffixOf(c: Syscall, joined: string, front: string, tail: string, s: nat)
    requires '(' !in c.name && ')' !in c.name && ')' !in front && joined == Join(c.arguments) && ')' !in joined
    requires tail == "(" + joined + ")" + (front + c.returnValue) && 1 <= s <= |c.name| + |tail|
    ensures Processed((c.name + tail)[s..]) != Some(c)
  {
    if s <= |c.name| {
      SuffixInName(c, joined, front + c.returnValue, tail, s);
    } else {
      var k := s - |c.name|;
      SuffixAfterName(c, joined, front, tail, k);
      DropPast(c.name, tail, k);
    }
  }

  lemma SuffixInName(c: Syscall, joined: string, after: string, tail: string, s: nat)
    requires '(' !in c.name && 1 <= s <= |c.name| && tail == "(" + joined + ")" + after
    ensures Processed((c.name + tail)[s..]) != Some(c)
  {
    DropWithin(c.name, tail, s);
    BeforeTail(c.name[s..], joined, after);
    FromName(c.name[s..], c, joined + ")" + after);
  }

  lemma BeforeTail(a: string, joined: string, after: string)
    ensures a + ("(" + joined + ")" + after) == a + "(" + (joined + ")" + after)
  {}

  lemma SuffixAfterName(c: Syscall, joined: string, front: string, tail: string, s: nat)
    requires ')' !in c.name && ')' !in front && joined == Join(c.arguments) && ')' !in joined
    requires tail == "(" + joined + ")" + (front + c.returnValue) && 1 <= s <= |tail|
    ensures Processed(tail[s..]) != Some(c)
  {
    if s <= 1 + |joined| {
      DropParenthesis(joined, front + c.returnValue, s);
      FromArguments(c, joined[s - 1..], front + c.returnValue);
    } else {
      SuffixInReturn(c, "(" + joined + ")", front, tail, s - 2 - |joined|);
    }
  }

  lemma SuffixInReturn(c: Syscall, head: string, front: string, tail: string, k: nat)
    requires ')' !in front && tail == head + (front + c.returnValue) && |head| + k <= |tail|
    ensures Processed(tail[|head| + k..]) != Some(c)
  {
    DropPast(head, front + c.returnValue, k);
    FromReturn(front, c.returnValue, k);
  }

  lemma DropParenthesis(joined: string, after: string, s: nat)
    requires 1 <= s <= 1 + |joined|
    ensures ("(" + joined + ")" + after)[s..] == joined[s - 1..] + ")" + after
  {}

  /** With one blank, the number loses its first digit and stays in the name, or more of the call is lost. */
  lemma OneBlank(pid: nat, c: Syscall, pad: nat)
    requires WellFormed(c)
    ensures var found := Strip(Label(pid, 1) + Print(c, pad)); found.Text? ==> Processed(found.text) != Some(c)
  {
    assert Label(pid, 1) == Digits(pid) + " ";
    var s := StripOne(Digits(pid), Digits(pid) + " ", Print(c, pad));
    DigitsStay(Digits(pid), c, pad);
    if 1 <= s <= |Print(c, pad)| { SuffixDiffers(c, pad, s); }
  }

  /** What is left of the line then. */
  lemma StripOne(digits: string, head: string, text: string) returns (s: int)
    requires digits != "" && head == digits + " " && forall x :: x in digits ==> IsDigit(x)
    ensures var found := Strip(head + text);
            found.Text? ==> found.text == digits[1..] + " " + text || (1 <= s <= |text| && found.text == text[s..])
  {
    var j := Find(head + text, "  ", 0);
    if j == NPOS {
      s := 0;
      DropWithin(head, text, 1);
      assert head[1..] == digits[1..] + " ";
    } else {
      BlanksBehind(digits, head, text, j);
      s := j + 2 - |head|;
      DropPast(head, text, s);
    }
  }

  lemma DigitsStay(digits: string, c: Syscall, pad: nat)
    requires WellFormed(c) && digits != "" && forall x :: x in digits ==> IsDigit(x)
    ensures Processed(digits[1..] + " " + Print(c, pad)) != Some(c)
  {
    var renamed := c.(name := digits[1..] + " " + c.name);
    assert digits[1..] + " " + Print(c, pad) == Print(renamed, pad);
    assert forall x :: x in digits[1..] ==> x in digits;
    ProcessPrinted(renamed, pad);
  }

  /** Two blanks in a row begin with the blank after the digits, or later. */
  lemma BlanksBehind(digits: string, head: string, text: string, j: nat)
    requires head == digits + " " && forall x :: x in digits ==> IsDigit(x)
    requires j == Find(head + text, "  ", 0)
    ensures |digits| <= j && j + 2 <= |head + text|
  {
    var line := head + text;
    FindIsFirst(line, "  ", 0);
    assert line[j..j + 2][0] == line[j] == ' ';
    assert line == digits + (" " + text);
    BehindFront(digits, " " + text, j);
  }

  // ---------------------------------------------------------------- a whole process

  ghost predicate AllCalls(es: seq<Shown>) {
    forall i :: 0 <= i < |es| ==> !es[i].Other?
  }

  /** Whatever the column, no more calls come back than there were. */
  lemma {:induction false} NoMoreCalls(column: string, es: seq<Shown>)
    requires AllGood(es) && AllCalls(es) && PidLike(column)
    ensures |CallsOf(es)| == |es|
    ensures var r := Calls(Labelled(column, AllTexts(es))); r.Some? ==> |r.value| <= |es|
    decreases es
  {
    if es != [] {
      assert Good(es[0]) && !es[0].Other?;
      var more := Labelled(column, AllTexts(es[1..]));
      NoMoreCalls(column, es[1..]);
      LabelledAppend(column, Texts(es[0]), AllTexts(es[1..]));
      NextCall(column, es[0], more);
      Dropped(Labelled(column, Texts(es[0])), more);
    }
  }

  lemma LabelledAppend(column: string, a: seq<string>, b: seq<string>)
    ensures Labelled(column, a + b) == Labelled(column, a) + Labelled(column, b)
  {}

  /** One step of the loop adds one call at most. */
  lemma Dropped(own: seq<string>, more: seq<string>)
    requires own != [] && Next(own + more).1 == |own|
    ensures var r := Calls(own + more); r.Some? ==> Calls(more).Some? && |r.value| <= 1 + |Calls(more).value|
    ensures Next(own + more).0.Ignored? ==> Calls(own + more) == Calls(more)
  {
    assert (own + more)[|own|..] == more;
  }

  lemma FirstDiffers(lines: seq<string>, c: Syscall, rest: seq<Syscall>)
    requires lines != [] && !Next(lines).0.Ignored?
    requires Next(lines).0.Text? ==> Processed(Next(lines).0.text) != Some(c)
    ensures Calls(lines) != Some([c] + rest)
  {
    if Calls(lines).Some? { assert Calls(lines).value[0] == Processed(Next(lines).0.text).value; }
  }

  lemma NotRecovered(pid: nat, blanks: nat, es: seq<Shown>)
    requires AllGood(es) && AllCalls(es) && blanks >= 1 && blanks != 2 && es != []
    ensures Calls(Labelled(Label(pid, blanks), AllTexts(es))) != Some(CallsOf(es))
  {
    var column, e := Label(pid, blanks), es[0];
    assert Good(e) && !e.Other?;
    var own, more := Labelled(column, Texts(e)), Labelled(column, AllTexts(es[1..]));
    LabelledAppend(column, Texts(e), AllTexts(es[1..]));
    NextCall(column, e, more);
    if blanks == 1 { OneBlank(pid, e.call, e.pad); } else { ManyBlanks(pid, blanks, e.call, e.pad); }
    if Next(own + more).0.Ignored? {
      Dropped(own, more);
      NoMoreCalls(column, es);
      NoMoreCalls(column, es[1..]);
    } else {
      FirstDiffers(own + more, e.call, CallsOf(es[1..]));
    }
  }

  /**
   * The calls of a process, whole or cut in two, are recovered if and only if exactly two blanks
   * follow its number; with any other width of at least one, not even the first call is.
   */
  lemma RecoveredExactly(pid: nat, blanks: nat, es: seq<Shown>)
    requires AllGood(es) && AllCalls(es) && blanks >= 1
    ensures Calls(Labelled(Label(pid, blanks), AllTexts(es))) == Some(CallsOf(es)) <==> blanks == 2 || es == []
  {
    if blanks == 2 {
      assert Label(pid, 2) == Tag(pid) && AllTexts(es) + [] == AllTexts(es);
      ProcessRecovered(pid, es, []);
    } else if es != [] {
      NotRecovered(pid, blanks, es);
    }
  }
}
