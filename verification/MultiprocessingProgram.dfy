/**
 * The programs of the fork protocol, read off the schedule alone: in every executable schedule the
 * steps of a child, and those of the manager, are the steps of its program in order, each as often as
 * the program says.
 */
module MultiprocessingProgram {
  import opened Common
  import opened Multiprocessing
  import opened MultiprocessingInvariant

  /** The process that takes a step: a child, or None for the manager. */
  function Process(step: Step): Option<nat> {
    match step
    case Fork => None case ManagerClose => None case Read(_) => None case Eof => None case Destroy => None
    case ChildClose(i) => Some(i) case LockMutex(i) => Some(i) case UnlockMutex(i) => Some(i)
    case ArriveStart(i) => Some(i) case LeaveStart(i) => Some(i)
    case ArriveEnd(i) => Some(i) case LeaveEnd(i) => Some(i)
    case Write(i, _) => Some(i) case CloseWrite(i) => Some(i) case Exit(i) => Some(i)
  }

  /** The steps of one process, in the order of the schedule. */
  function Own(steps: seq<Step>, who: Option<nat>): seq<Step> {
    if steps == [] then []
    else
      var step := steps[|steps| - 1];
      Own(steps[..|steps| - 1], who) + if Process(step) == who then [step] else []
  }

  function Times(step: Step, n: nat): (r: seq<Step>)
    ensures |r| == n && forall k :: 0 <= k < n ==> r[k] == step
  {
    seq(n, _ => step)
  }

  // ---------------------------------------------------------------- the program of a child

  /** From its birth to its last barrier: the close loop, the set-up under the mutex, and Run between barriers. */
  function Opening(c: Config, i: nat): (r: seq<Step>)
    ensures |r| == c.N() + 6
  {
    Times(ChildClose(i), c.N())
    + [LockMutex(i), UnlockMutex(i), ArriveStart(i), LeaveStart(i), ArriveEnd(i), LeaveEnd(i)]
  }

  /** The bytes that the writes among the steps have sent. */
  function Sent(steps: seq<Step>): int {
    if steps == [] then 0
    else
      var step := steps[|steps| - 1];
      Sent(steps[..|steps| - 1]) + if step.Write? then step.k else 0
  }

  predicate IsWrite(step: Step, i: nat) {
    step.Write? && step.i == i && 1 <= step.k
  }

  /** After its opening: writes of so many bytes, and the first `ends` of closing the pipe and exiting. */
  predicate Wrote(c: Config, i: nat, own: seq<Step>, ends: nat, sent: int) {
    var n := c.N() + 6;
    && n + ends <= |own| && Opening(c, i) == own[..n]
    && (forall k :: n <= k < |own| - ends ==> IsWrite(own[k], i))
    && own[|own| - ends..] <= [CloseWrite(i), Exit(i)]
    && Sent(own) == sent
  }

  /** The steps are those of the child's program, as far as it has come. */
  ghost predicate ChildProgram(c: Config, i: nat, own: seq<Step>)
    requires i < c.N()
  {
    || own <= Opening(c, i)
    || (Wrote(c, i, own, 0, Sent(own)) && Sent(own) <= |c.payloads[i]|)
    || Wrote(c, i, own, 1, |c.payloads[i]|)
    || Wrote(c, i, own, 2, |c.payloads[i]|)
  }

  /** How many steps of its opening a child has taken. */
  function Opened(c: Config, pc: ChildPc): nat {
    match pc
    case Unborn => 0
    case Closing(p) => p
    case WantMutex => c.N()
    case SettingUp => c.N() + 1
    case SetUpDone => c.N() + 2
    case AtStart => c.N() + 3
    case Running => c.N() + 4
    case AtEnd => c.N() + 5
    case _ => c.N() + 6
  }

  /** Where a child stands after its own steps. */
  predicate Stands(c: Config, i: nat, own: seq<Step>, pc: ChildPc)
    requires i < c.N() && ChildShape(c, pc, i)
  {
    match pc
    case Sending(sent) => Wrote(c, i, own, 0, sent)
    case Closed => Wrote(c, i, own, 1, |c.payloads[i]|)
    case Exited => Wrote(c, i, own, 2, |c.payloads[i]|)
    case _ => Opened(c, pc) < c.N() + 6 && own == Opening(c, i)[..Opened(c, pc)]
  }

  lemma {:induction false} NoWrites(steps: seq<Step>)
    requires forall k :: 0 <= k < |steps| ==> !steps[k].Write?
    ensures Sent(steps) == 0
  {
    if steps != [] { NoWrites(steps[..|steps| - 1]); }
  }

  lemma SentMore(own: seq<Step>, step: Step)
    ensures Sent(own + [step]) == Sent(own) + if step.Write? then step.k else 0
  {
    assert (own + [step])[..|own|] == own;
  }

  lemma OneWrite(c: Config, i: nat, own: seq<Step>, sent: int, step: Step)
    requires Wrote(c, i, own, 0, sent) && IsWrite(step, i)
    ensures Wrote(c, i, own + [step], 0, sent + step.k)
  {
    SentMore(own, step);
    assert (own + [step])[..c.N() + 6] == own[..c.N() + 6];
  }

  lemma OneEnd(c: Config, i: nat, own: seq<Step>, ends: nat, sent: int, step: Step)
    requires Wrote(c, i, own, ends, sent) && ends < 2 && step == [CloseWrite(i), Exit(i)][ends]
    ensures Wrote(c, i, own + [step], ends + 1, sent)
  {
    SentMore(own, step);
    var more := own + [step];
    assert more[..c.N() + 6] == own[..c.N() + 6];
    assert more[|more| - (ends + 1)..] == own[|own| - ends..] + [step];
  }

  lemma OpeningDone(c: Config, i: nat)
    ensures Wrote(c, i, Opening(c, i), 0, 0)
  {
    NoWrites(Opening(c, i));
    assert Opening(c, i)[..c.N() + 6] == Opening(c, i);
  }

  /** A step of the opening is the next one of the program. */
  lemma NextOpening(c: Config, s: State, i: nat, step: Step)
    requires Shape(c, s) && Enabled(c, s, step) && i < c.N() && Process(step) == Some(i)
    requires !step.Write? && !step.CloseWrite? && !step.Exit?
    ensures var now := Opened(c, s.children[i]);
      && now < c.N() + 6 && step == Opening(c, i)[now] && !s.children[i].Unborn?
      && Opened(c, Apply(c, s, step).children[i]) == now + 1
      && (Apply(c, s, step).children[i].Sending? ==> Apply(c, s, step).children[i].sent == 0)
      && !Gone(Apply(c, s, step).children[i])
  {}

  lemma StandsOpening(c: Config, s: State, i: nat, own: seq<Step>, step: Step)
    requires Shape(c, s) && Enabled(c, s, step) && i < c.N() && Process(step) == Some(i)
    requires Stands(c, i, own, s.children[i]) && !step.Write? && !step.CloseWrite? && !step.Exit?
    ensures Stands(c, i, own + [step], Apply(c, s, step).children[i])
  {
    NextOpening(c, s, i, step);
    OneMore(Opening(c, i), Opened(c, s.children[i]));
    OpeningDone(c, i);
  }

  lemma OneMore(all: seq<Step>, n: nat)
    requires n < |all|
    ensures all[..n] + [all[n]] == all[..n + 1] && (n + 1 == |all| ==> all[..n + 1] == all)
  {}

  lemma StandsSending(c: Config, s: State, i: nat, own: seq<Step>, step: Step)
    requires Shape(c, s) && Enabled(c, s, step) && i < c.N() && Process(step) == Some(i)
    requires Stands(c, i, own, s.children[i]) && (step.Write? || step.CloseWrite? || step.Exit?)
    ensures Stands(c, i, own + [step], Apply(c, s, step).children[i])
  {
    match step
    case Write(_, k) => OneWrite(c, i, own, s.children[i].sent, step);
    case CloseWrite(_) => OneEnd(c, i, own, 0, |c.payloads[i]|, step);
    case Exit(_) => OneEnd(c, i, own, 1, |c.payloads[i]|, step);
  }

  lemma StandsOther(c: Config, s: State, i: nat, own: seq<Step>, step: Step)
    requires Shape(c, s) && Enabled(c, s, step) && i < c.N() && Process(step) != Some(i)
    requires BornAt(c, s, i) && Stands(c, i, own, s.children[i])
    ensures Stands(c, i, own, Apply(c, s, step).children[i])
  {
    if step.Fork? && s.manager.next == i {
      assert s.children[i].Unborn?;
    } else {
      assert Apply(c, s, step).children[i] == s.children[i];
    }
  }

  lemma {:induction false} ChildStands(c: Config, steps: seq<Step>, i: nat)
    requires c.Valid() && After(c, steps).Some? && i < c.N()
    ensures Stands(c, i, Own(steps, Some(i)), After(c, steps).value.children[i])
  {
    if steps != [] {
      var front, step := steps[..|steps| - 1], steps[|steps| - 1];
      ChildStands(c, front, i);
      Reachable(c, front);
      var s, own := After(c, front).value, Own(front, Some(i));
      assert BornAt(c, s, i) && own + [] == own;
      if Process(step) != Some(i) {
        StandsOther(c, s, i, own, step);
      } else if step.Write? || step.CloseWrite? || step.Exit? {
        StandsSending(c, s, i, own, step);
      } else {
        StandsOpening(c, s, i, own, step);
      }
    }
  }

  /**
   * In every executable schedule each child follows its program: it drops N write ends in its close loop,
   * locks the mutex, unlocks it, arrives at and leaves the first barrier, runs, arrives at and leaves the
   * second, writes its payload, closes its pipe and exits; no step is skipped, repeated or out of order.
   * When all processes have finished, every child has completed it, with its whole payload written.
   */
  lemma {:induction false} ChildFollowsProgram(c: Config, steps: seq<Step>, i: nat)
    requires c.Valid() && After(c, steps).Some? && i < c.N()
    ensures ChildProgram(c, i, Own(steps, Some(i)))
    ensures Final(c, After(c, steps).value) ==> Wrote(c, i, Own(steps, Some(i)), 2, |c.payloads[i]|)
  {
    ChildStands(c, steps, i);
  }

  // ---------------------------------------------------------------- the set-up, by positions in the schedule

  /** The position in the schedule of the k-th step of a process. */
  lemma {:induction false} PositionOf(steps: seq<Step>, who: Option<nat>, k: nat) returns (p: nat)
    requires k < |Own(steps, who)|
    ensures p < |steps| && steps[p] == Own(steps, who)[k] && |Own(steps[..p], who)| == k
  {
    var front := steps[..|steps| - 1];
    if k < |Own(front, who)| {
      p := PositionOf(front, who, k);
      assert steps[..p] == front[..p];
    } else {
      p := |front|;
    }
  }

  /** The steps a process has taken up to a position are the first of all its steps. */
  lemma {:induction false} OwnPrefix(steps: seq<Step>, who: Option<nat>, q: nat)
    requires q <= |steps|
    ensures Own(steps[..q], who) <= Own(steps, who)
  {
    if q == |steps| {
      assert steps[..q] == steps;
    } else {
      OwnPrefix(steps[..|steps| - 1], who, q);
      assert steps[..|steps| - 1][..q] == steps[..q];
    }
  }

  /** A step of the process itself is the one that follows those it has taken before. */
  lemma OwnAt(steps: seq<Step>, who: Option<nat>, q: nat)
    requires q < |steps| && Process(steps[q]) == who
    ensures Own(steps[..q + 1], who) == Own(steps[..q], who) + [steps[q]]
    ensures |Own(steps[..q], who)| < |Own(steps, who)| && Own(steps, who)[|Own(steps[..q], who)|] == steps[q]
  {
    assert steps[..q + 1][..q] == steps[..q] && steps[..q + 1][q] == steps[q];
    OwnPrefix(steps, who, q + 1);
  }

  lemma Earlier(steps: seq<Step>, who: Option<nat>, p: nat, q: nat)
    requires p <= q <= |steps|
    ensures |Own(steps[..p], who)| <= |Own(steps[..q], who)|
    ensures p < q && Process(steps[p]) == who ==> |Own(steps[..p], who)| < |Own(steps[..q], who)|
  {
    assert steps[..q][..p] == steps[..p];
    OwnPrefix(steps[..q], who, p);
    if p < q && Process(steps[p]) == who {
      OwnAt(steps[..q], who, p);
    }
  }

  lemma {:induction false} Prefix(c: Config, steps: seq<Step>, n: nat)
    requires c.Valid() && After(c, steps).Some? && n <= |steps|
    ensures After(c, steps[..n]).Some?
  {
    if n < |steps| {
      Prefix(c, steps[..|steps| - 1], n);
      assert steps[..|steps| - 1][..n] == steps[..n];
    } else {
      assert steps[..n] == steps;
    }
  }

  /** Every step of the program after the close loop is distinct from all the others. */
  lemma Distinct(c: Config, i: nat, own: seq<Step>, k: nat, m: nat)
    requires i < c.N() && ChildProgram(c, i, own) && c.N() <= k < c.N() + 6
    requires m < |own| && own[m] == Opening(c, i)[k]
    ensures m == k
  {
    if m < c.N() + 6 {
      assert own[m] == Opening(c, i)[m];
    } else {
      AfterOpening(c, i, own, m);
    }
  }

  lemma AfterOpening(c: Config, i: nat, own: seq<Step>, m: nat)
    requires i < c.N() && ChildProgram(c, i, own) && c.N() + 6 <= m < |own|
    ensures IsWrite(own[m], i) || own[m] == CloseWrite(i) || own[m] == Exit(i)
  {
    var ends := if Wrote(c, i, own, 0, Sent(own)) then 0 else if Wrote(c, i, own, 1, |c.payloads[i]|) then 1 else 2;
    if m >= |own| - ends { assert own[m] == own[|own| - ends..][m - (|own| - ends)]; }
  }

  /** The k-th step of the opening, after the close loop, has one position in the schedule. */
  lemma Once(c: Config, steps: seq<Step>, i: nat, k: nat) returns (p: nat)
    requires c.Valid() && After(c, steps).Some? && i < c.N() && c.N() <= k < c.N() + 6
    requires Opening(c, i)[k] in steps
    ensures p < |steps| && |Own(steps[..p], Some(i))| == k
    ensures forall q :: 0 <= q < |steps| ==> (steps[q] == Opening(c, i)[k]) == (q == p)
  {
    var who, x := Some(i), Opening(c, i)[k];
    p :| p < |steps| && steps[p] == x;
    ChildFollowsProgram(c, steps, i);
    forall q | 0 <= q < |steps| && steps[q] == x ensures |Own(steps[..q], who)| == k && q == p {
      OwnAt(steps, who, q);
      Distinct(c, i, Own(steps, who), k, |Own(steps[..q], who)|);
      OwnAt(steps, who, p);
      Distinct(c, i, Own(steps, who), k, |Own(steps[..p], who)|);
      if q < p { Earlier(steps, who, q, p); }
      if p < q { Earlier(steps, who, p, q); }
    }
  }

  /** A child that has taken its steps up to the locking, and no more, is setting up and owns the mutex. */
  lemma HoldsMutex(c: Config, steps: seq<Step>, i: nat)
    requires c.Valid() && After(c, steps).Some? && i < c.N() && |Own(steps, Some(i))| == c.N() + 1
    ensures After(c, steps).value.mutex == Some(i)
  {
    ChildStands(c, steps, i);
    Reachable(c, steps);
    assert LocksAt(c, After(c, steps).value, i);
  }

  lemma NextEnabled(c: Config, steps: seq<Step>, q: nat)
    requires c.Valid() && After(c, steps).Some? && q < |steps|
    ensures After(c, steps[..q]).Some? && Enabled(c, After(c, steps[..q]).value, steps[q])
  {
    Prefix(c, steps, q);
    Prefix(c, steps, q + 1);
    assert steps[..q + 1][..q] == steps[..q];
  }

  /** Where the k-th step of the opening stands, once a later one has been taken. */
  lemma OnceBefore(c: Config, steps: seq<Step>, i: nat, k: nat) returns (p: nat)
    requires c.Valid() && After(c, steps).Some? && i < c.N() && c.N() <= k < c.N() + 6
    requires k < |Own(steps, Some(i))|
    ensures p < |steps| && |Own(steps[..p], Some(i))| == k
    ensures forall q :: 0 <= q < |steps| ==> (steps[q] == Opening(c, i)[k]) == (q == p)
  {
    ChildFollowsProgram(c, steps, i);
    p := PositionOf(steps, Some(i), k);
    assert Own(steps, Some(i))[k] == Opening(c, i)[k];
    p := Once(c, steps, i, k);
  }

  ghost predicate OnlyAt(steps: seq<Step>, step: Step, p: nat) {
    p < |steps| && forall q :: 0 <= q < |steps| ==> (steps[q] == step) == (q == p)
  }

  /** Child i owns the mutex from step a to step b, and meanwhile neither moves itself nor is it locked again. */
  ghost predicate HeldBetween(c: Config, steps: seq<Step>, i: nat, a: nat, b: nat)
    requires c.Valid() && a <= b < |steps|
  {
    && (forall q :: a < q <= b ==> After(c, steps[..q]).Some? && After(c, steps[..q]).value.mutex == Some(i))
    && (forall q :: a < q < b ==> !steps[q].LockMutex? && Process(steps[q]) != Some(i))
  }

  lemma HeldAt(c: Config, steps: seq<Step>, i: nat, a: nat, b: nat, q: nat)
    requires c.Valid() && After(c, steps).Some? && i < c.N() && a < q <= b < |steps|
    requires Process(steps[a]) == Some(i) && |Own(steps[..a], Some(i))| == c.N()
    requires |Own(steps[..b], Some(i))| == c.N() + 1
    ensures After(c, steps[..q]).Some? && After(c, steps[..q]).value.mutex == Some(i)
    ensures q < b ==> !steps[q].LockMutex? && Process(steps[q]) != Some(i)
  {
    NextEnabled(c, steps, q);
    Earlier(steps, Some(i), a, q);
    Earlier(steps, Some(i), q, b);
    HoldsMutex(c, steps[..q], i);
  }

  /**
   * In every executable schedule, a child that has arrived at the first barrier has locked the mutex exactly
   * once, unlocked it exactly once and arrived exactly once, in that order.  In every state between the
   * first two the mutex is its own, and no child locks it.
   */
  lemma {:induction false} SetUpOnce(c: Config, steps: seq<Step>, i: nat) returns (a: nat, b: nat, d: nat)
    requires c.Valid() && After(c, steps).Some? && ArriveStart(i) in steps && i < c.N()
    ensures a < b < d
    ensures OnlyAt(steps, LockMutex(i), a) && OnlyAt(steps, UnlockMutex(i), b) && OnlyAt(steps, ArriveStart(i), d)
    ensures HeldBetween(c, steps, i, a, b)
  {
    var n, who := c.N(), Some(i);
    assert Opening(c, i)[n..] ==
      [LockMutex(i), UnlockMutex(i), ArriveStart(i), LeaveStart(i), ArriveEnd(i), LeaveEnd(i)];
    d := Once(c, steps, i, n + 2);
    OwnAt(steps, who, d);
    b := OnceBefore(c, steps, i, n + 1);
    a := OnceBefore(c, steps, i, n);
    if b <= a { Earlier(steps, who, b, a); }
    if d <= b { Earlier(steps, who, d, b); }
    forall q | a < q <= b
      ensures After(c, steps[..q]).Some? && After(c, steps[..q]).value.mutex == Some(i)
      ensures q < b ==> !steps[q].LockMutex? && Process(steps[q]) != Some(i)
    {
      HeldAt(c, steps, i, a, b, q);
    }
  }

  /** When all processes have finished, every child has run exactly once, between the two barriers. */
  lemma {:induction false} RunOnce(c: Config, steps: seq<Step>, i: nat)
    returns (a: nat, b: nat, d: nat, e: nat)
    requires c.Valid() && After(c, steps).Some? && Final(c, After(c, steps).value) && i < c.N()
    ensures a < b < d < e
    ensures OnlyAt(steps, ArriveStart(i), a) && OnlyAt(steps, LeaveStart(i), b)
    ensures OnlyAt(steps, ArriveEnd(i), d) && OnlyAt(steps, LeaveEnd(i), e)
  {
    var n, who := c.N(), Some(i);
    assert Opening(c, i)[n..] ==
      [LockMutex(i), UnlockMutex(i), ArriveStart(i), LeaveStart(i), ArriveEnd(i), LeaveEnd(i)];
    ChildFollowsProgram(c, steps, i);
    a := OnceBefore(c, steps, i, n + 2);
    b := OnceBefore(c, steps, i, n + 3);
    d := OnceBefore(c, steps, i, n + 4);
    e := OnceBefore(c, steps, i, n + 5);
    if b <= a { Earlier(steps, who, b, a); }
    if d <= b { Earlier(steps, who, d, b); }
    if e <= d { Earlier(steps, who, e, d); }
  }

  lemma Taken(c: Config, steps: seq<Step>, j: nat, k: nat)
    requires c.Valid() && After(c, steps).Some? && j < c.N() && c.N() <= k < c.N() + 6
    requires k < |Own(steps, Some(j))|
    ensures Opening(c, j)[k] in steps
  {
    var p := OnceBefore(c, steps, j, k);
    assert steps[p] == Opening(c, j)[k];
  }

  lemma OpenedSteps(c: Config, steps: seq<Step>, j: nat)
    requires c.Valid() && After(c, steps).Some? && j < c.N()
    ensures |Own(steps, Some(j))| >= Opened(c, After(c, steps).value.children[j])
  {
    ChildStands(c, steps, j);
  }

  lemma AllTaken(c: Config, before: seq<Step>, i: nat, j: nat)
    requires c.Valid() && After(c, before).Some? && i < c.N() && j < c.N()
    ensures Enabled(c, After(c, before).value, LeaveStart(i)) ==> c.N() + 2 < |Own(before, Some(j))|
    ensures Enabled(c, After(c, before).value, LeaveEnd(i)) ==> c.N() + 4 < |Own(before, Some(j))|
  {
    Reachable(c, before);
    BarrierOpen(c, After(c, before).value);
    OpenedSteps(c, before, j);
  }

  /** In every executable schedule a child leaves a barrier only after every child has arrived at it. */
  lemma {:induction false} BarriersInOrder(c: Config, steps: seq<Step>, q: nat, i: nat, j: nat)
    requires c.Valid() && After(c, steps).Some? && q < |steps| && i < c.N() && j < c.N()
    ensures steps[q] == LeaveStart(i) ==> ArriveStart(j) in steps[..q]
    ensures steps[q] == LeaveEnd(i) ==> ArriveEnd(j) in steps[..q]
  {
    NextEnabled(c, steps, q);
    AllTaken(c, steps[..q], i, j);
    assert Opening(c, j)[c.N() + 2] == ArriveStart(j) && Opening(c, j)[c.N() + 4] == ArriveEnd(j);
    if steps[q] == LeaveStart(i) {
      Taken(c, steps[..q], j, c.N() + 2);
    } else if steps[q] == LeaveEnd(i) {
      Taken(c, steps[..q], j, c.N() + 4);
    }
  }

  // ---------------------------------------------------------------- the program of the manager

  /** How many pipes the reads among the steps have drained. */
  function Drained(steps: seq<Step>): int {
    if steps == [] then 0
    else Drained(steps[..|steps| - 1]) + if steps[|steps| - 1].Eof? then 1 else 0
  }

  /** What the manager does after forking and closing: reads of at most 100 bytes, and ends of file. */
  predicate Collects(step: Step) {
    step.Eof? || (step.Read? && 1 <= step.k <= 100)
  }

  function Parenting(c: Config): (r: seq<Step>)
    ensures |r| == 2 * c.N()
  {
    Times(Fork, c.N()) + Times(ManagerClose, c.N())
  }

  predicate Collected(c: Config, own: seq<Step>, pipes: nat, ends: nat) {
    var n := 2 * c.N();
    && n + ends <= |own| && own[..n] == Parenting(c)
    && (forall k :: n <= k < |own| - ends ==> Collects(own[k]))
    && own[|own| - ends..] <= [Destroy]
    && Drained(own) == pipes
  }

  /** The steps are those of the manager's program, as far as it has come. */
  ghost predicate ManagerProgram(c: Config, own: seq<Step>) {
    || own <= Parenting(c)
    || (0 <= Drained(own) <= c.N() && Collected(c, own, Drained(own), 0))
    || Collected(c, own, c.N(), 1)
  }

  predicate ManagerStands(c: Config, own: seq<Step>, pc: ManagerPc) {
    match pc
    case Forking(next) => next < c.N() && own == Parenting(c)[..next]
    case ManagerClosing(p) => p < c.N() && own == Parenting(c)[..c.N() + p]
    case Reading(i) => i <= c.N() && Collected(c, own, i, 0)
    case Finished => Collected(c, own, c.N(), 1)
  }

  lemma {:induction false} NoneDrained(steps: seq<Step>)
    requires forall k :: 0 <= k < |steps| ==> !steps[k].Eof?
    ensures Drained(steps) == 0
  {
    if steps != [] { NoneDrained(steps[..|steps| - 1]); }
  }

  lemma ParentingDone(c: Config)
    ensures Collected(c, Parenting(c), 0, 0)
  {
    NoneDrained(Parenting(c));
    assert Parenting(c)[..2 * c.N()] == Parenting(c);
  }

  lemma CollectsMore(c: Config, own: seq<Step>, pipes: nat, step: Step)
    requires Collected(c, own, pipes, 0)
    ensures Collects(step) ==> Collected(c, own + [step], pipes + if step.Eof? then 1 else 0, 0)
    ensures step == Destroy ==> Collected(c, own + [step], pipes, 1)
  {
    var more := own + [step];
    assert more[..|own|] == own && more[..2 * c.N()] == own[..2 * c.N()];
    assert more[|more| - 1..] == [step];
  }

  lemma ForkMoves(c: Config, s: State, own: seq<Step>)
    requires Shape(c, s) && Enabled(c, s, Fork) && ManagerStands(c, own, s.manager)
    ensures ManagerStands(c, own + [Fork], Apply(c, s, Fork).manager)
  {
    OneMore(Parenting(c), s.manager.next);
  }

  lemma CloseMoves(c: Config, s: State, own: seq<Step>)
    requires Shape(c, s) && Enabled(c, s, ManagerClose) && ManagerStands(c, own, s.manager)
    ensures ManagerStands(c, own + [ManagerClose], Apply(c, s, ManagerClose).manager)
  {
    OneMore(Parenting(c), c.N() + s.manager.p);
    ParentingDone(c);
  }

  lemma CollectMoves(c: Config, s: State, own: seq<Step>, step: Step)
    requires Shape(c, s) && Enabled(c, s, step) && (step.Read? || step.Eof? || step.Destroy?)
    requires ManagerStands(c, own, s.manager)
    ensures ManagerStands(c, own + [step], Apply(c, s, step).manager)
  {
    CollectsMore(c, own, s.manager.i, step);
  }

  lemma ManagerMoves(c: Config, s: State, own: seq<Step>, step: Step)
    requires Shape(c, s) && Enabled(c, s, step) && Process(step) == None && ManagerStands(c, own, s.manager)
    ensures ManagerStands(c, own + [step], Apply(c, s, step).manager)
  {
    match step
    case Fork => ForkMoves(c, s, own);
    case ManagerClose => CloseMoves(c, s, own);
    case Read(_) => CollectMoves(c, s, own, step);
    case Eof => CollectMoves(c, s, own, step);
    case Destroy => CollectMoves(c, s, own, step);
    case _ =>
  }

  lemma ManagerStays(c: Config, s: State, step: Step)
    requires Shape(c, s) && Enabled(c, s, step) && Process(step) != None
    ensures Apply(c, s, step).manager == s.manager
  {}

  lemma {:induction false} ManagerOver(c: Config, steps: seq<Step>)
    requires c.Valid() && After(c, steps).Some?
    ensures ManagerStands(c, Own(steps, None), After(c, steps).value.manager)
  {
    if steps == [] {
      assert Parenting(c)[..0] == [];
    } else {
      var front, step := steps[..|steps| - 1], steps[|steps| - 1];
      ManagerOver(c, front);
      var s, own := After(c, front).value, Own(front, None);
      assert own + [] == own;
      if Process(step) == None {
        ManagerMoves(c, s, own, step);
      } else {
        ManagerStays(c, s, step);
      }
    }
  }

  /**
   * In every executable schedule the manager follows its program: it forks N children, then drops N write
   * ends, then reads at most 100 bytes at a time until it has met the end of all N pipes, and destroys the
   * shared objects last.  When all processes have finished it has completed it.
   */
  lemma {:induction false} ManagerFollowsProgram(c: Config, steps: seq<Step>)
    requires c.Valid() && After(c, steps).Some?
    ensures ManagerProgram(c, Own(steps, None))
    ensures Final(c, After(c, steps).value) ==> Collected(c, Own(steps, None), c.N(), 1)
  {
    ManagerOver(c, steps);
  }
}
