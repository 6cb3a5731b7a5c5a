/**
 * The fork protocol ends: every step of every schedule lowers a measure, and until all processes
 * have finished some process can move.
 */
module MultiprocessingProgress {
  import opened Common
  import opened Multiprocessing
  import opened MultiprocessingInvariant

  function ManagerRank(c: Config, m: ManagerPc): nat {
    match m
    case Forking(k) => if k <= c.N() then 2 * c.N() - k + 2 + c.N() else 0
    case ManagerClosing(p) => if p <= c.N() then c.N() - p + 2 + c.N() else 0
    case Reading(i) => if i <= c.N() then c.N() - i + 1 else 0
    case Finished => 0
  }

  function PhaseRank(c: Config, pc: ChildPc): nat {
    match pc
    case Unborn => c.N() + 11
    case Closing(p) => if p <= c.N() then c.N() - p + 10 else 0
    case WantMutex => 9
    case SettingUp => 8
    case SetUpDone => 7
    case AtStart => 6
    case Running => 5
    case AtEnd => 4
    case Sending(_) => 3
    case Closed => 1
    case Exited => 0
  }

  /** A byte costs two steps before it is written and one before it is read. */
  function ChildRank(c: Config, s: State, i: nat): nat
    requires Shape(c, s) && i < c.N()
  {
    PhaseRank(c, s.children[i]) + 2 * |Unsent(c, s.children[i], i)| + |s.pipes[i]|
  }

  function Ranks(c: Config, s: State): seq<nat>
    requires Shape(c, s)
  {
    seq(c.N(), i requires 0 <= i < c.N() => ChildRank(c, s, i))
  }

  function Measure(c: Config, s: State): nat
    requires Shape(c, s)
  {
    ManagerRank(c, s.manager) + Sum(Ranks(c, s))
  }

  lemma OthersKeepRank(c: Config, s: State, step: Step, j: nat)
    requires c.Valid() && Shape(c, s) && Enabled(c, s, step) && j < c.N() && j != Actor(s, step)
    ensures Shape(c, Apply(c, s, step)) && ChildRank(c, Apply(c, s, step), j) == ChildRank(c, s, j)
  {}

  /** The steps that move the manager on. */
  lemma ManagerRankFalls(c: Config, s: State, step: Step)
    requires c.Valid() && Shape(c, s) && Enabled(c, s, step)
    requires (step.Fork? || step.ManagerClose? || step.Eof? || step.Destroy?)
    requires step.Fork? ==> s.children[s.manager.next].Unborn?
    ensures var t := Apply(c, s, step); var i := Actor(s, step);
            && i < c.N()
            && ManagerRank(c, t.manager) + ChildRank(c, t, i) < ManagerRank(c, s.manager) + ChildRank(c, s, i)
  {}

  /** All other steps move a child or a byte on. */
  lemma ChildRankFalls(c: Config, s: State, step: Step)
    requires Shape(c, s) && Enabled(c, s, step) && !(step.Fork? || step.ManagerClose? || step.Eof? || step.Destroy?)
    ensures var t := Apply(c, s, step); var i := Actor(s, step);
            i < c.N() && t.manager == s.manager && ChildRank(c, t, i) < ChildRank(c, s, i)
  {}

  lemma ActorRankFalls(c: Config, s: State, step: Step)
    requires c.Valid() && Inv(c, s) && Enabled(c, s, step)
    ensures var t := Apply(c, s, step); var i := Actor(s, step);
            && i < c.N()
            && ManagerRank(c, t.manager) + ChildRank(c, t, i) < ManagerRank(c, s.manager) + ChildRank(c, s, i)
  {
    if step.Fork? || step.ManagerClose? || step.Eof? || step.Destroy? {
      assert BornAt(c, s, Actor(s, step));
      ManagerRankFalls(c, s, step);
    } else {
      ChildRankFalls(c, s, step);
    }
  }

  lemma MeasureFalls(c: Config, s: State, step: Step)
    requires c.Valid() && Inv(c, s) && Enabled(c, s, step)
    ensures Measure(c, Apply(c, s, step)) < Measure(c, s)
  {
    var t := Apply(c, s, step);
    ActorRankFalls(c, s, step);
    forall j: nat | j < c.N() && j != Actor(s, step) ensures ChildRank(c, t, j) == ChildRank(c, s, j) {
      OthersKeepRank(c, s, step, j);
    }
    SumChange(Ranks(c, s), Ranks(c, t), Actor(s, step));
  }

  /** Every run is finite: its length is bounded by the measure of the initial state. */
  lemma {:induction false} Terminates(c: Config, steps: seq<Step>)
    requires c.Valid() && After(c, steps).Some?
    ensures |steps| + Measure(c, After(c, steps).value) <= Measure(c, Init(c))
  {
    if steps != [] {
      var front := steps[..|steps| - 1];
      Terminates(c, front);
      Reachable(c, front);
      MeasureFalls(c, After(c, front).value, steps[|steps| - 1]);
    }
  }

  /** A process that can move, in any state that is not final. */
  lemma Progress(c: Config, s: State) returns (step: Step)
    requires c.Valid() && Inv(c, s) && !Final(c, s)
    ensures Enabled(c, s, step)
  {
    if s.manager.Forking? { return Fork; }
    if s.manager.ManagerClosing? { return ManagerClose; }
    if s.manager == Reading(c.N()) { return Destroy; }
    BarrierOpen(c, s);
    FullBarriers(c, s);
    if i: nat :| i < c.N() && s.children[i].Closing? { return ChildClose(i); }
    if i: nat :| i < c.N() && s.children[i].SettingUp? { return UnlockMutex(i); }
    if i: nat :| i < c.N() && s.children[i].WantMutex? {
      forall x: nat ensures s.mutex != Some(x) { assert LocksAt(c, s, x); }
      return LockMutex(i);
    }
    if i: nat :| i < c.N() && s.children[i].SetUpDone? { return ArriveStart(i); }
    forall i: nat | i < c.N() ensures PastStart(s.children[i]) { assert BornAt(c, s, i); }
    if i: nat :| i < c.N() && s.children[i].AtStart? { return LeaveStart(i); }
    if i: nat :| i < c.N() && s.children[i].Running? { return ArriveEnd(i); }
    if i: nat :| i < c.N() && s.children[i].AtEnd? { return LeaveEnd(i); }
    if i: nat :| i < c.N() && s.children[i].Closed? { return Exit(i); }
    forall i: nat | i < c.N() && s.manager.Finished? ensures s.children[i].Exited? { assert PipeAt(c, s, i); }
    var i := s.manager.i;
    assert PipeAt(c, s, i);
    if s.pipes[i] != [] { return Read(1); }
    if s.children[i].Sending? {
      return if s.children[i].sent == |c.payloads[i]| then CloseWrite(i) else Write(i, 1);
    }
    forall x ensures x !in s.writers[i] { assert WritersAt(c, s, i, x); }
    return Eof;
  }

  /** Once every child has arrived at a barrier, it is open. */
  lemma FullBarriers(c: Config, s: State)
    requires Inv(c, s)
    ensures (forall i: nat :: i < c.N() ==> PastStart(s.children[i])) ==> |s.atStart| == c.N()
    ensures (forall i: nat :: i < c.N() ==> PastRun(s.children[i])) ==> |s.atEnd| == c.N()
  {
    forall i: nat
      ensures i in s.atStart <==> i < c.N() && PastStart(s.children[i])
      ensures i in s.atEnd <==> i < c.N() && PastRun(s.children[i])
    {
      assert LocksAt(c, s, i);
    }
    if forall i: nat :: i < c.N() ==> PastStart(s.children[i]) { FullSetSize(s.atStart, c.N()); }
    if forall i: nat :: i < c.N() ==> PastRun(s.children[i]) { FullSetSize(s.atEnd, c.N()); }
  }

  lemma FinalIsStuck(c: Config, s: State, step: Step)
    requires Shape(c, s) && Final(c, s)
    ensures !Enabled(c, s, step)
  {}

  /**
   * No deadlock.  A run can be extended exactly until every process has finished, and then the
   * manager has collected every payload, in child order.  With Terminates: whatever the schedule,
   * the protocol ends with all the results.
   */
  lemma {:induction false} NoDeadlock(c: Config, steps: seq<Step>)
    requires c.Valid() && After(c, steps).Some?
    ensures var s := After(c, steps).value;
            && ((exists step :: Enabled(c, s, step)) <==> !Final(c, s))
            && (Final(c, s) ==> s.results == c.payloads)
  {
    Reachable(c, steps);
    var s := After(c, steps).value;
    if !Final(c, s) {
      var step := Progress(c, s);
    } else {
      forall step ensures !Enabled(c, s, step) { FinalIsStuck(c, s, step); }
      forall p: nat | p < c.N() ensures s.results[p] == c.payloads[p] {
        assert PipeAt(c, s, p);
      }
    }
  }
}
