/**
 * The thread variant of `multithreading`: in each of `repeat` rounds the owner sets up every
 * child, spawns one thread per child, joins them in order and tears every child down.  The
 * threads meet at one barrier before they run.  A run is any interleaving of owner and threads.
 */
module Multithreading {
  import opened Common

  datatype Config = Config(n: nat, repeat: nat)

  datatype OwnerPc =
    | SettingUp(k: nat) | Spawning(k: nat) | Joining(k: nat) | TearingDown(k: nat) | Finished

  datatype ThreadPc = Absent | Spawned | AtBarrier | Running | Done | Joined

  /** How often each part of a child has happened so far. */
  datatype Counts = Counts(setUps: nat, starts: nat, ends: nat, tearDowns: nat)

  datatype State = State(
    round: nat,
    owner: OwnerPc,
    threads: seq<ThreadPc>,
    arrived: set<nat>,
    counts: seq<Counts>)

  datatype Step =
    | SetUp | Spawn | Join | TearDown
    | NextPhase              // the owner leaves a loop
    | Arrive(i: nat) | Leave(i: nat) | End(i: nat)

  function Init(c: Config): State {
    State(0, if c.repeat == 0 then Finished else SettingUp(0),
          seq(c.n, _ => Absent), {}, seq(c.n, _ => Counts(0, 0, 0, 0)))
  }

  predicate Shape(c: Config, s: State) {
    && |s.threads| == |s.counts| == c.n
    && (s.owner.Finished? || (s.owner.k <= c.n && s.round < c.repeat))
  }

  predicate Enabled(c: Config, s: State, step: Step)
    requires Shape(c, s)
  {
    match step
    case SetUp => s.owner.SettingUp? && s.owner.k < c.n
    case Spawn => s.owner.Spawning? && s.owner.k < c.n
    case Join => s.owner.Joining? && s.owner.k < c.n && s.threads[s.owner.k].Done?
    case TearDown => s.owner.TearingDown? && s.owner.k < c.n
    case NextPhase => !s.owner.Finished? && s.owner.k == c.n
    case Arrive(i) => i < c.n && s.threads[i].Spawned?
    case Leave(i) => i < c.n && s.threads[i].AtBarrier? && |s.arrived| == c.n
    case End(i) => i < c.n && s.threads[i].Running?
  }

  function Apply(c: Config, s: State, step: Step): (t: State)
    requires Shape(c, s) && Enabled(c, s, step)
    ensures Shape(c, t)
  {
    match step
    case SetUp =>
      var k := s.owner.k; var x := s.counts[k];
      s.(owner := SettingUp(k + 1), counts := s.counts[k := x.(setUps := x.setUps + 1)])
    case Spawn => s.(owner := Spawning(s.owner.k + 1), threads := s.threads[s.owner.k := Spawned])
    case Join => s.(owner := Joining(s.owner.k + 1), threads := s.threads[s.owner.k := Joined])
    case TearDown =>
      var k := s.owner.k; var x := s.counts[k];
      s.(owner := TearingDown(k + 1), counts := s.counts[k := x.(tearDowns := x.tearDowns + 1)])
    case NextPhase =>
      // threads_.clear() and pthread_barrier_init
      if s.owner.SettingUp? then s.(owner := Spawning(0), threads := seq(c.n, _ => Absent), arrived := {})
      else if s.owner.Spawning? then s.(owner := Joining(0))
      else if s.owner.Joining? then s.(owner := TearingDown(0))
      else s.(round := s.round + 1, owner := if s.round + 1 < c.repeat then SettingUp(0) else Finished)
    case Arrive(i) => s.(threads := s.threads[i := AtBarrier], arrived := s.arrived + {i})
    case Leave(i) =>
      var x := s.counts[i];
      s.(threads := s.threads[i := Running], counts := s.counts[i := x.(starts := x.starts + 1)])
    case End(i) =>
      var x := s.counts[i];
      s.(threads := s.threads[i := Done], counts := s.counts[i := x.(ends := x.ends + 1)])
  }

  function After(c: Config, steps: seq<Step>): (r: Option<State>)
    ensures r.Some? ==> Shape(c, r.value)
  {
    if steps == [] then Some(Init(c))
    else
      var step := steps[|steps| - 1];
      match After(c, steps[..|steps| - 1])
      case None => None
      case Some(s) => if Enabled(c, s, step) then Some(Apply(c, s, step)) else None
  }

  predicate Started(pc: ThreadPc) { pc.Running? || Ended(pc) }

  predicate Ended(pc: ThreadPc) { pc.Done? || pc.Joined? }

  predicate Live(pc: ThreadPc) { !pc.Absent? && !pc.Joined? }

  /** Outside the spawn..join part of a round the thread list is left over from the last round. */
  predicate InFlight(o: OwnerPc) { o.Spawning? || o.Joining? || o.TearingDown? }

  function One(b: bool): nat { if b then 1 else 0 }

  ghost predicate ThreadAt(c: Config, s: State, i: nat)
    requires Shape(c, s) && i < c.n
  {
    var pc, x := s.threads[i], s.counts[i];
    && x.setUps == s.round + One(InFlight(s.owner) || (s.owner.SettingUp? && i < s.owner.k))
    && x.starts == s.round + One(InFlight(s.owner) && Started(pc))
    && x.ends == s.round + One(InFlight(s.owner) && Ended(pc))
    && x.tearDowns == s.round + One(s.owner.TearingDown? && i < s.owner.k)
    && (match s.owner
        case Spawning(k) => if i < k then Live(pc) else pc.Absent?
        case Joining(k) => if i < k then pc.Joined? else Live(pc)
        case TearingDown(_) => pc.Joined?
        case _ => pc == if s.round == 0 then Absent else Joined)
  }

  ghost predicate BarrierAt(c: Config, s: State, i: nat)
    requires Shape(c, s)
  {
    && (i in s.arrived <==> i < c.n && (s.threads[i].AtBarrier? || Started(s.threads[i])))
    && (i < c.n && Started(s.threads[i]) ==> |s.arrived| == c.n)
  }

  ghost predicate Inv(c: Config, s: State) {
    && Shape(c, s)
    && (s.owner.Finished? ==> s.round == c.repeat)
    && (forall i: nat :: i < c.n ==> ThreadAt(c, s, i))
    && (forall i: nat :: BarrierAt(c, s, i))
  }

  /** The owner's steps. */
  lemma ThreadOwnerStep(c: Config, s: State, step: Step, i: nat)
    requires Shape(c, s) && Enabled(c, s, step) && i < c.n && ThreadAt(c, s, i)
    requires step.SetUp? || step.Spawn? || step.Join? || step.TearDown?
    ensures ThreadAt(c, Apply(c, s, step), i)
  {}

  lemma ThreadPhaseStep(c: Config, s: State, i: nat)
    requires Shape(c, s) && Enabled(c, s, NextPhase) && i < c.n && ThreadAt(c, s, i)
    ensures ThreadAt(c, Apply(c, s, NextPhase), i)
  {}

  /** The threads' steps. */
  lemma ThreadOwnStep(c: Config, s: State, step: Step, i: nat)
    requires Shape(c, s) && Enabled(c, s, step) && i < c.n && ThreadAt(c, s, i)
    requires step.Arrive? || step.Leave? || step.End?
    ensures ThreadAt(c, Apply(c, s, step), i)
  {}

  lemma ThreadStep(c: Config, s: State, step: Step, i: nat)
    requires Inv(c, s) && Enabled(c, s, step) && i < c.n
    ensures ThreadAt(c, Apply(c, s, step), i)
  {
    assert ThreadAt(c, s, i);
    if step.NextPhase? {
      ThreadPhaseStep(c, s, i);
    } else if step.Arrive? || step.Leave? || step.End? {
      ThreadOwnStep(c, s, step, i);
    } else {
      ThreadOwnerStep(c, s, step, i);
    }
  }

  lemma BarrierOpen(c: Config, s: State)
    requires Inv(c, s)
    ensures |s.arrived| == c.n <==> forall i: nat :: i < c.n ==> i in s.arrived
  {
    forall i: nat ensures i in s.arrived ==> i < c.n { assert BarrierAt(c, s, i); }
    FullSet(s.arrived, c.n);
    if forall i: nat :: i < c.n ==> i in s.arrived { FullSetSize(s.arrived, c.n); }
  }

  lemma BarrierStep(c: Config, s: State, step: Step, i: nat)
    requires Inv(c, s) && Enabled(c, s, step)
    ensures BarrierAt(c, Apply(c, s, step), i)
  {
    assert BarrierAt(c, s, i) && (i < c.n ==> ThreadAt(c, s, i));
    match step
    case Spawn => assert ThreadAt(c, s, s.owner.k) && BarrierAt(c, s, s.owner.k);
    case Join => assert BarrierAt(c, s, s.owner.k);
    case Arrive(j) => assert BarrierAt(c, s, j); BarrierOpen(c, s);
    case _ =>
  }

  lemma {:induction false} Reachable(c: Config, steps: seq<Step>)
    requires After(c, steps).Some?
    ensures Inv(c, After(c, steps).value)
  {
    if steps != [] {
      var front, step := steps[..|steps| - 1], steps[|steps| - 1];
      Reachable(c, front);
      var s := After(c, front).value;
      forall i: nat | i < c.n ensures ThreadAt(c, Apply(c, s, step), i) { ThreadStep(c, s, step, i); }
      forall i: nat ensures BarrierAt(c, Apply(c, s, step), i) { BarrierStep(c, s, step, i); }
    }
  }

  /**
   * Round by round, over every run: while some thread i of round r runs, every child j has been
   * set up r + 1 times and torn down r times and its thread has reached the barrier; once any
   * child has been torn down in round r, every thread of the round has ended and been joined.
   */
  lemma PhaseSafety(c: Config, steps: seq<Step>, i: nat, j: nat)
    requires After(c, steps).Some? && i < c.n && j < c.n
    ensures var s := After(c, steps).value;
            && (s.threads[i].Running? ==>
                  && s.counts[j].setUps == s.round + 1 && s.counts[j].tearDowns == s.round
                  && j in s.arrived)
            && (s.counts[i].tearDowns > s.round ==> s.threads[j].Joined? && s.counts[j].ends == s.round + 1)
            && s.counts[j].tearDowns <= s.counts[j].ends <= s.counts[j].starts <= s.counts[j].setUps
  {
    Reachable(c, steps);
    var s := After(c, steps).value;
    assert ThreadAt(c, s, i) && ThreadAt(c, s, j) && BarrierAt(c, s, i);
    BarrierOpen(c, s);
  }

  // ---------------------------------------------------------------- progress

  function ThreadRank(pc: ThreadPc): nat {
    match pc case Absent => 4 case Spawned => 3 case AtBarrier => 2 case Running => 1 case _ => 0
  }

  /** What is left of the current round for the owner. */
  function OwnerRank(c: Config, s: State): nat
    requires Shape(c, s)
  {
    var step := c.n + 1;
    match s.owner
    case SettingUp(k) => 3 * step + 4 * c.n + step - k
    case Spawning(k) => 2 * step + step - k
    case Joining(k) => step + step - k
    case TearingDown(k) => step - k
    case Finished => 0
  }

  /** Before the spawn loop the old thread list does not count. */
  function Ranks(c: Config, s: State): seq<nat>
    requires Shape(c, s)
  {
    seq(c.n, i requires 0 <= i < c.n => if InFlight(s.owner) then ThreadRank(s.threads[i]) else 0)
  }

  function RoundsLeft(c: Config, s: State): nat
    requires Shape(c, s)
  {
    if s.owner.Finished? then 0 else c.repeat - 1 - s.round
  }

  function Measure(c: Config, s: State): nat
    requires Shape(c, s)
  {
    RoundsLeft(c, s) * (8 * c.n + 5) + OwnerRank(c, s) + Sum(Ranks(c, s))
  }

  lemma {:induction false} SumOfConstant(s: seq<nat>, v: nat)
    requires forall i :: 0 <= i < |s| ==> s[i] == v
    ensures Sum(s) == v * |s|
  {
    if s != [] {
      SumOfConstant(s[..|s| - 1], v);
      assert v * |s| == v * (|s| - 1) + v;
    }
  }

  lemma ThreadMoves(c: Config, s: State, t: State, i: nat)
    requires Shape(c, s) && Shape(c, t) && i < c.n && InFlight(s.owner) && InFlight(t.owner)
    requires forall j :: 0 <= j < c.n && j != i ==> s.threads[j] == t.threads[j]
    ensures Sum(Ranks(c, s)) + ThreadRank(t.threads[i]) == Sum(Ranks(c, t)) + ThreadRank(s.threads[i])
  {
    SumChange(Ranks(c, s), Ranks(c, t), i);
  }

  lemma PhaseEnds(c: Config, s: State)
    requires Inv(c, s) && Enabled(c, s, NextPhase)
    ensures Measure(c, Apply(c, s, NextPhase)) < Measure(c, s)
  {
    var t := Apply(c, s, NextPhase);
    match s.owner
    case SettingUp(_) =>
      SumOfConstant(Ranks(c, s), 0);
      forall i | 0 <= i < c.n ensures Ranks(c, t)[i] == 4 { assert t.threads[i] == Absent; }
      SumOfConstant(Ranks(c, t), 4);
    case TearingDown(_) =>
      forall i: nat | i < c.n ensures s.threads[i].Joined? { assert ThreadAt(c, s, i); }
      SumOfConstant(Ranks(c, s), 0);
      SumOfConstant(Ranks(c, t), 0);
      if !t.owner.Finished? {
        assert RoundsLeft(c, s) * (8 * c.n + 5) == RoundsLeft(c, t) * (8 * c.n + 5) + (8 * c.n + 5);
      }
    case Spawning(_) => assert Ranks(c, t) == Ranks(c, s);
    case Joining(_) => assert Ranks(c, t) == Ranks(c, s);
    case Finished =>
  }

  /** A step of thread i, or of the owner on it. */
  lemma ThreadMeasureFalls(c: Config, s: State, step: Step, i: nat)
    requires Shape(c, s) && Enabled(c, s, step) && i < c.n && ThreadAt(c, s, i)
    requires (step.Spawn? && i == s.owner.k) || (step.Join? && i == s.owner.k)
          || step == Arrive(i) || step == Leave(i) || step == End(i)
    ensures Measure(c, Apply(c, s, step)) < Measure(c, s)
  {
    ThreadMoves(c, s, Apply(c, s, step), i);
  }

  lemma MeasureFalls(c: Config, s: State, step: Step)
    requires Inv(c, s) && Enabled(c, s, step)
    ensures Measure(c, Apply(c, s, step)) < Measure(c, s)
  {
    match step
    case SetUp => assert Ranks(c, Apply(c, s, step)) == Ranks(c, s);
    case TearDown => assert Ranks(c, Apply(c, s, step)) == Ranks(c, s);
    case Spawn => ThreadMeasureFalls(c, s, step, s.owner.k);
    case Join => ThreadMeasureFalls(c, s, step, s.owner.k);
    case Arrive(i) => ThreadMeasureFalls(c, s, step, i);
    case Leave(i) => ThreadMeasureFalls(c, s, step, i);
    case End(i) => ThreadMeasureFalls(c, s, step, i);
    case NextPhase => PhaseEnds(c, s);
  }

  lemma {:induction false} Terminates(c: Config, steps: seq<Step>)
    requires After(c, steps).Some?
    ensures |steps| + Measure(c, After(c, steps).value) <= Measure(c, Init(c))
  {
    if steps != [] {
      var front := steps[..|steps| - 1];
      Terminates(c, front);
      Reachable(c, front);
      MeasureFalls(c, After(c, front).value, steps[|steps| - 1]);
    }
  }

  /** The owner's join loop never waits for a thread that cannot finish. */
  lemma NoDeadlock(c: Config, steps: seq<Step>)
    requires After(c, steps).Some?
    ensures var s := After(c, steps).value;
            && ((exists step :: Enabled(c, s, step)) <==> !s.owner.Finished?)
            && (s.owner.Finished? ==>
                  forall i :: 0 <= i < c.n ==> s.counts[i] == Counts(c.repeat, c.repeat, c.repeat, c.repeat))
  {
    Reachable(c, steps);
    var s := After(c, steps).value;
    if s.owner.Finished? {
      forall i: nat | i < c.n
        ensures s.counts[i] == Counts(c.repeat, c.repeat, c.repeat, c.repeat)
        ensures s.threads[i].Joined? || s.threads[i].Absent?
      {
        assert ThreadAt(c, s, i);
      }
      if step :| Enabled(c, s, step) { assert false; }
    } else {
      var step := Progress(c, s);
    }
  }

  lemma Progress(c: Config, s: State) returns (step: Step)
    requires Inv(c, s) && !s.owner.Finished?
    ensures Enabled(c, s, step)
  {
    if s.owner.k == c.n { return NextPhase; }
    match s.owner
    case SettingUp(_) => return SetUp;
    case Spawning(_) => return Spawn;
    case TearingDown(_) => return TearDown;
    case Joining(k) =>
      assert ThreadAt(c, s, k) && BarrierAt(c, s, k);
      if s.threads[k].Spawned? { return Arrive(k); }
      if s.threads[k].Running? { return End(k); }
      if s.threads[k].Done? { return Join; }
      if i: nat :| i < c.n && s.threads[i].Spawned? { return Arrive(i); }
      forall i: nat | i < c.n ensures i in s.arrived { assert ThreadAt(c, s, i) && BarrierAt(c, s, i); }
      BarrierOpen(c, s);
      return Leave(k);
  }
}
