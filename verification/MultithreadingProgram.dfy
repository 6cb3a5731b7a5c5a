/**
 * The programs of the thread protocol, read off the schedule alone: the owner's steps are `repeat` rounds
 * of set up, spawn, join and tear down; each thread arrives, leaves and ends once a round, between its own
 * spawn and its own join.
 */
module MultithreadingProgram {
  import opened Common
  import opened Multithreading

  /** The thread that takes a step, or None for the owner. */
  function Process(step: Step): Option<nat> {
    match step
    case Arrive(i) => Some(i) case Leave(i) => Some(i) case End(i) => Some(i)
    case _ => None
  }

  /** The steps of one process, in the order of the schedule. */
  function Own(steps: seq<Step>, who: Option<nat>): seq<Step> {
    if steps == [] then []
    else
      var step := steps[|steps| - 1];
      Own(steps[..|steps| - 1], who) + if Process(step) == who then [step] else []
  }

  /** One loop of the owner over all children, and leaving it. */
  function Loop(step: Step, n: nat): (r: seq<Step>)
    ensures |r| == n + 1 && (forall k :: 0 <= k < n ==> r[k] == step) && r[n] == NextPhase
  {
    seq(n, _ => step) + [NextPhase]
  }

  function Round(n: nat): (r: seq<Step>)
    ensures |r| == 4 * (n + 1)
  {
    Loop(SetUp, n) + Loop(Spawn, n) + Loop(Join, n) + Loop(TearDown, n)
  }

  function Turn(i: nat): seq<Step> {
    [Arrive(i), Leave(i), End(i)]
  }

  function Copied(turn: seq<Step>, times: nat): seq<Step> {
    if times == 0 then [] else Copied(turn, times - 1) + turn
  }

  /** How far the owner is in its round. */
  function InRound(c: Config, o: OwnerPc): nat {
    match o
    case SettingUp(k) => k
    case Spawning(k) => c.n + 1 + k
    case Joining(k) => 2 * (c.n + 1) + k
    case TearingDown(k) => 3 * (c.n + 1) + k
    case Finished => 0
  }

  /** How far a thread is in its turn. */
  function InTurn(o: OwnerPc, pc: ThreadPc): nat {
    if !InFlight(o) then 0
    else
      match pc case Absent => 0 case Spawned => 0 case AtBarrier => 1 case Running => 2 case _ => 3
  }

  ghost predicate OwnerStands(c: Config, s: State, own: seq<Step>) {
    && InRound(c, s.owner) < |Round(c.n)|
    && own == Copied(Round(c.n), s.round) + Round(c.n)[..InRound(c, s.owner)]
  }

  ghost predicate ThreadStands(c: Config, s: State, own: seq<Step>, i: nat)
    requires Shape(c, s) && i < c.n
  {
    own == Copied(Turn(i), s.round) + Turn(i)[..InTurn(s.owner, s.threads[i])]
  }

  /** One more step of a turn; after the last one the turn is complete. */
  lemma OneMore(own: seq<Step>, turn: seq<Step>, times: nat, k: nat)
    requires k < |turn| && own == Copied(turn, times) + turn[..k]
    ensures k + 1 < |turn| ==> own + [turn[k]] == Copied(turn, times) + turn[..k + 1]
    ensures k + 1 == |turn| ==> own + [turn[k]] == Copied(turn, times + 1) + turn[..0]
  {
    assert turn[..k] + [turn[k]] == turn[..k + 1];
    if k + 1 == |turn| { assert turn[..k + 1] == turn; }
  }

  lemma NextOfOwner(c: Config, s: State, step: Step)
    requires Shape(c, s) && Enabled(c, s, step) && Process(step) == None
    ensures InRound(c, s.owner) < |Round(c.n)| && step == Round(c.n)[InRound(c, s.owner)]
    ensures var t := Apply(c, s, step);
      if InRound(c, s.owner) + 1 < |Round(c.n)|
      then t.round == s.round && InRound(c, t.owner) == InRound(c, s.owner) + 1
      else t.round == s.round + 1 && InRound(c, t.owner) == 0
  {}

  lemma OwnerMoves(c: Config, s: State, own: seq<Step>, step: Step)
    requires Shape(c, s) && Enabled(c, s, step) && OwnerStands(c, s, own)
    ensures OwnerStands(c, Apply(c, s, step), if Process(step) == None then own + [step] else own)
  {
    if Process(step) == None {
      NextOfOwner(c, s, step);
      OneMore(own, Round(c.n), s.round, InRound(c, s.owner));
    }
  }

  lemma ThreadMoves(c: Config, s: State, own: seq<Step>, i: nat, step: Step)
    requires Shape(c, s) && Enabled(c, s, step) && i < c.n && Process(step) == Some(i)
    requires ThreadAt(c, s, i) && ThreadStands(c, s, own, i)
    ensures ThreadStands(c, Apply(c, s, step), own + [step], i)
  {
    var k := InTurn(s.owner, s.threads[i]);
    assert step == Turn(i)[k];
    assert Turn(i)[..k] + [step] == Turn(i)[..k + 1];
  }

  /** The owner's steps leave a turn alone, except that the end of the round completes it. */
  lemma ThreadStays(c: Config, s: State, own: seq<Step>, i: nat, step: Step)
    requires Shape(c, s) && Enabled(c, s, step) && i < c.n && Process(step) != Some(i)
    requires ThreadAt(c, s, i) && ThreadStands(c, s, own, i)
    ensures ThreadStands(c, Apply(c, s, step), own, i)
  {
    var t := Apply(c, s, step);
    if t.round == s.round {
      assert InTurn(t.owner, t.threads[i]) == InTurn(s.owner, s.threads[i]);
    } else {
      assert Turn(i)[..3] == Turn(i);
    }
  }

  lemma {:induction false} OwnerOver(c: Config, steps: seq<Step>)
    requires After(c, steps).Some?
    ensures OwnerStands(c, After(c, steps).value, Own(steps, None))
  {
    if steps == [] {
      assert Round(c.n)[..0] == [];
    } else {
      var front, step := steps[..|steps| - 1], steps[|steps| - 1];
      OwnerOver(c, front);
      assert Own(front, None) + [] == Own(front, None);
      OwnerMoves(c, After(c, front).value, Own(front, None), step);
    }
  }

  lemma {:induction false} ThreadOver(c: Config, steps: seq<Step>, i: nat)
    requires After(c, steps).Some? && i < c.n
    ensures ThreadStands(c, After(c, steps).value, Own(steps, Some(i)), i)
  {
    if steps != [] {
      var front, step := steps[..|steps| - 1], steps[|steps| - 1];
      ThreadOver(c, front, i);
      Reachable(c, front);
      var s, own := After(c, front).value, Own(front, Some(i));
      assert ThreadAt(c, s, i) && own + [] == own;
      if Process(step) == Some(i) {
        ThreadMoves(c, s, own, i, step);
      } else {
        ThreadStays(c, s, own, i, step);
      }
    }
  }

  lemma {:induction false} CopiedPrefix(turn: seq<Step>, times: nat, k: nat, total: nat)
    requires times < total && k <= |turn|
    ensures Copied(turn, times) + turn[..k] <= Copied(turn, total)
  {
    if times + 1 == total {
      assert Copied(turn, times) + turn[..k] <= Copied(turn, times) + turn;
    } else {
      CopiedPrefix(turn, times, k, total - 1);
    }
  }

  /**
   * In every executable schedule the owner's steps are the first of `repeat` rounds, each of which sets up
   * every child, spawns every thread, joins every thread and tears down every child; each thread's steps are
   * the first of `repeat` turns of arriving at the barrier, leaving it and ending.  When the owner has
   * finished, all of these are complete.
   */
  lemma {:induction false} FollowPrograms(c: Config, steps: seq<Step>, i: nat)
    requires After(c, steps).Some? && i < c.n
    ensures Own(steps, None) <= Copied(Round(c.n), c.repeat)
    ensures Own(steps, Some(i)) <= Copied(Turn(i), c.repeat)
    ensures After(c, steps).value.owner.Finished? ==>
      Own(steps, None) == Copied(Round(c.n), c.repeat) && Own(steps, Some(i)) == Copied(Turn(i), c.repeat)
  {
    OwnerOver(c, steps);
    ThreadOver(c, steps, i);
    Reachable(c, steps);
    var s := After(c, steps).value;
    if s.owner.Finished? {
      assert Round(c.n)[..0] == [] && Turn(i)[..0] == [];
    } else {
      CopiedPrefix(Round(c.n), s.round, InRound(c, s.owner), c.repeat);
      CopiedPrefix(Turn(i), s.round, InTurn(s.owner, s.threads[i]), c.repeat);
    }
  }

  lemma {:induction false} Prefix(c: Config, steps: seq<Step>, q: nat)
    requires After(c, steps).Some? && q < |steps|
    ensures After(c, steps[..q]).Some? && Enabled(c, After(c, steps[..q]).value, steps[q])
  {
    var front := steps[..|steps| - 1];
    if q < |front| {
      Prefix(c, front, q);
      assert front[..q] == steps[..q];
    }
  }

  lemma {:induction false} CopiedLength(turn: seq<Step>, times: nat, length: nat)
    requires |turn| == length
    ensures |Copied(turn, times)| == times * length
  {
    if times > 0 {
      CopiedLength(turn, times - 1, length);
      assert times * length == (times - 1) * length + length;
    }
  }

  lemma OwnerSoFar(c: Config, steps: seq<Step>)
    requires After(c, steps).Some?
    ensures var s := After(c, steps).value;
      |Own(steps, None)| == s.round * (4 * (c.n + 1)) + InRound(c, s.owner)
  {
    OwnerOver(c, steps);
    CopiedLength(Round(c.n), After(c, steps).value.round, 4 * (c.n + 1));
  }

  lemma ThreadSoFar(c: Config, steps: seq<Step>, i: nat)
    requires After(c, steps).Some? && i < c.n
    ensures var s := After(c, steps).value;
      |Own(steps, Some(i))| == s.round * 3 + InTurn(s.owner, s.threads[i])
  {
    ThreadOver(c, steps, i);
    CopiedLength(Turn(i), After(c, steps).value.round, 3);
  }

  lemma ThreadInRound(c: Config, s: State, step: Step, i: nat)
    requires Shape(c, s) && Enabled(c, s, step) && i < c.n && Process(step) == Some(i) && ThreadAt(c, s, i)
    ensures c.n + 1 + i < InRound(c, s.owner) <= 2 * (c.n + 1) + i && InTurn(s.owner, s.threads[i]) < 3
  {}

  lemma AllArrived(c: Config, s: State, i: nat, j: nat)
    requires Inv(c, s) && Enabled(c, s, Leave(i)) && i < c.n && j < c.n
    ensures InTurn(s.owner, s.threads[j]) >= 1
  {
    BarrierOpen(c, s);
    assert ThreadAt(c, s, i) && ThreadAt(c, s, j) && BarrierAt(c, s, j);
  }

  /**
   * Where a thread's steps fall: when thread i takes a step of its turn in round r, the owner has set up
   * every child and spawned thread i in round r and has not joined it; when it leaves the barrier, every
   * thread has arrived at it in round r.
   */
  lemma {:induction false} RunsInRound(c: Config, steps: seq<Step>, q: nat, i: nat, j: nat) returns (r: nat)
    requires After(c, steps).Some? && q < |steps| && i < c.n && j < c.n && Process(steps[q]) == Some(i)
    ensures 3 * r <= |Own(steps[..q], Some(i))| < 3 * r + 3
    ensures var owner := |Own(steps[..q], None)| - r * (4 * (c.n + 1));
      c.n + 1 + i < owner <= 2 * (c.n + 1) + i
    ensures steps[q] == Leave(i) ==> 3 * r < |Own(steps[..q], Some(j))|
  {
    Prefix(c, steps, q);
    Reachable(c, steps[..q]);
    var s := After(c, steps[..q]).value;
    r := s.round;
    OwnerSoFar(c, steps[..q]);
    ThreadSoFar(c, steps[..q], i);
    ThreadSoFar(c, steps[..q], j);
    assert ThreadAt(c, s, i);
    ThreadInRound(c, s, steps[q], i);
    if steps[q] == Leave(i) { AllArrived(c, s, i, j); }
  }
}
