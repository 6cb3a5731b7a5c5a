/** Every step of every process keeps the invariant of the fork protocol. */
module MultiprocessingInvariant {
  import opened Common
  import opened Multiprocessing

  lemma WritersStep(c: Config, s: State, step: Step, p: nat, x: nat)
    requires Shape(c, s) && Enabled(c, s, step) && p < c.N()
    requires WritersAt(c, s, p, x) && (x < c.N() ==> BornAt(c, s, x))
    requires step.Fork? ==> WritersAt(c, s, p, c.N())
    ensures WritersAt(c, Apply(c, s, step), p, x)
  {
    if x < c.N() && x != Actor(s, step) { Untouched(c, s, step, x); }
  }

  lemma BornStep(c: Config, s: State, step: Step, i: nat)
    requires c.Valid() && Inv(c, s) && Enabled(c, s, step) && i < c.N()
    ensures BornAt(c, Apply(c, s, step), i)
  {
    assert BornAt(c, s, i);
  }

  lemma MutexStep(c: Config, s: State, step: Step, i: nat, j: nat)
    requires Shape(c, s) && Enabled(c, s, step) && j == Actor(s, step)
    requires MutexAt(c, s, i) && MutexAt(c, s, j)
    requires step.Fork? ==> s.children[s.manager.next].Unborn?
    ensures MutexAt(c, Apply(c, s, step), i)
  {}

  lemma StartStep(c: Config, s: State, step: Step, i: nat)
    requires Shape(c, s) && Enabled(c, s, step)
    requires StartAt(c, s, i) && (step.ArriveStart? ==> |s.atStart| < c.N())
    requires step.Fork? ==> s.children[s.manager.next].Unborn?
    ensures StartAt(c, Apply(c, s, step), i)
  {
    if i < c.N() && i != Actor(s, step) { Untouched(c, s, step, i); }
  }

  lemma EndStep(c: Config, s: State, step: Step, i: nat)
    requires Shape(c, s) && Enabled(c, s, step)
    requires EndAt(c, s, i) && (step.ArriveEnd? ==> |s.atEnd| < c.N())
    requires step.Fork? ==> s.children[s.manager.next].Unborn?
    ensures EndAt(c, Apply(c, s, step), i)
  {
    if i != Actor(s, step) { EndStepOfOther(c, s, step, i); }
  }

  lemma EndStepOfOther(c: Config, s: State, step: Step, i: nat)
    requires Shape(c, s) && Enabled(c, s, step) && i != Actor(s, step)
    requires EndAt(c, s, i) && (step.ArriveEnd? ==> |s.atEnd| < c.N())
    ensures EndAt(c, Apply(c, s, step), i)
  {
    if i < c.N() { Untouched(c, s, step, i); }
  }

  lemma LocksStep(c: Config, s: State, step: Step, i: nat)
    requires c.Valid() && Inv(c, s) && Enabled(c, s, step)
    ensures LocksAt(c, Apply(c, s, step), i)
  {
    var j := Actor(s, step);
    assert LocksAt(c, s, i) && LocksAt(c, s, j);
    assert step.Fork? ==> BornAt(c, s, s.manager.next);
    BarrierOpen(c, s);
    MutexStep(c, s, step, i, j);
    StartStep(c, s, step, i);
    EndStep(c, s, step, i);
  }

  /** A barrier opens only when every child has arrived at it. */
  lemma BarrierOpen(c: Config, s: State)
    requires Inv(c, s)
    ensures |s.atStart| == c.N() ==> forall i: nat :: i < c.N() ==> i in s.atStart && PastStart(s.children[i])
    ensures |s.atEnd| == c.N() ==> forall i: nat :: i < c.N() ==> i in s.atEnd && PastRun(s.children[i])
  {
    forall i: nat ensures i in s.atStart || i in s.atEnd ==> i < c.N() { assert LocksAt(c, s, i); }
    FullSet(s.atStart, c.N());
    FullSet(s.atEnd, c.N());
    forall i: nat | i < c.N()
      ensures |s.atStart| == c.N() ==> PastStart(s.children[i])
      ensures |s.atEnd| == c.N() ==> PastRun(s.children[i])
    {
      assert LocksAt(c, s, i);
    }
  }

  lemma PipesStep(c: Config, s: State, step: Step, i: nat)
    requires Shape(c, s) && ManagerInv(c, s) && Enabled(c, s, step) && i < c.N()
    requires PipeAt(c, s, i) && BornAt(c, s, i) && WritersAt(c, s, i, i)
    ensures PipeAt(c, Apply(c, s, step), i)
  {
    if step.Read? || step.Eof? {
      PipesDrain(c, s, step, i);
    } else if step.Write? && i == step.i {
      PipesFill(c, s, step);
    } else if Actor(s, step) == i {
      SameBytes(c, s, step);
    } else {
      Untouched(c, s, step, i);
      SamePipe(c, s, Apply(c, s, step), i);
    }
  }

  /** A step leaves the other children and their pipes alone. */
  lemma Untouched(c: Config, s: State, step: Step, i: nat)
    requires Shape(c, s) && Enabled(c, s, step) && i < c.N() && i != Actor(s, step)
    ensures var t := Apply(c, s, step); t.children[i] == s.children[i] && t.pipes[i] == s.pipes[i]
    ensures !step.Read? && !step.Eof? ==>
      Apply(c, s, step).results == s.results && (ManagerInv(c, s) ==> Received(Apply(c, s, step), i) == Received(s, i))
  {}

  /** The manager's reads. */
  lemma PipesDrain(c: Config, s: State, step: Step, i: nat)
    requires Shape(c, s) && ManagerInv(c, s) && Enabled(c, s, step) && i < c.N() && (step.Read? || step.Eof?)
    requires PipeAt(c, s, i) && BornAt(c, s, i) && WritersAt(c, s, i, i)
    ensures PipeAt(c, Apply(c, s, step), i)
  {
    if step.Read? && i == s.manager.i { MoveFront(Received(s, i), s.pipes[i], step.k); }
  }

  /** A child's write. */
  lemma PipesFill(c: Config, s: State, step: Step)
    requires Shape(c, s) && ManagerInv(c, s) && step.Write? && Enabled(c, s, step)
    requires PipeAt(c, s, step.i)
    ensures PipeAt(c, Apply(c, s, step), step.i)
  {
    var i := step.i;
    MoveBack(Received(s, i), s.pipes[i], c.payloads[i], s.children[i].sent, step.k);
  }

  /** The steps of a child that move no byte. */
  lemma SameBytes(c: Config, s: State, step: Step)
    requires Shape(c, s) && ManagerInv(c, s) && Enabled(c, s, step) && Actor(s, step) < c.N()
    requires !step.Read? && !step.Eof? && !step.Write?
    requires PipeAt(c, s, Actor(s, step)) && BornAt(c, s, Actor(s, step))
    ensures PipeAt(c, Apply(c, s, step), Actor(s, step))
  {
    SamePipe(c, s, Apply(c, s, step), Actor(s, step));
  }

  /** A step that moves no byte of child i. */
  lemma SamePipe(c: Config, s: State, t: State, i: nat)
    requires Shape(c, s) && Shape(c, t) && i < c.N() && PipeAt(c, s, i)
    requires t.pipes[i] == s.pipes[i] && t.results == s.results && Received(t, i) == Received(s, i)
    requires Unsent(c, t.children[i], i) == Unsent(c, s.children[i], i) && (Gone(s.children[i]) ==> Gone(t.children[i]))
    ensures PipeAt(c, t, i)
  {}

  lemma MoveFront(got: seq<Byte>, pipe: seq<Byte>, k: nat)
    requires k <= |pipe|
    ensures (got + pipe[..k]) + pipe[k..] == got + pipe
  {}

  lemma MoveBack(got: seq<Byte>, pipe: seq<Byte>, payload: seq<Byte>, sent: nat, k: nat)
    requires sent + k <= |payload|
    ensures got + (pipe + payload[sent..sent + k]) + payload[sent + k..] == got + pipe + payload[sent..]
  {
    assert payload[sent..] == payload[sent..sent + k] + payload[sent + k..];
  }

  lemma InvStep(c: Config, s: State, step: Step)
    requires c.Valid() && Inv(c, s) && Enabled(c, s, step)
    ensures Inv(c, Apply(c, s, step))
  {
    forall p: nat, x: nat | p < c.N() ensures WritersAt(c, Apply(c, s, step), p, x) {
      assert WritersAt(c, s, p, x) && WritersAt(c, s, p, c.N()) && (x < c.N() ==> BornAt(c, s, x));
      WritersStep(c, s, step, p, x);
    }
    forall i: nat | i < c.N() ensures BornAt(c, Apply(c, s, step), i) { BornStep(c, s, step, i); }
    forall i: nat ensures LocksAt(c, Apply(c, s, step), i) { LocksStep(c, s, step, i); }
    forall i: nat | i < c.N() ensures PipeAt(c, Apply(c, s, step), i) {
      assert PipeAt(c, s, i) && BornAt(c, s, i) && WritersAt(c, s, i, i);
      PipesStep(c, s, step, i);
    }
  }

  lemma InvInit(c: Config)
    requires c.Valid()
    ensures Inv(c, Init(c))
  {}

  lemma {:induction false} Reachable(c: Config, steps: seq<Step>)
    requires c.Valid() && After(c, steps).Some?
    ensures Inv(c, After(c, steps).value)
  {
    if steps == [] {
      InvInit(c);
    } else {
      Reachable(c, steps[..|steps| - 1]);
      InvStep(c, After(c, steps[..|steps| - 1]).value, steps[|steps| - 1]);
    }
  }
}
