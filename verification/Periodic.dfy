/**
 * Periodic instructions: each iteration waits for its wakeup time, and the wakeup advances by the
 * period whatever the iterations take.
 */
module Periodic {
  import opened Doubles
  import opened Timespec

  // ---------------------------------------------------------------- the schedule

  /** The wakeup of iteration i in nanoseconds, for a SetUp at time t0. */
  function Wakeup(t0: nat, offsetUs: nat, periodUs: nat, i: nat): nat {
    t0 + 1000 * (offsetUs + i * periodUs)
  }

  /** When the iteration before i was over. */
  function Free(begin: nat, starts: seq<nat>, work: seq<nat>, i: nat): nat
    requires i <= |starts| && i <= |work|
  {
    if i == 0 then begin else starts[i - 1] + work[i - 1]
  }

  function Later(a: nat, b: nat): nat {
    if a < b then b else a
  }

  /** Iteration i starts when it is free and awake, plus the lateness of the sleep. */
  ghost predicate Scheduled(t0: nat, offsetUs: nat, periodUs: nat, begin: nat, late: seq<nat>, work: seq<nat>,
                            starts: seq<nat>)
  {
    && |late| == |work| == |starts|
    && forall i :: 0 <= i < |starts| ==> StartsOnTime(t0, offsetUs, periodUs, begin, late, work, starts, i)
  }

  ghost predicate StartsOnTime(t0: nat, offsetUs: nat, periodUs: nat, begin: nat, late: seq<nat>, work: seq<nat>,
                               starts: seq<nat>, i: nat)
    requires |late| == |work| && i < |starts| <= |work|
  {
    starts[i] == Later(Free(begin, starts, work, i), Wakeup(t0, offsetUs, periodUs, i)) + late[i]
  }

  // ---------------------------------------------------------------- the instruction

  class PeriodicInstruction {
    const repeat: int
    const periodUs: nat
    const offsetUs: nat
    var nextWakeup: Timespec

    constructor (repeat: int, periodUs: nat, offsetUs: nat)
      ensures this.repeat == repeat && this.periodUs == periodUs && this.offsetUs == offsetUs
    {
      this.repeat, this.periodUs, this.offsetUs := repeat, periodUs, offsetUs;
      nextWakeup := Timespec(0, 0);
    }

    predicate Timed() {
      periodUs != 0 || offsetUs != 0
    }

    /** The times of a .ditto file that the conversions keep. */
    predicate Exact() {
      periodUs < P53 && offsetUs < P53
    }

    /** `clock` is what clock_gettime returns. */
    method SetUp(clock: Timespec)
      requires Normal(clock) && Exact()
      modifies this`nextWakeup
      ensures Timed() ==> Normal(nextWakeup) && Value(nextWakeup) == Wakeup(Value(clock), offsetUs, periodUs, 0)
    {
      if periodUs != 0 || offsetUs != 0 {
        nextWakeup := clock;
        if offsetUs != 0 {
          FromMicrosExact(offsetUs);
          nextWakeup := Plus(nextWakeup, MicrosToTimespec(offsetUs));
        }
      }
    }

    /** Sleeps until the wakeup, if there is one, and returns the time at which the iteration starts. */
    method SetUpSingle(now: nat, late: nat) returns (start: nat)
      requires Exact() && (Timed() ==> Normal(nextWakeup))
      modifies this`nextWakeup
      ensures Timed() ==> start == Later(now, old(Value(nextWakeup))) + late
      ensures Timed() ==> Normal(nextWakeup) && Value(nextWakeup) == old(Value(nextWakeup)) + 1000 * periodUs
      ensures !Timed() ==> start == now
    {
      start := now;
      if periodUs != 0 || offsetUs != 0 {
        start := Later(now, Value(nextWakeup)) + late;
        FromMicrosExact(periodUs);
        nextWakeup := Plus(nextWakeup, MicrosToTimespec(periodUs));
      }
    }

    /**
     * Run, from time `begin`: iteration i takes work[i] nanoseconds and its sleep ends late[i] after it
     * should.  The wakeups are those of the schedule, to the nanosecond, however long the iterations take.
     */
    method Run(t0: nat, begin: nat, late: seq<nat>, work: seq<nat>) returns (starts: seq<nat>, wakeups: seq<nat>)
      requires Exact() && Timed() && Normal(nextWakeup) && Value(nextWakeup) == Wakeup(t0, offsetUs, periodUs, 0)
      requires |late| == |work| && |work| == if repeat < 0 then 0 else repeat
      modifies this`nextWakeup
      ensures Scheduled(t0, offsetUs, periodUs, begin, late, work, starts)
      ensures forall i :: 0 <= i < |starts| ==> starts[i] >= Wakeup(t0, offsetUs, periodUs, i)
      ensures |wakeups| == |starts|
      ensures forall i :: 0 <= i < |wakeups| ==> wakeups[i] == Wakeup(t0, offsetUs, periodUs, i)
      ensures Value(nextWakeup) == Wakeup(t0, offsetUs, periodUs, |work|)
    {
      starts, wakeups := [], [];
      var now := begin;
      for i := 0 to |work|
        invariant |starts| == |wakeups| == i
        invariant now == Free(begin, starts, work, i)
        invariant Normal(nextWakeup) && Value(nextWakeup) == Wakeup(t0, offsetUs, periodUs, i)
        invariant forall k :: 0 <= k < i ==> wakeups[k] == Wakeup(t0, offsetUs, periodUs, k)
        invariant forall k :: 0 <= k < i ==> StartsOnTime(t0, offsetUs, periodUs, begin, late, work, starts, k)
        invariant forall k :: 0 <= k < i ==> starts[k] >= Wakeup(t0, offsetUs, periodUs, k)
      {
        wakeups := wakeups + [Value(nextWakeup)];
        var start := SetUpSingle(now, late[i]);
        ghost var before := starts;
        starts := starts + [start];
        forall k | 0 <= k < i ensures StartsOnTime(t0, offsetUs, periodUs, begin, late, work, starts, k) {
          assert StartsOnTime(t0, offsetUs, periodUs, begin, late, work, before, k);
        }
        NextWakeup(t0, offsetUs, periodUs, i);
        now := start + work[i];
      }
    }
  }

  lemma NextWakeup(t0: nat, offsetUs: nat, periodUs: nat, i: nat)
    ensures Wakeup(t0, offsetUs, periodUs, i + 1) == Wakeup(t0, offsetUs, periodUs, i) + 1000 * periodUs
  {
    assert (i + 1) * periodUs == i * periodUs + periodUs;
  }

  // ---------------------------------------------------------------- no drift

  /** The time iterations j to i - 1 take together. */
  function WorkBetween(work: seq<nat>, j: nat, i: nat): nat
    requires j <= i <= |work|
  {
    if j == i then 0 else WorkBetween(work, j, i - 1) + work[i - 1]
  }

  /**
   * With an exact clock the start of iteration i depends on the past only through the last iteration
   * that started right at its wakeup (or the beginning of the run): from there on it is just the work.
   */
  lemma {:induction false} StartClosedForm(t0: nat, offsetUs: nat, periodUs: nat, begin: nat, late: seq<nat>,
        work: seq<nat>, starts: seq<nat>, i: nat) returns (j: nat)
    requires Scheduled(t0, offsetUs, periodUs, begin, late, work, starts) && i < |starts|
    requires forall k :: 0 <= k < |late| ==> late[k] == 0
    ensures forall k: nat :: k <= i ==> starts[i] >= Wakeup(t0, offsetUs, periodUs, k) + WorkBetween(work, k, i)
    ensures starts[i] >= begin + WorkBetween(work, 0, i)
    ensures j <= i
    ensures starts[i] == begin + WorkBetween(work, 0, i)
         || starts[i] == Wakeup(t0, offsetUs, periodUs, j) + WorkBetween(work, j, i)
  {
    assert StartsOnTime(t0, offsetUs, periodUs, begin, late, work, starts, i);
    j := i;
    if i > 0 {
      var before := StartClosedForm(t0, offsetUs, periodUs, begin, late, work, starts, i - 1);
      if Free(begin, starts, work, i) >= Wakeup(t0, offsetUs, periodUs, i) { j := before; }
    }
  }

  /** If no iteration takes longer than the period, all of them start exactly at their wakeups. */
  lemma {:induction false} OnTheDot(t0: nat, offsetUs: nat, periodUs: nat, begin: nat, late: seq<nat>, work: seq<nat>,
                                    starts: seq<nat>, i: nat)
    requires Scheduled(t0, offsetUs, periodUs, begin, late, work, starts) && i < |starts|
    requires forall k :: 0 <= k < |late| ==> late[k] == 0 && work[k] <= 1000 * periodUs
    requires begin <= Wakeup(t0, offsetUs, periodUs, 0)
    ensures starts[i] == Wakeup(t0, offsetUs, periodUs, i)
  {
    assert StartsOnTime(t0, offsetUs, periodUs, begin, late, work, starts, i);
    if i > 0 {
      OnTheDot(t0, offsetUs, periodUs, begin, late, work, starts, i - 1);
      NextWakeup(t0, offsetUs, periodUs, i - 1);
    }
  }

  // ---------------------------------------------------------------- recovery from an overrun

  /** From iteration i on, work and sleep leave `slack` of the period, and no sleep ends more than `sleepy` late. */
  ghost predicate Relaxed(periodUs: nat, late: seq<nat>, work: seq<nat>, i: nat, slack: nat, sleepy: nat)
    requires |late| == |work|
  {
    forall k :: i < k < |work| ==> work[k - 1] + late[k] + slack <= 1000 * periodUs && late[k] <= sleepy
  }

  /**
   * An overrun is made up for.  If iteration i starts `delay` after its wakeup, and from then on every
   * iteration leaves `slack` of its period, then the delay shrinks by the slack in each iteration: from
   * iteration i + n on, where n is delay / slack rounded up, all start at their wakeups again, but for
   * the lateness of their own sleep.
   */
  lemma {:induction false} Recovery(t0: nat, offsetUs: nat, periodUs: nat, begin: nat, late: seq<nat>, work: seq<nat>,
                                    starts: seq<nat>, i: nat, n: nat, delay: nat, slack: nat, sleepy: nat)
    requires Scheduled(t0, offsetUs, periodUs, begin, late, work, starts) && i + n < |starts|
    requires starts[i] == Wakeup(t0, offsetUs, periodUs, i) + delay
    requires Relaxed(periodUs, late, work, i, slack, sleepy)
    ensures starts[i + n] >= Wakeup(t0, offsetUs, periodUs, i + n)
    ensures var after := starts[i + n] - Wakeup(t0, offsetUs, periodUs, i + n);
            after <= sleepy || after + n * slack <= delay
    ensures n * slack >= delay ==> starts[i + n] <= Wakeup(t0, offsetUs, periodUs, i + n) + sleepy
  {
    if n > 0 {
      Recovery(t0, offsetUs, periodUs, begin, late, work, starts, i, n - 1, delay, slack, sleepy);
      NextWakeup(t0, offsetUs, periodUs, i + n - 1);
      assert StartsOnTime(t0, offsetUs, periodUs, begin, late, work, starts, i + n);
      assert work[i + n - 1] + late[i + n] + slack <= 1000 * periodUs && late[i + n] <= sleepy;
      assert n * slack == (n - 1) * slack + slack;
    }
  }

  /** From iteration i on, work leaves exactly `slack` of the period and sleeps are exact. */
  ghost predicate JustLeaves(periodUs: nat, late: seq<nat>, work: seq<nat>, i: nat, slack: nat)
    requires |late| == |work|
  {
    forall k :: i < k < |work| ==> work[k - 1] + slack == 1000 * periodUs && late[k] == 0
  }

  /**
   * That many iterations are needed: when sleeps are exact and every iteration leaves just `slack`,
   * iteration i + n starts at its wakeup if and only if n times the slack covers the delay.
   */
  lemma {:induction false} RecoveryExactly(t0: nat, offsetUs: nat, periodUs: nat, begin: nat, late: seq<nat>,
        work: seq<nat>, starts: seq<nat>, i: nat, n: nat, delay: nat, slack: nat)
    requires Scheduled(t0, offsetUs, periodUs, begin, late, work, starts) && i + n < |starts|
    requires starts[i] == Wakeup(t0, offsetUs, periodUs, i) + delay
    requires JustLeaves(periodUs, late, work, i, slack)
    ensures starts[i + n] == Wakeup(t0, offsetUs, periodUs, i + n) + if n * slack >= delay then 0 else delay - n * slack
  {
    if n > 0 {
      RecoveryExactly(t0, offsetUs, periodUs, begin, late, work, starts, i, n - 1, delay, slack);
      NextWakeup(t0, offsetUs, periodUs, i + n - 1);
      assert StartsOnTime(t0, offsetUs, periodUs, begin, late, work, starts, i + n);
      assert work[i + n - 1] + slack == 1000 * periodUs && late[i + n] == 0;
      assert n * slack == (n - 1) * slack + slack;
    }
  }
}
