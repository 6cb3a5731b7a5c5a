/** What holds in every state of every schedule of the fork protocol. */
module MultiprocessingSafety {
  import opened Common
  import opened Multiprocessing
  import opened MultiprocessingInvariant

  /** Nothing is lost, duplicated or reordered on any pipe, at any moment of any run. */
  lemma {:induction false} Delivery(c: Config, steps: seq<Step>, i: nat)
    requires c.Valid() && After(c, steps).Some? && i < c.N()
    ensures var s := After(c, steps).value;
            && Received(s, i) + s.pipes[i] + Unsent(c, s.children[i], i) == c.payloads[i]
            && |s.pipes[i]| <= c.capacity
            && (i < |s.results| ==> s.results[i] == c.payloads[i])
  {
    Reachable(c, steps);
    assert PipeAt(c, After(c, steps).value, i);
  }

  /**
   * The manager sees the end of a pipe exactly when the child has closed its end and everything
   * it wrote has been read; what the manager then decodes is the child's payload.
   */
  lemma EofExactly(c: Config, steps: seq<Step>)
    requires c.Valid() && After(c, steps).Some?
    requires var s := After(c, steps).value; s.manager.Reading? && s.manager.i < c.N()
    ensures var s := After(c, steps).value; var i := s.manager.i;
            Enabled(c, s, Eof) <==> Gone(s.children[i]) && s.serialized == c.payloads[i]
  {
    Reachable(c, steps);
    var s := After(c, steps).value;
    var i := s.manager.i;
    assert PipeAt(c, s, i) && WritersAt(c, s, i, i) && LocksAt(c, s, i) && BornAt(c, s, i);
    assert Received(s, i) == s.serialized;
    if Gone(s.children[i]) {
      BarrierOpen(c, s);
      forall x ensures x !in s.writers[i] {
        assert WritersAt(c, s, i, x);
      }
    }
  }

  /**
   * The phases, over every run.  At most one child is inside its set-up; a child runs only once
   * every child has set up and holds no write end but its own; a child collects results only once
   * every child has finished running.
   */
  lemma PhaseSafety(c: Config, steps: seq<Step>, i: nat, j: nat)
    requires c.Valid() && After(c, steps).Some? && i < c.N() && j < c.N()
    ensures var s := After(c, steps).value;
            && (s.children[i].SettingUp? && s.children[j].SettingUp? ==> i == j)
            && (RunStarted(s.children[i]) ==>
                  && PastSetUp(s.children[j])
                  && forall p :: 0 <= p < c.N() && j in s.writers[p] ==> p == j)
            && (Collecting(s.children[i]) ==> PastRun(s.children[j]))
  {
    Reachable(c, steps);
    var s := After(c, steps).value;
    assert LocksAt(c, s, i) && LocksAt(c, s, j);
    BarrierOpen(c, s);
    forall p | 0 <= p < c.N() && RunStarted(s.children[i]) && j in s.writers[p] ensures p == j {
      assert WritersAt(c, s, p, j);
    }
  }

  /**
   * When the manager destroys the mutex and the barriers no process uses them any more: the mutex
   * is free, every child has left both barriers and has closed its pipe.
   */
  lemma DestroySafe(c: Config, steps: seq<Step>, i: nat)
    requires c.Valid() && After(c, steps).Some? && Enabled(c, After(c, steps).value, Destroy) && i < c.N()
    ensures var s := After(c, steps).value;
            s.mutex == None && Gone(s.children[i]) && s.writers[i] == {} && s.results == c.payloads
  {
    Reachable(c, steps);
    var s := After(c, steps).value;
    forall p: nat | p < c.N() ensures Gone(s.children[p]) && s.results[p] == c.payloads[p] {
      assert PipeAt(c, s, p);
    }
    forall x: nat ensures s.mutex != Some(x) {
      assert LocksAt(c, s, x);
    }
    forall x ensures x !in s.writers[i] {
      assert WritersAt(c, s, i, x);
    }
  }
}
