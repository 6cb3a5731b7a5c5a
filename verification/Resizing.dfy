/** Which lengths a random resize can leave, when its bounds are 64-bit numbers drawn between as ints. */
module Resizing {
  import opened Common
  import opened Workload
  import opened Interpreter
  import opened NameResolution

  /**
   * `length` is the length of the file; fallocate only extends it, ftruncate sets it and refuses a
   * negative length.  Draws stay within their bounds; with reversed bounds they are arbitrary.
   */
  ghost predicate Resizable<K(!new)>(kernel: Kernel<K>, length: K -> nat) {
    forall k: K, call: Call :: ResizeAnswers(kernel, length, k, call)
  }

  ghost predicate ResizeAnswers<K>(kernel: Kernel<K>, length: K -> nat, k: K, call: Call) {
    var (after, reply) := kernel(k, call);
    match call
    case FStat(_) => reply.number == length(k) && length(after) == length(k)
    case FAllocate(_, n) => reply.number == 0 && length(after) == if n > length(k) then n else length(k)
    case FTruncate(_, n) => if n >= 0 then reply.number == 0 && length(after) == n else reply.number != 0
    case Draw(_, low, high) => length(after) == length(k) && (low <= high ==> low <= reply.number <= high)
    case Seed(_, _) => length(after) == length(k)
    case _ => true
  }

  lemma AskResizable<K(!new)>(kernel: Kernel<K>, length: K -> nat, s: Sys<K>, call: Call)
    requires Resizable(kernel, length) && !s.halted
    ensures var (s1, reply) := Ask(kernel, s, call);
            && !s1.halted && kernel(s.kernel, call) == (s1.kernel, reply) && s1.calls == s.calls + [call]
            && ResizeAnswers(kernel, length, s.kernel, call)
  {
    assert ResizeAnswers(kernel, length, s.kernel, call);
  }

  /** A resize leaves the file at the requested length if that is not negative, and else exits. */
  lemma ResizeReaches<K(!new)>(kernel: Kernel<K>, length: K -> nat, fd: int, size: int, s: Sys<K>)
    requires Resizable(kernel, length) && !s.halted
    ensures var t := RunResize(kernel, fd, size, s);
            && t.halted == (size < 0)
            && (size >= 0 ==> length(t.kernel) == size)
  {
    AskResizable(kernel, length, s, FStat(fd));
    var s1 := Ask(kernel, s, FStat(fd)).0;
    AskResizable(kernel, length, s1, FAllocate(fd, size));
    AskResizable(kernel, length, s1, FTruncate(fd, size));
  }

  function ResizeBody(fd: string, min: nat, max: nat, seed: int, reseeding: Reseeding): Body<string> {
    ResizeFileRandom(fd, min, max, seed, reseeding)
  }

  /** One cycle of a random resize does not exit, and leaves a length within the bounds. */
  ghost predicate EndsWithin<K>(kernel: Kernel<K>, length: K -> nat, site: Site, fd: string, min: nat, max: nat,
                                seed: int, reseeding: Reseeding, m: Machine<Names, K>)
  {
    var t := Leaf(kernel, NameEnv(), "", site, ResizeBody(fd, min, max, seed, reseeding), m);
    !t.sys.halted && min <= length(t.sys.kernel) <= max
  }

  /** What a random resize does with the number it draws. */
  lemma ResizeRandomDraws<K(!new)>(kernel: Kernel<K>, length: K -> nat, site: Site, fd: string, min: nat, max: nat,
        seed: int, reseeding: Reseeding, m: Machine<Names, K>) returns (drawn: int)
    requires Resizable(kernel, length) && !m.sys.halted && NameValue(m.store, fd).IntValue?
    ensures ToInt(min) <= ToInt(max) ==> ToInt(min) <= drawn <= ToInt(max)
    ensures EndsWithin(kernel, length, site, fd, min, max, seed, reseeding, m) <==> min <= drawn <= max
    ensures var s1 := if reseeding.EachCycle? then Ask(kernel, m.sys, Seed(site, seed)).0 else m.sys;
            drawn == kernel(s1.kernel, Draw(site, ToInt(min), ToInt(max))).1.number
  {
    if reseeding.EachCycle? { AskResizable(kernel, length, m.sys, Seed(site, seed)); }
    var s1 := if reseeding.EachCycle? then Ask(kernel, m.sys, Seed(site, seed)).0 else m.sys;
    AskResizable(kernel, length, s1, Draw(site, ToInt(min), ToInt(max)));
    var (s2, reply) := Ask(kernel, s1, Draw(site, ToInt(min), ToInt(max)));
    drawn := reply.number;
    var n := NameValue(m.store, fd).n;
    assert GetInt(NameEnv(), m.store, fd) == Some(n);
    ResizeReaches(kernel, length, n, drawn, s2);
    assert Leaf(kernel, NameEnv(), "", site, ResizeBody(fd, min, max, seed, reseeding), m).sys
        == RunResize(kernel, n, drawn, s2);
  }

  /** A generator that always draws the lower bound, over a file whose length is the state. */
  function LowKernel(k: nat, call: Call): (nat, Reply) {
    match call
    case FStat(_) => (k, Reply(k, "", []))
    case FAllocate(_, n) => (if n > k then n else k, Reply(0, "", []))
    case FTruncate(_, n) => if n >= 0 then (n, Reply(0, "", [])) else (k, Reply(-1, "", []))
    case Draw(_, low, high) => (k, Reply(if low <= high then low else -1, "", []))
    case _ => (k, Reply(0, "", []))
  }

  function Itself(): nat -> nat {
    (k: nat) => k
  }

  ghost predicate AlwaysWithin(site: Site, fd: string, min: nat, max: nat, seed: int, reseeding: Reseeding) {
    forall kernel: Kernel<nat>, m: Machine<Names, nat> ::
      Resizable(kernel, Itself()) && !m.sys.halted && NameValue(m.store, fd).IntValue? ==>
        EndsWithin(kernel, Itself(), site, fd, min, max, seed, reseeding, m)
  }

  /**
   * The bounds are narrowed to ints before drawing.  So a random resize stays within its bounds,
   * whatever is drawn, if and only if the lower bound fits in an int and does not exceed the
   * narrowed upper bound.
   */
  lemma ResizeRandomExactly(site: Site, fd: string, min: nat, max: nat, seed: int, reseeding: Reseeding)
    requires min <= max
    ensures AlwaysWithin(site, fd, min, max, seed, reseeding) <==> min <= INT_MAX && min <= ToInt(max)
  {
    Narrowing(min);
    Narrowing(max);
    if min <= INT_MAX && min <= ToInt(max) {
      forall kernel: Kernel<nat>, m: Machine<Names, nat>
        | Resizable(kernel, Itself()) && !m.sys.halted && NameValue(m.store, fd).IntValue?
        ensures EndsWithin(kernel, Itself(), site, fd, min, max, seed, reseeding, m)
      {
        var drawn := ResizeRandomDraws(kernel, Itself(), site, fd, min, max, seed, reseeding, m);
      }
    } else {
      var m := Machine(map[fd := IntValue(3)], Sys(0, [], false));
      var drawn := ResizeRandomDraws(LowKernel, Itself(), site, fd, min, max, seed, reseeding, m);
      assert !EndsWithin(LowKernel, Itself(), site, fd, min, max, seed, reseeding, m);
    }
  }

  /** For instance, between three billion and three billion bytes every random resize exits. */
  lemma ResizeRandomFails<K(!new)>(kernel: Kernel<K>, length: K -> nat, site: Site, fd: string, seed: int,
                                   reseeding: Reseeding, m: Machine<Names, K>)
    requires Resizable(kernel, length) && !m.sys.halted && NameValue(m.store, fd).IntValue?
    ensures ToInt(3_000_000_000) == -1_294_967_296
    ensures !EndsWithin(kernel, length, site, fd, 3_000_000_000, 3_000_000_000, seed, reseeding, m)
  {
    var drawn := ResizeRandomDraws(kernel, length, site, fd, 3_000_000_000, 3_000_000_000, seed, reseeding, m);
  }
}
