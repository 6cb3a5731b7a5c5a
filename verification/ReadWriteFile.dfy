/**
 * read_file and write_file: the plan made before each cycle, the reseeding of the generator over
 * rounds of cycles, and the effect of the writes on the bytes of the file.
 */
module ReadWriteFile {
  import opened Common
  import opened Workload
  import opened BlockPlan

  /** A random generator: seeding it, and drawing a number between two bounds. */
  datatype Generator<!G> = Generator(seeded: int -> G, draw: (G, int, int) -> (int, G))

  // ---------------------------------------------------------------- one cycle

  /** Size and block size of a cycle, where -1 stands for the file size. */
  function Sizes(rw: RwParams, fileSize: int): (int, int) {
    (if rw.size == -1 then fileSize else rw.size, if rw.blockSize == -1 then fileSize else rw.blockSize)
  }

  /** What SetUpSingle demands of the file; otherwise the program exits or divides by zero. */
  predicate Fits(rw: RwParams, fileSize: int) {
    0 < Sizes(rw, fileSize).1 <= fileSize
  }

  /** The largest offset to draw is a number that the narrowing to int leaves non-negative. */
  predicate Drawable(rw: RwParams, fileSize: int) {
    rw.order.Random? ==> 0 <= ToInt(fileSize - Sizes(rw, fileSize).1)
  }

  function Draws<G>(gen: Generator<G>, g: G, block: int, high: int, n: nat): (seq<Unit>, G) {
    if n == 0 then ([], g)
    else
      var (units, g1) := Draws(gen, g, block, high, n - 1);
      var (x, g2) := gen.draw(g1, 0, high);
      (units + [Unit(block, x)], g2)
  }

  /** The plan of one cycle and the generator state it leaves; offsets are drawn between ints. */
  function CyclePlan<G>(gen: Generator<G>, rw: RwParams, fileSize: int, g: G): (seq<Unit>, G)
    requires Fits(rw, fileSize)
  {
    var (size, block) := Sizes(rw, fileSize);
    var g1 := if rw.reseeding.EachCycle? then gen.seeded(rw.seed) else g;
    match rw.order
    case Sequential => (SequentialPlan(rw.startingOffset, block, fileSize, UnitCount(size, block)), g1)
    case Random => Draws(gen, g1, block, ToInt(fileSize - block), UnitCount(size, block))
  }

  /**
   * A size of -1 stands for the length of the file and a block size of -1 likewise: such a sequential plan
   * has as many units as whole blocks fit in the file, and with both it is one unit, the whole file.
   */
  lemma {:induction false} WholeFile<G>(gen: Generator<G>, rw: RwParams, fileSize: int, g: G)
    requires Fits(rw, fileSize) && rw.size == -1 && rw.order.Sequential? && rw.startingOffset >= 0
    ensures var plan := CyclePlan(gen, rw, fileSize, g).0;
      if rw.blockSize == -1 then plan == [Unit(fileSize, 0)]
      else |plan| == fileSize / rw.blockSize && forall i :: 0 <= i < |plan| ==> plan[i].count == rw.blockSize
  {
    var block := Sizes(rw, fileSize).1;
    SequentialClosedForm(rw.startingOffset, block, fileSize, fileSize);
    if rw.blockSize == -1 {
      ModOf(1, 0, fileSize);
      assert UnitCount(fileSize, fileSize) == 1;
    }
  }

  // ---------------------------------------------------------------- rounds of cycles

  function Cycles<G>(gen: Generator<G>, rw: RwParams, fileSize: int, g: G, n: nat): (seq<seq<Unit>>, G)
    requires Fits(rw, fileSize)
  {
    if n == 0 then ([], g)
    else
      var (plans, g1) := Cycles(gen, rw, fileSize, g, n - 1);
      var (plan, g2) := CyclePlan(gen, rw, fileSize, g1);
      (plans + [plan], g2)
  }

  /** SetUp, then `repeat` cycles. */
  function Round<G>(gen: Generator<G>, rw: RwParams, fileSize: int, g: G, repeat: nat): (seq<seq<Unit>>, G)
    requires Fits(rw, fileSize)
  {
    Cycles(gen, rw, fileSize, if rw.reseeding.EachRoundOfCycles? then gen.seeded(rw.seed) else g, repeat)
  }

  function Rounds<G>(gen: Generator<G>, rw: RwParams, fileSize: int, g: G, repeat: nat, n: nat)
    : (seq<seq<seq<Unit>>>, G)
    requires Fits(rw, fileSize)
  {
    if n == 0 then ([], g)
    else
      var (rounds, g1) := Rounds(gen, rw, fileSize, g, repeat, n - 1);
      var (round, g2) := Round(gen, rw, fileSize, g1, repeat);
      (rounds + [round], g2)
  }

  function Concat<T>(s: seq<seq<T>>): seq<T> {
    if s == [] then [] else Concat(s[..|s| - 1]) + s[|s| - 1]
  }

  function Same<T>(x: T, n: nat): seq<T> {
    seq(n, _ => x)
  }

  /** The same instruction without any reseeding after its construction. */
  function Unseeded(rw: RwParams): RwParams {
    rw.(reseeding := Once)
  }

  /** EACH_CYCLE: every cycle of every round has the plan that an unseeded run draws right after the seed. */
  lemma {:induction false} EachCycleSame<G>(gen: Generator<G>, rw: RwParams, fileSize: int, g: G, repeat: nat, n: nat)
    requires Fits(rw, fileSize) && rw.reseeding.EachCycle?
    ensures Rounds(gen, rw, fileSize, g, repeat, n).0
         == Same(Same(CyclePlan(gen, Unseeded(rw), fileSize, gen.seeded(rw.seed)).0, repeat), n)
  {
    if n > 0 {
      EachCycleSame(gen, rw, fileSize, g, repeat, n - 1);
      CyclesSame(gen, rw, fileSize, Rounds(gen, rw, fileSize, g, repeat, n - 1).1, repeat);
    }
  }

  lemma {:induction false} CyclesSame<G>(gen: Generator<G>, rw: RwParams, fileSize: int, g: G, repeat: nat)
    requires Fits(rw, fileSize) && rw.reseeding.EachCycle?
    ensures Cycles(gen, rw, fileSize, g, repeat).0
         == Same(CyclePlan(gen, Unseeded(rw), fileSize, gen.seeded(rw.seed)).0, repeat)
  {
    if repeat > 0 { CyclesSame(gen, rw, fileSize, g, repeat - 1); }
  }

  /** EACH_ROUND_OF_CYCLES: every round has the plans that an unseeded run draws right after the seed. */
  lemma {:induction false} EachRoundSame<G>(gen: Generator<G>, rw: RwParams, fileSize: int, g: G, repeat: nat, n: nat)
    requires Fits(rw, fileSize) && rw.reseeding.EachRoundOfCycles?
    ensures Rounds(gen, rw, fileSize, g, repeat, n).0
         == Same(Cycles(gen, Unseeded(rw), fileSize, gen.seeded(rw.seed), repeat).0, n)
  {
    if n > 0 {
      EachRoundSame(gen, rw, fileSize, g, repeat, n - 1);
      CyclesUnseeded(gen, rw, fileSize, gen.seeded(rw.seed), repeat);
    }
  }

  /** Within a round, EACH_ROUND_OF_CYCLES draws on like ONCE. */
  lemma {:induction false} CyclesUnseeded<G>(gen: Generator<G>, rw: RwParams, fileSize: int, g: G, repeat: nat)
    requires Fits(rw, fileSize) && rw.reseeding.EachRoundOfCycles?
    ensures Cycles(gen, rw, fileSize, g, repeat) == Cycles(gen, Unseeded(rw), fileSize, g, repeat)
  {
    if repeat > 0 { CyclesUnseeded(gen, rw, fileSize, g, repeat - 1); }
  }

  lemma {:induction false} DrawsSplit<G>(gen: Generator<G>, g: G, block: int, high: int, a: nat, b: nat)
    ensures var (first, g1) := Draws(gen, g, block, high, a);
            var (second, g2) := Draws(gen, g1, block, high, b);
            Draws(gen, g, block, high, a + b) == (first + second, g2)
  {
    var (first, g1) := Draws(gen, g, block, high, a);
    if b == 0 {
      assert first + [] == first;
    } else {
      DrawsSplit(gen, g, block, high, a, b - 1);
      var (second, g2) := Draws(gen, g1, block, high, b - 1);
      var x := gen.draw(g2, 0, high).0;
      assert (first + second) + [Unit(block, x)] == first + (second + [Unit(block, x)]);
    }
  }

  lemma {:induction false} ConcatAppend<T>(s: seq<seq<T>>, x: seq<T>)
    ensures Concat(s + [x]) == Concat(s) + x
  {
    assert (s + [x])[..|s|] == s;
  }

  lemma {:induction false} OnceCycles<G>(gen: Generator<G>, rw: RwParams, fileSize: int, g: G, repeat: nat,
        high: int, n: nat)
    requires Fits(rw, fileSize) && rw.reseeding.Once? && rw.order.Random?
    requires high == ToInt(fileSize - Sizes(rw, fileSize).1)
    requires n == UnitCount(Sizes(rw, fileSize).0, Sizes(rw, fileSize).1)
    ensures var (plans, g1) := Cycles(gen, rw, fileSize, g, repeat);
            (Concat(plans), g1) == Draws(gen, g, Sizes(rw, fileSize).1, high, repeat * n)
  {
    var block := Sizes(rw, fileSize).1;
    if repeat > 0 {
      OnceCycles(gen, rw, fileSize, g, repeat - 1, high, n);
      var (plans, g1) := Cycles(gen, rw, fileSize, g, repeat - 1);
      var (plan, g2) := CyclePlan(gen, rw, fileSize, g1);
      assert (plan, g2) == Draws(gen, g1, block, high, n);
      ConcatAppend(plans, plan);
      Continue(gen, g, block, high, repeat, n);
    }
  }

  /** ONCE: all plans of all rounds, one after the other, are one continuous draw from the first state. */
  lemma OnceContinuous<G>(gen: Generator<G>, rw: RwParams, fileSize: int, g: G, repeat: nat, n: nat)
    requires Fits(rw, fileSize) && rw.reseeding.Once? && rw.order.Random?
    ensures var (rounds, g1) := Rounds(gen, rw, fileSize, g, repeat, n);
            var (size, block) := Sizes(rw, fileSize);
            (Concat(Concat(rounds)), g1)
              == Draws(gen, g, block, ToInt(fileSize - block), n * (repeat * UnitCount(size, block)))
  {
    var (size, block) := Sizes(rw, fileSize);
    OnceRounds(gen, rw, fileSize, g, repeat, n, repeat * UnitCount(size, block));
  }

  lemma {:induction false} OnceRounds<G>(gen: Generator<G>, rw: RwParams, fileSize: int, g: G, repeat: nat, n: nat,
        k: nat)
    requires Fits(rw, fileSize) && rw.reseeding.Once? && rw.order.Random?
    requires k == repeat * UnitCount(Sizes(rw, fileSize).0, Sizes(rw, fileSize).1)
    ensures var (rounds, g1) := Rounds(gen, rw, fileSize, g, repeat, n);
            var block := Sizes(rw, fileSize).1;
            (Concat(Concat(rounds)), g1) == Draws(gen, g, block, ToInt(fileSize - block), n * k)
  {
    var block := Sizes(rw, fileSize).1;
    if n > 0 {
      OnceRounds(gen, rw, fileSize, g, repeat, n - 1, k);
      var (rounds, g1) := Rounds(gen, rw, fileSize, g, repeat, n - 1);
      OnceCycles(gen, rw, fileSize, g1, repeat, ToInt(fileSize - block), UnitCount(Sizes(rw, fileSize).0, block));
      var round := Round(gen, rw, fileSize, g1, repeat).0;
      assert (Concat(round), Round(gen, rw, fileSize, g1, repeat).1)
          == Draws(gen, g1, block, ToInt(fileSize - block), k);
      ConcatAppend(rounds, round);
      ConcatTwo(Concat(rounds), round);
      Continue(gen, g, block, ToInt(fileSize - block), n, k);
    }
  }

  lemma Continue<G>(gen: Generator<G>, g: G, block: int, high: int, n: nat, k: nat)
    requires n > 0
    ensures 0 <= (n - 1) * k
    ensures var (first, g1) := Draws(gen, g, block, high, (n - 1) * k);
            var (second, g2) := Draws(gen, g1, block, high, k);
            Draws(gen, g, block, high, n * k) == (first + second, g2)
  {
    MulOrder(0, n - 1, if k == 0 then 1 else k);
    assert (n - 1) * k + k == n * k;
    DrawsSplit(gen, g, block, high, (n - 1) * k, k);
  }

  lemma {:induction false} ConcatTwo<T>(a: seq<seq<T>>, b: seq<seq<T>>)
    ensures Concat(a + b) == Concat(a) + Concat(b)
  {
    if b == [] {
      assert a + b == a;
    } else {
      ConcatTwo(a, b[..|b| - 1]);
      assert (a + b)[..|a + b| - 1] == a + b[..|b| - 1];
    }
  }

  // ---------------------------------------------------------------- the effect of the writes

  const FILL: Byte := 170

  predicate Covers(u: Unit, k: int) {
    u.offset <= k < u.offset + u.count
  }

  predicate Inside(units: seq<Unit>, fileSize: int) {
    forall i :: 0 <= i < |units| ==>
      0 <= units[i].offset && 0 <= units[i].count && units[i].offset + units[i].count <= fileSize
  }

  /** One full write of the buffer. */
  function Written(file: seq<Byte>, u: Unit): seq<Byte> {
    seq(|file|, k requires 0 <= k < |file| => if Covers(u, k) then FILL else file[k])
  }

  function AllWritten(file: seq<Byte>, units: seq<Unit>): (r: seq<Byte>)
    ensures |r| == |file|
  {
    if units == [] then file else Written(AllWritten(file, units[..|units| - 1]), units[|units| - 1])
  }

  /** A byte of the file ends as 170 exactly where some unit covers it, and is untouched elsewhere. */
  lemma {:induction false} WriteEffect(file: seq<Byte>, units: seq<Unit>, k: nat)
    requires k < |file|
    ensures AllWritten(file, units)[k]
         == if exists i :: 0 <= i < |units| && Covers(units[i], k) then 170 else file[k]
  {
    if units != [] {
      var n := |units| - 1;
      WriteEffect(file, units[..n], k);
      if i :| 0 <= i < |units| && Covers(units[i], k) {
        assert i < n ==> Covers(units[..n][i], k);
      }
      assert Covers(units[n], k) || forall i :: 0 <= i < n ==> units[..n][i] == units[i];
    }
  }

  /**
   * A sequential write from offset 0 that is at least as long as the file fills every whole block
   * of it with 170, and leaves the bytes after the last whole block as they were.
   */
  lemma {:induction false} WriteCoverage(file: seq<Byte>, block: int, size: int, k: nat)
    requires 0 < block <= |file| && size / block >= |file| / block && k < |file|
    ensures AllWritten(file, SequentialPlan(0, block, |file|, UnitCount(size, block)))[k]
         == if k < (|file| / block) * block then 170 else file[k]
  {
    var n := |file| / block;
    var plan := SequentialPlan(0, block, |file|, UnitCount(size, block));
    Quotient(|file|, block, n);
    Quotient(|file| - block, block, FirstRun(0, block, |file|) - 1);
    SequentialClosedForm(0, block, |file|, size);
    FirstRunFromZero(block, |file|);
    WriteEffect(file, plan, k);
    if k < n * block {
      var i := k / block;
      Quotient(k, block, i);
      BlockIndex(k, block, n);
      assert Covers(plan[i], k);
    } else {
      forall i | 0 <= i < |plan| ensures !Covers(plan[i], k) {
        WholeBlock(block, |file|, i);
      }
    }
  }

  lemma {:induction false} FirstRunFromZero(block: int, fileSize: int)
    requires 0 < block <= fileSize
    ensures FirstRun(0, block, fileSize) == fileSize / block
  {
    var n := fileSize / block;
    Quotient(fileSize, block, n);
    var w := FirstRun(0, block, fileSize);
    Quotient(fileSize - block, block, w - 1);
    assert (w - 1) * block + block == w * block;
    Multiples(n - w, block);
    assert (n - w) * block == n * block - w * block;
  }

  lemma BlockIndex(k: int, block: int, n: int)
    requires 0 < block && 0 <= k < n * block
    ensures 0 <= k / block < n
  {
    Quotient(k, block, k / block);
    if k / block >= n { MulOrder(n, k / block, block); }
    if k / block < 0 { MulOrder(k / block, -1, block); }
  }

  /** From offset 0 every unit is a whole block below (fileSize / block) * block. */
  lemma {:induction false} WholeBlock(block: int, fileSize: int, i: nat)
    requires 0 < block <= fileSize
    ensures UnitOffset(0, block, fileSize, i) + block <= (fileSize / block) * block
  {
    var n := fileSize / block;
    FirstRunFromZero(block, fileSize);
    FirstUnit(0, block, fileSize, i);
    var k: nat := if i < n then i else (i - n) % n;
    assert UnitOffset(0, block, fileSize, i) == k * block;
    MulOrder(k + 1, n, block);
    assert (k + 1) * block == k * block + block;
  }
}
