/**
 * The instruction object behind read_file and write_file: its fields change from cycle to cycle,
 * and each method is proved against the plans and file effects of ReadWriteFile.
 */
module FileTransfer {
  import opened Common
  import opened Workload
  import opened BlockPlan
  import opened ReadWriteFile

  /** Draws stay within the bounds they were asked for. */
  ghost predicate DrawsInRange<G(!new)>(gen: Generator<G>) {
    forall g: G, low: int, high: int :: low <= high ==> low <= gen.draw(g, low, high).0 <= high
  }

  /** Every unit of a cycle's plan is one block, and lies inside the file. */
  ghost predicate PlanFits(plan: seq<Unit>, block: int, fileSize: int) {
    Inside(plan, fileSize) && forall i :: 0 <= i < |plan| ==> plan[i].count == block
  }

  lemma {:induction false} DrawsFit<G(!new)>(gen: Generator<G>, g: G, block: int, high: int, n: nat)
    requires DrawsInRange(gen) && 0 < block && 0 <= high
    ensures |Draws(gen, g, block, high, n).0| == n
    ensures PlanFits(Draws(gen, g, block, high, n).0, block, high + block)
  {
    if n > 0 { DrawsFit(gen, g, block, high, n - 1); }
  }

  /**
   * Sequential or random, reseeded or not: a cycle has size / block whole units, all inside the
   * file.  A random plan needs a largest offset that survives the narrowing to int.
   */
  lemma CyclePlanFits<G(!new)>(gen: Generator<G>, rw: RwParams, fileSize: int, g: G)
    requires DrawsInRange(gen) && Fits(rw, fileSize) && Drawable(rw, fileSize)
    requires rw.order.Sequential? ==> 0 <= rw.startingOffset
    ensures var (size, block) := Sizes(rw, fileSize);
            var plan := CyclePlan(gen, rw, fileSize, g).0;
            |plan| == (if size < 0 then 0 else size / block) && PlanFits(plan, block, fileSize)
  {
    var (size, block) := Sizes(rw, fileSize);
    match rw.order
    case Sequential => SequentialClosedForm(rw.startingOffset, block, fileSize, size);
    case Random =>
      var g1 := if rw.reseeding.EachCycle? then gen.seeded(rw.seed) else g;
      DrawsFit(gen, g1, block, ToInt(fileSize - block), UnitCount(size, block));
      Narrowing(fileSize - block);
  }

  // ---------------------------------------------------------------- the narrowing of the largest offset

  /** However the generator draws, a cycle stays inside the file. */
  ghost predicate AlwaysInside(rw: RwParams, fileSize: int)
    requires Fits(rw, fileSize)
  {
    forall gen: Generator<int>, g: int :: DrawsInRange(gen) ==> Inside(CyclePlan(gen, rw, fileSize, g).0, fileSize)
  }

  /** Some generator makes a cycle transfer the block at offset x. */
  ghost predicate Reaches(rw: RwParams, fileSize: int, x: int)
    requires Fits(rw, fileSize)
  {
    exists gen: Generator<int>, g: int ::
      DrawsInRange(gen) && Unit(Sizes(rw, fileSize).1, x) in CyclePlan(gen, rw, fileSize, g).0
  }

  /** Draws x whenever the bounds allow it or are reversed. */
  function Stubborn(x: int): Generator<int> {
    Generator(_ => x, (g, low, high) => (if low <= high && !(low <= x <= high) then low else x, g))
  }

  lemma {:induction false} StubbornDraws(x: int, g: int, block: int, high: int, n: nat)
    requires n > 0 && (high < 0 || 0 <= x <= high)
    ensures DrawsInRange(Stubborn(x))
    ensures var units := Draws(Stubborn(x), g, block, high, n).0; |units| == n && units[0] == Unit(block, x)
  {
    if n > 1 { StubbornDraws(x, g, block, high, n - 1); }
  }

  /** A random plan lies inside the file, whatever is drawn, if and only if the narrowed bound is not negative. */
  lemma RandomInsideExactly(rw: RwParams, fileSize: int)
    requires Fits(rw, fileSize) && rw.order.Random?
    requires UnitCount(Sizes(rw, fileSize).0, Sizes(rw, fileSize).1) > 0
    ensures AlwaysInside(rw, fileSize) <==> 0 <= ToInt(fileSize - Sizes(rw, fileSize).1)
  {
    var (size, block) := Sizes(rw, fileSize);
    if 0 <= ToInt(fileSize - block) {
      forall gen: Generator<int>, g: int | DrawsInRange(gen)
        ensures Inside(CyclePlan(gen, rw, fileSize, g).0, fileSize)
      {
        CyclePlanFits(gen, rw, fileSize, g);
      }
    } else {
      var g := if rw.reseeding.EachCycle? then -1 else 0;
      StubbornDraws(-1, g, block, ToInt(fileSize - block), UnitCount(size, block));
      assert CyclePlan(Stubborn(-1), rw, fileSize, 0).0[0].offset == -1;
    }
  }

  /**
   * Random offsets cover the file, each offset being possible and none lying outside, if and only if
   * the largest offset fits in an int.
   */
  lemma RandomCoversExactly(rw: RwParams, fileSize: int)
    requires Fits(rw, fileSize) && rw.order.Random?
    requires UnitCount(Sizes(rw, fileSize).0, Sizes(rw, fileSize).1) > 0
    ensures AlwaysInside(rw, fileSize)
              && (forall x :: 0 <= x <= fileSize - Sizes(rw, fileSize).1 ==> Reaches(rw, fileSize, x))
       <==> fileSize - Sizes(rw, fileSize).1 <= INT_MAX
  {
    var (size, block) := Sizes(rw, fileSize);
    var last := fileSize - block;
    Narrowing(last);
    RandomInsideExactly(rw, fileSize);
    if last <= INT_MAX {
      forall x | 0 <= x <= last ensures Reaches(rw, fileSize, x) {
        StubbornDraws(x, x, block, last, UnitCount(size, block));
        assert CyclePlan(Stubborn(x), rw, fileSize, x).0[0] == Unit(block, x);
      }
    } else if 0 <= ToInt(last) {
      forall gen: Generator<int>, g: int | DrawsInRange(gen)
        ensures Unit(block, last) !in CyclePlan(gen, rw, fileSize, g).0
      {
        var g1 := if rw.reseeding.EachCycle? then gen.seeded(rw.seed) else g;
        DrawsFit(gen, g1, block, ToInt(last), UnitCount(size, block));
      }
      assert !Reaches(rw, fileSize, last);
    }
  }

  /** For instance, blocks of 4096 bytes in a file of 4 GiB: the bound narrows to -4096. */
  lemma RandomOutside(rw: RwParams)
    requires rw.order.Random? && rw.blockSize == 4096 && rw.size >= 4096
    ensures ToInt(0x1_0000_0000 - 4096) == -4096 && !AlwaysInside(rw, 0x1_0000_0000)
  {
    RandomInsideExactly(rw, 0x1_0000_0000);
  }

  lemma {:induction false} AllWrittenAppend(file: seq<Byte>, a: seq<Unit>, b: seq<Unit>)
    ensures AllWritten(file, a + b) == AllWritten(AllWritten(file, a), b)
  {
    if b == [] {
      assert a + b == a;
    } else {
      AllWrittenAppend(file, a, b[..|b| - 1]);
      assert (a + b)[..|a + b| - 1] == a + b[..|b| - 1];
    }
  }

  class ReadWriteFileInstruction<G(!new)> {
    const gen: Generator<G>
    const rw: RwParams
    var state: G
    var size: int
    var blockSize: int
    var units: seq<Unit>
    var buffer: array<Byte>

    constructor (gen: Generator<G>, rw: RwParams)
      ensures this.gen == gen && this.rw == rw && state == gen.seeded(rw.seed) && fresh(buffer)
    {
      this.gen, this.rw, state, size, blockSize, units := gen, rw, gen.seeded(rw.seed), rw.size, rw.blockSize, [];
      buffer := new Byte[0];
    }

    /** Before a round of cycles. */
    method SetUp()
      modifies this`state
      ensures state == if rw.reseeding.EachRoundOfCycles? then gen.seeded(rw.seed) else old(state)
    {
      if rw.reseeding == EachRoundOfCycles { state := gen.seeded(rw.seed); }
    }

    /** Before each cycle: fix the sizes, fill a fresh buffer, plan the units. */
    method SetUpSingle(fileSize: int)
      requires Fits(rw, fileSize)
      requires rw.size != -1 ==> size == rw.size
      requires rw.blockSize != -1 ==> blockSize == rw.blockSize
      modifies this
      ensures (size, blockSize) == Sizes(rw, fileSize)
      ensures (units, state) == CyclePlan(gen, rw, fileSize, old(state))
      ensures fresh(buffer) && buffer[..] == Same(170, blockSize)
    {
      if rw.size == -1 { size := fileSize; }
      if rw.blockSize == -1 { blockSize := fileSize; }
      buffer := new Byte[blockSize](_ => FILL);
      if rw.reseeding == EachCycle { state := gen.seeded(rw.seed); }
      units := [];
      if rw.order == Sequential {
        PlanSequential(fileSize);
      } else {
        PlanRandom(fileSize);
      }
    }

    method PlanSequential(fileSize: int)
      requires blockSize > 0 && units == []
      modifies this`units
      ensures units == SequentialPlan(rw.startingOffset, blockSize, fileSize, UnitCount(size, blockSize))
    {
      var offset := rw.startingOffset;
      var start, block := rw.startingOffset, blockSize;
      for i := 0 to UnitCount(size, block)
        invariant offset == OffsetAt(start, block, fileSize, i)
        invariant units == SequentialPlan(start, block, fileSize, i)
      {
        PlanStep(start, block, fileSize, i);
        if offset > fileSize - blockSize { offset := 0; }
        units := units + [Unit(blockSize, offset)];
        offset := offset + blockSize;
      }
    }

    method PlanRandom(fileSize: int)
      requires blockSize > 0 && units == []
      modifies this`units, this`state
      ensures (units, state)
           == Draws(gen, old(state), blockSize, ToInt(fileSize - blockSize), UnitCount(size, blockSize))
    {
      for i := 0 to UnitCount(size, blockSize)
        invariant (units, state) == Draws(gen, old(state), blockSize, ToInt(fileSize - blockSize), i)
      {
        var (x, next) := gen.draw(state, 0, ToInt(fileSize - blockSize));
        units := units + [Unit(blockSize, x)];
        state := next;
      }
    }

    /** write_file's RunSingle on the bytes of the file, every write complete. */
    method WriteUnits(file: array<Byte>)
      requires file != buffer && PlanFits(units, blockSize, file.Length)
      requires buffer.Length == blockSize && buffer[..] == Same(170, buffer.Length)
      modifies file
      ensures file[..] == AllWritten(old(file[..]), units)
    {
      assert units[..0] == [];
      for i := 0 to |units|
        invariant file[..] == AllWritten(old(file[..]), units[..i])
      {
        ghost var before := file[..];
        CopyBlock(file, units[i].offset);
        assert file[..] == Written(before, units[i]);
        assert units[..i + 1][..i] == units[..i];
      }
      assert units[..|units|] == units;
    }

    /** One complete write of the buffer. */
    method CopyBlock(file: array<Byte>, offset: nat)
      requires file != buffer && offset + buffer.Length <= file.Length
      modifies file
      ensures file[..] == old(file[..offset]) + buffer[..] + old(file[offset + buffer.Length..])
    {
      for k := 0 to buffer.Length
        invariant forall j :: 0 <= j < file.Length ==>
          file[j] == if offset <= j < offset + k then buffer[j - offset] else old(file[j])
      {
        file[offset + k] := buffer[k];
      }
    }

    /** read_file's RunSingle: the buffer ends with the bytes of the last unit; the file is only read. */
    method ReadUnits(file: array<Byte>)
      requires file != buffer && PlanFits(units, blockSize, file.Length) && buffer.Length == blockSize
      modifies buffer
      ensures |units| > 0 ==>
        var u := units[|units| - 1]; buffer[..] == file[u.offset..u.offset + u.count]
      ensures |units| == 0 ==> buffer[..] == old(buffer[..])
    {
      for i := 0 to |units|
        invariant i > 0 ==> var u := units[i - 1]; buffer[..] == file[u.offset..u.offset + u.count]
        invariant i == 0 ==> buffer[..] == old(buffer[..])
      {
        var u := units[i];
        for k := 0 to blockSize
          invariant forall j :: 0 <= j < k ==> buffer[j] == file[u.offset + j]
        {
          buffer[k] := file[u.offset + k];
        }
      }
    }

    /**
     * A whole round of a write_file: however the plans were drawn, the file ends as if all units
     * of all cycles had been written in order, and the generator is where the round leaves it.
     */
    method WriteRound(file: array<Byte>, repeat: nat)
      requires DrawsInRange(gen) && Fits(rw, file.Length) && Drawable(rw, file.Length)
      requires rw.order.Sequential? ==> 0 <= rw.startingOffset
      requires file != buffer
      requires rw.size != -1 ==> size == rw.size
      requires rw.blockSize != -1 ==> blockSize == rw.blockSize
      modifies this, file
      ensures var (plans, after) := Round(gen, rw, file.Length, old(state), repeat);
              state == after && file[..] == AllWritten(old(file[..]), Concat(plans))
      ensures file != buffer
      ensures rw.size != -1 ==> size == rw.size
      ensures rw.blockSize != -1 ==> blockSize == rw.blockSize
    {
      SetUp();
      ghost var start := state;
      for i := 0 to repeat
        invariant file != buffer
        invariant rw.size != -1 ==> size == rw.size
        invariant rw.blockSize != -1 ==> blockSize == rw.blockSize
        invariant state == Cycles(gen, rw, file.Length, start, i).1
        invariant file[..] == AllWritten(old(file[..]), Concat(Cycles(gen, rw, file.Length, start, i).0))
      {
        ghost var (plans, _) := Cycles(gen, rw, file.Length, start, i);
        CyclePlanFits(gen, rw, file.Length, state);
        SetUpSingle(file.Length);
        WriteUnits(file);
        ConcatAppend(plans, units);
        AllWrittenAppend(old(file[..]), Concat(plans), units);
      }
    }
  }
}
