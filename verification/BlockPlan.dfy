/** The sequence of (count, offset) units that one read_file or write_file cycle transfers. */
module BlockPlan {
  import opened Common

  datatype Unit = Unit(count: int, offset: int)

  /** C++ integer division for a positive divisor, as a loop bound. */
  function UnitCount(size: int, block: int): nat
    requires block > 0
  {
    if size < 0 then 0 else size / block
  }

  function Wrap(offset: int, block: int, fileSize: int): int {
    if offset > fileSize - block then 0 else offset
  }

  /** The loop variable `offset` at the start of iteration n. */
  function OffsetAt(start: int, block: int, fileSize: int, n: nat): int {
    if n == 0 then start else Wrap(OffsetAt(start, block, fileSize, n - 1), block, fileSize) + block
  }

  function SequentialPlan(start: int, block: int, fileSize: int, n: nat): seq<Unit> {
    seq(n, i requires 0 <= i < n => Unit(block, Wrap(OffsetAt(start, block, fileSize, i), block, fileSize)))
  }

  lemma PlanStep(start: int, block: int, fileSize: int, n: nat)
    ensures SequentialPlan(start, block, fileSize, n + 1)
         == SequentialPlan(start, block, fileSize, n)
          + [Unit(block, Wrap(OffsetAt(start, block, fileSize, n), block, fileSize))]
  {}

  // ---------------------------------------------------------------- closed form

  /** How many units fit between the starting offset and the end of the file. */
  function FirstRun(start: int, block: int, fileSize: int): nat
    requires 0 < block
  {
    if start > fileSize - block then 0 else (fileSize - block - start) / block + 1
  }

  /** Where unit i starts: on from the starting offset, then round and round from 0. */
  function UnitOffset(start: int, block: int, fileSize: int, i: nat): int
    requires 0 < block <= fileSize
  {
    UnitAt(start, block, FirstRun(start, block, fileSize), fileSize / block, i)
  }

  function UnitAt(start: int, block: int, w: nat, n: int, i: nat): int {
    if i < w then start + i * block else if n > 0 then ((i - w) % n) * block else 0
  }

  lemma Quotient(a: int, b: int, q: int)
    requires b > 0 && q == a / b
    ensures q * b <= a < q * b + b
  {}

  lemma MulOrder(i: int, j: int, b: int)
    requires b > 0 && i <= j
    ensures i * b <= j * b
  {}

  lemma {:induction false} NextMod(a: nat, n: nat)
    requires n > 0
    ensures (a + 1) % n == if a % n + 1 == n then 0 else a % n + 1
  {
    var q, r := a / n, a % n;
    assert a == q * n + r;
    if r + 1 == n {
      assert a + 1 == (q + 1) * n;
      ModOf(q + 1, 0, n);
    } else {
      ModOf(q, r + 1, n);
    }
  }

  lemma ModOf(q: int, r: int, n: int)
    requires 0 <= r < n
    ensures (q * n + r) % n == r
  {
    var x := q * n + r;
    assert (q - x / n) * n == x % n - r;
    Multiples(q - x / n, n);
  }

  /** On the first run: unit i still fits exactly while i < w. */
  lemma {:induction false} RunBound(start: int, block: int, fileSize: int, i: nat)
    requires 0 <= start <= fileSize - block && 0 < block
    ensures start + i * block <= fileSize - block <==> i < FirstRun(start, block, fileSize)
  {
    var w := FirstRun(start, block, fileSize);
    Quotient(fileSize - block - start, block, w - 1);
    if i < w {
      MulOrder(i, w - 1, block);
    } else {
      MulOrder(w, i, block);
      assert w * block == (w - 1) * block + block;
    }
  }

  /** On the later runs: after block k comes block k + 1, or block 0 at the end of the file. */
  lemma {:induction false} CycleBound(block: int, fileSize: int, n: int, k: nat)
    requires 0 < block && n * block <= fileSize < n * block + block && k < n
    ensures 0 <= k * block <= fileSize - block
    ensures Wrap(k * block + block, block, fileSize) == if k + 1 == n then 0 else (k + 1) * block
  {
    MulOrder(0, k, block);
    MulOrder(k + 1, n, block);
    assert k * block + block == (k + 1) * block;
    if k + 1 < n {
      MulOrder(k + 2, n, block);
      assert (k + 2) * block == k * block + 2 * block;
    }
  }

  /** One step of the loop, given where the first run ends. */
  lemma {:induction false} NextUnit(start: int, block: int, fileSize: int, w: nat, n: int, i: nat)
    requires 0 <= start && 0 < block && n * block <= fileSize < n * block + block && 0 < n
    requires i < w ==> start + i * block <= fileSize - block
    requires i == w ==> start + i * block > fileSize - block
    ensures 0 <= UnitAt(start, block, w, n, i) <= fileSize - block
    ensures i > 0 ==> Wrap(UnitAt(start, block, w, n, i - 1) + block, block, fileSize) == UnitAt(start, block, w, n, i)
  {
    if i < w {
      MulOrder(0, i, block);
      assert i > 0 ==> (i - 1) * block + block == i * block;
    } else if i == w {
      ModOf(0, 0, n);
      CycleBound(block, fileSize, n, 0);
      assert i > 0 ==> (i - 1) * block + block == i * block;
    } else {
      CycleBound(block, fileSize, n, (i - 1 - w) % n);
      CycleBound(block, fileSize, n, (i - w) % n);
      NextMod(i - 1 - w, n);
    }
  }

  /** The loop and the closed form agree on every unit, and every unit lies inside the file. */
  lemma {:induction false} UnitIs(start: int, block: int, fileSize: int, i: nat)
    requires 0 <= start && 0 < block <= fileSize
    ensures Wrap(OffsetAt(start, block, fileSize, i), block, fileSize) == UnitOffset(start, block, fileSize, i)
    ensures 0 <= UnitOffset(start, block, fileSize, i) <= fileSize - block
  {
    var w, n := FirstRun(start, block, fileSize), fileSize / block;
    Quotient(fileSize, block, n);
    FirstUnit(start, block, fileSize, i);
    NextUnit(start, block, fileSize, w, n, i);
    if i > 0 {
      UnitIs(start, block, fileSize, i - 1);
    } else {
      ModOf(0, 0, n);
    }
  }

  lemma {:induction false} FirstUnit(start: int, block: int, fileSize: int, i: nat)
    requires 0 <= start && 0 < block <= fileSize
    ensures 0 < fileSize / block
    ensures var w := FirstRun(start, block, fileSize);
            && (i < w ==> start + i * block <= fileSize - block)
            && (i == w ==> start + i * block > fileSize - block)
  {
    Quotient(fileSize, block, fileSize / block);
    if start <= fileSize - block {
      RunBound(start, block, fileSize, i);
    }
  }

  /**
   * The sequential plan in closed form: size / block units of one block each; the first ones run
   * on from the starting offset, the others cycle through the blocks of the file from 0.
   */
  lemma SequentialClosedForm(start: int, block: int, fileSize: int, size: int)
    requires 0 <= start && 0 < block <= fileSize
    ensures var plan := SequentialPlan(start, block, fileSize, UnitCount(size, block));
            && |plan| == (if size < 0 then 0 else size / block)
            && forall i :: 0 <= i < |plan| ==>
                 && plan[i] == Unit(block, UnitOffset(start, block, fileSize, i))
                 && 0 <= plan[i].offset && plan[i].offset + plan[i].count <= fileSize
  {
    forall i: nat
      ensures Wrap(OffsetAt(start, block, fileSize, i), block, fileSize) == UnitOffset(start, block, fileSize, i)
      ensures 0 <= UnitOffset(start, block, fileSize, i) <= fileSize - block
    {
      UnitIs(start, block, fileSize, i);
    }
  }

  /** A one-unit plan reads exactly where it was asked to exactly when the range fits in the file. */
  lemma OneUnit(size: int, offset: int, fileSize: int)
    requires 0 <= offset && 0 < size <= fileSize
    ensures SequentialPlan(offset, size, fileSize, UnitCount(size, size)) == [Unit(size, offset)]
       <==> offset + size <= fileSize
  {
    assert UnitCount(size, size) == 1;
    assert SequentialPlan(offset, size, fileSize, 1)[0] == Unit(size, Wrap(offset, size, fileSize));
  }
}
