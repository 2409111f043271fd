/** The bump allocator of lt_pool.c. Addresses are numbers; aligned_alloc is a parameter. */
module Pools {

  // sizeof(uintptr_t), ALIGNMENT, sizeof(lt_memory_pool_t) and sizeof(lt_memory_pool_manager_t) on a 64-bit machine.
  const WORD: nat := 8
  const ALIGNMENT: nat := 16
  const POOL_HEADER: nat := 40
  const MANAGER_SIZE: nat := 48

  /** alignment_ptr: the next multiple of a word. */
  function AlignUp(p: nat): (r: nat)
    ensures p <= r < p + WORD && r % WORD == 0
  {
    (p + (WORD - 1)) / WORD * WORD
  }

  /** The mask `& ~(a - 1)` with a word for a. */
  lemma MaskRoundsDown(x: bv64)
    ensures x & !7 == x / 8 * 8
  {
  }

  /** The position of a new pool is just behind its header. */
  lemma FirstPos(address: nat)
    requires address % ALIGNMENT == 0
    ensures AlignUp(address + POOL_HEADER) == address + POOL_HEADER && (address + POOL_HEADER) % WORD == 0
  {
    var q := address / ALIGNMENT;
    assert address + POOL_HEADER == (2 * q + 5) * WORD;
    AlignedAlready(2 * q + 5);
  }

  lemma AlignedAlready(n: nat)
    ensures n * WORD % WORD == 0 && AlignUp(n * WORD) == n * WORD
  {
    assert (n * WORD + 7) / 8 == n;
  }

  /** The room of a pool, its header included: the size of the manager is taken for that of the header. */
  function PoolSize(elementSize: nat, elementCount: nat): nat { MANAGER_SIZE + elementCount * elementSize }

  // ---------- where the blocks of a pool lie ----------

  /** Where the position of a pool is after n blocks. */
  function Bumped(pos: nat, elementSize: nat, n: nat): nat {
    if n == 0 then pos else AlignUp(Bumped(pos, elementSize, n - 1) + elementSize)
  }

  lemma AlignPast(pos: nat, size: nat)
    requires pos % WORD == 0
    ensures AlignUp(pos + size) == pos + AlignUp(size) && AlignUp(pos) == pos
  {
    var k, q := pos / WORD, (size + (WORD - 1)) / WORD;
    assert pos == k * WORD;
    assert (pos + size + (WORD - 1)) / WORD == k + q;
    AlignedAlready(k);
  }

  lemma Once(i: nat, size: nat)
    requires i > 0
    ensures i * size == (i - 1) * size + size
  {
  }

  lemma {:induction false} Spread(n: nat, m: nat, a: nat)
    requires n < m
    ensures n * a + a <= m * a
  {
    Once(m, a);
    if n < m - 1 {
      Spread(n, m - 1, a);
    }
  }

  lemma {:induction false} BumpedIs(pos: nat, elementSize: nat, n: nat)
    requires pos % WORD == 0
    ensures Bumped(pos, elementSize, n) % WORD == 0
    ensures Bumped(pos, elementSize, n) == pos + n * AlignUp(elementSize)
  {
    hide AlignUp;
    if n > 0 {
      BumpedIs(pos, elementSize, n - 1);
      AlignPast(Bumped(pos, elementSize, n - 1), elementSize);
      Once(n, AlignUp(elementSize));
    }
  }

  /** The block of a pool that is handed out after n others. */
  function BlockAt(start: nat, elementSize: nat, n: nat): nat {
    Bumped(AlignUp(start + POOL_HEADER), elementSize, n)
  }

  lemma BlockAtIs(start: nat, elementSize: nat, n: nat)
    requires start % ALIGNMENT == 0
    ensures BlockAt(start, elementSize, n) == start + POOL_HEADER + n * AlignUp(elementSize)
    ensures BlockAt(start, elementSize, n) % WORD == 0
  {
    FirstPos(start);
    BumpedIs(AlignUp(start + POOL_HEADER), elementSize, n);
  }

  /** After n blocks the position has not passed the end. */
  predicate Holds(elementSize: nat, elementCount: nat, n: nat) {
    n * AlignUp(elementSize) <= elementCount * elementSize + (MANAGER_SIZE - POOL_HEADER)
  }

  lemma NoneTaken(start: nat, elementSize: nat, elementCount: nat)
    ensures BlockAt(start, elementSize, 0) == AlignUp(start + POOL_HEADER) && Holds(elementSize, elementCount, 0)
  {
  }

  lemma HoldsIs(start: nat, elementSize: nat, elementCount: nat, n: nat)
    requires start % ALIGNMENT == 0
    ensures BlockAt(start, elementSize, n) <= start + PoolSize(elementSize, elementCount) <==>
              Holds(elementSize, elementCount, n)
  {
    BlockAtIs(start, elementSize, n);
  }

  /** The block that comes after n others lies inside its pool. */
  predicate Inside(start: nat, elementSize: nat, elementCount: nat, n: nat) {
    BlockAt(start, elementSize, n) + elementSize <= start + PoolSize(elementSize, elementCount)
  }

  /** It does exactly if n aligned sizes and one plain size exceed those paid for by no more than 8. */
  lemma Capacity(start: nat, elementSize: nat, elementCount: nat, n: nat)
    requires start % ALIGNMENT == 0
    ensures Inside(start, elementSize, elementCount, n) <==>
              n * AlignUp(elementSize) + elementSize <= elementCount * elementSize + (MANAGER_SIZE - POOL_HEADER)
  {
    BlockAtIs(start, elementSize, n);
  }

  lemma Multiples(n: nat, m: nat, size: nat)
    requires size > WORD
    ensures n * size <= m * size + (MANAGER_SIZE - POOL_HEADER) <==> n <= m
  {
    if n <= m {
      assert (m - n) * size >= 0;
    } else {
      assert (n - m - 1) * size >= 0;
    }
  }

  /** Whole words, more than one: a pool holds the blocks it was made for, and its position shows it. */
  lemma HoldsItsCount(start: nat, elementSize: nat, elementCount: nat, n: nat)
    requires start % ALIGNMENT == 0 && elementSize % WORD == 0 && elementSize > WORD
    ensures Inside(start, elementSize, elementCount, n) <==> n < elementCount
    ensures Holds(elementSize, elementCount, n) <==> n <= elementCount
  {
    hide BlockAt, PoolSize, AlignUp, Inside;
    Capacity(start, elementSize, elementCount, n);
    AlignPast(elementSize, 0);
    Once(n + 1, elementSize);
    Multiples(n + 1, elementCount, elementSize);
    Multiples(n, elementCount, elementSize);
  }

  /** No whole words: of elements of 12 bytes the third still lies inside, though the position passes the end. */
  lemma OddSizes(start: nat)
    requires start % ALIGNMENT == 0
    ensures Inside(start, 12, 3, 2) && !Holds(12, 3, 3)
  {
    Capacity(start, 12, 3, 2);
  }

  /** A block whose bump stays inside does so itself. */
  lemma BumpCovers(start: nat, elementSize: nat, elementCount: nat, n: nat)
    requires start % ALIGNMENT == 0 && Holds(elementSize, elementCount, n + 1)
    ensures Inside(start, elementSize, elementCount, n)
  {
    hide AlignUp;
    Capacity(start, elementSize, elementCount, n);
    Once(n + 1, AlignUp(elementSize));
  }

  lemma HoldsLess(elementSize: nat, elementCount: nat, n: nat, m: nat)
    requires n <= m && Holds(elementSize, elementCount, m)
    ensures Holds(elementSize, elementCount, n)
  {
    hide AlignUp;
    if n < m {
      Spread(n, m, AlignUp(elementSize));
    }
  }

  /** Nodes of a gather list, 40 bytes each: the block after 32 is handed out when 8 bytes of their pool are left. */
  lemma EscapingBlock(start: nat)
    requires start % ALIGNMENT == 0
    ensures !Inside(start, 40, 32, 32) && !Holds(40, 32, 33) && Holds(40, 32, 32)
    ensures BlockAt(start, 40, 32) == start + 1320 && start + PoolSize(40, 32) == start + 1328
  {
    BlockAtIs(start, 40, 32);
  }

  predicate Apart(a: nat, aEnd: nat, b: nat, bEnd: nat) { aEnd <= b || bEnd <= a }

  /** Blocks of one pool follow one another. */
  lemma InOrder(start: nat, elementSize: nat, n: nat, m: nat)
    requires start % ALIGNMENT == 0 && n < m
    ensures BlockAt(start, elementSize, n) + elementSize <= BlockAt(start, elementSize, m)
  {
    hide AlignUp, BlockAt;
    BlockAtIs(start, elementSize, n);
    BlockAtIs(start, elementSize, m);
    Spread(n, m, AlignUp(elementSize));
  }

  // ---------- the manager ----------

  class Pool {
    const start: nat
    const end: nat
    var pos: nat
    var next: Pool?

    constructor (start: nat, end: nat)
      ensures this.start == start && this.end == end && pos == AlignUp(start + POOL_HEADER) && next == null
    {
      this.start, this.end := start, end;
      pos := AlignUp(start + POOL_HEADER);
      next := null;
    }
  }

  predicate Regions(pools: seq<Pool>) {
    forall i, j :: 0 <= i < j < |pools| ==> Apart(pools[i].start, pools[i].end, pools[j].start, pools[j].end)
  }

  lemma RegionsGrow(pools: seq<Pool>, p: Pool)
    requires Regions(pools) && forall q :: q in pools ==> Apart(q.start, q.end, p.start, p.end)
    ensures Regions(pools + [p])
  {
  }

  class Manager {
    const elementSize: nat
    const elementCount: nat
    var cur: Pool?
    var head: Pool?
    var tail: Pool?
    /** All pools, and how many blocks each has handed out. */
    ghost var pools: seq<Pool>
    ghost var taken: seq<nat>

    ghost predicate Listed()
      reads this, pools
    {
      && pools != [] && head == pools[0] && tail == cur == pools[|pools| - 1]
      && (forall i, j :: 0 <= i < j < |pools| ==> pools[i] != pools[j])
      && (forall i :: 0 <= i < |pools| - 1 ==> pools[i].next == pools[i + 1])
    }

    ghost predicate Laid()
      reads `pools
    {
      && Regions(pools)
      && forall p :: p in pools ==>
           p.start % ALIGNMENT == 0 && p.end == p.start + PoolSize(elementSize, elementCount)
    }

    /** Every pool stands behind the blocks it has handed out. */
    ghost predicate Counted()
      reads this, pools
    {
      && |taken| == |pools|
      && forall i :: 0 <= i < |pools| ==> pools[i].pos == BlockAt(pools[i].start, elementSize, taken[i])
    }

    /** The n-th block takes the position past the end, and no earlier one does. */
    ghost predicate Full(n: nat) {
      n > 0 && !Holds(elementSize, elementCount, n) && Holds(elementSize, elementCount, n - 1)
    }

    /** Every pool but the last was left by the first block that took its position past the end. */
    ghost predicate Filled()
      reads this
    {
      && taken != [] && Holds(elementSize, elementCount, taken[|taken| - 1])
      && forall i :: 0 <= i < |taken| - 1 ==> Full(taken[i])
    }

    ghost predicate Valid()
      reads this, pools
    {
      Listed() && Laid() && Counted() && Filled()
    }

    /** A block handed out is aligned, behind the header and in front of the position of its pool. */
    lemma BlockInside(i: nat, n: nat)
      requires Valid() && i < |pools| && n < taken[i]
      ensures var a := BlockAt(pools[i].start, elementSize, n);
              && a % WORD == 0 && pools[i].start + POOL_HEADER <= a && a + elementSize <= pools[i].pos
              && (Inside(pools[i].start, elementSize, elementCount, n) ==> a + elementSize <= pools[i].end)
    {
      hide BlockAt, AlignUp, Regions, PoolSize;
      BlockAtIs(pools[i].start, elementSize, n);
      InOrder(pools[i].start, elementSize, n, taken[i]);
    }

    /** Of all blocks handed out only the last one of a pool that was left may reach behind its end. */
    lemma OnlyTheLastEscapes(i: nat, n: nat)
      requires Valid() && i < |pools| && n < taken[i]
      ensures i == |pools| - 1 || n + 1 < taken[i] ==> Inside(pools[i].start, elementSize, elementCount, n)
      ensures elementSize % WORD == 0 && elementSize > WORD ==>
                && (i < |pools| - 1 ==> taken[i] == elementCount + 1)
                && (Inside(pools[i].start, elementSize, elementCount, n) <==> i == |pools| - 1 || n + 1 < taken[i])
    {
      hide BlockAt, AlignUp, Regions, PoolSize, Holds, Inside;
      if i == |pools| - 1 {
        HoldsLess(elementSize, elementCount, n + 1, taken[i]);
        BumpCovers(pools[i].start, elementSize, elementCount, n);
      } else if n + 1 < taken[i] {
        HoldsLess(elementSize, elementCount, n + 1, taken[i] - 1);
        BumpCovers(pools[i].start, elementSize, elementCount, n);
      }
      if elementSize % WORD == 0 && elementSize > WORD {
        HoldsItsCount(pools[i].start, elementSize, elementCount, n);
        HoldsItsCount(pools[i].start, elementSize, elementCount, taken[i]);
        if i < |pools| - 1 {
          HoldsItsCount(pools[i].start, elementSize, elementCount, taken[i] - 1);
        }
      }
    }

    /** Two blocks handed out, of the same pool or of two, do not overlap if they lie inside their pools. */
    lemma BlocksApart(i: nat, n: nat, j: nat, m: nat)
      requires Valid() && i < |pools| && j < |pools| && (i != j || n != m)
      requires n < taken[i] && m < taken[j]
      requires Inside(pools[i].start, elementSize, elementCount, n)
      requires Inside(pools[j].start, elementSize, elementCount, m)
      ensures var a, b := BlockAt(pools[i].start, elementSize, n), BlockAt(pools[j].start, elementSize, m);
              Apart(a, a + elementSize, b, b + elementSize)
    {
      hide BlockAt, AlignUp, PoolSize;
      BlockInside(i, n);
      BlockInside(j, m);
      if i < j {
        assert Apart(pools[i].start, pools[i].end, pools[j].start, pools[j].end);
      } else if j < i {
        assert Apart(pools[j].start, pools[j].end, pools[i].start, pools[i].end);
      } else if n < m {
        InOrder(pools[i].start, elementSize, n, m);
      } else {
        InOrder(pools[i].start, elementSize, m, n);
      }
    }

    /** What aligned_alloc promises of the memory it gives. */
    ghost predicate Clear(address: nat)
      reads `pools
    {
      && address % ALIGNMENT == 0
      && forall p :: p in pools ==> Apart(p.start, p.end, address, address + PoolSize(elementSize, elementCount))
    }

    /** lt_new_memory_pool_manager */
    constructor (elementSize: nat, elementCount: nat, address: nat)
      requires address % ALIGNMENT == 0
      ensures Valid() && taken == [0] && |pools| == 1 && pools[0].start == address && fresh(pools[0])
      ensures tail.pos == address + POOL_HEADER
      ensures this.elementSize == elementSize && this.elementCount == elementCount
    {
      this.elementSize, this.elementCount := elementSize, elementCount;
      cur, head, tail := null, null, null;
      pools, taken := [], [0];
      new;
      hide AlignUp, BlockAt, Holds;
      FirstPos(address);
      NoneTaken(address, elementSize, elementCount);
      cur := NewPool(address);
      tail := cur;
      head := cur;
    }

    /** lt_new_memory_pool: a pool behind the last one, if there is one. */
    method NewPool(address: nat) returns (pool: Pool)
      requires cur != null ==> tail != null
      modifies this`cur, this`tail, this`pools, if cur != null then {tail} else {}
      ensures fresh(pool) && pool.start == address && pool.end == address + PoolSize(elementSize, elementCount)
      ensures pool.pos == AlignUp(address + POOL_HEADER) && pool.next == null
      ensures cur == tail == pool && pools == old(pools) + [pool]
      ensures old(cur) != null ==> old(tail).next == pool && old(tail).pos == old(tail.pos)
    {
      pool := new Pool(address, address + MANAGER_SIZE + elementCount * elementSize);
      if cur != null {
        tail.next := pool;
      }
      cur := pool;
      tail := pool;
      pools := pools + [pool];
    }

    /** How many blocks the last pool has handed out. */
    ghost function Taken(): nat
      reads this
      requires taken != []
    {
      taken[|taken| - 1]
    }

    /**
     lt_alloc: the next block of the last pool. Once the bump passes the end there is a new pool, but
     the block still comes from the old one.
     */
    method Alloc(address: nat) returns (space: nat)
      requires Valid() && Clear(address)
      modifies this`cur, this`tail, this`pools, this`taken, tail
      ensures Valid() && head == old(head)
      ensures space == old(tail.pos) == BlockAt(old(tail).start, elementSize, old(Taken()))
      ensures old(tail).pos == AlignUp(space + elementSize)
      ensures var n := old(Taken()) + 1;
              var counted := old(taken)[|old(taken)| - 1 := n];
              if Holds(elementSize, elementCount, n) then
                tail == old(tail) && pools == old(pools) && taken == counted
              else
                && pools[..|pools| - 1] == old(pools) && taken == counted + [0] && fresh(tail)
                && tail.start == address && tail.pos == address + POOL_HEADER
      ensures elementSize % WORD == 0 && elementSize > WORD ==>
                && (|pools| > |old(pools)| <==> old(Taken()) == elementCount)
                && (|pools| > |old(pools)| <==> space + elementSize > old(tail).end)
    {
      hide Laid, Counted, Clear, Holds, BlockAt, AlignUp;
      var last := tail;
      space := last.pos;
      LastBlock();
      Bump();
      if elementSize % WORD == 0 && elementSize > WORD {
        HoldsItsCount(last.start, elementSize, elementCount, old(Taken()));
        HoldsItsCount(last.start, elementSize, elementCount, old(Taken()) + 1);
      }
      if last.pos > last.end {
        Grow(address);
      }
    }

    lemma LastBlock()
      requires Valid()
      ensures tail != null && tail.pos == BlockAt(tail.start, elementSize, Taken())
      ensures tail.start % ALIGNMENT == 0 && tail.end == tail.start + PoolSize(elementSize, elementCount)
    {
    }

    /** The last pool moves its position. */
    method Bump()
      requires Valid()
      modifies tail`pos, this`taken
      ensures Listed() && Laid() && Counted() && tail.pos == AlignUp(old(tail.pos) + elementSize)
      ensures taken == old(taken)[|old(taken)| - 1 := old(Taken()) + 1]
      ensures tail.pos <= tail.end <==> Holds(elementSize, elementCount, Taken())
    {
      hide PoolSize, Regions, Holds, AlignUp;
      tail.pos := AlignUp(tail.pos + elementSize);
      taken := taken[|taken| - 1 := Taken() + 1];
      HoldsIs(tail.start, elementSize, elementCount, Taken());
    }

    method Grow(address: nat)
      requires Listed() && Laid() && Counted() && Clear(address)
      requires taken != [] && forall i :: 0 <= i < |taken| ==> Full(taken[i])
      modifies this`cur, this`tail, this`pools, this`taken, tail
      ensures Valid() && pools[..|pools| - 1] == old(pools) && taken == old(taken) + [0] && fresh(tail)
      ensures tail.start == address && tail.pos == address + POOL_HEADER && old(tail).pos == old(tail.pos)
      ensures head == old(head)
    {
      hide PoolSize, Regions, AlignUp, BlockAt, Holds, Full;
      FirstPos(address);
      NoneTaken(address, elementSize, elementCount);
      var pool := NewPool(address);
      taken := taken + [0];
      RegionsGrow(old(pools), pool);
    }
  }
}
