/** Whole calls and whole runs of a memheap pool: alloc, free and realloc as callers see them. */
module MemPoolRuns {
  import opened Lists
  import opened LinkedRings
  import opened MemPool

  datatype Given = Given(pool: Pool, ptr: int)

  // ----- calls -----

  function SizeAt(offs: seq<Node>, x: Node): int {
    if x in offs && IndexOf(offs, x) + 1 < |offs| then Payload(offs, IndexOf(offs, x)) else 0
  }

  /** How far the search goes along the free list: to the first block that is large enough. */
  function Fit(free: seq<Node>, offs: seq<Node>, size: nat): (k: nat)
    ensures k <= |free| && (k < |free| ==> SizeAt(offs, free[k]) >= size)
    ensures forall j :: 0 <= j < k ==> SizeAt(offs, free[j]) < size
  {
    if free == [] || SizeAt(offs, free[0]) >= size then 0 else 1 + Fit(free[1..], offs, size)
  }

  function BlockAt(p: Pool, x: Node): (i: nat)
    requires x in p.offs
    ensures i < |p.offs| && p.offs[i] == x
  {
    IndexOf(p.offs, x)
  }

  /** rt_memheap_alloc of an aligned size. */
  function AllocSized(p: Pool, size: nat): Given
    requires Inv(p)
  {
    var k := Fit(p.free, p.offs, size);
    if size >= p.avail || k == |p.free| then Given(p, NOTHING)
    else
      FreeInPool(p, p.free[k]);
      Given(TakeAt(p, BlockAt(p, p.free[k]), size), p.free[k] + HEADER)
  }

  lemma FreeInPool(p: Pool, x: Node)
    requires Inv(p) && x in p.free
    ensures x in p.offs && BlockAt(p, x) + 1 < |p.offs| && x !in p.used
    ensures SizeAt(p.offs, x) == Payload(p.offs, BlockAt(p, x))
  {
    assert x in Elems(p.free);
    LayoutStep(p, 0);
  }

  function Alloc(p: Pool, n: nat): Given
    requires Inv(p) && n < 0x1_0000_0000
  {
    AllocSized(p, Request(n))
  }

  /** A pointer alloc gave and free has not taken back. */
  predicate Live(p: Pool, ptr: int) {
    && ptr - HEADER in p.offs && ptr - HEADER in p.used && IndexOf(p.offs, ptr - HEADER) + 1 < |p.offs|
  }

  function Free(p: Pool, ptr: int): Pool
    requires Inv(p) && (ptr == NOTHING || Live(p, ptr))
  {
    if ptr == NOTHING then p
    else
      FreeKeeps(p, BlockAt(p, ptr - HEADER));
      FreeAt(p, BlockAt(p, ptr - HEADER))
  }

  /** realloc's test for growing in place, whose sum wraps at 32 bits, lets through a size the next block
      does not have. */
  predicate Overruns(p: Pool, i: nat, size: nat) {
    && i + 2 < |p.offs| && p.offs[i + 1] in p.free
    && Payload(p.offs, i) < size
         && 0x1_0000_0000 <= size + MIN_ALLOC < 0x1_0000_0000 + Payload(p.offs, i) + Payload(p.offs, i + 1)
  }

  /** The new header goes to the address the size wraps to, in the block's own header. */
  function Overrun(p: Pool, i: nat, size: nat): Pool
    requires Overruns(p, i, size)
  {
    Peaked(Put(Drop(p, i + 1), i, p.offs[i] + HEADER + size - 0x1_0000_0000))
  }

  /** A realloc of a live block to one of twelve sizes near 4 GB, when the block after it is free. */
  predicate Overreaches(p: Pool, ptr: int, n: nat)
    requires n < 0x1_0000_0000
  {
    n > 0 && Live(p, ptr) && Overruns(p, BlockAt(p, ptr - HEADER), Request(n))
  }

  /** Keep the block: grow it in place or shrink it. */
  function Resized(p: Pool, i: nat, size: nat): Pool
    requires i + 1 < |p.offs| && (size > Payload(p.offs, i) ==> CanGrow(p, i, size))
  {
    if size > Payload(p.offs, i) then Peaked(MoveEnd(p, i, size))
    else if size + HEADER + MIN_ALLOC >= Payload(p.offs, i) then p
    else ShrinkAt(p, i, size)
  }

  /** A new block, and the old one freed once there is one. */
  function Moved(p: Pool, ptr: int, size: nat): Given
    requires Inv(p) && Live(p, ptr) && Aligned(size)
  {
    var g := AllocSized(p, size);
    if g.ptr == NOTHING then g
    else
      AllocSizedKeeps(p, size);
      AllocSizedKeepsOthers(p, size, ptr);
      Given(Free(g.pool, ptr), g.ptr)
  }

  function Reallocated(p: Pool, ptr: int, size: nat): Given
    requires Inv(p) && Live(p, ptr) && Aligned(size)
  {
    var i := BlockAt(p, ptr - HEADER);
    if size <= Payload(p.offs, i) || CanGrow(p, i, size) then Given(Resized(p, i, size), ptr)
    else Moved(p, ptr, size)
  }

  function Realloc(p: Pool, ptr: int, n: nat): Given
    requires Inv(p) && n < 0x1_0000_0000 && (ptr == NOTHING || Live(p, ptr))
  {
    RequestAligned(n);
    if n == 0 then Given(Free(p, ptr), NOTHING)
    else if ptr == NOTHING then AllocSized(p, Request(n))
    else if Overreaches(p, ptr, n) then Given(Overrun(p, BlockAt(p, ptr - HEADER), Request(n)), ptr)
    else Reallocated(p, ptr, Request(n))
  }

  lemma RequestAligned(n: nat)
    requires n < 0x1_0000_0000
    ensures Aligned(Request(n)) && Request(n) >= MIN_ALLOC && (Request(n) >= n <==> n <= 0xFFFF_FFFC)
  {
  }

  lemma AllocSizedKeeps(p: Pool, size: nat)
    requires Inv(p) && Aligned(size)
    ensures Inv(AllocSized(p, size).pool)
  {
    var k := Fit(p.free, p.offs, size);
    if size < p.avail && k < |p.free| {
      FreeInPool(p, p.free[k]);
      TakeKeeps(p, BlockAt(p, p.free[k]), size);
    }
  }

  // ----- other blocks are left alone -----

  /** x is a block in both pools, of the same length and with the same mark. */
  predicate SameBlock(p: Pool, q: Pool, x: Node) {
    && x in p.offs && x in q.offs && IndexOf(p.offs, x) + 1 < |p.offs| && IndexOf(q.offs, x) + 1 < |q.offs|
    && SizeAt(q.offs, x) == SizeAt(p.offs, x) && (x in q.used <==> x in p.used)
  }

  lemma SameBlockTwice(p: Pool, q: Pool, r: Pool, x: Node)
    requires SameBlock(p, q, x) && SameBlock(q, r, x)
    ensures SameBlock(p, r, x)
  {
  }

  /** A header put into block i changes the length of block i only. */
  lemma InsertedSize(offs: seq<Node>, i: nat, y: Node, j: nat)
    requires Distinct(offs) && y !in offs && i < |offs| && j + 1 < |offs| && j != i
    ensures var t := Inserted(offs, i, y);
      offs[j] in t && IndexOf(t, offs[j]) + 1 < |t| && SizeAt(t, offs[j]) == Payload(offs, j)
  {
    var t := Inserted(offs, i, y);
    InsertedAt(offs, i, y);
    var k := if j < i then j else j + 1;
    assert t[k] == offs[j] && t[k + 1] == offs[j + 1];
    IndexIs(t, k);
  }

  /** A header taken out changes the length of the block before it only. */
  lemma RemovedSize(offs: seq<Node>, i: nat, j: nat)
    requires Distinct(offs) && 0 < i < |offs| - 1 && j + 1 < |offs| && j != i && j + 1 != i
    ensures var t := Removed(offs, i);
      offs[j] in t && IndexOf(t, offs[j]) + 1 < |t| && SizeAt(t, offs[j]) == Payload(offs, j)
  {
    var t := Removed(offs, i);
    RemovedAt(offs, i);
    var k := if j < i then j else j - 1;
    assert t[k] == offs[j] && t[k + 1] == offs[j + 1];
    IndexIs(t, k);
  }

  lemma SizeIs(offs: seq<Node>, j: nat)
    requires Distinct(offs) && j + 1 < |offs|
    ensures offs[j] in offs && IndexOf(offs, offs[j]) == j && SizeAt(offs, offs[j]) == Payload(offs, j)
  {
    IndexIs(offs, j);
  }

  lemma UseSame(p: Pool, i: nat, j: nat)
    requires Distinct(p.offs) && i + 1 < |p.offs| && p.offs[i] in p.free && j + 1 < |p.offs| && j != i
    ensures SameBlock(p, Use(p, i), p.offs[j])
  {
    SizeIs(p.offs, j);
  }

  lemma PutSame(p: Pool, i: nat, y: Node, j: nat)
    requires Distinct(p.offs) && i + 1 < |p.offs| && y !in p.offs && j + 1 < |p.offs| && j != i
    ensures SameBlock(p, Put(p, i, y), p.offs[j])
  {
    SizeIs(p.offs, j);
    InsertedSize(p.offs, i, y, j);
  }

  lemma DropSame(p: Pool, i: nat, j: nat)
    requires Distinct(p.offs) && 0 < i < |p.offs| - 1 && p.offs[i] in p.free && j + 1 < |p.offs| && j != i && j + 1 != i
    ensures SameBlock(p, Drop(p, i), p.offs[j])
  {
    SizeIs(p.offs, j);
    RemovedSize(p.offs, i, j);
  }

  lemma ReleaseSame(p: Pool, i: nat, j: nat)
    requires Distinct(p.offs) && i + 1 < |p.offs| && j + 1 < |p.offs| && j != i
    ensures SameBlock(p, Release(p, i), p.offs[j])
  {
    SizeIs(p.offs, j);
  }

  lemma JoinLeftSame(p: Pool, i: nat, j: nat)
    requires Distinct(p.offs) && 0 < i < |p.offs| - 1 && j + 1 < |p.offs| && j != i && j + 1 != i
    ensures SameBlock(p, JoinLeft(p, i), p.offs[j])
  {
    SizeIs(p.offs, j);
    RemovedSize(p.offs, i, j);
  }

  lemma PeakedSame(p: Pool, q: Pool, x: Node)
    requires SameBlock(p, q, x)
    ensures SameBlock(p, Peaked(q), x)
  {
  }

  /** A live block, by index. */
  lemma LiveIndex(p: Pool, ptr: int) returns (j: nat)
    requires Inv(p) && Live(p, ptr)
    ensures j + 1 < |p.offs| && p.offs[j] == ptr - HEADER && p.offs[j] in p.used && p.offs[j] !in p.free
      && Distinct(p.offs)
    ensures j == BlockAt(p, ptr - HEADER)
  {
    j := BlockAt(p, ptr - HEADER);
    LayoutDistinct(p.offs, p.size);
    FreeAtIff(p, j);
  }

  lemma SplitNew(p: Pool, i: nat, size: nat)
    requires Inv(p) && i + 1 < |p.offs| && Aligned(size) && Payload(p.offs, i) >= size + HEADER
    ensures p.offs[i] + size + HEADER !in p.offs && Distinct(p.offs)
  {
    LayoutDistinct(p.offs, p.size);
    LayoutStep(p, i);
    AlignedSum(p.offs[i], size);
    InsertLayout(p.offs, p.size, i, p.offs[i] + size + HEADER);
  }

  lemma SplitSame(p: Pool, i: nat, y: Node, j: nat)
    requires Distinct(p.offs) && i + 1 < |p.offs| && p.offs[i] in p.free && y !in p.offs && j + 1 < |p.offs| && j != i
    ensures SameBlock(p, Put(Use(p, i), i, y), p.offs[j])
  {
    hide SameBlock, Use, Put, Distinct;
    UseOffs(p, i);
    UseSame(p, i, j);
    var q := Use(p, i);
    PutSame(q, i, y, j);
    SameBlockTwice(p, q, Put(q, i, y), p.offs[j]);
  }

  lemma InvDistinct(p: Pool)
    requires Inv(p)
    ensures Distinct(p.offs)
  {
    LayoutDistinct(p.offs, p.size);
  }

  /** Handing out one block leaves every other as it was. */
  lemma TakeSame(p: Pool, i: nat, size: nat, j: nat)
    requires Inv(p) && i + 1 < |p.offs| && p.offs[i] in p.free && Aligned(size) && j + 1 < |p.offs| && j != i
    ensures SameBlock(p, TakeAt(p, i, size), p.offs[j])
  {
    hide Inv, SameBlock, Use, Put, Peaked, Distinct, Aligned;
    InvDistinct(p);
    if Payload(p.offs, i) >= size + HEADER + MIN_ALLOC {
      var y := p.offs[i] + size + HEADER;
      UseOffs(p, i);
      var q := Put(Use(p, i), i, y);
      assert TakeAt(p, i, size) == Peaked(q);
      SplitNew(p, i, size);
      hide TakeAt;
      SplitSame(p, i, y, j);
      PeakedSame(p, q, p.offs[j]);
    } else {
      assert TakeAt(p, i, size) == Peaked(Use(p, i));
      hide TakeAt;
      UseSame(p, i, j);
      PeakedSame(p, Use(p, i), p.offs[j]);
    }
  }

  lemma UseOffs(p: Pool, i: nat)
    requires i + 1 < |p.offs| && p.offs[i] in p.free
    ensures Use(p, i).offs == p.offs
  {
  }

  lemma AllocSizedKeepsOthers(p: Pool, size: nat, ptr: int)
    requires Inv(p) && Aligned(size) && Live(p, ptr)
    ensures SameBlock(p, AllocSized(p, size).pool, ptr - HEADER) && Live(AllocSized(p, size).pool, ptr)
  {
    var j := LiveIndex(p, ptr);
    var k := Fit(p.free, p.offs, size);
    SizeIs(p.offs, j);
    if size < p.avail && k < |p.free| {
      FreeInPool(p, p.free[k]);
      TakeSame(p, BlockAt(p, p.free[k]), size, j);
    }
  }

  /** Dropping the free block after i: where the others are, and that they are the same. */
  lemma DropOther(p: Pool, i: nat, j: nat) returns (k: nat)
    requires Inv(p) && i + 2 < |p.offs| && p.offs[i + 1] in p.free && j + 1 < |p.offs| && j != i && j != i + 1
    ensures var q := Drop(p, i + 1);
      && Distinct(q.offs) && |q.offs| == |p.offs| - 1 && k + 1 < |q.offs| && k != i && q.offs[k] == p.offs[j]
      && (k + 1 == i <==> j + 1 == i) && q.offs[i] == p.offs[i] && SameBlock(p, q, p.offs[j])
  {
    InvDistinct(p);
    DropDistinct(p, i + 1);
    k := if j < i then j else j - 1;
    hide SameBlock, Inv, Distinct;
    DropSame(p, i + 1, j);
  }

  lemma FreeSame(p: Pool, i: nat, j: nat)
    requires Inv(p) && i + 1 < |p.offs| && p.offs[i] in p.used && j + 1 < |p.offs| && j != i && p.offs[j] in p.used
    ensures i + 2 < |p.offs| || p.offs[i + 1] !in p.free
    ensures SameBlock(p, FreeAt(p, i), p.offs[j])
  {
    hide Consistent, SameBlock, Drop, JoinLeft, Release, Distinct;
    LayoutStep(p, i);
    InvDistinct(p);
    FreeAtIff(p, j);
    if p.offs[i + 1] in p.free {
      var k := DropOther(p, i, j);
      var q := Drop(p, i + 1);
      if i > 0 && p.offs[i - 1] in p.free {
        JoinLeftSame(q, i, k);
        SameBlockTwice(p, q, JoinLeft(q, i), p.offs[j]);
      } else {
        ReleaseSame(q, i, k);
        SameBlockTwice(p, q, Release(q, i), p.offs[j]);
      }
    } else if i > 0 && p.offs[i - 1] in p.free {
      JoinLeftSame(p, i, j);
    } else {
      ReleaseSame(p, i, j);
    }
  }

  lemma DropDistinct(p: Pool, i: nat)
    requires Distinct(p.offs) && i + 1 < |p.offs| && p.offs[i] in p.free
    ensures Distinct(Drop(p, i).offs)
  {
    RemovedAt(p.offs, i);
  }

  /** Releasing a block leaves every other live block as it was. */
  lemma FreeKeepsOthers(p: Pool, ptr: int, other: int)
    requires Inv(p) && Live(p, ptr) && Live(p, other) && other != ptr
    ensures SameBlock(p, Free(p, ptr), other - HEADER) && Live(Free(p, ptr), other)
  {
    var i := LiveIndex(p, ptr);
    var j := LiveIndex(p, other);
    FreeSame(p, i, j);
  }

  lemma MoveEndSame(p: Pool, i: nat, size: nat, j: nat)
    requires Inv(p) && i + 2 < |p.offs| && p.offs[i + 1] in p.free && j + 1 < |p.offs| && p.offs[j] in p.used && j != i
    requires Aligned(size) && p.offs[i] + HEADER + size + HEADER <= p.offs[i + 2]
    ensures SameBlock(p, MoveEnd(p, i, size), p.offs[j])
  {
    hide Consistent, SameBlock, Drop, Put, Distinct, Aligned;
    FreeAtIff(p, j);
    var q, y := Drop(p, i + 1), p.offs[i] + HEADER + size;
    var k := DropOther(p, i, j);
    assert MoveEnd(p, i, size) == Put(q, i, y);
    hide MoveEnd;
    MoveEndNew(p, i, size);
    PutSame(q, i, y, k);
    SameBlockTwice(p, q, Put(q, i, y), p.offs[j]);
  }

  lemma MoveEndNew(p: Pool, i: nat, size: nat)
    requires Inv(p) && i + 2 < |p.offs| && p.offs[i + 1] in p.free
    requires Aligned(size) && p.offs[i] + HEADER + size + HEADER <= p.offs[i + 2]
    ensures p.offs[i] + HEADER + size !in Drop(p, i + 1).offs
  {
    hide Consistent, Drop, Aligned;
    LayoutStep(p, i);
    AlignedSum(p.offs[i], size);
    DropKeeps(p, i + 1);
    DropFacts(p, i + 1);
    var q := Drop(p, i + 1);
    LayoutOf(q);
    InsertLayout(q.offs, q.size, i, p.offs[i] + HEADER + size);
  }

  lemma LayoutOf(p: Pool)
    requires Consistent(p)
    ensures Layout(p.offs, p.size)
  {
  }

  lemma ShrinkSame(p: Pool, i: nat, size: nat, j: nat)
    requires Inv(p) && i + 1 < |p.offs| && Aligned(size) && size + HEADER <= Payload(p.offs, i)
    requires j + 1 < |p.offs| && p.offs[j] in p.used && j != i
    ensures SameBlock(p, ShrinkAt(p, i, size), p.offs[j])
  {
    hide Consistent, SameBlock, MoveEnd, Put, Distinct, Aligned;
    InvDistinct(p);
    if i + 2 < |p.offs| && p.offs[i + 1] in p.free {
      LayoutStep(p, i + 1);
      MoveEndSame(p, i, size, j);
    } else {
      SplitNew(p, i, size);
      PutSame(p, i, p.offs[i] + HEADER + size, j);
    }
  }

  lemma ResizedSame(p: Pool, i: nat, size: nat, j: nat)
    requires Inv(p) && i + 1 < |p.offs| && p.offs[i] in p.used && Aligned(size)
    requires size > Payload(p.offs, i) ==> CanGrow(p, i, size)
    requires j + 1 < |p.offs| && p.offs[j] in p.used && j != i
    ensures SameBlock(p, Resized(p, i, size), p.offs[j])
  {
    InvDistinct(p);
    SizeIs(p.offs, j);
    hide Consistent, MoveEnd, ShrinkAt, Distinct, Aligned;
    if size > Payload(p.offs, i) {
      MoveEndSame(p, i, size, j);
      PeakedSame(p, MoveEnd(p, i, size), p.offs[j]);
    } else if size + HEADER + MIN_ALLOC < Payload(p.offs, i) {
      ShrinkSame(p, i, size, j);
    }
  }

  /** realloc leaves every other live block as it was, whether it resizes the block or moves it. */
  lemma ReallocKeepsOthers(p: Pool, ptr: int, n: nat, other: int)
    requires Inv(p) && n < 0x1_0000_0000 && (ptr == NOTHING || Live(p, ptr)) && !Overreaches(p, ptr, n)
    requires Live(p, other) && other != ptr
    ensures SameBlock(p, Realloc(p, ptr, n).pool, other - HEADER) && Live(Realloc(p, ptr, n).pool, other)
  {
    RequestAligned(n);
    var j := LiveIndex(p, other);
    SizeIs(p.offs, j);
    if n == 0 {
      if ptr != NOTHING { FreeKeepsOthers(p, ptr, other); }
    } else if ptr == NOTHING {
      AllocSizedKeepsOthers(p, Request(n), other);
    } else {
      var i := LiveIndex(p, ptr);
      if Request(n) <= Payload(p.offs, i) || CanGrow(p, i, Request(n)) {
        ResizedSame(p, i, Request(n), j);
      } else {
        MovedKeepsOthers(p, ptr, Request(n), other);
      }
    }
  }

  lemma MovedKeepsOthers(p: Pool, ptr: int, size: nat, other: int)
    requires Inv(p) && Aligned(size) && Live(p, ptr) && Live(p, other) && other != ptr
    ensures var g := AllocSized(p, size);
      Inv(g.pool) && Live(g.pool, ptr) && SameBlock(p, g.pool, other - HEADER) && Live(g.pool, other)
    ensures var q := Free(AllocSized(p, size).pool, ptr); SameBlock(p, q, other - HEADER) && Live(q, other)
  {
    AllocSizedKeeps(p, size);
    AllocSizedKeepsOthers(p, size, ptr);
    AllocSizedKeepsOthers(p, size, other);
    var q := AllocSized(p, size).pool;
    hide AllocSized, SameBlock, Inv;
    FreeKeepsOthers(q, ptr, other);
    SameBlockTwice(p, q, Free(q, ptr), other - HEADER);
  }

  // ----- what alloc gives -----

  /** The block handed out holds at least what was asked for. */
  lemma TakenSize(p: Pool, i: nat, size: nat)
    requires Inv(p) && i + 1 < |p.offs| && p.offs[i] in p.free && Aligned(size) && Payload(p.offs, i) >= size
    ensures var q := TakeAt(p, i, size); p.offs[i] in q.used && IndexOf(q.offs, p.offs[i]) + 1 < |q.offs|
    ensures p.offs[i] in TakeAt(p, i, size).offs && SizeAt(TakeAt(p, i, size).offs, p.offs[i]) >= size
  {
    InvDistinct(p);
    if Payload(p.offs, i) >= size + HEADER + MIN_ALLOC {
      var y := p.offs[i] + size + HEADER;
      SplitNew(p, i, size);
      SplitFields(p, i, size);
      hide Consistent, TakeAt, Without;
      PutSize(p, i, y);
    } else {
      IndexIs(p.offs, i);
    }
  }

  /** What alloc returns was free, is live now, has room for the request, and is 4-aligned relative to the
      start of the pool: rt_memheap_init takes start_addr as it is given. */
  lemma AllocGives(p: Pool, n: nat)
    requires Inv(p) && n < 0x1_0000_0000 && Alloc(p, n).ptr != NOTHING
    ensures var g := Alloc(p, n);
      && g.ptr - HEADER in p.free && Live(g.pool, g.ptr) && Aligned(g.ptr)
      && SizeAt(g.pool.offs, g.ptr - HEADER) >= Request(n) >= MIN_ALLOC && (Request(n) >= n <==> n <= 0xFFFF_FFFC)
  {
    RequestAligned(n);
    var k, size := Fit(p.free, p.offs, Request(n)), Request(n);
    var x := p.free[k];
    FreeInPool(p, x);
    LayoutStep(p, BlockAt(p, x));
    AlignedSum(x, 0);
    hide Inv, Request;
    TakenSize(p, BlockAt(p, x), size);
  }

  lemma WeightAtMostSum(p: Pool, i: nat)
    requires Inv(p) && i + 1 < |p.offs|
    ensures Weight(p.offs, p.used, i) <= p.avail
  {
    SumAround(p.offs, p.used, i);
    assert forall k :: 0 <= k < |p.offs| - 1 ==> Spaced(p.offs, k);
    SumPart(p.offs, p.used, 0, i + 1);
    SumPart(p.offs, p.used, i + 1, |p.offs|);
    assert p.offs[0..i + 1] == p.offs[..i + 1] && p.offs[i + 1..|p.offs|] == p.offs[i + 1..];
  }

  lemma SumPart(offs: seq<Node>, used: set<Node>, a: nat, b: nat)
    requires a <= b <= |offs| && forall k :: 0 <= k < |offs| - 1 ==> Spaced(offs, k)
    ensures FreeSum(offs[a..b], used) >= 0
  {
    var part := offs[a..b];
    forall k | 0 <= k < |part| - 1
      ensures Spaced(part, k)
    {
      assert Spaced(offs, a + k);
    }
    SumNonNegative(part, used);
  }

  predicate FreeBlockFits(p: Pool, size: nat) { exists k :: 0 <= k < |p.free| && SizeAt(p.offs, p.free[k]) >= size }

  /** alloc fails if and only if no free block is large enough, or the request is exactly everything that
      is left. */
  lemma AllocFailsIff(p: Pool, n: nat)
    requires Inv(p) && n < 0x1_0000_0000
    ensures Alloc(p, n).ptr == NOTHING <==> (!FreeBlockFits(p, Request(n)) || Request(n) == p.avail)
  {
    var size := Request(n);
    var k := Fit(p.free, p.offs, size);
    RequestAligned(n);
    if k < |p.free| {
      var x := p.free[k];
      FreeInPool(p, x);
      WeightAtMostSum(p, BlockAt(p, x));
      assert x + HEADER != NOTHING by { InPool(p, BlockAt(p, x)); }
    }
  }

  lemma InPool(p: Pool, i: nat)
    requires Inv(p) && i < |p.offs|
    ensures 0 <= p.offs[i]
  {
    if i > 0 { Increasing(p.offs, p.size, 0, i); }
  }

  // ----- free undoes alloc -----

  /** Releasing the block just handed out restores the blocks, the marks and the count; the block comes
      back at the head of the free list. */
  lemma FreeUndoesAlloc(p: Pool, i: nat, size: nat)
    requires Inv(p) && i + 1 < |p.offs| && p.offs[i] in p.free && Aligned(size)
    ensures var q := TakeAt(p, i, size); i + 1 < |q.offs| && (i + 2 < |q.offs| || q.offs[i + 1] !in q.free)
    ensures var r := FreeAt(TakeAt(p, i, size), i);
      r == p.(free := [p.offs[i]] + Without(p.free, p.offs[i]), maxUsed := TakeAt(p, i, size).maxUsed)
  {
    InvDistinct(p);
    LayoutStep(p, i);
    FreeAtIff(p, i);
    FreeAtIff(p, i + 1);
    NeighboursUsed(p, i);
    if Payload(p.offs, i) >= size + HEADER + MIN_ALLOC {
      SplitNew(p, i, size);
      UndoSplit(p, i, size);
    } else {
      UndoWhole(p, i, size);
    }
  }

  lemma NeighboursUsed(p: Pool, i: nat)
    requires Inv(p) && i + 1 < |p.offs| && p.offs[i] in p.free
    ensures p.offs[i + 1] !in p.free && (i > 0 ==> p.offs[i - 1] !in p.free) && p.offs[i] !in p.used
  {
    FreeAtIff(p, i);
    FreeAtIff(p, i + 1);
    assert NotBothFree(p.offs, p.used, i);
    if i > 0 {
      FreeAtIff(p, i - 1);
      assert NotBothFree(p.offs, p.used, i - 1);
    }
  }

  lemma WithoutIn(free: seq<Node>, x: Node, y: Node)
    requires x in free && Distinct(free)
    ensures y in Without(free, x) <==> y in free && y != x
  {
    WithoutElems(free, x);
    assert y in Without(free, x) <==> y in Elems(Without(free, x));
    assert y in free <==> y in Elems(free);
  }

  lemma UndoWhole(p: Pool, i: nat, size: nat)
    requires Inv(p) && i + 1 < |p.offs| && p.offs[i] in p.free && Payload(p.offs, i) < size + HEADER + MIN_ALLOC
    ensures var q := TakeAt(p, i, size); i + 1 < |q.offs| && q.offs[i + 1] !in q.free
    ensures var r := FreeAt(TakeAt(p, i, size), i);
      r == p.(free := [p.offs[i]] + Without(p.free, p.offs[i]), maxUsed := TakeAt(p, i, size).maxUsed)
  {
    NeighboursUsed(p, i);
    WithoutIn(p.free, p.offs[i], p.offs[i + 1]);
    if i > 0 { WithoutIn(p.free, p.offs[i], p.offs[i - 1]); }
    hide Inv, Without;
    assert p.used + {p.offs[i]} - {p.offs[i]} == p.used;
  }

  lemma FreeDistinct(p: Pool)
    requires Inv(p)
    ensures Distinct(p.free) && Distinct(p.offs)
  {
    LayoutDistinct(p.offs, p.size);
  }

  /** The pool after a split, field by field. */
  lemma SplitFields(p: Pool, i: nat, size: nat)
    requires i + 1 < |p.offs| && p.offs[i] in p.free && Payload(p.offs, i) >= size + HEADER + MIN_ALLOC
    ensures var q, x, y := TakeAt(p, i, size), p.offs[i], p.offs[i] + size + HEADER;
      && q.offs == Inserted(p.offs, i, y) && q.used == p.used + {x} && q.free == [y] + Without(p.free, x)
      && q.avail == p.avail - Payload(p.offs, i) + (p.offs[i + 1] - y - HEADER) && q.size == p.size
  {
  }

  lemma UndoSplit(p: Pool, i: nat, size: nat)
    requires Inv(p) && i + 1 < |p.offs| && p.offs[i] in p.free && Payload(p.offs, i) >= size + HEADER + MIN_ALLOC
      && Aligned(size)
    ensures var q := TakeAt(p, i, size); i + 2 < |q.offs|
    ensures var r := FreeAt(TakeAt(p, i, size), i);
      r == p.(free := [p.offs[i]] + Without(p.free, p.offs[i]), maxUsed := TakeAt(p, i, size).maxUsed)
  {
    hide Consistent, Without, Inserted, Removed, Distinct, TakeAt;
    var x, y, q := p.offs[i], p.offs[i] + size + HEADER, TakeAt(p, i, size);
    SplitFields(p, i, size);
    SplitNew(p, i, size);
    InsertedAt(p.offs, i, y);
    NeighboursUsed(p, i);
    FreeDistinct(p);
    if i > 0 { WithoutIn(p.free, x, p.offs[i - 1]); }
    InsertRemove(p.offs, i, y);
    FrontOff(y, Without(p.free, x));
    assert q.offs[i] == x && q.offs[i + 1] == y && q.offs[i + 2] == p.offs[i + 1]
        && (i > 0 ==> q.offs[i - 1] == p.offs[i - 1]);
    var d := Drop(q, i + 1);
    assert d.offs == p.offs && d.free == Without(p.free, x) && d.used == p.used + {x}
        && d.avail == p.avail - Payload(p.offs, i);
    assert i > 0 ==> p.offs[i - 1] !in q.free by { if i > 0 { assert p.offs[i - 1] != y; } }
    assert FreeAt(q, i) == Release(d, i);
    assert p.used + {x} - {x} == p.used;
  }

  lemma InsertRemove(offs: seq<Node>, i: nat, y: Node)
    requires i < |offs|
    ensures Removed(Inserted(offs, i, y), i + 1) == offs
  {
  }

  lemma FrontOff(y: Node, free: seq<Node>)
    ensures Without([y] + free, y) == free
  {
  }

  // ----- realloc -----

  lemma ResizedKeeps(p: Pool, i: nat, size: nat)
    requires Inv(p) && i + 1 < |p.offs| && p.offs[i] in p.used && Aligned(size)
    requires size > Payload(p.offs, i) ==> CanGrow(p, i, size)
    ensures Inv(Resized(p, i, size))
  {
    hide Inv, MoveEnd, ShrinkAt, Peaked, Aligned, CanGrow;
    if size > Payload(p.offs, i) {
      GrowKeeps(p, i, size);
    } else if size + HEADER + MIN_ALLOC < Payload(p.offs, i) {
      ShrinkKeeps(p, i, size);
    }
  }

  lemma FreeKeepsInv(p: Pool, ptr: int)
    requires Inv(p) && (ptr == NOTHING || Live(p, ptr))
    ensures Inv(Free(p, ptr))
  {
    if ptr != NOTHING { FreeKeeps(p, BlockAt(p, ptr - HEADER)); }
  }

  lemma HeaderMoved(offs: seq<Node>, i: nat, y: Node)
    requires i + 2 < |offs|
    ensures var t := Inserted(Removed(offs, i + 1), i, y); |t| == |offs| && t[i] == offs[i] && t[i + 1] == y
  {
  }

  lemma OverrunOffs(p: Pool, i: nat, size: nat)
    requires Overruns(p, i, size)
    ensures Overrun(p, i, size).offs == Inserted(Removed(p.offs, i + 1), i, p.offs[i] + HEADER + size - 0x1_0000_0000)
  {
  }

  /** A header that overruns lies in the header before it. */
  lemma OverrunBreaks(p: Pool, i: nat, size: nat)
    requires Overruns(p, i, size) && size < 0x1_0000_0000
    ensures !Inv(Overrun(p, i, size))
  {
    OverrunOffs(p, i, size);
    HeaderMoved(p.offs, i, p.offs[i] + HEADER + size - 0x1_0000_0000);
    hide Overrun, Inserted, Removed, Agree, FreeSum, NoTwoFree, Payload, Without;
    assert !Spaced(Overrun(p, i, size).offs, i);
  }

  /** realloc keeps both lists and the count right on every path but the one its wrapped test lets through. */
  lemma ReallocKeepsIff(p: Pool, ptr: int, n: nat)
    requires Inv(p) && n < 0x1_0000_0000 && (ptr == NOTHING || Live(p, ptr))
    ensures Inv(Realloc(p, ptr, n).pool) <==> !Overreaches(p, ptr, n)
  {
    NothingNotLive(p);
    if Overreaches(p, ptr, n) { OverrunBreaks(p, BlockAt(p, ptr - HEADER), Request(n)); }
      else { ReallocKeeps(p, ptr, n); }
  }

  lemma ReallocKeeps(p: Pool, ptr: int, n: nat)
    requires Inv(p) && n < 0x1_0000_0000 && (ptr == NOTHING || Live(p, ptr)) && !Overreaches(p, ptr, n)
    ensures Inv(Realloc(p, ptr, n).pool)
  {
    RequestAligned(n);
    var size := Request(n);
    if n == 0 {
      FreeKeepsInv(p, ptr);
    } else if ptr == NOTHING {
      AllocSizedKeeps(p, size);
    } else {
      var i := LiveIndex(p, ptr);
      if size <= Payload(p.offs, i) || CanGrow(p, i, size) {
        ResizedKeeps(p, i, size);
      } else {
        AllocSizedKeeps(p, size);
        AllocSizedKeepsOthers(p, size, ptr);
        hide Inv, AllocSized, Request;
        FreeKeepsInv(AllocSized(p, size).pool, ptr);
      }
    }
  }

  lemma PutSize(p: Pool, i: nat, y: Node)
    requires Distinct(p.offs) && i + 1 < |p.offs| && y !in p.offs
    ensures var t := Put(p, i, y).offs;
      p.offs[i] in t && IndexOf(t, p.offs[i]) + 1 < |t| && SizeAt(t, p.offs[i]) == y - p.offs[i] - HEADER
  {
    var t := Inserted(p.offs, i, y);
    InsertedAt(p.offs, i, y);
    assert t[i] == p.offs[i] && t[i + 1] == y;
    IndexIs(t, i);
  }

  lemma MoveEndSize(p: Pool, i: nat, size: nat)
    requires Inv(p) && i + 2 < |p.offs| && p.offs[i + 1] in p.free && Aligned(size)
    requires p.offs[i] + HEADER + size + HEADER <= p.offs[i + 2]
    ensures var q := MoveEnd(p, i, size); q.used == p.used && p.offs[i] in q.offs
    ensures var t := MoveEnd(p, i, size).offs; IndexOf(t, p.offs[i]) + 1 < |t| && SizeAt(t, p.offs[i]) == size
  {
    hide Consistent, Distinct, Aligned, Put, Removed, Inserted, Without;
    InvDistinct(p);
    var q, y := Drop(p, i + 1), p.offs[i] + HEADER + size;
    DropDistinct(p, i + 1);
    MoveEndNew(p, i, size);
    DropFacts(p, i + 1);
    hide Drop;
    PutSize(q, i, y);
    PutUsed(q, i, y);
  }

  lemma PutUsed(p: Pool, i: nat, y: Node)
    requires i + 1 < |p.offs|
    ensures Put(p, i, y).used == p.used
  {
  }

  /** x is a used block with room for size bytes. */
  predicate Holds(p: Pool, x: Node, size: nat) {
    x in p.offs && x in p.used && IndexOf(p.offs, x) + 1 < |p.offs| && SizeAt(p.offs, x) >= size
  }

  lemma MoveEndHolds(p: Pool, i: nat, size: nat)
    requires Inv(p) && i + 2 < |p.offs| && p.offs[i + 1] in p.free && Aligned(size) && p.offs[i] in p.used
    requires p.offs[i] + HEADER + size + HEADER <= p.offs[i + 2]
    ensures Holds(MoveEnd(p, i, size), p.offs[i], size) && Holds(Peaked(MoveEnd(p, i, size)), p.offs[i], size)
  {
    hide Inv, MoveEnd, SizeAt;
    MoveEndSize(p, i, size);
  }

  lemma PutHolds(p: Pool, i: nat, size: nat)
    requires Inv(p) && i + 1 < |p.offs| && Aligned(size) && p.offs[i] in p.used && Payload(p.offs, i) >= size + HEADER
    ensures Holds(Put(p, i, p.offs[i] + HEADER + size), p.offs[i], size)
  {
    SplitNew(p, i, size);
    PutUsed(p, i, p.offs[i] + HEADER + size);
    hide Inv, Put, SizeAt;
    PutSize(p, i, p.offs[i] + HEADER + size);
  }

  lemma ShrinkHolds(p: Pool, i: nat, size: nat)
    requires Inv(p) && i + 1 < |p.offs| && Aligned(size) && p.offs[i] in p.used && Payload(p.offs, i) >= size + HEADER
    ensures Holds(ShrinkAt(p, i, size), p.offs[i], size)
  {
    if i + 2 < |p.offs| { LayoutStep(p, i + 1); }
    hide Inv, MoveEnd, Put, Holds, Aligned;
    if i + 2 < |p.offs| && p.offs[i + 1] in p.free {
      MoveEndHolds(p, i, size);
    } else {
      PutHolds(p, i, size);
    }
  }

  /** Resizing in place leaves the block live, at its place, with room for the request. */
  lemma ResizedGives(p: Pool, ptr: int, i: nat, size: nat)
    requires Inv(p) && Live(p, ptr) && i == BlockAt(p, ptr - HEADER) && i + 1 < |p.offs| && Aligned(size)
    requires size > Payload(p.offs, i) ==> CanGrow(p, i, size)
    ensures Live(Resized(p, i, size), ptr) && SizeAt(Resized(p, i, size).offs, ptr - HEADER) >= size
  {
    InvDistinct(p);
    IndexIs(p.offs, i);
    assert Holds(Resized(p, i, size), p.offs[i], size) by {
      hide Inv, MoveEnd, ShrinkAt, Peaked;
      if size > Payload(p.offs, i) {
        MoveEndHolds(p, i, size);
      } else if size + HEADER + MIN_ALLOC < Payload(p.offs, i) {
        ShrinkHolds(p, i, size);
      }
    }
    hide Resized, Inv;
  }

  /** What realloc returns holds at least the aligned size, which is what was asked for unless aligning it
      wraps; when it fails the pool is as it was. */
  lemma ReallocGives(p: Pool, ptr: int, n: nat)
    requires Inv(p) && 0 < n < 0x1_0000_0000 && (ptr == NOTHING || Live(p, ptr)) && !Overreaches(p, ptr, n)
    ensures var g := Realloc(p, ptr, n);
      if g.ptr == NOTHING then g.pool == p
      else Live(g.pool, g.ptr) && SizeAt(g.pool.offs, g.ptr - HEADER) >= Request(n)
    ensures Request(n) >= n <==> n <= 0xFFFF_FFFC
  {
    RequestAligned(n);
    var size := Request(n);
    hide Request;
    if ptr == NOTHING {
      AllocSizedGives(p, size);
    } else {
      var i := LiveIndex(p, ptr);
      if size <= Payload(p.offs, i) || CanGrow(p, i, size) {
        hide AllocSized, Moved, Payload, CanGrow;
        ResizedGives(p, ptr, i, size);
      } else {
        AllocSizedGives(p, size);
        AllocSizedKeeps(p, size);
        AllocSizedKeepsOthers(p, size, ptr);
        var g := AllocSized(p, size);
        hide Inv, AllocSized, Request;
        if g.ptr != NOTHING { FreeKeepsOthers(g.pool, ptr, g.ptr); }
      }
    }
  }

  lemma AllocSizedGives(p: Pool, size: nat)
    requires Inv(p) && Aligned(size)
    ensures var g := AllocSized(p, size);
      if g.ptr == NOTHING then g.pool == p
      else g.ptr - HEADER in p.free && Live(g.pool, g.ptr) && SizeAt(g.pool.offs, g.ptr - HEADER) >= size
    ensures forall ptr :: Live(p, ptr) ==> AllocSized(p, size).ptr != ptr
  {
    var k := Fit(p.free, p.offs, size);
    if size < p.avail && k < |p.free| {
      var x := p.free[k];
      FreeInPool(p, x);
      InPool(p, BlockAt(p, x));
      hide Inv;
      TakenSize(p, BlockAt(p, x), size);
    } else {
      NothingNotLive(p);
    }
  }

  lemma NothingNotLive(p: Pool)
    requires Inv(p)
    ensures !Live(p, NOTHING)
  {
    if NOTHING - HEADER in p.offs { InPool(p, IndexOf(p.offs, NOTHING - HEADER)); }
  }

  // ----- the bytes of a block -----

  /** Two live blocks never overlap. */
  lemma LiveApart(p: Pool, a: int, b: int)
    requires Inv(p) && Live(p, a) && Live(p, b) && a < b
    ensures a + SizeAt(p.offs, a - HEADER) + HEADER <= b
  {
    var i := LiveIndex(p, a);
    var j := LiveIndex(p, b);
    if j < i { Increasing(p.offs, p.size, j, i); }
    if i + 1 < j { Increasing(p.offs, p.size, i + 1, j); }
  }

  /** A live block lies in the pool, behind its header and before the tailer. */
  lemma LiveWithin(p: Pool, a: int)
    requires Inv(p) && Live(p, a)
    ensures HEADER <= a && 0 <= SizeAt(p.offs, a - HEADER) && a + SizeAt(p.offs, a - HEADER) + HEADER <= p.size
  {
    var i := LiveIndex(p, a);
    LayoutStep(p, i);
    if i > 0 { Increasing(p.offs, p.size, 0, i); }
    if i + 2 < |p.offs| { Increasing(p.offs, p.size, i + 1, |p.offs| - 1); }
  }

  lemma LiveBeside(p: Pool, a: int, b: int)
    requires Inv(p) && Live(p, a) && Live(p, b) && a != b
    ensures a + SizeAt(p.offs, a - HEADER) <= b || b + SizeAt(p.offs, b - HEADER) <= a
  {
    if a < b { LiveApart(p, a, b); } else { LiveApart(p, b, a); }
  }

  /** A block just handed out lies in the pool, is as long as asked, and is beside every other live one. */
  lemma NewBeside(p: Pool, size: nat, a: int)
    requires Inv(p) && Aligned(size) && Live(p, a) && AllocSized(p, size).ptr != NOTHING
    ensures var r, m := AllocSized(p, size).ptr, SizeAt(p.offs, a - HEADER);
      && HEADER <= r && r + size <= p.size && HEADER <= a && 0 <= m && a + m <= p.size && r != a
      && (a + m <= r || r + size <= a)
  {
    hide Inv, AllocSized, Live, SizeAt, Aligned;
    var g := AllocSized(p, size);
    AllocSizedKeeps(p, size);
    AllocSizedGives(p, size);
    AllocSizedKeepsOthers(p, size, a);
    AllocSizedSize(p, size);
    LiveWithin(p, a);
    LiveWithin(g.pool, g.ptr);
    LiveBeside(g.pool, g.ptr, a);
  }

  lemma AllocSizedSize(p: Pool, size: nat)
    requires Inv(p)
    ensures AllocSized(p, size).pool.size == p.size
  {
    hide Fit, Inv;
  }

  // ----- runs -----

  datatype Op = OpAlloc(n: nat) | OpFree(ptr: int) | OpRealloc(ptr: int, n: nat)

  predicate Legal(p: Pool, op: Op) {
    match op
    case OpAlloc(n) => n < 0x1_0000_0000
    case OpFree(ptr) => ptr == NOTHING || Live(p, ptr)
    case OpRealloc(ptr, n) => n < 0x1_0000_0000 && (ptr == NOTHING || Live(p, ptr)) && !Overreaches(p, ptr, n)
  }

  function Step(p: Pool, op: Op): (q: Pool)
    requires Inv(p) && Legal(p, op)
    ensures Inv(q)
  {
    match op
    case OpAlloc(n) => RequestAligned(n); AllocSizedKeeps(p, Request(n)); Alloc(p, n).pool
    case OpFree(ptr) => FreeKeepsInv(p, ptr); Free(p, ptr)
    case OpRealloc(ptr, n) => ReallocKeeps(p, ptr, n); Realloc(p, ptr, n).pool
  }

  predicate LegalRun(p: Pool, ops: seq<Op>)
    requires Inv(p)
    decreases |ops|
  {
    ops == [] || (Legal(p, ops[0]) && LegalRun(Step(p, ops[0]), ops[1..]))
  }

  /** In every reachable state the two views of the pool agree. */
  function AfterRun(p: Pool, ops: seq<Op>): (q: Pool)
    requires Inv(p) && LegalRun(p, ops)
    ensures Inv(q)
    decreases |ops|
  {
    if ops == [] then p else AfterRun(Step(p, ops[0]), ops[1..])
  }

  predicate Touches(op: Op, ptr: int) { !op.OpAlloc? && op.ptr == ptr }

  predicate Untouched(ops: seq<Op>, ptr: int) { forall k :: 0 <= k < |ops| ==> !Touches(ops[k], ptr) }

  lemma StepSame(p: Pool, op: Op, ptr: int)
    requires Inv(p) && Legal(p, op) && Live(p, ptr) && !Touches(op, ptr)
    ensures Live(Step(p, op), ptr) && SizeAt(Step(p, op).offs, ptr - HEADER) == SizeAt(p.offs, ptr - HEADER)
  {
    match op
    case OpAlloc(n) => RequestAligned(n); AllocSizedKeepsOthers(p, Request(n), ptr);
    case OpFree(f) => if f != NOTHING { FreeKeepsOthers(p, f, ptr); }
    case OpRealloc(f, n) => ReallocKeepsOthers(p, f, n, ptr);
  }

  /** Over any run a block keeps its place and length until it is itself freed or reallocated. */
  lemma {:induction false} RunKeepsLive(p: Pool, ops: seq<Op>, ptr: int)
    requires Inv(p) && LegalRun(p, ops) && Live(p, ptr) && Untouched(ops, ptr)
    ensures Live(AfterRun(p, ops), ptr) && SizeAt(AfterRun(p, ops).offs, ptr - HEADER) == SizeAt(p.offs, ptr - HEADER)
    decreases |ops|
  {
    if ops != [] {
      assert !Touches(ops[0], ptr);
      StepSame(p, ops[0], ptr);
      hide Inv, Legal, Live, Step, Touches, SizeAt;
      RunKeepsLive(Step(p, ops[0]), ops[1..], ptr);
    }
  }

  lemma FirstTaken()
    ensures NewPool(256).free[0] == 0 && TakeAt(NewPool(256), 0, 16) == Pool(256, [0, 40, 232], {0, 232}, [40], 168, 88)
  {
    var p := NewPool(256);
    assert Use(p, 0) == Pool(256, [0, 232], {0, 232}, [], 0, 48);
    assert Put(Use(p, 0), 0, 40) == Pool(256, [0, 40, 232], {0, 232}, [40], 168, 48);
  }

  lemma AllocOfFirst(p: Pool, n: nat, i: nat, size: nat)
    requires Inv(p) && n < 0x1_0000_0000 && i + 1 < |p.offs| && p.free != [] && p.free[0] == p.offs[i]
    requires size == Request(n) <= Payload(p.offs, i) && size < p.avail
    ensures Alloc(p, n) == Given(TakeAt(p, i, size), p.free[0] + HEADER)
  {
    InvDistinct(p);
    IndexIs(p.offs, i);
    SizeIs(p.offs, i);
    hide Inv, TakeAt, Distinct, Request;
  }

  lemma FirstOfNewPool()
    ensures Inv(NewPool(256))
      && Alloc(NewPool(256), 16) == Given(Pool(256, [0, 40, 232], {0, 232}, [40], 168, 88), HEADER)
  {
    NewPoolKeeps(256);
    FirstTaken();
    hide Inv, TakeAt, Alloc;
    AllocOfFirst(NewPool(256), 16, 0, 16);
  }

  lemma OneOp(p: Pool, op: Op)
    requires Inv(p) && Legal(p, op)
    ensures LegalRun(p, [op]) && AfterRun(p, [op]) == Step(p, op)
  {
    assert [op][1..] == [];
  }

  /** The twelve sizes are met: the first block of a new pool of 256 bytes, reallocated to 4 GB less 12. */
  lemma ReallocCanOverrun()
    ensures var p := NewPool(256);
      && Inv(p) && LegalRun(p, [OpAlloc(16)])
      && var q := AfterRun(p, [OpAlloc(16)]);
      && Live(q, HEADER) && Overreaches(q, HEADER, 0xFFFF_FFF4) && !Inv(Realloc(q, HEADER, 0xFFFF_FFF4).pool)
  {
    var p, q := NewPool(256), Pool(256, [0, 40, 232], {0, 232}, [40], 168, 88);
    FirstOfNewPool();
    hide Inv, Alloc, Realloc, NewPool;
    OneOp(p, OpAlloc(16));
    assert BlockAt(q, 0) == 0;
    hide LegalRun, AfterRun;
    ReallocKeepsIff(q, HEADER, 0xFFFF_FFF4);
  }
}
