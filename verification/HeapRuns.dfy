/** What holds of the small-memory heap over whole runs, and how its operations relate. */
module HeapRuns {
  import opened HeapLayout
  import opened HeapImage

  // ----- runs -----

  datatype Op = OpMalloc(size: nat) | OpFree(p: Ptr) | OpRealloc(p: Ptr, newSize: nat)

  /** What the source asserts of its callers: only live payload addresses are handed back. */
  predicate Legal(h: Heap, memSize: nat, op: Op) {
    match op
    case OpMalloc(_) => true
    case OpFree(p) => p.At? ==> IsLive(h.blocks, p.addr)
    case OpRealloc(p, _) => p.At? && InHeap(p.addr, memSize) ==> IsLive(h.blocks, p.addr)
  }

  function Step(h: Heap, memSize: nat, op: Op): Heap
    requires Inv(h, memSize) && ValidSize(memSize) && Legal(h, memSize, op)
  {
    match op
    case OpMalloc(size) => Malloc(h, memSize, size).0
    case OpFree(p) => Free(h, p)
    case OpRealloc(p, n) => Realloc(h, memSize, p, n).0
  }

  lemma StepKeepsInv(h: Heap, memSize: nat, op: Op)
    requires Inv(h, memSize) && ValidSize(memSize) && Legal(h, memSize, op)
    ensures Inv(Step(h, memSize, op), memSize)
  {
    match op
    case OpMalloc(size) => MallocKeepsInv(h, memSize, size);
    case OpFree(p) => if p.At? { FreeAtKeepsInv(h, memSize, IndexOf(h.blocks, p.addr - HEADER)); }
    case OpRealloc(p, n) => ReallocKeepsInv(h, memSize, p, n);
  }

  /** rt_system_heap_init: one free block and the terminating header. */
  function Initial(memSize: nat): Heap {
    Heap([Block(0, memSize + HEADER, false)], 0, 0, 0)
  }

  lemma InitialInv(memSize: nat)
    requires Aligned(memSize)
    ensures Inv(Initial(memSize), memSize) && LfreeIsLowest(Initial(memSize))
  {
    var b := Block(0, memSize + HEADER, false);
    assert Initial(memSize).blocks[0] == b;
    UsedBytesShort([b]);
  }

  /** Every call of the run is one its caller may make. */
  predicate LegalRun(h: Heap, memSize: nat, ops: seq<Op>)
    requires Inv(h, memSize) && ValidSize(memSize)
    decreases |ops|
  {
    ops == [] ||
    (Legal(h, memSize, ops[0]) &&
     (StepKeepsInv(h, memSize, ops[0]);
      LegalRun(Step(h, memSize, ops[0]), memSize, ops[1..])))
  }

  /** The heap a run leads to.  In every heap so reached the headers tile the heap exactly, no two
      neighbours are both free, lfree is a free block or the end, and used_mem is the length of
      the used blocks. */
  function After(h: Heap, memSize: nat, ops: seq<Op>): (h': Heap)
    requires Inv(h, memSize) && ValidSize(memSize) && LegalRun(h, memSize, ops)
    ensures Inv(h', memSize)
    decreases |ops|
  {
    if ops == [] then h
    else
      StepKeepsInv(h, memSize, ops[0]);
      After(Step(h, memSize, ops[0]), memSize, ops[1..])
  }

  lemma RunNone(h: Heap, memSize: nat)
    requires Inv(h, memSize) && ValidSize(memSize)
    ensures LegalRun(h, memSize, []) && After(h, memSize, []) == h
  {
  }

  /** A run that begins with op. */
  lemma RunCons(h: Heap, memSize: nat, op: Op, rest: seq<Op>)
    requires Inv(h, memSize) && ValidSize(memSize) && Legal(h, memSize, op)
    requires Inv(Step(h, memSize, op), memSize) && LegalRun(Step(h, memSize, op), memSize, rest)
    ensures LegalRun(h, memSize, [op] + rest)
      && After(h, memSize, [op] + rest) == After(Step(h, memSize, op), memSize, rest)
  {
    assert ([op] + rest)[1..] == rest;
  }

  // ----- lfree -----

  lemma MallocKeepsLowest(h: Heap, memSize: nat, size: nat)
    requires Inv(h, memSize) && ValidSize(memSize) && LfreeIsLowest(h)
    ensures LfreeIsLowest(Malloc(h, memSize, size).0)
  {
    var n := Request(size);
    var i := FindFit(h.blocks, IndexOf(h.blocks, h.lfree), n, memSize);
    if size != 0 && AlignUp(size) <= memSize && i < |h.blocks| {
      TakenLowest(h, memSize, i, n);
    }
  }

  /** Fusing keeps lfree lowest when no free block other than block i lies below it. */
  lemma FuseKeepsLowest(h: Heap, heapEnd: nat, i: nat)
    requires Tiles(h.blocks, heapEnd) && i < |h.blocks|
    requires FreeOrEnd(h.blocks, h.lfree, heapEnd) || h.lfree == h.blocks[i].off
    requires forall k :: 0 <= k < |h.blocks| && k != i && h.blocks[k].off < h.lfree ==> h.blocks[k].used
    requires Whole(h.blocks, i).off < h.lfree ==> h.lfree < Whole(h.blocks, i).end
    ensures LfreeIsLowest(Fuse(h, i))
  {
    var bs, lo, hi, w := h.blocks, RunStart(h.blocks, i), RunEnd(h.blocks, i), Whole(h.blocks, i);
    var s := FuseBlocks(bs, i);
    SpliceAt(bs, lo, hi, [w]);
    AllOrdered(bs, heapEnd);
    assert WellSized(bs[lo]) && WellSized(bs[i]);
    forall k | 0 <= k < |s| && s[k].off < Fuse(h, i).lfree ensures s[k].used {
      if k < lo { assert s[k] == bs[k]; }
    }
  }

  lemma FreeAtKeepsLowest(h: Heap, memSize: nat, i: nat)
    requires Inv(h, memSize) && i < |h.blocks| && h.blocks[i].used && LfreeIsLowest(h)
    ensures LfreeIsLowest(FreeAt(h, i))
  {
    var b := h.blocks[i];
    var r := h.(lfree := if b.off < h.lfree then b.off else h.lfree, usedMem := h.usedMem - (b.end - b.off));
    var w := Whole(h.blocks, i);
    AllOrdered(h.blocks, memSize + HEADER);
    assert WellSized(b);
    NotInside(h.blocks, memSize + HEADER, h.lfree, i);
    FuseKeepsLowest(r, memSize + HEADER, i);
  }

  /** rt_malloc and rt_free keep lfree at the lowest free block. */
  lemma FreeKeepsLowest(h: Heap, memSize: nat, p: Ptr)
    requires Inv(h, memSize) && LfreeIsLowest(h) && (p.At? ==> IsLive(h.blocks, p.addr))
    ensures LfreeIsLowest(Free(h, p))
  {
    if p.At? { FreeAtKeepsLowest(h, memSize, IndexOf(h.blocks, p.addr - HEADER)); }
  }

  lemma CutLowest(h: Heap, memSize: nat, i: nat, n: nat)
    requires CanShrink(h, memSize, i, n) && LfreeIsLowest(h)
    ensures var c := CutAt(h, i, n).blocks;
      forall k :: 0 <= k < |c| && k != i + 1 && c[k].off < h.lfree ==> c[k].used
  {
    var c := CutAt(h, i, n).blocks;
    SpliceAt(h.blocks, i, i + 1, CutParts(h.blocks[i], n));
    forall k | 0 <= k < |c| && k != i + 1 && c[k].off < h.lfree ensures c[k].used {
      if k < i { assert c[k] == h.blocks[k]; }
      if k > i + 1 { assert c[k] == h.blocks[k - 1]; }
    }
  }

  /** A shrinking rt_realloc does not lower lfree: it stays lowest exactly when lfree was already
      below the block or was the free block behind it. */
  lemma ShrinkKeepsLowestIff(h: Heap, memSize: nat, i: nat, n: nat)
    requires CanShrink(h, memSize, i, n) && LfreeIsLowest(h)
    ensures LfreeIsLowest(ShrinkAt(h, i, n))
      <==> h.lfree < h.blocks[i].off || (h.lfree == h.blocks[i].end && h.lfree != memSize + HEADER)
  {
    var b, c, E := h.blocks[i], CutAt(h, i, n), memSize + HEADER;
    CutTiles(h, memSize, i, n);
    CutLowest(h, memSize, i, n);
    NotInside(h.blocks, E, h.lfree, i);
    assert WellSized(b);
    if h.lfree < b.off {
      FuseKeepsLowest(c, E, i + 1);
    } else if h.lfree == b.end && h.lfree != E {
      NextIsLfree(h, memSize, i);
      SpliceAt(h.blocks, i, i + 1, CutParts(b, n));
      assert c.blocks[i + 2] == h.blocks[i + 1];
      assert WellSized(h.blocks[i + 1]);
      FuseKeepsLowest(c, E, i + 1);
    } else {
      LfreeBehind(h, memSize, i, n);
      var w := Whole(c.blocks, i + 1);
      SpliceAt(c.blocks, i + 1, RunEnd(c.blocks, i + 1), [w]);
      assert FuseBlocks(c.blocks, i + 1)[i + 1] == w && w.off < h.lfree;
    }
  }

  lemma NextIsLfree(h: Heap, memSize: nat, i: nat)
    requires Inv(h, memSize) && i < |h.blocks| && h.lfree == h.blocks[i].end && h.lfree != memSize + HEADER
    ensures i + 1 < |h.blocks| && h.blocks[i + 1].off == h.lfree && !h.blocks[i + 1].used
  {
    assert Meets(h.blocks, i);
    NotInside(h.blocks, memSize + HEADER, h.lfree, i + 1);
    var k :| 0 <= k < |h.blocks| && h.blocks[k].off == h.lfree && !h.blocks[k].used;
    IndexOfBlock(h.blocks, memSize + HEADER, k);
    IndexOfBlock(h.blocks, memSize + HEADER, i + 1);
  }

  lemma LfreeBehind(h: Heap, memSize: nat, i: nat, n: nat)
    requires CanShrink(h, memSize, i, n) && LfreeIsLowest(h)
    requires h.lfree > h.blocks[i].end || h.lfree == memSize + HEADER
    ensures !(Whole(CutAt(h, i, n).blocks, i + 1).off <= h.lfree < Whole(CutAt(h, i, n).blocks, i + 1).end)
  {
    var c := CutAt(h, i, n);
    CutTiles(h, memSize, i, n);
    SpliceAt(h.blocks, i, i + 1, CutParts(h.blocks[i], n));
    AllOrdered(c.blocks, memSize + HEADER);
    if i + 2 < |c.blocks| {
      assert c.blocks[i + 2] == h.blocks[i + 1];
      assert Meets(h.blocks, i);
    }
  }

  /** Over every run of rt_malloc and rt_free, lfree is the lowest free block, or the end. */
  lemma {:induction false} RunKeepsLowest(h: Heap, memSize: nat, ops: seq<Op>)
    requires Inv(h, memSize) && ValidSize(memSize) && LfreeIsLowest(h) && LegalRun(h, memSize, ops)
    requires forall k :: 0 <= k < |ops| ==> !ops[k].OpRealloc?
    ensures LfreeIsLowest(After(h, memSize, ops))
    decreases |ops|
  {
    if ops != [] {
      StepKeepsInv(h, memSize, ops[0]);
      match ops[0] {
        case OpMalloc(size) => MallocKeepsLowest(h, memSize, size);
        case OpFree(p) => FreeKeepsLowest(h, memSize, p);
      }
      RunKeepsLowest(Step(h, memSize, ops[0]), memSize, ops[1..]);
    }
  }

  // ----- where used blocks begin -----

  /** Every used block begins before the last smallest payload of the heap: rt_malloc takes no other, and a
      used block never moves. */
  predicate UsedEarly(bs: seq<Block>, memSize: nat) {
    forall k :: 0 <= k < |bs| && bs[k].used ==> bs[k].off + MIN_PAYLOAD < memSize
  }

  lemma SpliceEarly(bs: seq<Block>, i: nat, j: nat, mid: seq<Block>, memSize: nat)
    requires i <= j <= |bs| && UsedEarly(bs, memSize) && UsedEarly(mid, memSize)
    ensures UsedEarly(Splice(bs, i, j, mid), memSize)
  {
    SpliceAt(bs, i, j, mid);
  }

  lemma MallocEarly(h: Heap, memSize: nat, size: nat)
    requires UsedEarly(h.blocks, memSize)
    ensures UsedEarly(Malloc(h, memSize, size).0.blocks, memSize)
  {
    var n := Request(size);
    var i := FindFit(h.blocks, IndexOf(h.blocks, h.lfree), n, memSize);
    if i < |h.blocks| {
      var mid := TakenParts(h.blocks[i], n);
      assert mid[0].off == h.blocks[i].off;
      SpliceEarly(h.blocks, i, i + 1, mid, memSize);
    }
  }

  lemma FuseEarly(h: Heap, memSize: nat, i: nat)
    requires i < |h.blocks| && forall k :: 0 <= k < |h.blocks| && k != i && h.blocks[k].used ==>
      h.blocks[k].off + MIN_PAYLOAD < memSize
    ensures UsedEarly(Fuse(h, i).blocks, memSize)
  {
    SpliceAt(h.blocks, RunStart(h.blocks, i), RunEnd(h.blocks, i), [Whole(h.blocks, i)]);
  }

  lemma ShrinkEarly(h: Heap, memSize: nat, i: nat, n: nat)
    requires i < |h.blocks| && h.blocks[i].used && UsedEarly(h.blocks, memSize)
    ensures UsedEarly(ShrinkAt(h, i, n).blocks, memSize)
  {
    SpliceAt(h.blocks, i, i + 1, CutParts(h.blocks[i], n));
    SpliceEarly(h.blocks, i, i + 1, CutParts(h.blocks[i], n), memSize);
    FuseEarly(CutAt(h, i, n), memSize, i + 1);
  }

  lemma FreeEarly(h: Heap, memSize: nat, p: Ptr)
    requires UsedEarly(h.blocks, memSize) && (p.At? ==> IsLive(h.blocks, p.addr))
    ensures UsedEarly(Free(h, p).blocks, memSize)
  {
    if p.At? {
      var i := IndexOf(h.blocks, p.addr - HEADER);
      var b := h.blocks[i];
      FuseEarly(h.(lfree := if b.off < h.lfree then b.off else h.lfree, usedMem := h.usedMem - (b.end - b.off)),
        memSize, i);
    }
  }

  lemma StepEarly(h: Heap, memSize: nat, op: Op)
    requires Inv(h, memSize) && ValidSize(memSize) && Legal(h, memSize, op) && UsedEarly(h.blocks, memSize)
    ensures UsedEarly(Step(h, memSize, op).blocks, memSize)
  {
    hide UsedEarly, Inv, ShrinkAt;
    match op {
      case OpMalloc(size) => MallocEarly(h, memSize, size);
      case OpFree(p) => hide Malloc; FreeEarly(h, memSize, p);
      case OpRealloc(p, newSize) => hide Malloc, Free; ReallocEarly(h, memSize, p, newSize);
    }
  }

  lemma ReallocEarly(h: Heap, memSize: nat, p: Ptr, newSize: nat)
    requires Inv(h, memSize) && ValidSize(memSize) && UsedEarly(h.blocks, memSize)
    requires p.At? && InHeap(p.addr, memSize) ==> IsLive(h.blocks, p.addr)
    ensures UsedEarly(Realloc(h, memSize, p, newSize).0.blocks, memSize)
  {
    hide UsedEarly, Inv, ShrinkAt, Malloc, Free;
    var n := AlignUp(newSize);
    MallocEarly(h, memSize, n);
    if p.At? && InHeap(p.addr, memSize) {
      ShrinkEarly(h, memSize, IndexOf(h.blocks, p.addr - HEADER), n);
      MallocKeepsLive(h, memSize, n, p.addr);
      FreeEarly(Malloc(h, memSize, n).0, memSize, p);
    }
  }

  /** So no run from the start leads to a used block that begins later. */
  lemma {:induction false} RunEarly(h: Heap, memSize: nat, ops: seq<Op>)
    requires Inv(h, memSize) && ValidSize(memSize) && LegalRun(h, memSize, ops) && UsedEarly(h.blocks, memSize)
    ensures UsedEarly(After(h, memSize, ops).blocks, memSize)
    decreases |ops|
  {
    if ops != [] {
      StepKeepsInv(h, memSize, ops[0]);
      StepEarly(h, memSize, ops[0]);
      hide UsedEarly, Inv, Legal, Step;
      RunEarly(Step(h, memSize, ops[0]), memSize, ops[1..]);
    }
  }

  // ----- when rt_malloc fails -----

  lemma FindFitFailsIff(bs: seq<Block>, heapEnd: nat, i: nat, n: nat, memSize: nat)
    requires Tiles(bs, heapEnd) && i <= |bs|
    ensures FindFit(bs, i, n, memSize) == |bs| <==> forall k :: i <= k < |bs| ==> !Fits(bs[k], n, memSize)
    decreases |bs| - i
  {
    AllOrdered(bs, heapEnd);
    if i < |bs| {
      assert WellSized(bs[i]);
      FindFitFailsIff(bs, heapEnd, i + 1, n, memSize);
    }
  }

  lemma LfreeIndex(h: Heap, memSize: nat)
    requires Inv(h, memSize)
    ensures forall k :: 0 <= k < |h.blocks| ==> (k < IndexOf(h.blocks, h.lfree) <==> h.blocks[k].off < h.lfree)
  {
    AllOrdered(h.blocks, memSize + HEADER);
    var j := IndexOf(h.blocks, h.lfree);
    forall k | 0 <= k < |h.blocks| ensures k < j <==> h.blocks[k].off < h.lfree {
      assert WellSized(h.blocks[k]);
    }
  }

  /** rt_malloc returns NULL exactly when the size is 0 or larger than the heap, or no free block
      at or above lfree that starts below mem_size_aligned - size is large enough. */
  lemma MallocFailsIff(h: Heap, memSize: nat, size: nat)
    requires Inv(h, memSize) && ValidSize(memSize)
    ensures Malloc(h, memSize, size).1 == Null
      <==> size == 0 || AlignUp(size) > memSize
           || forall k :: 0 <= k < |h.blocks| && h.lfree <= h.blocks[k].off ==>
             !Fits(h.blocks[k], Request(size), memSize)
  {
    LfreeIndex(h, memSize);
    FindFitFailsIff(h.blocks, memSize + HEADER, IndexOf(h.blocks, h.lfree), Request(size), memSize);
  }

  /** While lfree is lowest, no block at all fits when rt_malloc fails. */
  lemma MallocFailsIffNothingFits(h: Heap, memSize: nat, size: nat)
    requires Inv(h, memSize) && ValidSize(memSize) && LfreeIsLowest(h)
    ensures Malloc(h, memSize, size).1 == Null
      <==> size == 0 || AlignUp(size) > memSize
           || forall k :: 0 <= k < |h.blocks| ==> !Fits(h.blocks[k], Request(size), memSize)
  {
    MallocFailsIff(h, memSize, size);
  }

  /** The bound is strict: a request that would use the last block to its last byte is refused,
      even on a fresh heap. */
  lemma ExactFitOfLastBlockRefused(memSize: nat)
    requires ValidSize(memSize)
    ensures Initial(memSize).blocks[0].Payload() == memSize && AlignUp(memSize) == memSize
    ensures Malloc(Initial(memSize), memSize, memSize).1 == Null
  {
    InitialInv(memSize);
    MallocFailsIff(Initial(memSize), memSize, memSize);
  }

  // ----- what rt_malloc hands out -----

  /** [addr, addr + size) lies inside the payload of one used block. */
  predicate Covers(bs: seq<Block>, addr: int, size: int) {
    var i := IndexOf(bs, addr - HEADER);
    i < |bs| && bs[i].used && addr + size <= bs[i].end
  }

  /** A block handed out was free before, is live and aligned now, and holds the rounded request. */
  lemma MallocGives(h: Heap, memSize: nat, size: nat)
    requires Inv(h, memSize) && ValidSize(memSize) && size < WORD_LIMIT
    requires Malloc(h, memSize, size).1.At?
    ensures var (h', p) := Malloc(h, memSize, size);
      && !IsLive(h.blocks, p.addr) && IsLive(h'.blocks, p.addr)
      && Aligned(p.addr) && HEADER <= p.addr
      && Covers(h'.blocks, p.addr, Request(size))
  {
    var n := Request(size);
    var i := FindFit(h.blocks, IndexOf(h.blocks, h.lfree), n, memSize);
    IndexOfBlock(h.blocks, memSize + HEADER, i);
    TakenCovers(h, memSize, i, n);
  }

  lemma TakenCovers(h: Heap, memSize: nat, i: nat, n: nat)
    requires CanTake(h, memSize, i, n)
    ensures var ts, addr := Taken(h.blocks, i, n), h.blocks[i].off + HEADER;
      IsLive(ts, addr) && Covers(ts, addr, n) && Aligned(addr)
  {
    var ts := Taken(h.blocks, i, n);
    TakenProps(h.blocks, memSize + HEADER, i, n);
    SpliceAt(h.blocks, i, i + 1, TakenParts(h.blocks[i], n));
    IndexOfBlock(ts, memSize + HEADER, i);
    assert WellSized(h.blocks[i]);
  }

  /** Every block that was live is still there, with the same bytes, and is not the new one. */
  lemma MallocKeepsOthers(h: Heap, memSize: nat, size: nat, a: int)
    requires Inv(h, memSize) && ValidSize(memSize) && IsLive(h.blocks, a)
    ensures var (h', p) := Malloc(h, memSize, size);
      && IsLive(h'.blocks, a) && p != At(a)
      && h'.blocks[IndexOf(h'.blocks, a - HEADER)] == h.blocks[IndexOf(h.blocks, a - HEADER)]
  {
    var n := Request(size);
    var i := FindFit(h.blocks, IndexOf(h.blocks, h.lfree), n, memSize);
    if size != 0 && AlignUp(size) <= memSize && i < |h.blocks| {
      TakenKeepsOthers(h, memSize, i, n, a);
    }
  }

  lemma TakenKeepsOthers(h: Heap, memSize: nat, i: nat, n: nat, a: int)
    requires CanTake(h, memSize, i, n) && IsLive(h.blocks, a)
    ensures var ts := Taken(h.blocks, i, n);
      && IsLive(ts, a) && h.blocks[i].off + HEADER != a
      && ts[IndexOf(ts, a - HEADER)] == h.blocks[IndexOf(h.blocks, a - HEADER)]
  {
    var ts, mid := Taken(h.blocks, i, n), TakenParts(h.blocks[i], n);
    TakenProps(h.blocks, memSize + HEADER, i, n);
    SpliceAt(h.blocks, i, i + 1, mid);
    IndexOfBlock(h.blocks, memSize + HEADER, i);
    var k := IndexOf(h.blocks, a - HEADER);
    var k' := if k < i then k else k - 1 + |mid|;
    assert ts[k'] == h.blocks[k];
    IndexOfBlock(ts, memSize + HEADER, k');
  }

  lemma MallocKeepsOtherBlocks(h: Heap, memSize: nat, size: nat)
    requires Inv(h, memSize) && ValidSize(memSize)
    ensures var (h', p) := Malloc(h, memSize, size);
      forall b :: b in h.blocks && b.used ==> b in h'.blocks && p != At(b.off + HEADER)
  {
    var (h', p) := Malloc(h, memSize, size);
    forall b | b in h.blocks && b.used ensures b in h'.blocks && p != At(b.off + HEADER) {
      var k :| 0 <= k < |h.blocks| && h.blocks[k] == b;
      IndexOfBlock(h.blocks, memSize + HEADER, k);
      MallocKeepsOthers(h, memSize, size, b.off + HEADER);
    }
  }

  /** Where rt_malloc put its block. */
  lemma NewBlock(h: Heap, memSize: nat, n: nat) returns (k: nat)
    requires Inv(h, memSize) && ValidSize(memSize) && n < WORD_LIMIT && Malloc(h, memSize, n).1.At?
    ensures var (h', q) := Malloc(h, memSize, n);
      && k < |h'.blocks| && h'.blocks[k].used && q.addr == h'.blocks[k].off + HEADER
      && q.addr + Request(n) <= h'.blocks[k].end
      && Beside(h'.blocks, k, h.blocks)
  {
    var (h', q) := Malloc(h, memSize, n);
    MallocGives(h, memSize, n);
    k := IndexOf(h'.blocks, q.addr - HEADER);
    NewBlockBeside(h, memSize, n, k);
  }

  lemma NewBlockBeside(h: Heap, memSize: nat, n: nat, k: nat)
    requires Inv(h, memSize) && ValidSize(memSize)
    requires var (h', q) := Malloc(h, memSize, n); k < |h'.blocks| && q == At(h'.blocks[k].off + HEADER)
    ensures Beside(Malloc(h, memSize, n).0.blocks, k, h.blocks)
  {
    var bs := Malloc(h, memSize, n).0.blocks;
    MallocKeepsInv(h, memSize, n);
    MallocKeepsOtherBlocks(h, memSize, n);
    forall x | x in h.blocks && x.used ensures x in bs && x != bs[k] && (bs[k].end <= x.off || x.end <= bs[k].off) {
      var j :| 0 <= j < |bs| && bs[j] == x;
      if j < k { Ordered(bs, memSize + HEADER, j, k); } else if k < j { Ordered(bs, memSize + HEADER, k, j); }
    }
  }

  /** rt_malloc honours the size it was asked for iff aligning that size does not wrap around. */
  lemma MallocHonoursSizeIff(h: Heap, memSize: nat, size: nat)
    requires Inv(h, memSize) && ValidSize(memSize) && size < WORD_LIMIT
    requires Malloc(h, memSize, size).1.At?
    ensures Covers(Malloc(h, memSize, size).0.blocks, Malloc(h, memSize, size).1.addr, size)
      <==> size + 3 < WORD_LIMIT
  {
    var (h', p) := Malloc(h, memSize, size);
    MallocGives(h, memSize, size);
    if size + 3 < WORD_LIMIT {
      assert size <= AlignUp(size);
    } else {
      MallocKeepsInv(h, memSize, size);
      AllOrdered(h'.blocks, memSize + HEADER);
      var k := IndexOf(h'.blocks, p.addr - HEADER);
      assert h'.blocks[k].end <= memSize + HEADER;
    }
  }

  /** Payloads of different used blocks never share a byte. */
  lemma LiveDisjoint(h: Heap, memSize: nat, a: int, b: int)
    requires Inv(h, memSize) && IsLive(h.blocks, a) && IsLive(h.blocks, b) && a < b
    ensures var x, y := h.blocks[IndexOf(h.blocks, a - HEADER)], h.blocks[IndexOf(h.blocks, b - HEADER)];
      && 0 <= x.off && a == x.off + HEADER && x.end <= y.off < b && y.end <= memSize + HEADER
      && Aligned(a) && Aligned(b)
  {
    AllOrdered(h.blocks, memSize + HEADER);
    var i, j := IndexOf(h.blocks, a - HEADER), IndexOf(h.blocks, b - HEADER);
    assert WellSized(h.blocks[i]) && WellSized(h.blocks[j]);
  }

  // ----- rt_free undoes rt_malloc -----

  /** A request that is granted takes a block at or above lfree. */
  lemma MallocTakes(h: Heap, memSize: nat, size: nat) returns (i: nat, n: nat)
    requires Inv(h, memSize) && ValidSize(memSize) && Malloc(h, memSize, size).1.At?
    ensures CanTake(h, memSize, i, n) && h.lfree <= h.blocks[i].off
    ensures Malloc(h, memSize, size) == (TakeAt(h, i, n, memSize + HEADER), At(h.blocks[i].off + HEADER))
  {
    n := Request(size);
    i := FindFit(h.blocks, IndexOf(h.blocks, h.lfree), n, memSize);
    LfreeIndex(h, memSize);
    hide Tiles, NoAdjacentFree, UsedBytes, TakeAt, Splice;
  }

  /** Freeing what rt_malloc just returned restores the blocks, lfree and used_mem. */
  lemma FreeUndoesMalloc(h: Heap, memSize: nat, size: nat)
    requires Inv(h, memSize) && ValidSize(memSize)
    ensures var (h', p) := Malloc(h, memSize, size);
      && (p.At? ==> IsLive(h'.blocks, p.addr))
      && Free(h', p) == h.(maxMem := h'.maxMem)
  {
    if Malloc(h, memSize, size).1.At? {
      var i, n := MallocTakes(h, memSize, size);
      hide Malloc, Inv, CanTake, TakeAt, FreeAt, IndexOf;
      FreeUndoesTake(h, memSize, i, n);
    }
  }

  lemma FreeUndoesTake(h: Heap, memSize: nat, i: nat, n: nat)
    requires CanTake(h, memSize, i, n) && h.lfree <= h.blocks[i].off
    ensures var h' := TakeAt(h, i, n, memSize + HEADER);
      && IndexOf(h'.blocks, h.blocks[i].off) == i && i < |h'.blocks| && h'.blocks[i].used
      && FreeAt(h', i) == h.(maxMem := h'.maxMem)
  {
    var bs, ts, E := h.blocks, Taken(h.blocks, i, n), memSize + HEADER;
    TakenProps(bs, E, i, n);
    SpliceAt(bs, i, i + 1, TakenParts(bs[i], n));
    IndexOfBlock(ts, E, i);
    UntakeBlocks(bs, i, n);
    assert WellSized(bs[i]);
    if h.lfree == bs[i].off { FirstFreeAbove(ts, E, i); }
  }

  lemma FirstFreeAbove(ts: seq<Block>, heapEnd: nat, i: nat)
    requires Tiles(ts, heapEnd) && i < |ts| && ts[i].used
    ensures ts[i].off < FirstFree(ts, i, heapEnd)
  {
    AllOrdered(ts, heapEnd);
    assert WellSized(ts[i]);
    FirstFreeFrom(ts, heapEnd, i + 1);
  }

  lemma FirstFreeFrom(ts: seq<Block>, heapEnd: nat, i: nat)
    requires i <= |ts|
    ensures FirstFree(ts, i, heapEnd) == heapEnd || exists k :: i <= k < |ts| && ts[k].off == FirstFree(ts, i, heapEnd)
    decreases |ts| - i
  {
    if i < |ts| && ts[i].used { FirstFreeFrom(ts, heapEnd, i + 1); }
  }

  lemma SpliceBack(bs: seq<Block>, i: nat, mid: seq<Block>)
    requires i < |bs|
    ensures var s := Splice(bs, i, i + 1, mid);
      i + |mid| <= |s| && Splice(s, i, i + |mid|, [bs[i]]) == bs
  {
    var s := Splice(bs, i, i + 1, mid);
    assert s[..i] == bs[..i] && s[i + |mid|..] == bs[i + 1..];
  }

  /** The run that block i of Taken(bs, i, n) joins when freed is exactly the taken parts. */
  lemma UntakeRun(bs: seq<Block>, i: nat, n: nat)
    requires NoAdjacentFree(bs) && i < |bs| && !bs[i].used
    ensures var ts := Taken(bs, i, n);
      && i < |ts| && RunStart(ts, i) == i && RunEnd(ts, i) == i + |TakenParts(bs[i], n)|
      && ts[i] == TakenParts(bs[i], n)[0]
      && ts[i + |TakenParts(bs[i], n)| - 1] == TakenParts(bs[i], n)[|TakenParts(bs[i], n)| - 1]
  {
    SpliceAt(bs, i, i + 1, TakenParts(bs[i], n));
    if i > 0 { assert NotBothFree(bs, i - 1); }
    if i + 1 < |bs| { assert NotBothFree(bs, i); }
  }

  lemma UntakeBlocks(bs: seq<Block>, i: nat, n: nat)
    requires NoAdjacentFree(bs) && i < |bs| && !bs[i].used
    ensures var ts := Taken(bs, i, n);
      && i < |ts| && Whole(ts, i) == bs[i] && FuseBlocks(ts, i) == bs
  {
    UntakeRun(bs, i, n);
    SpliceBack(bs, i, TakenParts(bs[i], n));
  }
}
