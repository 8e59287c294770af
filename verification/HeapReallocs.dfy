/** What rt_realloc of the small-memory heap returns, and that calls leave the other blocks alone. */
module HeapReallocs {
  import opened HeapLayout
  import opened HeapRuns

  // ----- other blocks are left alone -----

  /** The block at address a is the same in both heaps, and live. */
  predicate SameLive(bs: seq<Block>, ts: seq<Block>, a: int) {
    IsLive(bs, a) && IsLive(ts, a) && ts[IndexOf(ts, a - HEADER)] == bs[IndexOf(bs, a - HEADER)]
  }

  lemma SameLiveTwice(bs: seq<Block>, ts: seq<Block>, us: seq<Block>, a: int)
    requires SameLive(bs, ts, a) && SameLive(ts, us, a)
    ensures SameLive(bs, us, a)
  {
  }

  /** Replacing part of the blocks leaves a block outside it. */
  lemma SpliceKeeps(bs: seq<Block>, heapEnd: nat, i: nat, j: nat, mid: seq<Block>, k: nat)
    requires Tiles(bs, heapEnd) && i <= j <= |bs| && k < |bs| && (k < i || j <= k) && bs[k].used
    requires Tiles(Splice(bs, i, j, mid), heapEnd)
    ensures SameLive(bs, Splice(bs, i, j, mid), bs[k].off + HEADER)
  {
    var ts, k' := Splice(bs, i, j, mid), if k < i then k else k - j + i + |mid|;
    SpliceAt(bs, i, j, mid);
    assert ts[k'] == bs[k];
    IndexOfBlock(bs, heapEnd, k);
    IndexOfBlock(ts, heapEnd, k');
  }

  lemma FuseKeeps(h: Heap, heapEnd: nat, i: nat, k: nat)
    requires Tiles(h.blocks, heapEnd) && i < |h.blocks| && k < |h.blocks| && k != i && h.blocks[k].used
    ensures SameLive(h.blocks, Fuse(h, i).blocks, h.blocks[k].off + HEADER)
  {
    FuseTiles(h.blocks, heapEnd, i);
    SpliceKeeps(h.blocks, heapEnd, RunStart(h.blocks, i), RunEnd(h.blocks, i), [Whole(h.blocks, i)], k);
  }

  /** rt_free leaves every other live block in place with its bounds. */
  lemma FreeKeepsOthers(h: Heap, memSize: nat, p: Ptr, a: int)
    requires Inv(h, memSize) && (p.At? ==> IsLive(h.blocks, p.addr)) && IsLive(h.blocks, a) && p != At(a)
    ensures SameLive(h.blocks, Free(h, p).blocks, a)
  {
    if p.At? {
      var i, k := IndexOf(h.blocks, p.addr - HEADER), IndexOf(h.blocks, a - HEADER);
      var b := h.blocks[i];
      var h1 := h.(lfree := if b.off < h.lfree then b.off else h.lfree, usedMem := h.usedMem - (b.end - b.off));
      FuseKeeps(h1, memSize + HEADER, i, k);
    }
  }

  /** The block that is cut, and every other. */
  lemma ShrinkGives(h: Heap, memSize: nat, i: nat, n: nat)
    requires CanShrink(h, memSize, i, n)
    ensures var ts, a := ShrinkAt(h, i, n).blocks, h.blocks[i].off + HEADER;
      IsLive(ts, a) && ts[IndexOf(ts, a - HEADER)] == CutParts(h.blocks[i], n)[0]
  {
    CutTiles(h, memSize, i, n);
    IndexOfBlock(CutAt(h, i, n).blocks, memSize + HEADER, i);
    FuseKeeps(CutAt(h, i, n), memSize + HEADER, i + 1, i);
  }

  lemma ShrinkKeepsOthers(h: Heap, memSize: nat, i: nat, n: nat, a: int)
    requires CanShrink(h, memSize, i, n) && IsLive(h.blocks, a) && IndexOf(h.blocks, a - HEADER) != i
    ensures SameLive(h.blocks, ShrinkAt(h, i, n).blocks, a)
  {
    var c := CutAt(h, i, n);
    CutTiles(h, memSize, i, n);
    SpliceKeeps(h.blocks, memSize + HEADER, i, i + 1, CutParts(h.blocks[i], n), IndexOf(h.blocks, a - HEADER));
    hide Tiles, NoAdjacentFree, Fuse, Splice, CutParts, FreeOrEnd, UsedBytes;
    assert SameLive(h.blocks, c.blocks, a);
    hide Inv;
    CutUsedNotFree(c, i, a);
    FuseKeeps(c, memSize + HEADER, i + 1, IndexOf(c.blocks, a - HEADER));
    SameLiveTwice(h.blocks, c.blocks, ShrinkAt(h, i, n).blocks, a);
  }

  lemma CutUsedNotFree(c: Heap, i: nat, a: int)
    requires IsLive(c.blocks, a) && i + 1 < |c.blocks| && !c.blocks[i + 1].used
    ensures IndexOf(c.blocks, a - HEADER) != i + 1
  {
  }

  // ----- rt_realloc -----

  /** A call whose caller may make it: with NULL, or with a live block. */
  predicate MayRealloc(h: Heap, memSize: nat, p: Ptr) {
    p.At? ==> InHeap(p.addr, memSize) && IsLive(h.blocks, p.addr)
  }

  /** The branches of rt_realloc on a live block. */
  lemma ReallocLive(h: Heap, memSize: nat, p: Ptr, newSize: nat)
    requires Inv(h, memSize) && ValidSize(memSize) && p.At? && InHeap(p.addr, memSize) && IsLive(h.blocks, p.addr)
    ensures var n, i := AlignUp(newSize), IndexOf(h.blocks, p.addr - HEADER); var payload := h.blocks[i].Payload();
      && 0 <= payload
      && Realloc(h, memSize, p, newSize) ==
           if n > memSize then (h, Null)
           else if payload == n then (h, p)
           else if Shrinks(h.blocks[i], n) then (ShrinkAt(h, i, n), p)
           else Move(h, memSize, p, n)
  {
    hide Inv, ShrinkAt, Move, AlignUp, IndexOf;
    assert WellSized(h.blocks[IndexOf(h.blocks, p.addr - HEADER)]) by { LiveSized(h, memSize, p.addr); }
  }

  lemma LiveSized(h: Heap, memSize: nat, a: int)
    requires Inv(h, memSize) && IsLive(h.blocks, a)
    ensures var i := IndexOf(h.blocks, a - HEADER);
      WellSized(h.blocks[i]) && a == h.blocks[i].off + HEADER && Aligned(a) && h.blocks[i].end <= memSize + HEADER
  {
    AllOrdered(h.blocks, memSize + HEADER);
    assert WellSized(h.blocks[IndexOf(h.blocks, a - HEADER)]);
  }

  lemma AlignUpAligned(newSize: nat)
    ensures Aligned(AlignUp(newSize))
  {
  }

  /** The new block of a move is live and covers the size after the old one is freed. */
  lemma MoveGives(h: Heap, memSize: nat, p: Ptr, n: nat)
    requires Inv(h, memSize) && ValidSize(memSize) && n < WORD_LIMIT && Aligned(n) && p.At? && IsLive(h.blocks, p.addr)
    ensures var (h', q) := Move(h, memSize, p, n);
      if q.Null? then h' == h
      else n > 0 && IsLive(h'.blocks, q.addr) && Aligned(q.addr) && Covers(h'.blocks, q.addr, n)
  {
    var (h1, r) := Malloc(h, memSize, n);
    MallocKeepsLive(h, memSize, n, p.addr);
    assert n == 0 ==> r.Null?;
    if r.At? {
      MallocGives(h, memSize, n);
      MallocKeepsInv(h, memSize, n);
      MallocKeepsOthers(h, memSize, n, p.addr);
      RequestCovers(n);
      hide Malloc, Free, Inv, Request, AlignUp, IndexOf;
      FreeKeepsOthers(h1, memSize, p, r.addr);
    }
  }

  lemma MallocAlignedGives(h: Heap, memSize: nat, n: nat)
    requires Inv(h, memSize) && ValidSize(memSize) && n < WORD_LIMIT && Aligned(n)
    ensures var (h', q) := Malloc(h, memSize, n);
      if q.Null? then h' == h else IsLive(h'.blocks, q.addr) && Aligned(q.addr) && Covers(h'.blocks, q.addr, n)
  {
    if Malloc(h, memSize, n).1.At? {
      MallocGives(h, memSize, n);
      RequestCovers(n);
    }
  }

  /** What is returned is live, aligned and covers the aligned size; a failed call changes nothing. */
  lemma ReallocGives(h: Heap, memSize: nat, p: Ptr, newSize: nat)
    requires Inv(h, memSize) && ValidSize(memSize) && newSize < WORD_LIMIT && MayRealloc(h, memSize, p)
    ensures var (h', q) := Realloc(h, memSize, p, newSize);
      if q.Null? then h' == h
      else IsLive(h'.blocks, q.addr) && Aligned(q.addr) && Covers(h'.blocks, q.addr, AlignUp(newSize))
  {
    var n := AlignUp(newSize);
    AlignUpAligned(newSize);
    hide AlignUp, Inv, Malloc, Move, ShrinkAt, IndexOf;
    if p.Null? {
      if n <= memSize { MallocAlignedGives(h, memSize, n); }
    } else {
      var i := IndexOf(h.blocks, p.addr - HEADER);
      ReallocLive(h, memSize, p, newSize);
      LiveSized(h, memSize, p.addr);
      hide Realloc;
      if n <= memSize {
        if h.blocks[i].Payload() != n && Shrinks(h.blocks[i], n) { ShrinkGives(h, memSize, i, n); }
        MoveGives(h, memSize, p, n);
      }
    }
  }

  /** What rt_realloc returns holds the size asked for if and only if aligning that size does not wrap. */
  lemma ReallocHonoursSizeIff(h: Heap, memSize: nat, p: Ptr, newSize: nat)
    requires Inv(h, memSize) && ValidSize(memSize) && newSize < WORD_LIMIT && MayRealloc(h, memSize, p)
    requires Realloc(h, memSize, p, newSize).1.At?
    ensures var (h', q) := Realloc(h, memSize, p, newSize);
      Covers(h'.blocks, q.addr, newSize) <==> newSize + 3 < WORD_LIMIT
  {
    var (h', q) := Realloc(h, memSize, p, newSize);
    ReallocGives(h, memSize, p, newSize);
    if newSize + 3 < WORD_LIMIT {
      RequestCovers(newSize);
    } else {
      ReallocKeepsInv(h, memSize, p, newSize);
      hide Realloc;
      AllOrdered(h'.blocks, memSize + HEADER);
      var k := IndexOf(h'.blocks, q.addr - HEADER);
      assert h'.blocks[k].end <= memSize + HEADER;
    }
  }

  /** What a size that wraps does to a live block: one of more than 24 bytes is cut to none. */
  lemma WrappedRealloc(h: Heap, memSize: nat, a: int, newSize: nat)
    requires Inv(h, memSize) && ValidSize(memSize) && WORD_LIMIT - 3 <= newSize < WORD_LIMIT
    requires InHeap(a, memSize) && IsLive(h.blocks, a)
    ensures var i := IndexOf(h.blocks, a - HEADER); var payload := h.blocks[i].Payload();
      Realloc(h, memSize, At(a), newSize) ==
        if payload == 0 then (h, At(a))
        else if HEADER + MIN_PAYLOAD < payload then (ShrinkAt(h, i, 0), At(a))
        else (h, Null)
  {
    assert AlignUp(newSize) == 0;
    ReallocLive(h, memSize, At(a), newSize);
    MoveGives(h, memSize, At(a), 0);
    hide Realloc, Move, ShrinkAt, AlignUp, Inv;
  }

  /** rt_realloc leaves every other live block in place with its bounds. */
  lemma ReallocKeepsOthers(h: Heap, memSize: nat, p: Ptr, newSize: nat, a: int)
    requires Inv(h, memSize) && ValidSize(memSize)
    requires p.At? && InHeap(p.addr, memSize) ==> IsLive(h.blocks, p.addr)
    requires IsLive(h.blocks, a) && p != At(a)
    ensures SameLive(h.blocks, Realloc(h, memSize, p, newSize).0.blocks, a)
  {
    var n := AlignUp(newSize);
    AlignUpAligned(newSize);
    MallocKeepsOthers(h, memSize, n, a);
    hide AlignUp, Inv, Malloc, Move, ShrinkAt;
    if p.At? && InHeap(p.addr, memSize) {
      var i, k := IndexOf(h.blocks, p.addr - HEADER), IndexOf(h.blocks, a - HEADER);
      ReallocLive(h, memSize, p, newSize);
      LiveSized(h, memSize, p.addr);
      LiveSized(h, memSize, a);
      hide Realloc;
      if Shrinks(h.blocks[i], n) { ShrinkKeepsOthers(h, memSize, i, n, a); }
      MoveKeepsOthers(h, memSize, p, n, a);
    }
  }

  lemma MoveKeepsOthers(h: Heap, memSize: nat, p: Ptr, n: nat, a: int)
    requires Inv(h, memSize) && ValidSize(memSize) && p.At? && IsLive(h.blocks, p.addr) && IsLive(h.blocks, a)
      && p != At(a)
    ensures SameLive(h.blocks, Move(h, memSize, p, n).0.blocks, a)
  {
    var h1 := Malloc(h, memSize, n).0;
    MallocKeepsOthers(h, memSize, n, a);
    MallocKeepsInv(h, memSize, n);
    MallocKeepsLive(h, memSize, n, p.addr);
    hide Malloc, Free, Inv, IndexOf;
    FreeKeepsOthers(h1, memSize, p, a);
    SameLiveTwice(h.blocks, h1.blocks, Free(h1, p).blocks, a);
  }

  // ----- runs -----

  predicate Touches(op: Op, a: int) { !op.OpMalloc? && op.p == At(a) }

  predicate Untouched(ops: seq<Op>, a: int) { forall k :: 0 <= k < |ops| ==> !Touches(ops[k], a) }

  lemma StepKeepsLive(h: Heap, memSize: nat, op: Op, a: int)
    requires Inv(h, memSize) && ValidSize(memSize) && Legal(h, memSize, op) && IsLive(h.blocks, a) && !Touches(op, a)
    ensures SameLive(h.blocks, Step(h, memSize, op).blocks, a)
  {
    match op
    case OpMalloc(size) => MallocKeepsOthers(h, memSize, size, a);
    case OpFree(p) => FreeKeepsOthers(h, memSize, p, a);
    case OpRealloc(p, newSize) => ReallocKeepsOthers(h, memSize, p, newSize, a);
  }

  /** Over any run a live block keeps its place and bounds until it is itself freed or reallocated. */
  lemma {:induction false} RunKeepsLive(h: Heap, memSize: nat, ops: seq<Op>, a: int)
    requires Inv(h, memSize) && ValidSize(memSize) && LegalRun(h, memSize, ops)
    requires IsLive(h.blocks, a) && Untouched(ops, a)
    ensures SameLive(h.blocks, After(h, memSize, ops).blocks, a)
    decreases |ops|
  {
    if ops != [] {
      assert !Touches(ops[0], a);
      StepKeepsInv(h, memSize, ops[0]);
      StepKeepsLive(h, memSize, ops[0], a);
      hide Inv, Legal, Step, Touches;
      RunKeepsLive(Step(h, memSize, ops[0]), memSize, ops[1..], a);
    }
  }
}
