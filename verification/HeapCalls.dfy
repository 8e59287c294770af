/** What rt_malloc, rt_free and rt_realloc do to the used blocks of the small-memory heap and to its counters, said
    of the heap before and after a call alone. */
module HeapCalls {
  import opened HeapLayout
  import opened HeapRuns
  import opened HeapReallocs

  function UsedBlocks(bs: seq<Block>): set<Block> { set b | b in bs && b.used }

  /** The used blocks before, in, and behind a part that is replaced. */
  lemma SpliceUsed(bs: seq<Block>, i: nat, j: nat, mid: seq<Block>)
    requires i <= j <= |bs|
    ensures UsedBlocks(Splice(bs, i, j, mid)) == UsedBlocks(bs[..i]) + UsedBlocks(mid) + UsedBlocks(bs[j..])
    ensures UsedBlocks(bs) == UsedBlocks(bs[..i]) + UsedBlocks(bs[i..j]) + UsedBlocks(bs[j..])
  {
    assert bs == bs[..i] + bs[i..j] + bs[j..];
  }

  /** What is replaced is not among the others. */
  lemma PartsApart(bs: seq<Block>, heapEnd: nat, i: nat, j: nat)
    requires Tiles(bs, heapEnd) && i <= j <= |bs|
    ensures UsedBlocks(bs[i..j]) !! UsedBlocks(bs[..i]) + UsedBlocks(bs[j..])
  {
    AllOrdered(bs, heapEnd);
    forall k, m | i <= k < j && 0 <= m < |bs| && (m < i || j <= m)
      ensures bs[k] != bs[m]
    {
      assert WellSized(bs[k]) && WellSized(bs[m]);
    }
    assert forall b :: b in bs[i..j] ==> exists k :: i <= k < j && bs[k] == b;
    assert forall b :: b in bs[..i] + bs[j..] ==> exists m :: 0 <= m < |bs| && (m < i || j <= m) && bs[m] == b;
  }

  // ----- rt_malloc -----

  /** b is the first free block from lfree on that the strict bound admits and that is large enough. */
  predicate FirstFit(h: Heap, b: Block, size: nat, memSize: nat) {
    && b in h.blocks && h.lfree <= b.off && Fits(b, size, memSize)
    && forall c :: c in h.blocks && h.lfree <= c.off < b.off ==> !Fits(c, size, memSize)
  }

  /** The block made of the front of a free block b: as long as asked, or all of it if less than a block would be
      left. */
  function Front(b: Block, size: nat): Block {
    Block(b.off, if size + HEADER + MIN_PAYLOAD <= b.Payload() then b.off + HEADER + size else b.end, true)
  }

  lemma {:induction false} FindFitFirst(bs: seq<Block>, heapEnd: nat, i: nat, n: nat, memSize: nat)
    requires Tiles(bs, heapEnd) && i <= |bs|
    ensures forall k :: i <= k < FindFit(bs, i, n, memSize) ==> !Fits(bs[k], n, memSize)
    decreases |bs| - i
  {
    if i < |bs| && bs[i].off < memSize - n && (bs[i].used || bs[i].Payload() < n) {
      FindFitFirst(bs, heapEnd, i + 1, n, memSize);
    } else if i < |bs| && bs[i].off >= memSize - n {
      AllOrdered(bs, heapEnd);
      assert WellSized(bs[i]);
      forall k | i <= k < |bs|
        ensures !Fits(bs[k], n, memSize)
      {
        assert WellSized(bs[k]);
      }
    }
  }

  lemma TakenUsed(bs: seq<Block>, heapEnd: nat, i: nat, n: nat)
    requires Tiles(bs, heapEnd) && i < |bs| && !bs[i].used
    ensures UsedBlocks(Taken(bs, i, n)) == UsedBlocks(bs) + {Front(bs[i], n)}
  {
    SpliceUsed(bs, i, i + 1, TakenParts(bs[i], n));
    assert bs[i..i + 1] == [bs[i]];
    assert UsedBlocks(TakenParts(bs[i], n)) == {Front(bs[i], n)};
  }

  /** A request that is granted takes the front of the first fit, and only that; the most ever used follows. */
  lemma MallocTakesFirst(h: Heap, memSize: nat, size: nat) returns (b: Block)
    requires Inv(h, memSize) && ValidSize(memSize) && Malloc(h, memSize, size).1.At?
    ensures var (h', p) := Malloc(h, memSize, size);
      && FirstFit(h, b, Request(size), memSize) && p == At(b.off + HEADER)
      && UsedBlocks(h'.blocks) == UsedBlocks(h.blocks) + {Front(b, Request(size))}
      && h'.maxMem == if h.maxMem < h'.usedMem then h'.usedMem else h.maxMem
  {
    var n, bs := Request(size), h.blocks;
    var first := IndexOf(bs, h.lfree);
    var i := FindFit(bs, first, n, memSize);
    b := bs[i];
    LfreeIndex(h, memSize);
    FindFitFirst(bs, memSize + HEADER, first, n, memSize);
    TakenUsed(bs, memSize + HEADER, i, n);
    AllOrdered(bs, memSize + HEADER);
    forall c | c in bs && h.lfree <= c.off < b.off
      ensures !Fits(c, n, memSize)
    {
      var k :| 0 <= k < |bs| && bs[k] == c;
      assert WellSized(bs[k]) && WellSized(bs[i]);
    }
    hide Inv, FindFit, Taken, FirstFree, Request, AlignUp, UsedBlocks;
  }

  // ----- rt_free -----

  /** In the free run around block i only that block can be used. */
  lemma RunUsed(bs: seq<Block>, i: nat)
    requires i < |bs|
    ensures UsedBlocks(bs[RunStart(bs, i)..RunEnd(bs, i)]) == if bs[i].used then {bs[i]} else {}
  {
    var lo, hi := RunStart(bs, i), RunEnd(bs, i);
    assert bs[lo..hi][i - lo] == bs[i];
    forall b | b in UsedBlocks(bs[lo..hi])
      ensures b == bs[i]
    {
      var k :| lo <= k < hi && bs[k] == b;
    }
  }

  lemma FuseUsed(bs: seq<Block>, heapEnd: nat, i: nat)
    requires Tiles(bs, heapEnd) && i < |bs|
    ensures UsedBlocks(FuseBlocks(bs, i)) == UsedBlocks(bs) - {bs[i]}
  {
    var lo, hi := RunStart(bs, i), RunEnd(bs, i);
    SpliceUsed(bs, lo, hi, [Whole(bs, i)]);
    PartsApart(bs, heapEnd, lo, hi);
    RunUsed(bs, i);
    assert UsedBlocks([Whole(bs, i)]) == {};
    assert !bs[i].used ==> bs[i] !in UsedBlocks(bs);
    hide UsedBlocks, Tiles, Splice, Whole;
  }

  /** A block released is no longer used, and every other used block is. */
  lemma FreeReleases(h: Heap, memSize: nat, a: int)
    requires Inv(h, memSize) && IsLive(h.blocks, a)
    ensures var h' := Free(h, At(a));
      UsedBlocks(h'.blocks) == UsedBlocks(h.blocks) - {h.blocks[IndexOf(h.blocks, a - HEADER)]} && h'.maxMem == h.maxMem
  {
    FuseUsed(h.blocks, memSize + HEADER, IndexOf(h.blocks, a - HEADER));
    hide Inv, FuseBlocks, UsedBlocks;
  }

  // ----- rt_realloc -----

  /** Block i cut to size bytes. */
  function Shortened(b: Block, size: nat): Block { Block(b.off, b.off + HEADER + size, true) }

  lemma ShrinkUsed(h: Heap, memSize: nat, i: nat, n: nat)
    requires CanShrink(h, memSize, i, n)
    ensures var r := ShrinkAt(h, i, n);
      UsedBlocks(r.blocks) == UsedBlocks(h.blocks) - {h.blocks[i]} + {Shortened(h.blocks[i], n)} && r.maxMem == h.maxMem
  {
    var bs, c := h.blocks, CutAt(h, i, n).blocks;
    CutTiles(h, memSize, i, n);
    FuseUsed(c, memSize + HEADER, i + 1);
    SpliceUsed(bs, i, i + 1, CutParts(bs[i], n));
    PartsApart(bs, memSize + HEADER, i, i + 1);
    assert bs[i..i + 1] == [bs[i]];
    assert UsedBlocks(CutParts(bs[i], n)) == {Shortened(bs[i], n)};
    assert UsedBlocks(bs[i..i + 1]) == {bs[i]};
    assert c[i + 1] !in UsedBlocks(c);
    hide Inv, Tiles, Splice, FuseBlocks;
  }

  /** The new block of a move, and the old one gone. */
  predicate MovedTo(h: Heap, memSize: nat, b: Block, n: nat, c: Block, h': Heap, q: Ptr) {
    && FirstFit(h, c, Request(n), memSize) && q == At(c.off + HEADER)
    && UsedBlocks(h'.blocks) == UsedBlocks(h.blocks) - {b} + {Front(c, Request(n))}
  }

  lemma MoveTakes(h: Heap, memSize: nat, a: int, n: nat) returns (c: Block)
    requires Inv(h, memSize) && ValidSize(memSize) && n < WORD_LIMIT && IsLive(h.blocks, a)
    requires Malloc(h, memSize, n).1.At?
    ensures var r := Move(h, memSize, At(a), n);
      MovedTo(h, memSize, h.blocks[IndexOf(h.blocks, a - HEADER)], n, c, r.0, r.1)
  {
    hide Malloc, Inv, Free, UsedBlocks, IndexOf, Request, AlignUp, Front;
    c := MallocTakesFirst(h, memSize, n);
    MallocKeepsInv(h, memSize, n);
    MallocKeepsLive(h, memSize, n, a);
    MallocKeepsOthers(h, memSize, n, a);
    var b := h.blocks[IndexOf(h.blocks, a - HEADER)];
    NotFront(h, memSize, b, c, Request(n));
    FreeReleases(Malloc(h, memSize, n).0, memSize, a);
  }

  lemma NotFront(h: Heap, memSize: nat, b: Block, c: Block, n: nat)
    requires Inv(h, memSize) && b in h.blocks && b.used && !c.used && c in h.blocks
    ensures b != Front(c, n)
  {
    AllOrdered(h.blocks, memSize + HEADER);
    var i :| 0 <= i < |h.blocks| && h.blocks[i] == b;
    var j :| 0 <= j < |h.blocks| && h.blocks[j] == c;
    assert WellSized(b) && WellSized(c);
  }

  lemma MoveFails(h: Heap, memSize: nat, a: int, n: nat)
    requires Inv(h, memSize) && ValidSize(memSize) && IsLive(h.blocks, a) && Malloc(h, memSize, n).1.Null?
    ensures Move(h, memSize, At(a), n) == (h, Null)
  {
    hide Malloc, Inv;
  }

  /** rt_realloc of a live block, whatever the sizes: nothing above the heap; a block as long as asked stays; one
      more than 24 bytes too long is cut, in place, to exactly the aligned size; any other moves to where an
      rt_malloc would be served, or stays if that fails. */
  lemma ReallocFits(h: Heap, memSize: nat, a: int, newSize: nat)
    requires Inv(h, memSize) && ValidSize(memSize) && newSize < WORD_LIMIT && InHeap(a, memSize) && IsLive(h.blocks, a)
    ensures var (h', q) := Realloc(h, memSize, At(a), newSize);
      var b, n := h.blocks[IndexOf(h.blocks, a - HEADER)], AlignUp(newSize);
      if n > memSize then (h', q) == (h, Null)
      else if b.Payload() == n then (h', q) == (h, At(a))
      else if n + HEADER + MIN_PAYLOAD < b.Payload() then
        && q == At(a) && h'.maxMem == h.maxMem
        && UsedBlocks(h'.blocks) == UsedBlocks(h.blocks) - {b} + {Shortened(b, n)}
      else if n == 0 || forall c :: c in h.blocks && h.lfree <= c.off ==> !Fits(c, Request(n), memSize) then
        (h', q) == (h, Null)
      else exists c :: c in h.blocks && MovedTo(h, memSize, b, n, c, h', q)
  {
    var i, n := IndexOf(h.blocks, a - HEADER), AlignUp(newSize);
    AlignUpAligned(newSize);
    ReallocLive(h, memSize, At(a), newSize);
    if n <= memSize { NothingFits(h, memSize, n); }
    hide Inv, Realloc, Move, ShrinkAt, Malloc, UsedBlocks, FirstFit, Request, AlignUp, Fits, MovedTo;
    if n <= memSize && h.blocks[i].Payload() != n {
      if Shrinks(h.blocks[i], n) {
        ShrinkUsed(h, memSize, i, n);
      } else if Malloc(h, memSize, n).1.Null? {
        MoveFails(h, memSize, a, n);
      } else {
        var c := MoveTakes(h, memSize, a, n);
        InBlocks(h, memSize, h.blocks[i], n, c, Move(h, memSize, At(a), n).0, Move(h, memSize, At(a), n).1);
      }
    }
  }

  lemma NothingFits(h: Heap, memSize: nat, n: nat)
    requires Inv(h, memSize) && ValidSize(memSize) && n <= memSize && Aligned(n)
    ensures Malloc(h, memSize, n).1.Null? <==>
      n == 0 || forall c :: c in h.blocks && h.lfree <= c.off ==> !Fits(c, Request(n), memSize)
  {
    MallocFailsIff(h, memSize, n);
    RequestCovers(n);
    hide Inv, Malloc, Request, Fits;
    assert forall k :: 0 <= k < |h.blocks| ==> h.blocks[k] in h.blocks;
  }

  lemma InBlocks(h: Heap, memSize: nat, b: Block, n: nat, c: Block, h': Heap, q: Ptr)
    requires MovedTo(h, memSize, b, n, c, h', q)
    ensures c in h.blocks
  {
    hide Request, UsedBlocks;
  }
}
