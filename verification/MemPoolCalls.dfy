/** What alloc, free and realloc of a memheap pool do to the live blocks, their sizes and the counters, said of
    the pool before and after a call alone. */
module MemPoolCalls {
  import opened Lists
  import opened LinkedRings
  import opened MemPool
  import opened MemPoolRuns

  /** A live block is a used one that is not the tailer. */
  lemma LiveIff(p: Pool, a: int)
    requires Inv(p)
    ensures Live(p, a) <==> a - HEADER in p.used && a != p.size
  {
    var x, last := a - HEADER, |p.offs| - 1;
    InvDistinct(p);
    IndexIs(p.offs, last);
    if x in p.used {
      assert x in Elems(p.offs);
      var i := IndexOf(p.offs, x);
      if i < last { Increasing(p.offs, p.size, i, last); }
    }
  }

  /** Only a is gained, or only a is lost. */
  ghost predicate Gained(p: Pool, q: Pool, a: int) { forall b :: Live(q, b) <==> Live(p, b) || b == a }

  ghost predicate Lost(p: Pool, q: Pool, a: int) { forall b :: Live(q, b) <==> Live(p, b) && b != a }

  ghost predicate SameLive(p: Pool, q: Pool) { forall b :: Live(q, b) <==> Live(p, b) }

  lemma LiveSets(p: Pool, q: Pool, x: Node)
    requires Inv(p) && Inv(q) && q.size == p.size
    ensures q.used == p.used ==> SameLive(p, q)
    ensures q.used == p.used + {x} && x + HEADER != p.size ==> Gained(p, q, x + HEADER)
    ensures q.used == p.used - {x} ==> Lost(p, q, x + HEADER)
  {
    hide Inv, Live;
    forall b
      ensures Live(p, b) <==> b - HEADER in p.used && b != p.size
      ensures Live(q, b) <==> b - HEADER in q.used && b != q.size
    {
      LiveIff(p, b);
      LiveIff(q, b);
    }
  }

  // ----- rt_memheap_alloc -----

  lemma TakeFields(p: Pool, i: nat, size: nat)
    requires Inv(p) && i + 1 < |p.offs| && p.offs[i] in p.free && Aligned(size)
    ensures var q := TakeAt(p, i, size);
      && q.used == p.used + {p.offs[i]} && q.size == p.size
      && q.maxUsed == if p.size - q.avail > p.maxUsed then p.size - q.avail else p.maxUsed
  {
    hide Inv, Inserted, Without;
  }

  /** The length of the block handed out: the request, or all of the block if what is left would be no block. */
  lemma TakeLength(p: Pool, i: nat, size: nat)
    requires Inv(p) && i + 1 < |p.offs| && p.offs[i] in p.free && Aligned(size) && Payload(p.offs, i) >= size
    ensures SizeAt(TakeAt(p, i, size).offs, p.offs[i]) ==
      if Payload(p.offs, i) >= size + HEADER + MIN_ALLOC then size else Payload(p.offs, i)
  {
    InvDistinct(p);
    if Payload(p.offs, i) >= size + HEADER + MIN_ALLOC {
      var y := p.offs[i] + size + HEADER;
      SplitNew(p, i, size);
      SplitFields(p, i, size);
      hide Consistent, TakeAt, Without;
      PutSize(p, i, y);
    } else {
      IndexIs(p.offs, i);
    }
  }

  /** x is the first block on the free list with size bytes or more. */
  predicate FirstFit(p: Pool, x: Node, size: nat) {
    exists k :: 0 <= k < |p.free| && p.free[k] == x && SizeAt(p.offs, x) >= size
      && forall j :: 0 <= j < k ==> SizeAt(p.offs, p.free[j]) < size
  }

  /** A request that is granted gains the front of the first block on the free list that is large enough: as much
      of it as was asked, or all if less than a block would be left. */
  lemma AllocTakes(p: Pool, size: nat)
    requires Inv(p) && Aligned(size) && AllocSized(p, size).ptr != NOTHING
    ensures var g := AllocSized(p, size); var whole := SizeAt(p.offs, g.ptr - HEADER);
      && FirstFit(p, g.ptr - HEADER, size) && Gained(p, g.pool, g.ptr)
      && SizeAt(g.pool.offs, g.ptr - HEADER) == (if whole >= size + HEADER + MIN_ALLOC then size else whole)
      && g.pool.maxUsed == if p.size - g.pool.avail > p.maxUsed then p.size - g.pool.avail else p.maxUsed
  {
    var k := Fit(p.free, p.offs, size);
    var x := p.free[k];
    FreeInPool(p, x);
    var i := BlockAt(p, x);
    AllocSizedKeeps(p, size);
    TakeFields(p, i, size);
    TakeLength(p, i, size);
    NotTailer(p, i);
    hide Inv, TakeAt, SizeAt;
    LiveSets(p, TakeAt(p, i, size), x);
  }

  lemma NotTailer(p: Pool, i: nat)
    requires Inv(p) && i + 1 < |p.offs|
    ensures p.offs[i] + HEADER != p.size
  {
    Increasing(p.offs, p.size, i, |p.offs| - 1);
  }

  // ----- rt_memheap_free -----

  predicate BehindFree(p: Pool, i: nat) { i + 1 < |p.offs| && p.offs[i + 1] in p.free }

  predicate BeforeFree(p: Pool, i: nat) { 0 < i < |p.offs| && p.offs[i - 1] in p.free }

  lemma FreeFields(p: Pool, i: nat)
    requires Inv(p) && i + 1 < |p.offs| && p.offs[i] in p.used && (i + 2 < |p.offs| || p.offs[i + 1] !in p.free)
    ensures var q := FreeAt(p, i);
      && q.used == p.used - {p.offs[i]} && q.size == p.size && q.maxUsed == p.maxUsed
      && q.avail == p.avail + Payload(p.offs, i)
           + (if BehindFree(p, i) then HEADER else 0) + (if BeforeFree(p, i) then HEADER else 0)
  {
    if p.offs[i + 1] in p.free { DropFacts(p, i + 1); }
    hide Inv, Drop, Removed, Without;
  }

  lemma FreeIsAt(p: Pool, ptr: int, i: nat)
    requires Inv(p) && Live(p, ptr) && i == IndexOf(p.offs, ptr - HEADER)
    ensures i + 1 < |p.offs| && p.offs[i] in p.used && (i + 2 < |p.offs| || p.offs[i + 1] !in p.free)
    ensures Free(p, ptr) == FreeAt(p, i)
  {
    LayoutStep(p, i);
    NothingNotLive(p);
    hide FreeAt;
  }

  /** A block released is lost and no other is; its bytes are available again, with the header of every neighbour
      it joins, and the most ever used stays. */
  lemma FreeGivesBack(p: Pool, ptr: int)
    requires Inv(p) && Live(p, ptr)
    ensures var q, i := Free(p, ptr), IndexOf(p.offs, ptr - HEADER);
      && Lost(p, q, ptr) && q.maxUsed == p.maxUsed
      && q.avail == p.avail + SizeAt(p.offs, ptr - HEADER)
           + (if BehindFree(p, i) then HEADER else 0) + (if BeforeFree(p, i) then HEADER else 0)
  {
    var i := LiveIndex(p, ptr);
    SizeIs(p.offs, i);
    FreeIsAt(p, ptr, i);
    FreeKeepsInv(p, ptr);
    hide Inv, FreeAt, Free, SizeAt, Live, BehindFree, BeforeFree;
    FreeFields(p, i);
    LiveSets(p, Free(p, ptr), ptr - HEADER);
  }

  // ----- rt_memheap_realloc -----

  /** The length and the counters of a block that stays in place. */
  lemma ResizedFields(p: Pool, i: nat, size: nat)
    requires Inv(p) && i + 1 < |p.offs| && p.offs[i] in p.used && Aligned(size)
    requires size > Payload(p.offs, i) ==> CanGrow(p, i, size)
    ensures var q, was := Resized(p, i, size), Payload(p.offs, i);
      && q.used == p.used && q.size == p.size
      && SizeAt(q.offs, p.offs[i]) == (if was < size || size + HEADER + MIN_ALLOC < was then size else was)
      && (was < size ==> q.avail == p.avail - (size - was))
      && (size + HEADER + MIN_ALLOC < was ==>
            q.avail == p.avail + (was - size) - (if BehindFree(p, i) then 0 else HEADER))
      && (size <= was <= size + HEADER + MIN_ALLOC ==> q == p)
  {
    var was := Payload(p.offs, i);
    InvDistinct(p);
    SizeIs(p.offs, i);
    ResizedIs(p, i, size);
    hide Inv, MoveEnd, SizeAt, Put, Aligned, Resized, Peaked, CanGrow, Distinct;
    if was < size || (size + HEADER + MIN_ALLOC < was && BehindFree(p, i)) {
      MoveEndFields(p, i, size);
      PeakedKeepsFields(MoveEnd(p, i, size));
    } else if size + HEADER + MIN_ALLOC < was {
      SplitNew(p, i, size);
      PutSize(p, i, p.offs[i] + HEADER + size);
      PutFields(p, i, p.offs[i] + HEADER + size);
    }
  }

  /** Which of the steps a block that stays in place takes. */
  lemma ResizedIs(p: Pool, i: nat, size: nat)
    requires Inv(p) && i + 1 < |p.offs| && (size > Payload(p.offs, i) ==> CanGrow(p, i, size))
    ensures var q, was := Resized(p, i, size), Payload(p.offs, i);
      && (was < size || (size + HEADER + MIN_ALLOC < was && BehindFree(p, i)) ==>
            i + 2 < |p.offs| && p.offs[i + 1] in p.free && p.offs[i] + HEADER + size + HEADER <= p.offs[i + 2])
      && (was < size ==> q == Peaked(MoveEnd(p, i, size)))
      && (size + HEADER + MIN_ALLOC < was && BehindFree(p, i) ==> q == MoveEnd(p, i, size))
      && (size + HEADER + MIN_ALLOC < was && !BehindFree(p, i) ==> q == Put(p, i, p.offs[i] + HEADER + size))
      && (size <= was <= size + HEADER + MIN_ALLOC ==> q == p)
  {
    LayoutStep(p, i);
    if i + 2 < |p.offs| { LayoutStep(p, i + 1); }
    hide Inv, MoveEnd, Put, Peaked;
  }

  lemma PeakedKeepsFields(p: Pool)
    ensures var q := Peaked(p); q.offs == p.offs && q.used == p.used && q.size == p.size && q.avail == p.avail
  {
  }

  lemma MoveEndFields(p: Pool, i: nat, size: nat)
    requires Inv(p) && i + 2 < |p.offs| && p.offs[i] in p.used && p.offs[i + 1] in p.free && Aligned(size)
    requires p.offs[i] + HEADER + size + HEADER <= p.offs[i + 2]
    ensures var q := MoveEnd(p, i, size);
      && q.used == p.used && q.size == p.size && SizeAt(q.offs, p.offs[i]) == size
      && q.avail == p.avail + Payload(p.offs, i) - size
  {
    MoveEndKeeps(p, i, size);
    MoveEndSize(p, i, size);
  }

  lemma PutFields(p: Pool, i: nat, y: Node)
    requires i + 1 < |p.offs|
    ensures var q := Put(p, i, y);
      q.used == p.used && q.size == p.size && q.avail == p.avail + (p.offs[i + 1] - y - HEADER)
  {
  }

  /** What a block that changes its length in place makes available, or takes. */
  predicate Kept(p: Pool, q: Pool, i: nat, was: int, size: nat) {
    q.avail == p.avail + (was - size) - (if size < was && !BehindFree(p, i) then HEADER else 0)
  }

  lemma KeepFits(p: Pool, ptr: int, i: nat, size: nat)
    requires Inv(p) && Live(p, ptr) && Aligned(size) && i + 1 < |p.offs| && i == IndexOf(p.offs, ptr - HEADER)
    requires size > Payload(p.offs, i) ==> CanGrow(p, i, size)
    ensures var q, was := Resized(p, i, size), SizeAt(p.offs, ptr - HEADER);
      if size <= was <= size + HEADER + MIN_ALLOC then q == p
      else SameLive(p, q) && SizeAt(q.offs, ptr - HEADER) == size && Kept(p, q, i, was, size)
  {
    var j := LiveIndex(p, ptr);
    SizeIs(p.offs, i);
    ResizedFields(p, i, size);
    ResizedKeeps(p, i, size);
    hide Inv, Resized, SizeAt, Live, CanGrow, Aligned;
    LiveSets(p, Resized(p, i, size), 0);
  }

  lemma AllocSizedFailsIff(p: Pool, size: nat)
    requires Inv(p) && Aligned(size)
    ensures AllocSized(p, size).ptr == NOTHING <==> !FreeBlockFits(p, size) || size == p.avail
    ensures AllocSized(p, size).ptr == NOTHING ==> AllocSized(p, size) == Given(p, NOTHING)
  {
    var k := Fit(p.free, p.offs, size);
    if k < |p.free| {
      var x := p.free[k];
      FreeInPool(p, x);
      InPool(p, BlockAt(p, x));
      WeightAtMostSum(p, BlockAt(p, x));
      hide TakeAt;
    }
  }

  lemma MovedIs(p: Pool, ptr: int, size: nat)
    requires Inv(p) && Live(p, ptr) && Aligned(size)
    ensures var g := AllocSized(p, size);
      if g.ptr == NOTHING then Moved(p, ptr, size) == g
      else Inv(g.pool) && Live(g.pool, ptr) && Moved(p, ptr, size) == Given(Free(g.pool, ptr), g.ptr)
  {
    AllocSizedKeeps(p, size);
    AllocSizedKeepsOthers(p, size, ptr);
    hide Inv, AllocSized, Live, Free;
  }

  /** A block that moves, or does not. */
  lemma MoveFits(p: Pool, ptr: int, size: nat)
    requires Inv(p) && Live(p, ptr) && Aligned(size)
    ensures var g := Moved(p, ptr, size);
      if !FreeBlockFits(p, size) || size == p.avail then g == Given(p, NOTHING)
      else
        && FirstFit(p, g.ptr - HEADER, size) && g.ptr != ptr
        && (forall b :: Live(g.pool, b) <==> (Live(p, b) && b != ptr) || b == g.ptr)
        && size <= SizeAt(g.pool.offs, g.ptr - HEADER) < size + HEADER + MIN_ALLOC
  {
    hide Inv, AllocSized, FirstFit, Live, SizeAt, Free, FreeBlockFits, Aligned, Moved;
    AllocSizedFailsIff(p, size);
    MovedIs(p, ptr, size);
    var g := AllocSized(p, size);
    if g.ptr != NOTHING {
      AllocTakes(p, size);
      AllocSizedKeeps(p, size);
      AllocSizedGives(p, size);
      AllocSizedKeepsOthers(p, size, ptr);
      FreeGivesBack(g.pool, ptr);
      FreeKeepsOthers(g.pool, ptr, g.ptr);
    }
  }

  lemma GrowsIff(p: Pool, i: nat, size: nat)
    requires Inv(p) && i + 1 < |p.offs|
    ensures CanGrow(p, i, size) <==>
      BehindFree(p, i) && size + MIN_ALLOC < Payload(p.offs, i) + SizeAt(p.offs, p.offs[i + 1])
  {
    InvDistinct(p);
    LayoutStep(p, i);
    if i + 2 < |p.offs| { SizeIs(p.offs, i + 1); }
  }

  /** rt_memheap_realloc of a live block, whatever the sizes.  Asked for nothing it releases the block.  A block
      that is more than a block too long is cut, in place, to exactly the aligned size, and what is cut off is
      available again, less a header where none was behind it.  One at most that much too long stays as it is.
      One too short grows in place if the free block behind it leaves a block over, and otherwise moves to where
      an alloc would be served, or stays if that fails. */
  lemma ReallocFits(p: Pool, ptr: int, n: nat)
    requires Inv(p) && Live(p, ptr) && n < 0x1_0000_0000 && !Overreaches(p, ptr, n)
    ensures var g, i := Realloc(p, ptr, n), IndexOf(p.offs, ptr - HEADER);
      var was, want := SizeAt(p.offs, ptr - HEADER), Request(n);
      var room := if BehindFree(p, i) then was + SizeAt(p.offs, p.offs[i + 1]) else 0;
      if n == 0 then g.ptr == NOTHING && Lost(p, g.pool, ptr)
      else if want + HEADER + MIN_ALLOC < was then
        && g.ptr == ptr && SameLive(p, g.pool) && SizeAt(g.pool.offs, ptr - HEADER) == want
        && Kept(p, g.pool, i, was, want)
      else if want <= was then g == Given(p, ptr)
      else if want + MIN_ALLOC < room then
        && g.ptr == ptr && SameLive(p, g.pool) && SizeAt(g.pool.offs, ptr - HEADER) == want
        && Kept(p, g.pool, i, was, want)
      else if !FreeBlockFits(p, want) || want == p.avail then g == Given(p, NOTHING)
      else
        && FirstFit(p, g.ptr - HEADER, want) && g.ptr != ptr
        && (forall b :: Live(g.pool, b) <==> (Live(p, b) && b != ptr) || b == g.ptr)
        && want <= SizeAt(g.pool.offs, g.ptr - HEADER) < want + HEADER + MIN_ALLOC
  {
    RequestAligned(n);
    var i := LiveIndex(p, ptr);
    var want := Request(n);
    SizeIs(p.offs, i);
    if n == 0 {
      FreeGivesBack(p, ptr);
    } else {
      hide Request;
      ReallocBranches(p, ptr, n);
      GrowsIff(p, i, want);
      hide Inv, Realloc, Resized, Moved, Live, SizeAt, CanGrow, FirstFit, FreeBlockFits, BehindFree;
      if want <= Payload(p.offs, i) || CanGrow(p, i, want) {
        KeepFits(p, ptr, i, want);
      } else {
        MoveFits(p, ptr, want);
      }
    }
  }

  lemma ReallocBranches(p: Pool, ptr: int, n: nat)
    requires Inv(p) && Live(p, ptr) && 0 < n < 0x1_0000_0000 && !Overreaches(p, ptr, n)
    ensures var i, want := IndexOf(p.offs, ptr - HEADER), Request(n);
      && i + 1 < |p.offs| && Aligned(want)
      && if want <= Payload(p.offs, i) || CanGrow(p, i, want) then Realloc(p, ptr, n) == Given(Resized(p, i, want), ptr)
         else Realloc(p, ptr, n) == Moved(p, ptr, want)
  {
    RequestAligned(n);
    NothingNotLive(p);
    hide Inv, Resized, Moved, CanGrow, Request;
  }
}
