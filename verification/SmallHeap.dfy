/** The small-memory heap of Kernel/src/mem.c as it runs: headers rewritten in place in one array,
    with lfree, used_mem and max_mem beside it.  The array has a cell for each byte address; a field of
    a header is kept whole in the cell at its address.  Addresses are relative to heap_ptr; the heap
    semaphore is taken to be free, so each call runs on its own. */
module SmallHeap {
  import opened HeapLayout
  import opened Cells
  import opened HeapImage
  import opened HeapRuns
  import opened HeapReallocs

  /** RT_ALIGN and RT_ALIGN_DOWN of an address. */
  function HeapStart(beginAddr: nat): nat { (beginAddr + 3) / 4 * 4 }

  function HeapStop(endAddr: nat): nat { endAddr / 4 * 4 }

  class Allocator {
    const memSize: nat
    const ram: array<int>
    var lfree: nat
    var usedMem: int
    var maxMem: int
    ghost var blocks: seq<Block>

    ghost const heapEnd: nat := memSize + HEADER

    ghost function State(): Heap
      reads this
    {
      Heap(blocks, lfree, usedMem, maxMem)
    }

    ghost predicate Valid()
      reads this, ram
    {
      && ValidSize(memSize)
      && Image(ram[..], blocks, heapEnd)
      && Inv(State(), memSize)
    }

    /** rt_system_heap_init on the aligned part of a range of addresses, which must hold the two headers.
        Without room for one smallest payload besides, rt_malloc's search does not end (ScanEndsIff). */
    constructor (beginAddr: nat, endAddr: nat)
      requires endAddr < WORD_LIMIT && HeapStart(beginAddr) + 2 * HEADER <= HeapStop(endAddr)
      ensures memSize == HeapStop(endAddr) - HeapStart(beginAddr) - 2 * HEADER && Aligned(memSize) && fresh(ram)
      ensures State() == Initial(memSize) && Inv(State(), memSize) && Image(ram[..], blocks, heapEnd)
      ensures Valid() <==> MIN_PAYLOAD <= memSize
    {
      var memSize: nat := HeapStop(endAddr) - HeapStart(beginAddr) - 2 * HEADER;
      this.memSize := memSize;
      ram := new int[memSize + 2 * HEADER](_ => 0);
      lfree := 0;
      usedMem, maxMem := 0, 0;
      blocks := [Block(0, memSize + HEADER, false)];
      new;
      WriteHeader(0, false, memSize + HEADER, 0);
      WriteHeader(memSize + HEADER, true, memSize + HEADER, memSize + HEADER);
      InitialInv(memSize);
      assert BlockImage(ram[..], blocks, 0);
    }

    method WriteHeader(p: nat, used: bool, next: int, prev: int)
      requires p + HEADER <= ram.Length
      modifies ram
      ensures ram[p] == MAGIC && ram[p + USED] == (if used then 1 else 0) && ram[p + NEXT] == next
        && ram[p + PREV] == prev
      ensures forall a :: 0 <= a < ram.Length && !(p <= a < p + HEADER) ==> ram[a] == old(ram[a])
    {
      ram[p] := MAGIC;
      ram[p + USED] := if used then 1 else 0;
      ram[p + NEXT] := next;
      ram[p + PREV] := prev;
    }

    /** What a client may do with a live block: store into its payload. */
    method Store(addr: int, at: int, value: int)
      requires Valid() && IsLive(blocks, addr)
      requires addr <= at < blocks[IndexOf(blocks, addr - HEADER)].end
      requires 0 <= at < ram.Length
      modifies ram
      ensures Valid() && ram[at] == value
      ensures forall a :: 0 <= a < ram.Length && a != at ==> ram[a] == old(ram[a])
    {
      ghost var c := ram[..];
      ram[at] := value;
      PayloadWriteKeepsImage(c, ram[..], blocks, heapEnd, IndexOf(blocks, addr - HEADER));
    }

    // ----- rt_malloc -----

    /** The first-fit scan from lfree along the next fields. */
    method Search(n: nat) returns (ptr: nat, ghost i: nat)
      requires Valid() && n >= MIN_PAYLOAD
      ensures i == FindFit(blocks, IndexOf(blocks, lfree), n, memSize)
      ensures ptr < memSize - n <==> i < |blocks|
      ensures i < |blocks| ==> ptr == blocks[i].off
    {
      LfreeAt();
      ptr, i := lfree, IndexOf(blocks, lfree);
      while ptr < memSize - n
        invariant i <= |blocks| && ptr == (if i < |blocks| then blocks[i].off else heapEnd)
        invariant FindFit(blocks, i, n, memSize) == FindFit(blocks, IndexOf(blocks, lfree), n, memSize)
        decreases heapEnd - ptr
      {
        assert BlockImage(ram[..], blocks, i) && WellSized(blocks[i]);
        var next := ram[ptr + NEXT];
        if ram[ptr + USED] == 0 && next - (ptr + HEADER) >= n { return; }
        NextBlockOf(blocks, heapEnd, i);
        ptr, i := next, i + 1;
      }
      i := |blocks|;
    }

    method Malloc(size: nat) returns (p: Ptr)
      requires Valid() && size < WORD_LIMIT
      modifies this, ram
      ensures Valid()
      ensures (State(), p) == HeapLayout.Malloc(old(State()), memSize, size)
      ensures PayloadsKept(old(ram[..]), ram[..], old(blocks))
    {
      if size == 0 { return Null; }
      var n := AlignUp(size);
      if n > memSize { return Null; }
      if n < MIN_PAYLOAD { n := MIN_PAYLOAD; }
      var ptr, i := Search(n);
      if ptr < memSize - n {
        Take(ptr, n, i);
        return At(ptr + HEADER);
      }
      return Null;
    }

    lemma LfreeAt()
      requires Valid()
      ensures IndexOf(blocks, lfree) < |blocks| || lfree == heapEnd
    {
      if lfree != heapEnd {
        var k :| 0 <= k < |blocks| && blocks[k].off == lfree && !blocks[k].used;
        IndexOfBlock(blocks, heapEnd, k);
      }
    }

    /** The header writes of the split: mem2 behind the taken bytes, then mem, then the prev field
        of the header behind mem2. */
    method SplitHeaders(ptr: nat, n: nat)
      requires ptr + HEADER <= ram.Length && ptr + HEADER + n + HEADER <= ram[ptr + NEXT]
      requires ram[ptr + NEXT] + HEADER <= ram.Length == memSize + 2 * HEADER && ram[ptr] == MAGIC
      modifies ram
      ensures var c, d, next := old(ram[..]), ram[..], old(ram[ptr + NEXT]);
        && AgreeOutside(c, d, ptr, next)
        && HeaderAt(d, ptr, true, ptr + HEADER + n, old(ram[ptr + PREV]))
        && HeaderAt(d, ptr + HEADER + n, false, next, ptr)
        && (next != memSize + HEADER ==> d[next + PREV] == ptr + HEADER + n)
    {
      var next := ram[ptr + NEXT];
      var ptr2 := ptr + HEADER + n;
      WriteHeader(ptr2, false, next, ptr);
      ram[ptr + NEXT] := ptr2;
      ram[ptr + USED] := 1;
      if next != memSize + HEADER { ram[next + PREV] := ptr2; }
      ram[ptr] := MAGIC;
    }

    method TakeSplit(ptr: nat, n: nat, ghost i: nat)
      requires Valid() && CanTake(State(), memSize, i, n) && ptr == blocks[i].off
      requires blocks[i].Payload() >= n + HEADER + MIN_PAYLOAD
      modifies ram
      ensures Image(ram[..], Taken(blocks, i, n), heapEnd)
      ensures AgreeOutside(old(ram[..]), ram[..], ptr, blocks[i].end)
    {
      ghost var c := ram[..];
      HeaderOf(c, blocks, heapEnd, i);
      hide Image, Tiles, NoAdjacentFree, UsedBytes, FreeOrEnd, Taken, Splice;
      SplitHeaders(ptr, n);
      SplitImage(c, ram[..], blocks, i, n);
    }

    method TakeWhole(ptr: nat, n: nat, ghost i: nat)
      requires Valid() && CanTake(State(), memSize, i, n) && ptr == blocks[i].off
      requires blocks[i].Payload() < n + HEADER + MIN_PAYLOAD
      modifies ram
      ensures Image(ram[..], Taken(blocks, i, n), heapEnd)
      ensures AgreeOutside(old(ram[..]), ram[..], ptr, blocks[i].end)
    {
      ghost var c := ram[..];
      HeaderOf(c, blocks, heapEnd, i);
      ram[ptr] := MAGIC;
      ram[ptr + USED] := 1;
      assert ram[..] == c[blocks[i].off := MAGIC][blocks[i].off + USED := 1];
      WholeImage(c, ram[..], blocks, i, n);
    }

    method TakeHeaders(ptr: nat, n: nat, ghost i: nat) returns (taken: int)
      requires Valid() && CanTake(State(), memSize, i, n) && n >= MIN_PAYLOAD && ptr == blocks[i].off
      modifies ram
      ensures Image(ram[..], Taken(blocks, i, n), heapEnd)
      ensures taken == Taken(blocks, i, n)[i].end - ptr
      ensures AgreeOutside(old(ram[..]), ram[..], ptr, blocks[i].end)
    {
      HeaderOf(ram[..], blocks, heapEnd, i);
      SpliceAt(blocks, i, i + 1, TakenParts(blocks[i], n));
      hide Image, Tiles, NoAdjacentFree, FreeOrEnd, UsedBytes, Splice;
      var next := ram[ptr + NEXT];
      if next - (ptr + HEADER) >= n + HEADER + MIN_PAYLOAD {
        TakeSplit(ptr, n, i);
        taken := n + HEADER;
      } else {
        TakeWhole(ptr, n, i);
        taken := next - ptr;
      }
    }

    /** The body of the search loop once a block is found: split it or take it whole, count it,
        and move lfree on if it was the lowest free block. */
    method Take(ptr: nat, n: nat, ghost i: nat)
      requires Valid() && CanTake(State(), memSize, i, n) && n >= MIN_PAYLOAD && ptr == blocks[i].off
      modifies this, ram
      ensures Valid()
      ensures State() == TakeAt(old(State()), i, n, heapEnd)
      ensures PayloadsKept(old(ram[..]), ram[..], old(blocks))
    {
      hide UsedBytes;
      ghost var c, bs, h := ram[..], blocks, State();
      var taken := TakeHeaders(ptr, n, i);
      FreeRunKeepsPayloads(c, ram[..], bs, heapEnd, i, i + 1);
      usedMem := usedMem + taken;
      if maxMem < usedMem { maxMem := usedMem; }
      TakenStart(h, memSize, i, n);
      blocks := Taken(bs, i, n);
      if ptr == lfree { AdvanceLfree(i); }
      TakeKeepsInv(h, memSize, i, n);
    }

    lemma SplitImage(c: seq<int>, d: seq<int>, bs: seq<Block>, i: nat, n: nat)
      requires Tiles(bs, heapEnd) && Image(c, bs, heapEnd) && i < |bs| && Aligned(n)
      requires bs[i].Payload() >= n + HEADER + MIN_PAYLOAD && TwoParts(c, d, bs, heapEnd, i, n)
      ensures Image(d, Taken(bs, i, n), heapEnd)
    {
      TwoPartsImage(c, d, bs, heapEnd, i, n);
      assert TakenParts(bs[i], n) == CutParts(bs[i], n);
    }

    lemma WholeImage(c: seq<int>, d: seq<int>, bs: seq<Block>, i: nat, n: nat)
      requires Tiles(bs, heapEnd) && Image(c, bs, heapEnd) && i < |bs|
      requires bs[i].Payload() < n + HEADER + MIN_PAYLOAD && bs[i].off + HEADER <= |c|
      requires d == c[bs[i].off := MAGIC][bs[i].off + USED := 1]
      ensures Image(d, Taken(bs, i, n), heapEnd) && AgreeOutside(c, d, bs[i].off, bs[i].end)
    {
      var mid := TakenParts(bs[i], n);
      assert WellSized(bs[i]);
      assert BlockImage(c, bs, i);
      assert MidImage(d, mid, PrevOff(bs, i), 0);
      if i + 1 < |bs| {
        BehindSplice(bs, heapEnd, i + 1, i + 1);
        assert BlockImage(c, bs, i + 1);
        assert WellSized(bs[i + 1]);
      }
      SpliceImage(c, d, bs, heapEnd, i, i + 1, mid);
    }

    /** The loop that moves lfree past used blocks. */
    method AdvanceLfree(ghost i: nat)
      requires Image(ram[..], blocks, heapEnd) && Tiles(blocks, heapEnd)
      requires i < |blocks| && lfree == blocks[i].off
      modifies this`lfree
      ensures lfree == FirstFree(blocks, i, heapEnd)
    {
      ghost var k := i;
      assert BlockImage(ram[..], blocks, k) && WellSized(blocks[k]);
      while ram[lfree + USED] != 0 && lfree != memSize + HEADER
        invariant i <= k <= |blocks| && lfree == (if k < |blocks| then blocks[k].off else heapEnd)
        invariant lfree + HEADER <= ram.Length
        invariant FirstFree(blocks, k, heapEnd) == FirstFree(blocks, i, heapEnd)
        decreases |blocks| - k
      {
        assert BlockImage(ram[..], blocks, k) && WellSized(blocks[k]);
        NextBlockOf(blocks, heapEnd, k);
        if k + 1 < |blocks| { assert WellSized(blocks[k + 1]) && BlockImage(ram[..], blocks, k + 1); }
        lfree := ram[lfree + NEXT];
        k := k + 1;
      }
      if k < |blocks| { assert BlockImage(ram[..], blocks, k) && WellSized(blocks[k]); }
      AllOrdered(blocks, heapEnd);
    }

    // ----- rt_free -----

    method PlugHoles(mem: nat, ghost i: nat)
      requires ValidSize(memSize) && Image(ram[..], blocks, heapEnd) && Tiles(blocks, heapEnd)
      requires i < |blocks| && mem == blocks[i].off && !blocks[i].used && FreeOrEnd(blocks, lfree, heapEnd)
      modifies this`lfree, this`blocks, ram
      ensures Image(ram[..], blocks, heapEnd)
      ensures State() == Fuse(old(State()), i)
      ensures PayloadsKept(old(ram[..]), ram[..], old(blocks))
    {
      ghost var c, bs := ram[..], blocks;
      FuseInSteps(bs, heapEnd, i);
      MergedRightProps(bs, heapEnd, i);
      hide FuseBlocks, Tiles;
      FuseLfreeInSteps(State(), heapEnd, i);
      PlugForward(mem, i);
      ghost var c1, bs1 := ram[..], blocks;
      PlugBackward(mem, i);
      forall b | b in bs && b.used ensures SamePayload(c, ram[..], b) {
        if bs1 != bs { MergedKeepsUsed(bs, i); }
        assert b in bs1 && SamePayload(c, c1, b) && SamePayload(c1, ram[..], b);
      }
    }

    method PlugForward(mem: nat, ghost i: nat)
      requires Image(ram[..], blocks, heapEnd) && Tiles(blocks, heapEnd)
      requires i < |blocks| && mem == blocks[i].off && !blocks[i].used
      modifies this`lfree, this`blocks, ram
      ensures Image(ram[..], blocks, heapEnd) && blocks == MergedRight(old(blocks), i)
      ensures lfree == var bs := old(blocks);
        if i + 1 < |bs| && !bs[i + 1].used && old(lfree) == bs[i + 1].off then bs[i].off else old(lfree)
      ensures PayloadsKept(old(ram[..]), ram[..], old(blocks))
    {
      HeaderOf(ram[..], blocks, heapEnd, i);
      hide Image, Tiles, Merged;
      var nmem := ram[mem + NEXT];
      if mem != nmem && ram[nmem + USED] == 0 && nmem != memSize + HEADER {
        ghost var c := ram[..];
        if lfree == nmem { lfree := mem; }
        ram[mem + NEXT] := ram[nmem + NEXT];
        ram[ram[nmem + NEXT] + PREV] := mem;
        assert ram[..] == MergeStores(c, blocks, i);
        MergeImage(c, blocks, heapEnd, i);
        blocks := Merged(blocks, i);
      }
    }

    method PlugBackward(mem: nat, ghost i: nat)
      requires Image(ram[..], blocks, heapEnd) && Tiles(blocks, heapEnd)
      requires i < |blocks| && mem == blocks[i].off && !blocks[i].used
      modifies this`lfree, this`blocks, ram
      ensures Image(ram[..], blocks, heapEnd) && blocks == MergedLeft(old(blocks), i)
      ensures lfree == var bs := old(blocks);
        if i > 0 && !bs[i - 1].used && old(lfree) == bs[i].off then bs[i - 1].off else old(lfree)
      ensures PayloadsKept(old(ram[..]), ram[..], old(blocks))
    {
      HeaderOf(ram[..], blocks, heapEnd, i);
      hide Image, Tiles, Merged;
      var pmem := ram[mem + PREV];
      if pmem != mem && ram[pmem + USED] == 0 {
        ghost var c := ram[..];
        if lfree == mem { lfree := pmem; }
        ram[pmem + NEXT] := ram[mem + NEXT];
        ram[ram[mem + NEXT] + PREV] := pmem;
        assert ram[..] == MergeStores(c, blocks, i - 1);
        MergeImage(c, blocks, heapEnd, i - 1);
        blocks := Merged(blocks, i - 1);
      }
    }

    method Free(p: Ptr)
      requires Valid() && (p.At? ==> IsLive(blocks, p.addr))
      modifies this, ram
      ensures Valid()
      ensures State() == HeapLayout.Free(old(State()), p)
      ensures p.Null? ==> ram[..] == old(ram[..])
      ensures p.At? ==>
        PayloadsKeptBut(old(ram[..]), ram[..], old(blocks), old(blocks[IndexOf(blocks, p.addr - HEADER)]))
    {
      if p.At? { Release(p.addr - HEADER, IndexOf(blocks, p.addr - HEADER)); }
    }

    method MarkUnused(mem: nat, ghost i: nat)
      requires Image(ram[..], blocks, heapEnd) && Tiles(blocks, heapEnd) && i < |blocks| && mem == blocks[i].off
      modifies ram, this`blocks
      ensures blocks == old(blocks)[i := old(blocks)[i].(used := false)]
      ensures Image(ram[..], blocks, heapEnd) && Tiles(blocks, heapEnd)
      ensures PayloadsKept(old(ram[..]), ram[..], old(blocks))
      ensures mem + HEADER <= ram.Length && ram[mem + NEXT] == blocks[i].end
    {
      ghost var c, bs := ram[..], blocks;
      assert BlockImage(c, bs, i) && WellSized(bs[i]);
      ram[mem + USED] := 0;
      ram[mem] := MAGIC;
      assert ram[..] == c[bs[i].off + USED := 0];
      MarkFreeImage(c, ram[..], bs, heapEnd, i);
      MarkFreeKeepsPayloads(c, ram[..], bs, heapEnd, i);
      MarkFree(bs, heapEnd, i);
      blocks := bs[i := bs[i].(used := false)];
    }

    method Release(mem: nat, ghost i: nat)
      requires Valid() && i < |blocks| && blocks[i].used && mem == blocks[i].off
      modifies this, ram
      ensures Valid()
      ensures State() == FreeAt(old(State()), i)
      ensures PayloadsKeptBut(old(ram[..]), ram[..], old(blocks), old(blocks)[i])
    {
      ghost var c, bs, h := ram[..], blocks, State();
      MarkUnused(mem, i);
      ghost var d := ram[..];
      if mem < lfree { lfree := mem; }
      usedMem := usedMem - (ram[mem + NEXT] - mem);
      ReleaseLfree(bs, i, h.lfree);
      FreeAtInSteps(h, memSize, i);
      assert State() == Unmarked(h, i);
      PlugHoles(mem, i);
      FreeAtKeepsInv(h, memSize, i);
      KeptThroughMark(c, d, ram[..], bs, i);
    }

    lemma ReleaseLfree(bs: seq<Block>, i: nat, l: nat)
      requires FreeOrEnd(bs, l, heapEnd) && i < |bs|
      ensures FreeOrEnd(bs[i := bs[i].(used := false)], if bs[i].off < l then bs[i].off else l, heapEnd)
    {
      var fs := bs[i := bs[i].(used := false)];
      if bs[i].off <= l { assert fs[i].off == bs[i].off && !fs[i].used; }
      else if l != heapEnd && l != bs[i].off {
        var k :| 0 <= k < |bs| && bs[k].off == l && !bs[k].used;
        assert fs[k] == bs[k];
      }
    }

    // ----- rt_realloc -----

    lemma ReallocRoom(p: Ptr, newSize: nat)
      requires Valid() && newSize + 3 < WORD_LIMIT
      requires p.At? && InHeap(p.addr, memSize) && IsLive(blocks, p.addr)
      ensures newSize <= AlignUp(newSize) && 0 <= blocks[IndexOf(blocks, p.addr - HEADER)].Payload()
      ensures var (h, q) := HeapLayout.Realloc(State(), memSize, p, newSize);
        q.At? ==> Covers(h.blocks, q.addr, newSize)
    {
      RequestCovers(newSize);
      LiveSized(State(), memSize, p.addr);
      hide HeapLayout.Realloc, Covers, AlignUp;
      if HeapLayout.Realloc(State(), memSize, p, newSize).1.At? { ReallocHonoursSizeIff(State(), memSize, p, newSize); }
    }

    method Realloc(p: Ptr, newSize: nat) returns (q: Ptr)
      requires Valid() && newSize < WORD_LIMIT
      requires p.At? && InHeap(p.addr, memSize) ==> IsLive(blocks, p.addr)
      modifies this, ram
      ensures Valid()
      ensures (State(), q) == HeapLayout.Realloc(old(State()), memSize, p, newSize)
      // a failed call, or one that names no block, leaves every live payload alone
      ensures q.Null? || p.Null? || !InHeap(p.addr, memSize) ==> PayloadsKept(old(ram[..]), ram[..], old(blocks))
      // the other blocks always keep theirs
      ensures p.At? && InHeap(p.addr, memSize) ==>
        PayloadsKeptBut(old(ram[..]), ram[..], old(blocks), old(blocks)[IndexOf(old(blocks), p.addr - HEADER)])
      // and what is returned starts with what the old block held
      ensures p.At? && InHeap(p.addr, memSize) && q.At? ==>
        Copied(old(ram[..]), ram[..], p.addr, q.addr,
               Min(old(blocks)[IndexOf(old(blocks), p.addr - HEADER)].Payload(), AlignUp(newSize)))
      // as far as was asked, and with room for it, unless aligning the size wraps
      ensures p.At? && InHeap(p.addr, memSize) && q.At? && newSize + 3 < WORD_LIMIT ==>
        && Copied(old(ram[..]), ram[..], p.addr, q.addr,
                  Min(old(blocks)[IndexOf(old(blocks), p.addr - HEADER)].Payload(), newSize))
        && Covers(blocks, q.addr, newSize)
    {
      ghost var c, h := ram[..], State();
      if newSize + 3 < WORD_LIMIT && p.At? && InHeap(p.addr, memSize) { ReallocRoom(p, newSize); }
      hide Covers, PayloadsKept, PayloadsKeptBut, Image, Inv, ValidSize, IsLive, IndexOf, HeapLayout.Realloc, AlignUp;
      hide Copied;
      q := ReallocAligned(p, newSize);
      if newSize + 3 < WORD_LIMIT && p.At? && InHeap(p.addr, memSize) && q.At? {
        ghost var payload := h.blocks[IndexOf(h.blocks, p.addr - HEADER)].Payload();
        CopiedLess(c, ram[..], p.addr, q.addr, Min(payload, AlignUp(newSize)), Min(payload, newSize));
      }
    }

    /** The same, counted by the size once it is aligned. */
    method ReallocAligned(p: Ptr, newSize: nat) returns (q: Ptr)
      requires Valid() && newSize < WORD_LIMIT
      requires p.At? && InHeap(p.addr, memSize) ==> IsLive(blocks, p.addr)
      modifies this, ram
      ensures Valid()
      ensures (State(), q) == HeapLayout.Realloc(old(State()), memSize, p, newSize)
      ensures q.Null? || p.Null? || !InHeap(p.addr, memSize) ==> PayloadsKept(old(ram[..]), ram[..], old(blocks))
      ensures p.At? && InHeap(p.addr, memSize) ==>
        PayloadsKeptBut(old(ram[..]), ram[..], old(blocks), old(blocks)[IndexOf(old(blocks), p.addr - HEADER)])
      ensures p.At? && InHeap(p.addr, memSize) && q.At? ==>
        Copied(old(ram[..]), ram[..], p.addr, q.addr,
               Min(old(blocks)[IndexOf(old(blocks), p.addr - HEADER)].Payload(), AlignUp(newSize)))
    {
      var n := AlignUp(newSize);
      if n > memSize { return Null; }
      if p.Null? { q := Malloc(n); return; }
      if p.addr < 0 || p.addr >= memSize + HEADER { return p; }
      q := ReallocBlock(p.addr, n, IndexOf(blocks, p.addr - HEADER));
    }

    method ReallocBlock(rmem: nat, n: nat, ghost i: nat) returns (q: Ptr)
      requires Valid() && Aligned(n) && n <= memSize && i < |blocks| && blocks[i].used
      requires rmem == blocks[i].off + HEADER && i == IndexOf(blocks, rmem - HEADER)
      modifies this, ram
      ensures Valid()
      ensures (State(), q) ==
        var h := old(State());
        if h.blocks[i].Payload() == n then (h, At(rmem))
        else if Shrinks(h.blocks[i], n) then (ShrinkAt(h, i, n), At(rmem))
        else Move(h, memSize, At(rmem), n)
      ensures q.Null? ==> PayloadsKept(old(ram[..]), ram[..], old(blocks))
      ensures PayloadsKeptBut(old(ram[..]), ram[..], old(blocks), old(blocks)[i])
      ensures q.At? ==> Copied(old(ram[..]), ram[..], rmem, q.addr, Min(old(blocks)[i].Payload(), n))
    {
      assert BlockImage(ram[..], blocks, i) && WellSized(blocks[i]);
      AllOrdered(blocks, heapEnd);
      var ptr := rmem - HEADER;
      var size := ram[ptr + NEXT] - ptr - HEADER;
      if size == n { return At(rmem); }
      if n + HEADER + MIN_PAYLOAD < size {
        Shrink(ptr, n, i);
        return At(rmem);
      }
      q := MoveBlock(rmem, n, i);
    }

    method ShrinkHeaders(ptr: nat, n: nat)
      requires ptr + HEADER <= ram.Length && ptr + HEADER + n + HEADER <= ram[ptr + NEXT]
      requires ram[ptr + NEXT] + HEADER <= ram.Length == memSize + 2 * HEADER
      modifies ram
      ensures var c, d, next := old(ram[..]), ram[..], old(ram[ptr + NEXT]);
        && AgreeOutside(c, d, ptr, next)
        && HeaderAt(d, ptr + HEADER + n, false, next, ptr)
        && d[ptr] == c[ptr] && d[ptr + USED] == c[ptr + USED] && d[ptr + PREV] == c[ptr + PREV]
        && d[ptr + NEXT] == ptr + HEADER + n
        && (next != memSize + HEADER ==> d[next + PREV] == ptr + HEADER + n)
        && Copied(c, d, ptr + HEADER, ptr + HEADER, n)
    {
      var next := ram[ptr + NEXT];
      var ptr2 := ptr + HEADER + n;
      WriteHeader(ptr2, false, next, ptr);
      ram[ptr + NEXT] := ptr2;
      if next != memSize + HEADER { ram[next + PREV] := ptr2; }
    }

    method CutBlock(ptr: nat, n: nat, ghost i: nat)
      requires Valid() && CanShrink(State(), memSize, i, n) && ptr == blocks[i].off
      modifies this, ram
      ensures State() == CutAt(old(State()), i, n)
      ensures Image(ram[..], blocks, heapEnd)
      ensures PayloadsKeptBut(old(ram[..]), ram[..], old(blocks), old(blocks)[i])
      ensures Copied(old(ram[..]), ram[..], ptr + HEADER, ptr + HEADER, n)
    {
      ghost var c, bs, h := ram[..], blocks, State();
      HeaderOf(c, bs, heapEnd, i);
      hide Image, Tiles, UsedBytes;
      var size := ram[ptr + NEXT] - ptr - HEADER;
      usedMem := usedMem - (size - n);
      ShrinkHeaders(ptr, n);
      CutImage(c, ram[..], bs, heapEnd, i, n);
      blocks := CutAt(h, i, n).blocks;
    }

    method Shrink(ptr: nat, n: nat, ghost i: nat)
      requires Valid() && CanShrink(State(), memSize, i, n) && ptr == blocks[i].off
      modifies this, ram
      ensures Valid()
      ensures State() == ShrinkAt(old(State()), i, n)
      ensures PayloadsKeptBut(old(ram[..]), ram[..], old(blocks), old(blocks)[i])
      ensures Copied(old(ram[..]), ram[..], ptr + HEADER, ptr + HEADER, n)
    {
      ghost var c, bs, h := ram[..], blocks, State();
      CutBlock(ptr, n, i);
      ghost var d := ram[..];
      CutTiles(h, memSize, i, n);
      hide Image, Tiles, UsedBytes, Fuse, Copied, PayloadsKept, PayloadsKeptBut;
      PlugHoles(ptr + HEADER + n, i + 1);
      KeptThroughCut(c, d, ram[..], bs, i, n);
      ShrinkKeepsInv(h, memSize, i, n);
    }

    method AllocAndCopy(rmem: nat, n: nat, m: nat, ghost b0: Block) returns (q: Ptr, ghost k: nat)
      requires Valid() && Aligned(n) && n <= memSize && m <= n
      requires b0 in blocks && b0.used && rmem == b0.off + HEADER && rmem + m <= b0.end
      modifies this, ram
      ensures Valid()
      ensures (State(), q) == HeapLayout.Malloc(old(State()), memSize, n)
      ensures PayloadsKept(old(ram[..]), ram[..], old(blocks))
      ensures q.At? ==>
        && k < |blocks| && blocks[k].used && q.addr == blocks[k].off + HEADER && q.addr + n <= blocks[k].end
        && Beside(blocks, k, old(blocks))
        && Copied(old(ram[..]), ram[..], rmem, q.addr, m)
    {
      hide HeapLayout.Malloc, FindFit, Beside, PayloadsKept, Copied, Image, Tiles, Inv;
      ghost var c, bs, h := ram[..], blocks, State();
      k := 0;
      q := Malloc(n);
      if q.Null? { return; }
      k := NewBlock(h, memSize, n);
      RequestCovers(n);
      FillNew(q.addr, rmem, m, k, c, bs, b0);
    }

    /** Copy the first m cells of the old block b0 into the new block k, where the blocks bs still
        hold what they held in c. */
    method FillNew(dst: nat, src: nat, m: nat, ghost k: nat, ghost c: seq<int>, ghost bs: seq<Block>, ghost b0: Block)
      requires Valid() && k < |blocks| && blocks[k].used && dst == blocks[k].off + HEADER && dst + m <= blocks[k].end
      requires Beside(blocks, k, bs) && PayloadsKept(c, ram[..], bs)
      requires b0 in bs && b0.used && src == b0.off + HEADER && src + m <= b0.end
      modifies ram
      ensures Valid()
      ensures PayloadsKept(c, ram[..], bs)
      ensures Copied(c, ram[..], src, dst, m)
    {
      ghost var d := ram[..];
      assert SamePayload(c, d, b0);
      assert b0.end <= heapEnd by { AllOrdered(blocks, heapEnd); }
      CopyIntoBlock(dst, src, m, k);
      KeptThroughCopy(c, d, ram[..], bs, blocks, k);
      CopiedAfter(c, d, ram[..], b0, dst, m);
    }

    method MoveBlock(rmem: nat, n: nat, ghost i: nat) returns (q: Ptr)
      requires Valid() && Aligned(n) && n <= memSize && i < |blocks| && blocks[i].used
      requires rmem == blocks[i].off + HEADER && i == IndexOf(blocks, rmem - HEADER)
      modifies this, ram
      ensures Valid()
      ensures (State(), q) == Move(old(State()), memSize, At(rmem), n)
      ensures q.Null? ==> PayloadsKept(old(ram[..]), ram[..], old(blocks))
      ensures PayloadsKeptBut(old(ram[..]), ram[..], old(blocks), old(blocks)[i])
      ensures q.At? ==> Copied(old(ram[..]), ram[..], rmem, q.addr, Min(old(blocks)[i].Payload(), n))
    {
      hide HeapLayout.Malloc, FindFit, FreeAt, Copied, Image;
      ghost var c, bs, h, k := ram[..], blocks, State(), 0;
      var m: nat := OldSize(rmem, n, i);
      q, k := AllocAndCopy(rmem, n, m, bs[i]);
      FailedMallocKeepsAll(h, memSize, n);
      if q.Null? { return; }
      MallocKeepsOthers(h, memSize, n, rmem);
      ghost var e, bs1 := ram[..], blocks;
      assert bs1[IndexOf(bs1, rmem - HEADER)] == bs[i];
      Free(At(rmem));
      assert PayloadsKeptBut(e, ram[..], bs1, bs[i]);
      KeptThroughFree(c, e, ram[..], bs, bs1, k, bs[i], m);
    }

    /** How many cells to copy: the smaller of the old payload and the new size. */
    method OldSize(rmem: nat, n: nat, ghost i: nat) returns (m: nat)
      requires Valid() && i < |blocks| && rmem == blocks[i].off + HEADER
      ensures m == Min(blocks[i].Payload(), n) && m <= n && rmem + m <= blocks[i].end
    {
      assert BlockImage(ram[..], blocks, i) && WellSized(blocks[i]);
      var size := ram[rmem - HEADER + NEXT] - rmem;
      m := if size < n then size else n;
    }

    method CopyIntoBlock(dst: nat, src: nat, m: nat, ghost k: nat)
      requires Valid() && k < |blocks| && blocks[k].used && dst == blocks[k].off + HEADER && dst + m <= blocks[k].end
      requires src + m <= ram.Length && (dst + m <= src || src + m <= dst)
      modifies ram
      ensures Valid() && Copied(old(ram[..]), ram[..], src, dst, m)
      ensures PayloadsKeptBut(old(ram[..]), ram[..], blocks, blocks[k])
    {
      ghost var c := ram[..];
      AllOrdered(blocks, heapEnd);
      Memcpy(ram, dst, src, m);
      PayloadWriteKeepsImage(c, ram[..], blocks, heapEnd, k);
    }
  }
}
