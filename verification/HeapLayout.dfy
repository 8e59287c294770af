/** The small-memory heap of Kernel/src/mem.c, seen as the sequence of blocks its headers describe.

    Offsets are byte offsets from the start of the heap.  A block runs from the first byte of its
    header (`off`) to the first byte of the following header (`end`); the terminating header at
    `heapEnd` is not a block.  The operations below are the block-level meaning of rt_malloc,
    rt_realloc and rt_free; module SmallHeap proves that the in-place code computes them. */
module HeapLayout {

  const HEADER := 12            // SIZEOF_STRUCT_MEM
  const MIN_PAYLOAD := 12       // MIN_SIZE_ALIGNED
  const WORD_LIMIT := 0x1_0000_0000

  predicate Aligned(a: int) { a % 4 == 0 }   // RT_ALIGN_SIZE is 4

  datatype Ptr = Null | At(addr: int)

  datatype Block = Block(off: nat, end: nat, used: bool) {
    function Payload(): int { end - off - HEADER }
  }

  datatype Heap = Heap(blocks: seq<Block>, lfree: nat, usedMem: int, maxMem: int)

  // ----- the shape of a heap -----

  predicate WellSized(b: Block) {
    Aligned(b.off) && b.off + HEADER <= b.end
  }

  /** Block i ends where block i + 1 starts. */
  predicate Meets(bs: seq<Block>, i: nat)
    requires i + 1 < |bs|
  {
    bs[i].end == bs[i + 1].off
  }

  predicate NotBothFree(bs: seq<Block>, i: nat)
    requires i + 1 < |bs|
  {
    bs[i].used || bs[i + 1].used
  }

  /** The blocks cover exactly the bytes from 0 to heapEnd, in address order. */
  predicate Tiles(bs: seq<Block>, heapEnd: nat) {
    && |bs| > 0
    && bs[0].off == 0
    && bs[|bs| - 1].end == heapEnd
    && (forall i :: 0 <= i < |bs| ==> WellSized(bs[i]))
    && (forall i: nat :: i + 1 < |bs| ==> Meets(bs, i))
  }

  predicate NoAdjacentFree(bs: seq<Block>) {
    forall i: nat :: i + 1 < |bs| ==> NotBothFree(bs, i)
  }

  /** Blocks i..j of bs replaced by mid. */
  function Splice(bs: seq<Block>, i: nat, j: nat, mid: seq<Block>): seq<Block>
    requires i <= j <= |bs|
  {
    bs[..i] + mid + bs[j..]
  }

  /** Bytes held by used blocks, headers included. */
  function UsedBytes(bs: seq<Block>): nat
    requires forall i :: 0 <= i < |bs| ==> bs[i].off <= bs[i].end
  {
    if bs == [] then 0
    else UsedBytes(bs[..|bs| - 1]) + (var b := bs[|bs| - 1]; if b.used then b.end - b.off else 0)
  }

  predicate FreeOrEnd(bs: seq<Block>, p: nat, heapEnd: nat) {
    p == heapEnd || exists i :: 0 <= i < |bs| && bs[i].off == p && !bs[i].used
  }

  predicate NoFreeBelow(bs: seq<Block>, p: nat) {
    forall i :: 0 <= i < |bs| && bs[i].off < p ==> bs[i].used
  }

  /** What every operation keeps. */
  predicate Inv(h: Heap, memSize: nat) {
    && Tiles(h.blocks, memSize + HEADER)
    && NoAdjacentFree(h.blocks)
    && FreeOrEnd(h.blocks, h.lfree, memSize + HEADER)
    && h.usedMem == UsedBytes(h.blocks)
    && h.usedMem <= h.maxMem
  }

  /** What rt_malloc and rt_free keep but a shrinking rt_realloc may lose. */
  predicate LfreeIsLowest(h: Heap) {
    NoFreeBelow(h.blocks, h.lfree)
  }

  predicate ValidSize(memSize: nat) {
    Aligned(memSize) && MIN_PAYLOAD <= memSize && memSize + 2 * HEADER <= WORD_LIMIT
  }

  // ----- looking blocks up -----

  /** The index of the block whose header is at p, or |bs| if there is none. */
  function IndexFrom(bs: seq<Block>, p: int, i: nat): (k: nat)
    requires i <= |bs|
    ensures i <= k <= |bs|
    ensures k < |bs| ==> bs[k].off == p
    ensures forall j :: i <= j < k ==> bs[j].off != p
    decreases |bs| - i
  {
    if i == |bs| || bs[i].off == p then i else IndexFrom(bs, p, i + 1)
  }

  function IndexOf(bs: seq<Block>, p: int): (k: nat)
    ensures k <= |bs|
    ensures k < |bs| ==> bs[k].off == p
    ensures forall j :: 0 <= j < k ==> bs[j].off != p
  {
    IndexFrom(bs, p, 0)
  }

  predicate Fits(b: Block, size: nat, memSize: nat) {
    !b.used && b.off < memSize - size && b.Payload() >= size
  }

  /** First block from index i on that can take `size` bytes; |bs| once the scan passes
      memSize - size, which is where the source gives up. */
  function FindFit(bs: seq<Block>, i: nat, size: nat, memSize: nat): (k: nat)
    requires i <= |bs|
    ensures i <= k <= |bs|
    ensures k < |bs| ==> Fits(bs[k], size, memSize)
    decreases |bs| - i
  {
    if i == |bs| || bs[i].off >= memSize - size then |bs|
    else if !bs[i].used && bs[i].Payload() >= size then i
    else FindFit(bs, i + 1, size, memSize)
  }

  /** Offset of the first free block from index i on, or heapEnd. */
  function FirstFree(bs: seq<Block>, i: nat, heapEnd: nat): nat
    requires i <= |bs|
    decreases |bs| - i
  {
    if i == |bs| then heapEnd
    else if !bs[i].used then bs[i].off
    else FirstFree(bs, i + 1, heapEnd)
  }

  predicate IsLive(bs: seq<Block>, addr: int) {
    var i := IndexOf(bs, addr - HEADER);
    i < |bs| && bs[i].used
  }

  // ----- rt_malloc -----

  /** RT_ALIGN(size, 4) on a 32-bit unsigned size: the addition wraps. */
  function AlignUp(size: nat): nat {
    var s := (size + 3) % WORD_LIMIT;
    s - s % 4
  }

  function Request(size: nat): nat {
    var a := AlignUp(size);
    if a < MIN_PAYLOAD then MIN_PAYLOAD else a
  }

  lemma RequestCovers(n: nat)
    requires n + 3 < WORD_LIMIT
    ensures n <= AlignUp(n) <= Request(n) && (Aligned(n) ==> AlignUp(n) == n)
  {
  }

  /** What block b becomes when `size` bytes of it are taken: a used block and, if a header and
      the smallest payload still fit behind it, a free remainder. */
  function TakenParts(b: Block, size: nat): (mid: seq<Block>)
    ensures 1 <= |mid| <= 2
  {
    var m := b.off + HEADER + size;
    if b.Payload() >= size + HEADER + MIN_PAYLOAD
    then [Block(b.off, m, true), Block(m, b.end, false)] else [Block(b.off, b.end, true)]
  }

  function Taken(bs: seq<Block>, i: nat, size: nat): seq<Block>
    requires i < |bs|
  {
    Splice(bs, i, i + 1, TakenParts(bs[i], size))
  }

  function Max(a: int, b: int): int { if a < b then b else a }

  function TakeAt(h: Heap, i: nat, size: nat, heapEnd: nat): Heap
    requires i < |h.blocks|
  {
    var bs := Taken(h.blocks, i, size);
    var used := h.usedMem + bs[i].end - bs[i].off;
    var lfree := if h.lfree == h.blocks[i].off then FirstFree(bs, i, heapEnd) else h.lfree;
    Heap(bs, lfree, used, Max(h.maxMem, used))
  }

  function Malloc(h: Heap, memSize: nat, size: nat): (Heap, Ptr) {
    if size == 0 || AlignUp(size) > memSize then (h, Null)
    else
      var n := Request(size);
      var i := FindFit(h.blocks, IndexOf(h.blocks, h.lfree), n, memSize);
      if i == |h.blocks| then (h, Null)
      else (TakeAt(h, i, n, memSize + HEADER), At(h.blocks[i].off + HEADER))
  }

  // ----- rt_free -----

  /** First and one-past-last index of the run of free blocks that block i joins. */
  function RunStart(bs: seq<Block>, i: nat): nat
    requires i < |bs|
  {
    if i > 0 && !bs[i - 1].used then i - 1 else i
  }

  function RunEnd(bs: seq<Block>, i: nat): nat
    requires i < |bs|
  {
    if i + 1 < |bs| && !bs[i + 1].used then i + 2 else i + 1
  }

  /** The free run around block i, as one block. */
  function Whole(bs: seq<Block>, i: nat): Block
    requires i < |bs|
  {
    Block(bs[RunStart(bs, i)].off, bs[RunEnd(bs, i) - 1].end, false)
  }

  function FuseBlocks(bs: seq<Block>, i: nat): seq<Block>
    requires i < |bs|
  {
    Splice(bs, RunStart(bs, i), RunEnd(bs, i), [Whole(bs, i)])
  }

  /** Block i becomes free and is fused with its free neighbours; lfree follows the fusion. */
  function Fuse(h: Heap, i: nat): Heap
    requires i < |h.blocks|
  {
    var w := Whole(h.blocks, i);
    h.(blocks := FuseBlocks(h.blocks, i), lfree := if w.off <= h.lfree < w.end then w.off else h.lfree)
  }

  function FreeAt(h: Heap, i: nat): Heap
    requires i < |h.blocks|
  {
    var b := h.blocks[i];
    Fuse(h.(lfree := if b.off < h.lfree then b.off else h.lfree,
            usedMem := h.usedMem - (b.end - b.off)), i)
  }

  function Free(h: Heap, p: Ptr): Heap
    requires p.At? ==> IsLive(h.blocks, p.addr)
  {
    match p
    case Null => h
    case At(a) => FreeAt(h, IndexOf(h.blocks, a - HEADER))
  }

  // ----- rt_realloc -----

  /** Block b cut down to `size` payload bytes, and the free block made of the rest. */
  function CutParts(b: Block, size: nat): seq<Block> {
    var mid := b.off + HEADER + size;
    [Block(b.off, mid, true), Block(mid, b.end, false)]
  }

  function CutAt(h: Heap, i: nat, size: nat): Heap
    requires i < |h.blocks|
  {
    h.(blocks := Splice(h.blocks, i, i + 1, CutParts(h.blocks[i], size)),
       usedMem := h.usedMem - (h.blocks[i].Payload() - size))
  }

  function ShrinkAt(h: Heap, i: nat, size: nat): Heap
    requires i < |h.blocks|
  {
    Fuse(CutAt(h, i, size), i + 1)
  }

  /** The branch rt_realloc takes when it splits the block in place. */
  predicate Shrinks(b: Block, size: nat) {
    size + HEADER + MIN_PAYLOAD < b.Payload()
  }

  predicate InHeap(addr: int, memSize: nat) {
    0 <= addr < memSize + HEADER
  }

  /** The branch that takes a new block, copies, and frees the old one. */
  function Move(h: Heap, memSize: nat, p: Ptr, n: nat): (Heap, Ptr)
    requires Inv(h, memSize) && ValidSize(memSize)
    requires p.At? && IsLive(h.blocks, p.addr)
  {
    var (h1, q) := Malloc(h, memSize, n);
    MallocKeepsLive(h, memSize, n, p.addr);
    if q.Null? then (h, Null) else (Free(h1, p), q)
  }

  function Realloc(h: Heap, memSize: nat, p: Ptr, newSize: nat): (Heap, Ptr)
    requires Inv(h, memSize) && ValidSize(memSize)
    requires p.At? && InHeap(p.addr, memSize) ==> IsLive(h.blocks, p.addr)
  {
    var n := AlignUp(newSize);
    if n > memSize then (h, Null)
    else if p.Null? then Malloc(h, memSize, n)
    else if !InHeap(p.addr, memSize) then (h, p)
    else
      var i := IndexOf(h.blocks, p.addr - HEADER);
      if h.blocks[i].Payload() == n then (h, p)
      else if Shrinks(h.blocks[i], n) then (ShrinkAt(h, i, n), p)
      else Move(h, memSize, p, n)
  }

  // ----- blocks in order -----

  lemma {:induction false} Ordered(bs: seq<Block>, heapEnd: nat, i: nat, j: nat)
    requires Tiles(bs, heapEnd) && i < j < |bs|
    ensures bs[i].end <= bs[j].off
  {
    assert Meets(bs, j - 1);
    if i + 1 < j { Ordered(bs, heapEnd, i, j - 1); assert WellSized(bs[j - 1]); }
  }

  lemma AllOrdered(bs: seq<Block>, heapEnd: nat)
    requires Tiles(bs, heapEnd)
    ensures forall i, j :: 0 <= i < j < |bs| ==> bs[i].end <= bs[j].off
    ensures forall i :: 0 <= i < |bs| ==> bs[i].end <= heapEnd
  {
    forall i, j | 0 <= i < j < |bs| ensures bs[i].end <= bs[j].off { Ordered(bs, heapEnd, i, j); }
    forall i | 0 <= i < |bs| ensures bs[i].end <= heapEnd {
      assert WellSized(bs[|bs| - 1]);
    }
  }

  lemma NextBlockOf(bs: seq<Block>, heapEnd: nat, i: nat)
    requires Tiles(bs, heapEnd) && i < |bs|
    ensures bs[i].end == (if i + 1 < |bs| then bs[i + 1].off else heapEnd)
  {
    if i + 1 < |bs| { assert Meets(bs, i); }
  }

  lemma IndexOfBlock(bs: seq<Block>, heapEnd: nat, i: nat)
    requires Tiles(bs, heapEnd) && i < |bs|
    ensures IndexOf(bs, bs[i].off) == i
  {
    var k := IndexOf(bs, bs[i].off);
    assert WellSized(bs[k]);
    if k < i { Ordered(bs, heapEnd, k, i); }
  }

  lemma FirstFreeProps(bs: seq<Block>, heapEnd: nat, i: nat)
    requires Tiles(bs, heapEnd) && i <= |bs|
    ensures var p := FirstFree(bs, i, heapEnd);
      FreeOrEnd(bs, p, heapEnd) && forall j :: i <= j < |bs| && bs[j].off < p ==> bs[j].used
    decreases |bs| - i
  {
    AllOrdered(bs, heapEnd);
    if i < |bs| {
      assert WellSized(bs[i]);
      if bs[i].used { FirstFreeProps(bs, heapEnd, i + 1); }
    }
  }

  // ----- what a splice keeps -----

  /** mid covers the same bytes as blocks i..j. */
  predicate Replaces(bs: seq<Block>, i: nat, j: nat, mid: seq<Block>) {
    && i < j <= |bs| && |mid| > 0
    && mid[0].off == bs[i].off && mid[|mid| - 1].end == bs[j - 1].end
    && (forall k :: 0 <= k < |mid| ==> WellSized(mid[k]))
    && (forall k: nat :: k + 1 < |mid| ==> Meets(mid, k))
  }

  lemma SpliceAt(bs: seq<Block>, i: nat, j: nat, mid: seq<Block>)
    requires i <= j <= |bs|
    ensures var s := Splice(bs, i, j, mid);
      && |s| == |bs| - (j - i) + |mid|
      && (forall k :: 0 <= k < i ==> s[k] == bs[k])
      && (forall k :: i <= k < i + |mid| ==> s[k] == mid[k - i])
      && (forall k :: i + |mid| <= k < |s| ==> s[k] == bs[k - |mid| - i + j])
  {
  }

  lemma SpliceTiles(bs: seq<Block>, heapEnd: nat, i: nat, j: nat, mid: seq<Block>)
    requires Tiles(bs, heapEnd) && Replaces(bs, i, j, mid)
    ensures Tiles(Splice(bs, i, j, mid), heapEnd)
  {
    var s := Splice(bs, i, j, mid);
    SpliceAt(bs, i, j, mid);
    forall k: nat | k + 1 < |s| ensures Meets(s, k) {
      if k + 1 <= i { assert Meets(bs, k); }
      else if k + 1 < i + |mid| { assert Meets(mid, k - i); }
      else { assert Meets(bs, k - |mid| - i + j); }
    }
  }

  lemma SpliceNoAdjacentFree(bs: seq<Block>, i: nat, j: nat, mid: seq<Block>)
    requires NoAdjacentFree(bs) && i < j <= |bs| && |mid| > 0
    requires forall k: nat :: k + 1 < |mid| ==> NotBothFree(mid, k)
    requires i > 0 ==> bs[i - 1].used || mid[0].used
    requires j < |bs| ==> bs[j].used || mid[|mid| - 1].used
    ensures NoAdjacentFree(Splice(bs, i, j, mid))
  {
    var s := Splice(bs, i, j, mid);
    SpliceAt(bs, i, j, mid);
    forall k: nat | k + 1 < |s| ensures NotBothFree(s, k) {
      if k + 1 < i { assert NotBothFree(bs, k); }
      else if i <= k && k + 1 < i + |mid| { assert NotBothFree(mid, k - i); }
      else if i + |mid| <= k { assert NotBothFree(bs, k - |mid| - i + j); }
    }
  }

  /** A free block outside the splice is still there afterwards. */
  lemma SpliceKeepsFree(bs: seq<Block>, heapEnd: nat, i: nat, j: nat, mid: seq<Block>, p: nat)
    requires Tiles(bs, heapEnd) && Replaces(bs, i, j, mid)
    requires FreeOrEnd(bs, p, heapEnd) && !(bs[i].off <= p < bs[j - 1].end)
    ensures FreeOrEnd(Splice(bs, i, j, mid), p, heapEnd)
  {
    SpliceAt(bs, i, j, mid);
    if p != heapEnd {
      var k :| 0 <= k < |bs| && bs[k].off == p && !bs[k].used;
      assert WellSized(bs[k]);
      if i < k { Ordered(bs, heapEnd, i, k); assert WellSized(bs[i]); }
      if k < j - 1 { Ordered(bs, heapEnd, k, j - 1); assert WellSized(bs[j - 1]); }
      var s := Splice(bs, i, j, mid);
      var k' := if k < i then k else k - j + i + |mid|;
      assert s[k'] == bs[k];
    }
  }

  /** lfree points at block i or outside it. */
  lemma NotInside(bs: seq<Block>, heapEnd: nat, p: nat, i: nat)
    requires Tiles(bs, heapEnd) && FreeOrEnd(bs, p, heapEnd) && i < |bs|
    ensures p == bs[i].off ==> !bs[i].used
    ensures p != bs[i].off ==> !(bs[i].off <= p < bs[i].end)
  {
    AllOrdered(bs, heapEnd);
    assert WellSized(bs[i]);
    if p != heapEnd {
      var k :| 0 <= k < |bs| && bs[k].off == p && !bs[k].used;
      assert WellSized(bs[k]);
    }
  }

  // ----- the accounting of used bytes -----

  predicate Sized(bs: seq<Block>) {
    forall i :: 0 <= i < |bs| ==> bs[i].off <= bs[i].end
  }

  lemma TilesSized(bs: seq<Block>)
    requires forall i :: 0 <= i < |bs| ==> WellSized(bs[i])
    ensures Sized(bs)
  {
    forall i | 0 <= i < |bs| ensures bs[i].off <= bs[i].end { assert WellSized(bs[i]); }
  }

  lemma {:induction false} UsedBytesConcat(a: seq<Block>, b: seq<Block>)
    requires Sized(a) && Sized(b)
    ensures Sized(a + b) && UsedBytes(a + b) == UsedBytes(a) + UsedBytes(b)
  {
    if b == [] {
      assert a + b == a;
    } else {
      UsedBytesConcat(a, b[..|b| - 1]);
      assert (a + b)[..|a + b| - 1] == a + b[..|b| - 1];
    }
  }

  lemma UsedBytesSplice(bs: seq<Block>, i: nat, j: nat, mid: seq<Block>)
    requires Sized(bs) && Sized(mid) && i <= j <= |bs|
    ensures Sized(Splice(bs, i, j, mid))
    ensures UsedBytes(Splice(bs, i, j, mid)) == UsedBytes(bs) - UsedBytes(bs[i..j]) + UsedBytes(mid)
  {
    UsedBytesConcat(bs[..i], mid);
    UsedBytesConcat(bs[..i] + mid, bs[j..]);
    UsedBytesConcat(bs[..i], bs[i..j]);
    UsedBytesConcat(bs[..i] + bs[i..j], bs[j..]);
    assert bs[..i] + bs[i..j] + bs[j..] == bs;
  }

  function Held(b: Block): int { if b.used then b.end - b.off else 0 }

  lemma UsedBytesShort(bs: seq<Block>)
    requires Sized(bs) && 1 <= |bs| <= 3
    ensures UsedBytes(bs) == Held(bs[0]) + (if |bs| > 1 then Held(bs[1]) else 0) + (if |bs| > 2 then Held(bs[2]) else 0)
  {
    if |bs| > 1 { UsedBytesShort(bs[..|bs| - 1]); }
    else { assert bs[..0] == []; }
  }

  // ----- the operations keep the invariant -----

  lemma TakenPartsCover(b: Block, size: nat)
    requires WellSized(b) && b.Payload() >= size && Aligned(size)
    ensures var mid := TakenParts(b, size);
      && mid[0].off == b.off && mid[|mid| - 1].end == b.end
      && Sized(mid) && UsedBytes(mid) == mid[0].end - b.off
      && (forall k :: 0 <= k < |mid| ==> WellSized(mid[k]))
      && (forall k: nat :: k + 1 < |mid| ==> Meets(mid, k))
  {
    StaysAligned(b.off, size);
    TilesSized(TakenParts(b, size));
    UsedBytesShort(TakenParts(b, size));
  }

  lemma StaysAligned(off: nat, size: nat)
    requires Aligned(off) && Aligned(size)
    ensures Aligned(off + HEADER + size)
  {
  }

  lemma TakenTiles(bs: seq<Block>, heapEnd: nat, i: nat, size: nat)
    requires Tiles(bs, heapEnd)
    requires i < |bs| && bs[i].Payload() >= size && Aligned(size)
    ensures Replaces(bs, i, i + 1, TakenParts(bs[i], size)) && Tiles(Taken(bs, i, size), heapEnd)
  {
    assert WellSized(bs[i]);
    TakenPartsCover(bs[i], size);
    hide TakenParts, UsedBytes;
    SpliceTiles(bs, heapEnd, i, i + 1, TakenParts(bs[i], size));
  }

  lemma TakenNoAdjacentFree(bs: seq<Block>, i: nat, size: nat)
    requires NoAdjacentFree(bs) && i < |bs| && !bs[i].used
    ensures NoAdjacentFree(Taken(bs, i, size))
  {
    if i + 1 < |bs| { assert NotBothFree(bs, i); }
    SpliceNoAdjacentFree(bs, i, i + 1, TakenParts(bs[i], size));
  }

  lemma TakenUsedBytes(bs: seq<Block>, heapEnd: nat, i: nat, size: nat)
    requires Tiles(bs, heapEnd) && i < |bs| && !bs[i].used && bs[i].Payload() >= size && Aligned(size)
    ensures Sized(bs) && Sized(Taken(bs, i, size))
    ensures UsedBytes(Taken(bs, i, size)) == UsedBytes(bs) + TakenParts(bs[i], size)[0].end - bs[i].off
  {
    assert WellSized(bs[i]);
    TilesSized(bs);
    TakenPartsCover(bs[i], size);
    hide TakenParts, Tiles;
    UsedBytesShort(bs[i..i + 1]);
    UsedBytesSplice(bs, i, i + 1, TakenParts(bs[i], size));
  }

  lemma TakenProps(bs: seq<Block>, heapEnd: nat, i: nat, size: nat)
    requires Tiles(bs, heapEnd) && NoAdjacentFree(bs)
    requires i < |bs| && !bs[i].used && bs[i].Payload() >= size && Aligned(size)
    ensures var ts := Taken(bs, i, size);
      && Tiles(ts, heapEnd) && NoAdjacentFree(ts)
      && UsedBytes(ts) == UsedBytes(bs) + ts[i].end - ts[i].off
  {
    TakenTiles(bs, heapEnd, i, size);
    TakenNoAdjacentFree(bs, i, size);
    TakenUsedBytes(bs, heapEnd, i, size);
    SpliceAt(bs, i, i + 1, TakenParts(bs[i], size));
  }

  predicate CanTake(h: Heap, memSize: nat, i: nat, n: nat) {
    && Inv(h, memSize)
    && i < |h.blocks| && !h.blocks[i].used && h.blocks[i].Payload() >= n && Aligned(n)
  }

  lemma TakenLfree(h: Heap, memSize: nat, i: nat, n: nat)
    requires CanTake(h, memSize, i, n)
    ensures FreeOrEnd(Taken(h.blocks, i, n), TakeAt(h, i, n, memSize + HEADER).lfree, memSize + HEADER)
  {
    var bs, E := h.blocks, memSize + HEADER;
    TakenProps(bs, E, i, n);
    if h.lfree == bs[i].off {
      FirstFreeProps(Taken(bs, i, n), E, i);
    } else {
      assert WellSized(bs[i]);
      NotInside(bs, E, h.lfree, i);
      SpliceKeepsFree(bs, E, i, i + 1, TakenParts(bs[i], n), h.lfree);
    }
  }

  lemma TakenLowest(h: Heap, memSize: nat, i: nat, n: nat)
    requires CanTake(h, memSize, i, n) && LfreeIsLowest(h)
    ensures LfreeIsLowest(TakeAt(h, i, n, memSize + HEADER))
  {
    var bs, E := h.blocks, memSize + HEADER;
    var ts, mid := Taken(bs, i, n), TakenParts(bs[i], n);
    TakenProps(bs, E, i, n);
    SpliceAt(bs, i, i + 1, mid);
    AllOrdered(bs, E);
    AllOrdered(ts, E);
    FirstFreeProps(ts, E, i);
    assert WellSized(bs[i]);
    forall j | 0 <= j < |ts| && ts[j].off < TakeAt(h, i, n, E).lfree ensures ts[j].used {
      assert WellSized(ts[j]);
      if j < i { assert ts[j] == bs[j]; assert WellSized(bs[j]); }
    }
  }

  lemma TakeKeepsInv(h: Heap, memSize: nat, i: nat, n: nat)
    requires CanTake(h, memSize, i, n)
    ensures Inv(TakeAt(h, i, n, memSize + HEADER), memSize)
  {
    TakenProps(h.blocks, memSize + HEADER, i, n);
    TakenLfree(h, memSize, i, n);
  }

  lemma TakenStart(h: Heap, memSize: nat, i: nat, n: nat)
    requires CanTake(h, memSize, i, n)
    ensures var ts := Taken(h.blocks, i, n);
      Tiles(ts, memSize + HEADER) && i < |ts| && ts[i].off == h.blocks[i].off
  {
    TakenProps(h.blocks, memSize + HEADER, i, n);
    SpliceAt(h.blocks, i, i + 1, TakenParts(h.blocks[i], n));
  }

  lemma MallocKeepsInv(h: Heap, memSize: nat, size: nat)
    requires Inv(h, memSize) && ValidSize(memSize)
    ensures Inv(Malloc(h, memSize, size).0, memSize)
  {
    var n := Request(size);
    var i := FindFit(h.blocks, IndexOf(h.blocks, h.lfree), n, memSize);
    if size != 0 && AlignUp(size) <= memSize && i < |h.blocks| {
      TakeKeepsInv(h, memSize, i, n);
    }
  }

  lemma FailedMallocKeepsAll(h: Heap, memSize: nat, size: nat)
    ensures Malloc(h, memSize, size).1.Null? ==> Malloc(h, memSize, size).0 == h
  {
  }

  lemma TakenKeepsLive(h: Heap, memSize: nat, i: nat, n: nat, addr: int)
    requires CanTake(h, memSize, i, n) && IsLive(h.blocks, addr)
    ensures IsLive(Taken(h.blocks, i, n), addr)
  {
    var bs := h.blocks;
    var ts, mid := Taken(bs, i, n), TakenParts(bs[i], n);
    TakenProps(bs, memSize + HEADER, i, n);
    SpliceAt(bs, i, i + 1, mid);
    var k := IndexOf(bs, addr - HEADER);
    var k' := if k < i then k else k - 1 + |mid|;
    assert ts[k'] == bs[k];
    IndexOfBlock(ts, memSize + HEADER, k');
  }

  lemma MallocKeepsLive(h: Heap, memSize: nat, size: nat, addr: int)
    requires Inv(h, memSize) && ValidSize(memSize) && IsLive(h.blocks, addr)
    ensures IsLive(Malloc(h, memSize, size).0.blocks, addr)
  {
    var n := Request(size);
    var i := FindFit(h.blocks, IndexOf(h.blocks, h.lfree), n, memSize);
    if size != 0 && AlignUp(size) <= memSize && i < |h.blocks| {
      TakenKeepsLive(h, memSize, i, n, addr);
    }
  }

  /** Only block i of the run is used, if any is. */
  lemma RunUsedBytes(bs: seq<Block>, i: nat)
    requires i < |bs| && Sized(bs)
    ensures UsedBytes(bs[RunStart(bs, i)..RunEnd(bs, i)]) == Held(bs[i])
  {
    var lo, hi := RunStart(bs, i), RunEnd(bs, i);
    var run := bs[lo..hi];
    UsedBytesShort(run);
    assert run[i - lo] == bs[i];
    if lo < i { assert run[0] == bs[lo]; }
    if i + 1 < hi { assert run[i + 1 - lo] == bs[i + 1]; }
  }

  lemma FuseReplaces(bs: seq<Block>, heapEnd: nat, i: nat)
    requires Tiles(bs, heapEnd) && i < |bs|
    ensures Replaces(bs, RunStart(bs, i), RunEnd(bs, i), [Whole(bs, i)])
  {
    var lo, hi := RunStart(bs, i), RunEnd(bs, i);
    assert WellSized(bs[lo]) && WellSized(bs[hi - 1]);
    if lo < hi - 1 { Ordered(bs, heapEnd, lo, hi - 1); }
  }

  lemma FuseNoAdjacentFree(bs: seq<Block>, i: nat)
    requires i < |bs| && NoAdjacentFree(bs[i := bs[i].(used := true)])
    ensures NoAdjacentFree(FuseBlocks(bs, i))
  {
    var lo, hi := RunStart(bs, i), RunEnd(bs, i);
    var us := bs[i := bs[i].(used := true)];
    if lo > 0 { assert NotBothFree(us, lo - 1); }
    if hi < |bs| { assert NotBothFree(us, hi - 1); }
    SpliceNoAdjacentFree(us, lo, hi, [Whole(bs, i)]);
    assert Splice(us, lo, hi, [Whole(bs, i)]) == FuseBlocks(bs, i);
  }

  lemma FuseUsedBytes(bs: seq<Block>, heapEnd: nat, i: nat)
    requires Tiles(bs, heapEnd) && i < |bs|
    ensures Sized(bs) && Sized(FuseBlocks(bs, i))
    ensures UsedBytes(FuseBlocks(bs, i)) == UsedBytes(bs) - Held(bs[i])
  {
    FuseReplaces(bs, heapEnd, i);
    TilesSized(bs);
    TilesSized([Whole(bs, i)]);
    RunUsedBytes(bs, i);
    UsedBytesShort([Whole(bs, i)]);
    UsedBytesSplice(bs, RunStart(bs, i), RunEnd(bs, i), [Whole(bs, i)]);
  }

  lemma FuseLfree(h: Heap, heapEnd: nat, i: nat)
    requires Tiles(h.blocks, heapEnd) && i < |h.blocks|
    requires FreeOrEnd(h.blocks, h.lfree, heapEnd) || h.lfree == h.blocks[i].off
    ensures FreeOrEnd(FuseBlocks(h.blocks, i), Fuse(h, i).lfree, heapEnd)
  {
    var bs := h.blocks;
    var lo, hi := RunStart(bs, i), RunEnd(bs, i);
    var w := Whole(bs, i);
    SpliceAt(bs, lo, hi, [w]);
    if w.off <= h.lfree < w.end {
      assert FuseBlocks(bs, i)[lo] == w;
    } else {
      FuseReplaces(bs, heapEnd, i);
      assert h.lfree != bs[i].off by {
        AllOrdered(bs, heapEnd);
        assert WellSized(bs[i]) && WellSized(bs[lo]);
      }
      SpliceKeepsFree(bs, heapEnd, lo, hi, [w], h.lfree);
    }
  }

  lemma FuseKeepsInv(h: Heap, memSize: nat, i: nat)
    requires Tiles(h.blocks, memSize + HEADER) && i < |h.blocks|
    requires NoAdjacentFree(h.blocks[i := h.blocks[i].(used := true)])
    requires FreeOrEnd(h.blocks, h.lfree, memSize + HEADER) || h.lfree == h.blocks[i].off
    requires h.usedMem == UsedBytes(h.blocks) - Held(h.blocks[i]) && h.usedMem <= h.maxMem
    ensures Inv(Fuse(h, i), memSize)
  {
    FuseTiles(h.blocks, memSize + HEADER, i);
    FuseNoAdjacentFree(h.blocks, i);
    FuseUsedBytes(h.blocks, memSize + HEADER, i);
    FuseLfree(h, memSize + HEADER, i);
  }

  lemma FreeAtKeepsInv(h: Heap, memSize: nat, i: nat)
    requires Inv(h, memSize) && i < |h.blocks| && h.blocks[i].used
    ensures Inv(FreeAt(h, i), memSize)
  {
    var b := h.blocks[i];
    assert h.blocks[i := b.(used := true)] == h.blocks;
    assert WellSized(b);
    FuseKeepsInv(h.(lfree := if b.off < h.lfree then b.off else h.lfree,
                    usedMem := h.usedMem - (b.end - b.off)), memSize, i);
  }

  predicate CanShrink(h: Heap, memSize: nat, i: nat, n: nat) {
    && Inv(h, memSize)
    && i < |h.blocks| && h.blocks[i].used && Aligned(n) && Shrinks(h.blocks[i], n)
  }

  lemma CutTiles(h: Heap, memSize: nat, i: nat, n: nat)
    requires CanShrink(h, memSize, i, n)
    ensures var c := CutAt(h, i, n);
      && Tiles(c.blocks, memSize + HEADER) && |c.blocks| == |h.blocks| + 1
      && c.blocks[i] == CutParts(h.blocks[i], n)[0] && c.blocks[i + 1] == CutParts(h.blocks[i], n)[1]
      && FreeOrEnd(c.blocks, c.lfree, memSize + HEADER)
  {
    var mid := CutParts(h.blocks[i], n);
    assert WellSized(h.blocks[i]);
    SpliceTiles(h.blocks, memSize + HEADER, i, i + 1, mid);
    SpliceAt(h.blocks, i, i + 1, mid);
    NotInside(h.blocks, memSize + HEADER, h.lfree, i);
    SpliceKeepsFree(h.blocks, memSize + HEADER, i, i + 1, mid, h.lfree);
  }

  lemma CutNoAdjacentFree(h: Heap, memSize: nat, i: nat, n: nat)
    requires CanShrink(h, memSize, i, n)
    ensures var c := CutAt(h, i, n);
      i + 1 < |c.blocks| && NoAdjacentFree(c.blocks[i + 1 := c.blocks[i + 1].(used := true)])
  {
    var mid := CutParts(h.blocks[i], n);
    var mid' := [mid[0], mid[1].(used := true)];
    var c := CutAt(h, i, n);
    SpliceAt(h.blocks, i, i + 1, mid);
    SpliceNoAdjacentFree(h.blocks, i, i + 1, mid');
    assert c.blocks[i + 1 := c.blocks[i + 1].(used := true)] == Splice(h.blocks, i, i + 1, mid');
  }

  lemma CutUsedBytes(h: Heap, memSize: nat, i: nat, n: nat)
    requires CanShrink(h, memSize, i, n)
    ensures Sized(CutAt(h, i, n).blocks) && CutAt(h, i, n).usedMem == UsedBytes(CutAt(h, i, n).blocks)
  {
    var mid := CutParts(h.blocks[i], n);
    assert WellSized(h.blocks[i]);
    TilesSized(h.blocks);
    UsedBytesShort(h.blocks[i..i + 1]);
    UsedBytesShort(mid);
    UsedBytesSplice(h.blocks, i, i + 1, mid);
  }

  lemma ShrinkKeepsInv(h: Heap, memSize: nat, i: nat, n: nat)
    requires CanShrink(h, memSize, i, n)
    ensures Inv(ShrinkAt(h, i, n), memSize)
  {
    CutTiles(h, memSize, i, n);
    CutNoAdjacentFree(h, memSize, i, n);
    CutUsedBytes(h, memSize, i, n);
    FuseKeepsInv(CutAt(h, i, n), memSize, i + 1);
  }

  lemma MoveKeepsInv(h: Heap, memSize: nat, p: Ptr, n: nat)
    requires Inv(h, memSize) && ValidSize(memSize)
    requires p.At? && IsLive(h.blocks, p.addr)
    ensures Inv(Move(h, memSize, p, n).0, memSize)
  {
    MallocKeepsInv(h, memSize, n);
    MallocKeepsLive(h, memSize, n, p.addr);
    var h1 := Malloc(h, memSize, n).0;
    FreeAtKeepsInv(h1, memSize, IndexOf(h1.blocks, p.addr - HEADER));
  }

  lemma ReallocKeepsInv(h: Heap, memSize: nat, p: Ptr, newSize: nat)
    requires Inv(h, memSize) && ValidSize(memSize)
    requires p.At? && InHeap(p.addr, memSize) ==> IsLive(h.blocks, p.addr)
    ensures Inv(Realloc(h, memSize, p, newSize).0, memSize)
  {
    var n := AlignUp(newSize);
    var r := Realloc(h, memSize, p, newSize);
    if n <= memSize {
      if p.Null? {
        MallocKeepsInv(h, memSize, n);
      } else if InHeap(p.addr, memSize) {
        var i := IndexOf(h.blocks, p.addr - HEADER);
        if h.blocks[i].Payload() != n {
          if Shrinks(h.blocks[i], n) {
            ShrinkKeepsInv(h, memSize, i, n);
            assert r.0 == ShrinkAt(h, i, n);
          } else {
            MoveKeepsInv(h, memSize, p, n);
            assert r == Move(h, memSize, p, n);
          }
        }
      }
    }
  }

  // ----- plug_holes, one neighbour at a time -----

  /** Free blocks k and k + 1 made into one. */
  function Merged(bs: seq<Block>, k: nat): seq<Block>
    requires k + 1 < |bs|
  {
    Splice(bs, k, k + 2, [Block(bs[k].off, bs[k + 1].end, false)])
  }

  function MergedRight(bs: seq<Block>, i: nat): seq<Block>
    requires i < |bs|
  {
    if i + 1 < |bs| && !bs[i + 1].used then Merged(bs, i) else bs
  }

  function MergedLeft(bs: seq<Block>, i: nat): seq<Block>
    requires i < |bs|
  {
    if i > 0 && !bs[i - 1].used then Merged(bs, i - 1) else bs
  }

  lemma MergedTiles(bs: seq<Block>, heapEnd: nat, k: nat)
    requires Tiles(bs, heapEnd) && k + 1 < |bs|
    ensures Replaces(bs, k, k + 2, [Block(bs[k].off, bs[k + 1].end, false)])
    ensures Tiles(Merged(bs, k), heapEnd)
    ensures |Merged(bs, k)| == |bs| - 1 && Merged(bs, k)[k] == Block(bs[k].off, bs[k + 1].end, false)
    ensures k > 0 ==> Merged(bs, k)[k - 1] == bs[k - 1]
  {
    assert WellSized(bs[k]) && WellSized(bs[k + 1]) && Meets(bs, k);
    var mid := [Block(bs[k].off, bs[k + 1].end, false)];
    assert WellSized(mid[0]);
    SpliceTiles(bs, heapEnd, k, k + 2, mid);
    SpliceAt(bs, k, k + 2, mid);
  }

  lemma MergedKeepsUsed(bs: seq<Block>, k: nat)
    requires k + 1 < |bs| && !bs[k].used && !bs[k + 1].used
    ensures forall b :: b in bs && b.used ==> b in Merged(bs, k)
  {
    forall b | b in bs && b.used ensures b in Merged(bs, k) {
      var j :| 0 <= j < |bs| && bs[j] == b;
      SpliceAt(bs, k, k + 2, [Block(bs[k].off, bs[k + 1].end, false)]);
      assert Merged(bs, k)[if j < k then j else j - 1] == b;
    }
  }

  lemma MergedRightProps(bs: seq<Block>, heapEnd: nat, i: nat)
    requires Tiles(bs, heapEnd) && i < |bs| && !bs[i].used
    ensures var r := MergedRight(bs, i);
      && i < |r| && !r[i].used && r[i].off == bs[i].off && (i > 0 ==> r[i - 1] == bs[i - 1])
      && Tiles(r, heapEnd)
  {
    if i + 1 < |bs| && !bs[i + 1].used { MergedTiles(bs, heapEnd, i); }
  }

  lemma SpliceTwice(bs: seq<Block>, i: nat, b: Block, w: Block)
    requires 0 < i && i + 2 <= |bs|
    ensures Splice(Splice(bs, i, i + 2, [b]), i - 1, i + 1, [w]) == Splice(bs, i - 1, i + 2, [w])
  {
    var r := Splice(bs, i, i + 2, [b]);
    assert r[..i - 1] == bs[..i - 1] && r[i + 1..] == bs[i + 2..];
  }

  lemma FuseBoth(bs: seq<Block>, heapEnd: nat, i: nat)
    requires Tiles(bs, heapEnd) && 0 < i && i + 1 < |bs| && !bs[i - 1].used && !bs[i].used && !bs[i + 1].used
    ensures i < |Merged(bs, i)| && Merged(Merged(bs, i), i - 1) == FuseBlocks(bs, i)
  {
    var b, w := Block(bs[i].off, bs[i + 1].end, false), Whole(bs, i);
    MergedTiles(bs, heapEnd, i);
    hide Tiles;
    SpliceTwice(bs, i, b, w);
    assert Block(Merged(bs, i)[i - 1].off, Merged(bs, i)[i].end, false) == w;
  }

  /** Merging right and then left is one fusion. */
  lemma FuseInSteps(bs: seq<Block>, heapEnd: nat, i: nat)
    requires Tiles(bs, heapEnd) && i < |bs| && !bs[i].used
    ensures i < |MergedRight(bs, i)|
    ensures MergedLeft(MergedRight(bs, i), i) == FuseBlocks(bs, i)
  {
    MergedRightProps(bs, heapEnd, i);
    hide Tiles;
    var r, w := MergedRight(bs, i), Whole(bs, i);
    if i > 0 && !bs[i - 1].used {
      if i + 1 < |bs| && !bs[i + 1].used {
        FuseBoth(bs, heapEnd, i);
      }
    } else if !(i + 1 < |bs| && !bs[i + 1].used) {
      assert w == bs[i] && FuseBlocks(bs, i) == bs;
    }
  }

  lemma FuseTiles(bs: seq<Block>, heapEnd: nat, i: nat)
    requires Tiles(bs, heapEnd) && i < |bs|
    ensures Tiles(FuseBlocks(bs, i), heapEnd)
  {
    FuseReplaces(bs, heapEnd, i);
    SpliceTiles(bs, heapEnd, RunStart(bs, i), RunEnd(bs, i), [Whole(bs, i)]);
  }

  lemma MarkFree(bs: seq<Block>, heapEnd: nat, i: nat)
    requires Tiles(bs, heapEnd) && i < |bs|
    ensures var fs := bs[i := bs[i].(used := false)];
      Tiles(fs, heapEnd) && FuseBlocks(fs, i) == FuseBlocks(bs, i) && Whole(fs, i) == Whole(bs, i)
  {
    var fs := bs[i := bs[i].(used := false)];
    assert WellSized(bs[i]);
    forall k | 0 <= k < |fs| ensures WellSized(fs[k]) { assert WellSized(bs[k]); }
    forall k: nat | k + 1 < |fs| ensures Meets(fs, k) { assert Meets(bs, k); }
  }

  /** rt_free before plug_holes: the block is free, lfree may come down to it, its bytes are no
      longer counted. */
  function Unmarked(h: Heap, i: nat): Heap
    requires i < |h.blocks|
  {
    var b := h.blocks[i];
    Heap(h.blocks[i := b.(used := false)], if b.off < h.lfree then b.off else h.lfree,
         h.usedMem - (b.end - b.off), h.maxMem)
  }

  lemma FreeAtInSteps(h: Heap, memSize: nat, i: nat)
    requires Tiles(h.blocks, memSize + HEADER) && i < |h.blocks|
    ensures FreeAt(h, i) == Fuse(Unmarked(h, i), i)
  {
    MarkFree(h.blocks, memSize + HEADER, i);
  }

  /** Where plug_holes leaves lfree, one comparison per neighbour. */
  lemma FuseLfreeInSteps(h: Heap, heapEnd: nat, i: nat)
    requires Tiles(h.blocks, heapEnd) && i < |h.blocks| && !h.blocks[i].used
    requires FreeOrEnd(h.blocks, h.lfree, heapEnd)
    ensures var bs := h.blocks;
      var l1 := if i + 1 < |bs| && !bs[i + 1].used && h.lfree == bs[i + 1].off then bs[i].off else h.lfree;
      var l2 := if i > 0 && !bs[i - 1].used && l1 == bs[i].off then bs[i - 1].off else l1;
      Fuse(h, i).lfree == l2
  {
    var bs := h.blocks;
    AllOrdered(bs, heapEnd);
    assert WellSized(bs[i]);
    NotInside(bs, heapEnd, h.lfree, i);
    if i > 0 { assert Meets(bs, i - 1) && WellSized(bs[i - 1]); NotInside(bs, heapEnd, h.lfree, i - 1); }
    if i + 1 < |bs| { assert Meets(bs, i) && WellSized(bs[i + 1]); NotInside(bs, heapEnd, h.lfree, i + 1); }
  }
}
