/** How the headers of the small-memory heap lie in memory.

    Memory is one cell per byte address.  A header at p holds its magic in the cell at p, its used
    flag at p + 2, next at p + 4 and prev at p + 8, each field whole in one cell; the other cells of
    [p, p + 12) are not used.  Everything else in a block is payload. */
module HeapImage {
  import opened HeapLayout
  import opened Cells

  const MAGIC := 0x1ea0
  const USED := 2
  const NEXT := 4
  const PREV := 8

  predicate HeaderAt(c: seq<int>, p: nat, used: bool, next: int, prev: int) {
    && p + HEADER <= |c|
    && c[p] == MAGIC
    && c[p + USED] == (if used then 1 else 0)
    && c[p + NEXT] == next
    && c[p + PREV] == prev
  }

  function PrevOff(bs: seq<Block>, i: nat): nat
    requires i <= |bs|
  {
    if i == 0 then 0 else bs[i - 1].off
  }

  predicate BlockImage(c: seq<int>, bs: seq<Block>, i: nat)
    requires i < |bs|
  {
    HeaderAt(c, bs[i].off, bs[i].used, bs[i].end, PrevOff(bs, i))
  }

  /** heap_end is a used header whose next is itself; its prev is never read and never relied on. */
  predicate EndImage(c: seq<int>, heapEnd: nat) {
    heapEnd + HEADER <= |c| && c[heapEnd] == MAGIC && c[heapEnd + USED] == 1 && c[heapEnd + NEXT] == heapEnd
  }

  /** Following next from offset 0 visits exactly the blocks of bs and ends at heapEnd, and prev
      leads back from every block below heapEnd. */
  predicate Image(c: seq<int>, bs: seq<Block>, heapEnd: nat) {
    && |c| == heapEnd + HEADER
    && EndImage(c, heapEnd)
    && forall i: nat :: i < |bs| ==> BlockImage(c, bs, i)
  }

  /** c and d agree except on [lo, hi) and on the prev cell of the header at hi. */
  predicate AgreeOutside(c: seq<int>, d: seq<int>, lo: nat, hi: nat) {
    |c| == |d| && forall a :: 0 <= a < |c| && (a < lo || hi <= a) && a != hi + PREV ==> d[a] == c[a]
  }

  predicate SamePayload(c: seq<int>, d: seq<int>, b: Block) {
    |c| == |d| && forall a :: b.off + HEADER <= a < b.end && a < |c| ==> d[a] == c[a]
  }

  predicate MidImage(d: seq<int>, mid: seq<Block>, before: nat, k: nat)
    requires k < |mid|
  {
    HeaderAt(d, mid[k].off, mid[k].used, mid[k].end, if k == 0 then before else mid[k - 1].off)
  }

  /** Everything SpliceImage asks of the new memory. */
  predicate Spliced(c: seq<int>, d: seq<int>, bs: seq<Block>, heapEnd: nat, i: nat, j: nat, mid: seq<Block>) {
    && Tiles(bs, heapEnd) && Image(c, bs, heapEnd) && Replaces(bs, i, j, mid)
    && AgreeOutside(c, d, bs[i].off, bs[j - 1].end)
    && (forall k: nat :: k < |mid| ==> MidImage(d, mid, PrevOff(bs, i), k))
    && (j < |bs| ==> bs[j].off + HEADER <= |d| && d[bs[j].off + PREV] == mid[|mid| - 1].off)
  }

  lemma ImageBefore(c: seq<int>, d: seq<int>, bs: seq<Block>, heapEnd: nat, i: nat, j: nat, mid: seq<Block>, k: nat)
    requires Spliced(c, d, bs, heapEnd, i, j, mid) && k < i
    ensures BlockImage(d, Splice(bs, i, j, mid), k)
  {
    var s := Splice(bs, i, j, mid);
    Ordered(bs, heapEnd, k, i);
    if i < j - 1 { Ordered(bs, heapEnd, i, j - 1); }
    assert WellSized(bs[k]) && WellSized(bs[i]) && WellSized(bs[j - 1]) && BlockImage(c, bs, k);
    assert s[k] == bs[k] && PrevOff(s, k) == PrevOff(bs, k);
  }

  lemma ImageBehind(c: seq<int>, d: seq<int>, bs: seq<Block>, heapEnd: nat, i: nat, j: nat, mid: seq<Block>, m: nat)
    requires Spliced(c, d, bs, heapEnd, i, j, mid) && j <= m < |bs|
    ensures BlockImage(d, Splice(bs, i, j, mid), m - j + i + |mid|)
  {
    var s := Splice(bs, i, j, mid);
    var k := m - j + i + |mid|;
    SpliceAt(bs, i, j, mid);
    BehindSplice(bs, heapEnd, j, m);
    assert WellSized(bs[m]) && BlockImage(c, bs, m) && s[k] == bs[m];
    if m > j { assert s[k - 1] == bs[m - 1]; } else { assert s[k - 1] == mid[|mid| - 1]; }
  }

  /** Writing the headers of the replacement blocks, and the prev field behind them, is enough. */
  lemma SpliceImage(c: seq<int>, d: seq<int>, bs: seq<Block>, heapEnd: nat, i: nat, j: nat, mid: seq<Block>)
    requires Spliced(c, d, bs, heapEnd, i, j, mid)
    ensures Image(d, Splice(bs, i, j, mid), heapEnd)
  {
    var s := Splice(bs, i, j, mid);
    SpliceAt(bs, i, j, mid);
    SpliceEnd(c, d, bs, heapEnd, i, j, mid);
    forall k: nat | k < |s| ensures BlockImage(d, s, k) {
      if k < i {
        ImageBefore(c, d, bs, heapEnd, i, j, mid, k);
      } else if k < i + |mid| {
        assert MidImage(d, mid, PrevOff(bs, i), k - i);
      } else {
        ImageBehind(c, d, bs, heapEnd, i, j, mid, k - |mid| - i + j);
      }
    }
  }

  lemma SpliceEnd(c: seq<int>, d: seq<int>, bs: seq<Block>, heapEnd: nat, i: nat, j: nat, mid: seq<Block>)
    requires Spliced(c, d, bs, heapEnd, i, j, mid)
    ensures EndImage(d, heapEnd)
  {
    AllOrdered(bs, heapEnd);
    if j < |bs| { NextBlockOf(bs, heapEnd, j - 1); assert WellSized(bs[j]); }
  }

  /** The header of block i, and where it and its successor lie. */
  lemma HeaderOf(c: seq<int>, bs: seq<Block>, heapEnd: nat, i: nat)
    requires Tiles(bs, heapEnd) && Image(c, bs, heapEnd) && i < |bs|
    ensures BlockImage(c, bs, i) && WellSized(bs[i]) && bs[i].end <= heapEnd
    ensures |c| == heapEnd + HEADER
    ensures bs[i].end == (if i + 1 < |bs| then bs[i + 1].off else heapEnd)
    ensures i + 1 < |bs| ==> BlockImage(c, bs, i + 1) && WellSized(bs[i + 1]) && bs[i + 1].end <= heapEnd
    ensures i > 0 ==> BlockImage(c, bs, i - 1) && WellSized(bs[i - 1]) && bs[i - 1].end == bs[i].off
    ensures c[heapEnd + USED] == 1 && c[heapEnd + NEXT] == heapEnd
  {
    AllOrdered(bs, heapEnd);
    NextBlockOf(bs, heapEnd, i);
    if i > 0 { NextBlockOf(bs, heapEnd, i - 1); }
  }

  lemma BehindSplice(bs: seq<Block>, heapEnd: nat, j: nat, m: nat)
    requires Tiles(bs, heapEnd) && 0 < j <= m < |bs|
    ensures bs[j - 1].end == bs[j].off && (m > j ==> bs[j - 1].end + HEADER <= bs[m].off)
  {
    assert Meets(bs, j - 1);
    assert WellSized(bs[j]);
    if m > j { Ordered(bs, heapEnd, j, m); }
  }

  /** A splice leaves the payload of every other block alone. */
  lemma AgreeKeepsPayload(c: seq<int>, d: seq<int>, bs: seq<Block>, heapEnd: nat, i: nat, j: nat, k: nat)
    requires Tiles(bs, heapEnd) && i < j <= |bs| && AgreeOutside(c, d, bs[i].off, bs[j - 1].end)
    requires k < |bs| && (k < i || j <= k)
    ensures SamePayload(c, d, bs[k])
  {
    assert WellSized(bs[k]) && WellSized(bs[i]) && WellSized(bs[j - 1]);
    if k < i { Ordered(bs, heapEnd, k, i); if i < j - 1 { Ordered(bs, heapEnd, i, j - 1); } }
    else { BehindSplice(bs, heapEnd, j, k); }
  }

  /** Storing into the payload of one block disturbs no header. */
  lemma PayloadWriteKeepsImage(c: seq<int>, d: seq<int>, bs: seq<Block>, heapEnd: nat, i: nat)
    requires Tiles(bs, heapEnd) && Image(c, bs, heapEnd) && i < |bs|
    requires |d| == |c| && forall a :: 0 <= a < |c| && !(bs[i].off + HEADER <= a < bs[i].end) ==> d[a] == c[a]
    ensures Image(d, bs, heapEnd)
    ensures forall k :: 0 <= k < |bs| && k != i ==> SamePayload(c, d, bs[k])
  {
    AllOrdered(bs, heapEnd);
    assert WellSized(bs[i]);
    forall k: nat | k < |bs| ensures BlockImage(d, bs, k) && (k != i ==> SamePayload(c, d, bs[k])) {
      assert WellSized(bs[k]) && BlockImage(c, bs, k);
    }
  }

  predicate PayloadsKept(c: seq<int>, d: seq<int>, bs: seq<Block>) {
    forall b :: b in bs && b.used ==> SamePayload(c, d, b)
  }

  predicate PayloadsKeptBut(c: seq<int>, d: seq<int>, bs: seq<Block>, except: Block) {
    forall b :: b in bs && b.used && b != except ==> SamePayload(c, d, b)
  }

  /** When only block i (and the prev field behind it) changed, and it was free, every live payload
      is as it was. */
  lemma FreeRunKeepsPayloads(c: seq<int>, d: seq<int>, bs: seq<Block>, heapEnd: nat, i: nat, j: nat)
    requires Tiles(bs, heapEnd) && i < j <= |bs| && AgreeOutside(c, d, bs[i].off, bs[j - 1].end)
    requires forall k :: i <= k < j ==> !bs[k].used
    ensures PayloadsKept(c, d, bs)
  {
    forall b | b in bs && b.used ensures SamePayload(c, d, b) {
      var k :| 0 <= k < |bs| && bs[k] == b;
      AgreeKeepsPayload(c, d, bs, heapEnd, i, j, k);
    }
  }

  /** The two stores that merge the free block k + 1 into the free block k. */
  function MergeStores(c: seq<int>, bs: seq<Block>, k: nat): seq<int>
    requires k + 1 < |bs| && bs[k].off + HEADER <= |c| && bs[k + 1].end + HEADER <= |c|
  {
    c[bs[k].off + NEXT := bs[k + 1].end][bs[k + 1].end + PREV := bs[k].off]
  }

  lemma MergeImage(c: seq<int>, bs: seq<Block>, heapEnd: nat, k: nat)
    requires Tiles(bs, heapEnd) && Image(c, bs, heapEnd) && k + 1 < |bs| && !bs[k].used && !bs[k + 1].used
    ensures bs[k].off + HEADER <= |c| && bs[k + 1].end + HEADER <= |c|
    ensures Image(MergeStores(c, bs, k), Merged(bs, k), heapEnd)
    ensures PayloadsKept(c, MergeStores(c, bs, k), bs)
  {
    var mid := [Block(bs[k].off, bs[k + 1].end, false)];
    MergeBounds(c, bs, heapEnd, k);
    var d := MergeStores(c, bs, k);
    MergedTiles(bs, heapEnd, k);
    assert MidImage(d, mid, PrevOff(bs, k), 0) by { assert BlockImage(c, bs, k); }
    if k + 2 < |bs| { BehindSplice(bs, heapEnd, k + 2, k + 2); assert BlockImage(c, bs, k + 2); }
    SpliceImage(c, d, bs, heapEnd, k, k + 2, mid);
    FreeRunKeepsPayloads(c, d, bs, heapEnd, k, k + 2);
  }

  lemma MergeBounds(c: seq<int>, bs: seq<Block>, heapEnd: nat, k: nat)
    requires Tiles(bs, heapEnd) && Image(c, bs, heapEnd) && k + 1 < |bs|
    ensures bs[k].off + HEADER <= bs[k].end == bs[k + 1].off
    ensures bs[k + 1].off + HEADER <= bs[k + 1].end && bs[k + 1].end + HEADER <= |c|
  {
    AllOrdered(bs, heapEnd);
    assert WellSized(bs[k]) && WellSized(bs[k + 1]) && Meets(bs, k);
  }

  lemma MarkFreeImage(c: seq<int>, d: seq<int>, bs: seq<Block>, heapEnd: nat, i: nat)
    requires Tiles(bs, heapEnd) && Image(c, bs, heapEnd) && i < |bs| && bs[i].off + HEADER <= |c|
    requires d == c[bs[i].off + USED := 0]
    ensures Image(d, bs[i := bs[i].(used := false)], heapEnd)
  {
    var b := bs[i];
    var mid := [b.(used := false)];
    assert WellSized(b) && BlockImage(c, bs, i);
    assert MidImage(d, mid, PrevOff(bs, i), 0);
    if i + 1 < |bs| {
      BehindSplice(bs, heapEnd, i + 1, i + 1);
      assert BlockImage(c, bs, i + 1) && WellSized(bs[i + 1]);
    }
    SpliceImage(c, d, bs, heapEnd, i, i + 1, mid);
    assert Splice(bs, i, i + 1, mid) == bs[i := b.(used := false)];
  }

  lemma MarkFreeKeepsPayloads(c: seq<int>, d: seq<int>, bs: seq<Block>, heapEnd: nat, i: nat)
    requires Tiles(bs, heapEnd) && i < |bs| && bs[i].off + HEADER <= |c|
    requires d == c[bs[i].off + USED := 0]
    ensures PayloadsKept(c, d, bs)
  {
    AllOrdered(bs, heapEnd);
    forall b | b in bs && b.used ensures SamePayload(c, d, b) {
      var k :| 0 <= k < |bs| && bs[k] == b;
      assert WellSized(bs[k]) && WellSized(bs[i]);
    }
  }

  lemma KeptThroughMark(c: seq<int>, d: seq<int>, e: seq<int>, bs: seq<Block>, i: nat)
    requires i < |bs| && PayloadsKept(c, d, bs) && PayloadsKept(d, e, bs[i := bs[i].(used := false)])
    ensures PayloadsKeptBut(c, e, bs, bs[i])
  {
    var fs := bs[i := bs[i].(used := false)];
    forall b | b in bs && b.used && b != bs[i] ensures SamePayload(c, e, b) {
      var k :| 0 <= k < |bs| && bs[k] == b;
      assert fs[k] == b;
      assert SamePayload(c, d, b) && SamePayload(d, e, b);
    }
  }

  /** The headers of block i as two blocks, the second of them free. */
  predicate TwoParts(c: seq<int>, d: seq<int>, bs: seq<Block>, heapEnd: nat, i: nat, n: nat)
    requires i < |bs|
  {
    var b := bs[i]; var mid := b.off + HEADER + n;
    && AgreeOutside(c, d, b.off, b.end)
    && HeaderAt(d, b.off, true, mid, PrevOff(bs, i))
    && HeaderAt(d, mid, false, b.end, b.off)
    && b.end + HEADER <= |d|
    && (b.end != heapEnd ==> d[b.end + PREV] == mid)
  }

  lemma TwoPartsImage(c: seq<int>, d: seq<int>, bs: seq<Block>, heapEnd: nat, i: nat, n: nat)
    requires Tiles(bs, heapEnd) && Image(c, bs, heapEnd) && i < |bs| && Aligned(n) && n + HEADER <= bs[i].Payload()
    requires TwoParts(c, d, bs, heapEnd, i, n)
    ensures Image(d, Splice(bs, i, i + 1, CutParts(bs[i], n)), heapEnd)
  {
    var mid := CutParts(bs[i], n);
    assert WellSized(bs[i]);
    assert MidImage(d, mid, PrevOff(bs, i), 0) && MidImage(d, mid, PrevOff(bs, i), 1);
    if i + 1 < |bs| { BehindSplice(bs, heapEnd, i + 1, i + 1); AllOrdered(bs, heapEnd); assert WellSized(bs[i + 1]); }
    SpliceImage(c, d, bs, heapEnd, i, i + 1, mid);
  }

  /** Cutting a used block writes a header inside it and the prev field behind it; the bytes it
      keeps are not touched. */
  lemma CutImage(c: seq<int>, d: seq<int>, bs: seq<Block>, heapEnd: nat, i: nat, n: nat)
    requires Tiles(bs, heapEnd) && Image(c, bs, heapEnd) && i < |bs| && Aligned(n) && Shrinks(bs[i], n)
    requires TwoParts(c, d, bs, heapEnd, i, n)
    ensures Image(d, Splice(bs, i, i + 1, CutParts(bs[i], n)), heapEnd)
    ensures PayloadsKeptBut(c, d, bs, bs[i])
  {
    TwoPartsImage(c, d, bs, heapEnd, i, n);
    CutKeeps(c, d, bs, heapEnd, i);
  }

  /** What changes only block i leaves the other payloads. */
  lemma CutKeeps(c: seq<int>, d: seq<int>, bs: seq<Block>, heapEnd: nat, i: nat)
    requires Tiles(bs, heapEnd) && Image(c, bs, heapEnd) && i < |bs| && AgreeOutside(c, d, bs[i].off, bs[i].end)
    ensures PayloadsKeptBut(c, d, bs, bs[i])
  {
    hide Tiles, Image, AgreeOutside, SamePayload;
    forall b | b in bs && b.used && b != bs[i] ensures SamePayload(c, d, b) {
      var k :| 0 <= k < |bs| && bs[k] == b;
      AgreeKeepsPayload(c, d, bs, heapEnd, i, i + 1, k);
    }
  }

  lemma KeptThroughCut(c: seq<int>, d: seq<int>, e: seq<int>, bs: seq<Block>, i: nat, n: nat)
    requires i < |bs| && PayloadsKeptBut(c, d, bs, bs[i])
    requires PayloadsKept(d, e, Splice(bs, i, i + 1, CutParts(bs[i], n)))
    requires Copied(c, d, bs[i].off + HEADER, bs[i].off + HEADER, n)
    ensures PayloadsKeptBut(c, e, bs, bs[i])
    ensures Copied(c, e, bs[i].off + HEADER, bs[i].off + HEADER, n)
  {
    var cs := Splice(bs, i, i + 1, CutParts(bs[i], n));
    SpliceAt(bs, i, i + 1, CutParts(bs[i], n));
    assert cs[i] in cs && SamePayload(d, e, cs[i]);
    forall b | b in bs && b.used && b != bs[i] ensures SamePayload(c, e, b) {
      var k :| 0 <= k < |bs| && bs[k] == b;
      assert cs[if k < i then k else k + 1] == b;
      assert SamePayload(c, d, b) && SamePayload(d, e, b);
    }
  }

  /** Block k of bs shares no cell with any used block of olds, and all of those are in bs. */
  predicate Beside(bs: seq<Block>, k: nat, olds: seq<Block>)
    requires k < |bs|
  {
    forall x :: x in olds && x.used ==> x in bs && x != bs[k] && (bs[k].end <= x.off || x.end <= bs[k].off)
  }

  /** Allocate (c to d), then fill the new block k (d to e): the old blocks keep their cells. */
  lemma KeptThroughCopy(c: seq<int>, d: seq<int>, e: seq<int>, bs: seq<Block>, bs1: seq<Block>, k: nat)
    requires k < |bs1| && Beside(bs1, k, bs)
    requires PayloadsKept(c, d, bs) && PayloadsKeptBut(d, e, bs1, bs1[k])
    ensures PayloadsKept(c, e, bs)
  {
    forall b | b in bs && b.used ensures SamePayload(c, e, b) {
      assert SamePayload(c, d, b) && SamePayload(d, e, b);
    }
  }

  /** Then free the old block b0 (e to f): the others, and the copy, stay. */
  lemma KeptThroughFree(c: seq<int>, e: seq<int>, f: seq<int>, bs: seq<Block>, bs1: seq<Block>, k: nat, b0: Block,
      m: nat)
    requires k < |bs1| && Beside(bs1, k, bs) && b0 in bs && b0.used && bs1[k].used
    requires PayloadsKept(c, e, bs) && PayloadsKeptBut(e, f, bs1, b0)
    requires Copied(c, e, b0.off + HEADER, bs1[k].off + HEADER, m) && bs1[k].off + HEADER + m <= bs1[k].end
    ensures PayloadsKeptBut(c, f, bs, b0)
    ensures Copied(c, f, b0.off + HEADER, bs1[k].off + HEADER, m)
  {
    assert SamePayload(e, f, bs1[k]);
    forall b | b in bs && b.used && b != b0 ensures SamePayload(c, f, b) {
      assert SamePayload(c, e, b) && SamePayload(e, f, b);
    }
  }

  lemma CopiedAfter(c: seq<int>, d: seq<int>, e: seq<int>, b0: Block, dst: nat, m: nat)
    requires SamePayload(c, d, b0) && Copied(d, e, b0.off + HEADER, dst, m) && b0.off + HEADER + m <= b0.end
    ensures Copied(c, e, b0.off + HEADER, dst, m)
  {
  }

  // ----- when the search of rt_malloc ends -----

  /** The header reached from p after k steps along next. */
  function Chase(c: seq<int>, p: int, k: nat): int
    decreases k
  {
    if k == 0 || !(0 <= p && p + HEADER <= |c|) then p else Chase(c, c[p + NEXT], k - 1)
  }

  /** rt_malloc's scan goes on at p: p is below the unsigned bound mem_size_aligned - size, and the block
      at p cannot take the n bytes the request comes to. */
  predicate ScanContinues(c: seq<int>, memSize: nat, n: nat, p: int) {
    && 0 <= p && p + HEADER <= |c|
    && p < (memSize - n) % WORD_LIMIT
    && !(c[p + USED] == 0 && c[p + NEXT] - (p + HEADER) >= n)
  }

  lemma {:induction false} ChaseStaysAtEnd(c: seq<int>, heapEnd: nat, k: nat)
    requires EndImage(c, heapEnd)
    ensures Chase(c, heapEnd, k) == heapEnd
  {
    if k > 0 { ChaseStaysAtEnd(c, heapEnd, k - 1); }
  }

  /** Along next the scan comes to the end marker. */
  lemma {:induction false} ChaseToEnd(c: seq<int>, bs: seq<Block>, heapEnd: nat, i: nat)
    requires Image(c, bs, heapEnd) && Tiles(bs, heapEnd) && i < |bs|
    ensures Chase(c, bs[i].off, |bs| - i) == heapEnd
    decreases |bs| - i
  {
    assert BlockImage(c, bs, i);
    NextBlockOf(bs, heapEnd, i);
    if i + 1 < |bs| { ChaseToEnd(c, bs, heapEnd, i + 1); }
  }

  /** A heap with no room for the smallest payload is one block. */
  lemma TinyHeapIsOneBlock(bs: seq<Block>, heapEnd: nat)
    requires Tiles(bs, heapEnd) && heapEnd < 2 * HEADER
    ensures |bs| == 1 && bs[0].off == 0 && bs[0].end == heapEnd
  {
    assert WellSized(bs[0]) && WellSized(bs[|bs| - 1]);
    if |bs| > 1 { Ordered(bs, heapEnd, 0, |bs| - 1); }
  }

  /** On such a heap the bound wraps and the scan never ends. */
  lemma TinyHeapScanNeverEnds(c: seq<int>, h: Heap, memSize: nat, k: nat)
    requires Inv(h, memSize) && Image(c, h.blocks, memSize + HEADER) && Aligned(memSize) && memSize < MIN_PAYLOAD
    ensures ScanContinues(c, memSize, MIN_PAYLOAD, Chase(c, h.lfree, k))
  {
    var bs, heapEnd := h.blocks, memSize + HEADER;
    TinyHeapIsOneBlock(bs, heapEnd);
    assert BlockImage(c, bs, 0);
    if h.lfree == heapEnd {
      ChaseStaysAtEnd(c, heapEnd, k);
    } else if k > 0 {
      ChaseStaysAtEnd(c, heapEnd, k - 1);
    }
  }

  /** The search of a request that passes the size check ends if and only if the heap has room for one
      smallest payload, whatever the request and the state of the heap. */
  lemma ScanEndsIff(c: seq<int>, h: Heap, memSize: nat, size: nat)
    requires Aligned(memSize) && memSize + 2 * HEADER <= WORD_LIMIT
    requires Inv(h, memSize) && Image(c, h.blocks, memSize + HEADER)
    requires 0 < size < WORD_LIMIT && AlignUp(size) <= memSize
    ensures (exists k: nat :: !ScanContinues(c, memSize, Request(size), Chase(c, h.lfree, k))) <==>
      MIN_PAYLOAD <= memSize
  {
    var heapEnd, n := memSize + HEADER, Request(size);
    if memSize < MIN_PAYLOAD {
      forall k: nat
        ensures ScanContinues(c, memSize, n, Chase(c, h.lfree, k))
      {
        TinyHeapScanNeverEnds(c, h, memSize, k);
      }
    } else {
      var k := 0;
      if h.lfree != heapEnd {
        var i :| 0 <= i < |h.blocks| && h.blocks[i].off == h.lfree && !h.blocks[i].used;
        ChaseToEnd(c, h.blocks, heapEnd, i);
        k := |h.blocks| - i;
      }
      assert Chase(c, h.lfree, k) == heapEnd;
      assert !ScanContinues(c, memSize, n, Chase(c, h.lfree, k));
    }
  }
}
