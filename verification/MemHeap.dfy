/** memheap.c as it runs: block headers linked by next and prev in a ring, free blocks linked by nextFree
    and prevFree in a ring through the free list header, and counters, all updated in place. */
module MemHeap {
  import opened Lists
  import opened LinkedRings
  import opened MemPool
  import opened MemPoolRuns
  import C = MemPoolCalls
  import opened Cells

  const FREE_HEADER := -1

  /** The nodes of the free ring: the header of the free list, then the free blocks. */
  function FreeRing(free: seq<Node>): seq<Node> { [FREE_HEADER] + free }

  lemma FreeRingFront(free: seq<Node>, x: Node)
    ensures Inserted(FreeRing(free), 0, x) == FreeRing([x] + free)
  {
  }

  lemma FreeRingWithout(free: seq<Node>, x: Node)
    requires x in free && x != FREE_HEADER
    ensures var k := IndexOf(free, x) + 1;
      k < |FreeRing(free)| && FreeRing(free)[k] == x && Removed(FreeRing(free), k) == FreeRing(Without(free, x))
  {
  }

  /** Every block carries its mark. */
  predicate Marked(marks: map<Node, bool>, offs: seq<Node>, used: set<Node>) {
    forall x :: x in offs ==> x in marks && (marks[x] <==> x in used)
  }

  lemma MarkedSplit(marks: map<Node, bool>, offs: seq<Node>, used: set<Node>, i: nat, y: Node)
    requires Marked(marks, offs, used) && i < |offs| && y !in offs && used <= Elems(offs)
    ensures Marked(marks[y := false][offs[i] := true], Inserted(offs, i, y), used + {offs[i]})
    ensures Marked(marks[y := false], Inserted(offs, i, y), used)
  {
    assert y !in used by { assert y !in Elems(offs); }
    InsertedElems(offs, i, y);
    assert forall x :: x in Inserted(offs, i, y) ==> x in Elems(Inserted(offs, i, y));
    assert forall x :: x in Elems(offs) ==> x in offs;
  }

  lemma MarkedSet(marks: map<Node, bool>, offs: seq<Node>, used: set<Node>, x: Node)
    requires Marked(marks, offs, used) && x in offs
    ensures Marked(marks[x := true], offs, used + {x}) && Marked(marks[x := false], offs, used - {x})
  {
  }

  lemma MarkedRemoved(marks: map<Node, bool>, offs: seq<Node>, used: set<Node>, i: nat)
    requires Marked(marks, offs, used) && i < |offs| && Distinct(offs)
    ensures Marked(marks, Removed(offs, i), used)
  {
    RemovedElems(offs, i);
    assert forall x :: x in Removed(offs, i) ==> x in Elems(Removed(offs, i));
    assert forall x :: x in Elems(offs) ==> x in offs;
  }

  lemma UsedInPool(p: Pool)
    requires Inv(p)
    ensures p.used <= Elems(p.offs) && Distinct(p.offs) && Distinct(p.free)
  {
    LayoutDistinct(p.offs, p.size);
  }

  lemma FreeStart(p: Pool, x: Node)
    requires Inv(p) && x in p.free
    ensures x >= 0
  {
    FreeInPool(p, x);
    InPool(p, BlockAt(p, x));
  }

  lemma RingNext(next: Links, prev: Links, offs: seq<Node>, i: nat)
    requires Ring(next, prev, offs) && i + 1 < |offs|
    ensures offs[i] in next && next[offs[i]] == offs[i + 1] && offs[i] in prev
      && (i > 0 ==> prev[offs[i]] == offs[i - 1])
    ensures i == 0 ==> prev[offs[i]] == offs[|offs| - 1]
  {
    assert LinkedAt(next, prev, offs, i);
  }

  lemma NewInFreeRing(p: Pool, x: Node, y: Node)
    requires Inv(p) && x in p.free && y !in p.offs && y >= 0
    ensures y !in FreeRing(Without(p.free, x)) && y !in FreeRing(p.free)
  {
    FreeDistinct(p);
    if y in p.free { FreeInPool(p, y); }
    WithoutIn(p.free, x, y);
  }

  lemma InitialRings(tail: Node)
    requires tail > 0
    ensures Ring(map[0 := tail, tail := 0], map[0 := tail, tail := 0], [0, tail])
    ensures Ring(map[FREE_HEADER := 0, 0 := FREE_HEADER], map[FREE_HEADER := 0, 0 := FREE_HEADER], FreeRing([0]))
  {
  }

  /** The pool after a block was handed out, field by field. */
  lemma TakenFields(p: Pool, i: nat, size: nat)
    requires i + 1 < |p.offs| && p.offs[i] in p.free
    ensures var q, x, y := TakeAt(p, i, size), p.offs[i], p.offs[i] + size + HEADER;
      && q.used == p.used + {x} && q.size == p.size
      && (if Payload(p.offs, i) >= size + HEADER + MIN_ALLOC
          then q.offs == Inserted(p.offs, i, y) && q.free == [y] + Without(p.free, x)
            && q.avail == p.avail - size - HEADER
          else q.offs == p.offs && q.free == Without(p.free, x) && q.avail == p.avail - Payload(p.offs, i))
      && q.maxUsed == if p.size - q.avail > p.maxUsed then p.size - q.avail else p.maxUsed
  {
  }

  // ----- the search -----

  lemma FreeRingAt(nextFree: Links, prevFree: Links, free: seq<Node>, k: nat)
    requires Ring(nextFree, prevFree, FreeRing(free)) && k <= |free|
    ensures FreeRing(free)[k] in nextFree
    ensures nextFree[FreeRing(free)[k]] == if k < |free| then free[k] else FREE_HEADER
  {
    assert LinkedAt(nextFree, prevFree, FreeRing(free), k);
  }

  /** Where the search stands: at free block k, those before it too small; freeSize is its size once seen. */
  predicate Searching(p: Pool, size: nat, k: nat, header: Node, freeSize: int) {
    && k <= |p.free| && header == (if k < |p.free| then p.free[k] else FREE_HEADER)
    && (forall j :: 0 <= j < k ==> SizeAt(p.offs, p.free[j]) < size)
    && (freeSize >= size ==> k < |p.free| && freeSize == SizeAt(p.offs, p.free[k]))
  }

  lemma SearchedSize(next: Links, prev: Links, p: Pool, k: nat)
    requires Inv(p) && Ring(next, prev, p.offs) && k <= |p.free|
    ensures k < |p.free| ==>
      && p.free[k] in next && next[p.free[k]] - p.free[k] - HEADER == SizeAt(p.offs, p.free[k])
      && p.free[k] != FREE_HEADER
  {
    if k < |p.free| {
      FreeInPool(p, p.free[k]);
      FreeStart(p, p.free[k]);
      RingNext(next, prev, p.offs, BlockAt(p, p.free[k]));
    }
  }

  lemma SearchDone(p: Pool, size: nat, k: nat, header: Node, freeSize: int)
    requires Inv(p) && Searching(p, size, k, header, freeSize) && (header == FREE_HEADER || freeSize >= size)
    ensures if freeSize >= size then Fit(p.free, p.offs, size) == k < |p.free| && header == p.free[k]
            else Fit(p.free, p.offs, size) == |p.free|
  {
    if k < |p.free| { FreeStart(p, p.free[k]); }
    FitIs(p.free, p.offs, size, k);
  }

  lemma {:induction false} FitIs(free: seq<Node>, offs: seq<Node>, size: nat, k: nat)
    requires k <= |free| && (k < |free| ==> SizeAt(offs, free[k]) >= size) && forall j :: 0 <= j < k ==>
      SizeAt(offs, free[j]) < size
    ensures Fit(free, offs, size) == k
  {
    if 0 < k { FitIs(free[1..], offs, size, k - 1); }
  }

  // ----- the neighbours of a block being freed -----

  /** The mark before block i says whether the block before it is free; before the first is the tailer. */
  lemma PrevMark(marks: map<Node, bool>, p: Pool, i: nat)
    requires Inv(p) && i + 1 < |p.offs| && p.offs[i] in p.used && Marked(marks, p.offs, p.used - {p.offs[i]})
    ensures var x := if i > 0 then p.offs[i - 1] else p.offs[|p.offs| - 1];
      x in marks && (!marks[x] <==> i > 0 && p.offs[i - 1] in p.free)
  {
    InvDistinct(p);
    if i > 0 { FreeAtIff(p, i - 1); }
    TailUsed(p);
  }

  lemma TailUsed(p: Pool)
    requires Inv(p)
    ensures |p.offs| >= 2 && p.offs[|p.offs| - 1] in p.used
  {
  }

  lemma RemovedTwice(offs: seq<Node>, i: nat)
    requires i + 1 < |offs|
    ensures Removed(Removed(offs, i), i) == Removed(Removed(offs, i + 1), i)
  {
  }

  /** The blocks once a freed block has joined the one before it, and where the joined block is. */
  function AfterLeft(p: Pool, i: nat): seq<Node>
    requires i < |p.offs|
  {
    if i > 0 && p.offs[i - 1] in p.free then Removed(p.offs, i) else p.offs
  }

  function HeaderAt(p: Pool, i: nat): nat
    requires i < |p.offs|
  {
    if i > 0 && p.offs[i - 1] in p.free then i - 1 else i
  }

  /** The blocks once a freed block has joined its free neighbours. */
  function FreeOffs(p: Pool, i: nat): seq<Node>
    requires i + 1 < |p.offs|
  {
    var offs, h := AfterLeft(p, i), HeaderAt(p, i);
    if p.offs[i + 1] in p.free then Removed(offs, h + 1) else offs
  }

  /** The free list without a free block after the freed one. */
  function FreedList(p: Pool, i: nat): seq<Node>
    requires i + 1 < |p.offs|
  {
    if p.offs[i + 1] in p.free then Without(p.free, p.offs[i + 1]) else p.free
  }

  predicate JoinsLeft(p: Pool, i: nat)
    requires i < |p.offs|
  {
    i > 0 && p.offs[i - 1] in p.free
  }

  function FreedBytes(p: Pool, i: nat): int
    requires i + 1 < |p.offs|
  {
    Payload(p.offs, i) + (if JoinsLeft(p, i) then HEADER else 0) + (if p.offs[i + 1] in p.free then HEADER else 0)
  }

  /** The pool after a block was freed, field by field. */
  lemma FreedFields(p: Pool, i: nat)
    requires Inv(p) && i + 1 < |p.offs| && p.offs[i] in p.used
    ensures i + 2 < |p.offs| || p.offs[i + 1] !in p.free
    ensures var q := FreeAt(p, i);
      && q.offs == FreeOffs(p, i)
           && q.free == (if JoinsLeft(p, i) then FreedList(p, i) else [p.offs[i]] + FreedList(p, i))
      && q.used == p.used - {p.offs[i]} && q.size == p.size && q.maxUsed == p.maxUsed
           && q.avail == p.avail + FreedBytes(p, i)
  {
    hide Consistent, Without, Removed, Distinct;
    LayoutStep(p, i);
    FreeAtIff(p, i);
    RemovedTwice(p.offs, i);
    if p.offs[i + 1] in p.free {
      DropFacts(p, i + 1);
      if i > 0 { DropFree(p, i + 1, p.offs[i - 1]); }
      InvDistinct(p);
      FreedJoined(p, i);
    }
  }

  lemma FreedJoined(p: Pool, i: nat)
    requires i + 2 < |p.offs| && p.offs[i + 1] in p.free
    ensures i > 0 ==> Removed(p.offs, i)[i] == p.offs[i + 1]
    ensures Removed(p.offs, i + 1)[i] == p.offs[i]
  {
  }

  /** Where the two blocks to be joined are. */
  lemma HeaderFacts(p: Pool, i: nat)
    requires Inv(p) && i + 1 < |p.offs|
    ensures var offs, h := AfterLeft(p, i), HeaderAt(p, i);
      h + 1 < |offs| && offs[h + 1] == p.offs[i + 1]
        && offs[h] == (if JoinsLeft(p, i) then p.offs[i - 1] else p.offs[i])
  {
    LayoutStep(p, i);
  }

  /** The free list a freed block is pushed on does not have it. */
  lemma FreedNotListed(p: Pool, i: nat)
    requires Inv(p) && i + 1 < |p.offs| && p.offs[i] in p.used
    ensures p.offs[i] !in FreeRing(FreedList(p, i))
  {
    FreeAtIff(p, i);
    InPool(p, i);
    FreeDistinct(p);
    if p.offs[i + 1] in p.free { WithoutIn(p.free, p.offs[i + 1], p.offs[i]); }
  }

  lemma NextMark(marks: map<Node, bool>, p: Pool, i: nat)
    requires Inv(p) && i + 1 < |p.offs| && Marked(marks, p.offs, p.used - {p.offs[i]})
    ensures p.offs[i + 1] in marks && (!marks[p.offs[i + 1]] <==> p.offs[i + 1] in p.free)
      && p.offs[i + 1] != FREE_HEADER
  {
    InvDistinct(p);
    FreeAtIff(p, i + 1);
    InPool(p, i + 1);
  }

  lemma MarkedFreed(marks: map<Node, bool>, p: Pool, i: nat)
    requires Inv(p) && i + 1 < |p.offs| && p.offs[i] in p.used && Marked(marks, p.offs, p.used - {p.offs[i]})
    ensures Marked(marks, FreeOffs(p, i), p.used - {p.offs[i]})
  {
    InvDistinct(p);
    MarkedRemoved(marks, p.offs, p.used - {p.offs[i]}, i);
    var offs, h := AfterLeft(p, i), HeaderAt(p, i);
    RemovedAt(p.offs, i);
    MarkedRemoved(marks, offs, p.used - {p.offs[i]}, h + 1);
  }

  // ----- moving the end of a block -----

  lemma InsertThenRemove(offs: seq<Node>, i: nat, y: Node)
    requires i + 1 < |offs|
    ensures i + 2 < |Inserted(offs, i, y)| && Inserted(offs, i, y)[i + 2] == offs[i + 1]
      && Inserted(offs, i, y)[i + 1] == y
    ensures Removed(Inserted(offs, i, y), i + 2) == Inserted(Removed(offs, i + 1), i, y)
  {
  }

  /** The pool after the end of a block moved, field by field. */
  lemma MovedFields(p: Pool, i: nat, size: nat)
    requires i + 2 < |p.offs| && p.offs[i + 1] in p.free
    ensures var q, y := MoveEnd(p, i, size), p.offs[i] + HEADER + size;
      && |Removed(p.offs, i + 1)| > i + 1 && Removed(p.offs, i + 1)[i] == p.offs[i]
      && q.offs == Inserted(Removed(p.offs, i + 1), i, y) && q.free == [y] + Without(p.free, p.offs[i + 1])
      && q.used == p.used && q.size == p.size && q.maxUsed == p.maxUsed
           && q.avail == p.avail + Payload(p.offs, i) - size
  {
    assert Removed(p.offs, i + 1)[i] == p.offs[i] && Removed(p.offs, i + 1)[i + 1] == p.offs[i + 2];
  }

  /** The new header is new to both lists. */
  lemma MovedNew(p: Pool, i: nat, size: nat)
    requires Inv(p) && i + 2 < |p.offs| && p.offs[i] in p.used && p.offs[i + 1] in p.free && Aligned(size)
    requires p.offs[i] + HEADER + size + HEADER <= p.offs[i + 2]
    ensures var y := p.offs[i] + HEADER + size;
      y !in Removed(p.offs, i + 1) && y !in FreeRing(Without(p.free, p.offs[i + 1]))
  {
    hide Consistent, Drop, Aligned, FreeRing, Removed, Without;
    MoveEndNew(p, i, size);
    InPool(p, i);
    DropKeeps(p, i + 1);
    DropFields(p, i + 1);
    NotListed(Drop(p, i + 1), p.offs[i] + HEADER + size);
  }

  lemma DropFields(p: Pool, i: nat)
    requires i + 1 < |p.offs| && p.offs[i] in p.free
    ensures Drop(p, i).offs == Removed(p.offs, i) && Drop(p, i).free == Without(p.free, p.offs[i])
  {
  }

  lemma NotListed(p: Pool, y: Node)
    requires Consistent(p) && y !in p.offs && y >= 0
    ensures y !in FreeRing(p.free)
  {
    assert y in Elems(p.free) ==> y in Elems(p.offs);
  }

  lemma MarkedMoved(marks: map<Node, bool>, p: Pool, i: nat, y: Node)
    requires Inv(p) && i + 2 < |p.offs| && Marked(marks, p.offs, p.used) && y !in Removed(p.offs, i + 1)
      && p.offs[i + 1] in p.free
    ensures Marked(marks[y := false], Inserted(Removed(p.offs, i + 1), i, y), p.used)
  {
    InvDistinct(p);
    UsedInPool(p);
    FreeAtIff(p, i + 1);
    MarkedRemoved(marks, p.offs, p.used, i + 1);
    RemovedElems(p.offs, i + 1);
    MarkedSplit(marks, Removed(p.offs, i + 1), p.used, i, y);
  }

  lemma InsertedSizes(offs: seq<Node>, i: nat, y: Node)
    requires i + 2 < |offs|
    ensures var t := Inserted(offs, i, y);
      |t| == |offs| + 1 && t[i + 1] == y && t[i + 2] == offs[i + 1] && Payload(t, i + 2) == Payload(offs, i + 1)
    ensures var t := Inserted(Removed(offs, i + 1), i, y);
      |t| == |offs| && t[i + 1] == y && t[i + 2] == offs[i + 2]
  {
    var r := Removed(offs, i + 1);
    assert r[i + 1] == offs[i + 2];
  }

  lemma ShrinkFacts(p: Pool, i: nat, size: nat)
    requires Inv(p) && i + 2 < |p.offs| && p.offs[i] in p.used && p.offs[i + 1] in p.free
    requires Aligned(size) && size + HEADER <= Payload(p.offs, i)
    ensures var y, q := p.offs[i] + HEADER + size, MoveEnd(p, i, size);
      && y !in p.offs && y !in Removed(p.offs, i + 1) && y !in FreeRing(Without(p.free, p.offs[i + 1]))
           && p.offs[i + 1] != FREE_HEADER
      && |Inserted(p.offs, i, y)| == |p.offs| + 1 && Inserted(p.offs, i, y)[i + 1] == y
           && Inserted(p.offs, i, y)[i + 2] == p.offs[i + 1]
      && Payload(Inserted(p.offs, i, y), i + 2) == Payload(p.offs, i + 1)
      && i < |Removed(p.offs, i + 1)|
           && q.offs == Removed(Inserted(p.offs, i, y), i + 2) == Inserted(Removed(p.offs, i + 1), i, y)
      && |q.offs| == |p.offs| && q.offs[i + 1] == y && q.offs[i + 2] == p.offs[i + 2]
      && q.free == [y] + Without(p.free, p.offs[i + 1])
      && q.used == p.used && q.size == p.size && q.maxUsed == p.maxUsed
      && q.avail == p.avail - Payload(p.offs, i + 1) + Payload(q.offs, i + 1)
  {
    hide Consistent, MoveEnd, FreeRing, Without, Removed, Inserted, Aligned;
    LayoutStep(p, i + 1);
    MovedFields(p, i, size);
    MovedNew(p, i, size);
    SplitNew(p, i, size);
    InsertThenRemove(p.offs, i, p.offs[i] + HEADER + size);
    InsertedSizes(p.offs, i, p.offs[i] + HEADER + size);
    FreeStart(p, p.offs[i + 1]);
  }

  lemma AloneFacts(p: Pool, i: nat, size: nat)
    requires Inv(p) && i + 1 < |p.offs| && p.offs[i] in p.used && p.offs[i + 1] !in p.free
    requires Aligned(size) && size + HEADER <= Payload(p.offs, i)
    ensures var y, q := p.offs[i] + HEADER + size, ShrinkAt(p, i, size);
      && y !in p.offs && y !in FreeRing(p.free) && p.used <= Elems(p.offs)
      && q.offs == Inserted(p.offs, i, y) && |q.offs| == |p.offs| + 1 && q.offs[i + 1] == y
           && q.offs[i + 2] == p.offs[i + 1]
      && q.free == [y] + p.free && q.used == p.used && q.size == p.size && q.maxUsed == p.maxUsed
      && q.avail == p.avail + Payload(q.offs, i + 1)
  {
    SplitNew(p, i, size);
    InPool(p, i);
    UsedInPool(p);
    NotListed(p, p.offs[i] + HEADER + size);
    InsertedAt(p.offs, i, p.offs[i] + HEADER + size);
  }

  lemma PeakedFields(p: Pool)
    ensures var q := Peaked(p);
      && q.offs == p.offs && q.free == p.free && q.used == p.used && q.size == p.size && q.avail == p.avail
      && q.maxUsed == if p.size - p.avail > p.maxUsed then p.size - p.avail else p.maxUsed
  {
  }

  lemma NextAfter(marks: map<Node, bool>, p: Pool, i: nat)
    requires Inv(p) && i + 1 < |p.offs| && Marked(marks, p.offs, p.used)
    ensures p.offs[i + 1] in marks && (!marks[p.offs[i + 1]] <==> p.offs[i + 1] in p.free)
      && p.offs[i + 1] != FREE_HEADER
    ensures p.offs[i + 1] in p.free ==> i + 2 < |p.offs|
  {
    FreeAtIff(p, i + 1);
    InPool(p, i + 1);
    LayoutStep(p, i);
  }

  class MemHeap {
    const poolSize: int
    const bytes: array<int>       // the payload bytes; header fields are kept apart, in the maps
    var next: Links
    var prev: Links
    var nextFree: Links
    var prevFree: Links
    var used: map<Node, bool>     // the RT_MEMHEAP_USED bit of magic
    var availableSize: int
    var maxUsedSize: int

    // ----- the two rings -----

    /** header->prev and header->next give the block up to each other. */
    method RemoveBlock(x: Node, ghost offs: seq<Node>, ghost i: nat)
      requires Ring(next, prev, offs) && 0 < i < |offs| && offs[i] == x
      modifies this`next, this`prev
      ensures Ring(next, prev, Removed(offs, i))
    {
      RemoveRing(next, prev, offs, i);
      var before, after := prev[x], next[x];
      ghost var n, p := next, prev;
      next := next[before := after];
      prev := prev[after := before];
      assert next == RemoveNext(n, p, x) && prev == RemovePrev(n, p, x);
    }

    method InsertBlock(h: Node, x: Node, ghost offs: seq<Node>, ghost i: nat)
      requires Ring(next, prev, offs) && i < |offs| && offs[i] == h && x !in offs
      modifies this`next, this`prev
      ensures Ring(next, prev, Inserted(offs, i, x))
    {
      InsertRing(next, prev, offs, i, x);
      ghost var n, p := next, prev;
      prev := prev[x := h];
      var after := next[h];
      next := next[x := after];
      prev := prev[after := x];
      next := next[h := x];
      assert next == InsertNext(n, h, x) && prev == InsertPrev(n, p, h, x);
    }

    method UnlinkFree(x: Node, ghost free: seq<Node>)
      requires Ring(nextFree, prevFree, FreeRing(free)) && x in free && x != FREE_HEADER
      modifies this`nextFree, this`prevFree
      ensures Ring(nextFree, prevFree, FreeRing(Without(free, x)))
    {
      FreeRingWithout(free, x);
      RemoveRing(nextFree, prevFree, FreeRing(free), IndexOf(free, x) + 1);
      ghost var n, p := nextFree, prevFree;
      var before, after := prevFree[x], nextFree[x];
      prevFree := prevFree[after := before];
      nextFree := nextFree[before := after];
      assert nextFree == RemoveNext(n, p, x) && prevFree == RemovePrev(n, p, x);
    }

    method PushFree(x: Node, ghost free: seq<Node>)
      requires Ring(nextFree, prevFree, FreeRing(free)) && x !in FreeRing(free)
      modifies this`nextFree, this`prevFree
      ensures Ring(nextFree, prevFree, FreeRing([x] + free))
    {
      FreeRingFront(free, x);
      InsertRing(nextFree, prevFree, FreeRing(free), 0, x);
      ghost var n, p := nextFree, prevFree;
      var first := nextFree[FREE_HEADER];
      nextFree := nextFree[x := first];
      prevFree := prevFree[x := FREE_HEADER];
      prevFree := prevFree[first := x];
      nextFree := nextFree[FREE_HEADER := x];
      assert nextFree == InsertNext(n, FREE_HEADER, x) && prevFree == InsertPrev(n, p, FREE_HEADER, x);
    }

    ghost var pool: Pool

    /** The rings are those of the two lists of the pool, the marks and counters are its own. */
    ghost predicate Shows(p: Pool)
      reads this`next, this`prev, this`nextFree, this`prevFree, this`used, this`availableSize, this`maxUsedSize
    {
      && p.size == poolSize
      && Ring(next, prev, p.offs) && Ring(nextFree, prevFree, FreeRing(p.free))
      && Marked(used, p.offs, p.used) && availableSize == p.avail && maxUsedSize == p.maxUsed
    }

    ghost predicate Valid() reads this { Inv(pool) && Shows(pool) && bytes.Length == poolSize }

    /** Every live block but the one at ptr holds what it held in c. */
    ghost predicate OthersHold(c: seq<int>, p: Pool, ptr: int)
      reads bytes
    {
      forall a :: Live(p, a) && a != ptr ==> Copied(c, bytes[..], a, a, SizeAt(p.offs, a - HEADER))
    }

    /** One free block from the start of the pool to the tailer. */
    constructor (size: nat)
      requires size >= 2 * HEADER && size < 0x1_0000_0000
      ensures Valid() && pool == NewPool(size / 4 * 4) && fresh(bytes)
    {
      var n := size / 4 * 4;
      bytes := new int[n](_ => 0);
      poolSize := n;
      availableSize := n - 2 * HEADER;
      maxUsedSize := n - (n - 2 * HEADER);
      var tail := n - HEADER;
      next, prev := map[0 := tail, tail := 0], map[0 := tail, tail := 0];
      nextFree, prevFree := map[FREE_HEADER := 0, 0 := FREE_HEADER], map[FREE_HEADER := 0, 0 := FREE_HEADER];
      used := map[0 := false, tail := true];
      pool := NewPool(n);
      new;
      NewPoolKeeps(n);
      InitialRings(tail);
    }

    /** MEMITEM_SIZE. */
    function Size(x: Node): int
      requires x in next
      reads this
    {
      next[x] - x - HEADER
    }

    lemma ShowsParts(p: Pool)
      requires Shows(p)
      ensures p.size == poolSize && Ring(next, prev, p.offs) && Ring(nextFree, prevFree, FreeRing(p.free))
      ensures Marked(used, p.offs, p.used) && availableSize == p.avail && maxUsedSize == p.maxUsed
    {
    }

    lemma ShowsFrom(p: Pool)
      requires p.size == poolSize && Ring(next, prev, p.offs) && Ring(nextFree, prevFree, FreeRing(p.free))
      requires Marked(used, p.offs, p.used) && availableSize == p.avail && maxUsedSize == p.maxUsed
      ensures Shows(p)
    {
    }

    method NotePeak()
      modifies this`maxUsedSize
      ensures maxUsedSize == if poolSize - availableSize > old(maxUsedSize) then poolSize - availableSize
        else old(maxUsedSize)
    {
      if poolSize - availableSize > maxUsedSize { maxUsedSize := poolSize - availableSize; }
    }

    // ----- rt_memheap_alloc -----

    /** Put the new block y after x and x's place on the free list goes to it. */
    method SplitBlock(x: Node, y: Node, ghost offs: seq<Node>, ghost free: seq<Node>, ghost i: nat)
      requires Ring(next, prev, offs) && Ring(nextFree, prevFree, FreeRing(free))
      requires i < |offs| && offs[i] == x && y !in offs && x in free && x != FREE_HEADER
        && y !in FreeRing(Without(free, x))
      modifies this`next, this`prev, this`nextFree, this`prevFree, this`used
      ensures Ring(next, prev, Inserted(offs, i, y)) && Ring(nextFree, prevFree, FreeRing([y] + Without(free, x)))
      ensures used == old(used)[y := false]
    {
      hide *;
      used := used[y := false];
      InsertBlock(x, y, offs, i);
      UnlinkFree(x, free);
      PushFree(y, Without(free, x));
    }

    method TakeSplit(x: Node, size: nat, ghost p: Pool, ghost i: nat)
      requires Shows(p) && Inv(p) && i + 1 < |p.offs| && p.offs[i] == x && x in p.free && Aligned(size)
      requires Payload(p.offs, i) >= size + HEADER + MIN_ALLOC
      modifies this`next, this`prev, this`nextFree, this`prevFree, this`used, this`availableSize, this`maxUsedSize
      ensures Shows(TakeAt(p, i, size))
    {
      FreeStart(p, x);
      UsedInPool(p);
      TakenFields(p, i, size);
      SplitNew(p, i, size);
      NewInFreeRing(p, x, x + size + HEADER);
      MarkedSplit(used, p.offs, p.used, i, x + size + HEADER);
      hide Inv, TakeAt, Ring, Marked, FreeRing, Without, Inserted, Aligned, Distinct, Elems;
      SplitBlock(x, x + size + HEADER, p.offs, p.free, i);
      availableSize := availableSize - size - HEADER;
      NotePeak();
      used := used[x := true];
    }

    method TakeWhole(x: Node, ghost size: nat, ghost p: Pool, ghost i: nat)
      requires Shows(p) && Inv(p) && i + 1 < |p.offs| && p.offs[i] == x && x in p.free && Aligned(size)
      requires Payload(p.offs, i) < size + HEADER + MIN_ALLOC
      modifies this`next, this`prev, this`nextFree, this`prevFree, this`used, this`availableSize, this`maxUsedSize
      ensures Shows(TakeAt(p, i, size))
    {
      FreeStart(p, x);
      TakenFields(p, i, size);
      RingNext(next, prev, p.offs, i);
      MarkedSet(used, p.offs, p.used, x);
      hide Inv, TakeAt, Ring, Marked, FreeRing, Without, Aligned, Distinct, Elems;
      availableSize := availableSize - Size(x);
      NotePeak();
      UnlinkFree(x, p.free);
      used := used[x := true];
    }

    /** Hand out the free block x: split it if what is left over can be a block. */
    method Take(x: Node, size: nat)
      requires Valid() && x in pool.free && Aligned(size)
      modifies this
      ensures Valid() && x in old(pool).offs && BlockAt(old(pool), x) + 1 < |old(pool).offs|
      ensures pool == TakeAt(old(pool), BlockAt(old(pool), x), size)
    {
      ghost var p := pool;
      FreeInPool(p, x);
      ghost var i := BlockAt(p, x);
      TakeKeeps(p, i, size);
      RingNext(next, prev, p.offs, i);
      hide Inv, TakeAt, Ring, Shows, Aligned;
      if Size(x) >= size + HEADER + MIN_ALLOC {
        TakeSplit(x, size, p, i);
      } else {
        TakeWhole(x, size, p, i);
      }
      pool := TakeAt(p, i, size);
    }

    /** The first block of the free list that is large enough, and its size. */
    method Search(size: nat) returns (header: Node, freeSize: int, ghost k: nat)
      requires Valid() && size > 0
      ensures k <= |pool.free| && Searching(pool, size, k, header, freeSize)
        && (header == FREE_HEADER || freeSize >= size)
    {
      ghost var p := pool;
      FreeRingAt(nextFree, prevFree, p.free, 0);
      header, freeSize := nextFree[FREE_HEADER], 0;
      k := 0;
      while header != FREE_HEADER && freeSize < size
        invariant k <= |p.free| && Searching(p, size, k, header, freeSize)
        decreases |p.free| - k, freeSize < size
      {
        SearchedSize(next, prev, p, k);
        freeSize := Size(header);
        if freeSize < size {
          FreeRingAt(nextFree, prevFree, p.free, k + 1);
          header := nextFree[header];
          k := k + 1;
        }
      }
    }

    /** rt_memheap_alloc. */
    method AllocSized(size: nat) returns (ptr: int)
      requires Valid() && Aligned(size) && size > 0
      modifies this
      ensures Valid() && Given(pool, ptr) == MemPoolRuns.AllocSized(old(pool), size)
    {
      ptr := NOTHING;
      ghost var p := pool;
      if size < availableSize {
        var header, freeSize;
        ghost var k: nat;
        header, freeSize, k := Search(size);
        SearchDone(p, size, k, header, freeSize);
        if freeSize >= size {
          Take(header, size);
          ptr := header + HEADER;
        }
      }
    }

    method Alloc(n: nat) returns (ptr: int)
      requires Valid() && n < 0x1_0000_0000
      modifies this
      ensures Valid() && Given(pool, ptr) == MemPoolRuns.Alloc(old(pool), n)
    {
      RequestAligned(n);
      ptr := AllocSized(Request(n));
    }

    // ----- rt_memheap_free -----

    /** Join a block whose mark was just cleared to a free block before it. */
    method MergeLeft(x: Node, ghost p: Pool, ghost i: nat) returns (header: Node, insertHeader: bool)
      requires Inv(p) && i + 1 < |p.offs| && p.offs[i] == x && x in p.used
      requires Ring(next, prev, p.offs) && Marked(used, p.offs, p.used - {x})
      modifies this`next, this`prev, this`availableSize
      ensures insertHeader == !JoinsLeft(p, i) && header == (if JoinsLeft(p, i) then p.offs[i - 1] else p.offs[i])
      ensures Ring(next, prev, AfterLeft(p, i))
      ensures availableSize == old(availableSize) + (if JoinsLeft(p, i) then HEADER else 0)
    {
      header, insertHeader := x, true;
      RingNext(next, prev, p.offs, i);
      PrevMark(used, p, i);
      hide Inv, Ring, Marked;
      if !used[prev[x]] {
        availableSize := availableSize + HEADER;
        header := prev[x];
        RemoveBlock(x, p.offs, i);
        insertHeader := false;
      }
    }

    /** Join a free block with a free block after it. */
    method MergeRight(header: Node, ghost offs: seq<Node>, ghost h: nat, ghost free: seq<Node>)
      requires h + 1 < |offs| && offs[h] == header && Ring(next, prev, offs) && Ring(nextFree, prevFree, FreeRing(free))
      requires offs[h + 1] in used && (!used[offs[h + 1]] <==> offs[h + 1] in free) && offs[h + 1] != FREE_HEADER
      modifies this`next, this`prev, this`nextFree, this`prevFree, this`availableSize
      ensures var right := offs[h + 1] in free;
        && Ring(next, prev, if right then Removed(offs, h + 1) else offs)
        && Ring(nextFree, prevFree, FreeRing(if right then Without(free, offs[h + 1]) else free))
        && availableSize == old(availableSize) + (if right then HEADER else 0)
    {
      RingNext(next, prev, offs, h);
      hide Ring, FreeRing, Without, Removed;
      if !used[next[header]] {
        availableSize := availableSize + HEADER;
        var y := next[header];
        RemoveBlock(y, offs, h + 1);
        UnlinkFree(y, free);
      }
    }

    method Free(ptr: int)
      requires Valid() && (ptr == NOTHING || Live(pool, ptr))
      modifies this
      ensures Valid() && pool == MemPoolRuns.Free(old(pool), ptr)
    {
      if ptr != NOTHING {
        ghost var p, i := pool, BlockAt(pool, ptr - HEADER);
        FreeKeeps(p, i);
        FreeBlock(ptr - HEADER, p, i);
        pool := FreeAt(p, i);
      }
    }

    method FreeBlock(x: Node, ghost p: Pool, ghost i: nat)
      requires Shows(p) && Inv(p) && i + 1 < |p.offs| && p.offs[i] == x && x in p.used
      modifies this`next, this`prev, this`nextFree, this`prevFree, this`used, this`availableSize
      ensures (i + 2 < |p.offs| || p.offs[i + 1] !in p.free) && Shows(FreeAt(p, i))
    {
      FreedFields(p, i);
      FreedNotListed(p, i);
      hide Inv, FreeAt, Ring, Marked, FreeRing, FreedList, FreeOffs, FreedBytes, JoinsLeft;
      var insertHeader := MergeFreed(x, p, i);
      if insertHeader { PushFree(x, FreedList(p, i)); }
    }

    method ClearMark(x: Node, ghost p: Pool, ghost i: nat)
      requires Marked(used, p.offs, p.used) && Inv(p) && i + 1 < |p.offs| && p.offs[i] == x && x in p.used
      modifies this`used
      ensures Marked(used, p.offs, p.used - {x}) && Marked(used, FreeOffs(p, i), p.used - {x})
      ensures var y := p.offs[i + 1]; y in used && (!used[y] <==> y in p.free) && y != FREE_HEADER
    {
      MarkedSet(used, p.offs, p.used, x);
      hide Inv, Marked;
      used := used[x := false];
      MarkedFreed(used, p, i);
      NextMark(used, p, i);
    }

    /** Clear the mark and join the block with its free neighbours. */
    method MergeFreed(x: Node, ghost p: Pool, ghost i: nat) returns (insertHeader: bool)
      requires Shows(p) && Inv(p) && i + 1 < |p.offs| && p.offs[i] == x && x in p.used
      modifies this`next, this`prev, this`nextFree, this`prevFree, this`used, this`availableSize
      ensures insertHeader == !JoinsLeft(p, i)
      ensures Ring(next, prev, FreeOffs(p, i)) && Ring(nextFree, prevFree, FreeRing(FreedList(p, i)))
      ensures Marked(used, FreeOffs(p, i), p.used - {x}) && availableSize == p.avail + FreedBytes(p, i)
    {
      RingNext(next, prev, p.offs, i);
      hide Inv, Ring, Marked, FreeRing, Without, Removed, AfterLeft, HeaderAt;
      ClearMark(x, p, i);
      HeaderFacts(p, i);
      availableSize := availableSize + Size(x);
      var header;
      header, insertHeader := MergeLeft(x, p, i);
      MergeRight(header, AfterLeft(p, i), HeaderAt(p, i), p.free);
    }

    // ----- rt_memheap_realloc -----

    /** Take the free block y, which is block k, off both rings. */
    method DropBlock(y: Node, ghost offs: seq<Node>, ghost k: nat, ghost free: seq<Node>)
      requires Ring(next, prev, offs) && Ring(nextFree, prevFree, FreeRing(free))
      requires 0 < k < |offs| && offs[k] == y && y in free && y != FREE_HEADER
      modifies this`next, this`prev, this`nextFree, this`prevFree
      ensures Ring(next, prev, Removed(offs, k)) && Ring(nextFree, prevFree, FreeRing(Without(free, y)))
    {
      hide *;
      UnlinkFree(y, free);
      RemoveBlock(y, offs, k);
    }

    /** Put the new free block y after x, on both rings. */
    method PutBlock(x: Node, y: Node, ghost offs: seq<Node>, ghost i: nat, ghost free: seq<Node>)
      requires Ring(next, prev, offs) && Ring(nextFree, prevFree, FreeRing(free))
      requires i < |offs| && offs[i] == x && y !in offs && y !in FreeRing(free)
      modifies this`next, this`prev, this`nextFree, this`prevFree, this`used
      ensures Ring(next, prev, Inserted(offs, i, y)) && Ring(nextFree, prevFree, FreeRing([y] + free))
      ensures used == old(used)[y := false]
    {
      hide *;
      used := used[y := false];
      InsertBlock(x, y, offs, i);
      PushFree(y, free);
    }

    /** The block takes what it needs from the free block y after it. */
    method Grow(x: Node, y: Node, size: nat, ghost p: Pool, ghost i: nat)
      requires Shows(p) && Inv(p) && i + 2 < |p.offs| && p.offs[i] == x && x in p.used && p.offs[i + 1] == y
        && y in p.free
      requires Aligned(size) && CanGrow(p, i, size)
      modifies this`next, this`prev, this`nextFree, this`prevFree, this`used, this`availableSize, this`maxUsedSize
      ensures Shows(Peaked(MoveEnd(p, i, size)))
    {
      hide Inv, Shows, MoveEnd, Ring, Marked, FreeRing, Without, Removed, Inserted, Peaked, Aligned;
      ShowsParts(p);
      MovedFields(p, i, size);
      MovedNew(p, i, size);
      MarkedMoved(used, p, i, x + HEADER + size);
      RingNext(next, prev, p.offs, i);
      FreeStart(p, y);
      PeakedFields(MoveEnd(p, i, size));
      availableSize := availableSize - (size - Size(x));
      NotePeak();
      DropBlock(y, p.offs, i + 1, p.free);
      PutBlock(x, x + HEADER + size, Removed(p.offs, i + 1), i, Without(p.free, y));
      ShowsFrom(Peaked(MoveEnd(p, i, size)));
    }

    /** The free block after the new free block y joins it. */
    method AbsorbNext(y: Node, ghost offs: seq<Node>, ghost k: nat, ghost free: seq<Node>)
      requires Ring(next, prev, offs) && Ring(nextFree, prevFree, FreeRing(free))
      requires k + 2 < |offs| && offs[k] == y && offs[k + 1] in free && offs[k + 1] != FREE_HEADER
      modifies this`next, this`prev, this`nextFree, this`prevFree, this`availableSize
      ensures Ring(next, prev, Removed(offs, k + 1)) && Ring(nextFree, prevFree, FreeRing(Without(free, offs[k + 1])))
      ensures availableSize == old(availableSize) - Payload(offs, k + 1)
    {
      RingNext(next, prev, offs, k);
      RingNext(next, prev, offs, k + 1);
      hide Ring, FreeRing, Without, Removed;
      var freePtr := next[y];
      availableSize := availableSize - Size(freePtr);
      DropBlock(freePtr, offs, k + 1, free);
    }

    /** The tail of the block becomes free, with the free block after it. */
    method ShrinkIntoFree(x: Node, size: nat, ghost p: Pool, ghost i: nat)
      requires Shows(p) && Inv(p) && i + 2 < |p.offs| && p.offs[i] == x && x in p.used && p.offs[i + 1] in p.free
      requires Aligned(size) && size + HEADER <= Payload(p.offs, i)
      modifies this`next, this`prev, this`nextFree, this`prevFree, this`used, this`availableSize
      ensures Shows(MoveEnd(p, i, size))
    {
      hide Inv, Shows, MoveEnd, Ring, Marked, FreeRing, Without, Removed, Inserted, Aligned;
      ghost var y0 := x + HEADER + size;
      ShowsParts(p);
      ShrinkFacts(p, i, size);
      ghost var offs := Inserted(p.offs, i, y0);
      MarkedMoved(used, p, i, y0);
      var y := x + HEADER + size;
      used := used[y := false];
      InsertBlock(x, y, p.offs, i);
      AbsorbNext(y, offs, i + 1, p.free);
      PushFree(y, Without(p.free, p.offs[i + 1]));
      RingNext(next, prev, MoveEnd(p, i, size).offs, i + 1);
      availableSize := availableSize + Size(y);
      ShowsFrom(MoveEnd(p, i, size));
    }

    /** The tail of the block becomes a free block of its own. */
    method ShrinkAlone(x: Node, size: nat, ghost p: Pool, ghost i: nat)
      requires Shows(p) && Inv(p) && i + 1 < |p.offs| && p.offs[i] == x && x in p.used && p.offs[i + 1] !in p.free
      requires Aligned(size) && size + HEADER <= Payload(p.offs, i)
      modifies this`next, this`prev, this`nextFree, this`prevFree, this`used, this`availableSize
      ensures Shows(ShrinkAt(p, i, size))
    {
      hide Inv, Shows, ShrinkAt, Ring, Marked, FreeRing, Inserted, Aligned;
      ShowsParts(p);
      AloneFacts(p, i, size);
      MarkedSplit(used, p.offs, p.used, i, x + HEADER + size);
      var y := x + HEADER + size;
      PutBlock(x, y, p.offs, i, p.free);
      RingNext(next, prev, ShrinkAt(p, i, size).offs, i + 1);
      availableSize := availableSize + Size(y);
      ShowsFrom(ShrinkAt(p, i, size));
    }

    /** What the headers of block i and of the block after it say. */
    lemma BlockFacts(p: Pool, i: nat)
      requires Shows(p) && Inv(p) && i + 1 < |p.offs|
      ensures p.offs[i] in next && next[p.offs[i]] == p.offs[i + 1] && Size(p.offs[i]) == Payload(p.offs, i)
      ensures p.offs[i + 1] in used && (!used[p.offs[i + 1]] <==> p.offs[i + 1] in p.free) && p.offs[i + 1] in next
      ensures p.offs[i + 1] in p.free ==> i + 2 < |p.offs| && Size(p.offs[i + 1]) == Payload(p.offs, i + 1)
    {
      RingNext(next, prev, p.offs, i);
      NextAfter(used, p, i);
      if i + 2 < |p.offs| { RingNext(next, prev, p.offs, i + 1); }
      assert LinkedAt(next, prev, p.offs, i + 1);
    }

    /** The in-place part of realloc: nothing, when there is less than one block to gain. */
    method Shrink(x: Node, size: nat)
      requires Valid() && Live(pool, x + HEADER) && Aligned(size)
      requires size <= Payload(pool.offs, BlockAt(pool, x))
      modifies this
      ensures Valid() && pool == Resized(old(pool), BlockAt(old(pool), x), size)
      ensures var was := SizeAt(old(pool).offs, x);
        SizeAt(pool.offs, x) == if size + HEADER + MIN_ALLOC < was then size else was
    {
      hide Inv, Shows, MoveEnd, Put, Live, Aligned, SizeAt;
      ghost var p := pool;
      ghost var i := LiveIndex(p, x + HEADER);
      BlockFacts(p, i);
      ResizedKeeps(p, i, size);
      SizeIs(p.offs, i);
      C.ResizedFields(p, i, size);
      if size + HEADER + MIN_ALLOC < Size(x) {
        if !used[next[x]] {
          ShrinkIntoFree(x, size, p, i);
        } else {
          ShrinkAlone(x, size, p, i);
        }
        pool := ShrinkAt(p, i, size);
      }
    }

    /** rt_memheap_realloc: what is returned begins with what the old block held, as far as both reach; every
        other block keeps its contents, and so does the old one if nothing is returned. */
    method Realloc(ptr: int, n: nat) returns (r: int)
      requires Valid() && n < 0x1_0000_0000 && (ptr == NOTHING || Live(pool, ptr)) && !Overreaches(pool, ptr, n)
      modifies this, bytes
      ensures Valid() && Given(pool, r) == MemPoolRuns.Realloc(old(pool), ptr, n)
      ensures OthersHold(old(bytes[..]), old(pool), ptr)
      ensures r == NOTHING || ptr == NOTHING ==> bytes[..] == old(bytes[..])
      ensures r != NOTHING && ptr != NOTHING ==>
        Copied(old(bytes[..]), bytes[..], ptr, r, Min(SizeAt(old(pool).offs, ptr - HEADER), Request(n)))
      ensures r != NOTHING && ptr != NOTHING ==>
        Request(n) <= SizeAt(pool.offs, r - HEADER) <= Request(n) + HEADER + MIN_ALLOC
      ensures n == 0 && ptr != NOTHING ==> r == NOTHING && !Live(pool, ptr)
    {
      RequestAligned(n);
      AllHold();
      if ptr != NOTHING { Fitting(pool, ptr, n); }
      if n == 0 {
        Free(ptr);
        r := NOTHING;
      } else if ptr == NOTHING {
        r := AllocSized(Request(n));
      } else {
        r := Resize(ptr, Request(n));
      }
    }

    /** The block that realloc returns is as long as asked but for less than a block. */
    static lemma Fitting(p: Pool, ptr: int, n: nat)
      requires Inv(p) && Live(p, ptr) && n < 0x1_0000_0000 && !Overreaches(p, ptr, n)
      ensures var g := MemPoolRuns.Realloc(p, ptr, n);
        if n == 0 then g.ptr == NOTHING && !Live(g.pool, ptr)
        else g.ptr != NOTHING ==>
          Request(n) <= SizeAt(g.pool.offs, g.ptr - HEADER) <= Request(n) + HEADER + MIN_ALLOC
    {
      C.ReallocFits(p, ptr, n);
      hide Inv, Live, MemPoolRuns.Realloc, SizeAt, Request, Overreaches;
    }

    lemma AllHold()
      requires Valid()
      ensures OthersHold(bytes[..], pool, NOTHING)
      ensures forall ptr :: OthersHold(bytes[..], pool, ptr)
    {
      forall a | Live(pool, a)
        ensures Copied(bytes[..], bytes[..], a, a, SizeAt(pool.offs, a - HEADER))
      {
        LiveWithin(pool, a);
      }
    }

    method Resize(ptr: int, size: nat) returns (r: int)
      requires Valid() && Live(pool, ptr) && Aligned(size) && 0 < size < 0x1_0000_0000
      requires !Overruns(pool, BlockAt(pool, ptr - HEADER), size)
      modifies this, bytes
      ensures Valid() && Given(pool, r) == Reallocated(old(pool), ptr, size)
      ensures OthersHold(old(bytes[..]), old(pool), ptr) && (r == NOTHING ==> bytes[..] == old(bytes[..]))
      ensures r != NOTHING ==>
        Copied(old(bytes[..]), bytes[..], ptr, r, Min(SizeAt(old(pool).offs, ptr - HEADER), size))
    {
      AllHold();
      LiveWithin(pool, ptr);
      hide Inv, Shows, Live, Aligned, Moved, OthersHold, SizeAt, Overruns, Reallocated, CanGrow;
      SizeRead(ptr);
      var oldSize := Size(ptr - HEADER);
      var kept := Keep(ptr, size);
      if kept {
        r := ptr;
        SameIsCopied(bytes[..], ptr, Min(oldSize, size));
      } else {
        r := Relocate(ptr, size, oldSize);
      }
    }

    /** Stay in place, growing or shrinking, where that can be. */
    method Keep(ptr: int, size: nat) returns (kept: bool)
      requires Valid() && Live(pool, ptr) && Aligned(size) && 0 < size < 0x1_0000_0000
      requires !Overruns(pool, BlockAt(pool, ptr - HEADER), size)
      modifies this
      ensures Valid() && (kept ==> Given(pool, ptr) == Reallocated(old(pool), ptr, size))
      ensures !kept ==>
        && pool == old(pool) && SizeAt(pool.offs, ptr - HEADER) < size
        && Reallocated(pool, ptr, size) == Moved(pool, ptr, size)
    {
      hide Inv, Shows, MoveEnd, Peaked, Live, Aligned, Moved;
      ghost var p := pool;
      ghost var i := LiveIndex(p, ptr);
      var x := ptr - HEADER;
      BlockFacts(p, i);
      kept := true;
      if size > Size(x) {
        var y := next[x];
        if !used[y] && Size(y) + Size(x) > (size + MIN_ALLOC) % 0x1_0000_0000 {
          ResizedKeeps(p, i, size);
          Grow(x, y, size, p, i);
          pool := Peaked(MoveEnd(p, i, size));
        } else {
          kept := false;
        }
      } else {
        Shrink(x, size);
      }
    }

    lemma SizeRead(ptr: int)
      requires Valid() && Live(pool, ptr)
      ensures ptr - HEADER in next && Size(ptr - HEADER) == SizeAt(pool.offs, ptr - HEADER)
    {
      var i := LiveIndex(pool, ptr);
      BlockFacts(pool, i);
    }

    /** A new block for the old one, with its oldSize bytes. */
    method Relocate(ptr: int, size: nat, oldSize: int) returns (r: int)
      requires Valid() && Live(pool, ptr) && Aligned(size) && size > 0
      requires oldSize == SizeAt(pool.offs, ptr - HEADER) < size
      modifies this, bytes
      ensures Valid() && Given(pool, r) == Moved(old(pool), ptr, size)
      ensures OthersHold(old(bytes[..]), old(pool), ptr) && (r == NOTHING ==> bytes[..] == old(bytes[..]))
      ensures r != NOTHING ==> Copied(old(bytes[..]), bytes[..], ptr, r, oldSize)
    {
      ghost var p, c := pool, bytes[..];
      AllHold();
      AllocSizedKeepsOthers(p, size, ptr);
      hide Inv, Shows, MemPoolRuns.AllocSized, Live, OthersHold, SizeAt;
      r := AllocSized(size);
      if r != NOTHING {
        NewBeside(p, size, ptr);
        Memcpy(bytes, r, ptr, if oldSize < size then oldSize else size);
        OthersBeside(c, p, size, ptr, oldSize);
        Free(ptr);
      }
    }

    /** The copying leaves the blocks beside the new one. */
    lemma OthersBeside(c: seq<int>, p: Pool, size: nat, ptr: int, m: int)
      requires Inv(p) && Aligned(size) && MemPoolRuns.AllocSized(p, size).ptr != NOTHING && 0 <= m <= size
      requires |c| == p.size && SameOutside(c, bytes[..], MemPoolRuns.AllocSized(p, size).ptr, m)
      ensures OthersHold(c, p, ptr)
    {
      hide Inv, MemPoolRuns.AllocSized, Live, Aligned, SizeAt;
      forall a | Live(p, a) && a != ptr
        ensures Copied(c, bytes[..], a, a, SizeAt(p.offs, a - HEADER))
      {
        NewBeside(p, size, a);
        KeptBeside(c, bytes[..], MemPoolRuns.AllocSized(p, size).ptr, m, a, SizeAt(p.offs, a - HEADER));
      }
    }
  }
}
