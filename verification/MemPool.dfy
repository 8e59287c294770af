/** A memheap pool as two lists over one range of bytes: the blocks in address order, the free blocks in
    the order of the free list, and the count of available bytes. */
module MemPool {
  import opened Lists
  import opened LinkedRings

  const HEADER := 24        // RT_MEMHEAP_SIZE
  const MIN_ALLOC := 12     // RT_MEMHEAP_MINIALLOC

  /** offs are the offsets of the block headers, the tailer last; used are those marked used (the tailer
      among them); free is the free list from its head. */
  datatype Pool = Pool(size: int, offs: seq<Node>, used: set<Node>, free: seq<Node>, avail: int, maxUsed: int)

  /** The bytes of a block after its header. */
  function Payload(offs: seq<Node>, i: nat): int
    requires i + 1 < |offs|
  {
    offs[i + 1] - offs[i] - HEADER
  }

  predicate Aligned(x: int) { x % 4 == 0 }

  lemma AlignedSum(x: int, size: int)
    requires Aligned(x) && Aligned(size)
    ensures Aligned(x + size + HEADER) && Aligned(x + HEADER + size)
  {
  }

  predicate Spaced(offs: seq<Node>, i: nat)
    requires i + 1 < |offs|
  {
    offs[i] + HEADER <= offs[i + 1] && Aligned(offs[i])
  }

  /** The blocks tile the pool from 0 to the tailer. */
  predicate Layout(offs: seq<Node>, size: int) {
    && |offs| >= 2 && offs[0] == 0 && offs[|offs| - 1] == size - HEADER && Aligned(size)
    && forall i :: 0 <= i < |offs| - 1 ==> Spaced(offs, i)
  }

  function Weight(offs: seq<Node>, used: set<Node>, i: nat): int
    requires i + 1 < |offs|
  {
    if offs[i] in used then 0 else Payload(offs, i)
  }

  /** The payload bytes of all free blocks. */
  function FreeSum(offs: seq<Node>, used: set<Node>): int {
    if |offs| < 2 then 0 else Weight(offs, used, 0) + FreeSum(offs[1..], used)
  }

  predicate NotBothFree(offs: seq<Node>, used: set<Node>, i: nat)
    requires i + 1 < |offs|
  {
    offs[i] in used || offs[i + 1] in used
  }

  predicate NoTwoFree(offs: seq<Node>, used: set<Node>) {
    forall i :: 0 <= i < |offs| - 1 ==> NotBothFree(offs, used, i)
  }

  /** The free list has each unused block once; the tailer is used. */
  predicate Agree(offs: seq<Node>, used: set<Node>, free: seq<Node>) {
    && offs != [] && offs[|offs| - 1] in used && used <= Elems(offs)
    && Distinct(free) && Elems(free) == Elems(offs) - used
  }

  /** The blocks tile the pool; the two lists agree; no two neighbours are free; the count is the sum of the
      free payloads. */
  predicate Consistent(p: Pool) {
    Layout(p.offs, p.size) && Agree(p.offs, p.used, p.free) && NoTwoFree(p.offs, p.used)
      && p.avail == FreeSum(p.offs, p.used)
  }

  /** What every operation keeps. */
  predicate Inv(p: Pool) { Consistent(p) && p.size - p.avail <= p.maxUsed }

  // ----- layout -----

  lemma {:induction false} Increasing(offs: seq<Node>, size: int, i: nat, j: nat)
    requires Layout(offs, size) && i < j < |offs|
    ensures offs[i] + HEADER <= offs[j]
    decreases j
  {
    assert Spaced(offs, j - 1);
    if i < j - 1 { Increasing(offs, size, i, j - 1); }
  }

  lemma LayoutDistinct(offs: seq<Node>, size: int)
    requires Layout(offs, size)
    ensures Distinct(offs)
  {
    forall i, j | 0 <= i < j < |offs|
      ensures offs[i] != offs[j]
    {
      Increasing(offs, size, i, j);
    }
  }

  /** A new header inside a block. */
  lemma InsertLayout(offs: seq<Node>, size: int, i: nat, y: Node)
    requires Layout(offs, size) && i + 1 < |offs| && Aligned(y)
    requires offs[i] + HEADER <= y && y + HEADER <= offs[i + 1]
    ensures Layout(Inserted(offs, i, y), size) && y !in offs
  {
    var t := Inserted(offs, i, y);
    forall k | 0 <= k < |t| - 1
      ensures Spaced(t, k)
    {
      if k < i { assert Spaced(offs, k); }
      else if k > i + 1 { assert Spaced(offs, k - 1); }
      else { assert Spaced(offs, i); }
    }
    forall k | 0 <= k < |offs|
      ensures offs[k] != y
    {
      if k < i { Increasing(offs, size, k, i); }
      if k > i + 1 { Increasing(offs, size, i + 1, k); }
    }
  }

  /** A header dropped: the block joins the one before it. */
  lemma RemoveLayout(offs: seq<Node>, size: int, i: nat)
    requires Layout(offs, size) && 0 < i < |offs| - 1
    ensures Layout(Removed(offs, i), size)
  {
    var t := Removed(offs, i);
    forall k | 0 <= k < |t| - 1
      ensures Spaced(t, k)
    {
      assert Spaced(offs, if k < i then k else k + 1);
      if k == i - 1 { assert Spaced(offs, i); }
    }
  }

  // ----- the sum -----

  lemma {:induction false} SumSplit(offs: seq<Node>, used: set<Node>, i: nat)
    requires i < |offs|
    ensures FreeSum(offs, used) == FreeSum(offs[..i + 1], used) + FreeSum(offs[i..], used)
  {
    if i == 0 {
      assert offs[0..] == offs;
    } else {
      SumSplit(offs[1..], used, i - 1);
      assert offs[1..][..i] == offs[..i + 1][1..] && offs[1..][i - 1..] == offs[i..];
    }
  }

  lemma SumPair(x: Node, y: Node, used: set<Node>)
    ensures FreeSum([x, y], used) == if x in used then 0 else y - x - HEADER
  {
    assert [x, y][1..] == [y];
  }

  /** The sum is made of what is before a block, the block, and what is after it. */
  lemma SumAround(offs: seq<Node>, used: set<Node>, i: nat)
    requires i + 1 < |offs|
    ensures FreeSum(offs, used) == FreeSum(offs[..i + 1], used) + Weight(offs, used, i) + FreeSum(offs[i + 1..], used)
  {
    SumSplit(offs, used, i);
    assert offs[i..][1..] == offs[i + 1..];
  }

  lemma {:induction false} SumSame(offs: seq<Node>, u: set<Node>, v: set<Node>)
    requires forall k :: 0 <= k < |offs| - 1 ==> (offs[k] in u <==> offs[k] in v)
    ensures FreeSum(offs, u) == FreeSum(offs, v)
  {
    if |offs| >= 2 { SumSame(offs[1..], u, v); }
  }

  /** Marking a free block used takes its payload off the sum. */
  lemma SumMark(offs: seq<Node>, used: set<Node>, i: nat)
    requires Distinct(offs) && i + 1 < |offs| && offs[i] !in used
    ensures FreeSum(offs, used + {offs[i]}) == FreeSum(offs, used) - Payload(offs, i)
  {
    var more := used + {offs[i]};
    SumAround(offs, used, i);
    SumAround(offs, more, i);
    SumSame(offs[..i + 1], used, more);
    SumSame(offs[i + 1..], used, more);
  }

  /** A new free header in a used block adds what is after it. */
  lemma SumInsert(offs: seq<Node>, used: set<Node>, i: nat, y: Node)
    requires i + 1 < |offs| && offs[i] in used && y !in used
    ensures FreeSum(Inserted(offs, i, y), used) == FreeSum(offs, used) + (offs[i + 1] - y - HEADER)
  {
    var t := Inserted(offs, i, y);
    SumAround(offs, used, i);
    SumAround(t, used, i);
    assert t[..i + 1] == offs[..i + 1];
    SumAround(t[i + 1..], used, 0);
    assert t[i + 1..][1..] == offs[i + 1..];
    assert FreeSum([y], used) == 0 && t[i + 1..][..1] == [y];
  }

  /** Dropping the header between two free blocks adds the header. */
  lemma SumRemove(offs: seq<Node>, used: set<Node>, i: nat)
    requires 0 < i < |offs| - 1 && offs[i] !in used && offs[i - 1] !in used
    ensures FreeSum(Removed(offs, i), used) == FreeSum(offs, used) + HEADER
  {
    var t := Removed(offs, i);
    SumAround(offs, used, i - 1);
    SumAround(offs[i..], used, 0);
    SumAround(t, used, i - 1);
    assert t[..i] == offs[..i];
    assert t[i..] == offs[i + 1..];
    assert offs[i..][1..] == offs[i + 1..];
    assert FreeSum([offs[i]], used) == 0 && offs[i..][..1] == [offs[i]];
  }

  /** Dropping the free header after a used block takes its payload off. */
  lemma SumDrop(offs: seq<Node>, used: set<Node>, i: nat)
    requires 0 < i < |offs| - 1 && offs[i] !in used && offs[i - 1] in used
    ensures FreeSum(Removed(offs, i), used) == FreeSum(offs, used) - Payload(offs, i)
  {
    var t := Removed(offs, i);
    SumAround(offs, used, i - 1);
    SumAround(offs[i..], used, 0);
    SumAround(t, used, i - 1);
    assert t[..i] == offs[..i];
    assert t[i..] == offs[i + 1..];
    assert offs[i..][1..] == offs[i + 1..];
    assert FreeSum([offs[i]], used) == 0 && offs[i..][..1] == [offs[i]];
  }

  lemma {:induction false} SumNonNegative(offs: seq<Node>, used: set<Node>)
    requires forall i :: 0 <= i < |offs| - 1 ==> Spaced(offs, i)
    ensures FreeSum(offs, used) >= 0
  {
    if |offs| >= 2 {
      assert Spaced(offs, 0);
      forall i | 0 <= i < |offs[1..]| - 1
        ensures Spaced(offs[1..], i)
      {
        assert Spaced(offs, i + 1);
      }
      SumNonNegative(offs[1..], used);
    }
  }

  // ----- operations -----

  const NOTHING := -1

  /** Take an entry off the free list. */
  function Without(free: seq<Node>, x: Node): seq<Node>
    requires x in free
  {
    Removed(free, IndexOf(free, x))
  }

  /** RT_ALIGN of a 32-bit size, then the least size of an allocation. */
  function Request(n: nat): nat
    requires n < 0x1_0000_0000
  {
    var up := (n + 3) % 0x1_0000_0000 / 4 * 4;
    if up < MIN_ALLOC then MIN_ALLOC else up
  }

  /** A pool as it begins: one free block before the tailer. */
  function NewPool(n: nat): Pool { Pool(n, [0, n - HEADER], {n - HEADER}, [0], n - 2 * HEADER, 2 * HEADER) }

  // The five steps the operations are made of.

  /** Mark the free block at i used and take it off the free list. */
  function Use(p: Pool, i: nat): Pool
    requires i + 1 < |p.offs| && p.offs[i] in p.free
  {
    p.(used := p.used + {p.offs[i]}, free := Without(p.free, p.offs[i]), avail := p.avail - Payload(p.offs, i))
  }

  /** A new free block inside the used block at i, from y to the end of it. */
  function Put(p: Pool, i: nat, y: Node): Pool
    requires i + 1 < |p.offs|
  {
    p.(offs := Inserted(p.offs, i, y), free := [y] + p.free, avail := p.avail + (p.offs[i + 1] - y - HEADER))
  }

  /** The free block at i becomes part of the used block before it. */
  function Drop(p: Pool, i: nat): Pool
    requires i + 1 < |p.offs| && p.offs[i] in p.free
  {
    p.(offs := Removed(p.offs, i), free := Without(p.free, p.offs[i]), avail := p.avail - Payload(p.offs, i))
  }

  /** The used block at i becomes free, on its own. */
  function Release(p: Pool, i: nat): Pool
    requires i + 1 < |p.offs|
  {
    p.(used := p.used - {p.offs[i]}, free := [p.offs[i]] + p.free, avail := p.avail + Payload(p.offs, i))
  }

  /** The used block at i becomes part of the free block before it. */
  function JoinLeft(p: Pool, i: nat): Pool
    requires i + 1 < |p.offs|
  {
    p.(offs := Removed(p.offs, i), used := p.used - {p.offs[i]}, avail := p.avail + Payload(p.offs, i) + HEADER)
  }

  function Peaked(p: Pool): Pool { if p.size - p.avail > p.maxUsed then p.(maxUsed := p.size - p.avail) else p }

  // The operations.

  /** Hand out the free block at i: split it when what is left over can be a block. */
  function TakeAt(p: Pool, i: nat, size: nat): Pool
    requires i + 1 < |p.offs| && p.offs[i] in p.free
  {
    if Payload(p.offs, i) >= size + HEADER + MIN_ALLOC then Peaked(Put(Use(p, i), i, p.offs[i] + size + HEADER))
    else Peaked(Use(p, i))
  }

  /** Release the used block at i, joining it with free neighbours. */
  function FreeAt(p: Pool, i: nat): Pool
    requires i + 2 < |p.offs| || (i + 1 < |p.offs| && p.offs[i + 1] !in p.free)
  {
    var q := if p.offs[i + 1] in p.free then Drop(p, i + 1) else p;
    if i > 0 && p.offs[i - 1] in p.free then JoinLeft(q, i) else Release(q, i)
  }

  /** The end of the used block at i moves, into or back from the free block after it. */
  function MoveEnd(p: Pool, i: nat, size: nat): Pool
    requires i + 2 < |p.offs| && p.offs[i + 1] in p.free
  {
    Put(Drop(p, i + 1), i, p.offs[i] + HEADER + size)
  }

  predicate CanGrow(p: Pool, i: nat, size: nat) {
    i + 2 < |p.offs| && p.offs[i + 1] in p.free
    && Payload(p.offs, i + 1) + Payload(p.offs, i) > size + MIN_ALLOC
  }

  /** The tail of the used block at i becomes a free block, joined with the one after it if that is free. */
  function ShrinkAt(p: Pool, i: nat, size: nat): Pool
    requires i + 1 < |p.offs|
  {
    if i + 2 < |p.offs| && p.offs[i + 1] in p.free then MoveEnd(p, i, size)
    else Put(p, i, p.offs[i] + HEADER + size)
  }

  // ----- sets of the lists -----

  lemma InsertedElems(s: seq<Node>, i: nat, x: Node)
    requires i < |s|
    ensures Elems(Inserted(s, i, x)) == Elems(s) + {x}
  {
    assert s == s[..i + 1] + s[i + 1..];
  }

  lemma RemovedElems(s: seq<Node>, i: nat)
    requires i < |s| && Distinct(s)
    ensures Elems(Removed(s, i)) == Elems(s) - {s[i]} && Distinct(Removed(s, i))
  {
    RemovedAt(s, i);
    assert s == s[..i] + [s[i]] + s[i + 1..];
  }

  lemma WithoutElems(free: seq<Node>, x: Node)
    requires x in free && Distinct(free)
    ensures Elems(Without(free, x)) == Elems(free) - {x} && Distinct(Without(free, x))
  {
    RemovedElems(free, IndexOf(free, x));
  }

  // ----- neighbours under the steps -----

  lemma MarkNoTwoFree(offs: seq<Node>, used: set<Node>, x: Node)
    requires NoTwoFree(offs, used)
    ensures NoTwoFree(offs, used + {x})
  {
    forall k | 0 <= k < |offs| - 1
      ensures NotBothFree(offs, used + {x}, k)
    {
      assert NotBothFree(offs, used, k);
    }
  }

  /** A new free block between two used ones. */
  lemma InsertNoTwoFree(offs: seq<Node>, used: set<Node>, i: nat, y: Node)
    requires NoTwoFree(offs, used) && i + 1 < |offs| && offs[i] in used && offs[i + 1] in used
    ensures NoTwoFree(Inserted(offs, i, y), used)
  {
    var t := Inserted(offs, i, y);
    forall k | 0 <= k < |t| - 1
      ensures NotBothFree(t, used, k)
    {
      if k < i { assert NotBothFree(offs, used, k); }
      if k > i + 1 { assert NotBothFree(offs, used, k - 1); }
    }
  }

  /** A free block dropped. */
  lemma RemoveNoTwoFree(offs: seq<Node>, used: set<Node>, i: nat)
    requires NoTwoFree(offs, used) && 0 < i < |offs| - 1 && offs[i] !in used
    ensures NoTwoFree(Removed(offs, i), used) && offs[i - 1] in used && offs[i + 1] in used
  {
    var t := Removed(offs, i);
    assert NotBothFree(offs, used, i - 1) && NotBothFree(offs, used, i);
    forall k | 0 <= k < |t| - 1
      ensures NotBothFree(t, used, k)
    {
      assert NotBothFree(offs, used, if k < i then k else k + 1);
    }
  }

  /** A block freed between two used ones. */
  lemma FreedNoTwoFree(offs: seq<Node>, used: set<Node>, i: nat)
    requires NoTwoFree(offs, used) && Distinct(offs) && i + 1 < |offs| && offs[i + 1] in used
      && (i > 0 ==> offs[i - 1] in used)
    ensures NoTwoFree(offs, used - {offs[i]})
  {
    forall k | 0 <= k < |offs| - 1
      ensures NotBothFree(offs, used - {offs[i]}, k)
    {
      assert NotBothFree(offs, used, k);
    }
  }

  /** A used block joined with the free one before it. */
  lemma JoinNoTwoFree(offs: seq<Node>, used: set<Node>, i: nat)
    requires NoTwoFree(offs, used) && Distinct(offs) && 0 < i < |offs| - 1 && offs[i + 1] in used
    ensures NoTwoFree(Removed(offs, i), used - {offs[i]})
  {
    var t := Removed(offs, i);
    forall k | 0 <= k < |t| - 1
      ensures NotBothFree(t, used - {offs[i]}, k)
    {
      assert NotBothFree(offs, used, if k < i then k else k + 1);
    }
  }

  // ----- the two lists under the steps -----

  lemma AgreeTake(offs: seq<Node>, used: set<Node>, free: seq<Node>, x: Node)
    requires Agree(offs, used, free) && x in free
    ensures x in offs && x !in used && Agree(offs, used + {x}, Without(free, x))
  {
    WithoutElems(free, x);
    assert x in Elems(free);
  }

  lemma AgreeInsert(offs: seq<Node>, used: set<Node>, free: seq<Node>, i: nat, y: Node)
    requires Agree(offs, used, free) && i + 1 < |offs| && y !in offs
    ensures Agree(Inserted(offs, i, y), used, [y] + free) && y !in used
  {
    InsertedElems(offs, i, y);
    assert y !in Elems(offs);
    FrontElems(y, free);
  }

  lemma AgreeDrop(offs: seq<Node>, used: set<Node>, free: seq<Node>, i: nat)
    requires Agree(offs, used, free) && i + 1 < |offs| && offs[i] in free && Distinct(offs)
    ensures Agree(Removed(offs, i), used, Without(free, offs[i]))
  {
    RemovedElems(offs, i);
    WithoutElems(free, offs[i]);
    assert offs[i] in Elems(free);
  }

  lemma AgreeRelease(offs: seq<Node>, used: set<Node>, free: seq<Node>, i: nat)
    requires Agree(offs, used, free) && i + 1 < |offs| && offs[i] in used && Distinct(offs)
    ensures Agree(offs, used - {offs[i]}, [offs[i]] + free)
  {
    assert offs[i] !in Elems(free);
    FrontElems(offs[i], free);
  }

  lemma AgreeForget(offs: seq<Node>, used: set<Node>, free: seq<Node>, i: nat)
    requires Agree(offs, used, free) && i + 1 < |offs| && offs[i] in used && Distinct(offs)
    ensures Agree(Removed(offs, i), used - {offs[i]}, free)
  {
    RemovedElems(offs, i);
  }

  lemma FreeIff(offs: seq<Node>, used: set<Node>, free: seq<Node>, i: nat)
    requires Agree(offs, used, free) && i < |offs|
    ensures offs[i] in free <==> offs[i] !in used
  {
    assert offs[i] in Elems(free) <==> offs[i] in Elems(offs) && offs[i] !in used;
  }

  // ----- the steps keep the pool consistent -----

  lemma UseKeeps(p: Pool, i: nat)
    requires Consistent(p) && i + 1 < |p.offs| && p.offs[i] in p.free
    ensures Consistent(Use(p, i)) && p.offs[i] !in p.used && p.offs[i + 1] in p.used
    ensures Use(p, i).offs == p.offs && Use(p, i).used == p.used + {p.offs[i]}
  {
    AgreeTake(p.offs, p.used, p.free, p.offs[i]);
    assert NotBothFree(p.offs, p.used, i);
    LayoutDistinct(p.offs, p.size);
    hide Layout, Distinct, Agree, NoTwoFree, FreeSum, Without;
    SumMark(p.offs, p.used, i);
    MarkNoTwoFree(p.offs, p.used, p.offs[i]);
  }

  lemma PutKeeps(p: Pool, i: nat, y: Node)
    requires Consistent(p) && i + 1 < |p.offs| && p.offs[i] in p.used && p.offs[i + 1] in p.used
    requires Aligned(y) && p.offs[i] + HEADER <= y && y + HEADER <= p.offs[i + 1]
    ensures Consistent(Put(p, i, y))
    ensures Put(p, i, y).avail == p.avail + (p.offs[i + 1] - y - HEADER) && Put(p, i, y).size == p.size
    ensures Put(p, i, y).maxUsed == p.maxUsed
  {
    hide Layout, Distinct, Agree, NoTwoFree, FreeSum, Inserted;
    InsertLayout(p.offs, p.size, i, y);
    AgreeInsert(p.offs, p.used, p.free, i, y);
    SumInsert(p.offs, p.used, i, y);
    InsertNoTwoFree(p.offs, p.used, i, y);
  }

  lemma DropKeeps(p: Pool, i: nat)
    requires Consistent(p) && 0 < i < |p.offs| - 1 && p.offs[i] in p.free
    ensures Consistent(Drop(p, i)) && p.offs[i - 1] in p.used && p.offs[i + 1] in p.used
  {
    LayoutDistinct(p.offs, p.size);
    FreeIff(p.offs, p.used, p.free, i);
    hide Layout, Distinct, Agree, NoTwoFree, FreeSum, Without, Removed;
    RemoveLayout(p.offs, p.size, i);
    AgreeDrop(p.offs, p.used, p.free, i);
    RemoveNoTwoFree(p.offs, p.used, i);
    SumDrop(p.offs, p.used, i);
  }

  lemma ReleaseKeeps(p: Pool, i: nat)
    requires Consistent(p) && i + 1 < |p.offs| && p.offs[i] in p.used && p.offs[i + 1] in p.used
    requires i > 0 ==> p.offs[i - 1] in p.used
    ensures Consistent(Release(p, i))
  {
    LayoutDistinct(p.offs, p.size);
    hide Layout, Distinct, Agree, NoTwoFree, FreeSum;
    AgreeRelease(p.offs, p.used, p.free, i);
    FreedNoTwoFree(p.offs, p.used, i);
    SumMark(p.offs, p.used - {p.offs[i]}, i);
    assert p.used - {p.offs[i]} + {p.offs[i]} == p.used;
  }

  lemma JoinLeftKeeps(p: Pool, i: nat)
    requires Consistent(p) && 0 < i < |p.offs| - 1 && p.offs[i] in p.used && p.offs[i + 1] in p.used
      && p.offs[i - 1] in p.free
    ensures Consistent(JoinLeft(p, i))
  {
    var used := p.used - {p.offs[i]};
    LayoutDistinct(p.offs, p.size);
    FreeIff(p.offs, p.used, p.free, i - 1);
    hide Layout, Distinct, Agree, NoTwoFree, FreeSum, Removed;
    RemoveLayout(p.offs, p.size, i);
    AgreeForget(p.offs, p.used, p.free, i);
    JoinNoTwoFree(p.offs, p.used, i);
    SumMark(p.offs, used, i);
    assert used + {p.offs[i]} == p.used;
    SumRemove(p.offs, used, i);
  }

  // ----- the operations keep the invariant -----

  lemma LayoutStep(p: Pool, i: nat)
    requires Consistent(p) && i + 1 < |p.offs|
    ensures p.offs[i] + HEADER <= p.offs[i + 1] && Aligned(p.offs[i]) && p.offs[|p.offs| - 1] !in p.free
  {
    assert Spaced(p.offs, i);
    FreeIff(p.offs, p.used, p.free, |p.offs| - 1);
  }

  lemma PeakedKeeps(p: Pool)
    requires Consistent(p)
    ensures Inv(Peaked(p)) && Peaked(p).offs == p.offs && Peaked(p).free == p.free && Peaked(p).used == p.used
  {
  }

  /** What dropping block i leaves as it was. */
  lemma DropFacts(p: Pool, i: nat)
    requires Consistent(p) && 0 < i < |p.offs| - 1 && p.offs[i] in p.free
    ensures var q := Drop(p, i);
      && |q.offs| == |p.offs| - 1 && q.used == p.used && q.avail == p.avail - Payload(p.offs, i) && q.size == p.size
      && q.maxUsed == p.maxUsed && q.offs[i - 1] == p.offs[i - 1] && q.offs[i] == p.offs[i + 1]
      && (i > 1 ==> q.offs[i - 2] == p.offs[i - 2])
  {
  }

  lemma DropFree(p: Pool, i: nat, x: Node)
    requires Consistent(p) && 0 < i < |p.offs| - 1 && p.offs[i] in p.free
    ensures x in Drop(p, i).free <==> x in p.free && x != p.offs[i]
  {
    WithoutElems(p.free, p.offs[i]);
    assert x in Drop(p, i).free <==> x in Elems(Drop(p, i).free);
    assert x in p.free <==> x in Elems(p.free);
  }

  /** Handing out a free block. */
  lemma TakeKeeps(p: Pool, i: nat, size: nat)
    requires Inv(p) && i + 1 < |p.offs| && p.offs[i] in p.free && Aligned(size)
    ensures Inv(TakeAt(p, i, size))
  {
    hide Consistent, Without, Peaked, Aligned, Use, Put;
    LayoutStep(p, i);
    AlignedSum(p.offs[i], size);
    UseKeeps(p, i);
    var q, y := Use(p, i), p.offs[i] + size + HEADER;
    if Payload(p.offs, i) >= size + HEADER + MIN_ALLOC {
      assert TakeAt(p, i, size) == Peaked(Put(q, i, y));
      assert q.offs == p.offs && p.offs[i] in q.used && p.offs[i + 1] in q.used;
      hide TakeAt;
      PutKeeps(q, i, y);
      PeakedKeeps(Put(q, i, y));
    } else {
      assert TakeAt(p, i, size) == Peaked(q);
      hide TakeAt;
      PeakedKeeps(q);
    }
  }

  lemma MoveEndKeeps(p: Pool, i: nat, size: nat)
    requires Consistent(p) && i + 2 < |p.offs| && p.offs[i] in p.used && p.offs[i + 1] in p.free && Aligned(size)
    requires p.offs[i] + HEADER + size + HEADER <= p.offs[i + 2]
    ensures Consistent(MoveEnd(p, i, size)) && MoveEnd(p, i, size).avail == p.avail + Payload(p.offs, i) - size
    ensures MoveEnd(p, i, size).size == p.size && MoveEnd(p, i, size).maxUsed == p.maxUsed
  {
    hide Consistent, Aligned, Drop, Put;
    LayoutStep(p, i);
    AlignedSum(p.offs[i], size);
    DropKeeps(p, i + 1);
    DropFacts(p, i + 1);
    var q, y := Drop(p, i + 1), p.offs[i] + HEADER + size;
    assert MoveEnd(p, i, size) == Put(q, i, y);
    assert q.offs[i] == p.offs[i] && q.offs[i + 1] == p.offs[i + 2] && q.used == p.used;
    hide MoveEnd;
    PutKeeps(q, i, y);
  }

  /** Growing in place. */
  lemma GrowKeeps(p: Pool, i: nat, size: nat)
    requires Inv(p) && i + 1 < |p.offs| && p.offs[i] in p.used && Aligned(size) && CanGrow(p, i, size)
    ensures Inv(Peaked(MoveEnd(p, i, size)))
  {
    hide Consistent, MoveEnd, Peaked;
    MoveEndKeeps(p, i, size);
    PeakedKeeps(MoveEnd(p, i, size));
  }

  /** Shrinking. */
  lemma ShrinkKeeps(p: Pool, i: nat, size: nat)
    requires Inv(p) && i + 1 < |p.offs| && p.offs[i] in p.used && Aligned(size) && size + HEADER <= Payload(p.offs, i)
    ensures Inv(ShrinkAt(p, i, size))
  {
    hide Consistent, Aligned, Drop, Put, MoveEnd;
    LayoutStep(p, i);
    if i + 2 < |p.offs| { LayoutStep(p, i + 1); }
    FreeAtIff(p, i + 1);
    AlignedSum(p.offs[i], size);
    if i + 2 < |p.offs| && p.offs[i + 1] in p.free {
      MoveEndKeeps(p, i, size);
    } else {
      PutKeeps(p, i, p.offs[i] + HEADER + size);
    }
  }

  lemma FreeAtIff(p: Pool, i: nat)
    requires Consistent(p) && i < |p.offs|
    ensures p.offs[i] in p.free <==> p.offs[i] !in p.used
  {
    FreeIff(p.offs, p.used, p.free, i);
  }

  /** Releasing. */
  lemma FreeKeeps(p: Pool, i: nat)
    requires Inv(p) && i + 1 < |p.offs| && p.offs[i] in p.used
    ensures i + 2 < |p.offs| || p.offs[i + 1] !in p.free
    ensures Inv(FreeAt(p, i))
  {
    LayoutStep(p, i);
    FreeIff(p.offs, p.used, p.free, i + 1);
    if i > 0 { FreeIff(p.offs, p.used, p.free, i - 1); LayoutStep(p, i - 1); }
    var right, left := p.offs[i + 1] in p.free, i > 0 && p.offs[i - 1] in p.free;
    if right {
      LayoutStep(p, i + 1);
      DropKeeps(p, i + 1);
      DropFacts(p, i + 1);
      if i > 0 { DropFree(p, i + 1, p.offs[i - 1]); }
      LayoutDistinct(p.offs, p.size);
    }
    var q := if right then Drop(p, i + 1) else p;
    LayoutStep(q, i);
    assert q.avail + Payload(q.offs, i) >= p.avail;
    hide Consistent, Drop;
    if left { JoinLeftKeeps(q, i); } else { ReleaseKeeps(q, i); }
  }

  lemma NewPoolKeeps(n: nat)
    requires n >= 2 * HEADER && n % 4 == 0
    ensures Inv(NewPool(n))
  {
    var offs, used := [0, n - HEADER], {n - HEADER};
    SumPair(0, n - HEADER, used);
    assert Spaced(offs, 0) && NotBothFree(offs, used, 0);
    assert Elems([0]) == Elems(offs) - used;
  }
}
