/** The slab allocator as it runs: zone headers, the array of lists, the zones set aside and the table of pages
    are changed in place, and pages come from and go to the page allocator. */
module SlabAllocator {
  import opened Lists
  import opened SlabZones
  import opened Slabs
  import SlabRuns
  import P = SlabPages
  import opened Cells
  import opened PageAllocator

  /** struct slab_zone; z_next is the order of the lists. */
  datatype Header = Header(index: nat, nfree: int, nmax: int, base: nat, uindex: nat, chunkSize: nat, chunks: seq<nat>)

  function HeaderOf(pages: nat, a: nat, z: Zone): Header {
    Header(z.index, z.nfree, Capacity(pages, z.index), ChunkAt(a, z.index, 0), z.uindex, ChunkSize(z.index), z.chunks)
  }

  predicate HeadersAre(pages: nat, headers: map<nat, Header>, zones: map<nat, Zone>) {
    headers.Keys == zones.Keys && forall a :: a in zones ==> headers[a] == HeaderOf(pages, a, zones[a])
  }

  predicate TableIs(table: seq<Usage>, start: nat, usage: map<nat, Usage>) {
    forall k :: 0 <= k < |table| ==> table[k] == UsageAt(usage, start + k)
  }

  /** The size of zones is doubled while the heap is large enough. */
  method ZoneSizeFor(count: nat) returns (n: nat)
    ensures n == SlabRuns.ZonePagesFor(count)
  {
    var kilobytes := count * PAGE / 1024;
    n := 8;
    while n < 32 && 2 * n * PAGE < kilobytes
      invariant n == 8 || (n == 16 && 16 * PAGE < kilobytes) || (n == 32 && 32 * PAGE < kilobytes)
    {
      n := n * 2;
    }
  }

  /** The table of pages is the first that the page allocator hands out. */
  lemma TablesAtFirst(first: nat, count: nat, lists: seq<seq<nat>>, table: seq<Usage>)
    requires count > 0 && |lists| == NZONES && (forall k :: 0 <= k < NZONES ==> lists[k] == [])
    requires |table| == count && forall k :: 0 <= k < count ==> table[k] == Unused
    ensures var s := SlabRuns.Initial(first, count);
      lists == s.lists && HeadersAre(s.zonePages, map[], s.zones) && TableIs(table, first, s.usage)
  {
  }

  lemma PagesAtFirst(first: nat, count: nat)
    requires count > 0
    ensures P.Step(P.State([P.Run(first, count)], {}), P.OpAlloc(SlabRuns.TablePages(count))) ==
      SlabRuns.Initial(first, count).pages
  {
    var n := SlabRuns.TablePages(count);
    assert 0 < n <= count;
    hide SlabRuns.TablePages;
    assert {} + {P.Run(first, n)} == {P.Run(first, n)};
  }

  lemma HeaderSet(pages: nat, headers: map<nat, Header>, zones: map<nat, Zone>, a: nat, z: Zone)
    requires HeadersAre(pages, headers, zones)
    ensures HeadersAre(pages, headers[a := HeaderOf(pages, a, z)], zones[a := z])
  {
    hide HeaderOf;
  }

  lemma TakenFrom(s: Slab, a: nat, i: nat)
    requires a in s.zones && i < |s.lists| && s.lists[i] != []
    ensures var t := Take(s.zonePages, a, s.zones[a]);
      Slabs.TakeFrom(s, a, i) == Outcome(s.(zones := s.zones[a := t.zone],
        lists := if t.zone.nfree == 0 then s.lists[i := s.lists[i][1..]] else s.lists), At(t.chunk))
  {
    hide Take;
  }

  /** The next chunk of a zone that has one. */
  method TakeChunk(header: Header, ghost pages: nat, ghost a: nat, ghost z: Zone) returns (h: Header, chunk: nat)
    requires header == HeaderOf(pages, a, z) && (z.uindex + 1 == Capacity(pages, z.index) ==> z.chunks != [])
    ensures h == HeaderOf(pages, a, Take(pages, a, z).zone) && chunk == Take(pages, a, z).chunk
      && h.nfree == Take(pages, a, z).zone.nfree
  {
    hide Capacity, ChunkAt, ChunkSize;
    h := header.(nfree := header.nfree - 1);
    if h.uindex + 1 != h.nmax {
      h := h.(uindex := h.uindex + 1);
      chunk := h.base + h.uindex * h.chunkSize;
      ChunkFromBase(a, z.index, h.uindex);
    } else {
      chunk := h.chunks[0];
      h := h.(chunks := h.chunks[1..]);
    }
  }

  function InBytes(n: nat): nat { n * PAGE }

  /** RT_ALIGN and RT_ALIGN_DOWN to a page, in pages. */
  function StartPage(beginAddr: nat): (p: nat)
    ensures beginAddr <= p * PAGE < beginAddr + PAGE
  {
    (beginAddr + 4095) / 4096
  }

  function EndPage(endAddr: nat): (p: nat)
    ensures p * PAGE <= endAddr < p * PAGE + PAGE
  {
    endAddr / 4096
  }

  class SlabAllocator {
    var zonePages: nat
    var headers: map<nat, Header>
    const zoneArray: array<seq<nat>>
    var zoneFree: seq<nat>
    var zoneFreeCount: int
    const start: nat
    const memusage: array<Usage>
    const bytes: array<int>       // what callers store; headers and free lists are kept apart, in the fields above
    const pages: PageAllocator
    ghost var slab: Slab

    /** The fields are those of the slab. */
    ghost predicate Coupled()
      reads this, zoneArray, memusage, pages
    {
      && zoneArray.Length == NZONES && zoneArray[..] == slab.lists
      && zonePages == slab.zonePages && HeadersAre(zonePages, headers, slab.zones)
      && zoneFree == slab.idle && zoneFreeCount == |zoneFree|
      && TableIs(memusage[..], start, slab.usage) && pages.State() == slab.pages
    }

    ghost predicate Valid()
      reads this, zoneArray, memusage, pages
    {
      Coupled() && Inv(slab, P.Range(start, memusage.Length)) && bytes.Length == InBytes(memusage.Length)
    }

    /** The cell of the first byte of the heap. */
    function Origin(): nat { InBytes(start) }

    /** Every block of callers but the one at p holds what it held in c. */
    ghost predicate OthersHold(c: seq<int>, s: Slab, p: Ptr)
      reads bytes
    {
      forall a :: a in SlabRuns.Live(s) && p != At(a) ==>
        Copied(c, bytes[..], a - Origin(), a - Origin(), SlabRuns.BlockSize(s, a))
    }

    /** rt_system_heap_init on the whole pages between two addresses, of which there must be one. */
    constructor (beginAddr: nat, endAddr: nat)
      requires beginAddr <= 0xFFFF_F000 && StartPage(beginAddr) < EndPage(endAddr)
      ensures Valid() && fresh(zoneArray) && fresh(memusage) && fresh(pages) && fresh(bytes)
      ensures start == StartPage(beginAddr) && memusage.Length == EndPage(endAddr) - start
      ensures slab == SlabRuns.Initial(start, memusage.Length)
    {
      var first, count := StartPage(beginAddr), EndPage(endAddr) - StartPage(beginAddr);
      zonePages, headers, zoneFree, zoneFreeCount, start := 8, map[], [], 0, first;
      zoneArray := new seq<nat>[NZONES](_ => []);
      memusage := new Usage[count](_ => Unused);
      bytes := new int[InBytes(count)](_ => 0);
      pages := new PageAllocator(first, count);
      new;
      zonePages := ZoneSizeFor(count);
      var tablePages := SlabRuns.TablePages(count);
      slab := SlabRuns.Initial(first, count);
      SlabRuns.InitialHolds(first, count);
      PagesAtFirst(first, count);
      hide InBytes;
      hide Inv, HeadersAre, TableIs, StartPage, EndPage, SlabRuns.Initial, SlabRuns.TablePages, SlabRuns.ZonePagesFor,
          P.Step;
      TablesAtFirst(first, count, zoneArray[..], memusage[..]);
      var table := pages.Alloc(tablePages);
    }

    // ----- rt_malloc -----

    /** A chunk of the first zone on the list. */
    method TakeFrom(i: nat) returns (chunk: nat)
      requires Coupled() && i < NZONES && zoneArray[i] != [] && zoneArray[i][0] in slab.zones
      requires var z := slab.zones[zoneArray[i][0]];
        z.index == i && (z.uindex + 1 == Capacity(zonePages, i) ==> z.chunks != [])
      modifies this`headers, this`slab, zoneArray
      ensures Coupled() && Outcome(slab, At(chunk)) == Slabs.TakeFrom(old(slab), old(zoneArray[i])[0], i)
    {
      var a := zoneArray[i][0];
      ghost var t := Take(zonePages, a, slab.zones[a]);
      TakenFrom(slab, a, i);
      HeaderSet(zonePages, headers, slab.zones, a, t.zone);
      var h;
      h, chunk := TakeChunk(headers[a], zonePages, a, slab.zones[a]);
      hide Take, TableIs, HeadersAre, HeaderOf, Slabs.TakeFrom;
      if h.nfree == 0 { zoneArray[i] := zoneArray[i][1..]; }
      headers := headers[a := h];
      slab := Slabs.TakeFrom(slab, a, i).slab;
    }

    /** A zone begins at page a: its first chunk. */
    method Begin(a: nat, i: nat) returns (chunk: nat)
      requires Coupled() && i < NZONES
      modifies this`headers, this`slab, zoneArray
      ensures Coupled() && Outcome(slab, At(chunk)) == Slabs.Begin(old(slab), a, i)
    {
      ghost var z := FreshZone(zonePages, a, i);
      var size := ChunkSize(i);
      var h := Header(i, Capacity(zonePages, i) - 1, Capacity(zonePages, i), a * PAGE + Base(size), 0, size, []);
      ChunkFromBase(a, i, 0);
      assert h == HeaderOf(zonePages, a, z);
      chunk := h.base + h.uindex * size;
      zoneArray[i] := [a] + zoneArray[i];
      headers := headers[a := h];
      slab := Slabs.Begin(slab, a, i).slab;
    }

    /** The pages of a zone are marked with their distance from its first. */
    method MarkSmall(a: nat, ghost usage: map<nat, Usage>)
      requires start <= a && a + zonePages <= start + memusage.Length && TableIs(memusage[..], start, usage)
      modifies memusage
      ensures TableIs(memusage[..], start, MarkZone(usage, a, zonePages))
    {
      var off := 0;
      while off < zonePages
        invariant off <= zonePages
        invariant forall k :: 0 <= k < memusage.Length ==>
          memusage[k] == if a <= start + k < a + off then Small(start + k - a) else UsageAt(usage, start + k)
      {
        memusage[a - start + off] := Small(off);
        off := off + 1;
      }
    }

    /** The pages of a zone are marked as free. */
    method MarkFree(a: nat, ghost usage: map<nat, Usage>)
      requires start <= a && a + zonePages <= start + memusage.Length && TableIs(memusage[..], start, usage)
      modifies memusage
      ensures TableIs(memusage[..], start, MarkUnused(usage, a, zonePages))
    {
      var i := 0;
      while i < zonePages
        invariant i <= zonePages
        invariant forall k :: 0 <= k < memusage.Length ==>
          memusage[k] == if a <= start + k < a + i then Unused else UsageAt(usage, start + k)
      {
        memusage[a - start + i] := Unused;
        i := i + 1;
      }
    }

    /** A zone with pages of its own, if there are any. */
    method BeginNew(i: nat) returns (ptr: Ptr)
      requires Valid() && i < NZONES
      modifies this`headers, this`slab, zoneArray, memusage, pages
      ensures Coupled() && Outcome(slab, ptr) ==
        var o := P.Alloc(old(slab).pages.free, zonePages);
        if o.got.Nothing? then Outcome(old(slab), Null)
          else Slabs.Begin(NewZone(old(slab), o.got.start, o.list), o.got.start, i)
    {
      ghost var o := P.Alloc(pages.pageList, zonePages);
      SlabRuns.PagesCoalesced(slab, P.Range(start, memusage.Length));
      SlabRuns.InvPages(slab, P.Range(start, memusage.Length));
      hide Sound, OneEmpty, P.Alloc, HeadersAre, TableIs, Slabs.Begin, P.Range, P.Inv, MarkZone;
      var got := pages.Alloc(zonePages);
      if got.Nothing? { return Null; }
      InHeap(slab.pages, start, memusage.Length, zonePages);
      MarkSmall(got.start, slab.usage);
      slab := NewZone(slab, got.start, o.list);
      var chunk := Begin(got.start, i);
      ptr := At(chunk);
    }

    method MallocSmall(i: nat) returns (ptr: Ptr)
      requires Valid() && i < NZONES
      modifies this, zoneArray, memusage, pages
      ensures Coupled() && Outcome(slab, ptr) == Slabs.MallocSmall(old(slab), i)
    {
      hide Inv, TableIs, HeadersAre, Slabs.TakeFrom, Slabs.Begin, Capacity, NewZone;
      if zoneArray[i] != [] {
        HeadReady(slab, P.Range(start, memusage.Length), i);
        var chunk := TakeFrom(i);
        ptr := At(chunk);
      } else if zoneFree != [] {
        var a := zoneFree[0];
        zoneFree := zoneFree[1..];
        zoneFreeCount := zoneFreeCount - 1;
        slab := slab.(idle := zoneFree);
        var chunk := Begin(a, i);
        ptr := At(chunk);
      } else {
        ptr := BeginNew(i);
      }
    }

    method MallocLarge(n: nat) returns (ptr: Ptr)
      requires Valid()
      modifies this`slab, memusage, pages
      ensures Coupled() && Outcome(slab, ptr) == Slabs.MallocLarge(old(slab), n)
    {
      SlabRuns.InvPages(slab, P.Range(start, memusage.Length));
      hide Inv, P.Alloc, HeadersAre, TableIs, P.Range, P.Inv, PagesFor, Slabs.MallocLarge;
      ghost var s := slab;
      var count := PagesFor(n);
      var got := pages.Alloc(count);
      if got.Nothing? {
        LargeNothing(s, n);
        return Null;
      }
      InHeap(slab.pages, start, memusage.Length, count);
      LargeOutcome(slab, n);
      MarkLarge(got.start, count);
      slab := Slabs.MallocLarge(slab, n).slab;
      ptr := At(got.start * PAGE);
    }

    lemma LargeNothing(s: Slab, n: nat)
      requires PagesFor(n) == 0 || P.Alloc(s.pages.free, PagesFor(n)).got.Nothing?
      ensures Slabs.MallocLarge(s, n) == Outcome(s, Null)
    {
    }

    lemma LargeOutcome(s: Slab, n: nat)
      requires P.Alloc(s.pages.free, PagesFor(n)).got.At? && PagesFor(n) > 0
      ensures var o, count, r := P.Alloc(s.pages.free, PagesFor(n)), PagesFor(n), Slabs.MallocLarge(s, n);
        && r.ptr == At(o.got.start * PAGE) && r.slab.usage == s.usage[o.got.start := Large(count)]
        && r.slab.pages == P.State(o.list, s.pages.out + {P.Run(o.got.start, count)})
        && r.slab.zones == s.zones && r.slab.lists == s.lists && r.slab.idle == s.idle
             && r.slab.zonePages == s.zonePages
    {
    }

    /** The page table entry of the first page of a large block. */
    method MarkLarge(a: nat, count: nat)
      requires start <= a < start + memusage.Length && TableIs(memusage[..], start, slab.usage)
      modifies memusage
      ensures TableIs(memusage[..], start, slab.usage[a := Large(count)])
    {
      memusage[a - start] := Large(count);
    }

    method Malloc(n: nat) returns (ptr: Ptr)
      requires Valid() && n < 0x1_0000_0000
      modifies this, zoneArray, memusage, pages
      ensures Valid() && Outcome(slab, ptr) == Slabs.Malloc(old(slab), n)
    {
      SlabRuns.MallocKeeps(slab, P.Range(start, memusage.Length), n);
      if n == 0 { return Null; }
      if n >= ZoneLimit(zonePages) {
        ptr := MallocLarge(n);
      } else {
        BelowLimit(zonePages, n);
        ptr := MallocSmall(ZoneIndex(n).index);
      }
    }

    // ----- rt_free -----

    /** A chunk goes back to its zone, and the zone to its list if it was full. */
    method GiveTo(a: nat, p: nat)
      requires Coupled() && a in slab.zones && slab.zones[a].index < NZONES
      modifies this`headers, this`slab, zoneArray
      ensures Coupled() && slab == Slabs.GiveTo(old(slab), a, p)
    {
      var h := headers[a];
      ghost var z := slab.zones[a];
      h := h.(chunks := [p] + h.chunks);
      ListAtIs(slab.lists, h.index);
      if h.nfree == 0 { zoneArray[h.index] := [a] + zoneArray[h.index]; }
      h := h.(nfree := h.nfree + 1);
      hide Capacity, ChunkAt, ChunkSize, TableIs;
      assert h == HeaderOf(zonePages, a, Give(z, p));
      headers := headers[a := h];
      slab := Slabs.GiveTo(slab, a, p);
    }

    /** The walk along a list of zones to the one that leaves it. */
    method Unlink(i: nat, a: nat)
      requires i < zoneArray.Length && a in zoneArray[i]
      modifies zoneArray
      ensures zoneArray[..] == old(zoneArray[..])[i := Remove(old(zoneArray[i]), a)]
    {
      var list := zoneArray[i];
      var k := 0;
      NotYetStart(list, a);
      NotYetStep(list, k, a);
      while list[k] != a
        invariant k < |list| && NotYet(list, k, a) && zoneArray[..] == old(zoneArray[..])
        decreases |list| - k
      {
        NotYetStep(list, k, a);
        k := k + 1;
        NotYetStep(list, k, a);
      }
      NotYetStep(list, k, a);
      zoneArray[i] := list[..k] + list[k + 1..];
      assert zoneArray[..] == old(zoneArray[..])[i := Remove(list, a)];
    }

    /** A zone leaves its list and is set aside. */
    method Retire(a: nat)
      requires Coupled() && a in slab.zones
      requires var i := slab.zones[a].index; i < NZONES && a in zoneArray[i]
      modifies this`headers, this`slab, this`zoneFree, this`zoneFreeCount, zoneArray
      ensures Coupled() && slab == Slabs.Retire(old(slab), a)
    {
      hide Capacity, ChunkAt, ChunkSize, TableIs, Remove;
      Unlink(headers[a].index, a);
      headers := headers - {a};
      zoneFree := [a] + zoneFree;
      zoneFreeCount := zoneFreeCount + 1;
      slab := Slabs.Retire(slab, a);
    }

    /** The zone set aside last goes back to the page allocator. */
    method Release()
      requires Coupled() && zoneFree != [] && zonePages > 0
      requires P.Run(zoneFree[0], zonePages) in slab.pages.out
      requires start <= zoneFree[0] && zoneFree[0] + zonePages <= start + memusage.Length
      modifies this`slab, this`zoneFree, this`zoneFreeCount, memusage, pages
      ensures Coupled() && slab == Slabs.Release(old(slab))
    {
      var a := zoneFree[0];
      zoneFree := zoneFree[1..];
      zoneFreeCount := zoneFreeCount - 1;
      MarkFree(a, slab.usage);
      pages.Free(a, zonePages);
      slab := Slabs.Release(slab);
    }

    /** A zone wholly free is set aside, unless it is the only one of its size with free chunks. */
    method SetAside(a: nat)
      requires Coupled() && Sound(slab, P.Range(start, memusage.Length)) && a in slab.zones
      modifies this, zoneArray, memusage, pages
      ensures Coupled() && slab == Slabs.SetAside(old(slab), a)
    {
      ghost var all := P.Range(start, memusage.Length);
      var h := headers[a];
      assert h == HeaderOf(zonePages, a, slab.zones[a]);
      hide Sound, OneEmpty, HeadersAre, TableIs, Slabs.Release, Capacity, P.Range, ChunkSize, ChunkAt, SetList, Remove,
          ListAt;
      ZoneListed(slab, all, a);
      ListAtIs(slab.lists, h.index);
      if h.nfree == h.nmax && zoneArray[h.index] != [a] {
        RetireKeeps(slab, all, a);
        Retire(a);
        if zoneFreeCount > IDLE_MAX {
          IdleInHeap(slab, start, memusage.Length);
          Release();
        }
      }
    }

    method FreeLarge(page: nat, n: nat)
      requires Coupled() && start <= page < start + memusage.Length && n > 0 && P.Run(page, n) in slab.pages.out
      modifies this`slab, memusage, pages
      ensures Coupled() && slab == Slabs.FreeLarge(old(slab), P.Run(page, n))
    {
      memusage[page - start] := Large(0);
      pages.Free(page, n);
      slab := Slabs.FreeLarge(slab, P.Run(page, n));
    }

    method FreeSmall(a: nat, p: nat)
      requires Valid() && a in slab.zones && p in slab.zones[a].out
      modifies this, zoneArray, memusage, pages
      ensures Coupled() && slab == Slabs.FreeSmall(old(slab), a, p)
    {
      ghost var all := P.Range(start, memusage.Length);
      ZoneListed(slab, all, a);
      SlabRuns.GiveToKeeps(slab, all, a, p);
      assert a in Slabs.GiveTo(slab, a, p).zones;
      hide Inv, Sound, Coupled, Slabs.GiveTo, Slabs.SetAside, P.Range;
      GiveTo(a, p);
      SetAside(a);
    }

    /** The table of pages says what the block belongs to. */
    method Lookup(p: nat) returns (page: nat, use: Usage)
      requires Valid() && p in SlabRuns.Live(slab)
      ensures BlockIs(slab, start, memusage.Length, p, page, use)
    {
      hide Inv, HeadersAre, P.Range, SlabRuns.Live;
      InvIsSound(slab, P.Range(start, memusage.Length));
      BlockFound(slab, start, memusage.Length, p);
      page := p / PAGE;
      use := memusage[page - start];
    }

    method FreeFound(p: nat, page: nat, use: Usage)
      requires Valid() && BlockIs(slab, start, memusage.Length, p, page, use)
      modifies this, zoneArray, memusage, pages
      ensures Coupled() && slab == Slabs.Free(old(slab), p)
    {
      hide Inv, Coupled, UsageAt, P.Range, Slabs.Free, Slabs.FreeSmall, Slabs.FreeLarge;
      FreeIs(slab, start, memusage.Length, p, page, use);
      if use.Large? {
        FreeLarge(page, use.pages);
      } else {
        FreeSmall(page - use.offset, p);
      }
    }

    /** rt_free of a block that a caller has. */
    method Free(p: nat)
      requires Valid() && p in SlabRuns.Live(slab)
      modifies this, zoneArray, memusage, pages
      ensures Valid() && slab == Slabs.Free(old(slab), p)
    {
      hide Inv, Coupled, SlabRuns.Live, SlabRuns.Lost, P.Range, Slabs.Free;
      SlabRuns.FreeKeeps(slab, P.Range(start, memusage.Length), p);
      var page, use := Lookup(p);
      FreeFound(p, page, use);
    }

    // ----- rt_realloc -----

    method Move(p: nat, n: nat, oldSize: nat) returns (moved: Ptr)
      requires Valid() && n < 0x1_0000_0000 && p in SlabRuns.Live(slab) && oldSize == SlabRuns.BlockSize(slab, p)
      modifies this, zoneArray, memusage, pages, bytes
      ensures Valid() && Outcome(slab, moved) == SlabRuns.Moved(old(slab), p, n)
      ensures OthersHold(old(bytes[..]), old(slab), At(p)) && (moved.Null? ==> bytes[..] == old(bytes[..]))
      ensures moved.At? ==>
        Copied(old(bytes[..]), bytes[..], p - Origin(), moved.address - Origin(), Min(oldSize, n))
    {
      hide *;
      ghost var s := slab;
      ValidParts();
      AllHold();
      MovedParts(s, P.Range(start, memusage.Length), p, n);
      moved := Malloc(n);
      if moved.At? {
        CopyOver(p, moved.address, n, oldSize, s);
        Free(p);
      }
    }

    lemma ValidParts()
      requires Valid()
      ensures Inv(slab, P.Range(start, memusage.Length)) && bytes.Length == InBytes(memusage.Length)
    {
    }

    /** The contents of the block at p go to the one just handed out, as far as both reach. */
    method CopyOver(p: nat, q: nat, n: nat, oldSize: nat, ghost s: Slab)
      requires Inv(s, P.Range(start, memusage.Length)) && bytes.Length == InBytes(memusage.Length)
      requires n < 0x1_0000_0000 && p in SlabRuns.Live(s) && oldSize == SlabRuns.BlockSize(s, p)
      requires Slabs.Malloc(s, n).ptr == At(q)
      modifies bytes
      ensures OthersHold(old(bytes[..]), s, At(p))
      ensures Copied(old(bytes[..]), bytes[..], p - Origin(), q - Origin(), Min(oldSize, n))
    {
      hide *;
      ghost var c := bytes[..];
      InCells(s, n, p, q);
      MinIs(oldSize, n);
      var m := if n > oldSize then oldSize else n;
      Memcpy(bytes, q - Origin(), p - Origin(), m);
      OthersBeside(c, s, n, p, m);
    }

    /** Where the two blocks lie in the cells. */
    lemma InCells(s: Slab, n: nat, p: nat, q: nat)
      requires Inv(s, P.Range(start, memusage.Length)) && bytes.Length == InBytes(memusage.Length)
      requires n < 0x1_0000_0000 && p in SlabRuns.Live(s) && Slabs.Malloc(s, n).ptr == At(q)
      ensures Origin() <= p && p - Origin() + SlabRuns.BlockSize(s, p) <= bytes.Length
      ensures Origin() <= q && q - Origin() + n <= bytes.Length
      ensures p + SlabRuns.BlockSize(s, p) <= q || q + n <= p
    {
      hide Inv, SlabRuns.Live, SlabRuns.BlockSize, P.Range, Slabs.Malloc, InBytes;
      NewBeside(s, start, memusage.Length, n, p);
    }

    lemma AllHold()
      requires Valid()
      ensures forall p :: OthersHold(bytes[..], slab, p)
    {
      hide Inv, Coupled, SlabRuns.Live, SlabRuns.BlockSize, P.Range, InBytes;
      forall a | a in SlabRuns.Live(slab)
        ensures Copied(bytes[..], bytes[..], a - Origin(), a - Origin(), SlabRuns.BlockSize(slab, a))
      {
        LiveWithin(slab, start, memusage.Length, a);
      }
    }

    /** The copying leaves the blocks beside the new one. */
    lemma OthersBeside(c: seq<int>, s: Slab, n: nat, p: nat, m: nat)
      requires Inv(s, P.Range(start, memusage.Length)) && n < 0x1_0000_0000 && Slabs.Malloc(s, n).ptr.At? && m <= n
      requires |c| == InBytes(memusage.Length) && Slabs.Malloc(s, n).ptr.address >= Origin()
      requires SameOutside(c, bytes[..], Slabs.Malloc(s, n).ptr.address - Origin(), m)
      ensures OthersHold(c, s, At(p))
    {
      hide Inv, Slabs.Malloc, SlabRuns.Live, SlabRuns.BlockSize, P.Range, InBytes;
      forall a | a in SlabRuns.Live(s) && a != p
        ensures Copied(c, bytes[..], a - Origin(), a - Origin(), SlabRuns.BlockSize(s, a))
      {
        NewBeside(s, start, memusage.Length, n, a);
        KeptBeside(c, bytes[..], Slabs.Malloc(s, n).ptr.address - Origin(), m, a - Origin(), SlabRuns.BlockSize(s, a));
      }
    }

    method ChunkSizeOf(a: nat, p: nat) returns (size: nat)
      requires Valid() && a in slab.zones && p in slab.zones[a].out
      ensures size == SlabRuns.BlockSize(slab, p)
    {
      size := headers[a].chunkSize;
      assert size == ChunkSize(slab.zones[a].index);
      hide HeadersAre, TableIs, SlabRuns.BlockSize, Sound, OneEmpty;
      SlabRuns.SmallBlock(slab, P.Range(start, memusage.Length), a, p);
    }

    method Resize(p: nat, n: nat) returns (moved: Ptr)
      requires Valid() && 0 < n < 0x1_0000_0000 && p in SlabRuns.Live(slab)
      modifies this, zoneArray, memusage, pages, bytes
      ensures Valid() && Outcome(slab, moved) == SlabRuns.Realloc(old(slab), At(p), n)
      ensures OthersHold(old(bytes[..]), old(slab), At(p)) && (moved.Null? ==> bytes[..] == old(bytes[..]))
      ensures moved.At? ==>
        Copied(old(bytes[..]), bytes[..], p - Origin(), moved.address - Origin(),
               Min(SlabRuns.BlockSize(old(slab), p), n))
    {
      hide Inv, Coupled, SlabRuns.Live, SlabRuns.BlockSize, SlabRuns.Raised, SlabRuns.Moved, UsageAt, P.Range;
      hide OthersHold, Copied, InBytes;
      AllHold();
      SlabRuns.RaisedBounds(n);
      LiveWithin(slab, start, memusage.Length, p);
      var page, use := Lookup(p);
      var want, size := n, 0;
      if use.Small? {
        want := SlabRuns.Raised(n);
        size := ChunkSizeOf(page - use.offset, p);
        if size == want {
          SameIsCopied(bytes[..], p - Origin(), Min(size, n));
          return At(p);
        }
      } else {
        size := LargeSizeOf(p, use);
      }
      ghost var c := bytes[..];
      moved := Move(p, want, size);
      if moved.At? { CopiedLess(c, bytes[..], p - Origin(), moved.address - Origin(), Min(size, want), Min(size, n)); }
    }

    /** The bytes of a large block, by its entry in the page table. */
    method LargeSizeOf(p: nat, use: Usage) returns (size: nat)
      requires use == UsageAt(slab.usage, p / PAGE) && use.Large?
      ensures size == SlabRuns.BlockSize(slab, p)
    {
      size := use.pages * PAGE;
    }

    /** rt_realloc: what is returned begins with what the old block held, as far as that and the request reach;
        every other block keeps its contents, and so does the old one if nothing is returned. */
    method Realloc(ptr: Ptr, n: nat) returns (moved: Ptr)
      requires Valid() && n < 0x1_0000_0000 && (ptr.At? ==> ptr.address in SlabRuns.Live(slab))
      modifies this, zoneArray, memusage, pages, bytes
      ensures Valid() && Outcome(slab, moved) == SlabRuns.Realloc(old(slab), ptr, n)
      ensures OthersHold(old(bytes[..]), old(slab), ptr)
      ensures moved.Null? || ptr.Null? ==> bytes[..] == old(bytes[..])
      ensures moved.At? && ptr.At? ==>
        Copied(old(bytes[..]), bytes[..], ptr.address - Origin(), moved.address - Origin(),
               Min(SlabRuns.BlockSize(old(slab), ptr.address), n))
    {
      hide Inv, Coupled, SlabRuns.Live, SlabRuns.BlockSize, SlabRuns.Raised, SlabRuns.Moved, UsageAt, P.Range;
      hide OthersHold, Copied, InBytes;
      AllHold();
      if ptr.Null? {
        moved := Malloc(n);
      } else if n == 0 {
        Free(ptr.address);
        moved := Null;
      } else {
        moved := Resize(ptr.address, n);
      }
    }
  }

  lemma MinIs(a: int, b: int)
    ensures Min(a, b) == if b > a then a else b
  {
  }

  /** A move is a request and, if it is granted, a release. */
  lemma MovedParts(s: Slab, all: set<nat>, p: nat, n: nat)
    requires Inv(s, all) && p in SlabRuns.Live(s) && n < 0x1_0000_0000
    ensures var o := Slabs.Malloc(s, n);
      if o.ptr.Null? then SlabRuns.Moved(s, p, n) == Outcome(o.slab, Null)
      else SlabRuns.Moved(s, p, n) == Outcome(Slabs.Free(o.slab, p), o.ptr) && p in SlabRuns.Live(o.slab)
  {
    hide Inv, Slabs.Malloc, Slabs.Free, SlabRuns.Live, SlabRuns.BlockSize, SlabRuns.SizesKept;
    SlabRuns.MallocKeeps(s, all, n);
  }

  /** A block of a caller lies in the heap. */
  lemma LiveWithin(s: Slab, start: nat, count: nat, p: nat)
    requires Inv(s, P.Range(start, count)) && p in SlabRuns.Live(s)
    ensures InBytes(start) <= p && p + SlabRuns.BlockSize(s, p) <= InBytes(start) + InBytes(count)
  {
    hide Sound, OneEmpty, SlabRuns.BlockSize, SlabRuns.Live, P.Range;
    var r := SlabRuns.BlockRun(s, P.Range(start, count), p);
    SlabRuns.InvPages(s, P.Range(start, count));
    OutInHeap(s.pages, start, count, r);
    assert start * PAGE <= r.start * PAGE && (r.start + r.pages) * PAGE <= (start + count) * PAGE;
  }

  /** A block just handed out lies in the heap, beside every other. */
  lemma NewBeside(s: Slab, start: nat, count: nat, n: nat, p: nat)
    requires Inv(s, P.Range(start, count)) && n < 0x1_0000_0000 && p in SlabRuns.Live(s) && Slabs.Malloc(s, n).ptr.At?
    ensures var q, m := Slabs.Malloc(s, n).ptr.address, SlabRuns.BlockSize(s, p);
      && InBytes(start) <= q && q + n <= InBytes(start) + InBytes(count)
      && InBytes(start) <= p && p + m <= InBytes(start) + InBytes(count)
      && (p + m <= q || q + n <= p)
  {
    hide Inv, SlabRuns.BlockSize, SlabRuns.Live, P.Range, Slabs.Malloc, InBytes;
    var all, o := P.Range(start, count), Slabs.Malloc(s, n);
    var q := o.ptr.address;
    SlabRuns.MallocKeeps(s, all, n);
    LiveWithin(s, start, count, p);
    LiveWithin(o.slab, start, count, q);
    if p < q { SlabRuns.LiveApart(o.slab, all, p, q); } else { SlabRuns.LiveApart(o.slab, all, q, p); }
  }

  /** What is found of a block that a caller has. */
  ghost predicate BlockIs(s: Slab, start: nat, count: nat, p: nat, page: nat, use: Usage) {
    && page == p / PAGE && use == UsageAt(s.usage, page) && start <= page < start + count
    && match use
      case Large(n) => n > 0 && P.Run(page, n) in s.pages.out
      case Small(k) => k <= page && page - k in s.zones && p in s.zones[page - k].out
      case Unused => false
  }

  lemma ListAtIs(lists: seq<seq<nat>>, i: nat)
    requires i < |lists|
    ensures ListAt(lists, i) == lists[i]
  {
  }

  /** A zone whose chunks are all free is on the list of its size. */
  lemma ZoneListed(s: Slab, all: set<nat>, a: nat)
    requires Sound(s, all) && a in s.zones
    ensures s.zones[a].index < NZONES && |s.lists| == NZONES
    ensures s.zones[a].nfree == Capacity(s.zonePages, s.zones[a].index) ==> a in s.lists[s.zones[a].index]
  {
    var z := s.zones[a];
    hide Sound, Capacity, ZoneOk;
    SlabRuns.ZoneIsOk(s, all, a);
    SlabRuns.IndexInTable(s.zonePages, a, z);
    ZoneCounts(s.zonePages, a, z);
    SlabRuns.ListIsOk(s, all, z.index);
    if z.nfree > 0 { assert a in Open(s.zones, z.index); }
  }

  lemma IdleInHeap(s: Slab, start: nat, count: nat)
    requires Sound(s, P.Range(start, count)) && s.idle != []
    ensures s.zonePages > 0 && P.Run(s.idle[0], s.zonePages) in s.pages.out
    ensures start <= s.idle[0] && s.idle[0] + s.zonePages <= start + count
  {
    HeadIn(s.idle);
    assert s.idle[0] in Held(s);
    assert P.Run(s.idle[0], s.zonePages) in Extents(Held(s), s.zonePages);
    OutInHeap(s.pages, start, count, P.Run(s.idle[0], s.zonePages));
  }

  lemma OutInHeap(pages: P.State, start: nat, count: nat, r: P.Run)
    requires P.Inv(pages, P.Range(start, count)) && r in pages.out
    ensures start <= r.start && r.start + r.pages <= start + count
  {
    assert forall p :: p in P.Range(r.start, r.pages) ==> p in P.Blocks(pages.out);
    RangeWithin(r.start, r.pages, start, count);
  }

  lemma FreeIs(s: Slab, start: nat, count: nat, p: nat, page: nat, use: Usage)
    requires BlockIs(s, start, count, p, page, use)
    ensures match use
      case Large(n) => Slabs.Free(s, p) == Slabs.FreeLarge(s, P.Run(page, n))
      case Small(k) => k <= page && Slabs.Free(s, p) == Slabs.FreeSmall(s, page - k, p)
      case Unused => false
  {
    hide Slabs.FreeLarge, Slabs.FreeSmall, UsageAt;
  }

  lemma InvIsSound(s: Slab, all: set<nat>)
    requires Inv(s, all)
    ensures Sound(s, all)
  {
  }

  /** What the table says of a block that a caller has. */
  lemma BlockFound(s: Slab, start: nat, count: nat, p: nat)
    requires Sound(s, P.Range(start, count)) && p in SlabRuns.Live(s)
    ensures BlockIs(s, start, count, p, p / PAGE, UsageAt(s.usage, p / PAGE))
  {
    ghost var all := P.Range(start, count);
    hide Sound, SlabRuns.BlockSize, P.Range;
    ghost var r := SlabRuns.BlockRun(s, all, p);
    SlabRuns.InvPages(s, all);
    OutInHeap(s.pages, start, count, r);
    if r in s.large {
      SlabRuns.LargeBlock(s, all, r);
    } else {
      SlabRuns.SmallBlock(s, all, r.start, p);
    }
  }

  /** The walk along a list has not met the zone yet. */
  ghost predicate NotYet(list: seq<nat>, k: nat, a: nat) {
    k <= |list| && a in list[k..] && Remove(list, a) == list[..k] + Remove(list[k..], a)
  }

  lemma NotYetStart(list: seq<nat>, a: nat)
    requires a in list
    ensures NotYet(list, 0, a)
  {
    assert list[0..] == list;
  }

  lemma NotYetStep(list: seq<nat>, k: nat, a: nat)
    requires NotYet(list, k, a)
    ensures k < |list|
    ensures list[k] == a ==> Remove(list, a) == list[..k] + list[k + 1..]
    ensures list[k] != a ==> NotYet(list, k + 1, a)
  {
    var rest := list[k..];
    assert rest != [] && rest[0] == list[k] && rest[1..] == list[k + 1..] && rest == [rest[0]] + rest[1..];
    RemoveHead(rest, a);
    hide Remove;
    if list[k] != a {
      OneFurther(list, k, Remove(rest[1..], a));
    }
  }

  lemma RemoveHead(list: seq<nat>, a: nat)
    requires list != []
    ensures Remove(list, a) == if list[0] == a then list[1..] else [list[0]] + Remove(list[1..], a)
  {
  }

  lemma OneFurther(list: seq<nat>, k: nat, more: seq<nat>)
    requires k < |list|
    ensures list[..k] + ([list[k]] + more) == list[..k + 1] + more
  {
  }

  /** The first zone on a list has a chunk to give. */
  lemma HeadReady(s: Slab, all: set<nat>, i: nat)
    requires Inv(s, all) && i < NZONES && |s.lists| == NZONES && s.lists[i] != []
    ensures var a := s.lists[i][0];
      a in s.zones && var z := s.zones[a]; z.index == i && (z.uindex + 1 == Capacity(s.zonePages, i) ==> z.chunks != [])
  {
    hide Sound, Capacity;
    SlabRuns.ListIsOk(s, all, i);
    SlabRuns.HeadOpen(s.lists[i], s.zones, i);
    SlabRuns.ZoneIsOk(s, all, s.lists[i][0]);
  }

  /** Pages that were handed out are pages of the heap. */
  lemma InHeap(pages: P.State, start: nat, count: nat, n: nat)
    requires P.Inv(pages, P.Range(start, count)) && n > 0 && P.Alloc(pages.free, n).got.At?
    ensures var a := P.Alloc(pages.free, n).got.start; start <= a && a + n <= start + count
  {
    var a := P.Alloc(pages.free, n).got.start;
    RunTaken(pages, P.Range(start, count), n);
    RangeWithin(a, n, start, count);
  }

  lemma RangeWithin(a: nat, n: nat, b: nat, m: nat)
    requires P.Range(a, n) <= P.Range(b, m) && n > 0
    ensures b <= a && a + n <= b + m
  {
    var last := a + n - 1;
    assert a in P.Range(a, n) && last in P.Range(a, n);
  }

  lemma ChunkFromBase(a: nat, i: nat, slot: nat)
    ensures ChunkAt(a, i, slot) == ChunkAt(a, i, 0) + slot * ChunkSize(i)
  {
    hide Base, ChunkSize;
  }
}
