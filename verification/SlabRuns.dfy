/** What rt_malloc, rt_realloc and rt_free of the slab allocator do to the blocks that callers have, over
    any run. */
module SlabRuns {
  import opened Lists
  import opened SlabZones
  import opened Slabs
  import P = SlabPages

  // ----- what callers have -----

  function SmallLive(zones: map<nat, Zone>): set<nat> { set a, p | a in zones && p in zones[a].out :: p }

  function LargeLive(large: set<P.Run>): set<nat> { set r | r in large :: r.start * PAGE }

  /** The addresses of the blocks that callers have. */
  function Live(s: Slab): set<nat> { SmallLive(s.zones) + LargeLive(s.large) }

  /** How large a block is, as rt_free and rt_realloc find it: by the table of pages. */
  function BlockSize(s: Slab, p: nat): nat {
    match UsageAt(s.usage, p / PAGE)
    case Large(n) => n * PAGE
    case Small(k) => if k <= p / PAGE then ChunkSize(ZoneAt(s.zones, p / PAGE - k).index) else 0
    case Unused => 0
  }

  lemma PageOf(a: nat, n: nat, p: nat)
    requires a * PAGE <= p < (a + n) * PAGE
    ensures p / PAGE in P.Range(a, n)
  {
  }

  /** The table leads from every address of a zone to the zone. */
  lemma InZone(s: Slab, all: set<nat>, a: nat, p: nat)
    requires Sound(s, all) && a in Held(s) && a * PAGE <= p < (a + s.zonePages) * PAGE
    ensures a <= p / PAGE && UsageAt(s.usage, p / PAGE) == Small(p / PAGE - a)
  {
    PageOf(a, s.zonePages, p);
    assert Marked(s.usage, a, s.zonePages);
  }

  /** A chunk that a caller has is behind the header of its zone and within its pages. */
  lemma ChunkInZone(n: nat, a: nat, z: Zone, p: nat)
    requires ZoneOk(n, a, z) && p in z.out
    ensures p in Chunks(a, z.index, z.uindex + 1) && a * PAGE <= p < (a + n) * PAGE && ChunkSize(z.index) > 0
    ensures a * PAGE + HEADER <= p && p + ChunkSize(z.index) <= (a + n) * PAGE
  {
    assert p in Elems(z.chunks) + z.out;
    ChunksWithin(n, a, z.index, z.uindex + 1);
    ChunkSizeBounds(z.index);
    hide Chunks, Capacity, ChunkSize, Elems, Distinct;
  }

  lemma ZoneIsOk(s: Slab, all: set<nat>, a: nat)
    requires Sound(s, all) && a in s.zones
    ensures ZoneOk(s.zonePages, a, s.zones[a]) && a in Held(s)
  {
    hide ZoneOk, PagePart, IdlePart, ListsOk;
  }

  lemma SizeInZone(s: Slab, a: nat, p: nat)
    requires a in s.zones && a <= p / PAGE && UsageAt(s.usage, p / PAGE) == Small(p / PAGE - a)
    ensures BlockSize(s, p) == ChunkSize(s.zones[a].index)
  {
    hide UsageAt, ChunkSize;
  }

  lemma SmallBlock(s: Slab, all: set<nat>, a: nat, p: nat)
    requires Sound(s, all) && a in s.zones && p in s.zones[a].out
    ensures a <= p / PAGE && UsageAt(s.usage, p / PAGE) == Small(p / PAGE - a)
      && BlockSize(s, p) == ChunkSize(s.zones[a].index)
    ensures a * PAGE + HEADER <= p && p + BlockSize(s, p) <= (a + s.zonePages) * PAGE && BlockSize(s, p) > 0
  {
    hide *;
    ZoneIsOk(s, all, a);
    ChunkInZone(s.zonePages, a, s.zones[a], p);
    InZone(s, all, a, p);
    SizeInZone(s, a, p);
  }

  lemma LargeBlock(s: Slab, all: set<nat>, r: P.Run)
    requires Sound(s, all) && r in s.large
    ensures UsageAt(s.usage, r.start * PAGE / PAGE) == Large(r.pages) && BlockSize(s, r.start * PAGE) == r.pages * PAGE
    ensures r.pages > 0 && r in s.pages.out
  {
    assert r in s.pages.out;
  }

  /** An address in a zone is that of a block if and only if the zone has the block out. */
  lemma LiveInZone(s: Slab, all: set<nat>, a: nat, p: nat)
    requires Sound(s, all) && a in Held(s) && a * PAGE <= p < (a + s.zonePages) * PAGE
    ensures p in Live(s) <==> a in s.zones && p in s.zones[a].out
  {
    hide Sound, P.Range, Held;
    InZone(s, all, a, p);
    if p in SmallLive(s.zones) {
      var b: nat :| b in s.zones && p in s.zones[b].out;
      SmallBlock(s, all, b, p);
    }
    if p in LargeLive(s.large) {
      var r: P.Run :| r in s.large && p == r.start * PAGE;
      LargeBlock(s, all, r);
    }
  }

  // ----- rt_malloc keeps -----

  /** One block more, and every other as it was. */
  predicate Gained(s: Slab, t: Slab, p: nat, n: nat) {
    p !in Live(s) && Live(t) == Live(s) + {p} && BlockSize(t, p) >= n && SizesKept(s, t)
  }

  predicate SizesKept(s: Slab, t: Slab) {
    forall q :: q in Live(s) && q in Live(t) ==> BlockSize(t, q) == BlockSize(s, q)
  }

  /** Blocks of both states are in the same zone, or are the same large block. */
  predicate SameHolders(s: Slab, t: Slab) {
    && (forall a, p :: a in s.zones && p in s.zones[a].out && p in Live(t) ==>
        a in t.zones && p in t.zones[a].out && t.zones[a].index == s.zones[a].index)
    && (forall r: P.Run :: r in s.large && r.start * PAGE in Live(t) ==> r in t.large)
  }

  lemma HoldersKeepSizes(s: Slab, t: Slab, all: set<nat>)
    requires Sound(s, all) && Sound(t, all) && SameHolders(s, t)
    ensures SizesKept(s, t)
  {
    hide Sound, BlockSize, ChunkSize;
    forall q | q in Live(s) && q in Live(t)
      ensures BlockSize(t, q) == BlockSize(s, q)
    {
      if q in SmallLive(s.zones) {
        var a: nat :| a in s.zones && q in s.zones[a].out;
        SmallBlock(s, all, a, q);
        SmallBlock(t, all, a, q);
      } else {
        var r: P.Run :| r in s.large && q == r.start * PAGE;
        LargeBlock(s, all, r);
        LargeBlock(t, all, r);
      }
    }
  }

  lemma LiveWith(zones: map<nat, Zone>, a: nat, z: Zone, p: nat)
    requires if a in zones then z.out == zones[a].out + {p} else z.out == {p}
    ensures SmallLive(zones[a := z]) == SmallLive(zones) + {p}
  {
    var more := zones[a := z];
    assert more[a] == z;
    forall q | q in SmallLive(zones)
      ensures q in SmallLive(more)
    {
      var b: nat :| b in zones && q in zones[b].out;
      assert q in more[b].out;
    }
  }

  lemma EmptyWith(zones: map<nat, Zone>, a: nat, z: Zone)
    requires OneEmpty(zones) && z.out != {}
    ensures OneEmpty(zones[a := z])
  {
  }

  lemma HeadOpen(list: seq<nat>, zones: map<nat, Zone>, i: nat)
    requires ListOk(list, zones, i) && list != []
    ensures list[0] in zones && zones[list[0]].index == i && zones[list[0]].nfree > 0
  {
    assert list[0] in Elems(list);
  }

  /** The list of a zone that gave a chunk. */
  lemma ListAfterTake(list: seq<nat>, zones: map<nat, Zone>, z: Zone)
    requires list != [] && ListOk(list, zones, z.index) && z.nfree >= 0
    ensures ListOk(if z.nfree == 0 then list[1..] else list, zones[list[0] := z], z.index)
  {
    HeadOpen(list, zones, z.index);
    OpenWith(zones, list[0], z, z.index);
    HeadIn(list);
    hide Open, Elems, Distinct;
    TailElems(list);
  }

  /** One zone has handed out one chunk more. */
  predicate ZoneGives(s: Slab, t: Slab, a: nat, z: Zone, p: nat) {
    && a in Held(s) && t.zones == s.zones[a := z] && t.large == s.large && t.zonePages == s.zonePages
    && (if a in s.zones then z.index == s.zones[a].index && p !in s.zones[a].out && z.out == s.zones[a].out + {p}
         else z.out == {p})
  }

  lemma GivesSameHolders(s: Slab, t: Slab, a: nat, z: Zone, p: nat)
    requires ZoneGives(s, t, a, z, p)
    ensures SameHolders(s, t) && Live(t) == Live(s) + {p}
  {
    LiveWith(s.zones, a, z, p);
  }

  lemma Gains(s: Slab, t: Slab, all: set<nat>, a: nat, z: Zone, p: nat)
    requires Sound(s, all) && Sound(t, all) && ZoneGives(s, t, a, z, p)
    ensures Gained(s, t, p, ChunkSize(z.index))
  {
    assert t.zones[a] == z && p in z.out;
    hide Sound, SameHolders, SizesKept, BlockSize, ChunkSize, Live;
    GivesSameHolders(s, t, a, z, p);
    HoldersKeepSizes(s, t, all);
    SmallBlock(t, all, a, p);
    LiveInZone(s, all, a, p);
  }

  lemma ListIsOk(s: Slab, all: set<nat>, i: nat)
    requires Sound(s, all) && i < NZONES
    ensures ListOk(ListAt(s.lists, i), s.zones, i) && |s.lists| == NZONES
  {
    hide ListOk, PagePart, IdlePart, ZonesOk;
  }

  lemma SetSame(lists: seq<seq<nat>>, i: nat)
    ensures SetList(lists, i, ListAt(lists, i)) == lists
  {
  }

  /** A chunk of a zone that has one free. */
  lemma TakeFromKeeps(s: Slab, all: set<nat>, i: nat)
    requires Inv(s, all) && i < NZONES && ListAt(s.lists, i) != []
    ensures var o := TakeFrom(s, ListAt(s.lists, i)[0], i);
      && Inv(o.slab, all) && o.ptr.At?
      && Gained(s, o.slab, o.ptr.address, ChunkSize(i))
  {
    hide Sound, OneEmpty, ZoneOk, ListOk, Take, ListAt, SetList, Held, Gained;
    var list := ListAt(s.lists, i);
    var a := list[0];
    ListIsOk(s, all, i);
    HeadOpen(list, s.zones, i);
    ZoneIsOk(s, all, a);
    var z := s.zones[a];
    var t := Take(s.zonePages, a, z);
    TakeKeeps(s.zonePages, a, z);
    var list2 := if t.zone.nfree == 0 then list[1..] else list;
    ListAfterTake(list, s.zones, t.zone);
    SetKeeps(s, all, a, t.zone, list2);
    SetSame(s.lists, i);
    EmptyWith(s.zones, a, t.zone);
    Gains(s, TakeFrom(s, a, i).slab, all, a, t.zone, t.chunk);
  }

  /** A zone that was set aside is put to use: its first chunk. */
  lemma ReuseKeeps(s: Slab, all: set<nat>, i: nat)
    requires Sound(s, all) && OneEmpty(s.zones) && |s.idle| <= IDLE_MAX + 1 && Serves(s.zonePages, i) && s.idle != []
    ensures var o := Begin(s.(idle := s.idle[1..]), s.idle[0], i);
      && Inv(o.slab, all) && o.ptr.At?
      && Gained(s, o.slab, o.ptr.address, ChunkSize(i))
  {
    var a := s.idle[0];
    var z := FreshZone(s.zonePages, a, i);
    FreshKeeps(s.zonePages, a, i);
    assert z.index == i && z.out == {ChunkAt(a, i, 0)};
    assert a !in s.zones && a in Held(s) by {
      HeadIn(s.idle);
      hide ZonePart, PagePart, FreshZone, Capacity, ChunkAt;
    }
    hide Sound, OneEmpty, ZoneOk, FreshZone, ChunkAt, ChunkSize, SetList, ListAt, Held, Gained, Serves;
    BeginKeeps(s, all, i);
    EmptyWith(s.zones, a, z);
    var t := Begin(s.(idle := s.idle[1..]), a, i).slab;
    Gains(s, t, all, a, z, ChunkAt(a, i, 0));
  }

  /** A zone with pages of its own: its first chunk. */
  lemma NewZoneKeeps(s: Slab, all: set<nat>, i: nat)
    requires Inv(s, all) && Serves(s.zonePages, i) && s.idle == [] && P.Alloc(s.pages.free, s.zonePages).got.At?
    ensures var g := P.Alloc(s.pages.free, s.zonePages);
      var o := Begin(NewZone(s, g.got.start, g.list), g.got.start, i);
      && Inv(o.slab, all) && o.ptr.At?
      && Gained(s, o.slab, o.ptr.address, ChunkSize(i))
  {
    var g := P.Alloc(s.pages.free, s.zonePages);
    var f := Fetched(s, g.got.start, g.list);
    assert f.idle == [g.got.start] && f.idle[1..] == [] && f.(idle := f.idle[1..]) == NewZone(s, g.got.start, g.list);
    hide Sound, P.Alloc, Serves, OneEmpty, Gained, Begin, NewZone, ChunkSize;
    FetchedKeeps(s, all);
    FetchedSame(s, g.got.start, g.list);
    ReuseKeeps(f, all, i);
    HoldersKeepSizes(s, f, all);
    var o := Begin(NewZone(s, g.got.start, g.list), g.got.start, i);
    GainedAfter(s, f, o.slab, o.ptr.address, ChunkSize(i));
  }

  lemma FetchedSame(s: Slab, a: nat, free: seq<P.Run>)
    ensures var f := Fetched(s, a, free);
      SameHolders(s, f) && Live(f) == Live(s) && f.zones == s.zones && f.zonePages == s.zonePages && f.lists == s.lists
  {
    hide MarkZone;
  }

  lemma GainedAfter(s: Slab, f: Slab, t: Slab, p: nat, n: nat)
    requires Live(f) == Live(s) && SizesKept(s, f) && Gained(f, t, p, n)
    ensures Gained(s, t, p, n)
  {
    hide Live, BlockSize;
  }

  lemma LargeLiveWith(large: set<P.Run>, r: P.Run)
    ensures LargeLive(large + {r}) == LargeLive(large) + {r.start * PAGE}
  {
  }

  lemma LargeKeeps(s: Slab, all: set<nat>, n: nat)
    requires Inv(s, all)
    ensures var o := MallocLarge(s, n);
      && Inv(o.slab, all)
      && match o.ptr { case Null => o.slab == s case At(p) => Gained(s, o.slab, p, PagesFor(n) * PAGE) }
  {
    var count := PagesFor(n);
    var got := P.Alloc(s.pages.free, count).got;
    var o := MallocLarge(s, n);
    if count > 0 && got.At? {
      var r := P.Run(got.start, count);
      hide ZonePart, IdlePart, PagePart, OneEmpty, P.Alloc, PagesFor, SmallLive, Held, BlockSize, SizesKept;
      LargeWith(s.zonePages, Held(s), s.usage, s.pages, s.large, s.table, all, count);
      hide LargeLive;
      LargeLiveWith(s.large, r);
      LargeNotLive(s, o.slab, all, r);
      HoldersKeepSizes(s, o.slab, all);
      LargeBlock(o.slab, all, r);
    }
  }

  /** A large block begins where no block began. */
  lemma LargeNotLive(s: Slab, t: Slab, all: set<nat>, r: P.Run)
    requires Sound(s, all) && Sound(t, all) && r !in s.large && t.large == s.large + {r} && t.zones == s.zones
    ensures r.start * PAGE !in Live(s) && SameHolders(s, t)
  {
    hide Sound, BlockSize, ChunkSize;
    LargeBlock(t, all, r);
    var p := r.start * PAGE;
    if p in SmallLive(s.zones) {
      var a: nat :| a in s.zones && p in s.zones[a].out;
      SmallBlock(t, all, a, p);
    }
    if p in LargeLive(s.large) {
      var q: P.Run :| q in s.large && q.start * PAGE == p;
      LargeBlock(t, all, q);
    }
  }

  lemma PagesEnough(n: nat)
    requires n < 0x1_0000_0000 && PagesFor(n) > 0
    ensures PagesFor(n) * PAGE >= n
  {
  }

  lemma SmallKeeps(s: Slab, all: set<nat>, i: nat)
    requires Inv(s, all) && Serves(s.zonePages, i)
    ensures var o := MallocSmall(s, i);
      && Inv(o.slab, all)
      && match o.ptr { case Null => o.slab == s case At(p) => Gained(s, o.slab, p, ChunkSize(i)) }
  {
    hide Sound, OneEmpty, Gained, TakeFrom, Begin, NewZone, ListAt, P.Alloc, ChunkSize;
    if ListAt(s.lists, i) != [] {
      TakeFromKeeps(s, all, i);
    } else if s.idle != [] {
      ReuseKeeps(s, all, i);
    } else if P.Alloc(s.pages.free, s.zonePages).got.At? {
      NewZoneKeeps(s, all, i);
    }
  }

  /** rt_malloc keeps every view consistent; it hands out a block that no caller had, large enough, and changes
      no other; and when it fails it changes nothing. */
  lemma MallocKeeps(s: Slab, all: set<nat>, n: nat)
    requires Inv(s, all) && n < 0x1_0000_0000
    ensures var o := Malloc(s, n);
      && Inv(o.slab, all)
      && match o.ptr { case Null => o.slab == s case At(p) => Gained(s, o.slab, p, n) }
  {
    assert ZoneSize(s.zonePages);
    hide Inv, Gained, MallocSmall, MallocLarge, PagesFor, ZoneIndex, ChunkSize;
    if n >= ZoneLimit(s.zonePages) {
      LargeKeeps(s, all, n);
      var o := MallocLarge(s, n);
      if o.ptr.At? {
        LargePtr(s, n);
        PagesEnough(n);
        GainedLess(s, o.slab, o.ptr.address, PagesFor(n) * PAGE, n);
      }
    } else if n > 0 {
      BelowLimit(s.zonePages, n);
      ZoneIndexFits(n);
      var i := IndexFor(n);
      SmallKeeps(s, all, i);
      var o := MallocSmall(s, i);
      if o.ptr.At? { GainedLess(s, o.slab, o.ptr.address, ChunkSize(i), n); }
    }
  }

  lemma LargePtr(s: Slab, n: nat)
    ensures MallocLarge(s, n).ptr.At? ==> PagesFor(n) > 0
  {
  }

  lemma GainedLess(s: Slab, t: Slab, p: nat, m: nat, n: nat)
    requires Gained(s, t, p, m) && n <= m
    ensures Gained(s, t, p, n)
  {
    hide Live, BlockSize, SizesKept;
  }

  lemma SmallFailsIff(s: Slab, all: set<nat>, i: nat)
    requires Inv(s, all) && i < NZONES
    ensures MallocSmall(s, i).ptr == Null <==>
      Open(s.zones, i) == {} && s.idle == [] && !P.HasRun(P.Pages(s.pages.free), s.zonePages)
  {
    PagesCoalesced(s, all);
    hide Sound, OneEmpty, Open, P.Alloc, P.Coalesced, P.Pages, ListAt, P.HasRun;
    ListIsOk(s, all, i);
    OpenNone(ListAt(s.lists, i), s.zones, i);
    P.AllocFailsIff(s.pages.free, s.zonePages);
  }

  lemma LargeFailsIff(s: Slab, all: set<nat>, n: nat)
    requires Inv(s, all)
    ensures MallocLarge(s, n).ptr == Null <==> (PagesFor(n) == 0 || !P.HasRun(P.Pages(s.pages.free), PagesFor(n)))
  {
    PagesCoalesced(s, all);
    hide Inv, P.Alloc, P.Coalesced, P.Pages, PagesFor;
    if PagesFor(n) > 0 { P.AllocFailsIff(s.pages.free, PagesFor(n)); }
  }

  lemma PagesCoalesced(s: Slab, all: set<nat>)
    requires Sound(s, all)
    ensures ZoneSize(s.zonePages) && P.Coalesced(s.pages.free)
  {
    hide ZonesOk, ListsOk, OutOk, UsageOk, IdlePart;
  }

  /** rt_malloc fails if and only if the request is for nothing, or is large and there are not that many free
      pages in a row (a request that rounds up to 4 GB is for none), or is small and no zone of its size has a
      free chunk, no zone is set aside, and there are no pages for another zone. */
  lemma MallocFailsIff(s: Slab, all: set<nat>, n: nat)
    requires Inv(s, all)
    ensures Malloc(s, n).ptr == Null <==>
      || n == 0
      || (n >= ZoneLimit(s.zonePages) && (PagesFor(n) == 0 || !P.HasRun(P.Pages(s.pages.free), PagesFor(n))))
      || (0 < n < ZoneLimit(s.zonePages) && Open(s.zones, IndexFor(n)) == {} && s.idle == []
          && !P.HasRun(P.Pages(s.pages.free), s.zonePages))
  {
    PagesCoalesced(s, all);
    hide Inv, MallocSmall, MallocLarge, Open, P.HasRun, P.Pages, ZoneIndex;
    if n >= ZoneLimit(s.zonePages) {
      LargeFailsIff(s, all, n);
    } else if n > 0 {
      BelowLimit(s.zonePages, n);
      SmallFailsIff(s, all, IndexFor(n));
    }
  }

  lemma OpenNone(list: seq<nat>, zones: map<nat, Zone>, i: nat)
    requires ListOk(list, zones, i)
    ensures list == [] <==> Open(zones, i) == {}
  {
    if list != [] { HeadIn(list); }
  }

  // ----- rt_free keeps -----

  /** One block less, and every other as it was. */
  predicate Lost(s: Slab, t: Slab, p: nat) { Live(t) == Live(s) - {p} && SizesKept(s, t) }

  lemma ListAfterGive(list: seq<nat>, zones: map<nat, Zone>, a: nat, z: Zone)
    requires a in zones && zones[a].index == z.index && z.nfree == zones[a].nfree + 1 && z.nfree > 0
      && ListOk(list, zones, z.index)
    ensures ListOk(if zones[a].nfree == 0 then [a] + list else list, zones[a := z], z.index)
  {
    assert a in Open(zones, z.index) <==> zones[a].nfree > 0;
    hide Open, Elems, Distinct;
    if zones[a].nfree == 0 {
      ListPushed(list, zones, a, z);
    } else {
      OpenWith(zones, a, z, z.index);
      assert Open(zones, z.index) + {a} == Open(zones, z.index);
    }
  }

  lemma GiveToKeeps(s: Slab, all: set<nat>, a: nat, p: nat)
    requires Sound(s, all) && a in s.zones && p in s.zones[a].out
    ensures Sound(GiveTo(s, a, p), all) && ListAt(GiveTo(s, a, p).lists, s.zones[a].index) != []
  {
    hide Sound, ZoneOk, ListOk, Give, Distinct, Elems;
    var z := s.zones[a];
    ZoneIsOk(s, all, a);
    IndexInTable(s.zonePages, a, z);
    ListIsOk(s, all, z.index);
    GiveKeeps(s.zonePages, a, z, p);
    GiveCounts(z, p);
    ListAfterGive(ListAt(s.lists, z.index), s.zones, a, Give(z, p));
    var list := if z.nfree == 0 then [a] + ListAt(s.lists, z.index) else ListAt(s.lists, z.index);
    SetKeeps(s, all, a, Give(z, p), list);
    SetSame(s.lists, z.index);
    OpenHasList(list, s.zones[a := Give(z, p)], a, z.index);
  }

  lemma OpenHasList(list: seq<nat>, zones: map<nat, Zone>, a: nat, i: nat)
    requires ListOk(list, zones, i) && a in zones && zones[a].index == i && zones[a].nfree > 0
    ensures list != []
  {
    assert a in Open(zones, i);
  }

  lemma GiveCounts(z: Zone, p: nat)
    ensures Give(z, p).index == z.index && Give(z, p).nfree == z.nfree + 1 && Give(z, p).out == z.out - {p}
  {
  }

  lemma IndexInTable(n: nat, a: nat, z: Zone)
    requires ZoneOk(n, a, z)
    ensures z.index < NZONES && z.nfree >= 0
  {
  }

  lemma LiveWithout(zones: map<nat, Zone>, a: nat, z: Zone, p: nat)
    requires a in zones && z.out == zones[a].out - {p} && p in zones[a].out
    ensures SmallLive(zones[a := z]) - {p} == SmallLive(zones) - {p}
  {
    var less := zones[a := z];
    forall q | q in SmallLive(zones) && q != p
      ensures q in SmallLive(less)
    {
      var b: nat :| b in zones && q in zones[b].out;
      assert q in less[b].out;
    }
  }

  /** A chunk that its zone took back is no block. */
  lemma NotOutNotLive(s: Slab, g: Slab, all: set<nat>, a: nat, p: nat)
    requires Sound(s, all) && Sound(g, all) && g.zonePages == s.zonePages
    requires a in s.zones && p in s.zones[a].out && a in g.zones && p !in g.zones[a].out
    ensures p !in Live(g)
  {
    hide Sound, ZoneOk, BlockSize, Live, ChunkSize;
    SmallBlock(s, all, a, p);
    ZoneIsOk(g, all, a);
    hide Held;
    LiveInZone(g, all, a, p);
  }

  lemma GiveToLoses(s: Slab, all: set<nat>, a: nat, p: nat)
    requires Sound(s, all) && a in s.zones && p in s.zones[a].out
    ensures Live(GiveTo(s, a, p)) == Live(s) - {p}
  {
    hide Sound, SmallLive, LargeLive;
    var g, z := GiveTo(s, a, p), Give(s.zones[a], p);
    assert g.zones == s.zones[a := z] && g.large == s.large;
    LiveWithout(s.zones, a, z, p);
    GiveToKeeps(s, all, a, p);
    NotOutNotLive(s, g, all, a, p);
    var a0, a1, l := SmallLive(s.zones), SmallLive(g.zones), LargeLive(s.large);
    assert Live(s) == a0 + l && Live(g) == a1 + l && a1 - {p} == a0 - {p};
    BothLess(a0, a1, l, p);
  }

  lemma BothLess(a: set<nat>, b: set<nat>, l: set<nat>, p: nat)
    requires b - {p} == a - {p} && p !in b + l
    ensures b + l == a + l - {p}
  {
    forall q
      ensures q in b + l <==> q in a + l - {p}
    {
      assert q in b - {p} <==> q in a - {p};
    }
  }

  lemma GiveToSameHolders(s: Slab, a: nat, p: nat)
    requires a in s.zones && p in s.zones[a].out && p !in Live(GiveTo(s, a, p))
    ensures SameHolders(s, GiveTo(s, a, p))
  {
    var g, z := GiveTo(s, a, p), Give(s.zones[a], p);
    assert g.zones == s.zones[a := z] && g.large == s.large;
    hide GiveTo, SmallLive, LargeLive, Live;
  }

  /** If only one zone of its size has free chunks, it may be the one without a chunk in use. */
  lemma AloneEmpty(n: nat, zones: map<nat, Zone>, a: nat, z: Zone)
    requires OneEmpty(zones) && ZonesOk(zones[a := z], n) && Open(zones[a := z], z.index) == {a}
    ensures OneEmpty(zones[a := z])
  {
    var more := zones[a := z];
    hide ZoneOk, Open;
    forall b, c | b in more && c in more && more[b].index == more[c].index && more[b].out == {} && more[c].out == {}
      ensures b == c
    {
      EmptyIsOpen(n, more, b);
      EmptyIsOpen(n, more, c);
      assert more[a] == z && (b != a ==> more[b] == zones[b]) && (c != a ==> more[c] == zones[c]);
      if more[b].index == z.index { assert b in {a} && c in {a}; }
    }
  }

  lemma EmptyIsOpen(n: nat, zones: map<nat, Zone>, b: nat)
    requires ZonesOk(zones, n) && b in zones && zones[b].out == {}
    ensures b in Open(zones, zones[b].index)
  {
    ZoneCounts(n, b, zones[b]);
  }

  /** Zones are as they were, but for some without a chunk in use, which are gone. */
  predicate SameOut(s: map<nat, Zone>, t: map<nat, Zone>) {
    && (forall b :: b in t ==> b in s && t[b] == s[b])
    && (forall b :: b in s && b !in t ==> s[b].out == {})
  }

  lemma SameOutLive(s: Slab, t: Slab)
    requires SameOut(s.zones, t.zones) && t.large == s.large
    ensures Live(t) == Live(s) && SameHolders(s, t)
  {
    forall p | p in SmallLive(s.zones)
      ensures p in SmallLive(t.zones)
    {
      var b: nat :| b in s.zones && p in s.zones[b].out;
      assert p in t.zones[b].out;
    }
    assert SmallLive(t.zones) == SmallLive(s.zones);
    hide SmallLive, LargeLive;
  }

  lemma RetiredSame(s: Slab, a: nat)
    requires a in s.zones && s.zones[a].out == {}
    ensures SameOut(s.zones, Retire(s, a).zones) && Retire(s, a).large == s.large && Retire(s, a).idle == [a] + s.idle
  {
    hide Remove, SetList, ListAt;
  }

  lemma ReleasedSame(s: Slab)
    ensures Release(s).zones == s.zones && Release(s).large == s.large
    ensures s.idle != [] ==> Release(s).idle == s.idle[1..]
  {
    hide PutBack, MarkUnused;
  }

  lemma WithoutStillOne(zones: map<nat, Zone>, a: nat, z: Zone, less: map<nat, Zone>)
    requires OneEmpty(zones) && a !in less && forall b :: b in less ==>
      b in zones[a := z] && less[b] == zones[a := z][b]
    ensures OneEmpty(less)
  {
    assert forall b :: b in less ==> b in zones && less[b] == zones[b];
  }

  /** A zone leaves use. */
  lemma LeaveKeeps(s: Slab, g: Slab, all: set<nat>, a: nat, z: Zone)
    requires Inv(s, all) && Sound(g, all) && a in s.zones && g.zones == s.zones[a := z] && g.idle == s.idle
      && z.out == {}
    ensures var t := Retire(g, a); var u := if |t.idle| > IDLE_MAX then Release(t) else t;
      Inv(u, all) && SameOut(g.zones, u.zones) && u.large == g.large
  {
    var t := Retire(g, a);
    assert g.zones[a] == z && t.zones == g.zones - {a};
    hide Sound, OneEmpty, Retire, Release;
    RetireKeeps(g, all, a);
    RetiredSame(g, a);
    WithoutStillOne(s.zones, a, z, t.zones);
    ReleasedSame(t);
    if |t.idle| > IDLE_MAX { ReleaseKeeps(t, all); }
  }

  lemma OpenAlone(zones: map<nat, Zone>, i: nat, a: nat)
    requires ListOk([a], zones, i)
    ensures Open(zones, i) == {a}
  {
    assert Elems([a]) == {a};
  }

  lemma AllFree(n: nat, a: nat, z: Zone)
    requires ZoneOk(n, a, z)
    ensures z.nfree == Capacity(n, z.index) <==> z.out == {}
  {
    ZoneCounts(n, a, z);
  }

  lemma SetAsideKeeps(s: Slab, g: Slab, all: set<nat>, a: nat, z: Zone)
    requires Inv(s, all) && Sound(g, all) && a in s.zones && g.zones == s.zones[a := z] && g.idle == s.idle
    ensures var t := SetAside(g, a); Inv(t, all) && SameOut(g.zones, t.zones) && t.large == g.large
  {
    assert g.zones[a] == z && ZoneAt(g.zones, a) == z && |g.idle| <= IDLE_MAX && ZonesOk(g.zones, g.zonePages);
    assert OneEmpty(s.zones);
    hide Sound, OneEmpty, Retire, Release, Capacity, ZoneOk, ListOk, ListAt, Open;
    ZoneIsOk(g, all, a);
    AllFree(g.zonePages, a, z);
    IndexInTable(g.zonePages, a, z);
    if z.nfree != Capacity(g.zonePages, z.index) {
      EmptyWith(s.zones, a, z);
    } else if ListAt(g.lists, z.index) == [a] {
      ListIsOk(g, all, z.index);
      OpenAlone(g.zones, z.index, a);
      AloneEmpty(g.zonePages, s.zones, a, z);
    } else {
      LeaveKeeps(s, g, all, a, z);
    }
  }

  lemma FreeSmallKeeps(s: Slab, all: set<nat>, a: nat, p: nat)
    requires Inv(s, all) && a in s.zones && p in s.zones[a].out
    ensures Inv(FreeSmall(s, a, p), all) && Lost(s, FreeSmall(s, a, p), p)
  {
    var z := Give(s.zones[a], p);
    var g := GiveTo(s, a, p);
    assert g.zones == s.zones[a := z] && g.idle == s.idle;
    hide Sound, OneEmpty, GiveTo, Give, SetAside, Live, SameOut, SizesKept;
    GiveToKeeps(s, all, a, p);
    GiveToLoses(s, all, a, p);
    GiveToSameHolders(s, a, p);
    SetAsideKeeps(s, g, all, a, z);
    var t := SetAside(g, a);
    SameOutLive(g, t);
    HoldersKeepSizes(s, g, all);
    HoldersKeepSizes(g, t, all);
    SizesThrough(s, g, t);
  }

  lemma SizesThrough(s: Slab, g: Slab, t: Slab)
    requires SizesKept(s, g) && SizesKept(g, t) && Live(t) == Live(g)
    ensures SizesKept(s, t)
  {
    hide Live, BlockSize;
  }

  lemma LargeLiveWithout(s: Slab, all: set<nat>, r: P.Run)
    requires Sound(s, all) && r in s.large
    ensures LargeLive(s.large - {r}) == LargeLive(s.large) - {r.start * PAGE} && r.start * PAGE !in SmallLive(s.zones)
  {
    hide Sound, BlockSize;
    LargeBlock(s, all, r);
    forall q: P.Run | q in s.large && q != r
      ensures q.start * PAGE != r.start * PAGE
    {
      LargeBlock(s, all, q);
    }
    if r.start * PAGE in SmallLive(s.zones) {
      var a: nat :| a in s.zones && r.start * PAGE in s.zones[a].out;
      SmallBlock(s, all, a, r.start * PAGE);
    }
  }

  lemma FreeLargeKeeps(s: Slab, all: set<nat>, r: P.Run)
    requires Inv(s, all) && r in s.large
    ensures Inv(FreeLarge(s, r), all) && Lost(s, FreeLarge(s, r), r.start * PAGE)
  {
    var t := FreeLarge(s, r);
    assert Held(t) == Held(s);
    hide ZonePart, IdlePart, PagePart, OneEmpty, P.Free, SmallLive, LargeLive, Held, BlockSize, SizesKept, SameHolders;
    LargeWithout(s.zonePages, Held(s), s.usage, s.pages, s.large, s.table, all, r);
    assert Sound(t, all);
    LargeLiveWithout(s, all, r);
    assert Live(t) == Live(s) - {r.start * PAGE};
    LargeSameHolders(s, t, r);
    HoldersKeepSizes(s, t, all);
  }

  lemma LargeSameHolders(s: Slab, t: Slab, r: P.Run)
    requires t.zones == s.zones && t.large == s.large - {r} && r.start * PAGE !in Live(t)
    ensures SameHolders(s, t)
  {
  }

  /** rt_free takes back the block it is given, which the table of pages finds, and changes no other. */
  lemma FreeKeeps(s: Slab, all: set<nat>, p: nat)
    requires Inv(s, all) && p in Live(s)
    ensures Inv(Free(s, p), all) && Lost(s, Free(s, p), p)
  {
    hide Sound, OneEmpty, Lost, FreeSmall, FreeLarge, BlockSize;
    if p in SmallLive(s.zones) {
      var a: nat :| a in s.zones && p in s.zones[a].out;
      SmallBlock(s, all, a, p);
      FreeSmallKeeps(s, all, a, p);
    } else {
      var r: P.Run :| r in s.large && p == r.start * PAGE;
      LargeBlock(s, all, r);
      FreeLargeKeeps(s, all, r);
    }
  }

  // ----- blocks do not overlap -----

  /** The run of pages that a block is in. */
  lemma BlockRun(s: Slab, all: set<nat>, p: nat) returns (r: P.Run)
    requires Sound(s, all) && p in Live(s)
    ensures r in s.pages.out && r.start * PAGE <= p && p + BlockSize(s, p) <= (r.start + r.pages) * PAGE
      && BlockSize(s, p) > 0
    ensures if r in s.large then p == r.start * PAGE else r.start in s.zones && p in s.zones[r.start].out
  {
    hide Sound, BlockSize;
    if p in SmallLive(s.zones) {
      var a: nat :| a in s.zones && p in s.zones[a].out;
      SmallBlock(s, all, a, p);
      r := P.Run(a, s.zonePages);
      ZoneRun(s, all, a);
    } else {
      r :| r in s.large && p == r.start * PAGE;
      LargeBlock(s, all, r);
    }
  }

  lemma ZoneRun(s: Slab, all: set<nat>, a: nat)
    requires Sound(s, all) && a in s.zones
    ensures P.Run(a, s.zonePages) in s.pages.out && P.Run(a, s.zonePages) !in s.large
  {
    hide ZonePart, IdlePart, P.Inv, UsageOk;
    assert a in Held(s);
    assert P.Run(a, s.zonePages) in Extents(Held(s), s.zonePages);
  }

  lemma RangesInOrder(a: nat, m: nat, b: nat, n: nat)
    requires P.Range(a, m) !! P.Range(b, n) && m > 0 && n > 0
    ensures a + m <= b || b + n <= a
  {
    assert a in P.Range(a, m) && b in P.Range(b, n);
  }

  /** Blocks that callers have do not overlap. */
  lemma LiveApart(s: Slab, all: set<nat>, p: nat, q: nat)
    requires Inv(s, all) && p in Live(s) && q in Live(s) && p < q
    ensures p + BlockSize(s, p) <= q
  {
    hide Sound, OneEmpty, BlockSize, Live, P.Range;
    var r := BlockRun(s, all, p);
    var t := BlockRun(s, all, q);
    if r == t && r in s.large {
    } else if r == t {
      SameZoneApart(s, all, r.start, p, q);
    } else {
      InvPages(s, all);
      OutRuns(s.pages, all, r, t);
      PagesPositive(s.pages, all, r);
      PagesPositive(s.pages, all, t);
      RangesInOrder(r.start, r.pages, t.start, t.pages);
    }
  }

  lemma InvPages(s: Slab, all: set<nat>)
    requires Sound(s, all)
    ensures P.Inv(s.pages, all)
  {
  }

  lemma PagesPositive(pages: P.State, all: set<nat>, r: P.Run)
    requires P.Inv(pages, all) && r in pages.out
    ensures r.pages > 0
  {
  }

  lemma SameZoneApart(s: Slab, all: set<nat>, a: nat, p: nat, q: nat)
    requires Sound(s, all) && a in s.zones && p in s.zones[a].out && q in s.zones[a].out && p < q
    ensures p + BlockSize(s, p) <= q
  {
    var z := s.zones[a];
    hide Sound, ZoneOk, BlockSize, Chunks, Spaced, ChunkSize;
    SmallBlock(s, all, a, p);
    ZoneIsOk(s, all, a);
    ChunkInZone(s.zonePages, a, z, p);
    ChunkInZone(s.zonePages, a, z, q);
    ChunksApart(a, z.index, z.uindex + 1);
    SpacedBy(Chunks(a, z.index, z.uindex + 1), ChunkSize(z.index), p, q);
  }

  lemma SpacedBy(ps: set<nat>, c: nat, p: nat, q: nat)
    requires Spaced(ps, c) && p in ps && q in ps && p < q
    ensures p + c <= q
  {
  }

  // ----- rt_realloc, and runs -----

  /** The request that rt_realloc makes in place of n: zoneindex has raised it to a chunk size. */
  function Raised(n: nat): nat { if n < LIMIT then ZoneIndex(n).bytes else n }

  /** The block stays where it is if its chunks are of the size that the new request is raised to; otherwise
      it moves; its contents move with it as SlabAllocator.Realloc says. */
  function Realloc(s: Slab, ptr: Ptr, n: nat): Outcome {
    match ptr
    case Null => Malloc(s, n)
    case At(p) =>
      if n == 0 then Outcome(Free(s, p), Null)
      else match UsageAt(s.usage, p / PAGE)
        case Large(_) => Moved(s, p, n)
        case Small(_) => if BlockSize(s, p) == Raised(n) then Outcome(s, ptr) else Moved(s, p, Raised(n))
        case Unused => Outcome(s, Null)
  }

  function Moved(s: Slab, p: nat, n: nat): Outcome {
    var o := Malloc(s, n);
    if o.ptr.Null? then Outcome(o.slab, Null) else Outcome(Free(o.slab, p), o.ptr)
  }

  /** A block gives way to another. */
  predicate Replaced(s: Slab, t: Slab, p: nat, q: nat, n: nat) {
    && q in Live(t) && BlockSize(t, q) >= n && Live(t) == Live(s) - {p} + {q} && (q in Live(s) ==> q == p)
    && (forall r :: r in Live(s) && r != p ==> BlockSize(t, r) == BlockSize(s, r))
  }

  lemma MovedKeeps(s: Slab, all: set<nat>, p: nat, n: nat)
    requires Inv(s, all) && p in Live(s) && n < 0x1_0000_0000
    ensures var o := Moved(s, p, n);
      && Inv(o.slab, all)
      && match o.ptr { case Null => o.slab == s case At(q) => Replaced(s, o.slab, p, q, n) }
  {
    hide Inv, Live, BlockSize, Malloc, Free;
    MallocKeeps(s, all, n);
    var m := Malloc(s, n);
    if m.ptr.At? { FreeKeeps(m.slab, all, p); }
  }

  lemma RaisedBounds(n: nat)
    requires 1 <= n < 0x1_0000_0000
    ensures n <= Raised(n) < 0x1_0000_0000
  {
    if n < LIMIT {
      ZoneIndexFits(n);
      ChunkSizeBounds(ZoneIndex(n).index);
      hide ZoneIndex, ChunkSize;
    }
  }

  /** rt_realloc leaves a block of at least the size asked for, at the old place or at a new one, and every
      other block as it was; if it cannot, it leaves the old block; and a request for nothing releases it. */
  lemma ReallocKeeps(s: Slab, all: set<nat>, p: nat, n: nat)
    requires Inv(s, all) && p in Live(s) && n < 0x1_0000_0000
    ensures var o := Realloc(s, At(p), n);
      && Inv(o.slab, all)
      && if n == 0 then o.ptr == Null && Lost(s, o.slab, p)
         else match o.ptr { case Null => o.slab == s case At(q) => Replaced(s, o.slab, p, q, n) }
  {
    hide Sound, OneEmpty, Live, Moved, BlockSize, Raised, Free, Lost, Replaced;
    if n == 0 {
      FreeKeeps(s, all, p);
    } else {
      RaisedBounds(n);
      MovedKeeps(s, all, p, n);
      MovedKeeps(s, all, p, Raised(n));
      if BlockSize(s, p) == Raised(n) { Stays(s, p, n); }
      var o := Moved(s, p, Raised(n));
      if o.ptr.At? { ReplacedLess(s, o.slab, p, o.ptr.address, Raised(n), n); }
      InUse(s, all, p);
    }
  }

  lemma Stays(s: Slab, p: nat, n: nat)
    requires p in Live(s) && BlockSize(s, p) >= n
    ensures Replaced(s, s, p, p, n)
  {
    hide Live, BlockSize;
  }

  lemma ReplacedLess(s: Slab, t: Slab, p: nat, q: nat, m: nat, n: nat)
    requires Replaced(s, t, p, q, m) && n <= m
    ensures Replaced(s, t, p, q, n)
  {
    hide Live, BlockSize;
  }

  lemma InUse(s: Slab, all: set<nat>, p: nat)
    requires Sound(s, all) && p in Live(s)
    ensures UsageAt(s.usage, p / PAGE) != Unused
  {
    hide Sound, BlockSize;
    if p in SmallLive(s.zones) {
      var a: nat :| a in s.zones && p in s.zones[a].out;
      SmallBlock(s, all, a, p);
    } else {
      var r: P.Run :| r in s.large && p == r.start * PAGE;
      LargeBlock(s, all, r);
    }
  }

  datatype Op = OpMalloc(n: nat) | OpRealloc(ptr: Ptr, n: nat) | OpFree(p: nat)

  /** Requests are 32 bits wide, and callers pass blocks that they have. */
  predicate Legal(s: Slab, op: Op) {
    match op
    case OpMalloc(n) => n < 0x1_0000_0000
    case OpRealloc(ptr, n) => n < 0x1_0000_0000 && (ptr.At? ==> ptr.address in Live(s))
    case OpFree(p) => p in Live(s)
  }

  function Step(s: Slab, op: Op): Slab {
    match op
    case OpMalloc(n) => Malloc(s, n).slab
    case OpRealloc(ptr, n) => Realloc(s, ptr, n).slab
    case OpFree(p) => Free(s, p)
  }

  predicate LegalRun(s: Slab, ops: seq<Op>)
    decreases |ops|
  {
    ops == [] || (Legal(s, ops[0]) && LegalRun(Step(s, ops[0]), ops[1..]))
  }

  function After(s: Slab, ops: seq<Op>): Slab
    decreases |ops|
  {
    if ops == [] then s else After(Step(s, ops[0]), ops[1..])
  }

  lemma StepKeeps(s: Slab, all: set<nat>, op: Op)
    requires Inv(s, all) && Legal(s, op)
    ensures Inv(Step(s, op), all)
  {
    hide Inv, Malloc, Free, Live, Gained, Lost, Replaced;
    match op {
      case OpMalloc(n) => MallocKeeps(s, all, n);
      case OpRealloc(ptr, n) =>
        MallocKeeps(s, all, n);
        if ptr.At? { hide Realloc; ReallocKeeps(s, all, ptr.address, n); }
      case OpFree(p) => FreeKeeps(s, all, p);
    }
  }

  /** Over any run of rt_malloc, rt_realloc and rt_free every view stays consistent. */
  lemma {:induction false} RunKeeps(s: Slab, all: set<nat>, ops: seq<Op>)
    requires Inv(s, all) && LegalRun(s, ops)
    ensures Inv(After(s, ops), all)
    decreases |ops|
  {
    if ops != [] {
      StepKeeps(s, all, ops[0]);
      hide Inv, Step, Legal;
      RunKeeps(Step(s, ops[0]), all, ops[1..]);
    }
  }

  // ----- rt_system_heap_init -----

  /** Doubled from 32 KB while a zone is less than a thousandth of half the heap, up to 128 KB. */
  function ZonePagesFor(pages: nat): nat {
    var kilobytes := pages * PAGE / 1024;
    if 16 * PAGE < kilobytes then (if 32 * PAGE < kilobytes then 32 else 16) else 8
  }

  /** The pages of the table: four bytes for each page of the heap. */
  function TablePages(pages: nat): nat { RoundUp(4 * pages, PAGE) / PAGE }

  function NoLists(): (ls: seq<seq<nat>>)
    ensures |ls| == NZONES && forall i :: 0 <= i < NZONES ==> ls[i] == []
  {
    seq(NZONES, _ => [])
  }

  /** No zones yet: the table of pages is all that is in use. */
  function Initial(start: nat, pages: nat): Slab {
    var o := P.Alloc([P.Run(start, pages)], TablePages(pages));
    var table := P.Run(start, TablePages(pages));
    Slab(ZonePagesFor(pages), map[], NoLists(), [], map[], P.State(o.list, {table}), {}, table)
  }

  lemma InitialHolds(start: nat, pages: nat)
    requires pages > 0
    ensures Inv(Initial(start, pages), P.Range(start, pages)) && Live(Initial(start, pages)) == {}
  {
    var s := Initial(start, pages);
    InitialPages(start, pages);
    assert OutOk({s.table}, {}, s.zonePages, {}, s.table) by { assert Extents({}, s.zonePages) == {}; }
    assert Held(s) == {};
    hide P.Inv, P.Alloc, OutOk;
    forall i | 0 <= i < NZONES
      ensures ListOk(s.lists[i], s.zones, i)
    {
      assert Open(s.zones, i) == {};
    }
  }

  lemma InitialPages(start: nat, pages: nat)
    requires pages > 0
    ensures P.Inv(Initial(start, pages).pages, P.Range(start, pages))
  {
    var free := [P.Run(start, pages)];
    var n := TablePages(pages);
    assert 0 < n <= pages;
    P.PagesCons(P.Run(start, pages), []);
    P.CoalescedCons(P.Run(start, pages), []);
    assert free + [] == free && P.Pages([]) == {} && P.Blocks({}) == {};
    P.AllocKeeps(P.State(free, {}), P.Range(start, pages), n);
    assert {} + {P.Run(start, n)} == {P.Run(start, n)};
  }
}
