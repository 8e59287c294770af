/** How rt_malloc of the slab allocator aligns blocks whose size is a power of two. */
module SlabAlignment {
  import opened SlabZones
  import opened Slabs
  import opened SlabRuns
  import P = SlabPages

  predicate IsPower(n: nat) { n == 1 || (n > 1 && n % 2 == 0 && IsPower(n / 2)) }

  const SMALL_POWERS := {1, 2, 4, 8, 16, 32, 64, 128, 256, 512, 1024, 2048, 4096, 8192, 16384}

  lemma {:induction false} SmallPowers(n: nat)
    requires IsPower(n) && n <= LIMIT
    ensures n in SMALL_POWERS
    decreases n
  {
    if n > 1 { SmallPowers(n / 2); }
  }

  /** The chunks for a power of two are of its own size, or of 8 bytes. */
  lemma PowerChunk(n: nat)
    requires IsPower(n) && n < LIMIT
    ensures PowerOfTwo(ChunkSize(IndexFor(n))) && ChunkSize(IndexFor(n)) == if n < 8 then 8 else n
  {
    SmallPowers(n);
    hide IsPower;
    if n < 8 { assert ZoneIndex(n) == ZoneFor(0, 8); }
    else if n < 128 { assert ZoneIndex(n).index == n / 8 - 1; }
    else if n < 1024 { MiddleIndex(n); }
    else { LargeIndex(n); }
  }

  lemma MiddleIndex(n: nat)
    requires n == 128 || n == 256 || n == 512
    ensures ZoneIndex(n).index == (if n == 128 then 15 else if n == 256 then 23 else 31)
  {
  }

  lemma LargeIndex(n: nat)
    requires n == 1024 || n == 2048 || n == 4096 || n == 8192
    ensures ZoneIndex(n).index == (if n == 1024 then 39 else if n == 2048 then 47 else if n == 4096 then 55 else 63)
  {
  }

  lemma {:induction false} ChunkOf(a: nat, i: nat, m: nat, p: nat) returns (slot: nat)
    requires p in Chunks(a, i, m)
    ensures slot < m && p == ChunkAt(a, i, slot)
  {
    hide ChunkAt;
    if p == ChunkAt(a, i, m - 1) { slot := m - 1; } else { slot := ChunkOf(a, i, m - 1, p); }
  }

  /** The first page of the zone a request is served from, or of the pages it is given. */
  function ServedPage(s: Slab, n: nat): nat {
    if n >= ZoneLimit(s.zonePages) then PageOfRun(P.Alloc(s.pages.free, PagesFor(n)).got)
    else
      var list := ListAt(s.lists, IndexFor(n));
      if list != [] then list[0]
      else if s.idle != [] then s.idle[0]
      else PageOfRun(P.Alloc(s.pages.free, s.zonePages).got)
  }

  function PageOfRun(got: P.Got): nat { if got.At? then got.start else 0 }

  /** A chunk is taken from that zone. */
  lemma SmallFrom(s: Slab, all: set<nat>, n: nat) returns (slot: nat)
    requires Inv(s, all) && 0 < n < ZoneLimit(s.zonePages) && MallocSmall(s, IndexFor(n)).ptr.At?
    ensures MallocSmall(s, IndexFor(n)).ptr.address == ChunkAt(ServedPage(s, n), IndexFor(n), slot)
  {
    PagesCoalesced(s, all);
    var i, list := IndexFor(n), ListAt(s.lists, IndexFor(n));
    BelowLimit(s.zonePages, n);
    hide Sound, OneEmpty, ZoneIndex, ChunkAt, Take, P.Alloc, SetList;
    if list != [] {
      slot := TakenFrom(s, all, i);
    } else {
      slot := 0;
    }
  }

  lemma TakenFrom(s: Slab, all: set<nat>, i: nat) returns (slot: nat)
    requires Inv(s, all) && i < NZONES && ListAt(s.lists, i) != []
    ensures var a := ListAt(s.lists, i)[0]; Take(s.zonePages, a, ZoneAt(s.zones, a)).chunk == ChunkAt(a, i, slot)
  {
    var list := ListAt(s.lists, i);
    hide Sound, OneEmpty, ZoneOk, ListOk, Take, ListAt, Chunks, ChunkAt;
    ListIsOk(s, all, i);
    HeadOpen(list, s.zones, i);
    ZoneIsOk(s, all, list[0]);
    TakeKeeps(s.zonePages, list[0], s.zones[list[0]]);
    var t := Take(s.zonePages, list[0], s.zones[list[0]]);
    ChunkInZone(s.zonePages, list[0], t.zone, t.chunk);
    slot := ChunkOf(list[0], i, t.zone.uindex + 1, t.chunk);
  }

  lemma SmallAligned(s: Slab, all: set<nat>, n: nat)
    requires Inv(s, all) && IsPower(n) && 0 < n < ZoneLimit(s.zonePages) && Malloc(s, n).ptr.At?
    ensures n <= PAGE ==> Malloc(s, n).ptr.address % n == 0
    ensures n > PAGE ==> (Malloc(s, n).ptr.address % n == 0 <==> ServedPage(s, n) * PAGE % n == 0)
  {
    SmallPowers(n);
    PowerChunk(n);
    var i, a := IndexFor(n), ServedPage(s, n);
    hide Inv, IsPower, MallocSmall, ServedPage, ZoneIndex, IndexFor;
    var slot := SmallFrom(s, all, n);
    ChunkAlignedIff(a, i, slot);
    var p := Malloc(s, n).ptr.address;
    assert p == ChunkAt(a, i, slot);
    hide ChunkAt, ChunkSize, PowerOfTwo;
    if n < 8 {
      assert p % 8 == 0;
      DivisibleByLess(p, n);
    }
  }

  lemma DivisibleByLess(p: nat, n: nat)
    requires p % 8 == 0 && (n == 1 || n == 2 || n == 4)
    ensures p % n == 0
  {
    var k := p / 8;
    if n == 2 { assert p == 2 * (4 * k); } else if n == 4 { assert p == 4 * (2 * k); }
  }

  lemma LargeFrom(s: Slab, n: nat)
    requires n >= ZoneLimit(s.zonePages) && MallocLarge(s, n).ptr.At?
    ensures MallocLarge(s, n).ptr.address == ServedPage(s, n) * PAGE
  {
    hide P.Alloc;
  }

  lemma AlignedAsServed(s: Slab, all: set<nat>, n: nat)
    requires Inv(s, all) && IsPower(n) && Malloc(s, n).ptr.At?
    ensures n <= PAGE ==> Malloc(s, n).ptr.address % n == 0
    ensures n > PAGE ==> (Malloc(s, n).ptr.address % n == 0 <==> ServedPage(s, n) * PAGE % n == 0)
  {
    PagesCoalesced(s, all);
    if n < ZoneLimit(s.zonePages) {
      hide Malloc, ServedPage, Inv;
      SmallAligned(s, all, n);
    } else {
      hide Inv, IsPower, ServedPage, MallocLarge;
      LargeFrom(s, n);
    }
  }

  // ----- which pages those are -----

  /** The first free run of at least n pages, if there is one. */
  function FirstFit(rs: seq<P.Run>, n: nat): (k: nat)
    ensures k <= |rs| && (k < |rs| ==> rs[k].pages >= n) && forall j :: 0 <= j < k ==> rs[j].pages < n
  {
    if rs == [] || rs[0].pages >= n then 0 else 1 + FirstFit(rs[1..], n)
  }

  function FirstFree(rs: seq<P.Run>, n: nat): nat { if FirstFit(rs, n) < |rs| then rs[FirstFit(rs, n)].start else 0 }

  /** Pages are handed out from the front of that run. */
  lemma {:induction false} AllocIsFirstFit(rs: seq<P.Run>, n: nat)
    ensures P.Alloc(rs, n).got == if FirstFit(rs, n) < |rs| then P.At(FirstFree(rs, n)) else P.Nothing
    decreases |rs|
  {
    if rs != [] && rs[0].pages < n { AllocIsFirstFit(rs[1..], n); }
  }

  /** The first page of what a request is served from: the zone at the head of its list, a zone set aside, or
      the first free run with enough pages. */
  function FirstPage(s: Slab, n: nat): nat {
    if n >= ZoneLimit(s.zonePages) then FirstFree(s.pages.free, PagesFor(n))
    else
      var list := ListAt(s.lists, IndexFor(n));
      if list != [] then list[0]
      else if s.idle != [] then s.idle[0]
      else FirstFree(s.pages.free, s.zonePages)
  }

  /** A power of two from a page on is a whole number of pages, and a page begins at a multiple of it if and
      only if its number is a multiple of that. */
  lemma {:induction false} PowerPages(n: nat)
    requires IsPower(n) && n >= PAGE
    ensures n == PAGE * (n / PAGE) && n / PAGE > 0
    decreases n
  {
    if n > PAGE {
      if n / 2 < PAGE { BetweenPowers(n); } else { PowerPages(n / 2); }
    }
  }

  lemma BetweenPowers(n: nat)
    requires IsPower(n) && PAGE < n
    ensures n >= 2 * PAGE
  {
    if n <= LIMIT { SmallPowers(n); }
  }

  lemma PageMultiple(p: nat, m: nat)
    requires m > 0
    ensures p * PAGE % (PAGE * m) == 0 <==> p % m == 0
  {
    if p % m == 0 {
      var q := p / m;
      assert p * PAGE == PAGE * m * q;
      MultipleOf(PAGE * m, q);
    }
    if p * PAGE % (PAGE * m) == 0 {
      var q := p * PAGE / (PAGE * m);
      assert p * PAGE == PAGE * m * q;
      assert PAGE * p == PAGE * (m * q);
      MultipleOf(m, q);
    }
  }

  lemma MultipleOf(m: nat, q: nat)
    requires m > 0
    ensures m * q % m == 0
  {
    var k, r := m * q / m, m * q % m;
    assert m * q == m * k + r;
    var d: int := q - k;
    assert r == m * d;
    Scaled(m, d);
  }

  lemma Scaled(m: nat, d: int)
    ensures d >= 1 ==> m * d >= m
    ensures d <= -1 ==> m * d + m <= 0
  {
  }

  lemma ServedIsFirst(s: Slab, n: nat)
    ensures ServedPage(s, n) == FirstPage(s, n)
  {
    hide P.Alloc, FirstFit, ListAt, IndexFor, PagesFor;
    AllocIsFirstFit(s.pages.free, PagesFor(n));
    AllocIsFirstFit(s.pages.free, s.zonePages);
  }

  /** A block of a power of two up to the page size is aligned to it. Beyond that it is if and only if the number
      of the first page is a multiple of the pages it has, although alignment is promised for every power of two. */
  lemma PowerAlignedIff(s: Slab, all: set<nat>, n: nat)
    requires Inv(s, all) && IsPower(n) && Malloc(s, n).ptr.At?
    ensures n <= PAGE ==> Malloc(s, n).ptr.address % n == 0
    ensures n > PAGE ==> (Malloc(s, n).ptr.address % n == 0 <==> FirstPage(s, n) % (n / PAGE) == 0)
  {
    hide Inv, Malloc, ServedPage, FirstPage;
    AlignedAsServed(s, all, n);
    ServedIsFirst(s, n);
    if n > PAGE {
      PowerPages(n);
      PageMultiple(FirstPage(s, n), n / PAGE);
    }
  }

  // ----- misaligned from the start -----

  lemma EightKilobytes()
    ensures IsPower(8192)
  {
    assert IsPower(4) && IsPower(16) && IsPower(64);
    assert IsPower(256);
    assert IsPower(1024);
    assert IsPower(4096);
  }

  lemma FirstPages(start: nat, count: nat, table: nat, n: nat)
    requires count > table + n > table > 0 && TablePages(count) == table
    ensures Initial(start, count).pages.free == [P.Run(start + table, count - table)]
    ensures P.Alloc(Initial(start, count).pages.free, n).got == P.At(start + table)
  {
    var rest := [P.Run(start + table, count - table)];
    assert rest + [] == rest;
  }

  lemma InitialEmpty(start: nat, count: nat, i: nat)
    ensures var s := Initial(start, count);
      ListAt(s.lists, i) == [] && s.idle == [] && s.zonePages == ZonePagesFor(count)
  {
    hide ZonePagesFor, TablePages, P.Alloc;
  }

  lemma NewZonePtr(s: Slab, i: nat, a: nat)
    requires ListAt(s.lists, i) == [] && s.idle == [] && P.Alloc(s.pages.free, s.zonePages).got == P.At(a)
    ensures MallocSmall(s, i).ptr == At(ChunkAt(a, i, 0))
  {
    hide P.Alloc, ListAt, ChunkAt, NewZone, FreshZone, SetList;
  }

  lemma PagesPtr(s: Slab, n: nat, a: nat)
    requires PagesFor(n) > 0 && P.Alloc(s.pages.free, PagesFor(n)).got == P.At(a)
    ensures MallocLarge(s, n).ptr == At(a * PAGE)
  {
    hide P.Alloc, PagesFor;
  }

  /** On a heap of 4 MB at 64 KB the first request for 8 KB, which goes to pages, is misaligned. */
  lemma FirstLargeMisaligned()
    ensures Inv(Initial(16, 1024), P.Range(16, 1024)) && IsPower(8192) && ZoneLimit(Initial(16, 1024).zonePages) == 8192
    ensures Malloc(Initial(16, 1024), 8192).ptr == At(17 * PAGE) && 17 * PAGE % 8192 != 0
  {
    assert TablePages(1024) == 1 && ZonePagesFor(1024) == 8 && PagesFor(8192) == 2;
    hide Inv, IsPower, P.Range, TablePages, ZonePagesFor, PagesFor, P.Alloc, Initial, MallocLarge, MallocSmall, ListAt;
    InitialHolds(16, 1024);
    EightKilobytes();
    FirstPages(16, 1024, 1, 2);
    InitialEmpty(16, 1024, 0);
    PagesPtr(Initial(16, 1024), 8192, 17);
  }

  lemma ZoneOfEight()
    ensures IndexFor(8192) == 63 && ChunkAt(33, 63, 0) == 35 * PAGE
  {
    LargeIndex(8192);
  }

  lemma ZonesOfSixteen()
    ensures TablePages(16385) == 17 && ZonePagesFor(16385) == 16 && 35 * PAGE % 8192 != 0
  {
  }

  lemma FromZone(s: Slab)
    requires s.zonePages == 16
    ensures Malloc(s, 8192) == MallocSmall(s, IndexFor(8192)) && ZoneLimit(s.zonePages) == LIMIT
  {
    hide MallocSmall, MallocLarge, IndexFor;
  }

  /** On a heap of more than 64 MB it goes to a zone, and is misaligned as well. */
  lemma FirstZoneMisaligned()
    ensures Inv(Initial(16, 16385), P.Range(16, 16385)) && ZoneLimit(Initial(16, 16385).zonePages) == LIMIT
    ensures Malloc(Initial(16, 16385), 8192).ptr == At(35 * PAGE) && 35 * PAGE % 8192 != 0
  {
    hide *;
    ZonesOfSixteen();
    InitialHolds(16, 16385);
    ZoneOfEight();
    FirstPages(16, 16385, 17, 16);
    InitialEmpty(16, 16385, 63);
    NewZonePtr(Initial(16, 16385), 63, 33);
    FromZone(Initial(16, 16385));
  }
}
