/** How large the slab allocator's blocks are, where they come from, and what becomes of a zone whose chunk is
    released. */
module SlabCalls {
  import opened Lists
  import opened SlabZones
  import opened Slabs
  import opened SlabRuns
  import P = SlabPages

  lemma InvSound(s: Slab, all: set<nat>)
    requires Inv(s, all)
    ensures Sound(s, all) && ZoneSize(s.zonePages)
  {
  }

  // ----- sizes -----

  /** c is the least chunk size that holds n bytes. */
  ghost predicate ChunkFor(n: nat, c: nat) { exists i: nat :: Fits(n, ZoneFor(i, c)) }

  /** The size of a block for n bytes: below the limit a chunk, from there on whole pages, as few as will do. */
  ghost predicate SizeFor(pages: nat, n: nat, size: nat) {
    if n < ZoneLimit(pages) then ChunkFor(n, size) else n <= size < n + PAGE && size % PAGE == 0
  }

  /** A chunk is less than 8 bytes larger than the request, or less than an eighth of it. */
  lemma SmallSlack(n: nat, c: nat)
    requires 1 <= n < LIMIT && ChunkFor(n, c)
    ensures n <= c && (c - n < 8 || 8 * (c - n) < n)
  {
    var i: nat :| Fits(n, ZoneFor(i, c));
    SlackBelow(n, i);
  }

  lemma SlackBelow(n: nat, i: nat)
    requires 1 <= n && i < NZONES && n <= ChunkSize(i) && (i > 0 ==> ChunkSize(i - 1) < n)
    ensures var c := ChunkSize(i); c - n < 8 || 8 * (c - n) < n
  {
  }

  /** There is one such size. */
  lemma OneChunkSize(n: nat, i: nat, j: nat)
    requires Fits(n, ZoneFor(i, ChunkSize(i))) && Fits(n, ZoneFor(j, ChunkSize(j)))
    ensures i == j
  {
    hide ChunkSize;
    if i < j - 1 { ChunkSizesGrow(i, j - 1); }
    if j < i - 1 { ChunkSizesGrow(j, i - 1); }
  }

  lemma ZoneIndexChunk(n: nat)
    requires 1 <= n < LIMIT
    ensures ChunkFor(n, ZoneIndex(n).bytes) && IndexFor(n) == ZoneIndex(n).index && IndexFor(n) < NZONES
    ensures ChunkSize(IndexFor(n)) == ZoneIndex(n).bytes
  {
    ZoneIndexFits(n);
    hide ZoneIndex, ChunkSize;
    assert Fits(n, ZoneFor(IndexFor(n), ZoneIndex(n).bytes));
  }

  lemma WholePages(n: nat)
    requires n < 0x1_0000_0000 && PagesFor(n) > 0
    ensures n <= PagesFor(n) * PAGE < n + PAGE && PagesFor(n) * PAGE % PAGE == 0
  {
  }

  // ----- rt_page_alloc -----

  /** First fit is the lowest address: no run of as many free pages begins before the one handed out. */
  lemma {:induction false} AllocLowest(rs: seq<P.Run>, n: nat, b: nat)
    requires P.Coalesced(rs) && n > 0 && P.Alloc(rs, n).got.At? && P.Within(b, n, P.Pages(rs))
    ensures P.Alloc(rs, n).got.start <= b
  {
    P.PagesFrom(rs);
    var k := P.WithinOneRun(rs, b, n);
    if rs[0].pages >= n {
      assert b in P.Range(b, n);
    } else {
      assert rs[k] == rs[1..][k - 1];
      InRun(rs[1..], k - 1, b, n);
      AllocLowest(rs[1..], n, b);
    }
  }

  lemma {:induction false} InRun(rs: seq<P.Run>, k: nat, b: nat, n: nat)
    requires k < |rs| && rs[k].start <= b && b + n <= rs[k].start + rs[k].pages
    ensures P.Within(b, n, P.Pages(rs))
  {
    if k > 0 { InRun(rs[1..], k - 1, b, n); }
  }

  /** The n pages from a on are taken, the lowest there are. */
  ghost predicate PagesTaken(before: seq<P.Run>, after: seq<P.Run>, a: nat, n: nat) {
    && P.Within(a, n, P.Pages(before)) && P.Pages(after) == P.Pages(before) - P.Range(a, n)
    && forall b :: P.Within(b, n, P.Pages(before)) ==> a <= b
  }

  lemma TakesPages(rs: seq<P.Run>, n: nat)
    requires P.Coalesced(rs) && n > 0 && P.Alloc(rs, n).got.At?
    ensures var o := P.Alloc(rs, n); PagesTaken(rs, o.list, o.got.start, n)
  {
    P.AllocTakes(rs, n);
    hide P.Coalesced, P.Alloc, P.Pages, P.Range, P.Within;
    assert P.Within(P.Alloc(rs, n).got.start, n, P.Pages(rs)) by { InPages(rs, P.Alloc(rs, n).got.start, n); }
    forall b | P.Within(b, n, P.Pages(rs))
      ensures P.Alloc(rs, n).got.start <= b
    {
      AllocLowest(rs, n, b);
    }
  }

  lemma InPages(rs: seq<P.Run>, a: nat, n: nat)
    requires P.Range(a, n) <= P.Pages(rs)
    ensures P.Within(a, n, P.Pages(rs))
  {
  }

  // ----- rt_malloc -----

  /** Pages and zones set aside are as they were. */
  predicate PagesSame(s: Slab, t: Slab) { t.idle == s.idle && t.pages == s.pages && t.usage == s.usage }

  /** The chunk is the next that was never used, or if there is none the one released last. */
  predicate NextChunkOf(pages: nat, a: nat, z: Zone, after: Zone, p: nat) {
    && after.index == z.index && after.nfree == z.nfree - 1 && after.out == z.out + {p}
    && if z.uindex + 1 < Capacity(pages, z.index)
       then p == ChunkAt(a, z.index, z.uindex + 1) && after.uindex == z.uindex + 1 && after.chunks == z.chunks
       else z.chunks == [p] + after.chunks && after.uindex == z.uindex
  }

  /** A zone of size i with its first chunk handed out. */
  predicate FirstChunkOf(pages: nat, a: nat, i: nat, z: Zone, p: nat) {
    && z == Zone(i, Capacity(pages, i) - 1, 0, [], {p}) && p == ChunkAt(a, i, 0)
  }

  /** Where the chunk comes from: the first open zone of its size if there is one, or else the zone set aside last, or
      else the lowest pages that will do. */
  ghost predicate ChunkFrom(s: Slab, t: Slab, a: nat, i: nat, p: nat) {
    && a in t.zones && t.zones == s.zones[a := t.zones[a]] && t.large == s.large && t.zonePages == s.zonePages
    && t.zones[a].index == i && p in t.zones[a].out
    && if Open(s.zones, i) != {} then
         && a in Open(s.zones, i) && ListAt(s.lists, i) != [] && a == ListAt(s.lists, i)[0]
         && PagesSame(s, t) && NextChunkOf(s.zonePages, a, s.zones[a], t.zones[a], p)
       else
         && FirstChunkOf(s.zonePages, a, i, t.zones[a], p)
         && if s.idle != [] then s.idle == [a] + t.idle && t.pages == s.pages && t.usage == s.usage
            else t.idle == [] && PagesTaken(s.pages.free, t.pages.free, a, s.zonePages)
  }

  lemma OpenTakes(s: Slab, all: set<nat>, i: nat)
    requires Inv(s, all) && Serves(s.zonePages, i) && ListAt(s.lists, i) != []
    ensures var o := MallocSmall(s, i); o.ptr.At? && ChunkFrom(s, o.slab, ListAt(s.lists, i)[0], i, o.ptr.address)
  {
    hide Sound, OneEmpty, ZoneOk, ListOk, Take, ListAt, SetList, Open;
    var list := ListAt(s.lists, i);
    ListIsOk(s, all, i);
    HeadOpen(list, s.zones, i);
    OpenNone(list, s.zones, i);
    ZoneIsOk(s, all, list[0]);
    TakesNext(s.zonePages, list[0], s.zones[list[0]]);
    InOpen(s.zones, list[0]);
    hide NextChunkOf;
  }

  lemma InOpen(zones: map<nat, Zone>, a: nat)
    requires a in zones && zones[a].nfree > 0
    ensures a in Open(zones, zones[a].index)
  {
  }

  lemma TakesNext(pages: nat, a: nat, z: Zone)
    requires ZoneOk(pages, a, z) && z.nfree > 0
    ensures NextChunkOf(pages, a, z, Take(pages, a, z).zone, Take(pages, a, z).chunk)
  {
    TakeKeeps(pages, a, z);
    hide Capacity, ChunkAt, Chunks, Elems, Distinct;
  }

  /** rt_malloc of a small block. */
  lemma SmallDoes(s: Slab, all: set<nat>, i: nat) returns (a: nat)
    requires Inv(s, all) && Serves(s.zonePages, i) && MallocSmall(s, i).ptr.At?
    ensures ChunkFrom(s, MallocSmall(s, i).slab, a, i, MallocSmall(s, i).ptr.address)
  {
    hide *;
    if ListAt(s.lists, i) != [] {
      a := ListAt(s.lists, i)[0];
      OpenTakes(s, all, i);
    } else if s.idle != [] {
      a := s.idle[0];
      IdleTakes(s, all, i);
    } else {
      a := FreshTakes(s, all, i);
    }
  }

  lemma IdleTakes(s: Slab, all: set<nat>, i: nat)
    requires Inv(s, all) && Serves(s.zonePages, i) && ListAt(s.lists, i) == [] && s.idle != []
    ensures MallocSmall(s, i).ptr.At?
    ensures ChunkFrom(s, MallocSmall(s, i).slab, s.idle[0], i, MallocSmall(s, i).ptr.address)
  {
    InvSound(s, all);
    ListIsOk(s, all, i);
    OpenNone(ListAt(s.lists, i), s.zones, i);
    hide Inv, Sound, Open, ListAt, SetList, PagesTaken, Capacity, ChunkAt, ListOk;
    assert s.idle == [s.idle[0]] + s.idle[1..];
  }

  lemma FreshTakes(s: Slab, all: set<nat>, i: nat) returns (a: nat)
    requires Inv(s, all) && Serves(s.zonePages, i) && ListAt(s.lists, i) == [] && s.idle == []
    requires MallocSmall(s, i).ptr.At?
    ensures ChunkFrom(s, MallocSmall(s, i).slab, a, i, MallocSmall(s, i).ptr.address)
  {
    hide *;
    InvSound(s, all);
    ServesIndex(s.zonePages, i);
    ListIsOk(s, all, i);
    OpenNone(ListAt(s.lists, i), s.zones, i);
    PagesCoalesced(s, all);
    FreshIs(s, i);
    a := P.Alloc(s.pages.free, s.zonePages).got.start;
    ZonePositive(s.zonePages);
    TakesPages(s.pages.free, s.zonePages);
    BegunAt(s, a, P.Alloc(s.pages.free, s.zonePages).list, i);
  }

  lemma ZonePositive(pages: nat)
    requires ZoneSize(pages)
    ensures pages > 0
  {
  }

  lemma ServesIndex(pages: nat, i: nat)
    requires Serves(pages, i)
    ensures i < NZONES
  {
  }

  lemma FreshIs(s: Slab, i: nat)
    requires ListAt(s.lists, i) == [] && s.idle == [] && MallocSmall(s, i).ptr.At?
    ensures var g := P.Alloc(s.pages.free, s.zonePages);
      g.got.At? && MallocSmall(s, i) == Begin(NewZone(s, g.got.start, g.list), g.got.start, i)
  {
    hide P.Alloc, Begin, NewZone;
  }

  lemma BegunAt(s: Slab, a: nat, free: seq<P.Run>, i: nat)
    requires Open(s.zones, i) == {} && s.idle == [] && PagesTaken(s.pages.free, free, a, s.zonePages)
    ensures var o := Begin(NewZone(s, a, free), a, i); o.ptr.At? && ChunkFrom(s, o.slab, a, i, o.ptr.address)
  {
    hide Open, PagesTaken, Capacity, ChunkAt, MarkZone, SetList, ListAt;
  }

  lemma ChunkHasSize(s: Slab, t: Slab, all: set<nat>, a: nat, i: nat, p: nat)
    requires Sound(t, all) && ChunkFrom(s, t, a, i, p)
    ensures BlockSize(t, p) == ChunkSize(i)
  {
    hide Sound, BlockSize, ChunkSize;
    SmallBlock(t, all, a, p);
  }

  /** rt_malloc of a large block takes the lowest pages that will do, and nothing else. */
  lemma LargeDoes(s: Slab, all: set<nat>, n: nat)
    requires Inv(s, all) && MallocLarge(s, n).ptr.At?
    ensures var o, a := MallocLarge(s, n), MallocLarge(s, n).ptr.address / PAGE;
      && o.ptr.address == a * PAGE && PagesTaken(s.pages.free, o.slab.pages.free, a, PagesFor(n))
      && o.slab.large == s.large + {P.Run(a, PagesFor(n))} && o.slab.zones == s.zones && o.slab.idle == s.idle
  {
    PagesCoalesced(s, all);
    hide Inv, P.Alloc, P.Coalesced, PagesFor, PagesTaken;
    TakesPages(s.pages.free, PagesFor(n));
  }

  lemma LargeHasSize(s: Slab, all: set<nat>, n: nat)
    requires Inv(s, all) && n < 0x1_0000_0000 && MallocLarge(s, n).ptr.At?
    ensures var o := MallocLarge(s, n); var size := BlockSize(o.slab, o.ptr.address);
      n <= size < n + PAGE && size % PAGE == 0
  {
    LargePtr(s, n);
    WholePages(n);
    var r := P.Run(MallocLarge(s, n).ptr.address / PAGE, PagesFor(n));
    LargeDoes(s, all, n);
    LargeKeeps(s, all, n);
    hide Gained, PagesFor, MallocLarge, BlockSize;
    LargeBlock(MallocLarge(s, n).slab, all, r);
  }

  /** What rt_malloc hands out is no larger than it must be. */
  lemma MallocSizes(s: Slab, all: set<nat>, n: nat)
    requires Inv(s, all) && n < 0x1_0000_0000 && Malloc(s, n).ptr.At?
    ensures SizeFor(s.zonePages, n, BlockSize(Malloc(s, n).slab, Malloc(s, n).ptr.address))
  {
    assert ZoneSize(s.zonePages);
    MallocKeeps(s, all, n);
    hide Sound, MallocSmall, MallocLarge, BlockSize, ChunkFor, ZoneIndex, ChunkSize;
    if n >= ZoneLimit(s.zonePages) {
      LargeHasSize(s, all, n);
    } else {
      BelowLimit(s.zonePages, n);
      ZoneIndexChunk(n);
      var a := SmallDoes(s, all, IndexFor(n));
      ChunkHasSize(s, Malloc(s, n).slab, all, a, IndexFor(n), Malloc(s, n).ptr.address);
    }
  }

  // ----- rt_free -----

  /** The zone has the chunk back, to be handed out next once every chunk has been used. */
  predicate HasBack(z: Zone, after: Zone, p: nat) {
    after == Zone(z.index, z.nfree + 1, z.uindex, [p] + z.chunks, z.out - {p})
  }

  /** A zone stays in use while callers have a chunk of it, or while no other zone of its size is open. */
  predicate StaysInUse(s: Slab, a: nat, p: nat)
    requires a in s.zones
  {
    s.zones[a].out - {p} != {} || Open(s.zones, s.zones[a].index) - {a} == {}
  }

  /** What rt_free does with a chunk of zone a.  A zone that leaves use is set aside if fewer than two are, or else its
      pages are free again. */
  ghost predicate ChunkBack(s: Slab, t: Slab, a: nat, p: nat)
    requires a in s.zones
  {
    && t.large == s.large && t.zonePages == s.zonePages
    && if StaysInUse(s, a, p) then
         && a in t.zones && t.zones == s.zones[a := t.zones[a]] && HasBack(s.zones[a], t.zones[a], p) && PagesSame(s, t)
       else
         && t.zones == s.zones - {a}
         && if |s.idle| < 2 then t.idle == [a] + s.idle && t.pages == s.pages && t.usage == s.usage
            else t.idle == s.idle && P.Pages(t.pages.free) == P.Pages(s.pages.free) + P.Range(a, s.zonePages)
  }

  /** With its chunk back a zone is alone on its list if and only if no other zone of its size is open. */
  lemma AloneIff(s: Slab, all: set<nat>, a: nat, p: nat)
    requires Inv(s, all) && a in s.zones && p in s.zones[a].out
    ensures var g := GiveTo(s, a, p); var i := s.zones[a].index;
      ListAt(g.lists, i) == [a] <==> Open(s.zones, i) - {a} == {}
  {
    hide *;
    var g, z, after := GiveTo(s, a, p), s.zones[a], Give(s.zones[a], p);
    InvSound(s, all);
    GivenZones(s, a, p);
    GiveToKeeps(s, all, a, p);
    ZoneIsOk(s, all, a);
    IndexInTable(s.zonePages, a, z);
    ListIsOk(g, all, z.index);
    GiveCounts(z, p);
    OpenGiven(s.zones, a, after);
    OnlyOne(ListAt(g.lists, z.index), g.zones, z.index, a);
  }

  lemma OpenGiven(zones: map<nat, Zone>, a: nat, z: Zone)
    requires a in zones && z.index == zones[a].index && z.nfree > 0
    ensures Open(zones[a := z], z.index) == {a} <==> Open(zones, z.index) - {a} == {}
  {
    OpenWith(zones, a, z, z.index);
    hide Open;
  }

  lemma GivenZones(s: Slab, a: nat, p: nat)
    requires a in s.zones
    ensures var g := GiveTo(s, a, p);
      && g.zones == s.zones[a := Give(s.zones[a], p)] && HasBack(s.zones[a], Give(s.zones[a], p), p) && PagesSame(s, g)
      && g.large == s.large && g.zonePages == s.zonePages
  {
  }

  lemma OnlyOne(list: seq<nat>, zones: map<nat, Zone>, i: nat, a: nat)
    requires ListOk(list, zones, i)
    ensures list == [a] <==> Open(zones, i) == {a}
  {
    hide Open;
    if Elems(list) == {a} {
      SizeOf(list);
      assert list[0] in Elems(list);
    }
    assert Elems([a]) == {a};
  }

  lemma WhollyFreeIff(s: Slab, all: set<nat>, a: nat, p: nat)
    requires Inv(s, all) && a in s.zones && p in s.zones[a].out
    ensures var z := Give(s.zones[a], p); z.nfree == Capacity(s.zonePages, z.index) <==> s.zones[a].out - {p} == {}
  {
    InvSound(s, all);
    hide Inv, Sound, ZoneOk, Capacity;
    ZoneIsOk(s, all, a);
    GiveKeeps(s.zonePages, a, s.zones[a], p);
    AllFree(s.zonePages, a, Give(s.zones[a], p));
  }

  lemma SetAsideDoes(g: Slab, all: set<nat>, a: nat)
    requires Sound(g, all) && a in g.zones
    ensures var z, t := g.zones[a], SetAside(g, a);
      if z.nfree != Capacity(g.zonePages, z.index) || ListAt(g.lists, z.index) == [a] then t == g
      else
        && t.zones == g.zones - {a} && t.large == g.large && t.zonePages == g.zonePages
        && if |g.idle| < IDLE_MAX then t.idle == [a] + g.idle && t.pages == g.pages && t.usage == g.usage
           else t.idle == g.idle && t.pages.free == P.Free(g.pages.free, a, g.zonePages)
  {
    hide Sound, Capacity, ListAt, SetList, Remove, MarkUnused, P.Free;
    assert ([a] + g.idle)[1..] == g.idle;
  }

  lemma ZonePagesAdded(s: Slab, all: set<nat>, a: nat)
    requires Sound(s, all) && a in s.zones
    ensures P.Pages(P.Free(s.pages.free, a, s.zonePages)) == P.Pages(s.pages.free) + P.Range(a, s.zonePages)
  {
    ZoneRun(s, all, a);
    InvPages(s, all);
    RunAdded(s.pages, all, P.Run(a, s.zonePages));
  }

  lemma RunAdded(pages: P.State, all: set<nat>, r: P.Run)
    requires P.Inv(pages, all) && r in pages.out
    ensures P.Pages(P.Free(pages.free, r.start, r.pages)) == P.Pages(pages.free) + P.Range(r.start, r.pages)
  {
    P.BlocksLess(pages.out, r);
    P.FreeAdds(pages.free, r.start, r.pages);
  }

  lemma ChunkFreed(s: Slab, all: set<nat>, a: nat, p: nat)
    requires Inv(s, all) && a in s.zones && p in s.zones[a].out
    ensures ChunkBack(s, FreeSmall(s, a, p), a, p)
  {
    hide *;
    var g := GiveTo(s, a, p);
    InvSound(s, all);
    GivenZones(s, a, p);
    GiveToKeeps(s, all, a, p);
    GiveCounts(s.zones[a], p);
    StaysIff(s, all, a, p);
    SetAsideDoes(g, all, a);
    ZonePagesAdded(s, all, a);
    SmallFreed(s, a, p);
    BackFrom(s, g, FreeSmall(s, a, p), a, p);
  }

  lemma StaysIff(s: Slab, all: set<nat>, a: nat, p: nat)
    requires Inv(s, all) && a in s.zones && p in s.zones[a].out
    ensures var g := GiveTo(s, a, p);
      && a in g.zones
      && (StaysInUse(s, a, p) <==>
          g.zones[a].nfree != Capacity(g.zonePages, g.zones[a].index) || ListAt(g.lists, g.zones[a].index) == [a])
  {
    AloneIff(s, all, a, p);
    WhollyFreeIff(s, all, a, p);
    GivenZones(s, a, p);
    GiveCounts(s.zones[a], p);
    hide Inv, Capacity, ListAt, Open, GiveTo, Give, HasBack, PagesSame;
  }

  lemma SmallFreed(s: Slab, a: nat, p: nat)
    ensures FreeSmall(s, a, p) == SetAside(GiveTo(s, a, p), a)
  {
    hide SetAside, GiveTo;
  }

  lemma BackFrom(s: Slab, g: Slab, t: Slab, a: nat, p: nat)
    requires a in s.zones && g.zones == s.zones[a := Give(s.zones[a], p)] && HasBack(s.zones[a], Give(s.zones[a], p), p)
    requires PagesSame(s, g) && g.large == s.large && g.zonePages == s.zonePages
    requires if StaysInUse(s, a, p) then t == g
             else
               && t.zones == g.zones - {a} && t.large == g.large && t.zonePages == g.zonePages
               && if |g.idle| < IDLE_MAX then t.idle == [a] + g.idle && t.pages == g.pages && t.usage == g.usage
                  else t.idle == g.idle && t.pages.free == P.Free(g.pages.free, a, g.zonePages)
    requires P.Pages(P.Free(s.pages.free, a, s.zonePages)) == P.Pages(s.pages.free) + P.Range(a, s.zonePages)
    ensures ChunkBack(s, t, a, p)
  {
    hide P.Pages, P.Range, P.Free, HasBack, Give, StaysInUse;
    assert g.zones - {a} == s.zones - {a};
  }

  /** rt_free finds the zone or the large block by the table of pages. */
  lemma FreeDoes(s: Slab, all: set<nat>, p: nat)
    requires Inv(s, all)
    ensures forall a :: a in s.zones && p in s.zones[a].out ==> ChunkBack(s, Free(s, p), a, p)
    ensures forall r: P.Run :: r in s.large && p == r.start * PAGE ==>
      var t := Free(s, p);
      && t.large == s.large - {r} && t.zones == s.zones && t.lists == s.lists && t.idle == s.idle
      && P.Pages(t.pages.free) == P.Pages(s.pages.free) + P.Range(r.start, r.pages)
  {
    hide Sound, OneEmpty, ChunkBack, FreeSmall, P.Free, P.Pages, P.Range, BlockSize;
    forall a | a in s.zones && p in s.zones[a].out
      ensures ChunkBack(s, Free(s, p), a, p)
    {
      SmallBlock(s, all, a, p);
      ChunkFreed(s, all, a, p);
    }
    forall r: P.Run | r in s.large && p == r.start * PAGE
      ensures var t := Free(s, p);
        && t.large == s.large - {r} && t.zones == s.zones && t.lists == s.lists && t.idle == s.idle
        && P.Pages(t.pages.free) == P.Pages(s.pages.free) + P.Range(r.start, r.pages)
    {
      LargeBlock(s, all, r);
      InvPages(s, all);
      RunAdded(s.pages, all, r);
    }
  }

  // ----- rt_realloc -----

  lemma RaisedIff(n: nat, i: nat)
    requires 1 <= n && i < NZONES
    ensures ChunkSize(i) == Raised(n) <==> ChunkFor(n, ChunkSize(i))
  {
    ChunkSizeBounds(i);
    assert ChunkSize(70) == 15360 && ChunkSize(71) == LIMIT;
    if n < LIMIT { ZoneIndexChunk(n); }
    hide ZoneIndex, ChunkSize;
    if n == LIMIT { assert Fits(n, ZoneFor(71, LIMIT)); }
    if ChunkFor(n, ChunkSize(i)) {
      var j: nat :| Fits(n, ZoneFor(j, ChunkSize(i)));
      if n < LIMIT { OneChunkSize(n, IndexFor(n), j); }
    }
  }

  /** The size of a block for the raised request is that of one for the request. */
  lemma RaisedSize(pages: nat, n: nat, size: nat)
    requires ZoneSize(pages) && 1 <= n && SizeFor(pages, Raised(n), size)
    ensures SizeFor(pages, n, size)
  {
    if n < LIMIT {
      var m := Raised(n);
      ZoneIndexChunk(n);
      ZoneIndexFits(n);
      if m < ZoneLimit(pages) {
        assert m == ChunkSize(IndexFor(n)) && Fits(m, ZoneFor(IndexFor(n), m));
        var j: nat :| Fits(m, ZoneFor(j, size));
        hide ZoneIndex, ChunkSize;
        OneChunkSize(m, IndexFor(n), j);
      } else if n < ZoneLimit(pages) {
        BelowLimit(pages, n);
        hide ZoneIndex, ChunkSize;
        assert size == m;
      } else {
        hide ChunkSize;
        RoundedTwice(n, m, size);
      }
    }
  }

  /** To a multiple of 1024 and then to one of 4096 is to one of 4096. */
  lemma RoundedTwice(n: nat, m: nat, size: nat)
    requires m == (n + 1023) / 1024 * 1024 && m <= size < m + PAGE && size % PAGE == 0
    ensures n <= size < n + PAGE
  {
    var q, k := (n + 1023) / 1024, size / PAGE;
    assert m == 1024 * q && size == 4096 * k && n <= m < n + 1024;
    assert 4 * (k - 1) <= q - 1;
  }

  /** A small block stays if its chunk is the least for n, and moves otherwise. */
  lemma SmallStaysIff(s: Slab, all: set<nat>, p: nat, n: nat)
    requires Inv(s, all) && p in SmallLive(s.zones) && 1 <= n
    ensures BlockSize(s, p) == Raised(n) <==> ChunkFor(n, BlockSize(s, p))
    ensures Realloc(s, At(p), n) == if BlockSize(s, p) == Raised(n) then Outcome(s, At(p)) else Moved(s, p, Raised(n))
    ensures BlockSize(s, p) == Raised(n) ==> SizeFor(s.zonePages, n, BlockSize(s, p))
  {
    var a: nat :| a in s.zones && p in s.zones[a].out;
    hide *;
    InvSound(s, all);
    SmallBlock(s, all, a, p);
    InTable(s, all, a);
    ReallocSmall(s, p, n);
    RaisedServes(s.zonePages, s.zones[a].index, n);
  }

  lemma ReallocSmall(s: Slab, p: nat, n: nat)
    requires 1 <= n && UsageAt(s.usage, p / PAGE).Small?
    ensures Realloc(s, At(p), n) == if BlockSize(s, p) == Raised(n) then Outcome(s, At(p)) else Moved(s, p, Raised(n))
  {
    hide BlockSize, Raised, Moved;
  }

  lemma RaisedServes(pages: nat, i: nat, n: nat)
    requires Serves(pages, i) && 1 <= n
    ensures ChunkSize(i) == Raised(n) <==> ChunkFor(n, ChunkSize(i))
    ensures ChunkSize(i) == Raised(n) ==> SizeFor(pages, n, ChunkSize(i))
  {
    RaisedIff(n, i);
    hide ChunkSize, Raised;
    if ChunkFor(n, ChunkSize(i)) { LeastServes(pages, i, n); }
  }

  lemma LeastServes(pages: nat, i: nat, n: nat)
    requires Serves(pages, i) && ChunkFor(n, ChunkSize(i))
    ensures SizeFor(pages, n, ChunkSize(i))
  {
    var j: nat :| Fits(n, ZoneFor(j, ChunkSize(i)));
    hide ChunkSize;
  }

  lemma InTable(s: Slab, all: set<nat>, a: nat)
    requires Sound(s, all) && a in s.zones
    ensures Serves(s.zonePages, s.zones[a].index)
  {
    ZoneIsOk(s, all, a);
    hide Sound;
  }

  /** A large block always moves. */
  lemma LargeMoves(s: Slab, all: set<nat>, p: nat, n: nat)
    requires Inv(s, all) && p in Live(s) && p !in SmallLive(s.zones) && 1 <= n
    ensures Realloc(s, At(p), n) == Moved(s, p, n)
  {
    var r: P.Run :| r in s.large && p == r.start * PAGE;
    LargeBlock(s, all, r);
    hide Inv, BlockSize, Moved;
  }

  /** A move is to a place that no caller had. */
  lemma MoveDoes(s: Slab, all: set<nat>, p: nat, m: nat)
    requires Inv(s, all) && p in Live(s) && m < 0x1_0000_0000
    ensures var o := Moved(s, p, m);
      match o.ptr
      case Null => o.slab == s
      case At(q) =>
        SizeFor(s.zonePages, m, BlockSize(o.slab, q)) && q !in Live(s) && Live(o.slab) == Live(s) - {p} + {q}
  {
    hide Inv, Live, BlockSize, Malloc, Free, SizeFor;
    MallocKeeps(s, all, m);
    var o := Malloc(s, m);
    if o.ptr.At? {
      FreeKeeps(o.slab, all, p);
      MallocSizes(s, all, m);
    }
  }

  /** rt_realloc of a block that a caller has, to n > 0 bytes: a chunk that is the least for n stays; any other block
      moves to a place that no caller had, or stays as it is when rt_malloc fails; and the block then held is no larger
      than it must be. */
  lemma ReallocFits(s: Slab, all: set<nat>, p: nat, n: nat)
    requires Inv(s, all) && p in Live(s) && 1 <= n < 0x1_0000_0000
    ensures var o := Realloc(s, At(p), n);
      && (o.ptr == At(p) <==> p in SmallLive(s.zones) && ChunkFor(n, BlockSize(s, p)))
      && match o.ptr
         case Null => o.slab == s
         case At(q) =>
           && SizeFor(s.zonePages, n, BlockSize(o.slab, q))
           && if q == p then o.slab == s else q !in Live(s) && Live(o.slab) == Live(s) - {p} + {q}
  {
    assert ZoneSize(s.zonePages);
    hide Inv, Live, SmallLive, BlockSize, Realloc, Moved, Raised, SizeFor, ChunkFor;
    RaisedBounds(n);
    if p in SmallLive(s.zones) {
      SmallStaysIff(s, all, p, n);
      MoveDoes(s, all, p, Raised(n));
      var o := Realloc(s, At(p), n);
      if BlockSize(s, p) != Raised(n) && o.ptr.At? { RaisedSize(s.zonePages, n, BlockSize(o.slab, o.ptr.address)); }
    } else {
      LargeMoves(s, all, p, n);
      MoveDoes(s, all, p, n);
    }
  }
}
