/** rt_malloc, rt_realloc and rt_free of the slab allocator: zones with chunks of one size, a list of zones
    with free chunks for each size, a short list of zones set aside, and a table that says what each page is
    used for. */
module Slabs {
  import opened Lists
  import opened SlabZones
  import P = SlabPages

  /** A zone header. Chunks and what callers have of them (out) are addresses. */
  datatype Zone = Zone(index: nat, nfree: int, uindex: nat, chunks: seq<nat>, out: set<nat>)

  /** struct memusage. */
  datatype Usage = Unused | Small(offset: nat) | Large(pages: nat)

  datatype Slab = Slab(zonePages: nat, zones: map<nat, Zone>, lists: seq<seq<nat>>, idle: seq<nat>,
                       usage: map<nat, Usage>, pages: P.State, large: set<P.Run>, table: P.Run)

  datatype Ptr = Null | At(address: nat)
  datatype Outcome = Outcome(slab: Slab, ptr: Ptr)

  const IDLE_MAX := 2           // ZONE_RELEASE_THRESH

  function ListAt(lists: seq<seq<nat>>, i: nat): seq<nat> { if i < |lists| then lists[i] else [] }

  function SetList(lists: seq<seq<nat>>, i: nat, list: seq<nat>): seq<seq<nat>> {
    if i < |lists| then lists[i := list] else lists
  }

  function ZoneAt(zones: map<nat, Zone>, a: nat): Zone { if a in zones then zones[a] else Zone(0, 0, 0, [], {}) }

  function UsageAt(usage: map<nat, Usage>, p: nat): Usage { if p in usage then usage[p] else Unused }

  function MarkZone(usage: map<nat, Usage>, a: nat, n: nat): map<nat, Usage> {
    usage + map p | p in P.Range(a, n) :: Small(p - a)
  }

  function MarkUnused(usage: map<nat, Usage>, a: nat, n: nat): map<nat, Usage> {
    usage + map p | p in P.Range(a, n) :: Unused
  }

  // ----- one zone -----

  datatype Taken = Taken(zone: Zone, chunk: nat)

  /** The next chunk that was never used, or else the one that was released last. */
  function Take(pages: nat, a: nat, z: Zone): Taken {
    if z.uindex + 1 != Capacity(pages, z.index) then
      var p := ChunkAt(a, z.index, z.uindex + 1);
      Taken(z.(nfree := z.nfree - 1, uindex := z.uindex + 1, out := z.out + {p}), p)
    else if z.chunks == [] then Taken(z, 0)
    else Taken(z.(nfree := z.nfree - 1, chunks := z.chunks[1..], out := z.out + {z.chunks[0]}), z.chunks[0])
  }

  function Give(z: Zone, p: nat): Zone { z.(nfree := z.nfree + 1, chunks := [p] + z.chunks, out := z.out - {p}) }

  /** A zone whose first chunk is handed out. */
  function FreshZone(pages: nat, a: nat, i: nat): Zone { Zone(i, Capacity(pages, i) - 1, 0, [], {ChunkAt(a, i, 0)}) }

  predicate Serves(pages: nat, i: nat) { ZoneSize(pages) && i < NZONES && ChunkSize(i) <= ZoneLimit(pages) }

  /** The chunks used so far are on the free list or with callers, and z_nfree counts the rest. */
  predicate ZoneOk(pages: nat, a: nat, z: Zone) {
    && Serves(pages, z.index) && z.uindex < Capacity(pages, z.index)
    && Distinct(z.chunks) && Elems(z.chunks) !! z.out && Elems(z.chunks) + z.out == Chunks(a, z.index, z.uindex + 1)
    && z.nfree == Capacity(pages, z.index) - 1 - z.uindex + |z.chunks|
  }

  /** What is not free is with callers. */
  lemma ZoneCounts(pages: nat, a: nat, z: Zone)
    requires ZoneOk(pages, a, z)
    ensures z.nfree + |z.out| == Capacity(pages, z.index) && Capacity(pages, z.index) >= 3
  {
    hide Chunks, Capacity, Distinct, Elems;
    SizeOf(z.chunks);
    ChunksApart(a, z.index, z.uindex + 1);
    CapacityFits(pages, z.index);
    assert |Elems(z.chunks) + z.out| == |Elems(z.chunks)| + |z.out|;
  }

  lemma FreshKeeps(pages: nat, a: nat, i: nat)
    requires Serves(pages, i)
    ensures var z := FreshZone(pages, a, i); ZoneOk(pages, a, z) && z.nfree > 0 && z.out != {}
  {
    CapacityFits(pages, i);
    hide Capacity, ChunkAt;
    ChunksNone(a, i);
    ChunksMore(a, i, 1);
    var none: seq<nat> := [];
    assert Elems(none) == {};
  }

  /** A zone with z_nfree > 0 has a chunk that no caller has. */
  lemma TakeKeeps(pages: nat, a: nat, z: Zone)
    requires ZoneOk(pages, a, z) && z.nfree > 0
    ensures var t := Take(pages, a, z);
      && ZoneOk(pages, a, t.zone) && t.zone.index == z.index && t.zone.nfree == z.nfree - 1
      && t.chunk !in z.out && t.zone.out == z.out + {t.chunk}
  {
    hide Capacity, ChunkAt, Distinct, Elems, Chunks;
    if z.uindex + 1 != Capacity(pages, z.index) {
      var p := ChunkAt(a, z.index, z.uindex + 1);
      ChunksMore(a, z.index, z.uindex + 2);
      ChunksApart(a, z.index, z.uindex + 1);
      ChunksApart(a, z.index, z.uindex + 2);
      assert p !in Chunks(a, z.index, z.uindex + 1);
    } else {
      assert z.chunks != [];
      TailElems(z.chunks);
      HeadIn(z.chunks);
    }
  }

  lemma HeadIn<T>(s: seq<T>)
    requires s != []
    ensures s[0] in Elems(s)
  {
  }

  lemma GiveKeeps(pages: nat, a: nat, z: Zone, p: nat)
    requires ZoneOk(pages, a, z) && p in z.out
    ensures ZoneOk(pages, a, Give(z, p))
  {
    hide Capacity, Chunks, Distinct, Elems;
    ZoneCounts(pages, a, z);
    FrontElems(p, z.chunks);
  }

  // ----- the lists of zones -----

  /** The zones of a size that have free chunks. */
  function Open(zones: map<nat, Zone>, i: nat): set<nat> {
    set a | a in zones && zones[a].index == i && zones[a].nfree > 0
  }

  predicate ListOk(list: seq<nat>, zones: map<nat, Zone>, i: nat) { Distinct(list) && Elems(list) == Open(zones, i) }

  predicate ListsOk(lists: seq<seq<nat>>, zones: map<nat, Zone>) {
    |lists| == NZONES && forall i :: 0 <= i < NZONES ==> ListOk(lists[i], zones, i)
  }

  lemma OpenWith(zones: map<nat, Zone>, a: nat, z: Zone, i: nat)
    requires a in zones ==> zones[a].index == z.index
    ensures Open(zones[a := z], i) ==
      if i != z.index then Open(zones, i) else if z.nfree > 0 then Open(zones, i) + {a} else Open(zones, i) - {a}
  {
  }

  lemma OpenWithout(zones: map<nat, Zone>, a: nat, i: nat)
    requires a in zones
    ensures Open(zones - {a}, i) == if i == zones[a].index then Open(zones, i) - {a} else Open(zones, i)
  {
  }

  lemma ListsWith(lists: seq<seq<nat>>, zones: map<nat, Zone>, a: nat, z: Zone, list: seq<nat>)
    requires ListsOk(lists, zones) && z.index < NZONES && (a in zones ==> zones[a].index == z.index)
    requires ListOk(list, zones[a := z], z.index)
    ensures ListsOk(SetList(lists, z.index, list), zones[a := z])
  {
    hide Open, Distinct, Elems;
    forall i | 0 <= i < NZONES
      ensures ListOk(SetList(lists, z.index, list)[i], zones[a := z], i)
    {
      OpenWith(zones, a, z, i);
      if i != z.index { assert ListOk(lists[i], zones, i); }
    }
  }

  lemma ListsWithout(lists: seq<seq<nat>>, zones: map<nat, Zone>, a: nat)
    requires ListsOk(lists, zones) && a in zones && zones[a].index < NZONES
    ensures var i := zones[a].index; ListsOk(SetList(lists, i, Remove(lists[i], a)), zones - {a})
  {
    hide Open, Distinct, Elems, Remove;
    var k := zones[a].index;
    RemoveElems(lists[k], a);
    forall i | 0 <= i < NZONES
      ensures ListOk(SetList(lists, k, Remove(lists[k], a))[i], zones - {a}, i)
    {
      OpenWithout(zones, a, i);
      assert ListOk(lists[i], zones, i);
    }
  }

  // ----- the pages and what they are used for -----

  function Extents(zs: set<nat>, n: nat): set<P.Run> { set a | a in zs :: P.Run(a, n) }

  function Held(s: Slab): set<nat> { s.zones.Keys + Elems(s.idle) }

  /** What the page allocator has handed out: zones, large blocks, and the table itself. */
  predicate OutOk(out: set<P.Run>, held: set<nat>, n: nat, large: set<P.Run>, table: P.Run) {
    && out == Extents(held, n) + large + {table}
    && Extents(held, n) !! large && table !in Extents(held, n) && table !in large
  }

  predicate Marked(usage: map<nat, Usage>, a: nat, n: nat) {
    forall p :: p in P.Range(a, n) ==> UsageAt(usage, p) == Small(p - a)
  }

  predicate UsageOk(usage: map<nat, Usage>, held: set<nat>, n: nat, large: set<P.Run>) {
    && (forall a :: a in held ==> Marked(usage, a, n))
    && (forall r :: r in large ==> UsageAt(usage, r.start) == Large(r.pages))
  }

  predicate ZonesOk(zones: map<nat, Zone>, n: nat) { forall a :: a in zones ==> ZoneOk(n, a, zones[a]) }

  /** No size has two zones without a chunk in use. */
  predicate OneEmpty(zones: map<nat, Zone>) {
    forall a, b ::
      a in zones && b in zones && zones[a].index == zones[b].index && zones[a].out == {} && zones[b].out == {} ==>
        a == b
  }

  predicate ZonePart(n: nat, zones: map<nat, Zone>, lists: seq<seq<nat>>) {
    ZoneSize(n) && ZonesOk(zones, n) && ListsOk(lists, zones)
  }

  predicate IdlePart(idle: seq<nat>, zs: set<nat>) { Distinct(idle) && Elems(idle) !! zs }

  predicate PagePart(n: nat, held: set<nat>, usage: map<nat, Usage>, pages: P.State, large: set<P.Run>, table: P.Run,
      all: set<nat>) {
    P.Inv(pages, all) && OutOk(pages.out, held, n, large, table) && UsageOk(usage, held, n, large)
  }

  predicate Sound(s: Slab, all: set<nat>) {
    && ZonePart(s.zonePages, s.zones, s.lists) && IdlePart(s.idle, s.zones.Keys)
    && PagePart(s.zonePages, Held(s), s.usage, s.pages, s.large, s.table, all)
  }

  predicate Inv(s: Slab, all: set<nat>) { Sound(s, all) && OneEmpty(s.zones) && |s.idle| <= IDLE_MAX }

  // ----- rt_malloc -----

  /** Begin a zone of size i at page a and hand out its first chunk. */
  function Begin(s: Slab, a: nat, i: nat): Outcome {
    Outcome(s.(zones := s.zones[a := FreshZone(s.zonePages, a, i)],
      lists := SetList(s.lists, i, [a] + ListAt(s.lists, i))),
            At(ChunkAt(a, i, 0)))
  }

  function TakeFrom(s: Slab, a: nat, i: nat): Outcome {
    var t := Take(s.zonePages, a, ZoneAt(s.zones, a));
    var list := ListAt(s.lists, i);
    Outcome(s.(zones := s.zones[a := t.zone],
               lists := if t.zone.nfree == 0 && list != [] then SetList(s.lists, i, list[1..]) else s.lists),
            At(t.chunk))
  }

  function NewZone(s: Slab, a: nat, free: seq<P.Run>): Slab {
    s.(usage := MarkZone(s.usage, a, s.zonePages), pages := P.State(free, s.pages.out + {P.Run(a, s.zonePages)}))
  }

  function MallocSmall(s: Slab, i: nat): Outcome {
    var list := ListAt(s.lists, i);
    if list != [] then TakeFrom(s, list[0], i)
    else if s.idle != [] then Begin(s.(idle := s.idle[1..]), s.idle[0], i)
    else
      var o := P.Alloc(s.pages.free, s.zonePages);
      if o.got.Nothing? then Outcome(s, Null) else Begin(NewZone(s, o.got.start, o.list), o.got.start, i)
  }

  /** How many pages a request takes; the rounding to whole pages wraps at 32 bits. */
  function PagesFor(n: nat): nat { (n + (PAGE - 1)) % 0x1_0000_0000 / PAGE }

  function MallocLarge(s: Slab, n: nat): Outcome {
    var count := PagesFor(n);
    if count == 0 then Outcome(s, Null)
    else
      var o := P.Alloc(s.pages.free, count);
      if o.got.Nothing? then Outcome(s, Null)
      else
        var r := P.Run(o.got.start, count);
        Outcome(s.(usage := s.usage[r.start := Large(count)], pages := P.State(o.list, s.pages.out + {r}),
          large := s.large + {r}),
                At(r.start * PAGE))
  }

  function IndexFor(n: nat): nat
    requires n < LIMIT
  {
    var i := ZoneIndex(n).index;
    if i < 0 then 0 else i
  }

  function Malloc(s: Slab, n: nat): Outcome {
    if n == 0 then Outcome(s, Null)
    else if n >= ZoneLimit(s.zonePages) then MallocLarge(s, n)
    else MallocSmall(s, IndexFor(n))
  }

  // ----- rt_free -----

  function PutBack(s: Slab, r: P.Run): P.State { P.State(P.Free(s.pages.free, r.start, r.pages), s.pages.out - {r}) }

  /** Back to the zone, and the zone to its list if it was full. */
  function GiveTo(s: Slab, a: nat, p: nat): Slab {
    var z := ZoneAt(s.zones, a);
    s.(zones := s.zones[a := Give(z, p)],
       lists := if z.nfree == 0 then SetList(s.lists, z.index, [a] + ListAt(s.lists, z.index)) else s.lists)
  }

  /** The zone leaves its list and is set aside. */
  function Retire(s: Slab, a: nat): Slab {
    var i := ZoneAt(s.zones, a).index;
    s.(zones := s.zones - {a}, lists := SetList(s.lists, i, Remove(ListAt(s.lists, i), a)), idle := [a] + s.idle)
  }

  /** The zone set aside last goes back to the page allocator. */
  function Release(s: Slab): Slab {
    if s.idle == [] then s
    else
      var r := P.Run(s.idle[0], s.zonePages);
      s.(idle := s.idle[1..], usage := MarkUnused(s.usage, r.start, r.pages), pages := PutBack(s, r))
  }

  /** A zone wholly free is set aside, unless it is the only one of its size with free chunks. */
  function SetAside(s: Slab, a: nat): Slab {
    var z := ZoneAt(s.zones, a);
    if z.nfree == Capacity(s.zonePages, z.index) && ListAt(s.lists, z.index) != [a] then
      var t := Retire(s, a);
      if |t.idle| > IDLE_MAX then Release(t) else t
    else s
  }

  function FreeSmall(s: Slab, a: nat, p: nat): Slab { SetAside(GiveTo(s, a, p), a) }

  function FreeLarge(s: Slab, r: P.Run): Slab {
    s.(usage := s.usage[r.start := Large(0)], pages := PutBack(s, r), large := s.large - {r})
  }

  /** What a block belongs to is found in the table of pages. */
  function Free(s: Slab, p: nat): Slab {
    var page := p / PAGE;
    match UsageAt(s.usage, page)
    case Large(n) => FreeLarge(s, P.Run(page, n))
    case Small(k) => if k <= page then FreeSmall(s, page - k, p) else s
    case Unused => s
  }

  // ----- what each change keeps -----

  lemma ZoneSet(n: nat, zones: map<nat, Zone>, lists: seq<seq<nat>>, a: nat, z: Zone, list: seq<nat>)
    requires ZonePart(n, zones, lists) && ZoneOk(n, a, z) && (a in zones ==> z.index == zones[a].index)
    requires ListOk(list, zones[a := z], z.index)
    ensures ZonePart(n, zones[a := z], SetList(lists, z.index, list))
  {
    assert z.index < NZONES;
    hide ListOk, ListsOk, ZoneOk, SetList;
    ListsWith(lists, zones, a, z, list);
  }

  /** A zone changes in place, and its list with it. */
  lemma SetKeeps(s: Slab, all: set<nat>, a: nat, z: Zone, list: seq<nat>)
    requires Sound(s, all) && a in s.zones && ZoneOk(s.zonePages, a, z) && z.index == s.zones[a].index
    requires ListOk(list, s.zones[a := z], z.index)
    ensures Sound(s.(zones := s.zones[a := z], lists := SetList(s.lists, z.index, list)), all)
  {
    hide ZonePart, IdlePart, PagePart, ZoneOk, ListOk, SetList, Elems;
    ZoneSet(s.zonePages, s.zones, s.lists, a, z, list);
    assert s.zones[a := z].Keys == s.zones.Keys;
  }

  lemma IdleHead(idle: seq<nat>, zs: set<nat>)
    requires IdlePart(idle, zs) && idle != []
    ensures IdlePart(idle[1..], zs + {idle[0]}) && idle[0] !in zs
    ensures zs + {idle[0]} + Elems(idle[1..]) == zs + Elems(idle)
      && zs + Elems(idle[1..]) == zs + Elems(idle) - {idle[0]}
  {
    TailElems(idle);
    HeadIn(idle);
    hide Elems, Distinct;
  }

  lemma ListPushed(list: seq<nat>, zones: map<nat, Zone>, a: nat, z: Zone)
    requires ListOk(list, zones, z.index) && a !in Open(zones, z.index) && z.nfree > 0
      && (a in zones ==> z.index == zones[a].index)
    ensures ListOk([a] + list, zones[a := z], z.index)
  {
    OpenWith(zones, a, z, z.index);
    hide Open, Elems, Distinct;
    FrontElems(a, list);
  }

  /** A zone that was set aside is put to use. */
  lemma BeginKeeps(s: Slab, all: set<nat>, i: nat)
    requires Sound(s, all) && s.idle != [] && Serves(s.zonePages, i)
    ensures Sound(Begin(s.(idle := s.idle[1..]), s.idle[0], i).slab, all)
  {
    var a, list := s.idle[0], ListAt(s.lists, i);
    var z := FreshZone(s.zonePages, a, i);
    var zones := s.zones[a := z];
    FreshKeeps(s.zonePages, a, i);
    IdleHead(s.idle, s.zones.Keys);
    assert zones.Keys == s.zones.Keys + {a};
    assert ListOk(list, s.zones, i);
    assert a !in Open(s.zones, i) && z.index == i;
    hide FreshZone, Capacity, ZoneOk, PagePart, IdlePart, Elems, Open, ListOk, ListsOk, ZonesOk, ListAt, SetList;
    ListPushed(list, s.zones, a, z);
    ZoneSet(s.zonePages, s.zones, s.lists, a, z, [a] + list);
  }

  lemma ZoneDropped(n: nat, zones: map<nat, Zone>, lists: seq<seq<nat>>, a: nat)
    requires ZonePart(n, zones, lists) && a in zones
    ensures var i := zones[a].index; ZonePart(n, zones - {a}, SetList(lists, i, Remove(ListAt(lists, i), a)))
  {
    assert ZoneOk(n, a, zones[a]);
    hide ZoneOk, Remove, Distinct, Elems, Open;
    ListsWithout(lists, zones, a);
    hide ListsOk;
  }

  lemma IdlePushed(idle: seq<nat>, zs: set<nat>, a: nat)
    requires IdlePart(idle, zs) && a in zs
    ensures IdlePart([a] + idle, zs - {a}) && zs - {a} + Elems([a] + idle) == zs + Elems(idle)
  {
    FrontElems(a, idle);
    hide Elems, Distinct;
  }

  /** A zone leaves its list and is set aside. */
  lemma RetireKeeps(s: Slab, all: set<nat>, a: nat)
    requires Sound(s, all) && a in s.zones
    ensures Sound(Retire(s, a), all)
  {
    hide ZonePart, IdlePart, PagePart, Remove, SetList, ListAt, Elems;
    assert (s.zones - {a}).Keys == s.zones.Keys - {a};
    ZoneDropped(s.zonePages, s.zones, s.lists, a);
    IdlePushed(s.idle, s.zones.Keys, a);
  }

  /** Runs of free pages have no page in common with what was handed out. */
  lemma FreeRun(pages: P.State, all: set<nat>, r: P.Run, q: P.Run)
    requires P.Inv(pages, all) && P.Range(r.start, r.pages) <= P.Pages(pages.free) && r.pages > 0 && q in pages.out
    ensures q != r && P.Range(q.start, q.pages) !! P.Range(r.start, r.pages) && q.start in P.Range(q.start, q.pages)
  {
    forall p | p in P.Range(q.start, q.pages)
      ensures p in P.Blocks(pages.out)
    {
    }
    assert q.start in P.Range(q.start, q.pages);
  }

  lemma OutRuns(pages: P.State, all: set<nat>, r: P.Run, q: P.Run)
    requires P.Inv(pages, all) && r in pages.out && q in pages.out
    ensures q != r ==> P.Range(q.start, q.pages) !! P.Range(r.start, r.pages)
    ensures q.start in P.Range(q.start, q.pages)
  {
  }

  lemma ExtentsOf(held: set<nat>, a: nat, n: nat)
    ensures Extents(held + {a}, n) == Extents(held, n) + {P.Run(a, n)}
    ensures Extents(held - {a}, n) == Extents(held, n) - {P.Run(a, n)}
    ensures a in held <==> P.Run(a, n) in Extents(held, n)
  {
  }

  /** What a page is used for is not changed with pages of others. */
  lemma StillMarked(usage: map<nat, Usage>, a: nat, n: nat, b: nat, m: nat)
    requires Marked(usage, b, n) && P.Range(b, n) !! P.Range(a, m)
    ensures Marked(MarkZone(usage, a, m), b, n) && Marked(MarkUnused(usage, a, m), b, n)
  {
  }

  lemma StillMarkedAt(usage: map<nat, Usage>, b: nat, n: nat, p: nat, u: Usage)
    requires Marked(usage, b, n) && p !in P.Range(b, n)
    ensures Marked(usage[p := u], b, n)
  {
  }

  lemma NowMarked(usage: map<nat, Usage>, a: nat, n: nat)
    ensures Marked(MarkZone(usage, a, n), a, n)
  {
  }

  lemma UsageAtOther(usage: map<nat, Usage>, a: nat, n: nat, p: nat)
    requires p !in P.Range(a, n)
    ensures UsageAt(MarkZone(usage, a, n), p) == UsageAt(usage, p) == UsageAt(MarkUnused(usage, a, n), p)
  {
  }

  /** The page allocator hands out a run. */
  lemma RunTaken(pages: P.State, all: set<nat>, n: nat)
    requires P.Inv(pages, all) && n > 0 && P.Alloc(pages.free, n).got.At?
    ensures var o := P.Alloc(pages.free, n); var r := P.Run(o.got.start, n);
      && P.Inv(P.State(o.list, pages.out + {r}), all) && P.Range(r.start, n) <= P.Pages(pages.free)
           && P.Range(r.start, n) <= all
  {
    P.AllocKeeps(pages, all, n);
    P.AllocTakes(pages.free, n);
    hide P.Coalesced, P.Range, P.Pages, P.Blocks, P.Alloc;
  }

  lemma OutWith(out: set<P.Run>, held: set<nat>, n: nat, large: set<P.Run>, table: P.Run, a: nat)
    requires OutOk(out, held, n, large, table) && P.Run(a, n) !in out
    ensures a !in held && OutOk(out + {P.Run(a, n)}, held + {a}, n, large, table)
  {
    ExtentsOf(held, a, n);
    hide Extents;
  }

  lemma UsageWith(usage: map<nat, Usage>, held: set<nat>, n: nat, large: set<P.Run>, a: nat)
    requires UsageOk(usage, held, n, large)
    requires forall b :: b in held ==> P.Range(b, n) !! P.Range(a, n)
    requires forall q: P.Run :: q in large ==> q.start !in P.Range(a, n)
    ensures UsageOk(MarkZone(usage, a, n), held + {a}, n, large)
  {
    hide P.Range, MarkZone, Marked, UsageAt;
    NowMarked(usage, a, n);
    forall b | b in held
      ensures Marked(MarkZone(usage, a, n), b, n)
    {
      StillMarked(usage, a, n, b, n);
    }
    forall q | q in large
      ensures UsageAt(MarkZone(usage, a, n), q.start) == Large(q.pages)
    {
      UsageAtOther(usage, a, n, q.start);
    }
  }

  /** No page of r is in what else was handed out. */
  predicate ApartFrom(out: set<P.Run>, r: P.Run) {
    forall q: P.Run :: q in out && q != r ==>
      P.Range(q.start, q.pages) !! P.Range(r.start, r.pages) && q.start in P.Range(q.start, q.pages)
  }

  lemma ZonesApart(out: set<P.Run>, held: set<nat>, n: nat, large: set<P.Run>, table: P.Run, r: P.Run)
    requires OutOk(out, held, n, large, table) && ApartFrom(out, r)
    ensures forall b :: b in held && P.Run(b, n) != r ==>
      P.Range(b, n) !! P.Range(r.start, r.pages) && b !in P.Range(r.start, r.pages)
    ensures forall q: P.Run :: q in large && q != r ==> q.start !in P.Range(r.start, r.pages)
  {
    forall b | b in held && P.Run(b, n) != r
      ensures P.Range(b, n) !! P.Range(r.start, r.pages) && b !in P.Range(r.start, r.pages)
    {
      var q := P.Run(b, n);
      assert q in Extents(held, n);
      assert P.Range(q.start, q.pages) !! P.Range(r.start, r.pages);
    }
  }

  lemma RunsBeside(out: set<P.Run>, held: set<nat>, n: nat, large: set<P.Run>, table: P.Run, r: P.Run)
    requires OutOk(out, held, n, large, table) && ApartFrom(out, r) && r !in out
    ensures forall b :: b in held ==> P.Range(b, n) !! P.Range(r.start, r.pages)
    ensures forall q: P.Run :: q in large ==> q.start !in P.Range(r.start, r.pages)
  {
    ZonesApart(out, held, n, large, table, r);
    forall b | b in held
      ensures P.Run(b, n) != r
    {
      assert P.Run(b, n) in Extents(held, n);
    }
  }

  /** Pages for a zone. */
  lemma ZonePages(n: nat, held: set<nat>, usage: map<nat, Usage>, pages: P.State, large: set<P.Run>, table: P.Run,
      all: set<nat>)
    requires PagePart(n, held, usage, pages, large, table, all) && n > 0 && P.Alloc(pages.free, n).got.At?
    ensures var o := P.Alloc(pages.free, n); var a := o.got.start;
      && a !in held && P.Range(a, n) <= all
      && PagePart(n, held + {a}, MarkZone(usage, a, n), P.State(o.list, pages.out + {P.Run(a, n)}), large, table, all)
  {
    var o := P.Alloc(pages.free, n);
    var r := P.Run(o.got.start, n);
    hide P.Alloc, P.Inv, P.Range, P.Pages, MarkZone, UsageOk, OutOk;
    RunTaken(pages, all, n);
    forall q | q in pages.out
      ensures q != r && P.Range(q.start, q.pages) !! P.Range(r.start, n) && q.start in P.Range(q.start, q.pages)
    {
      FreeRun(pages, all, r, q);
    }
    assert ApartFrom(pages.out, r);
    hide ApartFrom;
    OutWith(pages.out, held, n, large, table, r.start);
    RunsBeside(pages.out, held, n, large, table, r);
    UsageWith(usage, held, n, large, r.start);
  }

  lemma OutWithout(out: set<P.Run>, held: set<nat>, n: nat, large: set<P.Run>, table: P.Run, a: nat)
    requires OutOk(out, held, n, large, table) && a in held
    ensures P.Run(a, n) in out && P.Run(a, n) !in large && OutOk(out - {P.Run(a, n)}, held - {a}, n, large, table)
  {
    ExtentsOf(held, a, n);
    hide Extents;
  }

  lemma UsageWithout(usage: map<nat, Usage>, held: set<nat>, n: nat, large: set<P.Run>, a: nat)
    requires UsageOk(usage, held, n, large)
    requires forall b :: b in held && b != a ==> P.Range(b, n) !! P.Range(a, n)
    requires forall q: P.Run :: q in large ==> q.start !in P.Range(a, n)
    ensures UsageOk(MarkUnused(usage, a, n), held - {a}, n, large)
  {
    hide P.Range, MarkUnused, Marked, UsageAt;
    forall b | b in held && b != a
      ensures Marked(MarkUnused(usage, a, n), b, n)
    {
      StillMarked(usage, a, n, b, n);
    }
    forall q | q in large
      ensures UsageAt(MarkUnused(usage, a, n), q.start) == Large(q.pages)
    {
      UsageAtOther(usage, a, n, q.start);
    }
  }

  /** The page allocator takes back a run that it handed out. */
  lemma RunReturned(pages: P.State, all: set<nat>, r: P.Run)
    requires P.Inv(pages, all) && r in pages.out
    ensures P.Inv(P.State(P.Free(pages.free, r.start, r.pages), pages.out - {r}), all) && ApartFrom(pages.out, r)
  {
    P.FreeKeeps(pages, all, r);
    hide P.Inv;
    forall q: P.Run | q in pages.out && q != r
      ensures P.Range(q.start, q.pages) !! P.Range(r.start, r.pages) && q.start in P.Range(q.start, q.pages)
    {
      OutRuns(pages, all, r, q);
    }
  }

  /** The pages of a zone go back. */
  lemma ZonePagesBack(n: nat, held: set<nat>, usage: map<nat, Usage>, pages: P.State, large: set<P.Run>, table: P.Run,
      all: set<nat>, a: nat)
    requires PagePart(n, held, usage, pages, large, table, all) && a in held
    ensures PagePart(n, held - {a}, MarkUnused(usage, a, n),
      P.State(P.Free(pages.free, a, n), pages.out - {P.Run(a, n)}), large, table, all)
  {
    var r := P.Run(a, n);
    hide P.Free, P.Inv, P.Range, MarkUnused, UsageOk, OutOk, ApartFrom;
    OutWithout(pages.out, held, n, large, table, a);
    RunReturned(pages, all, r);
    ZonesApart(pages.out, held, n, large, table, r);
    UsageWithout(usage, held, n, large, a);
  }

  /** The zone set aside last goes back to the page allocator. */
  lemma ReleaseKeeps(s: Slab, all: set<nat>)
    requires Sound(s, all) && s.idle != []
    ensures Sound(Release(s), all)
  {
    HeadIn(s.idle);
    hide ZonePart, PagePart, MarkUnused, P.Free, Elems, Distinct;
    IdleHead(s.idle, s.zones.Keys);
    ZonePagesBack(s.zonePages, Held(s), s.usage, s.pages, s.large, s.table, all, s.idle[0]);
  }

  /** A zone that is set aside with new pages. */
  function Fetched(s: Slab, a: nat, free: seq<P.Run>): Slab { NewZone(s, a, free).(idle := [a] + s.idle) }

  lemma IdleMore(idle: seq<nat>, zs: set<nat>, a: nat)
    requires IdlePart(idle, zs) && a !in zs + Elems(idle)
    ensures IdlePart([a] + idle, zs) && zs + Elems([a] + idle) == zs + Elems(idle) + {a}
  {
    FrontElems(a, idle);
    hide Elems, Distinct;
  }

  lemma FetchedKeeps(s: Slab, all: set<nat>)
    requires Sound(s, all) && P.Alloc(s.pages.free, s.zonePages).got.At?
    ensures var o := P.Alloc(s.pages.free, s.zonePages);
      Sound(Fetched(s, o.got.start, o.list), all) && o.got.start !in Held(s)
  {
    assert s.zonePages > 0;
    hide ZonePart, IdlePart, PagePart, MarkZone, P.Alloc, Elems;
    ZonePages(s.zonePages, Held(s), s.usage, s.pages, s.large, s.table, all);
    IdleMore(s.idle, s.zones.Keys, P.Alloc(s.pages.free, s.zonePages).got.start);
  }

  // ----- large blocks -----

  /** The first page of a large block is marked. */
  lemma UsageLarge(usage: map<nat, Usage>, held: set<nat>, n: nat, large: set<P.Run>, r: P.Run, u: Usage)
    requires UsageOk(usage, held, n, large)
    requires forall b :: b in held ==> r.start !in P.Range(b, n)
    requires forall q: P.Run :: q in large && q != r ==> q.start != r.start
    ensures UsageOk(usage[r.start := u], held, n, large - {r})
    ensures u == Large(r.pages) ==> UsageOk(usage[r.start := u], held, n, large + {r})
  {
    hide P.Range, Marked;
    forall b | b in held
      ensures Marked(usage[r.start := u], b, n)
    {
      StillMarkedAt(usage, b, n, r.start, u);
    }
  }

  lemma OutLarge(out: set<P.Run>, held: set<nat>, n: nat, large: set<P.Run>, table: P.Run, r: P.Run)
    requires OutOk(out, held, n, large, table)
    ensures r !in out ==> r !in large && OutOk(out + {r}, held, n, large + {r}, table)
    ensures r in large ==> r in out && OutOk(out - {r}, held, n, large - {r}, table)
    ensures r in large ==> forall b :: b in held ==> P.Run(b, n) != r
  {
    forall b | b in held && r in large
      ensures P.Run(b, n) != r
    {
      assert P.Run(b, n) in Extents(held, n);
    }
    hide Extents;
  }

  lemma StartInRange(a: nat, n: nat)
    requires n > 0
    ensures a in P.Range(a, n)
  {
  }

  lemma LargeWith(n: nat, held: set<nat>, usage: map<nat, Usage>, pages: P.State, large: set<P.Run>, table: P.Run,
      all: set<nat>, count: nat)
    requires PagePart(n, held, usage, pages, large, table, all) && count > 0 && P.Alloc(pages.free, count).got.At?
    ensures var o := P.Alloc(pages.free, count); var r := P.Run(o.got.start, count);
      && r !in large && r.start in all
      && PagePart(n, held, usage[r.start := Large(count)], P.State(o.list, pages.out + {r}), large + {r}, table, all)
  {
    var r := P.Run(P.Alloc(pages.free, count).got.start, count);
    hide P.Alloc, P.Inv, P.Range, P.Pages, UsageOk, OutOk;
    RunTaken(pages, all, count);
    forall q | q in pages.out
      ensures q != r && P.Range(q.start, q.pages) !! P.Range(r.start, count) && q.start in P.Range(q.start, q.pages)
    {
      FreeRun(pages, all, r, q);
    }
    assert ApartFrom(pages.out, r);
    hide ApartFrom;
    OutLarge(pages.out, held, n, large, table, r);
    RunsBeside(pages.out, held, n, large, table, r);
    StartInRange(r.start, count);
    UsageLarge(usage, held, n, large, r, Large(count));
  }

  lemma LargeWithout(n: nat, held: set<nat>, usage: map<nat, Usage>, pages: P.State, large: set<P.Run>, table: P.Run,
      all: set<nat>, r: P.Run)
    requires PagePart(n, held, usage, pages, large, table, all) && r in large
    ensures PagePart(n, held, usage[r.start := Large(0)],
      P.State(P.Free(pages.free, r.start, r.pages), pages.out - {r}), large - {r}, table, all)
  {
    hide P.Free, P.Inv, P.Range, UsageOk, OutOk, ApartFrom;
    OutLarge(pages.out, held, n, large, table, r);
    RunReturned(pages, all, r);
    OutRuns(pages, all, r, r);
    ZonesApart(pages.out, held, n, large, table, r);
    UsageLarge(usage, held, n, large, r, Large(0));
  }
}
