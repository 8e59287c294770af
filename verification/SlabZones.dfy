/** Zones of the slab allocator: which zone a request belongs to, and where the chunks of a zone are. */
module SlabZones {

  // ----- zoneindex -----

  const NZONES := 72
  const LIMIT := 16384          // ZALLOC_ZONE_LIMIT

  datatype ZoneFor = ZoneFor(index: int, bytes: nat)

  /** n + u - 1 with the low bits masked off, and the zone it belongs to. */
  function In8(n: nat): ZoneFor { var b := (n + 7) / 8 * 8; ZoneFor(b / 8 - 1, b) }
  function In16(n: nat): ZoneFor { var b := (n + 15) / 16 * 16; ZoneFor(b / 16 + 7, b) }
  function In32(n: nat): ZoneFor { var b := (n + 31) / 32 * 32; ZoneFor(b / 32 + 15, b) }
  function In64(n: nat): ZoneFor { var b := (n + 63) / 64 * 64; ZoneFor(b / 64 + 23, b) }
  function In128(n: nat): ZoneFor { var b := (n + 127) / 128 * 128; ZoneFor(b / 128 + 31, b) }
  function In256(n: nat): ZoneFor { var b := (n + 255) / 256 * 256; ZoneFor(b / 256 + 39, b) }
  function In512(n: nat): ZoneFor { var b := (n + 511) / 512 * 512; ZoneFor(b / 512 + 47, b) }
  function In1024(n: nat): ZoneFor { var b := (n + 1023) / 1024 * 1024; ZoneFor(b / 1024 + 55, b) }

  /** The zone of a request and the chunk size it is raised to. */
  function ZoneIndex(n: nat): ZoneFor
    requires n < LIMIT
  {
    if n < 128 then In8(n)
    else if n < 256 then In16(n)
    else if n < 512 then In32(n)
    else if n < 1024 then In64(n)
    else if n < 2048 then In128(n)
    else if n < 4096 then In256(n)
    else if n < 8192 then In512(n)
    else In1024(n)
  }

  /** The chunk size of a zone, by its index alone. */
  function ChunkSize(i: nat): nat {
    if i < 16 then 8 * (i + 1)
    else if i < 24 then 16 * (i - 7)
    else if i < 32 then 32 * (i - 15)
    else if i < 40 then 64 * (i - 23)
    else if i < 48 then 128 * (i - 31)
    else if i < 56 then 256 * (i - 39)
    else if i < 64 then 512 * (i - 47)
    else 1024 * (i - 55)
  }

  lemma {:induction false} ChunkSizesGrow(i: nat, j: nat)
    requires i < j
    ensures ChunkSize(i) < ChunkSize(j)
    decreases j
  {
    if i < j - 1 { ChunkSizesGrow(i, j - 1); }
  }

  /** The zone is the first whose chunks are large enough, and the request is raised to their size. */
  predicate Fits(n: nat, z: ZoneFor) {
    && 0 <= z.index < NZONES && z.bytes == ChunkSize(z.index) && n <= z.bytes
    && (z.index > 0 ==> ChunkSize(z.index - 1) < n)
  }

  lemma In8Fits(n: nat)
    requires 1 <= n < 128
    ensures Fits(n, In8(n))
  {
    var q := (n + 7) / 8;
    assert 8 * q - 8 < n <= 8 * q && In8(n) == ZoneFor(q - 1, 8 * q);
  }

  lemma In16Fits(n: nat)
    requires 128 <= n < 256
    ensures Fits(n, In16(n))
  {
    var q := (n + 15) / 16;
    assert 16 * q - 16 < n <= 16 * q && In16(n) == ZoneFor(q + 7, 16 * q);
  }

  lemma In32Fits(n: nat)
    requires 256 <= n < 512
    ensures Fits(n, In32(n))
  {
    var q := (n + 31) / 32;
    assert 32 * q - 32 < n <= 32 * q && In32(n) == ZoneFor(q + 15, 32 * q);
  }

  lemma In64Fits(n: nat)
    requires 512 <= n < 1024
    ensures Fits(n, In64(n))
  {
    var q := (n + 63) / 64;
    assert 64 * q - 64 < n <= 64 * q && In64(n) == ZoneFor(q + 23, 64 * q);
  }

  lemma In128Fits(n: nat)
    requires 1024 <= n < 2048
    ensures Fits(n, In128(n))
  {
    var q := (n + 127) / 128;
    assert 128 * q - 128 < n <= 128 * q && In128(n) == ZoneFor(q + 31, 128 * q);
  }

  lemma In256Fits(n: nat)
    requires 2048 <= n < 4096
    ensures Fits(n, In256(n))
  {
    var q := (n + 255) / 256;
    assert 256 * q - 256 < n <= 256 * q && In256(n) == ZoneFor(q + 39, 256 * q);
  }

  lemma In512Fits(n: nat)
    requires 4096 <= n < 8192
    ensures Fits(n, In512(n))
  {
    var q := (n + 511) / 512;
    assert 512 * q - 512 < n <= 512 * q && In512(n) == ZoneFor(q + 47, 512 * q);
  }

  lemma In1024Fits(n: nat)
    requires 8192 <= n < 16384
    ensures Fits(n, In1024(n))
  {
    var q := (n + 1023) / 1024;
    assert 1024 * q - 1024 < n <= 1024 * q && In1024(n) == ZoneFor(q + 55, 1024 * q);
  }

  /** A request goes to the first zone whose chunks are large enough, and is raised to their size. */
  lemma ZoneIndexFits(n: nat)
    requires 1 <= n < LIMIT
    ensures Fits(n, ZoneIndex(n))
  {
    hide Fits, In8, In16, In32, In64, In128, In256, In512, In1024;
    if n < 128 { In8Fits(n); }
    else if n < 256 { In16Fits(n); }
    else if n < 512 { In32Fits(n); }
    else if n < 1024 { In64Fits(n); }
    else if n < 2048 { In128Fits(n); }
    else if n < 4096 { In256Fits(n); }
    else if n < 8192 { In512Fits(n); }
    else { In1024Fits(n); }
  }

  /** Larger requests go to no lower zone. */
  lemma ZoneIndexMonotone(n: nat, m: nat)
    requires 1 <= n <= m < LIMIT
    ensures ZoneIndex(n).index <= ZoneIndex(m).index
  {
    hide ZoneIndex, ChunkSize;
    ZoneIndexFits(n);
    ZoneIndexFits(m);
    var i, j := ZoneIndex(n).index, ZoneIndex(m).index;
    if j < i - 1 { ChunkSizesGrow(j, i - 1); }
  }

  // ----- the chunks of a zone -----

  const PAGE := 4096
  const HEADER := 36            // sizeof(struct slab_zone)

  /** Zones are of 32, 64 or 128 KB; requests from a quarter of that on, or from 16 KB on, go to pages. */
  predicate ZoneSize(pages: nat) { pages == 8 || pages == 16 || pages == 32 }

  function ZoneLimit(pages: nat): nat { if pages == 8 then 8192 else LIMIT }

  predicate PowerOfTwo(c: nat) {
    c == 8 || c == 16 || c == 32 || c == 64 || c == 128 || c == 256 || c == 512 || c == 1024 || c == 2048 || c == 4096
    || c == 8192 || c == 16384
  }

  /** n rounded up to a multiple of c. */
  function RoundUp(n: nat, c: nat): nat
    requires c > 0
  {
    (n + c - 1) / c * c
  }

  /** Where the chunks begin: behind the header, at a multiple of the chunk size if that is a power of two. */
  function Base(c: nat): nat
    requires c > 0
  {
    if PowerOfTwo(c) then RoundUp(HEADER, c) else RoundUp(HEADER, 8)
  }

  /** z_nmax. */
  function Capacity(pages: nat, i: nat): int { (pages * PAGE - Base(ChunkSize(i))) / ChunkSize(i) }

  /** The address of a chunk of the zone that begins at page a. */
  function ChunkAt(a: nat, i: nat, slot: nat): nat { a * PAGE + Base(ChunkSize(i)) + slot * ChunkSize(i) }

  lemma ChunkSizeBounds(i: nat)
    ensures ChunkSize(i) >= 8
    ensures i < NZONES ==> ChunkSize(i) <= LIMIT
    ensures i < 64 ==> ChunkSize(i) <= 8192
  {
  }

  /** Requests below the limit go to zones whose chunks are no larger than the limit. */
  lemma BelowLimit(pages: nat, n: nat)
    requires ZoneSize(pages) && 1 <= n < ZoneLimit(pages)
    ensures 0 <= ZoneIndex(n).index < NZONES && ChunkSize(ZoneIndex(n).index) <= ZoneLimit(pages)
  {
    ZoneIndexFits(n);
    ChunkSizeBounds(ZoneIndex(n).index);
    hide ZoneIndex;
    if ZoneIndex(n).index >= 64 { ChunkSizesGrow(63, ZoneIndex(n).index); ChunkSizesGrow(62, 63); }
  }

  lemma BaseBounds(c: nat)
    requires c >= 8
    ensures HEADER <= Base(c) <= c + 64
    ensures c >= 64 ==> Base(c) <= c
  {
  }

  lemma QuotientAtLeast(x: nat, d: nat, k: nat)
    requires d > 0 && k * d <= x
    ensures x / d >= k
  {
    if x / d < k { Times(x / d + 1, k, d); }
  }

  lemma Times(a: nat, b: nat, d: nat)
    requires a <= b
    ensures a * d <= b * d
  {
  }

  lemma QuotientFits(x: nat, d: nat)
    requires d > 0
    ensures x / d * d <= x
  {
  }

  /** Every zone has room for three chunks at least, and its chunks end within it. */
  lemma CapacityFits(pages: nat, i: nat)
    requires ZoneSize(pages) && i < NZONES && ChunkSize(i) <= ZoneLimit(pages)
    ensures Capacity(pages, i) >= 3 && Base(ChunkSize(i)) + Capacity(pages, i) * ChunkSize(i) <= pages * PAGE
  {
    var c := ChunkSize(i);
    ChunkSizeBounds(i);
    BaseBounds(c);
    hide Base, ChunkSize;
    var room := pages * PAGE - Base(c);
    assert 3 * c <= room;
    QuotientAtLeast(room, c, 3);
    QuotientFits(room, c);
  }

  lemma NextChunk(a: nat, i: nat, slot: nat)
    ensures ChunkAt(a, i, slot + 1) == ChunkAt(a, i, slot) + ChunkSize(i)
  {
    hide ChunkSize, Base;
    assert (slot + 1) * ChunkSize(i) == slot * ChunkSize(i) + ChunkSize(i);
  }

  /** The first m chunks of a zone. */
  function Chunks(a: nat, i: nat, m: nat): set<nat> {
    if m == 0 then {} else Chunks(a, i, m - 1) + {ChunkAt(a, i, m - 1)}
  }

  /** Intervals of length c that begin at these addresses do not overlap. */
  predicate Spaced(ps: set<nat>, c: nat) { forall p, q :: p in ps && q in ps && p < q ==> p + c <= q }

  predicate Between(ps: set<nat>, from: nat, c: nat, end: nat) { forall p :: p in ps ==> from <= p && p + c <= end }

  lemma OneMore(ps: set<nat>, from: nat, c: nat, end: nat)
    requires Spaced(ps, c) && Between(ps, from, c, end) && from <= end && c > 0
    ensures end !in ps && Spaced(ps + {end}, c) && Between(ps + {end}, from, c, end + c) && |ps + {end}| == |ps| + 1
  {
    assert end !in ps;
  }

  /** No two chunks of a zone overlap. */
  lemma {:induction false} ChunksApart(a: nat, i: nat, m: nat)
    ensures |Chunks(a, i, m)| == m && Spaced(Chunks(a, i, m), ChunkSize(i)) && ChunkAt(a, i, 0) <= ChunkAt(a, i, m)
    ensures Between(Chunks(a, i, m), ChunkAt(a, i, 0), ChunkSize(i), ChunkAt(a, i, m))
  {
    hide *;
    if m == 0 {
      ChunksNone(a, i);
      NoneBetween(ChunkSize(i), ChunkAt(a, i, 0));
    } else {
      ChunksApart(a, i, m - 1);
      ChunksMore(a, i, m);
      ChunkSizeBounds(i);
      NextChunk(a, i, m - 1);
      OneMore(Chunks(a, i, m - 1), ChunkAt(a, i, 0), ChunkSize(i), ChunkAt(a, i, m - 1));
    }
  }

  lemma ChunksNone(a: nat, i: nat)
    ensures Chunks(a, i, 0) == {}
  {
  }

  lemma ChunksMore(a: nat, i: nat, m: nat)
    requires m > 0
    ensures Chunks(a, i, m) == Chunks(a, i, m - 1) + {ChunkAt(a, i, m - 1)}
  {
  }

  lemma NoneBetween(c: nat, x: nat)
    ensures Spaced({}, c) && Between({}, x, c, x)
  {
  }

  /** The chunks of a zone are behind its header and within its pages. */
  lemma ChunksWithin(pages: nat, a: nat, i: nat, m: nat)
    requires ZoneSize(pages) && i < NZONES && ChunkSize(i) <= ZoneLimit(pages) && m <= Capacity(pages, i)
    ensures Between(Chunks(a, i, m), a * PAGE + HEADER, ChunkSize(i), (a + pages) * PAGE)
  {
    ChunksApart(a, i, m);
    CapacityFits(pages, i);
    ChunkSizeBounds(i);
    BaseBounds(ChunkSize(i));
    Times(m, Capacity(pages, i), ChunkSize(i));
    var c := ChunkSize(i);
    assert ChunkAt(a, i, m) == a * PAGE + Base(c) + m * c && ChunkAt(a, i, 0) == a * PAGE + Base(c);
    hide Chunks, ChunkAt, Base, ChunkSize, Spaced, Capacity;
  }

  lemma {:induction false} MultiplesAdd(x: nat, k: nat, c: nat)
    requires c > 0
    ensures (x + k * c) % c == x % c
    decreases k
  {
    if k > 0 {
      MultiplesAdd(x, k - 1, c);
      assert x + k * c == (x + (k - 1) * c) + c;
      AddOne(x + (k - 1) * c, c);
    }
  }

  lemma AddOne(y: nat, c: nat)
    requires c > 0
    ensures (y + c) % c == y % c
  {
    var q, t := y / c, (y + c) / c;
    assert y == q * c + y % c && y + c == t * c + (y + c) % c && (q + 1) * c == q * c + c;
    SameRemainder(q + 1, y % c, t, (y + c) % c, c);
  }

  lemma SameRemainder(q: nat, r: nat, t: nat, u: nat, c: nat)
    requires q * c + r == t * c + u && r < c && u < c
    ensures r == u
  {
    if q < t { Times(q + 1, t, c); }
    if t < q { Times(t + 1, q, c); }
  }

  /** Chunks whose size is a power of two are aligned to it if and only if the zone is, which every zone is up
      to the page size. */
  lemma ChunkAlignedIff(a: nat, i: nat, slot: nat)
    requires PowerOfTwo(ChunkSize(i))
    ensures ChunkAt(a, i, slot) % ChunkSize(i) == 0 <==> a * PAGE % ChunkSize(i) == 0
    ensures ChunkSize(i) <= PAGE ==> ChunkAt(a, i, slot) % ChunkSize(i) == 0
  {
    var c := ChunkSize(i);
    var b := (HEADER + c - 1) / c;
    assert ChunkAt(a, i, slot) == a * PAGE + b * c + slot * c;
    if c <= PAGE { PageAligned(a, c); }
    hide ChunkAt, ChunkSize, PowerOfTwo;
    MultiplesAdd(a * PAGE, b, c);
    MultiplesAdd(a * PAGE + b * c, slot, c);
  }

  lemma PageAligned(a: nat, c: nat)
    requires PowerOfTwo(c) && c <= PAGE
    ensures a * PAGE % c == 0
  {
    var k := PAGE / c;
    assert k * c == PAGE;
    hide PowerOfTwo;
    assert a * (k * c) == 0 + (a * k) * c;
    MultiplesAdd(0, a * k, c);
  }
}
