/** The ready group as a word of bits, and the search for its lowest set bit. */
module ReadyBits {

  const WORD := 0x1_0000_0000

  predicate Bit(v: nat, k: nat)
    decreases k
  {
    if k == 0 then v % 2 == 1 else Bit(v / 2, k - 1)
  }

  /** v | 1 << k and v & ~(1 << k). */
  function SetBit(v: nat, k: nat): nat
    decreases k
  {
    if k == 0 then v / 2 * 2 + 1 else v % 2 + 2 * SetBit(v / 2, k - 1)
  }

  function ClearBit(v: nat, k: nat): nat
    decreases k
  {
    if k == 0 then v / 2 * 2 else v % 2 + 2 * ClearBit(v / 2, k - 1)
  }

  lemma {:induction false} SetBitBits(v: nat, k: nat, j: nat)
    ensures Bit(SetBit(v, k), j) <==> j == k || Bit(v, j)
    decreases k
  {
    if k > 0 && j > 0 {
      assert SetBit(v, k) / 2 == SetBit(v / 2, k - 1);
      SetBitBits(v / 2, k - 1, j - 1);
    }
  }

  lemma {:induction false} ClearBitBits(v: nat, k: nat, j: nat)
    ensures Bit(ClearBit(v, k), j) <==> j != k && Bit(v, j)
    decreases k
  {
    if k > 0 && j > 0 {
      assert ClearBit(v, k) / 2 == ClearBit(v / 2, k - 1);
      ClearBitBits(v / 2, k - 1, j - 1);
    }
  }

  /** A set bit means a word that is not zero. */
  lemma {:induction false} NoBits(v: nat, k: nat)
    requires Bit(v, k)
    ensures v > 0
    decreases k
  {
    if k > 0 { NoBits(v / 2, k - 1); }
  }

  // ----- __rt_ffs -----

  /** One line of the table: 16 entries, which differ between lines in the first only. */
  function Line(first: nat): (line: seq<nat>)
    ensures |line| == 16
  {
    [first, 0, 1, 0, 2, 0, 1, 0, 3, 0, 1, 0, 2, 0, 1, 0]
  }

  const FIRSTS: seq<nat> := [0, 4, 5, 4, 6, 4, 5, 4, 7, 4, 5, 4, 6, 4, 5, 4]

  /** __lowest_bit_bitmap. */
  function LowestBitmap(b: nat): nat
    requires b < 256
  {
    Line(FIRSTS[b / 16])[b % 16]
  }

  function Ffs(v: nat): nat
    requires v < WORD
  {
    if v == 0 then 0
    else if v % 256 != 0 then LowestBitmap(v % 256) + 1
    else if v / 256 % 256 != 0 then LowestBitmap(v / 256 % 256) + 9
    else if v / 65536 % 256 != 0 then LowestBitmap(v / 65536 % 256) + 17
    else LowestBitmap(v / 16777216) + 25
  }

  /** Bit k is the lowest one set. */
  predicate Lowest(v: nat, k: nat) { Bit(v, k) && forall j :: 0 <= j < k ==> !Bit(v, j) }

  lemma HalveEven(v: nat, k: nat)
    requires v % 2 == 0 && Lowest(v / 2, k)
    ensures Lowest(v, k + 1)
  {
    forall j | 0 <= j < k + 1
      ensures !Bit(v, j)
    {
      if j > 0 { assert !Bit(v / 2, j - 1); }
    }
  }

  lemma LowestOdd(v: nat)
    requires v % 2 == 1
    ensures Lowest(v, 0)
  {
  }

  lemma NibbleTable(n: nat)
    requires 0 < n < 16
    ensures Line(0)[n] == if n % 2 == 1 then 0 else if n / 2 % 2 == 1 then 1 else if n / 2 / 2 % 2 == 1 then 2 else 3
    ensures n / 2 / 2 / 2 < 2
  {
  }

  lemma HalfOf(a: nat, n: nat)
    ensures (2 * a + n) / 2 == a + n / 2 && (2 * a + n) % 2 == n % 2
  {
  }

  /** The lowest set bit of a word whose last four bits are not all zero, by halving. */
  lemma LowestNibble(v: nat)
    requires v % 16 != 0
    ensures Lowest(v, Line(0)[v % 16])
  {
    hide Line, Lowest;
    var n, v1, v2, v3 := v % 16, v / 2, v / 2 / 2, v / 2 / 2 / 2;
    NibbleTable(n);
    var q := v / 16;
    HalfOf(8 * q, n);
    HalfOf(4 * q, n / 2);
    HalfOf(2 * q, n / 2 / 2);
    HalfOf(q, n / 2 / 2 / 2);
    Halves(v, n, v1, n / 2, v2, n / 2 / 2, v3, n / 2 / 2 / 2);
  }

  lemma Halves(v: nat, n: nat, v1: nat, n1: nat, v2: nat, n2: nat, v3: nat, n3: nat)
    requires v1 == v / 2 && v2 == v1 / 2 && v3 == v2 / 2 && n1 == n / 2 && n2 == n1 / 2 && n3 == n2 / 2 && 0 < n
      && n3 < 2
    requires v % 2 == n % 2 && v1 % 2 == n1 % 2 && v2 % 2 == n2 % 2 && v3 % 2 == n3 % 2
    ensures Lowest(v, if n % 2 == 1 then 0 else if n1 % 2 == 1 then 1 else if n2 % 2 == 1 then 2 else 3)
  {
    hide Lowest;
    if n % 2 == 1 {
      LowestOdd(v);
    } else if n1 % 2 == 1 {
      LowestOdd(v1);
      HalveEven(v, 0);
    } else if n2 % 2 == 1 {
      LowestOdd(v2);
      HalveEven(v1, 0);
      HalveEven(v, 1);
    } else {
      LowestOdd(v3);
      HalveEven(v2, 0);
      HalveEven(v1, 1);
      HalveEven(v, 2);
    }
  }

  lemma Up4(v: nat, k: nat)
    requires v % 16 == 0 && Lowest(v / 16, k)
    ensures Lowest(v, k + 4)
  {
    assert v / 2 / 2 / 2 / 2 == v / 16;
    HalveEven(v / 2 / 2 / 2, k);
    HalveEven(v / 2 / 2, k + 1);
    HalveEven(v / 2, k + 2);
    HalveEven(v, k + 3);
  }

  lemma Up8(v: nat, k: nat)
    requires v % 256 == 0 && Lowest(v / 256, k)
    ensures Lowest(v, k + 8)
  {
    assert v / 16 / 16 == v / 256;
    Up4(v / 16, k);
    Up4(v, k + 4);
  }

  lemma FirstsAre(n: nat)
    requires 0 < n < 16
    ensures FIRSTS[n] == Line(0)[n] + 4
  {
  }

  lemma ByteParts(v: nat)
    ensures v % 256 % 16 == v % 16 && v % 256 / 16 == v / 16 % 16
  {
  }

  lemma BitmapLow(b: nat)
    requires b < 256 && b % 16 != 0
    ensures LowestBitmap(b) == Line(0)[b % 16]
  {
    hide Line;
    LineRest(FIRSTS[b / 16], b % 16);
  }

  lemma BitmapHigh(b: nat)
    requires 0 < b < 256 && b % 16 == 0
    ensures LowestBitmap(b) == Line(0)[b / 16] + 4
  {
    FirstsAre(b / 16);
  }

  /** The table gives the lowest set bit of a byte, and of any word with that byte below. */
  lemma BitmapIsLowest(v: nat)
    requires v % 256 != 0
    ensures Lowest(v, LowestBitmap(v % 256))
  {
    hide Line, LowestBitmap, Lowest;
    ByteParts(v);
    if v % 16 != 0 {
      LowestNibble(v);
      BitmapLow(v % 256);
    } else {
      LowestNibble(v / 16);
      BitmapHigh(v % 256);
      Up4(v, Line(0)[v / 16 % 16]);
    }
  }

  lemma LineRest(first: nat, n: nat)
    requires 0 < n < 16
    ensures Line(first)[n] == Line(0)[n]
  {
  }

  /** __rt_ffs gives one more than the place of the lowest set bit, and 0 for no bits. */
  lemma FfsIsLowest(v: nat)
    requires 0 < v < WORD
    ensures 1 <= Ffs(v) && Lowest(v, Ffs(v) - 1)
  {
    hide Lowest, LowestBitmap;
    var a, b, c := v / 256, v / 65536, v / 16777216;
    assert a / 256 == b && b / 256 == c;
    if v % 256 != 0 {
      BitmapIsLowest(v);
    } else if a % 256 != 0 {
      BitmapIsLowest(a);
      Up8(v, LowestBitmap(a % 256));
    } else if b % 256 != 0 {
      BitmapIsLowest(b);
      Up8(a, LowestBitmap(b % 256));
      Up8(v, LowestBitmap(b % 256) + 8);
    } else {
      assert 0 < c < 256 && c % 256 == c;
      BitmapIsLowest(c);
      Up8(b, LowestBitmap(c));
      Up8(a, LowestBitmap(c) + 8);
      Up8(v, LowestBitmap(c) + 16);
    }
  }

  /** The lowest set bit is unique. */
  lemma LowestUnique(v: nat, j: nat, k: nat)
    requires Lowest(v, j) && Lowest(v, k)
    ensures j == k
  {
  }
}
