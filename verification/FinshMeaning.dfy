/** What the operators of the finsh shell compute, as arithmetic on signed numbers and on single bits, and what an
    expression gives, as a relation that says nothing of how it is found. */
module FinshMeaning {
  import opened FinshExpr

  // ----- operators -----

  /** Binary digit k. */
  predicate Bit(a: nat, k: nat) { if k == 0 then a % 2 == 1 else Bit(a / 2, k - 1) }

  /** v is x but for a multiple of 2^32. */
  predicate Congruent(v: Word, x: int) { (Signed(v) - x) % WORD_LIMIT == 0 }

  /** r is what is left of x when it is divided by y: less than y in size, and of the sign of x. */
  predicate Leaves(x: int, y: int, r: int) { Abs(r) < Abs(y) && (r == 0 || (r < 0 <==> x < 0)) }

  const LEAST := -0x8000_0000

  /** There is a quotient, and it is a 32-bit number. */
  predicate Divides(a: Word, b: Word) { Signed(b) != 0 && !(Signed(a) == LEAST && Signed(b) == -1) }

  /** v is the result of an operator. */
  ghost predicate Computes(op: BinOp, a: Word, b: Word, v: Word) {
    match op
    case Add => Congruent(v, Signed(a) + Signed(b))
    case Sub => Congruent(v, Signed(a) - Signed(b))
    case Mul => Congruent(v, Signed(a) * Signed(b))
    case Div => Divides(a, b) && Leaves(Signed(a), Signed(b), Signed(a) - Signed(v) * Signed(b))
    case Mod =>
      && Divides(a, b) && Leaves(Signed(a), Signed(b), Signed(v))
      && exists q: int :: Signed(a) == q * Signed(b) + Signed(v)
    case And => forall k :: 0 <= k < 32 ==> (Bit(v, k) <==> Bit(a, k) && Bit(b, k))
    case Or => forall k :: 0 <= k < 32 ==> (Bit(v, k) <==> Bit(a, k) || Bit(b, k))
    case Xor => forall k :: 0 <= k < 32 ==> (Bit(v, k) <==> Bit(a, k) != Bit(b, k))
    case Shl => b < 32 && Congruent(v, Signed(a) * Pow2(b))
    case Shr => b < 32 && Signed(v) * Pow2(b) <= Signed(a) < (Signed(v) + 1) * Pow2(b)
  }

  ghost predicate Inverts(a: Word, v: Word) { forall k :: 0 <= k < 32 ==> (Bit(v, k) <==> !Bit(a, k)) }

  lemma SignedRange(a: Word)
    ensures LEAST <= Signed(a) < 0x8000_0000 && (Signed(a) == a || Signed(a) == a - WORD_LIMIT)
  {
  }

  /** A word and the number it stands for. */
  lemma WrapCongruent(x: int, y: int, m: int)
    requires x == y + m * WORD_LIMIT
    ensures Congruent(Wrap(x), y)
  {
    var v := Wrap(x);
    SignedRange(v);
    var k := x / WORD_LIMIT;
    assert x == k * WORD_LIMIT + v;
    var d := if Signed(v) == v then 0 else 1;
    assert Signed(v) - y == (m - k - d) * WORD_LIMIT;
    MultipleOf(m - k - d);
  }

  lemma MultipleOf(m: int)
    ensures m * WORD_LIMIT % WORD_LIMIT == 0
  {
  }

  lemma CongruentOne(v: Word, w: Word, x: int)
    requires Congruent(v, x) && Congruent(w, x)
    ensures v == w
  {
    SignedRange(v);
    SignedRange(w);
  }

  lemma SumCongruent(a: Word, b: Word)
    ensures Congruent(Wrap(a + b), Signed(a) + Signed(b)) && Congruent(Wrap(a - b), Signed(a) - Signed(b))
  {
    SignedRange(a);
    SignedRange(b);
    var i := if Signed(a) == a then 0 else 1;
    var j := if Signed(b) == b then 0 else 1;
    WrapCongruent(a + b, Signed(a) + Signed(b), i + j);
    WrapCongruent(a - b, Signed(a) - Signed(b), i - j);
  }

  lemma ProductCongruent(a: Word, b: Word)
    ensures Congruent(Wrap(a * b), Signed(a) * Signed(b))
  {
    SignedRange(a);
    SignedRange(b);
    var i := if Signed(a) == a then 0 else 1;
    var j := if Signed(b) == b then 0 else 1;
    var x, y := Signed(a), Signed(b);
    assert a * b == (x + i * WORD_LIMIT) * (y + j * WORD_LIMIT);
    assert a * b == x * y + (x * j + y * i + i * j * WORD_LIMIT) * WORD_LIMIT;
    WrapCongruent(a * b, x * y, x * j + y * i + i * j * WORD_LIMIT);
  }

  lemma ShiftedCongruent(a: Word, b: Word)
    ensures Congruent(Wrap(a * Pow2(b)), Signed(a) * Pow2(b))
  {
    SignedRange(a);
    var i, p := if Signed(a) == a then 0 else 1, Pow2(b);
    assert a * p == Signed(a) * p + i * p * WORD_LIMIT;
    WrapCongruent(a * p, Signed(a) * p, i * p);
  }

  // ----- bits -----

  lemma {:induction false} DigitsBit(op: BinOp, n: nat, a: nat, b: nat, k: nat)
    requires k < n
    ensures Bit(Digits(op, n, a, b), k) <==> OnDigit(op, Bit(a, k), Bit(b, k))
    decreases n
  {
    var rest := Digits(op, n - 1, a / 2, b / 2);
    var r := Digits(op, n, a, b);
    assert r / 2 == rest;
    if k > 0 { DigitsBit(op, n - 1, a / 2, b / 2, k - 1); }
  }

  /** The digits of 2^n - 1 - a. */
  lemma {:induction false} InverseBit(n: nat, a: nat, k: nat)
    requires k < n && a < Pow2(n)
    ensures Bit(Pow2(n) - 1 - a, k) <==> !Bit(a, k)
    decreases n
  {
    assert (Pow2(n) - 1 - a) / 2 == Pow2(n - 1) - 1 - a / 2;
    if k > 0 { InverseBit(n - 1, a / 2, k - 1); }
  }

  /** A number is its digits. */
  lemma {:induction false} SameBits(n: nat, a: nat, b: nat)
    requires a < Pow2(n) && b < Pow2(n) && forall k :: 0 <= k < n ==> (Bit(a, k) <==> Bit(b, k))
    ensures a == b
    decreases n
  {
    if n > 0 {
      assert Bit(a, 0) <==> Bit(b, 0);
      forall k | 0 <= k < n - 1
        ensures Bit(a / 2, k) <==> Bit(b / 2, k)
      {
        assert Bit(a, k + 1) <==> Bit(b, k + 1);
      }
      SameBits(n - 1, a / 2, b / 2);
    }
  }

  lemma WordIsPow2()
    ensures Pow2(32) == WORD_LIMIT
  {
    assert Pow2(8) == 256;
    assert Pow2(16) == 65536;
    assert Pow2(24) == 16777216;
  }

  lemma BitwiseBits(op: BinOp, a: Word, b: Word)
    ensures forall k :: 0 <= k < 32 ==> (Bit(Bitwise(op, a, b), k) <==> OnDigit(op, Bit(a, k), Bit(b, k)))
  {
    WordIsPow2();
    hide Bit, OnDigit, Digits, Pow2;
    forall k | 0 <= k < 32
      ensures Bit(Bitwise(op, a, b), k) <==> OnDigit(op, Bit(a, k), Bit(b, k))
    {
      DigitsBit(op, 32, a, b, k);
    }
  }

  lemma BitNotInverts(a: Word)
    ensures Inverts(a, BitNot(a))
  {
    WordIsPow2();
    hide Bit, Pow2;
    forall k | 0 <= k < 32
      ensures Bit(BitNot(a), k) <==> !Bit(a, k)
    {
      InverseBit(32, a, k);
    }
  }

  // ----- what Apply gives -----

  lemma DividesIff(a: Word, b: Word)
    ensures Divides(a, b) <==> DivisionDefined(a, b)
  {
  }

  /** A quotient that there is fits 32 bits. */
  lemma QuotientFits(x: int, y: int)
    requires LEAST <= x <= 0x7fff_ffff && LEAST <= y <= 0x7fff_ffff && y != 0 && !(x == LEAST && y == -1)
    ensures LEAST <= Quotient(x, y) <= 0x7fff_ffff && LEAST <= Remainder(x, y) <= 0x7fff_ffff
  {
    SmallerQuotient(Abs(x), Abs(y));
    assert Abs(x) % Abs(y) < Abs(y);
  }

  lemma SmallerQuotient(u: nat, v: nat)
    requires v > 0
    ensures u / v <= u && (v > 1 ==> u / v <= u / 2)
  {
    var q, r := u / v, u % v;
    assert u == q * v + r;
    Scaled(q, v);
  }

  lemma Scaled(q: int, v: nat)
    requires v > 0
    ensures q >= 0 ==> q * v >= q && (v > 1 ==> q * v >= 2 * q)
    ensures q <= 0 ==> q * v <= q
  {
    if q >= 0 {
      assert q * (v - 1) >= 0;
      if v > 1 { assert q * (v - 2) >= 0; }
    } else {
      assert q * (v - 1) <= 0;
    }
  }

  lemma Floor(x: int, p: nat)
    requires p > 0
    ensures var q := x / p; q * p <= x < (q + 1) * p && (if x >= 0 then 0 <= q <= x else x <= q < 0)
  {
    var q := x / p;
    assert x == q * p + x % p;
    assert (q + 1) * p == q * p + p;
    Scaled(q, p);
    Scaled(q + 1, p);
  }

  lemma SignedOfWrap(x: int)
    requires LEAST <= x <= 0x7fff_ffff
    ensures Signed(Wrap(x)) == x
  {
  }

  lemma DivisionComputes(a: Word, b: Word)
    requires Divides(a, b)
    ensures Computes(Div, a, b, Wrap(Quotient(Signed(a), Signed(b))))
    ensures Computes(Mod, a, b, Wrap(Remainder(Signed(a), Signed(b))))
  {
    var x, y := Signed(a), Signed(b);
    SignedRange(a);
    SignedRange(b);
    DivisionLaw(x, y);
    QuotientFits(x, y);
    SignedOfWrap(Quotient(x, y));
    SignedOfWrap(Remainder(x, y));
    hide Quotient, Remainder, Signed;
    assert x == Quotient(x, y) * y + Remainder(x, y);
  }

  lemma ShiftComputes(a: Word, b: Word)
    requires b < 32
    ensures Computes(Shr, a, b, Wrap(Signed(a) / Pow2(b)))
  {
    var x, p := Signed(a), Pow2(b);
    SignedRange(a);
    Floor(x, p);
    SignedOfWrap(x / p);
    hide Signed, Pow2;
  }

  /** An operator has a result exactly where there is one, and that one. */
  lemma ApplyComputes(op: BinOp, a: Word, b: Word)
    ensures Apply(op, a, b).Some? ==> Computes(op, a, b, Apply(op, a, b).value)
    ensures Apply(op, a, b).None? <==>
      ((op.Div? || op.Mod?) && (Signed(b) == 0 || (Signed(a) == LEAST && Signed(b) == -1)))
      || ((op.Shl? || op.Shr?) && b >= 32)
  {
    hide Computes, Quotient, Remainder, Bitwise, Pow2;
    DividesIff(a, b);
    match op
    case Add => AddComputes(op, a, b);
    case Sub => AddComputes(op, a, b);
    case Mul => AddComputes(op, a, b);
    case Div => if Divides(a, b) { DivisionComputes(a, b); }
    case Mod => if Divides(a, b) { DivisionComputes(a, b); }
    case And => BitwiseComputes(op, a, b);
    case Or => BitwiseComputes(op, a, b);
    case Xor => BitwiseComputes(op, a, b);
    case Shl => if b < 32 { LeftComputes(a, b); }
    case Shr => if b < 32 { ShiftComputes(a, b); }
  }

  lemma AddComputes(op: BinOp, a: Word, b: Word)
    requires op.Add? || op.Sub? || op.Mul?
    ensures Apply(op, a, b).Some? && Computes(op, a, b, Apply(op, a, b).value)
  {
    SumCongruent(a, b);
    ProductCongruent(a, b);
    hide Congruent, Wrap;
  }

  lemma BitwiseComputes(op: BinOp, a: Word, b: Word)
    requires op.And? || op.Or? || op.Xor?
    ensures Apply(op, a, b).Some? && Computes(op, a, b, Apply(op, a, b).value)
  {
    BitwiseBits(op, a, b);
    hide Bit, Bitwise;
  }

  lemma LeftComputes(a: Word, b: Word)
    requires b < 32
    ensures Computes(Shl, a, b, Wrap(a * Pow2(b)))
  {
    ShiftedCongruent(a, b);
    hide Congruent, Wrap, Pow2;
  }

  // ----- there is only one result -----

  lemma SignedOne(v: Word, w: Word)
    requires Signed(v) == Signed(w)
    ensures v == w
  {
  }

  /** Two remainders that differ by a multiple of the divisor are the same. */
  lemma LeavesOne(x: int, y: int, r: int, s: int, d: int)
    requires Leaves(x, y, r) && Leaves(x, y, s) && r - s == d * y
    ensures d == 0 && r == s
  {
    assert Abs(r - s) < Abs(y);
    TimesSize(d, y);
  }

  lemma TimesSize(d: int, y: int)
    ensures d != 0 ==> Abs(d * y) >= Abs(y)
  {
    if d > 0 { assert (d - 1) * Abs(y) >= 0; } else if d < 0 { assert (-d - 1) * Abs(y) >= 0; }
    assert d * y == if y >= 0 then d * Abs(y) else -(d * Abs(y));
  }

  lemma QuotientOne(a: Word, b: Word, v: Word, w: Word)
    requires Computes(Div, a, b, v) && Computes(Div, a, b, w)
    ensures v == w
  {
    var x, y := Signed(a), Signed(b);
    var r, s := x - Signed(v) * y, x - Signed(w) * y;
    assert r - s == (Signed(w) - Signed(v)) * y;
    LeavesOne(x, y, r, s, Signed(w) - Signed(v));
    SignedOne(v, w);
  }

  lemma RemainderOne(a: Word, b: Word, v: Word, w: Word)
    requires Computes(Mod, a, b, v) && Computes(Mod, a, b, w)
    ensures v == w
  {
    var x, y := Signed(a), Signed(b);
    var p: int :| x == p * y + Signed(v);
    var q: int :| x == q * y + Signed(w);
    assert Signed(v) - Signed(w) == (q - p) * y;
    LeavesOne(x, y, Signed(v), Signed(w), q - p);
    SignedOne(v, w);
  }

  lemma FloorOne(x: int, p: nat, q: int, r: int)
    requires p > 0 && q * p <= x < (q + 1) * p && r * p <= x < (r + 1) * p
    ensures q == r
  {
    Scaled(r - q - 1, p);
    Scaled(q - r - 1, p);
    assert (r - q - 1) * p == r * p - (q + 1) * p && (q - r - 1) * p == q * p - (r + 1) * p;
  }

  lemma BitsOne(v: Word, w: Word)
    requires forall k :: 0 <= k < 32 ==> (Bit(v, k) <==> Bit(w, k))
    ensures v == w
  {
    WordIsPow2();
    hide Bit;
    SameBits(32, v, w);
  }

  lemma ComputesOne(op: BinOp, a: Word, b: Word, v: Word, w: Word)
    requires Computes(op, a, b, v) && Computes(op, a, b, w)
    ensures v == w
  {
    hide Signed, Bit, Pow2, Leaves, Congruent;
    match op
    case Add => CongruentOne(v, w, Signed(a) + Signed(b));
    case Sub => CongruentOne(v, w, Signed(a) - Signed(b));
    case Mul => CongruentOne(v, w, Signed(a) * Signed(b));
    case Div => QuotientOne(a, b, v, w);
    case Mod => RemainderOne(a, b, v, w);
    case And => BitsOne(v, w);
    case Or => BitsOne(v, w);
    case Xor => BitsOne(v, w);
    case Shl => CongruentOne(v, w, Signed(a) * Pow2(b));
    case Shr =>
      FloorOne(Signed(a), Pow2(b), Signed(v), Signed(w));
      SignedOne(v, w);
  }

  /** The results there are and the results Apply gives are the same. */
  lemma ApplyIff(op: BinOp, a: Word, b: Word, v: Word)
    ensures Apply(op, a, b) == Some(v) <==> Computes(op, a, b, v)
  {
    ApplyComputes(op, a, b);
    if Computes(op, a, b, v) { ComputesDefined(op, a, b, v); }
    if Computes(op, a, b, v) && Apply(op, a, b).Some? { ComputesOne(op, a, b, v, Apply(op, a, b).value); }
    hide Computes, Apply;
  }

  lemma ComputesDefined(op: BinOp, a: Word, b: Word, v: Word)
    requires Computes(op, a, b, v)
    ensures !((op.Div? || op.Mod?) && (Signed(b) == 0 || (Signed(a) == LEAST && Signed(b) == -1)))
      && !((op.Shl? || op.Shr?) && b >= 32)
  {
    hide Congruent, Leaves, Bit, Pow2, Signed;
  }

  // ----- expressions -----

  /** The place lv is the address a, and finding it leaves n. */
  ghost predicate Points(lv: LValue, m: Memory, a: Word, n: Memory)
    decreases lv
  {
    match lv
    case Ident(x) => a == x && n == m
    case Deref(p) => Gives(p, m, a, n)
  }

  /** The expression gives v and leaves n. */
  ghost predicate Gives(e: Expr, m: Memory, v: Word, n: Memory)
    decreases e
  {
    match e
    case Num(x) => v == x && n == m
    case Read(lv) => exists a :: Points(lv, m, a, n) && a in n && n[a] == v
    case AddrOf(lv) => Points(lv, m, v, n)
    case Assign(lv, rhs) =>
      exists a, m1, m2 :: Points(lv, m, a, m1) && Gives(rhs, m1, v, m2) && a in m2 && n == m2[a := v]
    case Binary(op, l, r) =>
      exists x, y, m1 :: Gives(l, m, x, m1) && Gives(r, m1, y, n) && Computes(op, x, y, v)
    case Complement(arg) => exists x :: Gives(arg, m, x, n) && Inverts(x, v)
    case PreStep(a, op) => a in m && Computes(op, m[a], 1, v) && n == m[a := v]
    case PostStep(a, op) => a in m && v == m[a] && exists w :: Computes(op, v, 1, w) && n == m[a := w]
  }

  /** What evaluation finds, an expression gives. */
  lemma {:induction false} EvalSound(e: Expr, m: Memory)
    requires Eval(e, m).Some?
    ensures Gives(e, m, Eval(e, m).value.0, Eval(e, m).value.1)
    decreases e
  {
    hide Computes, Apply, Inverts;
    match e
    case Num(_) =>
    case Read(lv) =>
      LocateSound(lv, m);
      var (a, n) := Locate(lv, m).value;
      assert Points(lv, m, a, n) && a in n;
    case AddrOf(lv) => LocateSound(lv, m);
    case Assign(lv, rhs) =>
      LocateSound(lv, m);
      var (a, m1) := Locate(lv, m).value;
      EvalSound(rhs, m1);
      var (v, m2) := Eval(rhs, m1).value;
      assert Points(lv, m, a, m1) && Gives(rhs, m1, v, m2) && a in m2;
    case Binary(op, l, r) =>
      EvalSound(l, m);
      var (x, m1) := Eval(l, m).value;
      EvalSound(r, m1);
      var (y, n) := Eval(r, m1).value;
      ApplyIff(op, x, y, Apply(op, x, y).value);
      assert Gives(l, m, x, m1) && Gives(r, m1, y, n);
    case Complement(arg) =>
      EvalSound(arg, m);
      var (x, n) := Eval(arg, m).value;
      BitNotInverts(x);
      assert Gives(arg, m, x, n);
    case PreStep(a, op) => ApplyIff(op, m[a], 1, Apply(op, m[a], 1).value);
    case PostStep(a, op) => ApplyIff(op, m[a], 1, Apply(op, m[a], 1).value);
  }

  lemma LocateSound(lv: LValue, m: Memory)
    requires Locate(lv, m).Some?
    ensures Points(lv, m, Locate(lv, m).value.0, Locate(lv, m).value.1)
    decreases lv
  {
    if lv.Deref? { EvalSound(lv.ptr, m); }
  }

  /** What an expression gives, evaluation finds. */
  lemma {:induction false} EvalComplete(e: Expr, m: Memory, v: Word, n: Memory)
    requires Gives(e, m, v, n)
    ensures Eval(e, m) == Some((v, n))
    decreases e
  {
    hide Computes, Apply, Inverts;
    match e
    case Num(_) =>
    case Read(lv) =>
      var a :| Points(lv, m, a, n) && a in n && n[a] == v;
      LocateComplete(lv, m, a, n);
    case AddrOf(lv) => LocateComplete(lv, m, v, n);
    case Assign(lv, rhs) =>
      var a, m1, m2 :| Points(lv, m, a, m1) && Gives(rhs, m1, v, m2) && a in m2 && n == m2[a := v];
      LocateComplete(lv, m, a, m1);
      EvalComplete(rhs, m1, v, m2);
    case Binary(op, l, r) =>
      var x, y, m1 :| Gives(l, m, x, m1) && Gives(r, m1, y, n) && Computes(op, x, y, v);
      EvalComplete(l, m, x, m1);
      EvalComplete(r, m1, y, n);
      ApplyIff(op, x, y, v);
    case Complement(arg) =>
      var x :| Gives(arg, m, x, n) && Inverts(x, v);
      EvalComplete(arg, m, x, n);
      InvertsOne(x, v);
    case PreStep(a, op) => ApplyIff(op, m[a], 1, v);
    case PostStep(a, op) =>
      var w :| Computes(op, v, 1, w) && n == m[a := w];
      ApplyIff(op, v, 1, w);
  }

  lemma LocateComplete(lv: LValue, m: Memory, a: Word, n: Memory)
    requires Points(lv, m, a, n)
    ensures Locate(lv, m) == Some((a, n))
    decreases lv
  {
    if lv.Deref? { EvalComplete(lv.ptr, m, a, n); }
  }

  lemma InvertsOne(x: Word, v: Word)
    requires Inverts(x, v)
    ensures v == BitNot(x)
  {
    BitNotInverts(x);
    BitsOne(v, BitNot(x));
  }

  /** Evaluation finds exactly what an expression gives, and nothing if it gives nothing. */
  lemma EvalIff(e: Expr, m: Memory, v: Word, n: Memory)
    ensures Eval(e, m) == Some((v, n)) <==> Gives(e, m, v, n)
  {
    hide Gives, Eval;
    if Eval(e, m).Some? { EvalSound(e, m); }
    if Gives(e, m, v, n) { EvalComplete(e, m, v, n); }
  }

  /** A list of statements, one after the other, gives what the last one does. */
  ghost predicate GivesAll(es: seq<Expr>, m: Memory, v: Word, n: Memory)
    requires es != []
  {
    if |es| == 1 then Gives(es[0], m, v, n)
    else exists w, m1 :: Gives(es[0], m, w, m1) && GivesAll(es[1..], m1, v, n)
  }
}
