/** The expressions of the finsh shell over int and long variables, and what they mean.

    This is the reference the compiled byte code is compared with: it knows nothing of stacks,
    instructions or tree nodes.  Where C leaves a result undefined (division by zero, the overflowing
    division, a shift by 32 or more, an access to memory that is not there) evaluation has no result. */
module FinshExpr {

  const WORD_LIMIT := 0x1_0000_0000

  /** The 32 bits of a long, as an unsigned number. */
  type Word = w: int | 0 <= w < WORD_LIMIT
  type Memory = map<Word, Word>

  datatype Option<+T> = None | Some(value: T)

  datatype BinOp = Add | Sub | Mul | Div | Mod | And | Or | Xor | Shl | Shr

  /** Something that has an address: a variable, or the target of a pointer expression. */
  datatype LValue = Ident(addr: Word) | Deref(ptr: Expr)

  datatype Expr =
    | Num(value: Word)
    | Read(lv: LValue)
    | AddrOf(lv: LValue)
    | Assign(lv: LValue, rhs: Expr)
    | Binary(op: BinOp, left: Expr, right: Expr)
    | Complement(arg: Expr)
    | PreStep(addr: Word, op: BinOp)    // ++id and --id: op is Add or Sub
    | PostStep(addr: Word, op: BinOp)   // id++ and id--

  // ----- machine words -----

  /** A result cut down to 32 bits. */
  function Wrap(x: int): Word { x % WORD_LIMIT }

  /** The signed value the bits stand for. */
  function Signed(a: Word): int { if a < 0x8000_0000 then a else a - WORD_LIMIT }

  function Abs(x: int): nat { if x < 0 then -x else x }

  /** Signed division truncates toward zero; the remainder has the sign of the dividend. */
  function Quotient(x: int, y: int): int
    requires y != 0
  {
    var q := Abs(x) / Abs(y);
    if (x < 0) != (y < 0) then -q else q
  }

  function Remainder(x: int, y: int): int
    requires y != 0
  {
    var r := Abs(x) % Abs(y);
    if x < 0 then -r else r
  }

  /** C's law of division, and where the remainder lies. */
  lemma DivisionLaw(x: int, y: int)
    requires y != 0
    ensures x == Quotient(x, y) * y + Remainder(x, y)
    ensures Abs(Remainder(x, y)) < Abs(y) && (Remainder(x, y) == 0 || (Remainder(x, y) < 0 <==> x < 0))
  {
    var q, r := Abs(x) / Abs(y), Abs(x) % Abs(y);
    assert Abs(x) == q * Abs(y) + r;
    assert (-q) * y == -(q * y);
  }

  predicate DivisionDefined(a: Word, b: Word) {
    b != 0 && !(a == 0x8000_0000 && b == WORD_LIMIT - 1)
  }

  function Pow2(n: nat): nat
    ensures Pow2(n) >= 1
  {
    if n == 0 then 1 else 2 * Pow2(n - 1)
  }

  /** A bitwise operator on the n low binary digits, the lowest first. */
  function Digits(op: BinOp, n: nat, a: nat, b: nat): (r: nat)
    ensures r < Pow2(n)
  {
    if n == 0 then 0
    else (if OnDigit(op, a % 2 == 1, b % 2 == 1) then 1 else 0) + 2 * Digits(op, n - 1, a / 2, b / 2)
  }

  predicate OnDigit(op: BinOp, x: bool, y: bool) {
    if op.And? then x && y else if op.Or? then x || y else x != y
  }

  function Bitwise(op: BinOp, a: Word, b: Word): Word { Wrap(Digits(op, 32, a, b)) }

  function BitNot(a: Word): Word { WORD_LIMIT - 1 - a }

  /** The right shift of a negative long copies the sign bit, that is, rounds down. */
  function Apply(op: BinOp, a: Word, b: Word): Option<Word> {
    match op
    case Add => Some(Wrap(a + b))
    case Sub => Some(Wrap(a - b))
    case Mul => Some(Wrap(a * b))
    case Div => if DivisionDefined(a, b) then Some(Wrap(Quotient(Signed(a), Signed(b)))) else None
    case Mod => if DivisionDefined(a, b) then Some(Wrap(Remainder(Signed(a), Signed(b)))) else None
    case And => Some(Bitwise(And, a, b))
    case Or => Some(Bitwise(Or, a, b))
    case Xor => Some(Bitwise(Xor, a, b))
    case Shl => if b < 32 then Some(Wrap(a * Pow2(b))) else None
    case Shr => if b < 32 then Some(Wrap(Signed(a) / Pow2(b))) else None
  }

  // ----- memory -----

  function Load(m: Memory, a: Word): Option<Word> {
    if a in m then Some(m[a]) else None
  }

  function Store(m: Memory, a: Word, v: Word): Option<Memory> {
    if a in m then Some(m[a := v]) else None
  }

  // ----- meaning -----

  /** The address of an lvalue, and the memory after computing it. */
  function Locate(lv: LValue, m: Memory): Option<(Word, Memory)> {
    match lv
    case Ident(a) => Some((a, m))
    case Deref(p) => Eval(p, m)
  }

  /** The value of an expression and the memory it leaves; operands are evaluated left to right. */
  function Eval(e: Expr, m: Memory): Option<(Word, Memory)> {
    match e
    case Num(v) => Some((v, m))
    case Read(lv) =>
      (match Locate(lv, m)
       case None => None
       case Some((a, m1)) =>
         match Load(m1, a)
         case None => None
         case Some(v) => Some((v, m1)))
    case AddrOf(lv) => Locate(lv, m)
    case Assign(lv, rhs) =>
      (match Locate(lv, m)
       case None => None
       case Some((a, m1)) =>
         match Eval(rhs, m1)
         case None => None
         case Some((v, m2)) =>
           match Store(m2, a, v)
           case None => None
           case Some(m3) => Some((v, m3)))
    case Binary(op, l, r) =>
      (match Eval(l, m)
       case None => None
       case Some((x, m1)) =>
         match Eval(r, m1)
         case None => None
         case Some((y, m2)) =>
           match Apply(op, x, y)
           case None => None
           case Some(v) => Some((v, m2)))
    case Complement(arg) =>
      (match Eval(arg, m)
       case None => None
       case Some((x, m1)) => Some((BitNot(x), m1)))
    case PreStep(a, op) =>
      (match StepAt(a, op, m)
       case None => None
       case Some(r) => Some((r.after, r.mem)))
    case PostStep(a, op) =>
      (match StepAt(a, op, m)
       case None => None
       case Some(r) => Some((r.before, r.mem)))
  }

  datatype Stepped = Stepped(before: Word, after: Word, mem: Memory)

  /** Add or subtract one at an address. */
  function StepAt(a: Word, op: BinOp, m: Memory): Option<Stepped> {
    match Load(m, a)
    case None => None
    case Some(v) =>
      match Apply(op, v, 1)
      case None => None
      case Some(w) => Some(Stepped(v, w, m[a := w]))
  }

  /** The tree nodes the parser makes for an expression. */
  function Nodes(e: Expr): nat
    ensures Nodes(e) >= 1
  {
    match e
    case Num(_) => 1
    case Read(lv) => LNodes(lv)
    case AddrOf(lv) => 1 + LNodes(lv)
    case Assign(lv, rhs) => 1 + LNodes(lv) + Nodes(rhs)
    case Binary(_, l, r) => 1 + Nodes(l) + Nodes(r)
    case Complement(arg) => 1 + Nodes(arg)
    case PreStep(_, _) => 2
    case PostStep(_, _) => 2
  }

  function LNodes(lv: LValue): nat
    ensures LNodes(lv) >= 1
  {
    match lv
    case Ident(_) => 1
    case Deref(p) => 1 + Nodes(p)
  }
}
