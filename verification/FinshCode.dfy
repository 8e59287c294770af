/** The byte code of finsh_ops.h for long-sized operands: instructions, their bytes, what they do to
    the stack and the memory, and the code the compiler emits for an expression. */
module FinshCode {
  import opened FinshExpr

  type Byte = b: int | 0 <= b < 256

  datatype Instr =
    | NoOp
    | LdDword(value: Word)
    | LdValueDword(addr: Word)
    | BinDword(op: BinOp)
    | BitwiseDword
    | StDword
    | LdValueDwordStack
    | Pop

  // ----- bytes -----

  const OP_NOOP: Byte := 0x00
  const OP_BITWISE_DWORD: Byte := 0x1B
  const OP_LD_DWORD: Byte := 0x24
  const OP_LD_VALUE_DWORD: Byte := 0x27
  const OP_ST_DWORD: Byte := 0x2A
  const OP_POP: Byte := 0x2B
  const OP_LD_VALUE_DWORD_STACK: Byte := 0x2F

  function BinOpcode(op: BinOp): Byte {
    match op
    case Add => 0x03
    case Sub => 0x06
    case Div => 0x09
    case Mod => 0x0C
    case Mul => 0x0F
    case And => 0x12
    case Or => 0x15
    case Xor => 0x18
    case Shl => 0x1E
    case Shr => 0x21
  }

  function BinOfOpcode(b: Byte): Option<BinOp> {
    if b == 0x03 then Some(Add)
    else if b == 0x06 then Some(Sub)
    else if b == 0x09 then Some(Div)
    else if b == 0x0C then Some(Mod)
    else if b == 0x0F then Some(Mul)
    else if b == 0x12 then Some(And)
    else if b == 0x15 then Some(Or)
    else if b == 0x18 then Some(Xor)
    else if b == 0x1E then Some(Shl)
    else if b == 0x21 then Some(Shr)
    else None
  }

  /** FINSH_SET32 and FINSH_GET32: least significant byte first. */
  function Set32(w: Word): (bs: seq<Byte>)
    ensures |bs| == 4
  {
    [w % 256, w / 256 % 256, w / 0x1_0000 % 256, w / 0x100_0000]
  }

  function Get32(bs: seq<Byte>): Word
    requires |bs| >= 4
  {
    (bs[0] as int) + 256 * bs[1] as int + 0x1_0000 * bs[2] as int + 0x100_0000 * bs[3] as int
  }

  lemma Get32OfSet32(w: Word)
    ensures Get32(Set32(w)) == w
  {
  }

  lemma BinOpcodeInverse(op: BinOp)
    ensures BinOfOpcode(BinOpcode(op)) == Some(op)
  {
  }

  function Bytes(i: Instr): (bs: seq<Byte>)
    ensures 1 <= |bs| <= 5
  {
    match i
    case NoOp => [OP_NOOP]
    case LdDword(v) => [OP_LD_DWORD] + Set32(v)
    case LdValueDword(a) => [OP_LD_VALUE_DWORD] + Set32(a)
    case BinDword(op) => [BinOpcode(op)]
    case BitwiseDword => [OP_BITWISE_DWORD]
    case StDword => [OP_ST_DWORD]
    case LdValueDwordStack => [OP_LD_VALUE_DWORD_STACK]
    case Pop => [OP_POP]
  }

  function BytesOf(code: seq<Instr>): seq<Byte> {
    if code == [] then [] else Bytes(code[0]) + BytesOf(code[1..])
  }

  /** The instruction at the front of some bytes, as op_table and the operand fetches read it. */
  function Decode(bs: seq<Byte>): Option<Instr> {
    if bs == [] then None
    else if bs[0] == OP_NOOP then Some(NoOp)
    else if bs[0] == OP_BITWISE_DWORD then Some(BitwiseDword)
    else if bs[0] == OP_ST_DWORD then Some(StDword)
    else if bs[0] == OP_LD_VALUE_DWORD_STACK then Some(LdValueDwordStack)
    else if bs[0] == OP_POP then Some(Pop)
    else if bs[0] == OP_LD_DWORD then if |bs| < 5 then None else Some(LdDword(Get32(bs[1..])))
    else if bs[0] == OP_LD_VALUE_DWORD then if |bs| < 5 then None else Some(LdValueDword(Get32(bs[1..])))
    else match BinOfOpcode(bs[0]) case None => None case Some(op) => Some(BinDword(op))
  }

  /** Decoding inverts encoding, whatever follows. */
  lemma DecodeBytes(i: Instr, rest: seq<Byte>)
    ensures Decode(Bytes(i) + rest) == Some(i)
  {
    var bs := Bytes(i) + rest;
    match i
    case LdDword(v) =>
      Get32OfSet32(v);
      assert forall k :: 0 <= k < 4 ==> bs[1..][k] == Set32(v)[k];
    case LdValueDword(a) =>
      Get32OfSet32(a);
      assert forall k :: 0 <= k < 4 ==> bs[1..][k] == Set32(a)[k];
    case BinDword(op) =>
      BinOpcodeInverse(op);
      assert bs[0] == BinOpcode(op);
    case _ =>
  }

  // ----- execution -----

  datatype Machine = Machine(stack: seq<Word>, mem: Memory)

  /** One instruction, confined to the stack slots from lo up to hi: reading below lo, pushing past
      hi, an undefined operation and an access to missing memory all have no result. */
  function Do(i: Instr, s: Machine, lo: nat, hi: nat): Option<Machine> {
    var n := |s.stack|;
    match i
    case NoOp => Some(s)
    case LdDword(v) => if n < hi then Some(s.(stack := s.stack + [v])) else None
    case LdValueDword(a) =>
      (match Load(s.mem, a)
       case None => None
       case Some(v) => if n < hi then Some(s.(stack := s.stack + [v])) else None)
    case BinDword(op) =>
      if n < lo + 2 then None
      else
        (match Apply(op, s.stack[n - 2], s.stack[n - 1])
         case None => None
         case Some(v) => Some(s.(stack := s.stack[..n - 2] + [v])))
    case BitwiseDword =>
      if n < lo + 1 then None else Some(s.(stack := s.stack[..n - 1] + [BitNot(s.stack[n - 1])]))
    case StDword =>
      if n < lo + 2 then None
      else
        (match Store(s.mem, s.stack[n - 2], s.stack[n - 1])
         case None => None
         case Some(m) => Some(Machine(s.stack[..n - 1], m)))
    case LdValueDwordStack =>
      if n < lo + 1 then None
      else
        (match Load(s.mem, s.stack[n - 1])
         case None => None
         case Some(v) => Some(s.(stack := s.stack[..n - 1] + [v])))
    case Pop => if n < lo + 1 then None else Some(s.(stack := s.stack[..n - 1]))
  }

  function Exec(code: seq<Instr>, s: Machine, lo: nat, hi: nat): Option<Machine> {
    if code == [] then Some(s)
    else
      match Do(code[0], s, lo, hi)
      case None => None
      case Some(s1) => Exec(code[1..], s1, lo, hi)
  }

  function Then(r: Option<Machine>, code: seq<Instr>, lo: nat, hi: nat): Option<Machine> {
    match r
    case None => None
    case Some(s) => Exec(code, s, lo, hi)
  }

  /** Running two pieces of code one after the other. */
  lemma {:induction false} ExecConcat(a: seq<Instr>, b: seq<Instr>, s: Machine, lo: nat, hi: nat)
    ensures Exec(a + b, s, lo, hi) == Then(Exec(a, s, lo, hi), b, lo, hi)
  {
    if a == [] {
      assert a + b == b;
    } else {
      assert (a + b)[1..] == a[1..] + b;
      match Do(a[0], s, lo, hi)
      case None =>
      case Some(s1) => ExecConcat(a[1..], b, s1, lo, hi);
    }
  }

  // ----- what the compiler emits -----

  /** Code that leaves the address of an lvalue on the stack. */
  function AddressCode(lv: LValue): seq<Instr> {
    match lv
    case Ident(a) => [LdDword(a)]
    case Deref(p) => Code(p)
  }

  /** Code that leaves the value of an expression on the stack. */
  function Code(e: Expr): seq<Instr> {
    match e
    case Num(v) => [LdDword(v)]
    case Read(lv) =>
      (match lv
       case Ident(a) => [LdValueDword(a)]
       case Deref(p) => Code(p) + [LdValueDwordStack])
    case AddrOf(lv) => AddressCode(lv)
    case Assign(lv, rhs) => AddressCode(lv) + (Code(rhs) + [StDword, LdValueDwordStack])
    case Binary(op, l, r) => Code(l) + (Code(r) + [BinDword(op)])
    case Complement(arg) => Code(arg) + [BitwiseDword]
    case PreStep(a, op) => PreStepCode(a, op)
    case PostStep(a, op) => PostStepCode(a, op)
  }

  function PreStepCode(a: Word, op: BinOp): seq<Instr> {
    [LdDword(a), LdValueDword(a), LdDword(1), BinDword(op), StDword, LdValueDwordStack]
  }

  function PostStepCode(a: Word, op: BinOp): seq<Instr> {
    [LdValueDword(a), LdDword(a), LdValueDword(a), LdDword(1), BinDword(op), StDword, Pop]
  }

  /** A result pushed on the stack it was computed over. */
  function Pushed(r: Option<(Word, Memory)>, stack: seq<Word>): Option<Machine> {
    match r
    case None => None
    case Some((v, m)) => Some(Machine(stack + [v], m))
  }

  /** Room for an expression above a stack of height n. */
  predicate Room(n: nat, nodes: nat, lo: nat, hi: nat) {
    lo <= n && n + nodes + 3 <= hi
  }

  /** The code of an expression pushes exactly the value the expression has and changes the memory
      exactly as it does, or has no result when the expression has none.  It never touches the slots
      below its start and never climbs more than the number of tree nodes plus 3. */
  lemma {:induction false} CodeIsEval(e: Expr, s: Machine, lo: nat, hi: nat)
    requires Room(|s.stack|, Nodes(e), lo, hi)
    ensures Exec(Code(e), s, lo, hi) == Pushed(Eval(e, s.mem), s.stack)
    decreases e
  {
    match e
    case Num(v) =>
      One(LdDword(v), s, lo, hi);
    case Read(lv) =>
      match lv {
        case Ident(a) => One(LdValueDword(a), s, lo, hi);
        case Deref(p) =>
          assert Nodes(e) == LNodes(lv) == 1 + Nodes(p);
          CodeIsEval(p, s, lo, hi);
          ExecConcat(Code(p), [LdValueDwordStack], s, lo, hi);
          match Eval(p, s.mem) {
            case None =>
            case Some((a, m)) => One(LdValueDwordStack, Machine(s.stack + [a], m), lo, hi);
          }
      }
    case AddrOf(lv) =>
      AddressIsLocate(lv, s, lo, hi);
    case Assign(lv, rhs) =>
      AddressIsLocate(lv, s, lo, hi);
      ExecConcat(AddressCode(lv), Code(rhs) + [StDword, LdValueDwordStack], s, lo, hi);
      match Locate(lv, s.mem) {
        case None =>
        case Some((a, m)) =>
          var s1 := Machine(s.stack + [a], m);
          CodeIsEval(rhs, s1, lo, hi);
          ExecConcat(Code(rhs), [StDword, LdValueDwordStack], s1, lo, hi);
          match Eval(rhs, m) {
            case None =>
            case Some((v, m2)) => StoreAndReload(s.stack, a, v, m2, lo, hi);
          }
      }
    case Binary(op, l, r) =>
      CodeIsEval(l, s, lo, hi);
      ExecConcat(Code(l), Code(r) + [BinDword(op)], s, lo, hi);
      match Eval(l, s.mem) {
        case None =>
        case Some((x, m)) =>
          var s1 := Machine(s.stack + [x], m);
          CodeIsEval(r, s1, lo, hi);
          ExecConcat(Code(r), [BinDword(op)], s1, lo, hi);
          match Eval(r, m) {
            case None =>
            case Some((y, m2)) => BinaryStep(s.stack, op, x, y, m2, lo, hi);
          }
      }
    case Complement(arg) =>
      CodeIsEval(arg, s, lo, hi);
      ExecConcat(Code(arg), [BitwiseDword], s, lo, hi);
      match Eval(arg, s.mem) {
        case None =>
        case Some((x, m)) => One(BitwiseDword, Machine(s.stack + [x], m), lo, hi);
      }
    case PreStep(a, op) =>
      PreStepIsEval(a, op, s, lo, hi);
    case PostStep(a, op) =>
      PostStepIsEval(a, op, s, lo, hi);
  }

  lemma AddressIsLocate(lv: LValue, s: Machine, lo: nat, hi: nat)
    requires Room(|s.stack|, LNodes(lv), lo, hi)
    ensures Exec(AddressCode(lv), s, lo, hi) == Pushed(Locate(lv, s.mem), s.stack)
    decreases lv
  {
    match lv
    case Ident(a) => One(LdDword(a), s, lo, hi);
    case Deref(p) => CodeIsEval(p, s, lo, hi);
  }

  lemma One(i: Instr, s: Machine, lo: nat, hi: nat)
    ensures Exec([i], s, lo, hi) == Do(i, s, lo, hi)
  {
    assert [i][1..] == [];
  }

  lemma First(i: Instr, rest: seq<Instr>, s: Machine, lo: nat, hi: nat)
    ensures Exec([i] + rest, s, lo, hi) == Then(Do(i, s, lo, hi), rest, lo, hi)
  {
    ExecConcat([i], rest, s, lo, hi);
    One(i, s, lo, hi);
  }

  lemma BinaryStep(st: seq<Word>, op: BinOp, x: Word, y: Word, m: Memory, lo: nat, hi: nat)
    requires lo <= |st|
    ensures Exec([BinDword(op)], Machine(st + [x] + [y], m), lo, hi)
         == match Apply(op, x, y) case None => None case Some(v) => Some(Machine(st + [v], m))
  {
    One(BinDword(op), Machine(st + [x] + [y], m), lo, hi);
    assert (st + [x] + [y])[..|st|] == st;
  }

  lemma StoreAndReload(st: seq<Word>, a: Word, v: Word, m: Memory, lo: nat, hi: nat)
    requires lo <= |st|
    ensures Exec([StDword, LdValueDwordStack], Machine(st + [a] + [v], m), lo, hi)
         == match Store(m, a, v) case None => None case Some(m1) => Some(Machine(st + [v], m1))
  {
    var s := Machine(st + [a] + [v], m);
    assert [StDword, LdValueDwordStack] == [StDword] + [LdValueDwordStack];
    First(StDword, [LdValueDwordStack], s, lo, hi);
    assert (st + [a] + [v])[..|st| + 1] == st + [a];
    match Store(m, a, v)
    case None =>
    case Some(m1) =>
      One(LdValueDwordStack, Machine(st + [a], m1), lo, hi);
      assert Load(m1, a) == Some(v);
      assert (st + [a])[..|st|] == st;
  }

  /** Four pushes and an operation: address, value, 1, op. */
  lemma PreStepIsEval(a: Word, op: BinOp, s: Machine, lo: nat, hi: nat)
    requires Room(|s.stack|, 2, lo, hi)
    ensures Exec(PreStepCode(a, op), s, lo, hi) == Pushed(Eval(PreStep(a, op), s.mem), s.stack)
  {
    LoadAndStep(a, op, [StDword, LdValueDwordStack], s, lo, hi);
    assert PreStepCode(a, op) == [LdDword(a), LdValueDword(a), LdDword(1), BinDword(op)] + [StDword, LdValueDwordStack];
    match StepAt(a, op, s.mem)
    case None =>
    case Some(r) => StoreAndReload(s.stack, a, r.after, s.mem, lo, hi);
  }

  function AddressAndNew(a: Word, r: Option<Stepped>, s: Machine): Option<Machine> {
    match r
    case None => None
    case Some(st) => Some(Machine(s.stack + [a] + [st.after], s.mem))
  }

  lemma LoadAndStep(a: Word, op: BinOp, rest: seq<Instr>, s: Machine, lo: nat, hi: nat)
    requires lo <= |s.stack| && |s.stack| + 3 <= hi
    ensures Exec([LdDword(a), LdValueDword(a), LdDword(1), BinDword(op)] + rest, s, lo, hi)
         == Then(AddressAndNew(a, StepAt(a, op, s.mem), s), rest, lo, hi)
  {
    hide Apply;
    var c3 := [BinDword(op)] + rest;
    var c2 := [LdDword(1)] + c3;
    var c1 := [LdValueDword(a)] + c2;
    assert [LdDword(a), LdValueDword(a), LdDword(1), BinDword(op)] + rest == [LdDword(a)] + c1;
    First(LdDword(a), c1, s, lo, hi);
    var s1 := Machine(s.stack + [a], s.mem);
    First(LdValueDword(a), c2, s1, lo, hi);
    match Load(s.mem, a)
    case None =>
    case Some(v) =>
      var s2 := Machine(s1.stack + [v], s.mem);
      First(LdDword(1), c3, s2, lo, hi);
      var s3 := Machine(s2.stack + [1], s.mem);
      ExecConcat([BinDword(op)], rest, s3, lo, hi);
      BinaryStep(s1.stack, op, v, 1, s.mem, lo, hi);
  }

  lemma PostStepIsEval(a: Word, op: BinOp, s: Machine, lo: nat, hi: nat)
    requires Room(|s.stack|, 2, lo, hi)
    ensures Exec(PostStepCode(a, op), s, lo, hi) == Pushed(Eval(PostStep(a, op), s.mem), s.stack)
  {
    var inner := [LdDword(a), LdValueDword(a), LdDword(1), BinDword(op)] + [StDword, Pop];
    assert PostStepCode(a, op) == [LdValueDword(a)] + inner;
    First(LdValueDword(a), inner, s, lo, hi);
    match Load(s.mem, a)
    case None =>
    case Some(v) =>
      var s1 := Machine(s.stack + [v], s.mem);
      LoadAndStep(a, op, [StDword, Pop], s1, lo, hi);
      match StepAt(a, op, s.mem) {
        case None =>
        case Some(r) => StoreAndDrop(s1.stack, a, r.after, s.mem, lo, hi);
      }
  }

  lemma StoreAndDrop(st: seq<Word>, a: Word, w: Word, m: Memory, lo: nat, hi: nat)
    requires lo <= |st| && a in m
    ensures Exec([StDword, Pop], Machine(st + [a] + [w], m), lo, hi) == Some(Machine(st, m[a := w]))
  {
    assert [StDword, Pop] == [StDword] + [Pop];
    First(StDword, [Pop], Machine(st + [a] + [w], m), lo, hi);
    assert (st + [a] + [w])[..|st| + 1] == st + [a];
    One(Pop, Machine(st + [a], m[a := w]), lo, hi);
    assert (st + [a])[..|st|] == st;
  }
}
