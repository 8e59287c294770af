/** The stack machine of finsh_vm.c and finsh_ops.c, and what a compiled line of the shell does on it. */
module FinshVm {
  import Lists
  import opened FinshExpr
  import opened FinshMeaning
  import opened FinshCode
  import opened FinshNodes
  import opened FinshCompiler

  const STACK_MAX := 64     // FINSH_STACK_MAX
  const NODE_MAX := 16      // FINSH_NODE_MAX

  // ----- the fetch and dispatch loop, on values -----

  /** Run from pc until the pc leaves the text segment; an undefined step has no result. */
  function RunBytes(text: seq<FinshCode.Byte>, pc: nat, s: Machine): Option<Machine>
    decreases |text| - pc
  {
    if pc >= |text| then Some(s)
    else
      match Decode(text[pc..])
      case None => None
      case Some(i) =>
        match Do(i, s, 0, STACK_MAX)
        case None => None
        case Some(s1) => RunBytes(text, pc + |Bytes(i)|, s1)
  }

  predicate NoOps(bs: seq<FinshCode.Byte>) {
    forall k :: 0 <= k < |bs| ==> bs[k] == OP_NOOP
  }

  lemma {:induction false} RunNoOps(text: seq<FinshCode.Byte>, pc: nat, s: Machine)
    requires pc <= |text| && NoOps(text[pc..])
    ensures RunBytes(text, pc, s) == Some(s)
    decreases |text| - pc
  {
    if pc < |text| {
      assert text[pc..][0] == OP_NOOP;
      assert text[pc + 1..] == text[pc..][1..];
      RunNoOps(text, pc + 1, s);
    }
  }

  /** One turn of the loop at the bytes of an instruction. */
  lemma RunOne(text: seq<FinshCode.Byte>, pc: nat, i: Instr, more: seq<FinshCode.Byte>, s: Machine)
    requires pc <= |text| && text[pc..] == Bytes(i) + more
    ensures pc + |Bytes(i)| <= |text| && text[pc + |Bytes(i)|..] == more
    ensures Do(i, s, 0, STACK_MAX) == None ==> RunBytes(text, pc, s) == None
    ensures forall s1 :: Do(i, s, 0, STACK_MAX) == Some(s1) ==>
      RunBytes(text, pc, s) == RunBytes(text, pc + |Bytes(i)|, s1)
  {
    DecodeBytes(i, more);
    DropBytes(text, pc, Bytes(i), more);
    hide Decode, Bytes, Do;
  }

  lemma ExecOne(code: seq<Instr>, s: Machine)
    requires code != []
    ensures Do(code[0], s, 0, STACK_MAX) == None ==> Exec(code, s, 0, STACK_MAX) == None
    ensures forall s1 :: Do(code[0], s, 0, STACK_MAX) == Some(s1) ==>
      Exec(code, s, 0, STACK_MAX) == Exec(code[1..], s1, 0, STACK_MAX)
  {
    hide Do;
  }

  lemma BytesOfNone(text: seq<FinshCode.Byte>, pc: nat, pad: seq<FinshCode.Byte>, s: Machine)
    requires pc <= |text| && text[pc..] == BytesOf([]) + pad
    ensures text[pc..] == pad && Exec([], s, 0, STACK_MAX) == Some(s)
  {
  }

  /** The bytes of some code, run as bytes, do what the code does as instructions. */
  lemma {:induction false} RunIsExec(text: seq<FinshCode.Byte>, pc: nat, code: seq<Instr>, pad: seq<FinshCode.Byte>,
      s: Machine)
    requires pc <= |text| && text[pc..] == BytesOf(code) + pad && NoOps(pad)
    ensures RunBytes(text, pc, s) == Exec(code, s, 0, STACK_MAX)
    decreases |code|
  {
    hide RunBytes, Exec, Decode, Bytes, Do, BytesOf, NoOps;
    if code == [] {
      BytesOfNone(text, pc, pad, s);
      RunNoOps(text, pc, s);
    } else {
      BytesInFront(code, pad);
      RunOne(text, pc, code[0], BytesOf(code[1..]) + pad, s);
      ExecOne(code, s);
      match Do(code[0], s, 0, STACK_MAX)
      case None =>
      case Some(s1) => RunIsExec(text, pc + |Bytes(code[0])|, code[1..], pad, s1);
    }
  }

  lemma BytesInFront(code: seq<Instr>, pad: seq<FinshCode.Byte>)
    requires code != []
    ensures BytesOf(code) + pad == Bytes(code[0]) + (BytesOf(code[1..]) + pad)
  {
    hide Bytes;
    Lists.Associative(Bytes(code[0]), BytesOf(code[1..]), pad);
  }

  lemma DropBytes(text: seq<FinshCode.Byte>, pc: nat, bs: seq<FinshCode.Byte>, more: seq<FinshCode.Byte>)
    requires pc <= |text| && text[pc..] == bs + more
    ensures pc + |bs| <= |text| && text[pc + |bs|..] == more && (bs != [] ==> pc < |text|)
  {
    assert text[pc + |bs|..] == text[pc..][|bs|..];
  }

  // ----- the machine itself -----

  class Vm {
    const text: array<FinshCode.Byte>
    const stack: array<Word>
    var sp: nat
    var pc: nat
    var mem: Memory

    constructor (text: array<FinshCode.Byte>, mem: Memory)
      ensures this.text == text && this.mem == mem && Valid() && fresh(stack)
    {
      this.text := text;
      this.mem := mem;
      stack := new Word[STACK_MAX](_ => 0);
      sp, pc := 0, 0;
    }

    ghost predicate Valid() reads this {
      stack.Length == STACK_MAX && sp <= stack.Length
    }

    ghost function State(): Machine
      reads this, stack
      requires Valid()
    {
      Machine(stack[..sp], mem)
    }

    /** A load of a constant: the 4 bytes at pc, least significant first. */
    method OpLdDword() returns (ok: bool)
      requires Valid() && pc + 4 <= text.Length
      modifies this`sp, this`pc, stack
      ensures Valid() && pc == old(pc) + 4
      ensures Did(LdDword(Get32(text[old(pc)..])), old(State()), ok, State())
    {
      ok := sp < STACK_MAX;
      if ok {
        stack[sp] := Get32(text[pc..pc + 4]);
        sp := sp + 1;
      }
      assert text[pc..pc + 4] == text[pc..][..4];
      pc := pc + 4;
    }

    method OpLdValueDword() returns (ok: bool)
      requires Valid() && pc + 4 <= text.Length
      modifies this`sp, this`pc, stack
      ensures Valid() && pc == old(pc) + 4
      ensures Did(LdValueDword(Get32(text[old(pc)..])), old(State()), ok, State())
    {
      var a := Get32(text[pc..pc + 4]);
      assert text[pc..pc + 4] == text[pc..][..4];
      ok := sp < STACK_MAX && a in mem;
      if ok {
        stack[sp] := mem[a];
        sp := sp + 1;
      }
      pc := pc + 4;
    }

    method OpBinDword(op: BinOp) returns (ok: bool)
      requires Valid()
      modifies this`sp, stack
      ensures Valid() && Did(BinDword(op), old(State()), ok, State())
      ensures ok ==>
        old(sp) >= 2 && sp == old(sp) - 1 && Computes(op, old(stack[sp - 2]), old(stack[sp - 1]), stack[sp - 1])
    {
      hide Apply, Computes;
      ok := false;
      if sp >= 2 {
        ApplyComputes(op, stack[sp - 2], stack[sp - 1]);
        var v := Apply(op, stack[sp - 2], stack[sp - 1]);
        if v.Some? {
          stack[sp - 2] := v.value;
          sp := sp - 1;
          ok := true;
        }
      }
    }

    method OpBwDword() returns (ok: bool)
      requires Valid()
      modifies stack
      ensures Valid() && Did(BitwiseDword, old(State()), ok, State())
      ensures ok ==> sp >= 1 && Inverts(old(stack[sp - 1]), stack[sp - 1])
    {
      hide Inverts, BitNot;
      ok := sp >= 1;
      if ok { BitNotInverts(stack[sp - 1]); }
      if ok { stack[sp - 1] := BitNot(stack[sp - 1]); }
    }

    method OpStDword() returns (ok: bool)
      requires Valid()
      modifies this`sp, this`mem
      ensures Valid() && Did(StDword, old(State()), ok, State())
    {
      ok := sp >= 2 && stack[sp - 2] in mem;
      if ok {
        mem := mem[stack[sp - 2] := stack[sp - 1]];
        sp := sp - 1;
      }
    }

    method OpLdValueDwordStack() returns (ok: bool)
      requires Valid()
      modifies stack
      ensures Valid() && Did(LdValueDwordStack, old(State()), ok, State())
    {
      ok := sp >= 1 && stack[sp - 1] in mem;
      if ok { stack[sp - 1] := mem[stack[sp - 1]]; }
    }

    method OpPop() returns (ok: bool)
      requires Valid()
      modifies this`sp
      ensures Valid() && Did(Pop, old(State()), ok, State())
    {
      ok := sp >= 1;
      if ok { sp := sp - 1; }
    }

    /** The entry of op_table for an opcode just fetched. */
    method Dispatch(op: FinshCode.Byte) returns (ok: bool)
      requires Valid() && 1 <= pc <= text.Length && text[pc - 1] == op
      modifies this`sp, this`pc, this`mem, stack
      ensures Valid() && Turn(text[old(pc) - 1..], old(State()), ok, State(), pc - old(pc) + 1)
    {
      ghost var bs := text[pc - 1..];
      assert bs[0] == op && |bs| == text.Length - pc + 1;
      assert bs[1..] == text[pc..];
      ok := false;
      if op == OP_NOOP {
        ok := true;
      } else if op == OP_BITWISE_DWORD {
        ok := OpBwDword();
      } else if op == OP_ST_DWORD {
        ok := OpStDword();
      } else if op == OP_LD_VALUE_DWORD_STACK {
        ok := OpLdValueDwordStack();
      } else if op == OP_POP {
        ok := OpPop();
      } else if op == OP_LD_DWORD {
        if pc + 4 <= text.Length { ok := OpLdDword(); }
      } else if op == OP_LD_VALUE_DWORD {
        if pc + 4 <= text.Length { ok := OpLdValueDword(); }
      } else {
        var bin := BinOfOpcode(op);
        if bin.Some? { ok := OpBinDword(bin.value); }
      }
    }

    /** Reset the stack and run the text segment to its end. */
    method Run() returns (ok: bool)
      requires Valid()
      modifies this`sp, this`pc, this`mem, stack
      ensures Valid() && ok == RunBytes(text[..], 0, Machine([], old(mem))).Some?
      ensures ok ==> RunBytes(text[..], 0, Machine([], old(mem))) == Some(State())
    {
      sp, pc, ok := 0, 0, true;
      ghost var t, start := text[..], Machine([], mem);
      while pc < text.Length && ok
        invariant Valid() && text[..] == t
        invariant if ok then RunBytes(t, pc, State()) == RunBytes(t, 0, start) else RunBytes(t, 0, start) == None
        decreases ok, text.Length - pc
      {
        ghost var p, s := pc, State();
        var op := text[pc];
        pc := pc + 1;
        ok := Dispatch(op);
        assert t[p..] == text[p..];
        RunStep(t, p, s, ok, State(), pc);
      }
    }
  }

  /** What an operation made of a machine state. */
  ghost predicate Did(i: Instr, s: Machine, ok: bool, s1: Machine) {
    match Do(i, s, 0, STACK_MAX)
    case None => !ok
    case Some(r) => ok && s1 == r
  }

  /** What one turn of the loop made of it, and how many bytes it took. */
  ghost predicate Turn(bs: seq<FinshCode.Byte>, s: Machine, ok: bool, s1: Machine, taken: int) {
    match Decode(bs)
    case None => !ok
    case Some(i) => Did(i, s, ok, s1) && (ok ==> taken == |Bytes(i)|)
  }

  lemma RunStep(t: seq<FinshCode.Byte>, p: nat, s: Machine, ok: bool, s1: Machine, q: int)
    requires p < |t| && Turn(t[p..], s, ok, s1, q - p)
    ensures ok ==> q > p && RunBytes(t, p, s) == RunBytes(t, q, s1)
    ensures !ok ==> RunBytes(t, p, s) == None
  {
    hide Do, Decode, Bytes;
  }

  // ----- a line of the shell -----

  /** The value of a statement list is that of its last statement. */
  function EvalList(es: seq<Expr>, m: Memory): Option<(Word, Memory)>
    requires es != []
  {
    match Eval(es[0], m)
    case None => None
    case Some((v, m1)) => if |es| == 1 then Some((v, m1)) else EvalList(es[1..], m1)
  }

  predicate SmallEnough(es: seq<Expr>) {
    forall k :: 0 <= k < |es| ==> Nodes(es[k]) + 3 <= STACK_MAX
  }

  /** The code of a statement list leaves the value of the last statement at the bottom of the stack
      and nothing above it. */
  lemma {:induction false} ProgramIsEval(es: seq<Expr>, m: Memory)
    requires es != [] && SmallEnough(es)
    ensures Exec(ProgramCode(es), Machine([], m), 0, STACK_MAX) == Pushed(EvalList(es, m), [])
    decreases |es|
  {
    CodeIsEval(es[0], Machine([], m), 0, STACK_MAX);
    if |es| > 1 {
      ProgramCodeCons(es);
      hide ProgramCode, Code, Eval, Exec;
      ExecConcat(Code(es[0]), [Pop] + ProgramCode(es[1..]), Machine([], m), 0, STACK_MAX);
      match Eval(es[0], m)
      case None =>
      case Some((v, m1)) =>
        First(Pop, ProgramCode(es[1..]), Machine([v], m1), 0, STACK_MAX);
        PopValue(v, m1);
        assert SmallEnough(es[1..]);
        ProgramIsEval(es[1..], m1);
    }
  }

  lemma ProgramCodeCons(es: seq<Expr>)
    requires |es| > 1
    ensures ProgramCode(es) == Code(es[0]) + ([Pop] + ProgramCode(es[1..]))
  {
  }

  lemma PopValue(v: Word, m: Memory)
    ensures Do(Pop, Machine([v], m), 0, STACK_MAX) == Some(Machine([], m))
  {
  }

  /** Run the compiled text: the bytes of the statements, then no-ops. */
  lemma TextIsEval(text: seq<FinshCode.Byte>, es: seq<Expr>, m: Memory)
    requires es != [] && SmallEnough(es)
    requires |BytesOf(ProgramCode(es))| <= |text| && text == Padded(BytesOf(ProgramCode(es)), |text|)
    ensures RunBytes(text, 0, Machine([], m)) == Pushed(EvalList(es, m), [])
  {
    var bs := BytesOf(ProgramCode(es));
    var pad := seq(|text| - |bs|, _ => OP_NOOP);
    assert text[0..] == bs + pad;
    RunIsExec(text, 0, ProgramCode(es), pad, Machine([], m));
    ProgramIsEval(es, m);
  }

  // ----- the node table bounds the stack -----

  function ChainNodes(c: Chain): nat {
    match c
    case Nil => 0
    case Cons(_, kids, rest) => 1 + ChainNodes(kids) + ChainNodes(rest)
  }

  lemma Childless(c: Chain)
    requires c.Cons? && c.kids.Nil? && c.rest.Nil?
    ensures ChainNodes(c) == 1
  {
  }

  lemma TwoTrees(c: Chain)
    requires c.Cons? && Single(c.rest)
    ensures ChainNodes(c) == 2 + ChainNodes(c.kids) + ChainNodes(c.rest.kids)
  {
    assert c.rest.rest == Nil && ChainNodes(Nil) == 0;
    assert ChainNodes(c.rest) == 1 + ChainNodes(c.rest.kids) + ChainNodes(c.rest.rest);
  }

  /** An expression has no more nodes than the chain its tree heads. */
  lemma {:induction false} EncodedNodes(ns: seq<Node>, c: Chain, e: Expr)
    requires Encodes(ns, c, e)
    ensures c.Cons? && Nodes(e) == 1 + ChainNodes(c.kids)
    decreases e
  {
    match e
    case Num(_) => assert ChainNodes(Nil) == 0;
    case Read(lv) => EncodedLNodes(ns, c, lv);
    case AddrOf(lv) => EncodedLNodes(ns, c.kids, lv);
    case Assign(lv, rhs) => EncodedLNodes(ns, c.kids, lv); EncodedNodes(ns, c.kids.rest, rhs); TwoTrees(c.kids);
    case Binary(_, l, r) => EncodedNodes(ns, c.kids, l); EncodedNodes(ns, c.kids.rest, r); TwoTrees(c.kids);
    case Complement(arg) => EncodedNodes(ns, c.kids, arg);
    case PreStep(_, _) => Childless(c.kids);
    case PostStep(_, _) => Childless(c.kids);
  }

  lemma EncodedLNodes(ns: seq<Node>, c: Chain, lv: LValue)
    requires LEncodes(ns, c, lv)
    ensures c.Cons? && LNodes(lv) == 1 + ChainNodes(c.kids)
    decreases lv
  {
    match lv
    case Ident(_) =>
    case Deref(p) => EncodedNodes(ns, c.kids, p);
  }

  lemma {:induction false} EncodedAllNodes(ns: seq<Node>, c: Chain, es: seq<Expr>)
    requires EncodesAll(ns, c, es)
    ensures forall k :: 0 <= k < |es| ==> Nodes(es[k]) <= ChainNodes(c)
    decreases c
  {
    if c.Cons? {
      EncodedNodes(ns, c, es[0]);
      EncodedAllNodes(ns, c.rest, es[1..]);
      assert forall k :: 1 <= k < |es| ==> es[k] == es[1..][k - 1];
    }
  }

  lemma {:induction false} DistinctCount(c: Chain)
    requires Distinct(c)
    ensures |Indices(c)| == ChainNodes(c)
  {
    if c.Cons? {
      DistinctCount(c.kids);
      DistinctCount(c.rest);
      assert |Indices(c.kids) + Indices(c.rest)| == |Indices(c.kids)| + |Indices(c.rest)|;
      assert Indices(c) == {c.idx} + (Indices(c.kids) + Indices(c.rest));
    }
  }

  lemma {:induction false} LinkedInTable(ns: seq<Node>, p: int, c: Chain)
    requires Linked(ns, p, c)
    ensures forall k :: k in Indices(c) ==> k < |ns|
    decreases c
  {
    if c.Cons? {
      LinkedInTable(ns, ns[c.idx].child, c.kids);
      LinkedInTable(ns, ns[c.idx].sibling, c.rest);
    }
  }

  lemma {:induction false} BelowCount(n: nat, s: set<nat>)
    requires forall k :: k in s ==> k < n
    ensures |s| <= n
    decreases n
  {
    if n > 0 {
      BelowCount(n - 1, s - {n - 1});
    } else {
      assert s == {};
    }
  }

  /** A line that fits the node table fits the stack. */
  lemma TableBoundsStack(ns: seq<Node>, p: int, c: Chain, es: seq<Expr>)
    requires Ready(ns, p, c) && EncodesAll(ns, c, es) && |ns| <= NODE_MAX
    ensures SmallEnough(es)
  {
    EncodedAllNodes(ns, c, es);
    DistinctCount(c);
    LinkedInTable(ns, p, c);
    BelowCount(|ns|, Indices(c));
  }

  lemma PushedAlone(r: Option<(Word, Memory)>)
    ensures Pushed(r, []).Some? == r.Some?
    ensures forall s :: Pushed(r, []) == Some(s) ==> |s.stack| == 1 && r == Some((s.stack[0], s.mem))
  {
  }

  lemma {:induction false} EvalListIff(es: seq<Expr>, m: Memory, v: Word, n: Memory)
    requires es != []
    ensures EvalList(es, m) == Some((v, n)) <==> GivesAll(es, m, v, n)
    decreases |es|
  {
    hide Eval, Gives;
    if |es| == 1 {
      EvalIff(es[0], m, v, n);
    } else {
      if EvalList(es, m).Some? {
        var (w, m1) := Eval(es[0], m).value;
        EvalIff(es[0], m, w, m1);
        EvalListIff(es[1..], m1, v, n);
      }
      if GivesAll(es, m, v, n) {
        var w, m1 :| Gives(es[0], m, w, m1) && GivesAll(es[1..], m1, v, n);
        EvalIff(es[0], m, w, m1);
        EvalListIff(es[1..], m1, v, n);
      }
    }
  }

  lemma EvalListGives(es: seq<Expr>, m: Memory)
    requires es != []
    ensures EvalList(es, m).Some? ==> GivesAll(es, m, EvalList(es, m).value.0, EvalList(es, m).value.1)
    ensures EvalList(es, m).Some? <==> exists v, n :: GivesAll(es, m, v, n)
  {
    hide EvalList, GivesAll;
    forall v: Word, n: Memory
      ensures EvalList(es, m) == Some((v, n)) <==> GivesAll(es, m, v, n)
    {
      EvalListIff(es, m, v, n);
    }
  }

  /** finsh_compiler_run and finsh_vm_run on the trees of a line: the run ends well exactly when the
      statements have a value; then the value of the last one is alone on the stack and the memory is
      what evaluating the statements in order makes of it. */
  method RunLine(compiler: Compiler, vm: Vm, root: int, ghost c: Chain, ghost es: seq<Expr>) returns (ok: bool)
    requires vm.Valid() && vm.text == compiler.text && compiler.text.Length == TEXT_MAX
    requires Ready(compiler.nodes[..], root, c) && EncodesAll(compiler.nodes[..], c, es) && es != []
    requires compiler.nodes.Length <= NODE_MAX && |BytesOf(ProgramCode(es))| <= TEXT_MAX
    modifies compiler.nodes, compiler.text, compiler`pc, vm`sp, vm`pc, vm`mem, vm.stack
    ensures vm.Valid() && ok == EvalList(es, old(vm.mem)).Some?
    ensures ok ==> EvalList(es, old(vm.mem)) == Some((vm.stack[0], vm.mem)) && vm.sp == 1
    ensures ok <==> exists v, n :: GivesAll(es, old(vm.mem), v, n)
    ensures ok ==> GivesAll(es, old(vm.mem), vm.stack[0], vm.mem)
  {
    EvalListGives(es, vm.mem);
    TableBoundsStack(compiler.nodes[..], root, c, es);
    hide RunBytes, EvalList, ProgramCode, BytesOf, Padded, Ready, EncodesAll, Pushed, SmallEnough, GivesAll;
    ghost var r := EvalList(es, vm.mem);
    compiler.Run(root, c, es);
    TextIsEval(compiler.text[..], es, vm.mem);
    ok := vm.Run();
    PushedAlone(r);
  }
}
