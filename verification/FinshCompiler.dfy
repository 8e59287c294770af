/** finsh_type_check, finsh_compile and finsh_compiler_run as they run: marks written into the node
    table, bytes written through a moving pc into the text segment. */
module FinshCompiler {
  import Lists
  import opened FinshExpr
  import opened FinshCode
  import opened FinshNodes

  const TEXT_MAX := 128     // FINSH_TEXT_MAX

  /** The code of a list of statements: every value but the last is popped again. */
  function ProgramCode(es: seq<Expr>): seq<Instr> {
    if es == [] then []
    else if |es| == 1 then Code(es[0])
    else Code(es[0]) + ([Pop] + ProgramCode(es[1..]))
  }

  lemma {:induction false} BytesOfConcat(a: seq<Instr>, b: seq<Instr>)
    ensures BytesOf(a + b) == BytesOf(a) + BytesOf(b)
  {
    if a == [] {
      assert a + b == b;
    } else {
      assert (a + b)[1..] == a[1..] + b;
      BytesOfConcat(a[1..], b);
    }
  }

  lemma BytesOfOne(i: Instr)
    ensures BytesOf([i]) == Bytes(i)
  {
    assert [i][1..] == [];
  }

  /** t with the bytes bs put at p. */
  function Overwrite(t: seq<FinshCode.Byte>, p: nat, bs: seq<FinshCode.Byte>): seq<FinshCode.Byte>
    requires p + |bs| <= |t|
  {
    t[..p] + bs + t[p + |bs|..]
  }

  lemma OverwriteTwice(t: seq<FinshCode.Byte>, p: nat, a: seq<FinshCode.Byte>, b: seq<FinshCode.Byte>)
    requires p + |a| + |b| <= |t|
    ensures Overwrite(Overwrite(t, p, a), p + |a|, b) == Overwrite(t, p, a + b)
  {
    var u := Overwrite(t, p, a);
    assert u[..p + |a|] == t[..p] + a && u[p + |a| + |b|..] == t[p + |a| + |b|..];
  }

  /** Text and pc before, the bytes emitted, text and pc after. */
  ghost predicate Wrote(t: seq<FinshCode.Byte>, p: nat, bs: seq<FinshCode.Byte>, u: seq<FinshCode.Byte>, q: nat) {
    q == p + |bs| && q <= |t| && u == Overwrite(t, p, bs)
  }

  lemma WroteNothing(t: seq<FinshCode.Byte>, p: nat)
    requires p <= |t|
    ensures Wrote(t, p, [], t, p)
  {
  }

  lemma WroteBoth(t: seq<FinshCode.Byte>, p: nat, a: seq<FinshCode.Byte>, u: seq<FinshCode.Byte>, q: nat,
                  b: seq<FinshCode.Byte>, v: seq<FinshCode.Byte>, r: nat)
    requires Wrote(t, p, a, u, q) && Wrote(u, q, b, v, r)
    ensures Wrote(t, p, a + b, v, r)
  {
    OverwriteTwice(t, p, a, b);
  }

  /** Where the pc stands after the emission. */
  lemma WroteLength(t: seq<FinshCode.Byte>, p: nat, a: seq<FinshCode.Byte>, u: seq<FinshCode.Byte>, q: nat)
    requires Wrote(t, p, a, u, q)
    ensures q == p + |a| && |u| == |t|
  {
  }

  lemma RightUnit(a: seq<FinshCode.Byte>)
    ensures a + [] == a
  {
  }

  /** The bytes followed by no-ops up to the end of the text segment. */
  function Padded(bs: seq<FinshCode.Byte>, n: nat): seq<FinshCode.Byte>
    requires |bs| <= n
  {
    bs + seq(n - |bs|, _ => OP_NOOP)
  }

  lemma BytesOfPopped(a: seq<Instr>, b: seq<Instr>)
    ensures BytesOf(a + ([Pop] + b)) == BytesOf(a) + ([OP_POP] + BytesOf(b))
  {
    BytesOfConcat(a, [Pop] + b);
    BytesOfConcat([Pop], b);
    BytesOfOne(Pop);
  }

  /** What follows the code of the first statement. */
  function AfterFirst(es: seq<Expr>): seq<FinshCode.Byte>
    requires es != []
  {
    if |es| == 1 then [] else [OP_POP] + BytesOf(ProgramCode(es[1..]))
  }

  /** The bytes of a statement list, statement by statement. */
  lemma ProgramBytes(es: seq<Expr>)
    requires es != []
    ensures BytesOf(ProgramCode(es)) == BytesOf(Code(es[0])) + AfterFirst(es)
  {
    if |es| == 1 {
      assert ProgramCode(es) == Code(es[0]);
    } else {
      BytesOfPopped(Code(es[0]), ProgramCode(es[1..]));
      assert ProgramCode(es) == Code(es[0]) + ([Pop] + ProgramCode(es[1..]));
    }
  }

  lemma EmptyProgram()
    ensures BytesOf(ProgramCode([])) == []
  {
  }

  /** What one turn of the statement loop emits. */
  function Step(es: seq<Expr>): seq<FinshCode.Byte>
    requires es != []
  {
    if |es| == 1 then BytesOf(Code(es[0])) else BytesOf(Code(es[0])) + [OP_POP]
  }

  lemma StepBytes(es: seq<Expr>)
    requires es != []
    ensures Step(es) == if |es| == 1 then BytesOf(Code(es[0])) else BytesOf(Code(es[0])) + [OP_POP]
    ensures BytesOf(ProgramCode(es)) == Step(es) + BytesOf(ProgramCode(es[1..]))
    ensures |BytesOf(Code(es[0]))| <= |Step(es)| <= |BytesOf(ProgramCode(es))|
  {
    EmptyProgram();
    ProgramBytes(es);
    hide BytesOf, ProgramCode, Code;
    if |es| > 1 {
      Lists.Associative(BytesOf(Code(es[0])), [OP_POP], BytesOf(ProgramCode(es[1..])));
    } else {
      assert es[1..] == [];
      RightUnit(BytesOf(Code(es[0])));
    }
  }

  /** The statements still to compile: a list of trees, marked, each the parse tree of its expression. */
  ghost predicate Statements(ns: seq<Node>, p: int, c: Chain, es: seq<Expr>) {
    Linked(ns, p, c) && Distinct(c) && EncodesAll(ns, c, es) && MarksAll(ns, c, es)
  }

  lemma NoStatements(ns: seq<Node>, p: int, c: Chain, es: seq<Expr>)
    requires Statements(ns, p, c, es) && p == NULL
    ensures es == [] && BytesOf(ProgramCode(es)) == []
  {
  }

  lemma StatementsLeft(ns: seq<Node>, p: int, c: Chain, es: seq<Expr>)
    requires Statements(ns, p, c, es) && p != NULL
    ensures c.Cons? && c.idx == p < |ns| && es != []
  {
  }

  /** The first of the statements, and what is left once it is taken off the list. */
  lemma NextStatement(ns: seq<Node>, p: int, c: Chain, es: seq<Expr>)
    requires Statements(ns, p, c, es) && p != NULL
    ensures c.Cons? && c.idx == p < |ns| && es != []
    ensures Linked(ns, p, c) && Distinct(c) && Encodes(ns, c, es[0]) && ValueMarks(ns, c, es[0])
    ensures ns[p].sibling == NULL <==> |es| == 1
    ensures Statements(Cut(ns, p), ns[p].sibling, c.rest, es[1..])
  {
    CutLinked(ns, p, ns[p].sibling, c.rest);
    CutAll(ns, p, c.rest, es[1..]);
  }

  class Compiler {
    const nodes: array<Node>
    const text: array<FinshCode.Byte>
    var pc: nat

    constructor (nodes: array<Node>)
      ensures this.nodes == nodes && fresh(text) && text.Length == TEXT_MAX && pc == 0
    {
      this.nodes := nodes;
      text := new FinshCode.Byte[TEXT_MAX](_ => 0);
      pc := 0;
    }

    // ----- finsh_type_check -----

    method TypeCheck(p: int, isAddr: bool, ghost c: Chain)
      requires Linked(nodes[..], p, c)
      modifies nodes
      ensures nodes[..] == Typed(old(nodes[..]), c, isAddr)
      decreases c
    {
      if p != NULL {
        ghost var ns := nodes[..];
        var kind := nodes[p].kind;
        ghost var flag := KidFlag(kind, isAddr);
        if kind.SysAssign? || kind.SysPreStep? || kind.SysGetAddr? {
          TypeCheck(nodes[p].child, true, c.kids);
        } else if kind.SysGetValue? && isAddr {
          TypeCheck(nodes[p].child, false, c.kids);
        } else {
          TypeCheck(nodes[p].child, isAddr, c.kids);
        }
        TypedRemarks(ns, c.kids, flag);
        RemarkedLinked(ns, nodes[..], Indices(c.kids), ns[p].sibling, c.rest);
        TypeCheck(nodes[p].sibling, false, c.rest);
        TypedRemarks(Typed(ns, c.kids, flag), c.rest, false);
        ChildInTable(ns, nodes[..], c);
        MarkNode(p, isAddr);
      }
    }

    /** The marks of a node, once its children have theirs. */
    method MarkNode(p: nat, isAddr: bool)
      requires p < nodes.Length && (nodes[p].child == NULL || 0 <= nodes[p].child < nodes.Length)
      modifies nodes
      ensures nodes[..] == Mark(old(nodes[..]), p, isAddr)
    {
      var child := nodes[p].child;
      nodes[p] := nodes[p].(address := nodes[p].address || isAddr);
      if child != NULL {
        nodes[p] := nodes[p].(dataType := nodes[child].dataType);
      } else if nodes[p].kind.Id? || nodes[p].kind.Value? {
        nodes[p] := nodes[p].(dataType := Dword);
      }
    }

    lemma ChildInTable(ns: seq<Node>, ms: seq<Node>, c: Chain)
      requires c.Cons? && c.idx < |ns| == |ms| && Linked(ns, ns[c.idx].child, c.kids)
        && ms[c.idx].child == ns[c.idx].child
      ensures ms[c.idx].child == NULL || 0 <= ms[c.idx].child < |ms|
    {
    }

    // ----- emitting bytes -----

    method CodeByte(b: FinshCode.Byte)
      requires pc + 1 <= text.Length
      modifies text, this`pc
      ensures Wrote(old(text[..]), old(pc), [b], text[..], pc)
    {
      text[pc] := b;
      pc := pc + 1;
    }

    method CodeDword(w: Word)
      requires pc + 4 <= text.Length
      modifies text, this`pc
      ensures Wrote(old(text[..]), old(pc), Set32(w), text[..], pc)
    {
      text[pc] := w % 256;
      text[pc + 1] := w / 256 % 256;
      text[pc + 2] := w / 0x1_0000 % 256;
      text[pc + 3] := w / 0x100_0000;
      pc := pc + 4;
    }

    /** An opcode followed by the 4 bytes of its operand. */
    method CodeLoad(opcode: FinshCode.Byte, w: Word)
      requires pc + 5 <= text.Length
      modifies text, this`pc
      ensures Wrote(old(text[..]), old(pc), [opcode] + Set32(w), text[..], pc)
    {
      ghost var t, p := text[..], pc;
      CodeByte(opcode);
      ghost var u, q := text[..], pc;
      hide Wrote;
      WroteLength(t, p, [opcode], u, q);
      CodeDword(w);
      WroteBoth(t, p, [opcode], u, q, Set32(w), text[..], pc);
    }

    method CodeInstr(i: Instr)
      requires pc + |Bytes(i)| <= text.Length
      modifies text, this`pc
      ensures Wrote(old(text[..]), old(pc), Bytes(i), text[..], pc)
    {
      hide Wrote, Set32;
      match i
      case NoOp => CodeByte(OP_NOOP);
      case LdDword(v) => CodeLoad(OP_LD_DWORD, v);
      case LdValueDword(a) => CodeLoad(OP_LD_VALUE_DWORD, a);
      case BinDword(op) => CodeByte(BinOpcode(op));
      case BitwiseDword => CodeByte(OP_BITWISE_DWORD);
      case StDword => CodeByte(OP_ST_DWORD);
      case LdValueDwordStack => CodeByte(OP_LD_VALUE_DWORD_STACK);
      case Pop => CodeByte(OP_POP);
    }

    /** `code` goes to the text segment at pc. */
    method CodeInstrs(code: seq<Instr>)
      requires pc + |BytesOf(code)| <= text.Length
      modifies text, this`pc
      ensures Wrote(old(text[..]), old(pc), BytesOf(code), text[..], pc)
    {
      ghost var t, p := text[..], pc;
      var k := 0;
      assert code[..0] == [] && BytesOf([]) == [];
      WroteNothing(t, p);
      hide *;
      while k < |code|
        invariant k <= |code| && Wrote(t, p, BytesOf(code[..k]), text[..], pc)
      {
        ghost var u, q := text[..], pc;
        WroteLength(t, p, BytesOf(code[..k]), u, q);
        OneMore(code, k);
        CodeInstr(code[k]);
        WroteBoth(t, p, BytesOf(code[..k]), u, q, Bytes(code[k]), text[..], pc);
        k := k + 1;
      }
      assert code[..|code|] == code;
    }

    lemma OneMore(code: seq<Instr>, k: nat)
      requires k < |code|
      ensures BytesOf(code[..k + 1]) == BytesOf(code[..k]) + Bytes(code[k])
      ensures |BytesOf(code[..k + 1])| <= |BytesOf(code)|
    {
      assert code[..k + 1] == code[..k] + [code[k]];
      BytesOfConcat(code[..k], [code[k]]);
      BytesOfOne(code[k]);
      assert code == code[..k + 1] + code[k + 1..];
      BytesOfConcat(code[..k + 1], code[k + 1..]);
    }

    // ----- finsh_compile -----

    lemma CompiledKid(ns: seq<Node>, q: int, kids: Chain)
      requires Linked(ns, q, kids)
      ensures if q == NULL then kids.Nil? else kids.Cons? && kids.idx == q < |ns|
    {
    }

    /** The switch over the node type, after the children. */
    method CompileNode(p: nat, ghost kids: Chain)
      requires p < nodes.Length && Linked(nodes[..], nodes[p].child, kids)
      requires pc + |BytesOf(NodeCode(nodes[..], p, kids))| <= text.Length
      modifies text, this`pc
      ensures Wrote(old(text[..]), old(pc), BytesOf(NodeCode(nodes[..], p, kids)), text[..], pc)
    {
      CompiledKid(nodes[..], nodes[p].child, kids);
      hide Linked, BytesOf, Bytes, Wrote;
      var n := nodes[p];
      var code: seq<Instr> := [];
      match n.kind {
        case Unknown =>
        case Id => code := if n.address then [LdDword(n.word)] else [LdValueDword(n.word)];
        case Value => code := [LdDword(n.word)];
        case SysBinary(op) => if n.dataType.Dword? { code := [BinDword(op)]; }
        case SysBitwise => if n.dataType.Dword? { code := [BitwiseDword]; }
        case SysAssign =>
          if n.child != NULL {
            var kid := nodes[n.child];
            if (kid.kind.Id? || kid.kind.SysGetValue?) && kid.dataType.Dword? { code := [StDword, LdValueDwordStack]; }
          }
        case SysPreStep(op) =>
          if n.child != NULL && nodes[n.child].kind.Id? && n.dataType.Dword? {
            var a := nodes[n.child].word;
            code := [LdValueDword(a), LdDword(1), BinDword(op), StDword, LdValueDwordStack];
          }
        case SysPostStep(op) =>
          if n.child != NULL && nodes[n.child].kind.Id? && n.dataType.Dword? {
            var a := nodes[n.child].word;
            code := [LdDword(a), LdValueDword(a), LdDword(1), BinDword(op), StDword, Pop];
          }
        case SysGetValue => if !n.address && n.dataType.Dword? { code := [LdValueDwordStack]; }
        case SysGetAddr =>
      }
      assert code == NodeCode(nodes[..], p, kids);
      CodeInstrs(code);
    }

    method Compile(p: int, ghost c: Chain)
      requires Linked(nodes[..], p, c)
      requires pc + |BytesOf(Emitted(nodes[..], c))| <= text.Length
      modifies text, this`pc
      ensures Wrote(old(text[..]), old(pc), BytesOf(Emitted(nodes[..], c)), text[..], pc)
      decreases c
    {
      ghost var t, q, ns := text[..], pc, nodes[..];
      CompileNothing(ns, p, c);
      hide *;
      if p == NULL {
        WroteNothing(t, q);
      } else {
        CompileSteps(ns, p, c);
        ghost var a, b, d := BytesOf(Emitted(ns, c.kids)), BytesOf(NodeCode(ns, p, c.kids)),
            BytesOf(Emitted(ns, c.rest));
        EmittedBytes(ns, c);
        Compile(nodes[p].child, c.kids);
        ghost var t1, q1 := text[..], pc;
        WroteLength(t, q, a, t1, q1);
        CompileNode(p, c.kids);
        ghost var t2, q2 := text[..], pc;
        WroteBoth(t, q, a, t1, q1, b, t2, q2);
        WroteLength(t, q, a + b, t2, q2);
        Compile(nodes[p].sibling, c.rest);
        WroteBoth(t, q, a + b, t2, q2, d, text[..], pc);
      }
    }

    // ----- finsh_compiler_run -----

    /** Take the first statement off the list and compile it. */
    method CompileStatement(current: nat, ghost d: Chain, ghost e: Expr) returns (sibling: int)
      requires Linked(nodes[..], current, d) && Distinct(d) && Encodes(nodes[..], d, e) && ValueMarks(nodes[..], d, e)
      requires d.Cons? && d.idx == current < nodes.Length
      requires pc + |BytesOf(Code(e))| <= text.Length
      modifies nodes, text, this`pc
      ensures nodes[..] == Cut(old(nodes[..]), current)
      ensures sibling == old(nodes[..])[current].sibling
      ensures Wrote(old(text[..]), old(pc), BytesOf(Code(e)), text[..], pc)
    {
      ghost var ns := nodes[..];
      CutHead(ns, current, d, e);
      sibling := nodes[current].sibling;
      nodes[current] := nodes[current].(sibling := NULL);
      assert nodes[..] == Cut(ns, current);
      Compile(current, Cons(d.idx, d.kids, Nil));
    }

    method Run(root: int, ghost c: Chain, ghost es: seq<Expr>)
      requires Ready(nodes[..], root, c) && EncodesAll(nodes[..], c, es)
      requires |BytesOf(ProgramCode(es))| <= text.Length
      modifies nodes, text, this`pc
      ensures text[..] == Padded(BytesOf(ProgramCode(es)), text.Length)
    {
      TypedAll(nodes[..], root, c, es);
      TypedRemarks(nodes[..], c, false);
      RemarkedLinked(nodes[..], Typed(nodes[..], c, false), Indices(c), root, c);
      TypeCheck(root, false, c);
      ClearText();
      pc := 0;
      EmitList(root, c, es);
    }

    /** One turn of the loop over the statements: compile it and, unless it is the last, drop its value. */
    method EmitNext(current: nat, ghost d: Chain, ghost es: seq<Expr>) returns (sibling: int)
      requires Statements(nodes[..], current, d, es)
      requires d.Cons? && d.idx == current < nodes.Length && es != []
      requires pc + |BytesOf(ProgramCode(es))| <= text.Length
      modifies nodes, text, this`pc
      ensures Statements(nodes[..], sibling, d.rest, es[1..])
      ensures Step(es) + BytesOf(ProgramCode(es[1..])) == BytesOf(ProgramCode(es))
      ensures Wrote(old(text[..]), old(pc), Step(es), text[..], pc)
    {
      ghost var t, q := text[..], pc;
      NextStatement(nodes[..], current, d, es);
      StepBytes(es);
      hide *;
      ghost var code := BytesOf(Code(es[0]));
      sibling := CompileStatement(current, d, es[0]);
      if sibling != NULL {
        ghost var u, r := text[..], pc;
        WroteLength(t, q, code, u, r);
        CodeByte(OP_POP);
        WroteBoth(t, q, code, u, r, [OP_POP], text[..], pc);
      }
    }

    method EmitList(root: int, ghost c: Chain, ghost es: seq<Expr>)
      requires Statements(nodes[..], root, c, es)
      requires |BytesOf(ProgramCode(es))| <= text.Length && pc == 0
      modifies nodes, text, this`pc
      ensures Wrote(old(text[..]), 0, BytesOf(ProgramCode(es)), text[..], pc)
    {
      ghost var t, whole := text[..], BytesOf(ProgramCode(es));
      ghost var done: seq<FinshCode.Byte>, d, rest := [], c, es;
      var sibling := root;
      EmptyProgram();
      WroteNothing(t, 0);
      hide *;
      while sibling != NULL
        invariant Statements(nodes[..], sibling, d, rest)
        invariant done + BytesOf(ProgramCode(rest)) == whole
        invariant Wrote(t, 0, done, text[..], pc)
        decreases d
      {
        StatementsLeft(nodes[..], sibling, d, rest);
        ghost var more, u, q := Step(rest), text[..], pc;
        WroteLength(t, 0, done, u, q);
        sibling := EmitNext(sibling, d, rest);
        WroteBoth(t, 0, done, u, q, more, text[..], pc);
        Lists.Associative(done, more, BytesOf(ProgramCode(rest[1..])));
        done, d, rest := done + more, d.rest, rest[1..];
      }
      NoStatements(nodes[..], sibling, d, rest);
      RightUnit(done);
    }

    lemma CompileNothing(ns: seq<Node>, p: int, c: Chain)
      requires Linked(ns, p, c)
      ensures p == NULL ==> BytesOf(Emitted(ns, c)) == []
    {
    }

    lemma CompileSteps(ns: seq<Node>, p: int, c: Chain)
      requires Linked(ns, p, c) && p != NULL
      ensures c.Cons? && c.idx == p < |ns| && Linked(ns, ns[p].child, c.kids) && Linked(ns, ns[p].sibling, c.rest)
    {
    }

    lemma EmittedBytes(ns: seq<Node>, c: Chain)
      requires c.Cons? && c.idx < |ns|
      ensures BytesOf(Emitted(ns, c))
           == BytesOf(Emitted(ns, c.kids)) + BytesOf(NodeCode(ns, c.idx, c.kids)) + BytesOf(Emitted(ns, c.rest))
    {
      EmittedUnfold(ns, c);
      hide Emitted, BytesOf, NodeCode;
      BytesOfConcat(Emitted(ns, c.kids), NodeCode(ns, c.idx, c.kids));
      BytesOfConcat(Emitted(ns, c.kids) + NodeCode(ns, c.idx, c.kids), Emitted(ns, c.rest));
    }

    method ClearText()
      modifies text
      ensures forall k :: 0 <= k < text.Length ==> text[k] == 0
    {
      for k := 0 to text.Length
        invariant forall j :: 0 <= j < k ==> text[j] == 0
      {
        text[k] := 0;
      }
    }
  }
}
