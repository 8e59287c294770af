/** ++ and -- in the finsh shell: right on variables, wrong on everything else with an address.

    The grammar lets ++ and -- stand before or after any lvalue, so `++*p` is accepted; the compiler
    emits nothing for the operator unless its operand is an identifier. */
module FinshSteps {
  import opened FinshExpr
  import opened FinshCode
  import opened FinshNodes

  /** What ++ or -- should mean on an lvalue: step what is stored there, give the new value (prefix) or
      the old one (postfix). */
  function StepMeaning(lv: LValue, op: BinOp, prefix: bool, m: Memory): Option<(Word, Memory)> {
    match Locate(lv, m)
    case None => None
    case Some((a, m1)) =>
      match StepAt(a, op, m1)
      case None => None
      case Some(r) => Some((if prefix then r.after else r.before, r.mem))
  }

  function StepKind(op: BinOp, prefix: bool): Kind {
    if prefix then SysPreStep(op) else SysPostStep(op)
  }

  /** The chain is a single tree: a step operator over the tree of lv. */
  predicate StepTree(ns: seq<Node>, c: Chain, op: BinOp, prefix: bool, lv: LValue) {
    Inner(ns, c, StepKind(op, prefix)) && LEncodes(ns, c.kids, lv) && c.kids.rest.Nil? && c.rest.Nil?
  }

  /** What the compiler makes of the tree. */
  function StepCode(ns: seq<Node>, c: Chain): seq<Instr> {
    Emitted(Typed(ns, c, false), c)
  }

  /** On an identifier the step is compiled as it should be. */
  lemma StepOfVariable(ns: seq<Node>, p: int, c: Chain, op: BinOp, prefix: bool, a: Word)
    requires Ready(ns, p, c) && StepTree(ns, c, op, prefix, Ident(a))
    ensures StepCode(ns, c) == if prefix then PreStepCode(a, op) else PostStepCode(a, op)
  {
    var e := if prefix then PreStep(a, op) else PostStep(a, op);
    assert Encodes(ns, c, e);
    TypedValue(ns, p, c, e);
    EmittedIsCode(Typed(ns, c, false), c, e);
    EmittedNil(Typed(ns, c, false));
  }

  /** On `*q` only the operand is compiled: its address before ++, its value before a trailing ++. */
  lemma StepOfPointer(ns: seq<Node>, p: int, c: Chain, op: BinOp, prefix: bool, q: Expr)
    requires Ready(ns, p, c) && StepTree(ns, c, op, prefix, Deref(q))
    ensures StepCode(ns, c) == if prefix then AddressCode(Deref(q)) else Code(Read(Deref(q)))
  {
    var ms, lv := Typed(ns, c, false), Deref(q);
    MarksOfPointer(ns, p, c, op, prefix, q);
    EmittedIsAddress(ms, c.kids, lv, prefix);
    hide Emitted, Typed;
    EmittedNil(ms);
    EmittedUnfold(ms, c);
  }

  lemma MarksOfPointer(ns: seq<Node>, p: int, c: Chain, op: BinOp, prefix: bool, q: Expr)
    requires Ready(ns, p, c) && StepTree(ns, c, op, prefix, Deref(q))
    ensures LEncodes(Typed(ns, c, false), c.kids, Deref(q)) && LMarks(Typed(ns, c, false), c.kids, Deref(q), prefix)
    ensures NodeCode(Typed(ns, c, false), c.idx, c.kids) == []
  {
    var ms, lv := Typed(ns, c, false), Deref(q);
    ReadyKids(ns, p, c);
    TypedLValue(ns, ns[c.idx].child, c.kids, lv, prefix);
    AfterKids(ns, p, c, false);
    LMarksKept(Typed(ns, c.kids, prefix), ms, Indices(c.rest) + {c.idx}, c.kids, lv, prefix);
    TypedRemarks(ns, c, false);
  }

  /** Stepping always changes what is stored. */
  lemma StepChangesMemory(a: Word, op: BinOp, m: Memory)
    requires (op.Add? || op.Sub?) && StepAt(a, op, m).Some?
    ensures a in m && StepAt(a, op, m).value.mem != m
  {
    assert StepAt(a, op, m).value.mem[a] != m[a];
  }

  /** Compiled ++ and -- do what they should if and only if the operand is a variable, whatever the
      memory. */
  lemma StepRightIffVariable(ns: seq<Node>, p: int, c: Chain, op: BinOp, prefix: bool, lv: LValue, s: Machine,
      lo: nat, hi: nat)
    requires Ready(ns, p, c) && StepTree(ns, c, op, prefix, lv) && (op.Add? || op.Sub?)
    requires Room(|s.stack|, 1 + LNodes(lv), lo, hi) && StepMeaning(lv, op, prefix, s.mem).Some?
    ensures Exec(StepCode(ns, c), s, lo, hi) == Pushed(StepMeaning(lv, op, prefix, s.mem), s.stack) <==> lv.Ident?
  {
    hide StepCode, Ready, StepTree;
    match lv
    case Ident(a) =>
      StepOfVariable(ns, p, c, op, prefix, a);
      if prefix { PreStepIsEval(a, op, s, lo, hi); } else { PostStepIsEval(a, op, s, lo, hi); }
    case Deref(q) =>
      StepOfPointer(ns, p, c, op, prefix, q);
      var at := Locate(lv, s.mem).value;
      StepChangesMemory(at.0, op, at.1);
      if prefix { AddressIsLocate(lv, s, lo, hi); } else { CodeIsEval(Read(lv), s, lo, hi); }
  }
}
