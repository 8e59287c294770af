/** How many bytes the code of a finsh line has: a sum over its expressions, or over the trees it is parsed to. */
module FinshCosts {
  import opened FinshExpr
  import opened FinshCode
  import opened FinshGrammar
  import opened FinshTrees
  import opened FinshCompiler
  import opened FinshVm

  /** The bytes of the code of an expression: 5 for a name or a constant, 1 for an operator or a `*` that takes a
      value, 2 for an assignment, 18 for a step before its variable and 23 for one behind it. */
  function Cost(e: Expr): nat {
    match e
    case Num(_) => 5
    case Read(lv) => PlaceCost(lv) + if lv.Deref? then 1 else 0
    case AddrOf(lv) => PlaceCost(lv)
    case Assign(lv, rhs) => PlaceCost(lv) + Cost(rhs) + 2
    case Binary(_, l, r) => Cost(l) + Cost(r) + 1
    case Complement(arg) => Cost(arg) + 1
    case PreStep(_, _) => 18
    case PostStep(_, _) => 23
  }

  function PlaceCost(lv: LValue): nat {
    match lv
    case Ident(_) => 5
    case Deref(p) => Cost(p)
  }

  /** And 1 between two statements. */
  function CostAll(es: seq<Expr>): nat {
    if es == [] then 0 else Cost(es[0]) + (if |es| == 1 then 0 else 1) + CostAll(es[1..])
  }

  lemma CodeBytes(a: seq<Instr>, b: seq<Instr>)
    ensures |BytesOf(a + b)| == |BytesOf(a)| + |BytesOf(b)|
  {
    BytesOfConcat(a, b);
  }

  lemma OneByte(i: Instr)
    ensures |BytesOf([i])| == |Bytes(i)|
  {
    assert BytesOf([i]) == Bytes(i) + BytesOf([]);
  }

  lemma FrontByte(i: Instr, code: seq<Instr>)
    ensures |BytesOf([i] + code)| == |Bytes(i)| + |BytesOf(code)|
  {
    CodeBytes([i], code);
    OneByte(i);
  }

  lemma {:induction false} CodeCost(e: Expr)
    ensures |BytesOf(Code(e))| == Cost(e)
    decreases e
  {
    match e
    case Num(v) => OneByte(LdDword(v));
    case Read(lv) =>
      AddressCost(lv);
      if lv.Ident? { OneByte(LdValueDword(lv.addr)); }
      else { CodeBytes(Code(lv.ptr), [LdValueDwordStack]); OneByte(LdValueDwordStack); }
    case AddrOf(lv) => AddressCost(lv);
    case Assign(lv, rhs) =>
      AddressCost(lv);
      CodeCost(rhs);
      CodeBytes(AddressCode(lv), Code(rhs) + [StDword, LdValueDwordStack]);
      CodeBytes(Code(rhs), [StDword, LdValueDwordStack]);
      StoreBytes();
    case Binary(op, l, r) =>
      CodeCost(l);
      CodeCost(r);
      CodeBytes(Code(l), Code(r) + [BinDword(op)]);
      CodeBytes(Code(r), [BinDword(op)]);
      OneByte(BinDword(op));
    case Complement(arg) =>
      CodeCost(arg);
      CodeBytes(Code(arg), [BitwiseDword]);
      OneByte(BitwiseDword);
    case PreStep(a, op) => PreStepBytes(a, op);
    case PostStep(a, op) => PostStepBytes(a, op);
  }

  lemma StoreBytes()
    ensures |BytesOf([StDword, LdValueDwordStack])| == 2
  {
    FrontByte(StDword, [LdValueDwordStack]);
    OneByte(LdValueDwordStack);
    assert [StDword] + [LdValueDwordStack] == [StDword, LdValueDwordStack];
  }

  lemma PreStepBytes(a: Word, op: BinOp)
    ensures |BytesOf(PreStepCode(a, op))| == 18
  {
    var tail := [BinDword(op), StDword, LdValueDwordStack];
    StepTail(op, LdValueDwordStack);
    FrontByte(LdDword(1), tail);
    FrontByte(LdValueDword(a), [LdDword(1)] + tail);
    FrontByte(LdDword(a), [LdValueDword(a)] + ([LdDword(1)] + tail));
    assert PreStepCode(a, op) == [LdDword(a)] + ([LdValueDword(a)] + ([LdDword(1)] + tail));
  }

  lemma PostStepBytes(a: Word, op: BinOp)
    ensures |BytesOf(PostStepCode(a, op))| == 23
  {
    var tail := [BinDword(op), StDword, Pop];
    StepTail(op, Pop);
    FrontByte(LdDword(1), tail);
    FrontByte(LdValueDword(a), [LdDword(1)] + tail);
    FrontByte(LdDword(a), [LdValueDword(a)] + ([LdDword(1)] + tail));
    FrontByte(LdValueDword(a), [LdDword(a)] + ([LdValueDword(a)] + ([LdDword(1)] + tail)));
    assert PostStepCode(a, op) == [LdValueDword(a)] + ([LdDword(a)] + ([LdValueDword(a)] + ([LdDword(1)] + tail)));
  }

  /** The three one-byte instructions a step ends with. */
  lemma StepTail(op: BinOp, last: Instr)
    requires |Bytes(last)| == 1
    ensures |BytesOf([BinDword(op), StDword, last])| == 3
  {
    OneByte(last);
    FrontByte(StDword, [last]);
    FrontByte(BinDword(op), [StDword] + [last]);
    assert [BinDword(op), StDword, last] == [BinDword(op)] + ([StDword] + [last]);
  }

  lemma AddressCost(lv: LValue)
    ensures |BytesOf(AddressCode(lv))| == PlaceCost(lv)
    decreases lv
  {
    match lv
    case Ident(a) => OneByte(LdDword(a));
    case Deref(p) => CodeCost(p);
  }

  /** The bytes of a line are that sum. */
  lemma {:induction false} ProgramCost(es: seq<Expr>)
    ensures |BytesOf(ProgramCode(es))| == CostAll(es)
    decreases |es|
  {
    if es != [] {
      CodeCost(es[0]);
      ProgramCost(es[1..]);
      if |es| > 1 {
        hide Code, Cost, CostAll, BytesOf;
        ProgramCodeCons(es);
        CodeBytes(Code(es[0]), [Pop] + ProgramCode(es[1..]));
        FrontByte(Pop, ProgramCode(es[1..]));
        CostAllCons(es);
      }
    }
  }

  lemma CostAllCons(es: seq<Expr>)
    requires |es| > 1
    ensures CostAll(es) == Cost(es[0]) + 1 + CostAll(es[1..]) && |Bytes(Pop)| == 1
  {
  }

  // ----- against the nodes -----

  /** A bound on a sum by its nodes: a step of two nodes costs 23, and 1 before the next statement. */
  predicate Fits(bytes: nat, nodes: nat) { bytes + 1 <= 12 * nodes - 6 * (nodes % 2) }

  lemma {:induction false} CostFits(e: Expr)
    ensures Fits(Cost(e), Nodes(e))
    decreases e
  {
    match e
    case Num(_) =>
    case Read(lv) => PlaceFits(lv);
    case AddrOf(lv) => PlaceFits(lv);
    case Assign(lv, rhs) => PlaceFits(lv); CostFits(rhs);
    case Binary(_, l, r) => CostFits(l); CostFits(r);
    case Complement(arg) => CostFits(arg);
    case PreStep(_, _) =>
    case PostStep(_, _) =>
  }

  /** One node more would still fit. */
  lemma PlaceFits(lv: LValue)
    ensures Fits(PlaceCost(lv), LNodes(lv)) && (lv.Deref? ==> Fits(PlaceCost(lv) + 1, LNodes(lv)))
    decreases lv
  {
    if lv.Deref? { CostFits(lv.ptr); }
  }

  lemma {:induction false} AllFit(es: seq<Expr>)
    requires es != []
    ensures Fits(CostAll(es), NodesAll(es))
    decreases |es|
  {
    CostFits(es[0]);
    if |es| > 1 { AllFit(es[1..]); }
  }

  /** So a line of up to eleven nodes fits the text segment. */
  lemma ElevenNodesFit(es: seq<Expr>)
    requires es != [] && NodesAll(es) <= 11
    ensures |BytesOf(ProgramCode(es))| <= TEXT_MAX
  {
    ProgramCost(es);
    AllFit(es);
  }

  // ----- the same sum, taken from the trees -----

  function TreeCost(t: Tree): nat {
    match t
    case Name(_) => 5
    case Value(_) => 5
    case Bin(_, l, r) => TreeCost(l) + TreeCost(r) + 1
    case Pre(PlusPlus, arg) => TreeCost(arg) + 13
    case Pre(MinusMinus, arg) => TreeCost(arg) + 13
    case Pre(Minus, arg) => TreeCost(arg) + 6
    case Pre(Tilde, arg) => TreeCost(arg) + 1
    case Pre(Star, arg) => TreeCost(arg) + 1
    case Pre(Ampersand, arg) => TargetCost(arg)
    case Post(_, arg) => TreeCost(arg) + 18
    case Assignment(l, r) => TargetCost(l) + TreeCost(r) + 2
  }

  /** Of a target only the address is taken, so its `*` costs nothing. */
  function TargetCost(t: Tree): nat {
    match t
    case Pre(Star, arg) => TreeCost(arg)
    case _ => 5
  }

  function LineCost(trees: seq<Tree>): nat {
    if trees == [] then 0 else TreeCost(trees[0]) + (if |trees| == 1 then 0 else 1) + LineCost(trees[1..])
  }

  lemma {:induction false} CostOfTree(sy: Symbols, t: Tree)
    requires Meaning(sy, t).Some?
    ensures TreeCost(t) == Cost(Meaning(sy, t).value)
    decreases t, 1
  {
    match t
    case Name(_) =>
    case Value(_) =>
    case Bin(_, l, r) => CostOfTree(sy, l); CostOfTree(sy, r);
    case Pre(p, arg) =>
      if p.Star? { CostOfTarget(sy, t); }
      else if p.Ampersand? { CostOfTarget(sy, arg); }
      else if !arg.Name? { CostOfTree(sy, arg); }
    case Post(_, _) =>
    case Assignment(l, r) => CostOfTarget(sy, l); CostOfTree(sy, r);
  }

  lemma CostOfTarget(sy: Symbols, t: Tree)
    requires Place(sy, t).Some?
    ensures TargetCost(t) == PlaceCost(Place(sy, t).value)
    decreases t, 0
  {
    if t.Pre? { CostOfTree(sy, t.arg); }
  }

  lemma {:induction false} CostOfLine(sy: Symbols, trees: seq<Tree>)
    requires MeaningAll(sy, trees).Some?
    ensures LineCost(trees) == CostAll(MeaningAll(sy, trees).value)
    decreases |trees|
  {
    if trees != [] {
      CostOfTree(sy, trees[0]);
      hide Cost, TreeCost, Meaning;
      CostOfLine(sy, trees[1..]);
      MeaningAllSize(sy, trees);
      assert MeaningAll(sy, trees).value[1..] == MeaningAll(sy, trees[1..]).value;
    }
  }
}
