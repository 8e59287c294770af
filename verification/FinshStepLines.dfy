/** ++ and -- from the tokens of a line on: the line is accepted, and the nodes made for it are compiled right if
    and only if the operand is a name. */
module FinshStepLines {
  import opened FinshExpr
  import opened FinshCode
  import opened FinshNodes
  import opened FinshGrammar
  import opened FinshLines
  import opened FinshTrees
  import T = FinshTrees
  import opened FinshParser
  import opened FinshVm
  import opened FinshSteps
  import opened FinshShell

  predicate IsStep(t: Tree) { t.Post? || (t.Pre? && (t.prefix.PlusPlus? || t.prefix.MinusMinus?)) }

  function StepOp(t: Tree): BinOp
    requires IsStep(t)
  {
    if t.Post? then t.step else if t.prefix.PlusPlus? then Add else Sub
  }

  /** The nodes made for a step over a place are a step tree over that place. */
  lemma PlantedStep(sy: Symbols, max: nat, ns: seq<Node>, t: Tree, ms: seq<Node>)
    requires IsStep(t) && Place(sy, T.First(t)).Some? && Holds(sy, max, ns, t, ms)
    ensures StepTree(ms, ChainOf(t, |ns|, Nil), StepOp(t), t.Pre?, Place(sy, T.First(t)).value)
  {
    PartsOfOne(sy, max, ns, t, ms);
    PlantEncodes(sy, max, ns, T.First(t), ms, Nil);
    ChainUnfold(t, |ns|, Nil);
    hide ChainOf, Holds, Plant, Size, Place, LEncodes;
  }

  /** What is parsed as one expression is canonical. */
  lemma OneIsCanonical(ts: seq<Token>, t: Tree)
    requires ParseLine(ts) == Line([t])
    ensures Canonical(t)
  {
    AssignCanonical(ts);
    hide ParseAssign, Canonical;
    match ParseAssign(ts)
    case Fail =>
    case Got(first, rest) =>
      assert ParseLine(ts) == Before([first], ParseStatements(rest[1..]));
      assert ([first] + ParseStatements(rest[1..]).trees)[0] == first;
  }

  /** The table after an accepted line of one step. */
  lemma StepLine(sy: Symbols, ts: seq<Token>, t: Tree, ms: seq<Node>)
    requires ParseLine(ts) == Line([t]) && IsStep(t) && Place(sy, T.First(t)).Some?
    requires LineResult(sy, NODE_MAX, [], NULL, ParseLine(ts)).Some?
    requires Agrees(LineResult(sy, NODE_MAX, [], NULL, ParseLine(ts)).value, ms, 0)
    ensures var c := ChainAll([t], 0);
      Ready(ms, RootAll([t], 0), c) && StepTree(ms, c, StepOp(t), t.Pre?, Place(sy, T.First(t)).value)
  {
    LineIsLinked(sy, NODE_MAX, [t], ms);
    var ns1 := FirstAndRest(sy, NODE_MAX, [], NULL, [t], ms);
    PlantedStep(sy, NODE_MAX, [], t, ms);
    ChainAllUnfold([t], 0);
    assert ChainAll([t][1..], Size(t)) == Nil;
  }

  /** Of an accepted line that steps a place the code does what it should if and only if the place is a name. */
  lemma StepLineRightIff(sy: Symbols, ts: seq<Token>, t: Tree, ms: seq<Node>, s: Machine, lo: nat, hi: nat)
    requires ParseLine(ts) == Line([t]) && IsStep(t) && Place(sy, T.First(t)).Some?
    requires LineResult(sy, NODE_MAX, [], NULL, ParseLine(ts)).Some?
    requires Agrees(LineResult(sy, NODE_MAX, [], NULL, ParseLine(ts)).value, ms, 0)
    requires Room(|s.stack|, 1 + LNodes(Place(sy, T.First(t)).value), lo, hi)
    requires StepMeaning(Place(sy, T.First(t)).value, StepOp(t), t.Pre?, s.mem).Some?
    ensures var meant := Pushed(StepMeaning(Place(sy, T.First(t)).value, StepOp(t), t.Pre?, s.mem), s.stack);
      Exec(StepCode(ms, ChainAll([t], 0)), s, lo, hi) == meant <==> T.First(t).Name?
  {
    StepLine(sy, ts, t, ms);
    OneIsCanonical(ts, t);
    StepOpIs(t);
    hide *;
    StepRightIffVariable(ms, RootAll([t], 0), ChainAll([t], 0), StepOp(t), t.Pre?, Place(sy, T.First(t)).value,
      s, lo, hi);
  }

  lemma StepOpIs(t: Tree)
    requires IsStep(t) && Canonical(t)
    ensures StepOp(t).Add? || StepOp(t).Sub?
  {
  }

  // ----- the line ++*p; -----

  const STEP_POINTER := [TInc, TOp(Mul), TId("p"), TSemi]
  const POINTED := Pre(PlusPlus, Pre(Star, Name("p")))

  lemma PointerRead()
    ensures ParseLine(STEP_POINTER) == Line([POINTED])
  {
    StatementRead(POINTED, []);
    assert Print(POINTED) + [TSemi] + [] == STEP_POINTER;
    assert ParseStatements([]) == Line([]);
  }

  const P: Symbols := map["p" := 0]
  const SEVEN: Memory := map[0 := 4, 4 := 7]

  lemma PointerMeans()
    ensures StepMeaning(Deref(Read(Ident(0))), Add, true, SEVEN) == Some((8, map[0 := 4, 4 := 8]))
    ensures Exec(AddressCode(Deref(Read(Ident(0)))), Machine([], SEVEN), 0, STACK_MAX) == Some(Machine([4], SEVEN))
  {
    assert Load(SEVEN, 0) == Some(4) && Load(SEVEN, 4) == Some(7);
    assert Locate(Ident(0), SEVEN) == Some((0, SEVEN));
    assert Eval(Read(Ident(0)), SEVEN) == Some((4, SEVEN));
    assert Locate(Deref(Read(Ident(0))), SEVEN) == Some((4, SEVEN));
    assert StepAt(4, Add, SEVEN) == Some(Stepped(7, 8, SEVEN[4 := 8])) && SEVEN[4 := 8] == map[0 := 4, 4 := 8];
    var code, s := [LdValueDword(0)], Machine([], SEVEN);
    assert AddressCode(Deref(Read(Ident(0)))) == code;
    assert s.stack + [4] == [4];
    assert code[1..] == [] && Do(code[0], s, 0, STACK_MAX) == Some(Machine([4], SEVEN));
  }

  lemma PointerPlace()
    ensures IsStep(POINTED) && Place(P, T.First(POINTED)) == Some(Deref(Read(Ident(0)))) && StepOp(POINTED) == Add
    ensures KnownAll(P, [POINTED]) && SizeAll([POINTED]) == 3
  {
    assert Meaning(P, Name("p")) == Some(Read(Ident(0)));
    assert Size(POINTED) == 1 + Size(Pre(Star, Name("p"))) && Size(Pre(Star, Name("p"))) == 1 + Size(Name("p"));
    assert Known(P, Name("p")) && Known(P, Pre(Star, Name("p"))) && Known(P, POINTED);
    assert [POINTED][1..] == [];
  }

  /** The line is accepted: three nodes and a name that is known. */
  lemma PointerAccepted()
    ensures ParseLine(STEP_POINTER) == Line([POINTED]) && Accepted(P, STEP_POINTER)
    ensures LineResult(P, NODE_MAX, [], NULL, ParseLine(STEP_POINTER)).Some?
  {
    PointerRead();
    PointerPlace();
    hide ParseLine, LineResult, KnownAll, SizeAll;
    AcceptedIff(P, STEP_POINTER);
  }

  /** p is at 0 and points to 4, where there is a 7: the line should leave 8, there and on the stack, but leaves
      the 4 on the stack and the 7 where it is. */
  lemma PointerNotStepped(ms: seq<Node>)
    requires LineResult(P, NODE_MAX, [], NULL, ParseLine(STEP_POINTER)).Some?
    requires Agrees(LineResult(P, NODE_MAX, [], NULL, ParseLine(STEP_POINTER)).value, ms, 0)
    ensures StepMeaning(Deref(Read(Ident(0))), Add, true, SEVEN) == Some((8, map[0 := 4, 4 := 8]))
    ensures Exec(StepCode(ms, ChainAll([POINTED], 0)), Machine([], SEVEN), 0, STACK_MAX) == Some(Machine([4], SEVEN))
  {
    hide *;
    PointerRead();
    PointerPlace();
    PointerMeans();
    StepLine(P, STEP_POINTER, POINTED, ms);
    PointedIsPrefix();
    StepOfPointer(ms, RootAll([POINTED], 0), ChainAll([POINTED], 0), Add, true, Read(Ident(0)));
  }

  lemma PointedIsPrefix()
    ensures POINTED.Pre?
  {
  }
}
