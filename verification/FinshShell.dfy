/** A line of the finsh shell from its tokens to its value: finsh_run_line. */
module FinshShell {
  import opened FinshExpr
  import opened FinshMeaning
  import opened FinshSays
  import opened FinshCode
  import opened FinshNodes
  import opened FinshGrammar
  import opened FinshLines
  import opened FinshTrees
  import opened FinshParser
  import opened FinshCosts
  import opened FinshCompiler
  import opened FinshVm

  // ----- a line from its tokens on -----

  /** The parser notes no error: the line is in the grammar, knows its names and fits the node table. */
  predicate Accepted(sy: Symbols, ts: seq<Token>) {
    var l := ParseLine(ts);
    l.Line? && KnownAll(sy, l.trees) && SizeAll(l.trees) <= NODE_MAX
  }

  /** What an accepted line stands for, when = and & are before places and ++ and -- at variables. */
  function Meant(sy: Symbols, ts: seq<Token>): Option<seq<Expr>> {
    var l := ParseLine(ts);
    if l.BadLine? then None else MeaningAll(sy, l.trees)
  }

  /** An accepted line has a meaning and its code fits the text segment. */
  predicate Compilable(sy: Symbols, ts: seq<Token>) {
    Accepted(sy, ts) ==> Meant(sy, ts).Some? && |BytesOf(ProgramCode(Meant(sy, ts).value))| <= TEXT_MAX
  }

  /** For an accepted line with a meaning that is so if and only if its sum is at most 128. */
  lemma FitsIff(sy: Symbols, ts: seq<Token>)
    requires Accepted(sy, ts) && Meant(sy, ts).Some?
    ensures Compilable(sy, ts) <==> LineCost(ParseLine(ts).trees) <= TEXT_MAX
  {
    CostOfLine(sy, ParseLine(ts).trees);
    ProgramCost(Meant(sy, ts).value);
  }

  /** What is asked of a line: if it is accepted it has a meaning, and its sum is at most 128. */
  predicate Runnable(sy: Symbols, ts: seq<Token>) {
    Accepted(sy, ts) ==> Meant(sy, ts).Some? && LineCost(ParseLine(ts).trees) <= TEXT_MAX
  }

  /** Eleven nodes are few enough, whatever they are. */
  lemma ShortIsCompilable(sy: Symbols, ts: seq<Token>)
    requires Meant(sy, ts).Some? && NodesAll(Meant(sy, ts).value) <= 11
    ensures Accepted(sy, ts) && Compilable(sy, ts)
  {
    MeaningAllSize(sy, ParseLine(ts).trees);
    var es := Meant(sy, ts).value;
    if es == [] { EmptyProgram(); } else { ElevenNodesFit(es); }
  }

  // ----- a line that does not fit -----

  const STEP := [TId("x"), TInc, TSemi]
  const SIX_STEPS := STEP + (STEP + (STEP + (STEP + (STEP + (STEP + [])))))

  function Repeated(t: Tree, n: nat): seq<Tree> { if n == 0 then [] else [t] + Repeated(t, n - 1) }

  lemma StepRead(rest: seq<Token>)
    ensures ParseStatements(STEP + rest) == Before([Post(Add, Name("x"))], ParseStatements(rest))
    ensures Head(STEP + rest) != TSemi
  {
    StatementRead(Post(Add, Name("x")), rest);
    assert Print(Post(Add, Name("x"))) + [TSemi] + rest == STEP + rest;
  }

  lemma {:induction false} StepsCost(n: nat)
    ensures var trees := Repeated(Post(Add, Name("x")), n);
      && |trees| == n && SizeAll(trees) == 2 * n && KnownAll(map["x" := 0], trees)
           && MeaningAll(map["x" := 0], trees).Some?
      && LineCost(trees) == if n == 0 then 0 else 24 * n - 1
  {
    if n > 0 {
      StepsCost(n - 1);
      assert Repeated(Post(Add, Name("x")), n)[1..] == Repeated(Post(Add, Name("x")), n - 1);
    }
  }

  lemma SixRead()
    ensures ParseLine(SIX_STEPS) == Line(Repeated(Post(Add, Name("x")), 6))
  {
    var t := Post(Add, Name("x"));
    var five := STEP + (STEP + (STEP + (STEP + (STEP + []))));
    assert ParseStatements([]) == Line([]);
    hide ParseStatements;
    StepRead([]);
    StepRead(STEP + []);
    StepRead(STEP + (STEP + []));
    StepRead(STEP + (STEP + (STEP + [])));
    StepRead(STEP + (STEP + (STEP + (STEP + []))));
    StepRead(five);
    SixTrees(t);
  }

  lemma SixTrees(t: Tree)
    ensures Before([t], Before([t], Before([t], Before([t], Before([t], Before([t], Line([]))))))) ==
      Line(Repeated(t, 6))
  {
    assert Repeated(t, 2) == [t] + Repeated(t, 1) && Repeated(t, 1) == [t] + [];
    assert Repeated(t, 4) == [t] + Repeated(t, 3) && Repeated(t, 3) == [t] + Repeated(t, 2);
    assert Repeated(t, 6) == [t] + Repeated(t, 5) && Repeated(t, 5) == [t] + Repeated(t, 4);
  }

  /** Twelve nodes, which the table holds, need not fit: the line x++; six times over is accepted, but its code
      has 143 bytes. */
  lemma TwelveNodesNeedNot()
    ensures Accepted(map["x" := 0], SIX_STEPS) && Meant(map["x" := 0], SIX_STEPS).Some?
    ensures SizeAll(ParseLine(SIX_STEPS).trees) == 12 && LineCost(ParseLine(SIX_STEPS).trees) == 143
    ensures !Compilable(map["x" := 0], SIX_STEPS)
  {
    SixRead();
    StepsCost(6);
    hide ParseLine, MeaningAll, SizeAll, LineCost, KnownAll;
    FitsIff(map["x" := 0], SIX_STEPS);
  }

  /** The end of a line: it comes to a value and a memory exactly if its statements say one, and then to those they
      say, one statement after the other. */
  ghost predicate Ended(sy: Symbols, trees: seq<Tree>, before: Memory, ok: bool, value: Word, sp: nat, after: Memory) {
    if trees == [] then ok && sp == 0 && after == before
    else
      && (ok <==> exists v, n :: SaysAll(sy, trees, before, v, n))
      && (ok ==> SaysAll(sy, trees, before, value, after) && sp == 1)
  }

  /** What the parser leaves is what the compiler takes. */
  lemma Handover(sy: Symbols, ts: seq<Token>, ms: seq<Node>)
    requires Accepted(sy, ts) && Meant(sy, ts).Some?
    requires LineResult(sy, NODE_MAX, [], NULL, ParseLine(ts)).Some?
    requires Agrees(LineResult(sy, NODE_MAX, [], NULL, ParseLine(ts)).value, ms, 0)
    ensures var trees := ParseLine(ts).trees;
      Ready(ms, RootAll(trees, 0), ChainAll(trees, 0)) && EncodesAll(ms, ChainAll(trees, 0), Meant(sy, ts).value)
  {
    LineIsReady(sy, NODE_MAX, ParseLine(ts).trees, ms);
  }

  lemma AcceptedIff(sy: Symbols, ts: seq<Token>)
    ensures Accepted(sy, ts) <==> LineResult(sy, NODE_MAX, [], NULL, ParseLine(ts)).Some?
  {
    var l := ParseLine(ts);
    if l.Line? { PlantedAllIff(sy, NODE_MAX, [], NULL, l.trees); }
  }

  /** Of an empty line nothing is left on the stack. */
  method RunNothing(compiler: Compiler, vm: Vm) returns (ok: bool)
    requires vm.Valid() && vm.text == compiler.text
    modifies compiler.nodes, compiler.text, compiler`pc, vm`sp, vm`pc, vm`mem, vm.stack
    ensures vm.Valid() && ok && vm.sp == 0 && vm.mem == old(vm.mem)
  {
    EmptyProgram();
    compiler.Run(NULL, Nil, []);
    RunNoOps(compiler.text[..], 0, Machine([], vm.mem));
    assert compiler.text[..][0..] == compiler.text[..];
    ok := vm.Run();
  }

  /** finsh_run_line without its printing: the line runs exactly if it is accepted; then its outcome is that
      of its expressions, one after the other. */
  method RunTokens(parser: FinshParser, compiler: Compiler, vm: Vm) returns (ran: bool, ok: bool)
    requires parser.Valid() && parser.Nodes() == [] && parser.table == compiler.nodes && parser.table.Length == NODE_MAX
    requires vm.Valid() && vm.text == compiler.text && compiler.text.Length == TEXT_MAX
    requires Runnable(parser.symbols, parser.Rest())
    modifies parser, compiler.nodes, compiler.text, compiler`pc, vm`sp, vm`pc, vm`mem, vm.stack
    ensures vm.Valid() && ran == Accepted(parser.symbols, old(parser.Rest()))
    ensures ran ==> ParseLine(old(parser.Rest())).Line?
    ensures ran ==>
      Ended(parser.symbols, ParseLine(old(parser.Rest())).trees, old(vm.mem), ok, vm.stack[0], vm.sp, vm.mem)
    ensures !ran ==> vm.mem == old(vm.mem)
  {
    ghost var sy, ts, m := parser.symbols, parser.Rest(), vm.mem;
    hide Ended, ParseLine, Accepted, Meant, LineResult, EvalList, GivesAll, Ready, EncodesAll, ProgramCode, BytesOf;
    hide ChainAll, RootAll, SaysAll;
    AcceptedIff(sy, ts);
    var root;
    ran, root := parser.Run();
    ok := false;
    if ran {
      ghost var es, trees := Meant(sy, ts).value, ParseLine(ts).trees;
      Handover(sy, ts, compiler.nodes[..]);
      FitsIff(sy, ts);
      NothingMeant(sy, ts);
      if root == NULL {
        ok := RunNothing(compiler, vm);
        EndedEmpty(sy, ts, m, vm.stack[0]);
      } else {
        ok := RunLine(compiler, vm, root, ChainAll(trees, 0), es);
        EndedLine(sy, ts, m, ok, vm.stack[0], vm.sp, vm.mem);
      }
    }
  }

  lemma EndedEmpty(sy: Symbols, ts: seq<Token>, m: Memory, value: Word)
    requires Meant(sy, ts) == Some([]) && ParseLine(ts).Line?
    ensures Ended(sy, ParseLine(ts).trees, m, true, value, 0, m)
  {
    SomethingMeant(sy, ParseLine(ts).trees);
    hide SaysAll, ParseLine, MeaningAll;
  }

  lemma SomethingMeant(sy: Symbols, trees: seq<Tree>)
    ensures trees != [] && MeaningAll(sy, trees).Some? ==> |MeaningAll(sy, trees).value| > 0
  {
  }

  /** What the expressions of a line give is what its statements say. */
  lemma EndedLine(sy: Symbols, ts: seq<Token>, m: Memory, ok: bool, value: Word, sp: nat, after: Memory)
    requires Meant(sy, ts).Some? && ParseLine(ts).Line? && Meant(sy, ts).value != []
    requires ok <==> exists v, n :: GivesAll(Meant(sy, ts).value, m, v, n)
    requires ok ==> GivesAll(Meant(sy, ts).value, m, value, after) && sp == 1
    ensures Ended(sy, ParseLine(ts).trees, m, ok, value, sp, after)
  {
    var trees, es := ParseLine(ts).trees, Meant(sy, ts).value;
    if Head(ts) != TSemi { LineCanonical(ts); }
    assert trees != [] && EachCanonical(trees);
    hide *;
    forall v, n
      ensures SaysAll(sy, trees, m, v, n) <==> GivesAll(es, m, v, n)
    {
      LineIff(sy, ts, m, v, n);
    }
    SameEnd(sy, trees, es, m, ok, value, sp, after);
  }

  lemma LineIff(sy: Symbols, ts: seq<Token>, m: Memory, v: Word, n: Memory)
    requires ParseLine(ts).Line? && Meant(sy, ts).Some? && ParseLine(ts).trees != []
    requires EachCanonical(ParseLine(ts).trees)
    ensures Meant(sy, ts).value != []
    ensures SaysAll(sy, ParseLine(ts).trees, m, v, n) <==> GivesAll(Meant(sy, ts).value, m, v, n)
  {
    AllIff(sy, ParseLine(ts).trees, m, v, n);
    hide ParseLine, MeaningAll, SaysAll, GivesAll, EachCanonical;
  }

  lemma SameEnd(sy: Symbols, trees: seq<Tree>, es: seq<Expr>, m: Memory, ok: bool, value: Word, sp: nat, after: Memory)
    requires trees != [] && es != []
    requires forall v, n :: SaysAll(sy, trees, m, v, n) <==> GivesAll(es, m, v, n)
    requires ok <==> exists v, n :: GivesAll(es, m, v, n)
    requires ok ==> GivesAll(es, m, value, after) && sp == 1
    ensures Ended(sy, trees, m, ok, value, sp, after)
  {
    hide GivesAll, SaysAll;
    if v, n :| SaysAll(sy, trees, m, v, n) { assert GivesAll(es, m, v, n); }
    if ok { assert SaysAll(sy, trees, m, value, after); }
  }

  lemma NothingMeant(sy: Symbols, ts: seq<Token>)
    requires Meant(sy, ts).Some? && ParseLine(ts).Line?
    ensures RootAll(ParseLine(ts).trees, 0) == NULL <==> Meant(sy, ts).value == []
  {
    MeaningAllSize(sy, ParseLine(ts).trees);
  }
}
