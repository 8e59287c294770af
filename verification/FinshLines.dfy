/** A line of statements as finsh_parser_run reads it, and when that is what the grammar says. */
module FinshLines {
  import opened FinshExpr
  import opened FinshGrammar

  datatype Line = BadLine | Line(trees: seq<Tree>)

  function Tail(ts: seq<Token>): seq<Token> { if ts == [] then [] else ts[1..] }

  /** finsh_parser_run on expression statements: an empty first statement ends it. */
  function ParseLine(ts: seq<Token>): Line {
    if Head(ts) == TSemi then Line([]) else ParseStatements(ts)
  }

  /** Its loop once there is a statement: an empty one takes the token after it along. */
  function ParseStatements(ts: seq<Token>): Line
    decreases |ts|
  {
    if Head(ts) == TEnd then Line([])
    else if Head(ts) == TSemi then ParseStatements(Tail(ts[1..]))
    else
      match ParseAssign(ts)
      case Fail => BadLine
      case Got(t, rest) => if Head(rest) != TSemi then BadLine else Before([t], ParseStatements(rest[1..]))
  }

  function Before(trees: seq<Tree>, l: Line): Line { if l.BadLine? then BadLine else Line(trees + l.trees) }

  /** A statement of the grammar: an expression or nothing, and a semicolon. */
  function PrintItems(items: seq<Option<Tree>>): seq<Token> {
    if items == [] then [] else PrintItem(items[0]) + PrintItems(items[1..])
  }

  function PrintItem(item: Option<Tree>): seq<Token> { if item.None? then [TSemi] else Print(item.value) + [TSemi] }

  /** The expressions among the statements: what the line should be parsed to. */
  function Trees(items: seq<Option<Tree>>): seq<Tree> {
    if items == [] then [] else (if items[0].None? then [] else [items[0].value]) + Trees(items[1..])
  }

  predicate AllCanonical(items: seq<Option<Tree>>) {
    forall k :: 0 <= k < |items| && items[k].Some? ==> Canonical(items[k].value)
  }

  /** Between an expression and the next the number of empty statements is even. */
  predicate InPairs(items: seq<Option<Tree>>) {
    if items == [] then true
    else if items[0].Some? then InPairs(items[1..])
    else |items| == 1 || (items[1].None? && InPairs(items[2..]))
  }

  /** And there is none before the first. */
  predicate Spared(items: seq<Option<Tree>>) { Trees(items) == [] || (items[0].Some? && InPairs(items)) }

  // ----- what is read -----

  lemma {:induction false} PrintHead(t: Tree, rest: seq<Token>)
    ensures Head(Print(t) + rest) == Head(Print(t)) && Head(Print(t)) != TEnd && Head(Print(t)) != TSemi
    decreases t
  {
    match t
    case Name(_) =>
    case Value(_) =>
    case Bin(op, l, r) => PrintHead(l, [TOp(op)] + Print(r));
    case Pre(p, arg) => PrintHead(arg, []);
    case Post(step, arg) => PrintHead(arg, [StepToken(step)]);
    case Assignment(l, r) => PrintHead(l, [TAssign] + Print(r));
  }

  /** A statement that is an expression is read. */
  lemma StatementRead(t: Tree, rest: seq<Token>)
    requires Canonical(t)
    ensures ParseStatements(Print(t) + [TSemi] + rest) == Before([t], ParseStatements(rest))
  {
    var more := [TSemi] + rest;
    assert Print(t) + [TSemi] + rest == Print(t) + more;
    PrintHead(t, more);
    AssignRead(t, more);
    assert more[1..] == rest;
  }

  /** An empty one takes a token with it. */
  lemma EmptyRead(rest: seq<Token>)
    ensures ParseStatements([TSemi] + rest) == ParseStatements(Tail(rest))
  {
    assert ([TSemi] + rest)[1..] == rest;
  }

  lemma ItemsUnfold(items: seq<Option<Tree>>, rest: seq<Token>)
    requires items != []
    ensures PrintItems(items) + rest == PrintItem(items[0]) + (PrintItems(items[1..]) + rest)
  {
  }

  /** With the empty statements in pairs the loop reads every expression. */
  lemma {:induction false} PairsRead(items: seq<Option<Tree>>)
    requires AllCanonical(items) && InPairs(items)
    ensures ParseStatements(PrintItems(items)) == Line(Trees(items))
    decreases |items|
  {
    if items != [] {
      ItemsUnfold(items, []);
      if items[0].Some? {
        assert Canonical(items[0].value);
        PairsRead(items[1..]);
        StatementRead(items[0].value, PrintItems(items[1..]));
      } else if |items| > 1 {
        PairsRead(items[2..]);
        EmptyRead(PrintItems(items[1..]));
        assert PrintItems(items[1..]) == [TSemi] + PrintItems(items[1..][1..]);
        assert items[1..][1..] == items[2..];
        assert Tail(PrintItems(items[1..])) == PrintItems(items[2..]);
      } else {
        EmptyRead([]);
      }
    }
  }

  // ----- what is lost -----

  /** The tokens that are not semicolons. */
  function Count(ts: seq<Token>): nat {
    if ts == [] then 0 else (if ts[0] == TSemi then 0 else 1) + Count(ts[1..])
  }

  function Weight(trees: seq<Tree>): nat { if trees == [] then 0 else |Print(trees[0])| + Weight(trees[1..]) }

  lemma {:induction false} CountJoin(a: seq<Token>, b: seq<Token>)
    ensures Count(a + b) == Count(a) + Count(b)
    decreases |a|
  {
    if a == [] {
      assert a + b == b;
    } else {
      assert (a + b)[1..] == a[1..] + b;
      CountJoin(a[1..], b);
    }
  }

  lemma {:induction false} CountPrint(t: Tree)
    ensures Count(Print(t)) == |Print(t)|
    decreases t
  {
    match t
    case Name(_) =>
    case Value(_) =>
    case Bin(op, l, r) =>
      CountPrint(l); CountPrint(r); CountJoin([TOp(op)], Print(r)); CountJoin(Print(l), [TOp(op)] + Print(r));
    case Pre(p, arg) => CountPrint(arg); CountJoin([PrefixToken(p)], Print(arg));
    case Post(step, arg) => CountPrint(arg); CountJoin(Print(arg), [StepToken(step)]);
    case Assignment(l, r) =>
      CountPrint(l); CountPrint(r); CountJoin([TAssign], Print(r)); CountJoin(Print(l), [TAssign] + Print(r));
  }

  /** What was parsed is no longer than the tokens it was parsed from. */
  predicate NoLonger(had: nat, r: Parsed) { r.Got? ==> |Print(r.tree)| + Count(r.rest) <= had }

  lemma {:induction false} MoreCount(k: nat, l: Tree, ts: seq<Token>)
    requires 1 <= k < UNARY
    ensures NoLonger(|Print(l)| + Count(ts), ParseMore(k, l, ts))
    decreases |ts|, 10
  {
    if Head(ts).TOp? && LevelOf(ts[0].op) == k {
      LevelCount(k + 1, ts[1..]);
      match ParseLevel(k + 1, ts[1..])
      case Fail =>
      case Got(r, rest) => MoreCount(k, Bin(ts[0].op, l, r), rest);
    }
  }

  lemma {:induction false} LevelCount(k: nat, ts: seq<Token>)
    requires 1 <= k <= UNARY
    ensures NoLonger(Count(ts), ParseLevel(k, ts))
    decreases |ts|, 19 - k
  {
    if k == UNARY {
      UnaryCount(ts);
    } else {
      LevelCount(k + 1, ts);
      match ParseLevel(k + 1, ts)
      case Fail =>
      case Got(l, rest) => MoreCount(k, l, rest);
    }
  }

  lemma {:induction false} UnaryCount(ts: seq<Token>)
    ensures NoLonger(Count(ts), ParseUnary(ts))
    decreases |ts|, 11
  {
    if Head(ts) == TOp(Add) || PrefixOf(Head(ts)).Some? {
      UnaryCount(ts[1..]);
    } else if Head(ts).TId? {
      StepsCount(Name(ts[0].name), ts[1..]);
    } else if Head(ts).TValue? {
      StepsCount(Value(ts[0].word), ts[1..]);
    }
  }

  lemma {:induction false} StepsCount(t: Tree, ts: seq<Token>)
    ensures NoLonger(|Print(t)| + Count(ts), ParseSteps(t, ts))
    decreases |ts|
  {
    if Head(ts) == TInc {
      StepsCount(Post(Add, t), ts[1..]);
    } else if Head(ts) == TDec {
      StepsCount(Post(Sub, t), ts[1..]);
    }
  }

  lemma {:induction false} AssignCount(ts: seq<Token>)
    ensures NoLonger(Count(ts), ParseAssign(ts))
    decreases |ts|
  {
    LevelCount(1, ts);
    match ParseLevel(1, ts)
    case Fail =>
    case Got(l, rest) => if Head(rest) == TAssign { AssignCount(rest[1..]); }
  }

  lemma TailCount(ts: seq<Token>)
    ensures Count(Tail(ts)) == Count(ts) - if ts != [] && ts[0] != TSemi then 1 else 0
  {
  }

  lemma {:induction false} StatementsCount(ts: seq<Token>)
    ensures ParseStatements(ts).Line? ==> Weight(ParseStatements(ts).trees) <= Count(ts)
    decreases |ts|
  {
    if Head(ts) == TEnd {
    } else if Head(ts) == TSemi {
      StatementsCount(Tail(ts[1..]));
      TailCount(ts[1..]);
    } else {
      AssignCount(ts);
      match ParseAssign(ts)
      case Fail =>
      case Got(t, rest) =>
        if Head(rest) == TSemi {
          var l := ParseStatements(rest[1..]);
          StatementsCount(rest[1..]);
          if l.Line? { WeightBefore(t, l); }
        }
    }
  }

  lemma WeightBefore(t: Tree, l: Line)
    requires l.Line?
    ensures Before([t], l).Line? && Weight(Before([t], l).trees) == |Print(t)| + Weight(l.trees)
  {
    assert ([t] + l.trees)[1..] == l.trees;
  }

  lemma {:induction false} CountItems(items: seq<Option<Tree>>)
    ensures Count(PrintItems(items)) == Weight(Trees(items))
    decreases |items|
  {
    if items != [] {
      CountItems(items[1..]);
      CountJoin(PrintItem(items[0]), PrintItems(items[1..]));
      if items[0].Some? {
        CountPrint(items[0].value);
        CountJoin(Print(items[0].value), [TSemi]);
        assert Trees(items)[1..] == Trees(items[1..]);
      } else {
        assert Trees(items) == Trees(items[1..]);
      }
    }
  }

  /** An empty statement left over costs the next expression its first token. */
  lemma {:induction false} OddOneLoses(items: seq<Option<Tree>>)
    requires AllCanonical(items) && !InPairs(items)
    ensures ParseStatements(PrintItems(items)).Line? ==>
      Weight(ParseStatements(PrintItems(items)).trees) < Weight(Trees(items))
    decreases |items|
  {
    ItemsUnfold(items, []);
    if items[0].Some? {
      assert Canonical(items[0].value);
      OddOneLoses(items[1..]);
      StatementRead(items[0].value, PrintItems(items[1..]));
      var l := ParseStatements(PrintItems(items[1..]));
      if l.Line? { WeightBefore(items[0].value, l); }
      assert Trees(items)[1..] == Trees(items[1..]);
    } else {
      EmptyRead(PrintItems(items[1..]));
      assert Trees(items) == Trees(items[1..]);
      if items[1].None? {
        OddOneLoses(items[2..]);
        assert items[1..][1..] == items[2..];
        assert Tail(PrintItems(items[1..])) == PrintItems(items[2..]);
        assert Trees(items[1..]) == Trees(items[2..]);
      } else {
        Swallowed(items[1..]);
      }
    }
  }

  lemma Swallowed(items: seq<Option<Tree>>)
    requires items != [] && items[0].Some?
    ensures var l := ParseStatements(Tail(PrintItems(items))); l.Line? ==> Weight(l.trees) < Weight(Trees(items))
  {
    StatementsCount(Tail(PrintItems(items)));
    TailCount(PrintItems(items));
    hide ParseStatements, Tail, Count, Weight, Trees;
    PrintHead(items[0].value, [TSemi] + PrintItems(items[1..]));
    assert PrintItems(items) == Print(items[0].value) + ([TSemi] + PrintItems(items[1..]));
    CountItems(items);
  }

  // ----- parsing undoes printing -----

  /** A line that begins with an expression is read by the loop. */
  lemma FirstIsRead(items: seq<Option<Tree>>)
    requires items != [] && items[0].Some?
    ensures ParseLine(PrintItems(items)) == ParseStatements(PrintItems(items)) && Trees(items) != []
  {
    hide ParseStatements, Print;
    PrintHead(items[0].value, [TSemi] + PrintItems(items[1..]));
    assert PrintItems(items) == Print(items[0].value) + ([TSemi] + PrintItems(items[1..]));
  }

  /** One that begins with an empty statement, or is empty, is read as nothing. */
  lemma RestIsNot(items: seq<Option<Tree>>)
    requires items == [] || items[0].None?
    ensures ParseLine(PrintItems(items)) == Line([])
  {
  }

  /** A line is parsed to its expressions if and only if no empty statement comes before the first one and
      between each and the next their number is even. */
  lemma ParseUndoesPrintIff(items: seq<Option<Tree>>)
    requires AllCanonical(items)
    ensures ParseLine(PrintItems(items)) == Line(Trees(items)) <==> Spared(items)
  {
    hide ParseLine, ParseStatements, PrintItems, Trees, InPairs, AllCanonical, Weight;
    if items == [] || items[0].None? {
      RestIsNot(items);
      NoTrees(items);
    } else {
      FirstIsRead(items);
      if InPairs(items) { PairsRead(items); } else { OddOneLoses(items); }
    }
  }

  lemma NoTrees(items: seq<Option<Tree>>)
    ensures items == [] ==> Trees(items) == []
  {
  }

  /** A minus lost: the line 1;;-2; is parsed as 1; 2; */
  lemma EmptyStatementTakesMinus()
    ensures var items := [Some(Value(1)), None, Some(Pre(Minus, Value(2)))];
      && AllCanonical(items) && ParseLine(PrintItems(items)) == Line([Value(1), Value(2)])
  {
    var last := [Some(Pre(Minus, Value(2)))];
    var rest, items := [None] + last, [Some(Value(1))] + ([None] + last);
    assert items == [Some(Value(1)), None, Some(Pre(Minus, Value(2)))];
    MinusPrinted();
    FirstIsRead(items);
    hide ParseStatements, ParseLine;
    StatementRead(Value(1), PrintItems(rest));
    EmptyRead(PrintItems(last));
    StatementRead(Value(2), []);
    assert [TValue(2)] + [TSemi] + [] == [TValue(2), TSemi];
    assert ParseStatements([]) == Line([]) by { NothingRead(); }
  }

  lemma NothingRead()
    ensures ParseStatements([]) == Line([])
  {
  }

  lemma MinusPrinted()
    ensures PrintItems([Some(Pre(Minus, Value(2)))]) == [TOp(Sub), TValue(2), TSemi]
  {
  }

  function Items(trees: seq<Tree>): seq<Option<Tree>> { seq(|trees|, k requires 0 <= k < |trees| => Some(trees[k])) }

  /** In particular parsing undoes the printing of any list of expressions. */
  lemma {:induction false} ParseUndoesPrint(trees: seq<Tree>)
    requires forall k :: 0 <= k < |trees| ==> Canonical(trees[k])
    ensures ParseLine(PrintItems(Items(trees))) == Line(trees)
  {
    ItemsPaired(trees);
    ParseUndoesPrintIff(Items(trees));
  }

  lemma {:induction false} ItemsPaired(trees: seq<Tree>)
    ensures Trees(Items(trees)) == trees && InPairs(Items(trees))
    decreases |trees|
  {
    if trees != [] {
      assert Items(trees)[1..] == Items(trees[1..]);
      ItemsPaired(trees[1..]);
    }
  }

  /** So no two lists of canonical trees are printed alike. */
  lemma PrintIsInjective(a: seq<Tree>, b: seq<Tree>)
    requires forall k :: 0 <= k < |a| ==> Canonical(a[k])
    requires forall k :: 0 <= k < |b| ==> Canonical(b[k])
    requires PrintItems(Items(a)) == PrintItems(Items(b))
    ensures a == b
  {
    ParseUndoesPrint(a);
    ParseUndoesPrint(b);
  }
}
