/** The expression grammar of the finsh shell on tokens: the parser of finsh_parser.c as functions, the
    printing of a tree, and that parsing undoes printing. */
module FinshGrammar {
  import opened FinshExpr

  datatype Token =
    | TId(name: string) | TValue(word: Word) | TOp(op: BinOp) | TInc | TDec | TTilde | TAssign | TSemi | TEnd | TOther

  datatype Prefix = PlusPlus | MinusMinus | Minus | Tilde | Star | Ampersand

  /** A parse tree; Pre(Minus, _) is what the parser makes of a leading minus: 0 minus the operand. */
  datatype Tree =
    | Name(name: string)
    | Value(word: Word)
    | Bin(op: BinOp, left: Tree, right: Tree)
    | Pre(prefix: Prefix, arg: Tree)
    | Post(step: BinOp, arg: Tree)       // ++ is Add, -- is Sub
    | Assignment(lhs: Tree, rhs: Tree)

  datatype Parsed = Fail | Got(tree: Tree, rest: seq<Token>)

  // ----- levels -----

  const ASSIGN := 0
  const UNARY := 7
  const POSTFIX := 8
  const PRIMARY := 9

  /** The grammar's levels of the binary operators, | the lowest. */
  function LevelOf(op: BinOp): (k: nat)
    ensures 1 <= k < UNARY
  {
    match op
    case Or => 1
    case Xor => 2
    case And => 3
    case Shl => 4
    case Shr => 4
    case Add => 5
    case Sub => 5
    case Mul => 6
    case Div => 6
    case Mod => 6
  }

  // ----- the parser -----

  function Head(ts: seq<Token>): Token { if ts == [] then TEnd else ts[0] }

  /** expr_assign: an operand and, after =, the rest of the assignment. */
  function ParseAssign(ts: seq<Token>): (r: Parsed)
    ensures r.Got? ==> |r.rest| < |ts|
    decreases |ts|, 20
  {
    match ParseLevel(1, ts)
    case Fail => Fail
    case Got(l, rest) =>
      if Head(rest) != TAssign then Got(l, rest)
      else
        match ParseAssign(rest[1..])
        case Fail => Fail
        case Got(r, rest2) => Got(Assignment(l, r), rest2)
  }

  /** The level of an operator: an operand of the next level, then the loop over more of them. */
  function ParseLevel(k: nat, ts: seq<Token>): (r: Parsed)
    requires 1 <= k <= UNARY
    ensures r.Got? ==> |r.rest| < |ts|
    decreases |ts|, 19 - k
  {
    if k == UNARY then ParseUnary(ts)
    else
      match ParseLevel(k + 1, ts)
      case Fail => Fail
      case Got(l, rest) => ParseMore(k, l, rest)
  }

  function ParseMore(k: nat, l: Tree, ts: seq<Token>): (r: Parsed)
    requires 1 <= k < UNARY
    ensures r.Got? ==> |r.rest| <= |ts|
    decreases |ts|, 10
  {
    if Head(ts).TOp? && LevelOf(ts[0].op) == k then
      match ParseLevel(k + 1, ts[1..])
      case Fail => Fail
      case Got(r, rest) => ParseMore(k, Bin(ts[0].op, l, r), rest)
    else Got(l, ts)
  }

  /** The prefix operators; a leading plus is dropped. */
  function PrefixOf(t: Token): Option<Prefix> {
    match t
    case TInc => Some(PlusPlus)
    case TDec => Some(MinusMinus)
    case TTilde => Some(Tilde)
    case TOp(op) =>
      if op == Sub then Some(Minus)
      else if op == Mul then Some(Star)
      else if op == And then Some(Ampersand)
      else None
    case _ => None
  }

  function ParseUnary(ts: seq<Token>): (r: Parsed)
    ensures r.Got? ==> |r.rest| < |ts|
    decreases |ts|, 11
  {
    if Head(ts) == TOp(Add) then ParseUnary(ts[1..])
    else if PrefixOf(Head(ts)).Some? then
      match ParseUnary(ts[1..])
      case Fail => Fail
      case Got(t, rest) => Got(Pre(PrefixOf(ts[0]).value, t), rest)
    else ParsePostfix(ts)
  }

  function ParsePostfix(ts: seq<Token>): (r: Parsed)
    ensures r.Got? ==> |r.rest| < |ts|
    decreases |ts|, 5
  {
    match Head(ts)
    case TId(name) => ParseSteps(Name(name), ts[1..])
    case TValue(w) => ParseSteps(Value(w), ts[1..])
    case _ => Fail
  }

  function ParseSteps(t: Tree, ts: seq<Token>): (r: Parsed)
    ensures r.Got? && |r.rest| <= |ts|
    decreases |ts|
  {
    if Head(ts) == TInc then ParseSteps(Post(Add, t), ts[1..])
    else if Head(ts) == TDec then ParseSteps(Post(Sub, t), ts[1..])
    else Got(t, ts)
  }

  // ----- printing -----

  function PrefixToken(p: Prefix): Token {
    match p
    case PlusPlus => TInc
    case MinusMinus => TDec
    case Minus => TOp(Sub)
    case Tilde => TTilde
    case Star => TOp(Mul)
    case Ampersand => TOp(And)
  }

  function Print(t: Tree): (ts: seq<Token>)
    ensures ts != []
  {
    match t
    case Name(name) => [TId(name)]
    case Value(w) => [TValue(w)]
    case Bin(op, l, r) => Print(l) + ([TOp(op)] + Print(r))
    case Pre(p, arg) => [PrefixToken(p)] + Print(arg)
    case Post(step, arg) => Print(arg) + [StepToken(step)]
    case Assignment(l, r) => Print(l) + ([TAssign] + Print(r))
  }

  function StepToken(step: BinOp): Token { if step == Add then TInc else TDec }

  function Level(t: Tree): (k: nat)
    ensures k <= PRIMARY
  {
    match t
    case Name(_) => PRIMARY
    case Value(_) => PRIMARY
    case Bin(op, _, _) => LevelOf(op)
    case Pre(_, _) => UNARY
    case Post(_, _) => POSTFIX
    case Assignment(_, _) => ASSIGN
  }

  /** The trees of the grammar: operands of a binary operator at its level on the left and above it on the
      right, assignment to the right, no need for parentheses. */
  predicate Canonical(t: Tree) {
    match t
    case Name(_) => true
    case Value(_) => true
    case Bin(op, l, r) => Canonical(l) && Canonical(r) && Level(l) >= LevelOf(op) && Level(r) > LevelOf(op)
    case Pre(_, arg) => Canonical(arg) && Level(arg) >= UNARY
    case Post(step, arg) => Canonical(arg) && Level(arg) >= POSTFIX && (step == Add || step == Sub)
    case Assignment(l, r) => Canonical(l) && Canonical(r) && Level(l) >= 1
  }

  /** No level from k up goes on with the token at the head of ts. */
  predicate Stops(k: nat, ts: seq<Token>) {
    match Head(ts)
    case TOp(op) => LevelOf(op) < k
    case TInc => POSTFIX < k
    case TDec => POSTFIX < k
    case TAssign => ASSIGN < k
    case _ => true
  }

  // ----- parsing undoes printing -----

  lemma StopsHigher(k: nat, j: nat, ts: seq<Token>)
    requires Stops(k, ts) && k <= j
    ensures Stops(j, ts)
  {
  }

  /** A postfix tree is read by the loop over ++ and --. */
  lemma {:induction false} PostfixRead(t: Tree, rest: seq<Token>)
    requires Canonical(t) && Level(t) >= POSTFIX
    ensures ParsePostfix(Print(t) + rest) == ParseSteps(t, rest)
    decreases t
  {
    match t
    case Name(_) => assert (Print(t) + rest)[1..] == rest;
    case Value(_) => assert (Print(t) + rest)[1..] == rest;
    case Post(step, arg) =>
      var more := [StepToken(step)] + rest;
      assert Print(t) + rest == Print(arg) + more;
      PostfixRead(arg, more);
      assert more[1..] == rest;
  }

  /** No postfix tree begins like a prefix operator. */
  lemma {:induction false} PostfixHead(t: Tree, rest: seq<Token>)
    requires Canonical(t) && Level(t) >= POSTFIX
    ensures Head(Print(t) + rest) == Head(Print(t)) && (Head(Print(t)).TId? || Head(Print(t)).TValue?)
    decreases t
  {
    match t
    case Name(_) =>
    case Value(_) =>
    case Post(step, arg) => PostfixHead(arg, []); assert Print(arg) + [] == Print(arg);
  }

  lemma PrefixBack(p: Prefix)
    ensures PrefixOf(PrefixToken(p)) == Some(p) && PrefixToken(p) != TOp(Add)
  {
  }

  lemma {:induction false} UnaryRead(t: Tree, rest: seq<Token>)
    requires Canonical(t) && Level(t) >= UNARY && Stops(UNARY, rest)
    ensures ParseUnary(Print(t) + rest) == Got(t, rest)
    decreases t
  {
    if t.Pre? {
      PrefixBack(t.prefix);
      UnaryRead(t.arg, rest);
      assert Print(t) + rest == [PrefixToken(t.prefix)] + (Print(t.arg) + rest);
      assert (Print(t) + rest)[1..] == Print(t.arg) + rest;
    } else {
      PostfixHead(t, rest);
      PostfixRead(t, rest);
    }
  }

  /** A tree of a level from k up is read at level k; before an operator of level k the loop goes on with
      it as the left operand. */
  lemma {:induction false} OperandRead(k: nat, t: Tree, rest: seq<Token>)
    requires 1 <= k <= UNARY && Canonical(t) && Level(t) >= k && Stops(k + 1, rest)
    ensures ParseLevel(k, Print(t) + rest) == if k == UNARY then Got(t, rest) else ParseMore(k, t, rest)
    decreases t, UNARY - k
  {
    if k == UNARY {
      StopsAtUnary(t, rest);
    } else if Level(t) > k {
      StopsHigher(k + 1, k + 2, rest);
      OperandRead(k + 1, t, rest);
      MoreStops(k + 1, t, rest);
    } else {
      var more := [TOp(t.op)] + (Print(t.right) + rest);
      assert Print(t) + rest == Print(t.left) + more;
      OperandRead(k, t.left, more);
      assert more[1..] == Print(t.right) + rest;
      StopsHigher(k + 1, k + 2, rest);
      OperandRead(k + 1, t.right, rest);
      MoreStops(k + 1, t.right, rest);
    }
  }

  lemma StopsAtUnary(t: Tree, rest: seq<Token>)
    requires Canonical(t) && Level(t) >= UNARY && Stops(UNARY + 1, rest)
    ensures ParseLevel(UNARY, Print(t) + rest) == Got(t, rest)
  {
    UnaryRead(t, rest);
  }

  /** The loop of a level stops at a token of a lower one. */
  lemma MoreStops(k: nat, t: Tree, rest: seq<Token>)
    requires 1 <= k <= UNARY && Stops(k, rest)
    ensures k < UNARY ==> ParseMore(k, t, rest) == Got(t, rest)
  {
  }

  lemma {:induction false} AssignRead(t: Tree, rest: seq<Token>)
    requires Canonical(t) && Stops(ASSIGN, rest)
    ensures ParseAssign(Print(t) + rest) == Got(t, rest)
    decreases t
  {
    if t.Assignment? {
      var more := [TAssign] + (Print(t.rhs) + rest);
      assert Print(t) + rest == Print(t.lhs) + more;
      OperandRead(1, t.lhs, more);
      MoreStops(1, t.lhs, more);
      assert more[1..] == Print(t.rhs) + rest;
      AssignRead(t.rhs, rest);
    } else {
      StopsHigher(ASSIGN, 2, rest);
      OperandRead(1, t, rest);
      StopsHigher(ASSIGN, 1, rest);
      MoreStops(1, t, rest);
    }
  }

  // ----- whatever parses is canonical -----

  lemma {:induction false} MoreCanonical(k: nat, l: Tree, ts: seq<Token>)
    requires 1 <= k < UNARY && Canonical(l) && Level(l) >= k
    ensures var r := ParseMore(k, l, ts); r.Got? ==> Canonical(r.tree) && Level(r.tree) >= k
    decreases |ts|, 10
  {
    if Head(ts).TOp? && LevelOf(ts[0].op) == k {
      LevelCanonical(k + 1, ts[1..]);
      match ParseLevel(k + 1, ts[1..])
      case Fail =>
      case Got(r, rest) => MoreCanonical(k, Bin(ts[0].op, l, r), rest);
    }
  }

  lemma {:induction false} LevelCanonical(k: nat, ts: seq<Token>)
    requires 1 <= k <= UNARY
    ensures var r := ParseLevel(k, ts); r.Got? ==> Canonical(r.tree) && Level(r.tree) >= k
    decreases |ts|, 19 - k
  {
    if k == UNARY {
      UnaryCanonical(ts);
    } else {
      LevelCanonical(k + 1, ts);
      match ParseLevel(k + 1, ts)
      case Fail =>
      case Got(l, rest) => MoreCanonical(k, l, rest);
    }
  }

  lemma {:induction false} UnaryCanonical(ts: seq<Token>)
    ensures var r := ParseUnary(ts); r.Got? ==> Canonical(r.tree) && Level(r.tree) >= UNARY
    decreases |ts|, 11
  {
    if Head(ts) == TOp(Add) || PrefixOf(Head(ts)).Some? {
      UnaryCanonical(ts[1..]);
    } else if Head(ts).TId? {
      StepsCanonical(Name(ts[0].name), ts[1..]);
    } else if Head(ts).TValue? {
      StepsCanonical(Value(ts[0].word), ts[1..]);
    }
  }

  lemma {:induction false} StepsCanonical(t: Tree, ts: seq<Token>)
    requires Canonical(t) && Level(t) >= POSTFIX
    ensures var r := ParseSteps(t, ts); r.Got? && Canonical(r.tree) && Level(r.tree) >= POSTFIX
    decreases |ts|
  {
    if Head(ts) == TInc {
      StepsCanonical(Post(Add, t), ts[1..]);
    } else if Head(ts) == TDec {
      StepsCanonical(Post(Sub, t), ts[1..]);
    }
  }

  /** The canonical trees are exactly those the parser makes. */
  lemma {:induction false} AssignCanonical(ts: seq<Token>)
    ensures var r := ParseAssign(ts); r.Got? ==> Canonical(r.tree)
    decreases |ts|
  {
    LevelCanonical(1, ts);
    match ParseLevel(1, ts)
    case Fail =>
    case Got(l, rest) => if Head(rest) == TAssign { AssignCanonical(rest[1..]); }
  }
}
