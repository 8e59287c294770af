/** Which operator of a finsh line binds tighter, said without the grammar's levels. */
module FinshPrecedence {
  import opened FinshExpr
  import opened FinshGrammar

  /** C's order of the binary operators: * / % before + - before << >> before & before ^ before |. */
  predicate Tighter(q: BinOp, p: BinOp) {
    match q
    case Mul => Additive(p) || Shifting(p) || Bits(p)
    case Div => Additive(p) || Shifting(p) || Bits(p)
    case Mod => Additive(p) || Shifting(p) || Bits(p)
    case Add => Shifting(p) || Bits(p)
    case Sub => Shifting(p) || Bits(p)
    case Shl => Bits(p)
    case Shr => Bits(p)
    case And => p.Xor? || p.Or?
    case Xor => p.Or?
    case Or => false
  }

  predicate Additive(p: BinOp) { p.Add? || p.Sub? }
  predicate Shifting(p: BinOp) { p.Shl? || p.Shr? }
  predicate Bits(p: BinOp) { p.And? || p.Xor? || p.Or? }

  /** A name or a number with any number of ++ and -- behind it. */
  predicate Suffixed(t: Tree) {
    t.Name? || t.Value? || (t.Post? && (t.step == Add || t.step == Sub) && Suffixed(t.arg))
  }

  /** One of these with any number of prefix operators before it: an operand of a binary operator. */
  predicate Operand(t: Tree) { Suffixed(t) || (t.Pre? && Operand(t.arg)) }

  predicate Ended(rest: seq<Token>) { rest == [] || rest[0] == TSemi || rest[0] == TEnd }

  lemma {:induction false} SuffixedCanonical(t: Tree)
    requires Suffixed(t)
    ensures Canonical(t) && Level(t) >= POSTFIX
  {
    if t.Post? { SuffixedCanonical(t.arg); }
  }

  lemma {:induction false} OperandCanonical(t: Tree)
    requires Operand(t)
    ensures Canonical(t) && Level(t) >= UNARY
  {
    if Suffixed(t) { SuffixedCanonical(t); } else { OperandCanonical(t.arg); }
  }

  lemma TighterIff(q: BinOp, p: BinOp)
    ensures Tighter(q, p) <==> LevelOf(q) > LevelOf(p)
  {
  }

  /** Of two operators in a row the right one takes the operand between them if and only if it binds tighter. */
  lemma TighterFirst(a: Tree, p: BinOp, b: Tree, q: BinOp, c: Tree, rest: seq<Token>)
    requires Operand(a) && Operand(b) && Operand(c) && Ended(rest)
    ensures ParseAssign(Print(a) + [TOp(p)] + Print(b) + [TOp(q)] + Print(c) + rest) ==
      Got(if Tighter(q, p) then Bin(p, a, Bin(q, b, c)) else Bin(q, Bin(p, a, b), c), rest)
  {
    OperandCanonical(a);
    OperandCanonical(b);
    OperandCanonical(c);
    TighterIff(q, p);
    var t := if Tighter(q, p) then Bin(p, a, Bin(q, b, c)) else Bin(q, Bin(p, a, b), c);
    assert Print(t) == Print(a) + [TOp(p)] + Print(b) + [TOp(q)] + Print(c) by { ThreePrinted(a, p, b, q, c); }
    hide Tighter, Operand, Print;
    AssignRead(t, rest);
  }

  lemma ThreePrinted(a: Tree, p: BinOp, b: Tree, q: BinOp, c: Tree)
    ensures Print(Bin(p, a, Bin(q, b, c))) == Print(a) + [TOp(p)] + Print(b) + [TOp(q)] + Print(c)
    ensures Print(Bin(q, Bin(p, a, b), c)) == Print(a) + [TOp(p)] + Print(b) + [TOp(q)] + Print(c)
  {
    BinPrinted(q, b, c);
    BinPrinted(p, a, Bin(q, b, c));
    BinPrinted(p, a, b);
    BinPrinted(q, Bin(p, a, b), c);
    hide *;
    Flat(Print(a), [TOp(p)], Print(b), [TOp(q)], Print(c));
  }

  lemma BinPrinted(op: BinOp, l: Tree, r: Tree)
    ensures Print(Bin(op, l, r)) == Print(l) + ([TOp(op)] + Print(r))
  {
  }

  lemma AssignPrinted(l: Tree, r: Tree)
    ensures Print(Assignment(l, r)) == Print(l) + ([TAssign] + Print(r))
  {
  }

  lemma Flat(a: seq<Token>, p: seq<Token>, b: seq<Token>, q: seq<Token>, c: seq<Token>)
    ensures a + (p + (b + (q + c))) == a + p + b + q + c == (a + (p + b)) + (q + c)
  {
  }

  /** Any binary operator binds tighter than =, which groups to the right. */
  lemma AssignLoosest(a: Tree, b: Tree, p: BinOp, c: Tree, d: Tree, rest: seq<Token>)
    requires Operand(a) && Operand(b) && Operand(c) && Operand(d) && Ended(rest)
    ensures ParseAssign(Print(a) + [TAssign] + Print(b) + [TAssign] + Print(c) + [TOp(p)] + Print(d) + rest) ==
      Got(Assignment(a, Assignment(b, Bin(p, c, d))), rest)
  {
    OperandCanonical(a);
    OperandCanonical(b);
    OperandCanonical(c);
    OperandCanonical(d);
    var t := Assignment(a, Assignment(b, Bin(p, c, d)));
    AssignsPrinted(a, b, p, c, d);
    hide Operand, Print;
    AssignRead(t, rest);
  }

  lemma AssignsPrinted(a: Tree, b: Tree, p: BinOp, c: Tree, d: Tree)
    ensures Print(Assignment(a, Assignment(b, Bin(p, c, d)))) ==
      Print(a) + [TAssign] + Print(b) + [TAssign] + Print(c) + [TOp(p)] + Print(d)
  {
    BinPrinted(p, c, d);
    AssignPrinted(b, Bin(p, c, d));
    AssignPrinted(a, Assignment(b, Bin(p, c, d)));
    hide *;
    Flat(Print(a), [TAssign], Print(b), [TAssign], Print(c) + ([TOp(p)] + Print(d)));
    Flat(Print(a) + [TAssign] + Print(b), [TAssign], Print(c), [TOp(p)], Print(d));
  }

  /** A prefix operator takes the operand with its ++ and --, and only that operand. */
  lemma PrefixNext(f: Prefix, a: Tree, s: BinOp, p: BinOp, b: Tree, rest: seq<Token>)
    requires Suffixed(a) && (s == Add || s == Sub) && Operand(b) && Ended(rest)
    ensures ParseAssign([PrefixToken(f)] + Print(a) + [StepToken(s)] + [TOp(p)] + Print(b) + rest) ==
      Got(Bin(p, Pre(f, Post(s, a)), b), rest)
  {
    SuffixedCanonical(a);
    OperandCanonical(b);
    var t := Bin(p, Pre(f, Post(s, a)), b);
    StepPrinted(f, a, s);
    BinPrinted(p, Pre(f, Post(s, a)), b);
    hide Operand, Print, StepToken, PrefixToken;
    Flat([PrefixToken(f)], Print(a), [StepToken(s)], [TOp(p)], Print(b));
    AssignRead(t, rest);
  }

  lemma StepPrinted(f: Prefix, a: Tree, s: BinOp)
    ensures Print(Pre(f, Post(s, a))) == [PrefixToken(f)] + (Print(a) + [StepToken(s)])
  {
  }

  lemma {:induction false} PlusAtLevel(k: nat, ts: seq<Token>)
    requires 1 <= k <= UNARY
    ensures ParseLevel(k, [TOp(Add)] + ts) == ParseLevel(k, ts)
    decreases UNARY - k
  {
    if k < UNARY { PlusAtLevel(k + 1, ts); }
    assert ([TOp(Add)] + ts)[1..] == ts;
  }

  /** A plus before an expression is as if it were not there. */
  lemma PlusIsNothing(ts: seq<Token>)
    ensures ParseAssign([TOp(Add)] + ts) == ParseAssign(ts)
  {
    PlusAtLevel(1, ts);
    hide ParseLevel;
  }
}
