/** What a parse tree of the finsh shell says, in arithmetic and memory alone, and that it is what the tree's
    expression gives. */
module FinshSays {
  import opened FinshExpr
  import opened FinshMeaning
  import opened FinshGrammar
  import opened FinshLines
  import opened FinshTrees

  /** A variable and its address. */
  predicate Variable(sy: Symbols, t: Tree, a: Word) { t.Name? && t.name in sy && a == sy[t.name] }

  /** The tree is a place: it stands for address a, and finding it leaves n. */
  ghost predicate Locates(sy: Symbols, t: Tree, m: Memory, a: Word, n: Memory)
    decreases t, 0
  {
    match t
    case Name(_) => Variable(sy, t, a) && n == m
    case Pre(Star, arg) => Says(sy, arg, m, a, n)
    case _ => false
  }

  /** w is one more than v, or for -- one less, as far as 32 bits tell. */
  predicate OneFrom(down: bool, v: Word, w: Word) { (w - v - (if down then -1 else 1)) % WORD_LIMIT == 0 }

  /** The tree has the value v and leaves n. */
  ghost predicate Says(sy: Symbols, t: Tree, m: Memory, v: Word, n: Memory)
    decreases t, 1
  {
    match t
    case Name(_) => exists a :: Variable(sy, t, a) && a in m && v == m[a] && n == m
    case Value(w) => v == w && n == m
    case Bin(op, l, r) => exists x, y, m1 :: Says(sy, l, m, x, m1) && Says(sy, r, m1, y, n) && Computes(op, x, y, v)
    case Pre(PlusPlus, arg) => exists a :: Variable(sy, arg, a) && a in m && OneFrom(false, m[a], v) && n == m[a := v]
    case Pre(MinusMinus, arg) => exists a :: Variable(sy, arg, a) && a in m && OneFrom(true, m[a], v) && n == m[a := v]
    case Pre(Minus, arg) => exists x :: Says(sy, arg, m, x, n) && (v + x) % WORD_LIMIT == 0
    case Pre(Tilde, arg) => exists x :: Says(sy, arg, m, x, n) && Inverts(x, v)
    case Pre(Star, arg) => exists a :: Says(sy, arg, m, a, n) && a in n && v == n[a]
    case Pre(Ampersand, arg) => Locates(sy, arg, m, v, n)
    case Post(step, arg) =>
      exists a, w :: Variable(sy, arg, a) && a in m && v == m[a] && OneFrom(step.Sub?, v, w) && n == m[a := w]
    case Assignment(l, r) =>
      exists a, m1, m2 :: Locates(sy, l, m, a, m1) && Says(sy, r, m1, v, m2) && a in m2 && n == m2[a := v]
  }

  // ----- one operator -----

  lemma OneMore(v: Word, w: Word)
    ensures Computes(Add, v, 1, w) <==> OneFrom(false, v, w)
    ensures Computes(Sub, v, 1, w) <==> OneFrom(true, v, w)
  {
    ApplyIff(Add, v, 1, w);
    ApplyIff(Sub, v, 1, w);
    Near(v, 1, w);
    Near(v, -1, w);
    hide Computes;
  }

  lemma Near(v: Word, d: int, w: Word)
    ensures Wrap(v + d) == w <==> (w - v - d) % WORD_LIMIT == 0
  {
  }

  lemma Negates(x: Word, v: Word)
    ensures Computes(Sub, 0, x, v) <==> (v + x) % WORD_LIMIT == 0
  {
    ApplyIff(Sub, 0, x, v);
    hide Computes;
  }

  // ----- a tree says what its expression gives -----

  ghost predicate Holds(e: Option<Expr>, m: Memory, v: Word, n: Memory) { e.Some? && Gives(e.value, m, v, n) }

  ghost predicate Finds(lv: Option<LValue>, m: Memory, a: Word, n: Memory) { lv.Some? && Points(lv.value, m, a, n) }

  /** A tree is a place if its place is one, and the same. */
  lemma PlaceIff(sy: Symbols, t: Tree, m: Memory, a: Word, n: Memory)
    requires Canonical(t)
    ensures Locates(sy, t, m, a, n) <==> Finds(Place(sy, t), m, a, n)
    decreases t, 0
  {
    if t.Pre? && t.prefix.Star? { MeaningIff(sy, t.arg, m, a, n); }
  }

  lemma ReadIff(lv: Option<LValue>, m: Memory, v: Word, n: Memory)
    ensures Holds(ReadOf(lv), m, v, n) <==> exists a :: Finds(lv, m, a, n) && a in n && v == n[a]
  {
    if lv.Some? { assert Gives(Read(lv.value), m, v, n) <==> Holds(ReadOf(lv), m, v, n); }
  }

  lemma BinaryIff(op: BinOp, l: Option<Expr>, r: Option<Expr>, m: Memory, v: Word, n: Memory)
    ensures Holds(BinaryOf(op, l, r), m, v, n) <==>
      exists x, y, m1 :: Holds(l, m, x, m1) && Holds(r, m1, y, n) && Computes(op, x, y, v)
  {
    hide Computes;
    if Holds(BinaryOf(op, l, r), m, v, n) {
      BinaryGives(op, l.value, r.value, m, v, n);
      var x, y, m1 :| Gives(l.value, m, x, m1) && Gives(r.value, m1, y, n) && Computes(op, x, y, v);
      assert Holds(l, m, x, m1) && Holds(r, m1, y, n);
    }
    if x, y, m1 :| Holds(l, m, x, m1) && Holds(r, m1, y, n) && Computes(op, x, y, v) {
      assert Gives(Binary(op, l.value, r.value), m, v, n);
    }
  }

  lemma BinaryGives(op: BinOp, l: Expr, r: Expr, m: Memory, v: Word, n: Memory)
    requires Gives(Binary(op, l, r), m, v, n)
    ensures exists x, y, m1 :: Gives(l, m, x, m1) && Gives(r, m1, y, n) && Computes(op, x, y, v)
  {
    hide Computes;
  }

  lemma BinIff(sy: Symbols, t: Tree, m: Memory, v: Word, n: Memory)
    requires Canonical(t) && t.Bin?
    ensures Says(sy, t, m, v, n) <==> Holds(Meaning(sy, t), m, v, n)
    decreases t, 0
  {
    hide Computes, Holds;
    forall x, m1
      ensures Says(sy, t.left, m, x, m1) <==> Holds(Meaning(sy, t.left), m, x, m1)
    {
      MeaningIff(sy, t.left, m, x, m1);
    }
    forall y, m1
      ensures Says(sy, t.right, m1, y, n) <==> Holds(Meaning(sy, t.right), m1, y, n)
    {
      MeaningIff(sy, t.right, m1, y, n);
    }
    BinaryIff(t.op, Meaning(sy, t.left), Meaning(sy, t.right), m, v, n);
  }

  lemma MinusIff(sy: Symbols, t: Tree, m: Memory, v: Word, n: Memory)
    requires Canonical(t) && IsMinus(t)
    ensures Says(sy, t, m, v, n) <==> Holds(Meaning(sy, t), m, v, n)
    decreases t, 0
  {
    var e, zero := Meaning(sy, t.arg), Some(Num(0));
    forall x
      ensures Says(sy, t.arg, m, x, n) <==> Holds(e, m, x, n)
      ensures Computes(Sub, 0, x, v) <==> (v + x) % WORD_LIMIT == 0
    {
      MeaningIff(sy, t.arg, m, x, n);
      Negates(x, v);
    }
    BinaryIff(Sub, zero, e, m, v, n);
    assert forall x, m1 :: Holds(zero, m, x, m1) <==> x == 0 && m1 == m;
    hide Holds, Computes;
  }

  lemma TildeIff(sy: Symbols, t: Tree, m: Memory, v: Word, n: Memory)
    requires Canonical(t) && t.Pre? && t.prefix.Tilde?
    ensures Says(sy, t, m, v, n) <==> Holds(Meaning(sy, t), m, v, n)
    decreases t, 0
  {
    hide Inverts;
    forall x
      ensures Says(sy, t.arg, m, x, n) <==> Holds(Meaning(sy, t.arg), m, x, n)
    {
      MeaningIff(sy, t.arg, m, x, n);
    }
  }

  /** A variable, or what a pointer points to. */
  lemma ReadingIff(sy: Symbols, t: Tree, m: Memory, v: Word, n: Memory)
    requires Canonical(t) && (t.Name? || (t.Pre? && t.prefix.Star?))
    ensures Says(sy, t, m, v, n) <==> Holds(Meaning(sy, t), m, v, n)
    decreases t, 0
  {
    forall a
      ensures Locates(sy, t, m, a, n) <==> Finds(Place(sy, t), m, a, n)
    {
      if t.Pre? { MeaningIff(sy, t.arg, m, a, n); }
    }
    ReadIff(Place(sy, t), m, v, n);
    hide Holds, Finds;
  }

  lemma AssignmentIff(sy: Symbols, t: Tree, m: Memory, v: Word, n: Memory)
    requires Canonical(t) && t.Assignment?
    ensures Says(sy, t, m, v, n) <==> Holds(Meaning(sy, t), m, v, n)
    decreases t, 0
  {
    forall a, m1
      ensures Locates(sy, t.lhs, m, a, m1) <==> Finds(Place(sy, t.lhs), m, a, m1)
    {
      PlaceIff(sy, t.lhs, m, a, m1);
    }
    forall m1, m2
      ensures Says(sy, t.rhs, m1, v, m2) <==> Holds(Meaning(sy, t.rhs), m1, v, m2)
    {
      MeaningIff(sy, t.rhs, m1, v, m2);
    }
    AssignIff(Place(sy, t.lhs), Meaning(sy, t.rhs), m, v, n);
    hide Holds, Finds, Gives;
    AssignMeaning(sy, t);
  }

  function AssignOf(lv: Option<LValue>, e: Option<Expr>): Option<Expr> {
    if lv.Some? && e.Some? then Some(Assign(lv.value, e.value)) else None
  }

  lemma AssignMeaning(sy: Symbols, t: Tree)
    requires t.Assignment?
    ensures Meaning(sy, t) == AssignOf(Place(sy, t.lhs), Meaning(sy, t.rhs))
  {
  }

  lemma AssignIff(lv: Option<LValue>, e: Option<Expr>, m: Memory, v: Word, n: Memory)
    ensures Holds(AssignOf(lv, e), m, v, n) <==>
      exists a, m1, m2 :: Finds(lv, m, a, m1) && Holds(e, m1, v, m2) && a in m2 && n == m2[a := v]
  {
    if Holds(AssignOf(lv, e), m, v, n) {
      AssignGives(lv.value, e.value, m, v, n);
      var a, m1, m2 :| Points(lv.value, m, a, m1) && Gives(e.value, m1, v, m2) && a in m2 && n == m2[a := v];
      assert Finds(lv, m, a, m1) && Holds(e, m1, v, m2);
    }
    if a, m1, m2 :| Finds(lv, m, a, m1) && Holds(e, m1, v, m2) && a in m2 && n == m2[a := v] {
      assert Gives(Assign(lv.value, e.value), m, v, n);
    }
  }

  lemma AssignGives(lv: LValue, e: Expr, m: Memory, v: Word, n: Memory)
    requires Gives(Assign(lv, e), m, v, n)
    ensures exists a, m1, m2 :: Points(lv, m, a, m1) && Gives(e, m1, v, m2) && a in m2 && n == m2[a := v]
  {
  }

  lemma StepIff(sy: Symbols, t: Tree, m: Memory, v: Word, n: Memory)
    requires Canonical(t) && (t.Post? || (t.Pre? && (t.prefix.PlusPlus? || t.prefix.MinusMinus?)))
    ensures Says(sy, t, m, v, n) <==> Holds(Meaning(sy, t), m, v, n)
  {
    if t.arg.Name? && t.arg.name in sy {
      var a := sy[t.arg.name];
      assert Variable(sy, t.arg, a);
      if a in m { StepAtIff(t.Pre?, if t.Post? then t.step else if t.prefix.PlusPlus? then Add else Sub, a, m, v, n); }
    }
  }

  lemma StepAtIff(prefix: bool, op: BinOp, a: Word, m: Memory, v: Word, n: Memory)
    requires a in m && (op == Add || op == Sub)
    ensures prefix ==> (Gives(PreStep(a, op), m, v, n) <==> OneFrom(op.Sub?, m[a], v) && n == m[a := v])
    ensures !prefix ==> (Gives(PostStep(a, op), m, v, n) <==>
                         v == m[a] && exists w :: OneFrom(op.Sub?, v, w) && n == m[a := w])
  {
    hide Computes, OneFrom;
    forall w: Word
      ensures Computes(op, m[a], 1, w) <==> OneFrom(op.Sub?, m[a], w)
    {
      OneMore(m[a], w);
    }
  }

  /** A tree of the parser has the value v and leaves n exactly if its expression gives v and n; in particular a tree
      without an expression says nothing. */
  lemma {:induction false} MeaningIff(sy: Symbols, t: Tree, m: Memory, v: Word, n: Memory)
    requires Canonical(t)
    ensures Says(sy, t, m, v, n) <==> Holds(Meaning(sy, t), m, v, n)
    decreases t, 1
  {
    match t
    case Name(_) => ReadingIff(sy, t, m, v, n);
    case Value(_) =>
    case Bin(_, _, _) => BinIff(sy, t, m, v, n);
    case Pre(PlusPlus, _) => StepIff(sy, t, m, v, n);
    case Pre(MinusMinus, _) => StepIff(sy, t, m, v, n);
    case Pre(Minus, _) => MinusIff(sy, t, m, v, n);
    case Pre(Tilde, _) => TildeIff(sy, t, m, v, n);
    case Pre(Star, _) => ReadingIff(sy, t, m, v, n);
    case Pre(Ampersand, arg) => PlaceIff(sy, arg, m, v, n);
    case Post(_, _) => StepIff(sy, t, m, v, n);
    case Assignment(_, _) => AssignmentIff(sy, t, m, v, n);
  }

  // ----- a line -----

  /** The statements of a line, one after the other: the value of the last and the memory it leaves. */
  ghost predicate SaysAll(sy: Symbols, trees: seq<Tree>, m: Memory, v: Word, n: Memory)
    requires trees != []
  {
    if |trees| == 1 then Says(sy, trees[0], m, v, n)
    else exists w, m1 :: Says(sy, trees[0], m, w, m1) && SaysAll(sy, trees[1..], m1, v, n)
  }

  predicate EachCanonical(trees: seq<Tree>) { forall k :: 0 <= k < |trees| ==> Canonical(trees[k]) }

  lemma {:induction false} AllIff(sy: Symbols, trees: seq<Tree>, m: Memory, v: Word, n: Memory)
    requires trees != [] && MeaningAll(sy, trees).Some? && EachCanonical(trees)
    ensures MeaningAll(sy, trees).value != []
    ensures SaysAll(sy, trees, m, v, n) <==> GivesAll(MeaningAll(sy, trees).value, m, v, n)
    decreases |trees|
  {
    var es := MeaningAll(sy, trees).value;
    forall w, m1
      ensures Says(sy, trees[0], m, w, m1) <==> Gives(es[0], m, w, m1)
    {
      MeaningIff(sy, trees[0], m, w, m1);
    }
    if |trees| > 1 {
      assert es[1..] == MeaningAll(sy, trees[1..]).value;
      forall m1
        ensures SaysAll(sy, trees[1..], m1, v, n) <==> GivesAll(es[1..], m1, v, n)
      {
        AllIff(sy, trees[1..], m1, v, n);
      }
      AllIff(sy, trees[1..], m, v, n);
    } else {
      assert MeaningAll(sy, trees[1..]).value == [];
    }
    hide Says, Gives, Meaning, Canonical;
  }

  /** What parses is canonical. */
  lemma {:induction false} LineCanonical(ts: seq<Token>)
    ensures ParseStatements(ts).Line? ==> EachCanonical(ParseStatements(ts).trees)
    decreases |ts|
  {
    hide Canonical, ParseAssign;
    if Head(ts) == TEnd {
    } else if Head(ts) == TSemi {
      LineCanonical(Tail(ts[1..]));
    } else {
      AssignCanonical(ts);
      match ParseAssign(ts)
      case Fail =>
      case Got(_, rest) => if Head(rest) == TSemi { LineCanonical(rest[1..]); }
    }
  }
}
