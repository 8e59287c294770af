/** From parse trees to linked nodes: what the parser allocates for a tree, what the tree means, and that
    the nodes are the parse tree of that meaning. */
module FinshTrees {
  import opened FinshExpr
  import opened FinshNodes
  import opened FinshGrammar

  /** The addresses of the variables finsh_node_new_id finds. */
  type Symbols = map<string, Word>

  /** The used entries of the node table and the node made last, or an error. */
  datatype Planted = Refused | Planted(nodes: seq<Node>, root: nat)

  // ----- node allocation -----

  function Fresh(kind: Kind, word: Word, child: int): Node { Node(kind, Void, false, word, child, NULL) }

  /** finsh_node_allocate with what its caller fills in. */
  function New(max: nat, ns: seq<Node>, n: Node): (r: Planted)
    ensures r.Planted? ==> Grew(ns, r, 1)
  {
    if |ns| < max then Planted(ns + [n], |ns|) else Refused
  }

  /** k entries more, the last of them made last. */
  predicate Grew(ns: seq<Node>, r: Planted, k: nat)
    requires r.Planted?
  {
    |r.nodes| == |ns| + k && r.root + 1 == |r.nodes|
  }

  function SetSibling(ns: seq<Node>, i: nat, p: int): seq<Node>
    requires i < |ns|
  {
    ns[i := ns[i].(sibling := p)]
  }

  /** make_sys_node. */
  function Joined(max: nat, ns: seq<Node>, kind: Kind, first: nat, second: int): (r: Planted)
    requires first < |ns|
    ensures r.Planted? ==> Grew(ns, r, 1)
  {
    match New(max, ns, Fresh(kind, 0, first))
    case Refused => Refused
    case Planted(ms, p) => Planted(SetSibling(ms, first, second), p)
  }

  /** A node over the one tree made last. */
  function OverOne(max: nat, q: Planted, kind: Kind): (r: Planted)
    requires q.Planted? ==> q.root < |q.nodes|
    ensures r.Planted? ==> q.Planted? && Grew(q.nodes, r, 1)
  {
    if q.Planted? then Joined(max, q.nodes, kind, q.root, NULL) else Refused
  }

  /** A node over the tree at a and the one made last. */
  function OverTwo(max: nat, a: nat, q: Planted, kind: Kind): (r: Planted)
    requires q.Planted? ==> a < |q.nodes|
    ensures r.Planted? ==> q.Planted? && Grew(q.nodes, r, 1)
  {
    if q.Planted? then Joined(max, q.nodes, kind, a, q.root) else Refused
  }

  /** A minus: a node over a new zero and the tree made last. */
  function OverZero(max: nat, q: Planted): (r: Planted)
    requires q.Planted? ==> q.root < |q.nodes|
    ensures r.Planted? ==> q.Planted? && Grew(q.nodes, r, 2)
  {
    if q.Refused? then Refused
    else
      match New(max, q.nodes, Fresh(Kind.Value, 0, NULL))
      case Refused => Refused
      case Planted(zs, z) => Joined(max, zs, SysBinary(Sub), z, q.root)
  }

  predicate OneSided(t: Tree) { t.Pre? || t.Post? }

  predicate TwoSided(t: Tree) { t.Bin? || t.Assignment? }

  function First(t: Tree): (l: Tree)
    requires OneSided(t) || TwoSided(t)
    ensures l < t
  {
    match t
    case Bin(_, l, _) => l
    case Pre(_, arg) => arg
    case Post(_, arg) => arg
    case Assignment(l, _) => l
  }

  function Second(t: Tree): (r: Tree)
    requires TwoSided(t)
    ensures r < t
  {
    if t.Bin? then t.right else t.rhs
  }

  function KindOf(t: Tree): Kind {
    match t
    case Name(_) => Id
    case Value(_) => Kind.Value
    case Bin(op, _, _) => SysBinary(op)
    case Pre(PlusPlus, _) => SysPreStep(Add)
    case Pre(MinusMinus, _) => SysPreStep(Sub)
    case Pre(Minus, _) => SysBinary(Sub)
    case Pre(Tilde, _) => SysBitwise
    case Pre(Star, _) => SysGetValue
    case Pre(Ampersand, _) => SysGetAddr
    case Post(step, _) => SysPostStep(step)
    case Assignment(_, _) => SysAssign
  }

  predicate IsMinus(t: Tree) { t.Pre? && t.prefix.Minus? }

  /** The nodes of a tree. */
  function Size(t: Tree): (n: nat)
    ensures n >= 1
  {
    if TwoSided(t) then Size(First(t)) + Size(Second(t)) + 1
    else if OneSided(t) then Size(First(t)) + if IsMinus(t) then 2 else 1
    else 1
  }

  /** The nodes the parser makes for a tree, in the order in which it makes them. */
  function Plant(sy: Symbols, max: nat, ns: seq<Node>, t: Tree): (r: Planted)
    ensures r.Planted? ==> Grew(ns, r, Size(t))
    decreases t
  {
    if TwoSided(t) then
      match Plant(sy, max, ns, First(t))
      case Refused => Refused
      case Planted(ms, a) => OverTwo(max, a, Plant(sy, max, ms, Second(t)), KindOf(t))
    else if IsMinus(t) then OverZero(max, Plant(sy, max, ns, First(t)))
    else if OneSided(t) then OverOne(max, Plant(sy, max, ns, First(t)), KindOf(t))
    else if t.Value? then New(max, ns, Fresh(Kind.Value, t.word, NULL))
    else if t.name in sy then New(max, ns, Fresh(Id, sy[t.name], NULL))
    else Refused
  }

  predicate Known(sy: Symbols, t: Tree) {
    if TwoSided(t) then Known(sy, First(t)) && Known(sy, Second(t))
    else if OneSided(t) then Known(sy, First(t))
    else t.Name? ==> t.name in sy
  }

  /** Nodes are refused exactly when a name is unknown or the table is too small. */
  lemma {:induction false} PlantedIff(sy: Symbols, max: nat, ns: seq<Node>, t: Tree)
    requires |ns| <= max
    ensures Plant(sy, max, ns, t).Planted? <==> Known(sy, t) && |ns| + Size(t) <= max
    decreases t
  {
    if TwoSided(t) || OneSided(t) { PlantedIff(sy, max, ns, First(t)); }
    if TwoSided(t) {
      match Plant(sy, max, ns, First(t))
      case Refused =>
      case Planted(ms, _) => PlantedIff(sy, max, ms, Second(t));
    }
  }

  // ----- what a tree means -----

  /** The target of an assignment or of &: a variable, or what a pointer expression points to. */
  function Place(sy: Symbols, t: Tree): Option<LValue>
    decreases t, 0
  {
    match t
    case Name(name) => if name in sy then Some(Ident(sy[name])) else None
    case Pre(Star, arg) =>
      (match Meaning(sy, arg)
       case None => None
       case Some(e) => Some(Deref(e)))
    case _ => None
  }

  /** The expression a tree stands for; ++ and -- stand for one only on a variable, = and & only on a
      place. */
  function Meaning(sy: Symbols, t: Tree): Option<Expr>
    decreases t, 1
  {
    match t
    case Name(_) => ReadOf(Place(sy, t))
    case Value(w) => Some(Num(w))
    case Bin(op, l, r) => BinaryOf(op, Meaning(sy, l), Meaning(sy, r))
    case Pre(PlusPlus, arg) => if arg.Name? && arg.name in sy then Some(PreStep(sy[arg.name], Add)) else None
    case Pre(MinusMinus, arg) => if arg.Name? && arg.name in sy then Some(PreStep(sy[arg.name], Sub)) else None
    case Pre(Minus, arg) => BinaryOf(Sub, Some(Num(0)), Meaning(sy, arg))
    case Pre(Tilde, arg) => (match Meaning(sy, arg) case None => None case Some(e) => Some(Complement(e)))
    case Pre(Star, _) => ReadOf(Place(sy, t))
    case Pre(Ampersand, arg) => (match Place(sy, arg) case None => None case Some(lv) => Some(AddrOf(lv)))
    case Post(step, arg) => if arg.Name? && arg.name in sy then Some(PostStep(sy[arg.name], step)) else None
    case Assignment(l, r) =>
      match Place(sy, l)
      case None => None
      case Some(lv) =>
        match Meaning(sy, r)
        case None => None
        case Some(e) => Some(Assign(lv, e))
  }

  function ReadOf(lv: Option<LValue>): Option<Expr> { if lv.Some? then Some(Read(lv.value)) else None }

  function BinaryOf(op: BinOp, l: Option<Expr>, r: Option<Expr>): Option<Expr> {
    if l.Some? && r.Some? then Some(Binary(op, l.value, r.value)) else None
  }

  /** A tree with a meaning knows its names and has as many nodes as the expression. */
  lemma {:induction false} MeaningSize(sy: Symbols, t: Tree)
    requires Meaning(sy, t).Some?
    ensures Known(sy, t) && Size(t) == Nodes(Meaning(sy, t).value)
    decreases t, 1
  {
    match t
    case Name(_) =>
    case Value(_) =>
    case Bin(_, l, r) => MeaningSize(sy, l); MeaningSize(sy, r);
    case Pre(p, arg) =>
      if p.Star? { PlaceSize(sy, t); } else if p.Ampersand? { PlaceSize(sy, arg); }
        else if !arg.Name? { MeaningSize(sy, arg); }
    case Post(_, arg) =>
    case Assignment(l, r) => PlaceSize(sy, l); MeaningSize(sy, r);
  }

  lemma PlaceSize(sy: Symbols, t: Tree)
    requires Place(sy, t).Some?
    ensures Known(sy, t) && Size(t) == LNodes(Place(sy, t).value)
    decreases t, 0
  {
    if t.Pre? { MeaningSize(sy, t.arg); }
  }

  // ----- the shape of the nodes -----

  /** The chain of the nodes of a tree made from entry n on, before a rest. */
  function ChainOf(t: Tree, n: nat, rest: Chain): (c: Chain)
    ensures c.Cons? && c.idx == n + Size(t) - 1 && c.rest == rest
  {
    if TwoSided(t) then Cons(Top(n, t), ChainOf(First(t), n, ChainOf(Second(t), n + Size(First(t)), Nil)), rest)
    else if OneSided(t) then Cons(Top(n, t), Below(t, n, ChainOf(First(t), n, Nil)), rest)
    else Cons(n, Nil, rest)
  }

  lemma SizeUnfold(t: Tree)
    ensures TwoSided(t) ==> Size(t) == Size(First(t)) + Size(Second(t)) + 1
    ensures OneSided(t) ==> Size(t) == Size(First(t)) + if IsMinus(t) then 2 else 1
    ensures !OneSided(t) && !TwoSided(t) ==> Size(t) == 1
  {
  }

  lemma ChainUnfold(t: Tree, n: nat, rest: Chain)
    ensures TwoSided(t) ==>
      ChainOf(t, n, rest) == Cons(Top(n, t), ChainOf(First(t), n, ChainOf(Second(t), n + Size(First(t)), Nil)), rest)
    ensures OneSided(t) ==> ChainOf(t, n, rest) == Cons(Top(n, t), Below(t, n, ChainOf(First(t), n, Nil)), rest)
    ensures !OneSided(t) && !TwoSided(t) ==> ChainOf(t, n, rest) == Cons(n, Nil, rest)
  {
  }

  /** What is below the node of a one-sided tree: a minus has a zero before its operand. */
  function Below(t: Tree, n: nat, arg: Chain): Chain
    requires OneSided(t)
  {
    if IsMinus(t) then Cons(n + Size(First(t)), Nil, arg) else arg
  }

  /** The entry of the root of a tree made from entry n on. */
  function Top(n: nat, t: Tree): nat { n + Size(t) - 1 }

  lemma {:induction false} ChainIndices(t: Tree, n: nat, rest: Chain)
    ensures forall k: nat :: k in Indices(ChainOf(t, n, rest)) <==> n <= k < n + Size(t) || k in Indices(rest)
    ensures Distinct(rest) && (forall k :: k in Indices(rest) ==> k < n || n + Size(t) <= k) ==>
      Distinct(ChainOf(t, n, rest))
    decreases t
  {
    SizeUnfold(t);
    ChainUnfold(t, n, rest);
    hide Size, ChainOf, First, Second;
    if TwoSided(t) {
      var m := n + Size(First(t));
      ChainIndices(Second(t), m, Nil);
      ChainIndices(First(t), n, ChainOf(Second(t), m, Nil));
    } else if OneSided(t) {
      ChainIndices(First(t), n, Nil);
    }
  }

  lemma PlantUnfold(sy: Symbols, max: nat, ns: seq<Node>, t: Tree)
    ensures TwoSided(t) ==>
      var a := Plant(sy, max, ns, First(t));
      Plant(sy, max, ns, t) == if a.Refused? then Refused
        else OverTwo(max, a.root, Plant(sy, max, a.nodes, Second(t)), KindOf(t))
    ensures OneSided(t) ==>
      var a := Plant(sy, max, ns, First(t));
      Plant(sy, max, ns, t) == if IsMinus(t) then OverZero(max, a) else OverOne(max, a, KindOf(t))
  {
  }

  /** Earlier entries are kept as they were, and new ones carry no address mark. */
  predicate Keeps(ns: seq<Node>, r: Planted) {
    r.Planted? ==>
      && |ns| < |r.nodes| == r.root + 1 && (forall k :: 0 <= k < |ns| ==> r.nodes[k] == ns[k])
      && (forall k :: |ns| <= k < |r.nodes| ==> !r.nodes[k].address) && r.nodes[r.root].sibling == NULL
  }

  lemma OverTwoKeeps(max: nat, ns: seq<Node>, a: Planted, b: Planted, kind: Kind)
    requires a.Planted? && Keeps(ns, a) && Keeps(a.nodes, b)
    ensures Keeps(ns, OverTwo(max, a.root, b, kind))
  {
  }

  lemma OverOneKeeps(max: nat, ns: seq<Node>, a: Planted, kind: Kind)
    requires Keeps(ns, a)
    ensures Keeps(ns, OverOne(max, a, kind)) && Keeps(ns, OverZero(max, a))
  {
  }

  lemma {:induction false} PlantKeeps(sy: Symbols, max: nat, ns: seq<Node>, t: Tree)
    ensures Keeps(ns, Plant(sy, max, ns, t))
    decreases t
  {
    PlantUnfold(sy, max, ns, t);
    if TwoSided(t) || OneSided(t) {
      hide Plant, Keeps, Size, KindOf, First, Second, OverTwo, OverOne, OverZero;
      var a := Plant(sy, max, ns, First(t));
      PlantKeeps(sy, max, ns, First(t));
      if OneSided(t) {
        OverOneKeeps(max, ns, a, KindOf(t));
      } else if a.Planted? {
        PlantKeeps(sy, max, a.nodes, Second(t));
        OverTwoKeeps(max, ns, a, Plant(sy, max, a.nodes, Second(t)), KindOf(t));
      } else {
        assert Keeps(ns, Refused);
      }
    }
  }

  /** From n to root ms is ns, but for what follows root. */
  predicate Grown(ns: seq<Node>, ms: seq<Node>, n: nat, root: nat) {
    && root < |ns| && root < |ms| && (forall k :: n <= k < root ==> ms[k] == ns[k])
    && ms[root].(sibling := NULL) == ns[root].(sibling := NULL)
  }

  lemma GrownWithin(ns: seq<Node>, zs: seq<Node>, ms: seq<Node>, n: nat, root: nat, top: nat)
    requires Grown(zs, ms, n, top) && n <= root < top && Grown(ns, zs, n, root)
    ensures Grown(ns, ms, n, root) && ms[root] == zs[root]
  {
  }

  /** ms is grown from what the tree was planted as. */
  predicate Holds(sy: Symbols, max: nat, ns: seq<Node>, t: Tree, ms: seq<Node>) {
    var r := Plant(sy, max, ns, t);
    r.Planted? && |r.nodes| <= |ms| && Grown(r.nodes, ms, |ns|, r.root)
  }

  /** The node x with what follows it left open. */
  predicate At(ms: seq<Node>, p: nat, kind: Kind, child: int) {
    p < |ms| && ms[p].kind == kind && ms[p].child == child
  }

  /** The zero a minus is taken from, before its operand at a. */
  predicate ZeroAt(ms: seq<Node>, a: nat) {
    a + 1 < |ms| && ms[a + 1].kind == Kind.Value && ms[a + 1].word == 0 && ms[a + 1].child == NULL
      && ms[a + 1].sibling == a
  }

  /** A planted leaf. */
  lemma PartsOfLeaf(sy: Symbols, max: nat, ns: seq<Node>, t: Tree, ms: seq<Node>)
    requires !OneSided(t) && !TwoSided(t) && Holds(sy, max, ns, t, ms)
    ensures t.Name? ==> t.name in sy && At(ms, |ns|, Id, NULL) && ms[|ns|].word == sy[t.name]
    ensures t.Value? ==> At(ms, |ns|, Kind.Value, NULL) && ms[|ns|].word == t.word
  {
  }

  lemma OverOneParts(max: nat, ns: seq<Node>, a: Planted, kind: Kind, ms: seq<Node>)
    requires a.Planted? && Keeps(ns, a)
    ensures var r := OverOne(max, a, kind);
      r.Planted? && |r.nodes| <= |ms| && Grown(r.nodes, ms, |ns|, r.root) ==>
        && Grown(a.nodes, ms, |ns|, a.root) && At(ms, a.root + 1, kind, a.root) && ms[a.root].sibling == NULL
    ensures var r := OverZero(max, a);
      r.Planted? && |r.nodes| <= |ms| && Grown(r.nodes, ms, |ns|, r.root) ==>
        && Grown(a.nodes, ms, |ns|, a.root) && At(ms, a.root + 2, SysBinary(Sub), a.root + 1)
             && ms[a.root].sibling == NULL
        && ZeroAt(ms, a.root)
  {
  }

  /** A planted tree under one node. */
  lemma PartsOfOne(sy: Symbols, max: nat, ns: seq<Node>, t: Tree, ms: seq<Node>)
    requires OneSided(t) && Holds(sy, max, ns, t, ms)
    ensures Holds(sy, max, ns, First(t), ms)
    ensures var a, p := Top(|ns|, First(t)), Top(|ns|, t);
      && p == a + (if IsMinus(t) then 2 else 1) && p < |ms| && At(ms, p, KindOf(t), p - 1) && ms[a].sibling == NULL
      && (IsMinus(t) ==> ZeroAt(ms, a))
  {
    var q, zs := Plant(sy, max, ns, First(t)), Plant(sy, max, ns, t);
    PlantUnfold(sy, max, ns, t);
    SizeUnfold(t);
    PlantKeeps(sy, max, ns, First(t));
    var kind := KindOf(t);
    assert IsMinus(t) ==> kind == SysBinary(Sub);
    hide Plant, Size, KindOf, First, Keeps, Grown, OverOne, OverZero;
    OverOneParts(max, ns, q, kind, ms);
  }

  lemma OverTwoParts(max: nat, ns: seq<Node>, a: Planted, b: Planted, kind: Kind, ms: seq<Node>)
    requires a.Planted? && Keeps(ns, a) && Keeps(a.nodes, b)
    requires var r := OverTwo(max, a.root, b, kind); r.Planted? && |r.nodes| <= |ms| && Grown(r.nodes, ms, |ns|, r.root)
    ensures b.Planted? && |a.nodes| <= |b.nodes| <= |ms| && Grown(a.nodes, ms, |ns|, a.root)
      && Grown(b.nodes, ms, |a.nodes|, b.root)
    ensures var p := OverTwo(max, a.root, b, kind).root;
      && b.root < p < |ms| && At(ms, p, kind, a.root) && ms[a.root].sibling == b.root && ms[b.root].sibling == NULL
  {
    var zs := OverTwo(max, a.root, b, kind);
    GrownWithin(a.nodes, zs.nodes, ms, |ns|, a.root, zs.root);
    GrownWithin(b.nodes, zs.nodes, ms, |a.nodes|, b.root, zs.root);
  }

  /** Two planted trees under one node. */
  lemma PartsOfTwo(sy: Symbols, max: nat, ns: seq<Node>, t: Tree, ms: seq<Node>) returns (ns2: seq<Node>)
    requires TwoSided(t) && Holds(sy, max, ns, t, ms)
    ensures Holds(sy, max, ns, First(t), ms)
    ensures |ns2| == |ns| + Size(First(t)) && Holds(sy, max, ns2, Second(t), ms)
    ensures var a, b, p := Top(|ns|, First(t)), Top(|ns2|, Second(t)), Top(|ns|, t);
      && a < b < p < |ms| && At(ms, p, KindOf(t), a) && ms[a].sibling == b && ms[b].sibling == NULL
  {
    PlantUnfold(sy, max, ns, t);
    SizeUnfold(t);
    PlantKeeps(sy, max, ns, First(t));
    hide Plant, Size, KindOf, First, Second, Keeps, Grown, OverTwo;
    var a := Plant(sy, max, ns, First(t));
    ns2 := a.nodes;
    PlantKeeps(sy, max, ns2, Second(t));
    OverTwoParts(max, ns, a, Plant(sy, max, ns2, Second(t)), KindOf(t), ms);
  }

  // ----- the nodes are the parse tree -----

  lemma LinkTwo(ms: seq<Node>, n: nat, t: Tree, kids: Chain, rest: Chain)
    requires TwoSided(t) && kids == ChainOf(First(t), n, ChainOf(Second(t), n + Size(First(t)), Nil))
    requires At(ms, Top(n, t), KindOf(t), Top(n, First(t)))
    requires Linked(ms, Top(n, First(t)), kids) && Linked(ms, ms[Top(n, t)].sibling, rest)
    ensures Linked(ms, Top(n, t), ChainOf(t, n, rest))
  {
    ChainUnfold(t, n, rest);
    hide ChainOf, Size, First, Second;
  }

  lemma LinkOne(ms: seq<Node>, n: nat, t: Tree, kids: Chain, rest: Chain)
    requires OneSided(t) && kids == ChainOf(First(t), n, Nil)
    requires At(ms, Top(n, t), KindOf(t), Top(n, t) - 1)
    requires Top(n, t) == Top(n, First(t)) + if IsMinus(t) then 2 else 1
    requires IsMinus(t) ==> ZeroAt(ms, Top(n, First(t)))
    requires Linked(ms, Top(n, First(t)), kids) && Linked(ms, ms[Top(n, t)].sibling, rest)
    ensures Linked(ms, Top(n, t), ChainOf(t, n, rest))
  {
    ChainUnfold(t, n, rest);
    hide ChainOf, Size, First;
    assert Linked(ms, NULL, Nil);
  }

  lemma LinkLeaf(sy: Symbols, max: nat, ns: seq<Node>, t: Tree, ms: seq<Node>, rest: Chain)
    requires !OneSided(t) && !TwoSided(t) && Holds(sy, max, ns, t, ms)
    requires Top(|ns|, t) < |ms| && Linked(ms, ms[Top(|ns|, t)].sibling, rest)
    ensures Linked(ms, Top(|ns|, t), ChainOf(t, |ns|, rest))
  {
    PartsOfLeaf(sy, max, ns, t, ms);
    assert Linked(ms, NULL, Nil);
  }

  lemma NilLinked(ms: seq<Node>)
    ensures Linked(ms, NULL, Nil)
  {
  }

  /** In every table grown from the planted one the nodes are linked as the chain of the tree. */
  lemma {:induction false} PlantLinked(sy: Symbols, max: nat, ns: seq<Node>, t: Tree, ms: seq<Node>, rest: Chain)
    requires Holds(sy, max, ns, t, ms) && Top(|ns|, t) < |ms| && Linked(ms, ms[Top(|ns|, t)].sibling, rest)
    ensures Linked(ms, Top(|ns|, t), ChainOf(t, |ns|, rest))
    decreases t
  {
    hide *;
    var nil := Chain.Nil;
    NilLinked(ms);
    if TwoSided(t) {
      var ns2 := PartsOfTwo(sy, max, ns, t, ms);
      var second := ChainOf(Second(t), |ns2|, nil);
      PlantLinked(sy, max, ns2, Second(t), ms, nil);
      PlantLinked(sy, max, ns, First(t), ms, second);
      LinkTwo(ms, |ns|, t, ChainOf(First(t), |ns|, second), rest);
    } else if OneSided(t) {
      PartsOfOne(sy, max, ns, t, ms);
      PlantLinked(sy, max, ns, First(t), ms, nil);
      LinkOne(ms, |ns|, t, ChainOf(First(t), |ns|, nil), rest);
    } else {
      LinkLeaf(sy, max, ns, t, ms, rest);
    }
  }

  // ----- the chain is the parse tree of what the tree means -----

  lemma EncodesTwo(sy: Symbols, ms: seq<Node>, n: nat, t: Tree, rest: Chain)
    requires TwoSided(t) && Meaning(sy, t).Some? && At(ms, Top(n, t), KindOf(t), Top(n, First(t)))
    requires var second := ChainOf(Second(t), n + Size(First(t)), Nil);
      && (t.Bin? && Meaning(sy, t.left).Some? ==> Encodes(ms, ChainOf(First(t), n, second), Meaning(sy, t.left).value))
      && (t.Assignment? && Place(sy, t.lhs).Some? ==>
           LEncodes(ms, ChainOf(First(t), n, second), Place(sy, t.lhs).value))
      && (Meaning(sy, Second(t)).Some? ==> Encodes(ms, second, Meaning(sy, Second(t)).value))
    ensures Encodes(ms, ChainOf(t, n, rest), Meaning(sy, t).value)
  {
    ChainUnfold(t, n, rest);
    hide ChainOf, Size;
  }

  lemma EncodesOne(sy: Symbols, ms: seq<Node>, n: nat, t: Tree, rest: Chain)
    requires OneSided(t) && Meaning(sy, t).Some? && At(ms, Top(n, t), KindOf(t), Top(n, t) - 1)
    requires IsMinus(t) ==> Top(n, t) == Top(n, First(t)) + 2 && ZeroAt(ms, Top(n, First(t)))
    requires Meaning(sy, First(t)).Some? ==> Encodes(ms, ChainOf(First(t), n, Nil), Meaning(sy, First(t)).value)
    requires Place(sy, First(t)).Some? ==> LEncodes(ms, ChainOf(First(t), n, Nil), Place(sy, First(t)).value)
    ensures Encodes(ms, ChainOf(t, n, rest), Meaning(sy, t).value)
  {
    ChainUnfold(t, n, rest);
    hide ChainOf, Size;
  }

  lemma LEncodesOne(sy: Symbols, ms: seq<Node>, n: nat, t: Tree, rest: Chain)
    requires OneSided(t) && Place(sy, t).Some? && At(ms, Top(n, t), KindOf(t), Top(n, t) - 1)
    requires Meaning(sy, First(t)).Some? ==> Encodes(ms, ChainOf(First(t), n, Nil), Meaning(sy, First(t)).value)
    ensures LEncodes(ms, ChainOf(t, n, rest), Place(sy, t).value)
  {
    ChainUnfold(t, n, rest);
    hide ChainOf, Size;
  }

  lemma EncodesLeaf(sy: Symbols, max: nat, ns: seq<Node>, t: Tree, ms: seq<Node>, rest: Chain)
    requires !OneSided(t) && !TwoSided(t) && Holds(sy, max, ns, t, ms)
    ensures Meaning(sy, t).Some? && Encodes(ms, ChainOf(t, |ns|, rest), Meaning(sy, t).value)
    ensures Place(sy, t).Some? ==> LEncodes(ms, ChainOf(t, |ns|, rest), Place(sy, t).value)
  {
    PartsOfLeaf(sy, max, ns, t, ms);
    ChainUnfold(t, |ns|, rest);
  }

  /** In every table grown from the planted one the chain is the parse tree of what the tree means, and of
      the place it is. */
  lemma {:induction false} PlantEncodes(sy: Symbols, max: nat, ns: seq<Node>, t: Tree, ms: seq<Node>, rest: Chain)
    requires Holds(sy, max, ns, t, ms)
    ensures Meaning(sy, t).Some? ==> Encodes(ms, ChainOf(t, |ns|, rest), Meaning(sy, t).value)
    ensures Place(sy, t).Some? ==> LEncodes(ms, ChainOf(t, |ns|, rest), Place(sy, t).value)
    decreases t
  {
    hide *;
    if TwoSided(t) {
      var ns2 := PartsOfTwo(sy, max, ns, t, ms);
      PlantEncodes(sy, max, ns2, Second(t), ms, Nil);
      PlantEncodes(sy, max, ns, First(t), ms, ChainOf(Second(t), |ns2|, Nil));
      NoPlace(sy, t);
      FirstOf(t);
      if Meaning(sy, t).Some? { EncodesTwo(sy, ms, |ns|, t, rest); }
    } else if OneSided(t) {
      PartsOfOne(sy, max, ns, t, ms);
      PlantEncodes(sy, max, ns, First(t), ms, Nil);
      if Meaning(sy, t).Some? { EncodesOne(sy, ms, |ns|, t, rest); }
      if Place(sy, t).Some? { LEncodesOne(sy, ms, |ns|, t, rest); }
    } else {
      EncodesLeaf(sy, max, ns, t, ms, rest);
    }
  }

  lemma NoPlace(sy: Symbols, t: Tree)
    requires TwoSided(t)
    ensures Place(sy, t).None?
  {
  }

  lemma FirstOf(t: Tree)
    ensures t.Bin? ==> First(t) == t.left
    ensures t.Assignment? ==> First(t) == t.lhs
  {
  }

  // ----- a line of statements -----

  function Chained(ns: seq<Node>, last: int, p: int): (ms: seq<Node>)
    ensures |ms| == |ns|
  {
    if 0 <= last < |ns| then SetSibling(ns, last, p) else ns
  }

  /** The nodes of a list of statements, each linked as the sibling of the one before; last is the root of
      the statement made before them, or NULL. */
  function PlantAll(sy: Symbols, max: nat, ns: seq<Node>, last: int, trees: seq<Tree>): Option<seq<Node>>
    decreases |trees|
  {
    if trees == [] then Some(ns)
    else
      match Plant(sy, max, ns, trees[0])
      case Refused => None
      case Planted(ms, p) => PlantAll(sy, max, Chained(ms, last, p), p, trees[1..])
  }

  function SizeAll(trees: seq<Tree>): nat {
    if trees == [] then 0 else Size(trees[0]) + SizeAll(trees[1..])
  }

  predicate KnownAll(sy: Symbols, trees: seq<Tree>) {
    trees == [] || (Known(sy, trees[0]) && KnownAll(sy, trees[1..]))
  }

  function MeaningAll(sy: Symbols, trees: seq<Tree>): Option<seq<Expr>> {
    if trees == [] then Some([])
    else
      match Meaning(sy, trees[0])
      case None => None
      case Some(e) =>
        match MeaningAll(sy, trees[1..])
        case None => None
        case Some(es) => Some([e] + es)
  }

  function ChainAll(trees: seq<Tree>, n: nat): Chain {
    if trees == [] then Nil else ChainOf(trees[0], n, ChainAll(trees[1..], n + Size(trees[0])))
  }

  function RootAll(trees: seq<Tree>, n: nat): int { if trees == [] then NULL else Top(n, trees[0]) }

  /** A line is refused exactly when a name in it is unknown or the table is too small for it. */
  lemma {:induction false} PlantedAllIff(sy: Symbols, max: nat, ns: seq<Node>, last: int, trees: seq<Tree>)
    requires |ns| <= max
    ensures PlantAll(sy, max, ns, last, trees).Some? <==> KnownAll(sy, trees) && |ns| + SizeAll(trees) <= max
    decreases |trees|
  {
    if trees != [] {
      PlantedIff(sy, max, ns, trees[0]);
      hide Plant, Known, Size;
      match Plant(sy, max, ns, trees[0])
      case Refused =>
      case Planted(ms, p) => PlantedAllIff(sy, max, Chained(ms, last, p), p, trees[1..]);
    }
  }

  /** Of the earlier entries only the sibling of the last statement changes. */
  predicate KeepsBut(ns: seq<Node>, zs: seq<Node>, last: int, next: int) {
    && |ns| <= |zs| && (forall k :: 0 <= k < |ns| && k != last ==> zs[k] == ns[k])
    && (0 <= last < |ns| ==> zs[last] == ns[last].(sibling := if next == NULL then ns[last].sibling else next))
    && (forall k :: |ns| <= k < |zs| ==> !zs[k].address)
  }

  lemma ChainedKeeps(ns: seq<Node>, r: Planted, last: int, zs: seq<Node>, next: int)
    requires r.Planted? && Keeps(ns, r) && last < |ns| && KeepsBut(Chained(r.nodes, last, r.root), zs, r.root, next)
    ensures KeepsBut(ns, zs, last, r.root)
    ensures Grown(r.nodes, zs, |ns|, r.root) && zs[r.root].sibling == next
  {
  }

  lemma {:induction false} AllKeeps(sy: Symbols, max: nat, ns: seq<Node>, last: int, trees: seq<Tree>)
    requires PlantAll(sy, max, ns, last, trees).Some? && last < |ns|
    ensures KeepsBut(ns, PlantAll(sy, max, ns, last, trees).value, last, RootAll(trees, |ns|))
    decreases |trees|
  {
    if trees != [] {
      var r := Plant(sy, max, ns, trees[0]);
      PlantKeeps(sy, max, ns, trees[0]);
      hide Plant, Keeps, KeepsBut, Size;
      AllKeeps(sy, max, Chained(r.nodes, last, r.root), r.root, trees[1..]);
      ChainedKeeps(ns, r, last, PlantAll(sy, max, ns, last, trees).value, RootAll(trees[1..], |r.nodes|));
    }
  }

  /** ms has the planted line from entry n on. */
  predicate Agrees(zs: seq<Node>, ms: seq<Node>, n: nat) {
    |zs| <= |ms| && forall k :: n <= k < |zs| ==> ms[k] == zs[k]
  }

  /** A first statement and the ones planted after it. */
  lemma FirstAndRest(sy: Symbols, max: nat, ns: seq<Node>, last: int, trees: seq<Tree>, ms: seq<Node>)
      returns (ns1: seq<Node>)
    requires trees != [] && PlantAll(sy, max, ns, last, trees).Some? && last < |ns|
    requires Agrees(PlantAll(sy, max, ns, last, trees).value, ms, |ns|)
    ensures Holds(sy, max, ns, trees[0], ms)
    ensures var p := Top(|ns|, trees[0]);
      && p < |ns1| == |ns| + Size(trees[0])
      && PlantAll(sy, max, ns1, p, trees[1..]) == PlantAll(sy, max, ns, last, trees)
      && Agrees(PlantAll(sy, max, ns1, p, trees[1..]).value, ms, |ns1|)
      && p < |ms| && ms[p].sibling == RootAll(trees[1..], |ns1|)
  {
    var r := Plant(sy, max, ns, trees[0]);
    ns1 := Chained(r.nodes, last, r.root);
    PlantKeeps(sy, max, ns, trees[0]);
    AllKeeps(sy, max, ns1, r.root, trees[1..]);
    hide Plant, Size;
    ChainedKeeps(ns, r, last, PlantAll(sy, max, ns, last, trees).value, RootAll(trees[1..], |r.nodes|));
  }

  lemma {:induction false} AllIndices(trees: seq<Tree>, n: nat)
    ensures forall k: nat :: k in Indices(ChainAll(trees, n)) <==> n <= k < n + SizeAll(trees)
    ensures Distinct(ChainAll(trees, n))
    decreases |trees|
  {
    if trees != [] {
      hide Size, ChainOf;
      AllIndices(trees[1..], n + Size(trees[0]));
      ChainIndices(trees[0], n, ChainAll(trees[1..], n + Size(trees[0])));
    }
  }

  lemma ChainAllUnfold(trees: seq<Tree>, n: nat)
    requires trees != []
    ensures RootAll(trees, n) == Top(n, trees[0])
    ensures var c := ChainAll(trees, n); var rest := ChainAll(trees[1..], n + Size(trees[0]));
      c == ChainOf(trees[0], n, rest) && c.Cons? && c.rest == rest
  {
  }

  lemma MeaningAllUnfold(sy: Symbols, trees: seq<Tree>)
    requires trees != [] && MeaningAll(sy, trees).Some?
    ensures Meaning(sy, trees[0]).Some? && MeaningAll(sy, trees[1..]).Some?
    ensures MeaningAll(sy, trees).value == [Meaning(sy, trees[0]).value] + MeaningAll(sy, trees[1..]).value
  {
  }

  lemma EncodesList(ms: seq<Node>, c: Chain, es: seq<Expr>)
    requires c.Cons? && es != [] && Encodes(ms, c, es[0]) && EncodesAll(ms, c.rest, es[1..])
    ensures EncodesAll(ms, c, es)
  {
  }

  lemma NothingEncoded(ms: seq<Node>, sy: Symbols, n: nat)
    ensures MeaningAll(sy, []) == Some([]) && EncodesAll(ms, ChainAll([], n), [])
  {
  }

  lemma NothingLinked(ms: seq<Node>, n: nat)
    ensures Linked(ms, RootAll([], n), ChainAll([], n))
  {
  }

  lemma {:induction false} AllLinked(sy: Symbols, max: nat, ns: seq<Node>, last: int, trees: seq<Tree>, ms: seq<Node>)
    requires PlantAll(sy, max, ns, last, trees).Some? && last < |ns|
    requires Agrees(PlantAll(sy, max, ns, last, trees).value, ms, |ns|)
    ensures Linked(ms, RootAll(trees, |ns|), ChainAll(trees, |ns|))
    decreases |trees|
  {
    hide *;
    if trees == [] {
      NothingLinked(ms, |ns|);
    } else {
      ChainAllUnfold(trees, |ns|);
      var ns1 := FirstAndRest(sy, max, ns, last, trees, ms);
      AllLinked(sy, max, ns1, Top(|ns|, trees[0]), trees[1..], ms);
      PlantLinked(sy, max, ns, trees[0], ms, ChainAll(trees[1..], |ns1|));
    }
  }

  lemma {:induction false} AllEncode(sy: Symbols, max: nat, ns: seq<Node>, last: int, trees: seq<Tree>, ms: seq<Node>)
    requires PlantAll(sy, max, ns, last, trees).Some? && last < |ns| && MeaningAll(sy, trees).Some?
    requires Agrees(PlantAll(sy, max, ns, last, trees).value, ms, |ns|)
    ensures EncodesAll(ms, ChainAll(trees, |ns|), MeaningAll(sy, trees).value)
    decreases |trees|
  {
    hide *;
    if trees != [] {
      ChainAllUnfold(trees, |ns|);
      MeaningAllUnfold(sy, trees);
      var ns1 := FirstAndRest(sy, max, ns, last, trees, ms);
      AllEncode(sy, max, ns1, Top(|ns|, trees[0]), trees[1..], ms);
      PlantEncodes(sy, max, ns, trees[0], ms, ChainAll(trees[1..], |ns1|));
      EncodesList(ms, ChainAll(trees, |ns|), MeaningAll(sy, trees).value);
    } else {
      NothingEncoded(ms, sy, |ns|);
    }
  }

  /** The nodes the parser makes for a line are linked in the table, none twice and none marked. */
  lemma LineIsLinked(sy: Symbols, max: nat, trees: seq<Tree>, ms: seq<Node>)
    requires PlantAll(sy, max, [], NULL, trees).Some? && Agrees(PlantAll(sy, max, [], NULL, trees).value, ms, 0)
    ensures Ready(ms, RootAll(trees, 0), ChainAll(trees, 0))
  {
    AllLinked(sy, max, [], NULL, trees, ms);
    AllIndices(trees, 0);
    AllKeeps(sy, max, [], NULL, trees);
    PlantedAllSize(sy, max, [], NULL, trees);
  }

  /** They are the parse trees of what its statements mean, ready for the compiler. */
  lemma LineIsReady(sy: Symbols, max: nat, trees: seq<Tree>, ms: seq<Node>)
    requires PlantAll(sy, max, [], NULL, trees).Some? && MeaningAll(sy, trees).Some?
    requires Agrees(PlantAll(sy, max, [], NULL, trees).value, ms, 0)
    ensures Ready(ms, RootAll(trees, 0), ChainAll(trees, 0))
    ensures EncodesAll(ms, ChainAll(trees, 0), MeaningAll(sy, trees).value)
  {
    LineIsLinked(sy, max, trees, ms);
    AllEncode(sy, max, [], NULL, trees, ms);
  }

  lemma {:induction false} PlantedAllSize(sy: Symbols, max: nat, ns: seq<Node>, last: int, trees: seq<Tree>)
    requires PlantAll(sy, max, ns, last, trees).Some?
    ensures |PlantAll(sy, max, ns, last, trees).value| == |ns| + SizeAll(trees)
    decreases |trees|
  {
    if trees != [] {
      var r := Plant(sy, max, ns, trees[0]);
      hide Plant, Size;
      PlantedAllSize(sy, max, Chained(r.nodes, last, r.root), r.root, trees[1..]);
    }
  }

  function NodesAll(es: seq<Expr>): nat {
    if es == [] then 0 else Nodes(es[0]) + NodesAll(es[1..])
  }

  /** A meaningful line knows its names and has as many nodes as its expressions. */
  lemma {:induction false} MeaningAllSize(sy: Symbols, trees: seq<Tree>)
    requires MeaningAll(sy, trees).Some?
    ensures KnownAll(sy, trees) && |MeaningAll(sy, trees).value| == |trees|
      && SizeAll(trees) == NodesAll(MeaningAll(sy, trees).value)
    decreases |trees|
  {
    if trees != [] {
      MeaningSize(sy, trees[0]);
      hide Known, Meaning, Size;
      MeaningAllSize(sy, trees[1..]);
    }
  }
}
