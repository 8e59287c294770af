/** The node table of the finsh shell: trees in first-child, next-sibling form over an array of
    nodes, the type check that marks them, and the code read off them. */
module FinshNodes {
  import opened FinshExpr
  import opened FinshCode

  const NULL := -1

  datatype Kind =
    | Unknown                                          // an entry not allocated
    | Id | Value
    | SysBinary(op: BinOp) | SysBitwise | SysAssign
    | SysPreStep(op: BinOp) | SysPostStep(op: BinOp)   // ++ is Add, -- is Sub
    | SysGetValue | SysGetAddr

  datatype DataType = Void | Byte | Short | Dword

  /** address is the FINSH_IDTYPE_ADDRESS bit of idtype; word is the constant, or the address of the
      variable's value; child and sibling are indices into the table, or NULL. */
  datatype Node = Node(kind: Kind, dataType: DataType, address: bool, word: Word, child: int, sibling: int)

  /** The shape of a tree in the table: which node comes first, what hangs below it, what follows. */
  datatype Chain = Nil | Cons(idx: nat, kids: Chain, rest: Chain)

  ghost predicate Linked(ns: seq<Node>, p: int, c: Chain)
    decreases c
  {
    match c
    case Nil => p == NULL
    case Cons(i, kids, rest) =>
      p == i && i < |ns| && Linked(ns, ns[i].child, kids) && Linked(ns, ns[i].sibling, rest)
  }

  ghost function Indices(c: Chain): set<nat> {
    match c
    case Nil => {}
    case Cons(i, kids, rest) => {i} + Indices(kids) + Indices(rest)
  }

  /** No node is used twice. */
  ghost predicate Distinct(c: Chain) {
    match c
    case Nil => true
    case Cons(i, kids, rest) =>
      && i !in Indices(kids) && i !in Indices(rest) && Indices(kids) !! Indices(rest)
      && Distinct(kids) && Distinct(rest)
  }

  /** ms is ns with at most the marks (address, dataType) of the nodes in `where` changed. */
  ghost predicate Remarked(ns: seq<Node>, ms: seq<Node>, where: set<nat>) {
    && |ms| == |ns|
    && forall k :: 0 <= k < |ns| ==>
         (k !in where ==> ms[k] == ns[k]) && SameButMarks(ns[k], ms[k])
  }

  predicate SameButMarks(n: Node, m: Node) {
    m.kind == n.kind && m.word == n.word && m.child == n.child && m.sibling == n.sibling
  }

  lemma {:induction false} RemarkedLinked(ns: seq<Node>, ms: seq<Node>, where: set<nat>, p: int, c: Chain)
    requires Linked(ns, p, c) && Remarked(ns, ms, where)
    ensures Linked(ms, p, c)
    decreases c
  {
    if c.Cons? {
      RemarkedLinked(ns, ms, where, ns[c.idx].child, c.kids);
      RemarkedLinked(ns, ms, where, ns[c.idx].sibling, c.rest);
    }
  }

  // ----- finsh_type_check -----

  /** The address mark finsh_type_check hands to the first child. */
  predicate KidFlag(k: Kind, isAddr: bool) {
    if k.SysAssign? || k.SysPreStep? || k.SysGetAddr? then true
    else if k.SysGetValue? && isAddr then false
    else isAddr
  }

  function Mark(ns: seq<Node>, i: nat, isAddr: bool): seq<Node>
    requires i < |ns|
  {
    var n := ns[i].(address := ns[i].address || isAddr);
    ns[i := if 0 <= n.child < |ns| then n.(dataType := ns[n.child].dataType)
            else if n.kind.Id? || n.kind.Value? then n.(dataType := Dword)
            else n]
  }

  function Typed(ns: seq<Node>, c: Chain, isAddr: bool): (ms: seq<Node>)
    ensures |ms| == |ns|
    decreases c
  {
    match c
    case Nil => ns
    case Cons(i, kids, rest) =>
      if i >= |ns| then ns
      else Mark(Typed(Typed(ns, kids, KidFlag(ns[i].kind, isAddr)), rest, false), i, isAddr)
  }

  lemma {:induction false} TypedRemarks(ns: seq<Node>, c: Chain, isAddr: bool)
    ensures Remarked(ns, Typed(ns, c, isAddr), Indices(c))
    decreases c
  {
    if c.Cons? && c.idx < |ns| {
      var flag := KidFlag(ns[c.idx].kind, isAddr);
      TypedRemarks(ns, c.kids, flag);
      TypedRemarks(Typed(ns, c.kids, flag), c.rest, false);
    }
  }

  // ----- trees that stand for expressions -----

  /** The node is a leaf of the given kind and word. */
  predicate Leaf(ns: seq<Node>, c: Chain, k: Kind, w: Word) {
    c.Cons? && c.idx < |ns| && c.kids.Nil? && ns[c.idx].kind == k && ns[c.idx].word == w
  }

  predicate Inner(ns: seq<Node>, c: Chain, k: Kind) {
    c.Cons? && c.idx < |ns| && c.kids.Cons? && ns[c.idx].kind == k
  }

  /** The first tree of the chain is the parse tree of e. */
  predicate Encodes(ns: seq<Node>, c: Chain, e: Expr) {
    match e
    case Num(v) => Leaf(ns, c, Value, v)
    case Read(lv) => LEncodes(ns, c, lv)
    case AddrOf(lv) => Inner(ns, c, SysGetAddr) && c.kids.rest.Nil? && LEncodes(ns, c.kids, lv)
    case Assign(lv, rhs) =>
      Inner(ns, c, SysAssign) && LEncodes(ns, c.kids, lv) && Encodes(ns, c.kids.rest, rhs) && Single(c.kids.rest)
    case Binary(op, l, r) =>
      Inner(ns, c, SysBinary(op)) && Encodes(ns, c.kids, l) && Encodes(ns, c.kids.rest, r) && Single(c.kids.rest)
    case Complement(arg) => Inner(ns, c, SysBitwise) && Encodes(ns, c.kids, arg) && c.kids.rest.Nil?
    case PreStep(a, op) => Inner(ns, c, SysPreStep(op)) && Leaf(ns, c.kids, Id, a) && c.kids.rest.Nil?
    case PostStep(a, op) => Inner(ns, c, SysPostStep(op)) && Leaf(ns, c.kids, Id, a) && c.kids.rest.Nil?
  }

  predicate Single(c: Chain) { c.Cons? && c.rest.Nil? }

  predicate LEncodes(ns: seq<Node>, c: Chain, lv: LValue) {
    match lv
    case Ident(a) => Leaf(ns, c, Id, a)
    case Deref(p) => Inner(ns, c, SysGetValue) && Encodes(ns, c.kids, p) && c.kids.rest.Nil?
  }

  /** No node of the chain carries the address mark yet. */
  ghost predicate Unmarked(ns: seq<Node>, c: Chain) {
    forall k :: k in Indices(c) && k < |ns| ==> !ns[k].address
  }

  // ----- what the marks are after the type check -----

  predicate Marked(ns: seq<Node>, c: Chain, isAddr: bool) {
    c.Cons? && c.idx < |ns| && ns[c.idx].dataType.Dword? && ns[c.idx].address == isAddr
  }

  predicate LongSized(ns: seq<Node>, c: Chain) {
    c.Cons? && c.idx < |ns| && ns[c.idx].dataType.Dword?
  }

  /** The tree of e is marked so that it will leave e's value. */
  predicate ValueMarks(ns: seq<Node>, c: Chain, e: Expr)
    requires Encodes(ns, c, e)
  {
    match e
    case Num(_) => LongSized(ns, c)
    case Read(lv) => LMarks(ns, c, lv, false)
    case AddrOf(lv) => LongSized(ns, c) && LMarks(ns, c.kids, lv, true)
    case Assign(lv, rhs) => LongSized(ns, c) && LMarks(ns, c.kids, lv, true) && ValueMarks(ns, c.kids.rest, rhs)
    case Binary(_, l, r) => LongSized(ns, c) && ValueMarks(ns, c.kids, l) && ValueMarks(ns, c.kids.rest, r)
    case Complement(arg) => LongSized(ns, c) && ValueMarks(ns, c.kids, arg)
    case PreStep(_, _) => LongSized(ns, c) && Marked(ns, c.kids, true)
    case PostStep(_, _) => LongSized(ns, c) && Marked(ns, c.kids, false)
  }

  /** The tree of lv is marked so that it will leave lv's address (isAddr) or value. */
  predicate LMarks(ns: seq<Node>, c: Chain, lv: LValue, isAddr: bool)
    requires LEncodes(ns, c, lv)
  {
    match lv
    case Ident(_) => Marked(ns, c, isAddr)
    case Deref(p) => Marked(ns, c, isAddr) && ValueMarks(ns, c.kids, p)
  }

  lemma {:induction false} RemarkedEncodes(ns: seq<Node>, ms: seq<Node>, where: set<nat>, c: Chain, e: Expr)
    requires Encodes(ns, c, e) && Remarked(ns, ms, where)
    ensures Encodes(ms, c, e)
    decreases e
  {
    match e
    case Num(_) =>
    case Read(lv) => RemarkedLEncodes(ns, ms, where, c, lv);
    case AddrOf(lv) => RemarkedLEncodes(ns, ms, where, c.kids, lv);
    case Assign(lv, rhs) => RemarkedLEncodes(ns, ms, where, c.kids, lv);
      RemarkedEncodes(ns, ms, where, c.kids.rest, rhs);
    case Binary(_, l, r) => RemarkedEncodes(ns, ms, where, c.kids, l); RemarkedEncodes(ns, ms, where, c.kids.rest, r);
    case Complement(arg) => RemarkedEncodes(ns, ms, where, c.kids, arg);
    case PreStep(_, _) =>
    case PostStep(_, _) =>
  }

  lemma RemarkedLEncodes(ns: seq<Node>, ms: seq<Node>, where: set<nat>, c: Chain, lv: LValue)
    requires LEncodes(ns, c, lv) && Remarked(ns, ms, where)
    ensures LEncodes(ms, c, lv)
    decreases lv
  {
    match lv
    case Ident(_) =>
    case Deref(p) => RemarkedEncodes(ns, ms, where, c.kids, p);
  }

  /** Changing marks elsewhere does not disturb the marks of a tree. */
  lemma {:induction false} MarksKept(ns: seq<Node>, ms: seq<Node>, where: set<nat>, c: Chain, e: Expr)
    requires Encodes(ns, c, e) && ValueMarks(ns, c, e)
    requires Remarked(ns, ms, where) && c.Cons? && c.idx !in where && Indices(c.kids) !! where
    ensures Encodes(ms, c, e) && ValueMarks(ms, c, e)
    decreases e
  {
    RemarkedEncodes(ns, ms, where, c, e);
    match e
    case Num(_) =>
    case Read(lv) => LMarksKept(ns, ms, where, c, lv, false);
    case AddrOf(lv) => LMarksKept(ns, ms, where, c.kids, lv, true);
    case Assign(lv, rhs) => LMarksKept(ns, ms, where, c.kids, lv, true); MarksKept(ns, ms, where, c.kids.rest, rhs);
    case Binary(_, l, r) => MarksKept(ns, ms, where, c.kids, l); MarksKept(ns, ms, where, c.kids.rest, r);
    case Complement(arg) => MarksKept(ns, ms, where, c.kids, arg);
    case PreStep(_, _) =>
    case PostStep(_, _) =>
  }

  lemma LMarksKept(ns: seq<Node>, ms: seq<Node>, where: set<nat>, c: Chain, lv: LValue, isAddr: bool)
    requires LEncodes(ns, c, lv) && LMarks(ns, c, lv, isAddr)
    requires Remarked(ns, ms, where) && c.Cons? && c.idx !in where && Indices(c.kids) !! where
    ensures LEncodes(ms, c, lv) && LMarks(ms, c, lv, isAddr)
    decreases lv
  {
    RemarkedLEncodes(ns, ms, where, c, lv);
    match lv
    case Ident(_) =>
    case Deref(p) => MarksKept(ns, ms, where, c.kids, p);
  }

  // ----- the type check marks every expression tree -----

  ghost predicate Ready(ns: seq<Node>, p: int, c: Chain) {
    Linked(ns, p, c) && Distinct(c) && Unmarked(ns, c)
  }

  lemma ReadyKids(ns: seq<Node>, p: int, c: Chain)
    requires Ready(ns, p, c) && c.Cons?
    ensures Ready(ns, ns[c.idx].child, c.kids)
  {
  }

  /** Once the kids are marked, the rest of the chain is still as the type check wants it. */
  lemma ReadyRest(ns: seq<Node>, p: int, c: Chain, flag: bool)
    requires Ready(ns, p, c) && c.Cons?
    ensures Ready(Typed(ns, c.kids, flag), ns[c.idx].sibling, c.rest)
  {
    TypedRemarks(ns, c.kids, flag);
    RemarkedLinked(ns, Typed(ns, c.kids, flag), Indices(c.kids), ns[c.idx].sibling, c.rest);
  }

  /** From the marking of the kids on, only the rest of the chain and the node itself change. */
  lemma AfterKids(ns: seq<Node>, p: int, c: Chain, isAddr: bool)
    requires Ready(ns, p, c) && c.Cons?
    ensures var ms0 := Typed(ns, c.kids, KidFlag(ns[c.idx].kind, isAddr));
      Remarked(ms0, Typed(ns, c, isAddr), Indices(c.rest) + {c.idx})
  {
    TypedRemarks(Typed(ns, c.kids, KidFlag(ns[c.idx].kind, isAddr)), c.rest, false);
  }

  /** After its kids and the rest of the chain, only the node itself changes. */
  lemma AfterRest(ns: seq<Node>, p: int, c: Chain)
    requires Ready(ns, p, c) && c.Cons?
    ensures var ms0 := Typed(ns, c.kids, KidFlag(ns[c.idx].kind, false));
      Remarked(Typed(ms0, c.rest, false), Typed(ns, c, false), {c.idx})
  {
  }

  /** The marks of the node itself. */
  lemma HeadMarks(ns: seq<Node>, p: int, c: Chain, isAddr: bool)
    requires Ready(ns, p, c) && c.Cons?
    ensures var ms := Typed(ns, c, isAddr); var ms0 := Typed(ns, c.kids, KidFlag(ns[c.idx].kind, isAddr));
      && ms[c.idx].address == isAddr
      && (c.kids.Nil? && (ns[c.idx].kind.Id? || ns[c.idx].kind.Value?) ==> ms[c.idx].dataType.Dword?)
      && (c.kids.Cons? ==> c.kids.idx < |ms0| && ms[c.idx].dataType == ms0[c.kids.idx].dataType)
  {
    var ms0 := Typed(ns, c.kids, KidFlag(ns[c.idx].kind, isAddr));
    var ms1 := Typed(ms0, c.rest, false);
    TypedRemarks(ns, c.kids, KidFlag(ns[c.idx].kind, isAddr));
    TypedRemarks(ms0, c.rest, false);
    assert c.idx in Indices(c);
    assert Linked(ns, ns[c.idx].child, c.kids);
    if c.kids.Cons? {
      assert c.kids.idx in Indices(c.kids);
      assert ms1[c.kids.idx] == ms0[c.kids.idx] && ms1[c.idx].child == c.kids.idx;
    } else {
      assert ms1[c.idx].child == NULL;
    }
  }

  lemma MarksDword(ns: seq<Node>, c: Chain, e: Expr)
    requires Encodes(ns, c, e) && ValueMarks(ns, c, e)
    ensures LongSized(ns, c)
  {
  }

  /** After the type check in a value context, the tree of e is marked for e's value. */
  lemma {:induction false} TypedValue(ns: seq<Node>, p: int, c: Chain, e: Expr)
    requires Ready(ns, p, c) && Encodes(ns, c, e)
    ensures Encodes(Typed(ns, c, false), c, e) && ValueMarks(Typed(ns, c, false), c, e)
    decreases e, 1
  {
    var ms := Typed(ns, c, false);
    TypedRemarks(ns, c, false);
    RemarkedEncodes(ns, ms, Indices(c), c, e);
    HeadMarks(ns, p, c, false);
    var flag := KidFlag(ns[c.idx].kind, false);
    var ms0 := Typed(ns, c.kids, flag);
    AfterKids(ns, p, c, false);
    var later := Indices(c.rest) + {c.idx};
    ReadyKids(ns, p, c);
    var q := ns[c.idx].child;
    match e
    case Num(_) =>
    case Read(lv) =>
      TypedLValue(ns, p, c, lv, false);
    case AddrOf(lv) =>
      TypedLValue(ns, q, c.kids, lv, true);
      LMarksKept(ms0, ms, later, c.kids, lv, true);
    case Assign(lv, rhs) =>
      TypedLValue(ns, q, c.kids, lv, true);
      LMarksKept(ms0, ms, later, c.kids, lv, true);
      TypedSecond(ns, q, c.kids, true, rhs);
      MarksKept(ms0, ms, later, c.kids.rest, rhs);
    case Binary(_, l, r) =>
      TypedValue(ns, q, c.kids, l);
      MarksDword(ms0, c.kids, l);
      MarksKept(ms0, ms, later, c.kids, l);
      TypedSecond(ns, q, c.kids, false, r);
      MarksKept(ms0, ms, later, c.kids.rest, r);
    case Complement(arg) =>
      TypedValue(ns, q, c.kids, arg);
      MarksDword(ms0, c.kids, arg);
      MarksKept(ms0, ms, later, c.kids, arg);
    case PreStep(a, _) =>
      HeadMarks(ns, q, c.kids, true);
    case PostStep(a, _) =>
      HeadMarks(ns, q, c.kids, false);
  }

  lemma TypedLValue(ns: seq<Node>, p: int, c: Chain, lv: LValue, isAddr: bool)
    requires Ready(ns, p, c) && LEncodes(ns, c, lv)
    ensures LEncodes(Typed(ns, c, isAddr), c, lv) && LMarks(Typed(ns, c, isAddr), c, lv, isAddr)
    decreases lv, 0
  {
    var ms := Typed(ns, c, isAddr);
    TypedRemarks(ns, c, isAddr);
    RemarkedLEncodes(ns, ms, Indices(c), c, lv);
    HeadMarks(ns, p, c, isAddr);
    match lv
    case Ident(_) =>
    case Deref(ptr) =>
      ReadyKids(ns, p, c);
      TypedValue(ns, ns[c.idx].child, c.kids, ptr);
      var ms0 := Typed(ns, c.kids, false);
      MarksDword(ms0, c.kids, ptr);
      AfterKids(ns, p, c, isAddr);
      MarksKept(ms0, ms, Indices(c.rest) + {c.idx}, c.kids, ptr);
  }

  /** The second tree of a chain is always marked for its value. */
  lemma TypedSecond(ns: seq<Node>, p: int, c: Chain, isAddr: bool, e: Expr)
    requires Ready(ns, p, c) && c.Cons? && Encodes(ns, c.rest, e)
    ensures Encodes(Typed(ns, c, isAddr), c.rest, e) && ValueMarks(Typed(ns, c, isAddr), c.rest, e)
    decreases e, 2
  {
    var flag := KidFlag(ns[c.idx].kind, isAddr);
    var ms0 := Typed(ns, c.kids, flag);
    TypedRemarks(ns, c.kids, flag);
    RemarkedEncodes(ns, ms0, Indices(c.kids), c.rest, e);
    ReadyRest(ns, p, c, flag);
    TypedValue(ms0, ns[c.idx].sibling, c.rest, e);
    var ms1 := Typed(ms0, c.rest, false);
    var ms := Typed(ns, c, isAddr);
    assert Remarked(ms1, ms, {c.idx});
    EncodesCons(ms1, c.rest, e);
    MarksKept(ms1, ms, {c.idx}, c.rest, e);
  }

  lemma EncodesCons(ns: seq<Node>, c: Chain, e: Expr)
    requires Encodes(ns, c, e)
    ensures c.Cons?
  {
  }

  // ----- finsh_compile -----

  /** What finsh_compile emits at a node once its children have been compiled. */
  function NodeCode(ns: seq<Node>, i: nat, kids: Chain): seq<Instr>
    requires i < |ns|
  {
    var n := ns[i];
    var kid := if kids.Cons? && kids.idx < |ns| then Some(ns[kids.idx]) else None;
    match n.kind
    case Unknown => []
    case Id => if n.address then [LdDword(n.word)] else [LdValueDword(n.word)]
    case Value => [LdDword(n.word)]
    case SysBinary(op) => if n.dataType.Dword? then [BinDword(op)] else []
    case SysBitwise => if n.dataType.Dword? then [BitwiseDword] else []
    case SysAssign =>
      if kid.Some? && (kid.value.kind.Id? || kid.value.kind.SysGetValue?) && kid.value.dataType.Dword?
      then [StDword, LdValueDwordStack] else []
    case SysPreStep(op) =>
      if kid.Some? && kid.value.kind.Id? && n.dataType.Dword?
      then [LdValueDword(kid.value.word), LdDword(1), BinDword(op), StDword, LdValueDwordStack] else []
    case SysPostStep(op) =>
      if kid.Some? && kid.value.kind.Id? && n.dataType.Dword?
      then [LdDword(kid.value.word), LdValueDword(kid.value.word), LdDword(1), BinDword(op), StDword, Pop] else []
    case SysGetValue => if n.address || !n.dataType.Dword? then [] else [LdValueDwordStack]
    case SysGetAddr => []
  }

  /** Child first, then the node, then the sibling. */
  function Emitted(ns: seq<Node>, c: Chain): seq<Instr> {
    match c
    case Nil => []
    case Cons(i, kids, rest) =>
      if i >= |ns| then [] else Emitted(ns, kids) + NodeCode(ns, i, kids) + Emitted(ns, rest)
  }

  lemma EmittedUnfold(ns: seq<Node>, c: Chain)
    requires c.Cons? && c.idx < |ns|
    ensures Emitted(ns, c) == Emitted(ns, c.kids) + NodeCode(ns, c.idx, c.kids) + Emitted(ns, c.rest)
  {
  }

  /** The code of a node with two children. */
  lemma EmittedTwo(ns: seq<Node>, c: Chain, first: seq<Instr>, second: seq<Instr>, own: seq<Instr>)
    requires c.Cons? && c.idx < |ns| && c.kids.Cons? && Single(c.kids.rest)
    requires Emitted(ns, c.kids) == first + Emitted(ns, c.kids.rest)
    requires Emitted(ns, c.kids.rest) == second + Emitted(ns, c.kids.rest.rest)
    requires NodeCode(ns, c.idx, c.kids) == own
    ensures Emitted(ns, c) == first + (second + own) + Emitted(ns, c.rest)
  {
    EmittedNil(ns);
    EmittedUnfold(ns, c);
  }

  /** On a marked tree the compiler emits the code of the expression it stands for. */
  lemma {:induction false} EmittedIsCode(ns: seq<Node>, c: Chain, e: Expr)
    requires Encodes(ns, c, e) && ValueMarks(ns, c, e)
    ensures c.Cons? && Emitted(ns, c) == Code(e) + Emitted(ns, c.rest)
    decreases e
  {
    hide Emitted;
    match e
    case Num(_) => EmittedValue(ns, c);
    case Read(lv) => EmittedIsAddress(ns, c, lv, false);
    case AddrOf(lv) =>
      EmittedIsAddress(ns, c.kids, lv, true);
      EmittedUnfold(ns, c);
      EmittedNil(ns);
    case Assign(lv, rhs) =>
      EmittedIsAddress(ns, c.kids, lv, true);
      EmittedIsCode(ns, c.kids.rest, rhs);
      EmittedTwo(ns, c, AddressCode(lv), Code(rhs), [StDword, LdValueDwordStack]);
    case Binary(op, l, r) =>
      EmittedIsCode(ns, c.kids, l);
      EmittedIsCode(ns, c.kids.rest, r);
      EmittedTwo(ns, c, Code(l), Code(r), [BinDword(op)]);
    case Complement(arg) =>
      EmittedIsCode(ns, c.kids, arg);
      EmittedUnfold(ns, c);
      EmittedNil(ns);
    case PreStep(a, op) =>
      EmittedLeaf(ns, c.kids);
      EmittedUnfold(ns, c);
    case PostStep(a, op) =>
      EmittedLeaf(ns, c.kids);
      EmittedUnfold(ns, c);
  }

  lemma EmittedNil(ns: seq<Node>)
    ensures Emitted(ns, Nil) == []
  {
  }

  lemma EmittedValue(ns: seq<Node>, c: Chain)
    requires c.Cons? && c.idx < |ns| && c.kids.Nil? && ns[c.idx].kind.Value?
    ensures Emitted(ns, c) == [LdDword(ns[c.idx].word)] + Emitted(ns, c.rest)
  {
  }

  lemma EmittedLeaf(ns: seq<Node>, c: Chain)
    requires c.Cons? && c.idx < |ns| && c.kids.Nil? && c.rest.Nil? && ns[c.idx].kind.Id?
    ensures Emitted(ns, c) == if ns[c.idx].address then [LdDword(ns[c.idx].word)] else [LdValueDword(ns[c.idx].word)]
  {
  }

  lemma EmittedIsAddress(ns: seq<Node>, c: Chain, lv: LValue, isAddr: bool)
    requires LEncodes(ns, c, lv) && LMarks(ns, c, lv, isAddr)
    ensures c.Cons?
    ensures Emitted(ns, c) == (if isAddr then AddressCode(lv) else Code(Read(lv))) + Emitted(ns, c.rest)
    decreases lv
  {
    match lv
    case Ident(_) =>
    case Deref(p) =>
      EmittedIsCode(ns, c.kids, p);
      assert Emitted(ns, c.kids) == Code(p);
  }

  // ----- a list of statements -----

  /** The trees of the chain are, in order, the parse trees of es. */
  predicate EncodesAll(ns: seq<Node>, c: Chain, es: seq<Expr>) {
    match c
    case Nil => es == []
    case Cons(_, _, rest) => es != [] && Encodes(ns, c, es[0]) && EncodesAll(ns, rest, es[1..])
  }

  predicate MarksAll(ns: seq<Node>, c: Chain, es: seq<Expr>)
    requires EncodesAll(ns, c, es)
  {
    c.Cons? ==> ValueMarks(ns, c, es[0]) && MarksAll(ns, c.rest, es[1..])
  }

  lemma {:induction false} RemarkedEncodesAll(ns: seq<Node>, ms: seq<Node>, where: set<nat>, c: Chain, es: seq<Expr>)
    requires EncodesAll(ns, c, es) && Remarked(ns, ms, where)
    ensures EncodesAll(ms, c, es)
    decreases c
  {
    if c.Cons? {
      RemarkedEncodes(ns, ms, where, c, es[0]);
      RemarkedEncodesAll(ns, ms, where, c.rest, es[1..]);
    }
  }

  lemma {:induction false} MarksAllKept(ns: seq<Node>, ms: seq<Node>, where: set<nat>, c: Chain, es: seq<Expr>)
    requires EncodesAll(ns, c, es) && MarksAll(ns, c, es) && Remarked(ns, ms, where) && Indices(c) !! where
    ensures EncodesAll(ms, c, es) && MarksAll(ms, c, es)
    decreases c
  {
    if c.Cons? {
      MarksKept(ns, ms, where, c, es[0]);
      MarksAllKept(ns, ms, where, c.rest, es[1..]);
    }
  }

  /** The type check marks every statement of the list for its value. */
  lemma {:induction false} TypedAll(ns: seq<Node>, p: int, c: Chain, es: seq<Expr>)
    requires Ready(ns, p, c) && EncodesAll(ns, c, es)
    ensures EncodesAll(Typed(ns, c, false), c, es) && MarksAll(Typed(ns, c, false), c, es)
    decreases c
  {
    if c.Cons? {
      var flag := KidFlag(ns[c.idx].kind, false);
      var ms0 := Typed(ns, c.kids, flag);
      TypedValue(ns, p, c, es[0]);
      AfterRest(ns, p, c);
      hide Encodes, ValueMarks, Typed, Remarked;
      TypedRemarks(ns, c.kids, flag);
      RemarkedEncodesAll(ns, ms0, Indices(c.kids), c.rest, es[1..]);
      ReadyRest(ns, p, c, flag);
      TypedAll(ms0, ns[c.idx].sibling, c.rest, es[1..]);
      MarksAllKept(Typed(ms0, c.rest, false), Typed(ns, c, false), {c.idx}, c.rest, es[1..]);
    }
  }

  // ----- cutting a statement off the list -----

  function Cut(ns: seq<Node>, i: nat): seq<Node>
    requires i < |ns|
  {
    ns[i := ns[i].(sibling := NULL)]
  }

  lemma {:induction false} CutEncodes(ns: seq<Node>, i: nat, c: Chain, e: Expr)
    requires i < |ns| && Encodes(ns, c, e)
    ensures Encodes(Cut(ns, i), c, e) && (ValueMarks(ns, c, e) ==> ValueMarks(Cut(ns, i), c, e))
    decreases e
  {
    match e
    case Num(_) =>
    case Read(lv) => CutLEncodes(ns, i, c, lv);
    case AddrOf(lv) => CutLEncodes(ns, i, c.kids, lv);
    case Assign(lv, rhs) => CutLEncodes(ns, i, c.kids, lv); CutEncodes(ns, i, c.kids.rest, rhs);
    case Binary(_, l, r) => CutEncodes(ns, i, c.kids, l); CutEncodes(ns, i, c.kids.rest, r);
    case Complement(arg) => CutEncodes(ns, i, c.kids, arg);
    case PreStep(_, _) =>
    case PostStep(_, _) =>
  }

  lemma CutLEncodes(ns: seq<Node>, i: nat, c: Chain, lv: LValue)
    requires i < |ns| && LEncodes(ns, c, lv)
    ensures LEncodes(Cut(ns, i), c, lv)
    ensures forall f :: LMarks(ns, c, lv, f) ==> LMarks(Cut(ns, i), c, lv, f)
    decreases lv
  {
    match lv
    case Ident(_) =>
    case Deref(p) => CutEncodes(ns, i, c.kids, p);
  }

  lemma {:induction false} CutAll(ns: seq<Node>, i: nat, c: Chain, es: seq<Expr>)
    requires i < |ns| && EncodesAll(ns, c, es) && MarksAll(ns, c, es)
    ensures EncodesAll(Cut(ns, i), c, es) && MarksAll(Cut(ns, i), c, es)
    decreases c
  {
    if c.Cons? {
      CutEncodes(ns, i, c, es[0]);
      CutAll(ns, i, c.rest, es[1..]);
    }
  }

  lemma {:induction false} CutLinked(ns: seq<Node>, i: nat, p: int, c: Chain)
    requires i < |ns| && Linked(ns, p, c) && i !in Indices(c)
    ensures Linked(Cut(ns, i), p, c)
    decreases c
  {
    if c.Cons? {
      CutLinked(ns, i, ns[c.idx].child, c.kids);
      CutLinked(ns, i, ns[c.idx].sibling, c.rest);
    }
  }

  /** The tree at the head of a list, on its own. */
  lemma CutHead(ns: seq<Node>, p: int, c: Chain, e: Expr)
    requires Linked(ns, p, c) && Distinct(c) && Encodes(ns, c, e) && ValueMarks(ns, c, e)
    ensures c.Cons?
    ensures var ms, alone := Cut(ns, c.idx), Cons(c.idx, c.kids, Nil);
      Linked(ms, p, alone) && Emitted(ms, alone) == Code(e)
  {
    EncodesCons(ns, c, e);
    var ms, alone := Cut(ns, c.idx), Cons(c.idx, c.kids, Nil);
    CutLinked(ns, c.idx, ns[c.idx].child, c.kids);
    CutEncodes(ns, c.idx, c, e);
    RestIrrelevant(ms, c, e);
    EmittedIsCode(ms, alone, e);
    EmittedNil(ms);
  }

  lemma RestIrrelevant(ns: seq<Node>, c: Chain, e: Expr)
    requires Encodes(ns, c, e) && ValueMarks(ns, c, e) && c.Cons?
    ensures Encodes(ns, Cons(c.idx, c.kids, Nil), e) && ValueMarks(ns, Cons(c.idx, c.kids, Nil), e)
  {
  }
}
