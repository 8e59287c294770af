/** The recursive descent parser of finsh_parser.c: a token at a time, with one token that can be put back,
    and the nodes it makes in the node table. */
module FinshParser {
  import opened FinshExpr
  import opened FinshNodes
  import opened FinshGrammar
  import opened FinshLines
  import opened FinshTrees

  const BLANK := Node(Unknown, Void, false, 0, NULL, NULL)

  /** What a procedure leaves: the nodes in the table, the one it returns, and the tokens to be read. */
  datatype Outcome = Bad | Good(nodes: seq<Node>, root: nat, rest: seq<Token>)

  /** A parse and the nodes made for it. */
  function Result(sy: Symbols, max: nat, before: seq<Node>, spec: Parsed): (r: Outcome)
    ensures r.Good? ==> |before| <= r.root < |r.nodes|
  {
    match spec
    case Fail => Bad
    case Got(t, rest) =>
      match Plant(sy, max, before, t)
      case Refused => Bad
      case Planted(ns, p) => Good(ns, p, rest)
  }

  function Finish(plan: Planted, rest: seq<Token>): Outcome {
    if plan.Refused? then Bad else Good(plan.nodes, plan.root, rest)
  }

  /** The nodes of the statements of a line, after one whose root is last. */
  function LineResult(sy: Symbols, max: nat, before: seq<Node>, last: int, l: Line): Option<seq<Node>> {
    if l.BadLine? then None else PlantAll(sy, max, before, last, l.trees)
  }

  // ----- what the procedures of the grammar make -----

  /** An operand that was refused makes what is built on it refused. */
  lemma {:induction false} MoreRefused(sy: Symbols, max: nat, ns: seq<Node>, k: nat, l: Tree, ts: seq<Token>)
    requires 1 <= k < UNARY && Plant(sy, max, ns, l).Refused?
    ensures Result(sy, max, ns, ParseMore(k, l, ts)) == Bad
    decreases |ts|
  {
    if Head(ts).TOp? && LevelOf(ts[0].op) == k {
      match ParseLevel(k + 1, ts[1..])
      case Fail =>
      case Got(r, rest) =>
        PlantUnfold(sy, max, ns, Bin(ts[0].op, l, r));
        hide Plant, ParseLevel;
        MoreRefused(sy, max, ns, k, Bin(ts[0].op, l, r), rest);
    }
  }

  lemma {:induction false} StepsRefused(sy: Symbols, max: nat, ns: seq<Node>, t: Tree, ts: seq<Token>)
    requires Plant(sy, max, ns, t).Refused?
    ensures Result(sy, max, ns, ParseSteps(t, ts)) == Bad
    decreases |ts|
  {
    if Head(ts) == TInc {
      StepsRefused(sy, max, ns, Post(Add, t), ts[1..]);
    } else if Head(ts) == TDec {
      StepsRefused(sy, max, ns, Post(Sub, t), ts[1..]);
    }
  }

  /** After the operand a: itself or, before =, an assignment to it. */
  function AssignNext(sy: Symbols, max: nat, a: Outcome): Outcome
    requires a.Good? ==> a.root < |a.nodes|
  {
    if a.Bad? || Head(a.rest) != TAssign then a
    else
      var b := Result(sy, max, a.nodes, ParseAssign(a.rest[1..]));
      if b.Bad? then Bad else Finish(Joined(max, b.nodes, SysAssign, a.root, b.root), b.rest)
  }

  lemma PlantAssign(sy: Symbols, max: nat, ns: seq<Node>, l: Tree, r: Tree)
    ensures var a := Plant(sy, max, ns, l);
      Plant(sy, max, ns, Assignment(l, r)) ==
        if a.Refused? then Refused else OverTwo(max, a.root, Plant(sy, max, a.nodes, r), SysAssign)
  {
    PlantUnfold(sy, max, ns, Assignment(l, r));
  }

  lemma AssignResult(sy: Symbols, max: nat, ns: seq<Node>, ts: seq<Token>)
    ensures var a := Result(sy, max, ns, ParseLevel(1, ts));
      (a.Good? ==> |a.rest| < |ts|) && Result(sy, max, ns, ParseAssign(ts)) == AssignNext(sy, max, a)
  {
    match ParseLevel(1, ts)
    case Fail =>
    case Got(l, rest) =>
      if Head(rest) == TAssign {
        match ParseAssign(rest[1..])
        case Fail =>
        case Got(r, rest2) =>
          PlantAssign(sy, max, ns, l, r);
          hide Plant, ParseLevel;
      }
  }

  lemma LevelResult(sy: Symbols, max: nat, ns: seq<Node>, k: nat, ts: seq<Token>)
    requires 1 <= k < UNARY
    ensures var a := ParseLevel(k + 1, ts);
      && (Result(sy, max, ns, a).Bad? ==> Result(sy, max, ns, ParseLevel(k, ts)).Bad?)
      && (a.Got? ==> ParseLevel(k, ts) == ParseMore(k, a.tree, a.rest))
  {
    match ParseLevel(k + 1, ts)
    case Fail =>
    case Got(l, rest) =>
      if Plant(sy, max, ns, l).Refused? { MoreRefused(sy, max, ns, k, l, rest); }
  }

  /** One operator of the loop of a level. */
  lemma MoreResult(sy: Symbols, max: nat, ns: seq<Node>, k: nat, l: Tree, ts: seq<Token>)
    requires 1 <= k < UNARY && Plant(sy, max, ns, l).Planted? && Head(ts).TOp? && LevelOf(ts[0].op) == k
    ensures var a, spec := Plant(sy, max, ns, l), ParseLevel(k + 1, ts[1..]);
      var b, whole := Result(sy, max, a.nodes, spec), Result(sy, max, ns, ParseMore(k, l, ts));
      if b.Bad? then whole.Bad?
      else
        var plan, t := Joined(max, b.nodes, SysBinary(ts[0].op), a.root, b.root), Bin(ts[0].op, l, spec.tree);
        && spec.Got? && spec.rest == b.rest && |b.rest| < |ts| && ParseMore(k, l, ts) == ParseMore(k, t, b.rest)
        && Plant(sy, max, ns, t) == plan && (plan.Refused? ==> whole.Bad?)
  {
    match ParseLevel(k + 1, ts[1..])
    case Fail =>
    case Got(r, rest) =>
      var t := Bin(ts[0].op, l, r);
      PlantUnfold(sy, max, ns, t);
      if Plant(sy, max, ns, t).Refused? { MoreRefused(sy, max, ns, k, t, rest); }
  }

  lemma MoreEnds(k: nat, t: Tree, ts: seq<Token>)
    requires 1 <= k < UNARY && !(Head(ts).TOp? && LevelOf(Head(ts).op) == k)
    ensures ParseMore(k, t, ts) == Got(t, ts)
  {
  }

  function OverPrefix(max: nat, q: Planted, prefix: Prefix): Planted
    requires q.Planted? ==> q.root < |q.nodes|
  {
    if prefix.Minus? then OverZero(max, q) else OverOne(max, q, KindOf(Pre(prefix, Tree.Value(0))))
  }

  lemma PlantPrefix(sy: Symbols, max: nat, ns: seq<Node>, prefix: Prefix, arg: Tree)
    ensures Plant(sy, max, ns, Pre(prefix, arg)) == OverPrefix(max, Plant(sy, max, ns, arg), prefix)
  {
    PlantUnfold(sy, max, ns, Pre(prefix, arg));
  }

  /** A prefix operator over what follows it. */
  lemma UnaryResult(sy: Symbols, max: nat, ns: seq<Node>, ts: seq<Token>)
    requires Head(ts) != TOp(Add) && PrefixOf(Head(ts)).Some?
    ensures var a := Result(sy, max, ns, ParseUnary(ts[1..]));
      Result(sy, max, ns, ParseUnary(ts)) ==
        if a.Bad? then Bad else Finish(OverPrefix(max, Planted(a.nodes, a.root), PrefixOf(ts[0]).value), a.rest)
  {
    match ParseUnary(ts[1..])
    case Fail =>
    case Got(arg, rest) =>
      PlantPrefix(sy, max, ns, PrefixOf(ts[0]).value, arg);
      hide Plant, OverPrefix, PrefixOf;
  }

  lemma UnaryOther(ts: seq<Token>)
    ensures Head(ts) == TOp(Add) ==> ParseUnary(ts) == ParseUnary(ts[1..])
    ensures Head(ts) != TOp(Add) && PrefixOf(Head(ts)).None? ==> ParseUnary(ts) == ParsePostfix(ts)
  {
  }

  lemma PostfixResult(sy: Symbols, max: nat, ns: seq<Node>, ts: seq<Token>)
    ensures Head(ts).TId? || Head(ts).TValue? ==>
      var t := Primary(Head(ts));
      && ParsePostfix(ts) == ParseSteps(t, ts[1..])
      && (Plant(sy, max, ns, t).Refused? ==> Result(sy, max, ns, ParsePostfix(ts)).Bad?)
    ensures !Head(ts).TId? && !Head(ts).TValue? ==> Result(sy, max, ns, ParsePostfix(ts)).Bad?
  {
    if Head(ts).TId? || Head(ts).TValue? {
      var t := Primary(Head(ts));
      if Plant(sy, max, ns, t).Refused? { StepsRefused(sy, max, ns, t, ts[1..]); }
    }
  }

  function Primary(token: Token): Tree
    requires token.TId? || token.TValue?
  {
    if token.TId? then Name(token.name) else Tree.Value(token.word)
  }

  /** One ++ or -- behind an operand. */
  lemma StepsResult(sy: Symbols, max: nat, ns: seq<Node>, t: Tree, ts: seq<Token>)
    requires Plant(sy, max, ns, t).Planted? && (Head(ts) == TInc || Head(ts) == TDec)
    ensures var step, a := if Head(ts) == TInc then Add else Sub, Plant(sy, max, ns, t);
      var plan := Joined(max, a.nodes, SysPostStep(step), a.root, NULL);
      && ParseSteps(t, ts) == ParseSteps(Post(step, t), ts[1..]) && Plant(sy, max, ns, Post(step, t)) == plan
      && (plan.Refused? ==> Result(sy, max, ns, ParseSteps(t, ts)).Bad?)
  {
    var step := if Head(ts) == TInc then Add else Sub;
    PlantUnfold(sy, max, ns, Post(step, t));
    if Plant(sy, max, ns, Post(step, t)).Refused? { StepsRefused(sy, max, ns, Post(step, t), ts[1..]); }
  }

  class FinshParser {
    const tokens: seq<Token>
    const symbols: Symbols
    const table: array<Node>
    var pos: nat
    var current: Token
    var replay: bool
    ghost var used: nat

    /** A table just cleared by finsh_node_init. */
    constructor (tokens: seq<Token>, symbols: Symbols, table: array<Node>)
      requires TEnd !in tokens && forall k :: 0 <= k < table.Length ==> table[k] == BLANK
      ensures Valid() && Rest() == tokens && Nodes() == []
      ensures this.symbols == symbols && this.table == table
    {
      this.tokens, this.symbols, this.table := tokens, symbols, table;
      pos, current, replay, used := 0, TEnd, false, 0;
    }

    /** At most one token is put back: the one read last. */
    ghost predicate Fed()
      reads this`pos, this`current, this`replay
    {
      && pos <= |tokens| && TEnd !in tokens
      && (replay ==> if current == TEnd then pos == |tokens| else pos > 0 && current == tokens[pos - 1])
    }

    /** Entries are allocated from the first one on. */
    ghost predicate Filled()
      reads this`used, table
    {
      && used <= table.Length && (forall k :: 0 <= k < used ==> table[k].kind != Unknown)
      && (forall k :: used <= k < table.Length ==> table[k] == BLANK)
    }

    ghost predicate Valid()
      reads this`pos, this`current, this`replay, this`used, table
    {
      Fed() && Filled()
    }

    /** The tokens still to be read. */
    ghost function Rest(): seq<Token>
      reads this`pos, this`current, this`replay
      requires Fed()
    {
      if replay && current != TEnd then tokens[pos - 1..] else tokens[pos..]
    }

    /** The nodes allocated. */
    ghost function Nodes(): seq<Node>
      reads this`used, table
      requires Filled()
    {
      table[..used]
    }

    // ----- tokens -----

    /** finsh_token_token. */
    method NextToken() returns (token: Token)
      requires Fed()
      modifies this`pos, this`current, this`replay
      ensures Fed() && ReadFrom(old(Rest()), token)
    {
      if replay {
        replay := false;
      } else if pos < |tokens| {
        current := tokens[pos];
        pos := pos + 1;
      } else {
        current := TEnd;
      }
      token := current;
    }

    /** token is the one just read from before, the others are still to be read. */
    ghost predicate ReadFrom(before: seq<Token>, token: Token)
      reads this`pos, this`current, this`replay
      requires Fed()
    {
      && !replay && current == token == Head(before) && Rest() == Tail(before)
      && (if current == TEnd then before == [] && pos == |tokens|
           else pos > 0 && current == tokens[pos - 1] && before == tokens[pos - 1..])
    }

    lemma Next(before: seq<Token>, token: Token)
      requires Fed() && ReadFrom(before, token)
      ensures token == Head(before) && Rest() == Tail(before)
      ensures token != TEnd ==> before != [] && Rest() == before[1..] && token == before[0]
      ensures token == TEnd ==> before == []
    {
    }

    method Replay(ghost before: seq<Token>, ghost token: Token)
      requires Fed() && ReadFrom(before, token)
      modifies this`replay
      ensures Fed() && Rest() == before
    {
      replay := true;
    }

    // ----- nodes -----

    /** finsh_node_allocate: the first entry not allocated, or NULL. */
    method Allocate(kind: Kind) returns (p: int)
      requires Filled() && kind != Unknown
      modifies this`used, table
      ensures Filled()
      ensures if |old(Nodes())| < table.Length then
        p == |old(Nodes())| && Nodes() == old(Nodes()) + [Fresh(kind, 0, NULL)]
              else p == NULL && Nodes() == old(Nodes())
    {
      var i := 0;
      while i < table.Length && table[i].kind != Unknown
        invariant i <= used
      {
        i := i + 1;
      }
      if i == table.Length { return NULL; }
      table[i] := table[i].(kind := kind);
      used := used + 1;
      p := i;
    }

    /** The table and the node p are what was planned, or it was refused. */
    ghost predicate Made(plan: Planted, ok: bool, p: int)
      reads this`used, table
      requires Filled()
    {
      if ok then plan.Planted? && plan.nodes == Nodes() && plan.root == p else plan.Refused?
    }

    /** finsh_node_new_int, finsh_node_new_long. */
    method NewValue(w: Word) returns (ok: bool, p: int)
      requires Filled()
      modifies this`used, table
      ensures Filled() && Made(New(table.Length, old(Nodes()), Fresh(Kind.Value, w, NULL)), ok, p)
      ensures Made(Plant(symbols, table.Length, old(Nodes()), Tree.Value(w)), ok, p)
    {
      p := Allocate(Kind.Value);
      ok := p != NULL;
      if ok { table[p] := table[p].(word := w); }
    }

    /** finsh_node_new_id. */
    method NewId(name: string) returns (ok: bool, p: int)
      requires Filled()
      modifies this`used, table
      ensures Filled() && Made(Plant(symbols, table.Length, old(Nodes()), Name(name)), ok, p)
    {
      if name !in symbols { return false, NULL; }
      p := Allocate(Id);
      ok := p != NULL;
      if ok { table[p] := table[p].(word := symbols[name]); }
    }

    /** make_sys_node: without a first node an error, and the new node stays in the table. */
    method MakeSysNode(kind: Kind, node1: int, node2: int) returns (ok: bool, p: int)
      requires Filled() && (node1 == NULL || 0 <= node1 < |Nodes()|) && kind != Unknown
      modifies this`used, table
      ensures Filled() && (node1 != NULL ==> Made(Joined(table.Length, old(Nodes()), kind, node1, node2), ok, p))
      ensures node1 == NULL ==> !ok && Made(New(table.Length, old(Nodes()), Fresh(kind, 0, NULL)), p != NULL, p)
    {
      p := Allocate(kind);
      ok := p != NULL && node1 != NULL;
      if ok {
        table[p] := table[p].(child := node1);
        table[node1] := table[node1].(sibling := node2);
      }
    }

    // ----- expressions -----

    /** The nodes, the returned node and the tokens left are what was planned, or it was bad. */
    ghost predicate Did(plan: Outcome, ok: bool, p: int)
      reads this`pos, this`current, this`replay, this`used, table
      requires Valid()
    {
      if ok then plan.Good? && plan.nodes == Nodes() && plan.root == p && plan.rest == Rest() else plan.Bad?
    }

    method ProcAssign() returns (ok: bool, p: int)
      requires Valid()
      modifies this, table
      ensures Valid() && Did(Result(symbols, table.Length, old(Nodes()), ParseAssign(old(Rest()))), ok, p)
      decreases |Rest()|, 20
    {
      ghost var ns, ts := Nodes(), Rest();
      AssignResult(symbols, table.Length, ns, ts);
      hide Fed, Filled, Rest, Nodes, Result, ParseAssign, ParseLevel, AssignNext;
      ok, p := ProcLevel(1);
      if ok { ok, p := ProcAssignNext(p, Result(symbols, table.Length, ns, ParseLevel(1, ts))); }
    }

    /** What proc_assign_expr does after its operand. */
    method ProcAssignNext(operand: nat, ghost a: Outcome) returns (ok: bool, p: int)
      requires Valid() && a.Good? && Did(a, true, operand) && operand < |Nodes()|
      modifies this, table
      ensures Valid() && Did(AssignNext(symbols, table.Length, a), ok, p)
      decreases |Rest()|, 21
    {
      hide Fed, Filled, Rest, Nodes, ReadFrom, Result, ParseAssign, Joined;
      ghost var before := Rest();
      var token := NextToken();
      Next(before, token);
      if token == TAssign {
        ok, p := ProcAssign();
        if ok { ok, p := MakeSysNode(SysAssign, operand, p); }
      } else {
        Replay(before, token);
        ok, p := true, operand;
      }
    }

    /** One of the six procedures from proc_inclusive_or_expr to proc_multiplicative_expr: an operand of the
        next level, then more of them as long as operators of this level follow. */
    method ProcLevel(k: nat) returns (ok: bool, p: int)
      requires Valid() && 1 <= k <= UNARY
      modifies this, table
      ensures Valid() && Did(Result(symbols, table.Length, old(Nodes()), ParseLevel(k, old(Rest()))), ok, p)
      decreases |Rest()|, 19 - k
    {
      ghost var ns, ts := Nodes(), Rest();
      if k == UNARY {
        ok, p := ProcUnary();
        return;
      }
      LevelResult(symbols, table.Length, ns, k, ts);
      ok, p := ProcLevel(k + 1);
      if ok { ok, p := ProcMore(k, p, ns, ParseLevel(k + 1, ts).tree); }
    }

    /** The loop of such a procedure; first is the tree of the operand read, planted on start. */
    method ProcMore(k: nat, operand: int, ghost start: seq<Node>, ghost first: Tree) returns (ok: bool, p: int)
      requires Valid() && 1 <= k < UNARY && operand >= 0
      requires Plant(symbols, table.Length, start, first) == Planted(Nodes(), operand)
      modifies this, table
      ensures Valid() && Did(Result(symbols, table.Length, start, ParseMore(k, first, old(Rest()))), ok, p)
      decreases |Rest()|, 10
    {
      hide Fed, Filled, Rest, Nodes, ReadFrom, ParseLevel, ParseMore, LevelOf, Plant, Joined, Result;
      ghost var ts, before, t := Rest(), Rest(), first;
      ok, p := true, operand;
      var token := NextToken();
      Next(before, token);
      while token.TOp? && LevelOf(token.op) == k
        invariant Valid() && ReadFrom(before, token) && token == Head(before) && |before| <= |ts| && p >= 0
        invariant token != TEnd ==> before != [] && Rest() == before[1..] && token == before[0]
        invariant ParseMore(k, t, before) == ParseMore(k, first, ts)
        invariant Plant(symbols, table.Length, start, t) == Planted(Nodes(), p)
        decreases |before|
      {
        var q;
        MoreResult(symbols, table.Length, start, k, t, before);
        ghost var r := ParseLevel(k + 1, before[1..]);
        ok, q := ProcLevel(k + 1);
        if !ok { return; }
        t := Bin(token.op, t, r.tree);
        ok, p := MakeSysNode(SysBinary(token.op), p, q);
        if !ok { return; }
        before := Rest();
        token := NextToken();
        Next(before, token);
      }
      MoreEnds(k, t, before);
      Replay(before, token);
      Ended(start, t, before);
    }

    lemma Ended(start: seq<Node>, t: Tree, before: seq<Token>)
      requires Valid() && Rest() == before && Plant(symbols, table.Length, start, t).Planted?
      requires Plant(symbols, table.Length, start, t).nodes == Nodes()
      ensures Did(Result(symbols, table.Length, start, Got(t, before)), true,
        Plant(symbols, table.Length, start, t).root)
    {
    }

    /** proc_cast_expr without casts, and proc_unary_expr. */
    method ProcUnary() returns (ok: bool, p: int)
      requires Valid()
      modifies this, table
      ensures Valid() && Did(Result(symbols, table.Length, old(Nodes()), ParseUnary(old(Rest()))), ok, p)
      decreases |Rest()|, 11
    {
      hide Fed, Filled, Rest, Nodes, ReadFrom, Result, ParseUnary, ParsePostfix, PrefixOf, OverPrefix;
      ghost var before := Rest();
      UnaryOther(before);
      var token := NextToken();
      Next(before, token);
      if token == TOp(Add) {
        ok, p := ProcUnary();
      } else if PrefixOf(token).Some? {
        UnaryResult(symbols, table.Length, Nodes(), before);
        NotTheEnd(token);
        ok, p := ProcUnary();
        if ok { ok, p := MakePrefix(PrefixOf(token).value, p); }
      } else {
        Replay(before, token);
        ok, p := ProcPostfix();
      }
    }

    /** The node of a prefix operator over the node arg; for a minus, over a new zero and arg. */
    method MakePrefix(prefix: Prefix, arg: nat) returns (ok: bool, p: int)
      requires Filled() && arg < |Nodes()|
      modifies this`used, table
      ensures Filled() && Made(OverPrefix(table.Length, Planted(old(Nodes()), arg), prefix), ok, p)
    {
      hide Filled, Nodes, Joined, New;
      if prefix.Minus? {
        ok, p := NewValue(0);
        if ok { ok, p := MakeSysNode(SysBinary(Sub), p, arg); }
      } else {
        ok, p := MakeSysNode(KindOf(Pre(prefix, Tree.Value(0))), arg, NULL);
      }
    }

    /** proc_postfix_expr over proc_primary_expr, without calls and parentheses. */
    method ProcPostfix() returns (ok: bool, p: int)
      requires Valid()
      modifies this, table
      ensures Valid() && Did(Result(symbols, table.Length, old(Nodes()), ParsePostfix(old(Rest()))), ok, p)
    {
      ghost var start, before := Nodes(), Rest();
      PostfixResult(symbols, table.Length, start, before);
      hide Fed, Filled, Rest, Nodes, ReadFrom, ParseSteps, ParsePostfix, Plant, Result;
      var token := NextToken();
      Next(before, token);
      if token.TId? {
        ok, p := NewId(token.name);
        if ok { ok, p := ProcSteps(p, start, Name(token.name)); }
      } else if token.TValue? {
        ok, p := NewValue(token.word);
        if ok { ok, p := ProcSteps(p, start, Tree.Value(token.word)); }
      } else {
        ok, p := false, NULL;
      }
    }

    /** Its loop over ++ and --; first is the tree of the operand read, planted on start. */
    method ProcSteps(operand: int, ghost start: seq<Node>, ghost first: Tree) returns (ok: bool, p: int)
      requires Valid() && operand >= 0 && Plant(symbols, table.Length, start, first) == Planted(Nodes(), operand)
      modifies this, table
      ensures Valid() && Did(Result(symbols, table.Length, start, ParseSteps(first, old(Rest()))), ok, p)
    {
      hide Fed, Filled, Rest, Nodes, ReadFrom, ParseSteps, Plant, Joined, Result;
      ghost var ts, before, t := Rest(), Rest(), first;
      ok, p := true, operand;
      var token := NextToken();
      Next(before, token);
      while token == TInc || token == TDec
        invariant Valid() && ReadFrom(before, token) && token == Head(before) && p >= 0
        invariant token != TEnd ==> before != [] && Rest() == before[1..] && token == before[0]
        invariant ParseSteps(t, before) == ParseSteps(first, ts)
        invariant Plant(symbols, table.Length, start, t) == Planted(Nodes(), p)
        decreases |before|
      {
        StepsResult(symbols, table.Length, start, t, before);
        t := Post(if token == TInc then Add else Sub, t);
        ok, p := MakeSysNode(SysPostStep(if token == TInc then Add else Sub), p, NULL);
        if !ok { return; }
        before := Rest();
        token := NextToken();
        Next(before, token);
      }
      StepsEnd(t, before);
      Replay(before, token);
      Ended(start, t, before);
    }

    // ----- statements -----

    /** proc_expr_statement: the node of the expression, or NULL for an empty statement. */
    method ProcStatement() returns (ok: bool, p: int)
      requires Valid()
      modifies this, table
      ensures Valid() && StatementDid(old(Nodes()), old(Rest()), ok, p)
    {
      hide Fed, Filled, Rest, Nodes, ReadFrom, Result, ParseAssign;
      ghost var ns, ts := Nodes(), Rest();
      var token := NextToken();
      Next(ts, token);
      p := NULL;
      ok := true;
      if token != TSemi {
        Replay(ts, token);
        ok, p := ProcAssign();
        if ok {
          ghost var before := Rest();
          token := NextToken();
          Next(before, token);
          ok := token == TSemi;
        }
      }
    }

    ghost predicate StatementDid(ns: seq<Node>, ts: seq<Token>, ok: bool, p: int)
      reads this`pos, this`current, this`replay, this`used, table
      requires Valid()
    {
      if Head(ts) == TSemi then ok && p == NULL && Nodes() == ns && ts != [] && Rest() == ts[1..]
      else
        var a := Result(symbols, table.Length, ns, ParseAssign(ts));
        if ok then a.Good? && Head(a.rest) == TSemi && a.nodes == Nodes() && a.root == p && Rest() == Tail(a.rest)
        else a.Bad? || Head(a.rest) != TSemi
    }

    /** Link a statement behind the one at node. */
    method LinkStatement(node: int, p: int)
      requires Filled() && 0 <= node < |Nodes()|
      modifies table
      ensures Filled() && Nodes() == Chained(old(Nodes()), node, p)
    {
      table[node] := table[node].(sibling := p);
    }

    ghost function Whole(ns: seq<Node>, ts: seq<Token>): Option<seq<Node>> {
      LineResult(symbols, table.Length, ns, NULL, ParseLine(ts))
    }

    /** How far the line is: before is still to be read; root is its first statement and node the last one
        so far, or NULL at the start. */
    ghost predicate Progress(ns: seq<Node>, ts: seq<Token>, before: seq<Token>, root: int, node: int)
      reads this`used, table
      requires Filled()
    {
      if root == NULL then node == NULL && before == ts && Nodes() == ns
      else
        && 0 <= node < |Nodes()| && Nodes()[node].sibling == NULL
        && LineResult(symbols, table.Length, Nodes(), node, ParseStatements(before)) == Whole(ns, ts)
        && (ParseLine(ts).Line? ==> RootAll(ParseLine(ts).trees, |ns|) == root)
    }

    /** One turn of the loop over the statements. */
    method AddStatement(root: int, node: int, ghost ns: seq<Node>, ghost ts: seq<Token>)
        returns (ok: bool, root': int, node': int)
      requires Valid() && Progress(ns, ts, Rest(), root, node) && Head(Rest()) != TEnd
      modifies this, table
      ensures Valid() && (!ok ==> Whole(ns, ts).None?)
      ensures ok && root' == NULL ==> ParseLine(ts) == Line([]) && Whole(ns, ts) == Some(Nodes())
      ensures ok && root' != NULL ==> Progress(ns, ts, Rest(), root', node') && |Rest()| < |old(Rest())|
    {
      hide Fed, Filled, Rest, Nodes, ReadFrom, Result, ParseAssign, ParseLine, ParseStatements, LineResult, RootAll,
          SetSibling;
      ghost var before := Rest();
      StatementStep(symbols, table.Length, Nodes(), node, before);
      NoStatement(symbols, table.Length, ns, NULL, ts);
      NothingChained(Nodes(), node);
      var p;
      ok, p := ProcStatement();
      root', node' := root, node;
      if !ok { return; }
      if root == NULL {
        root', node' := p, p;
      } else {
        LinkStatement(node, p);
        if p != NULL { node' := p; } else { SkipToken(); }
      }
    }

    /** finsh_parser_run: the root of the first statement, with the others behind it.  An error is noted
        when a statement is not in the grammar, a name is unknown or the table is full. */
    method Run() returns (ok: bool, root: int)
      requires Valid()
      modifies this, table
      ensures Valid() && ok == Whole(old(Nodes()), old(Rest())).Some?
      ensures ok ==> Whole(old(Nodes()), old(Rest())) == Some(Nodes())
      ensures ok ==> ParseLine(old(Rest())).Line? && root == RootAll(ParseLine(old(Rest())).trees, |old(Nodes())|)
    {
      hide Fed, Filled, Rest, Nodes, ReadFrom, ParseLine, ParseStatements, LineResult;
      ghost var ns, ts, before := Nodes(), Rest(), Rest();
      ok, root := true, NULL;
      var node := NULL;
      var token := NextToken();
      Next(before, token);
      while token != TEnd
        invariant Valid() && ReadFrom(before, token) && token == Head(before) && ok
        invariant token == TEnd ==> before == []
        invariant Progress(ns, ts, before, root, node)
        decreases |before|
      {
        Replay(before, token);
        ok, root, node := AddStatement(root, node, ns, ts);
        if !ok { return; }
        if root == NULL { break; }
        before := Rest();
        token := NextToken();
        Next(before, token);
      }
      NoStatement(symbols, table.Length, Nodes(), node, before);
      Finished(ns, ts);
    }

    lemma Finished(ns: seq<Node>, ts: seq<Token>)
      ensures Whole(ns, ts).Some? ==> ParseLine(ts).Line?
    {
    }

    /** The token that goes with an empty statement. */
    method SkipToken()
      requires Fed()
      modifies this`pos, this`current, this`replay
      ensures Fed() && Rest() == Tail(old(Rest()))
    {
      var _ := NextToken();
    }
  }

  lemma NoStatement(sy: Symbols, max: nat, ns: seq<Node>, last: int, ts: seq<Token>)
    ensures ts == [] ==> LineResult(sy, max, ns, last, ParseStatements(ts)) == Some(ns)
    ensures ts == [] || Head(ts) == TSemi ==>
      ParseLine(ts) == Line([]) && LineResult(sy, max, ns, last, ParseLine(ts)) == Some(ns) && RootAll([], |ns|) == NULL
  {
  }

  lemma NothingChained(ns: seq<Node>, last: int)
    ensures 0 <= last < |ns| && ns[last].sibling == NULL ==> Chained(ns, last, NULL) == ns
  {
  }

  /** One statement of a line. */
  lemma StatementStep(sy: Symbols, max: nat, ns: seq<Node>, last: int, ts: seq<Token>)
    requires Head(ts) != TEnd && last < |ns|
    ensures Head(ts) == TSemi ==> ParseStatements(ts) == ParseStatements(Tail(ts[1..]))
    ensures Head(ts) != TSemi ==> ParseLine(ts) == ParseStatements(ts)
    ensures Head(ts) != TSemi ==>
      var a, l := Result(sy, max, ns, ParseAssign(ts)), ParseStatements(ts);
      if a.Bad? || Head(a.rest) != TSemi then LineResult(sy, max, ns, last, l) == None
      else
        && |a.rest| < |ts| && Chained(a.nodes, last, a.root)[a.root].sibling == NULL
        && LineResult(sy, max, ns, last, l) ==
             LineResult(sy, max, Chained(a.nodes, last, a.root), a.root, ParseStatements(Tail(a.rest)))
        && (l.Line? ==> RootAll(l.trees, |ns|) == a.root)
  {
    if Head(ts) != TSemi {
      match ParseAssign(ts)
      case Fail =>
      case Got(t, rest) =>
        PlantKeeps(sy, max, ns, t);
        hide Plant, ParseAssign;
        if Head(rest) == TSemi && ParseStatements(rest[1..]).Line? { BeforeFirst(t, ParseStatements(rest[1..])); }
    }
  }

  lemma BeforeFirst(t: Tree, l: Line)
    requires l.Line?
    ensures Before([t], l).Line? && Before([t], l).trees != [] && Before([t], l).trees[0] == t
      && Before([t], l).trees[1..] == l.trees
  {
  }

  lemma NotTheEnd(token: Token)
    ensures PrefixOf(token).Some? ==> token != TEnd
  {
  }

  lemma StepsEnd(t: Tree, ts: seq<Token>)
    requires Head(ts) != TInc && Head(ts) != TDec
    ensures ParseSteps(t, ts) == Got(t, ts)
  {
  }
}

