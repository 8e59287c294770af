/** The page allocator under the slab allocator: a list of runs of free pages, in address order. */
module SlabPages {

  datatype Run = Run(start: nat, pages: nat)
  datatype Got = Nothing | At(start: nat)
  datatype Outcome = Outcome(list: seq<Run>, got: Got)

  /** The pages a, a + 1, ..., a + n - 1. */
  function Range(a: nat, n: nat): (ps: set<nat>)
    ensures forall p: nat :: p in ps <==> a <= p < a + n
    decreases n
  {
    if n == 0 then {} else {a} + Range(a + 1, n - 1)
  }

  function Pages(rs: seq<Run>): set<nat> {
    if rs == [] then {} else Range(rs[0].start, rs[0].pages) + Pages(rs[1..])
  }

  /** In address order, with at least one page that is not free between two runs. */
  predicate Coalesced(rs: seq<Run>) {
    rs == [] || (rs[0].pages > 0 && (|rs| > 1 ==> rs[0].start + rs[0].pages < rs[1].start) && Coalesced(rs[1..]))
  }

  // ----- rt_page_alloc and rt_page_free -----

  /** First fit: the front of the first run that is large enough. */
  function Alloc(rs: seq<Run>, n: nat): Outcome {
    if rs == [] then Outcome([], Nothing)
    else if rs[0].pages > n then Outcome([Run(rs[0].start + n, rs[0].pages - n)] + rs[1..], At(rs[0].start))
    else if rs[0].pages == n then Outcome(rs[1..], At(rs[0].start))
    else
      var o := Alloc(rs[1..], n);
      o.(list := [rs[0]] + o.list)
  }

  /** Back into its place, joined with a run that ends where it begins and one that begins where it ends. */
  function Free(rs: seq<Run>, a: nat, n: nat): seq<Run> {
    if rs == [] then [Run(a, n)]
    else
      var b, rest := rs[0], rs[1..];
      if b.start + b.pages == a then
        if rest != [] && a + n == rest[0].start then [Run(b.start, b.pages + n + rest[0].pages)] + rest[1..]
        else [Run(b.start, b.pages + n)] + rest
      else if b.start == a + n then [Run(a, b.pages + n)] + rest
      else if b.start > a + n then [Run(a, n)] + rs
      else [b] + Free(rest, a, n)
  }

  // ----- the pages of a list -----

  lemma PagesCons(r: Run, rs: seq<Run>)
    ensures Pages([r] + rs) == Range(r.start, r.pages) + Pages(rs)
  {
    assert ([r] + rs)[1..] == rs;
  }

  /** Every page of a coalesced list is from its first run on, and those of the other runs are beyond it. */
  lemma {:induction false} PagesFrom(rs: seq<Run>)
    requires Coalesced(rs) && rs != []
    ensures rs[0].start in Pages(rs) && forall p :: p in Pages(rs) ==> rs[0].start <= p
    ensures forall p :: p in Pages(rs[1..]) ==> rs[0].start + rs[0].pages < p
  {
    if |rs| > 1 { PagesFrom(rs[1..]); }
  }

  lemma CoalescedCons(r: Run, rs: seq<Run>)
    requires Coalesced(rs) && r.pages > 0 && (rs != [] ==> r.start + r.pages < rs[0].start)
    ensures Coalesced([r] + rs)
  {
    assert ([r] + rs)[1..] == rs;
  }

  lemma RangeJoin(a: nat, m: nat, n: nat)
    ensures Range(a, m + n) == Range(a, m) + Range(a + m, n) && Range(a, m) !! Range(a + m, n)
  {
  }

  // ----- allocation -----

  lemma SplitTakes(rs: seq<Run>, n: nat)
    requires Coalesced(rs) && n > 0 && rs != [] && rs[0].pages > n
    ensures var left := [Run(rs[0].start + n, rs[0].pages - n)] + rs[1..];
      Coalesced(left) && Range(rs[0].start, n) <= Pages(rs) && Pages(left) == Pages(rs) - Range(rs[0].start, n)
  {
    var b, rest := rs[0], rs[1..];
    PagesFrom(rs);
    CoalescedCons(Run(b.start + n, b.pages - n), rest);
    PagesCons(Run(b.start + n, b.pages - n), rest);
    RangeJoin(b.start, n, b.pages - n);
    hide Range, Coalesced;
    RangesApart(b.start, n, b.pages, Pages(rest));
  }

  lemma RangesApart(a: nat, n: nat, m: nat, beyond: set<nat>)
    requires n <= m && forall p :: p in beyond ==> a + m < p
    ensures Range(a, n) !! beyond
  {
  }

  /** A list that leaves pages of a run behind the first alone. */
  lemma LaterTakes(rs: seq<Run>, o: Outcome, a: nat, n: nat)
    requires Coalesced(rs) && rs != [] && Range(a, n) <= Pages(rs[1..]) && Pages(o.list) == Pages(rs[1..]) - Range(a, n)
    ensures Range(a, n) <= Pages(rs) && Pages([rs[0]] + o.list) == Pages(rs) - Range(a, n)
  {
    PagesFrom(rs);
    PagesCons(rs[0], o.list);
    hide Coalesced;
    assert Range(rs[0].start, rs[0].pages) !! Pages(rs[1..]);
    hide Range;
  }

  /** What is handed out was free, and is exactly what leaves the list. */
  lemma {:induction false} AllocTakes(rs: seq<Run>, n: nat)
    requires Coalesced(rs) && n > 0
    ensures var o := Alloc(rs, n); Coalesced(o.list) && (o.list != [] && rs != [] ==> o.list[0].start >= rs[0].start)
    ensures var o := Alloc(rs, n);
      match o.got
      case Nothing => o.list == rs
      case At(a) => Range(a, n) <= Pages(rs) && Pages(o.list) == Pages(rs) - Range(a, n)
  {
    hide Range, Pages;
    if rs != [] {
      var b, rest := rs[0], rs[1..];
      assert rs == [b] + rest;
      if b.pages > n {
        SplitTakes(rs, n);
      } else if b.pages == n {
        WholeTaken(rs);
      } else {
        AllocTakes(rest, n);
        var o := Alloc(rest, n);
        CoalescedCons(b, o.list);
        if o.got.At? { LaterTakes(rs, o, o.got.start, n); }
      }
    }
  }

  lemma WholeTaken(rs: seq<Run>)
    requires Coalesced(rs) && rs != []
    ensures var r := Range(rs[0].start, rs[0].pages); r <= Pages(rs) && Pages(rs[1..]) == Pages(rs) - r
  {
    PagesFrom(rs);
    RangesApart(rs[0].start, rs[0].pages, rs[0].pages, Pages(rs[1..]));
    hide Range;
  }

  lemma {:induction false} AllocNothing(rs: seq<Run>, n: nat)
    ensures Alloc(rs, n).got == Nothing <==> forall k :: 0 <= k < |rs| ==> rs[k].pages < n
  {
    if rs != [] && rs[0].pages < n {
      AllocNothing(rs[1..], n);
      assert forall k :: 1 <= k < |rs| ==> rs[k] == rs[1..][k - 1];
    }
  }

  /** Consecutive free pages are within one run: between two runs there is a page that is not free. */
  lemma {:induction false} WithinOneRun(rs: seq<Run>, a: nat, n: nat) returns (k: nat)
    requires Coalesced(rs) && n > 0 && Range(a, n) <= Pages(rs)
    ensures k < |rs| && rs[k].start <= a && a + n <= rs[k].start + rs[k].pages
  {
    assert a in Range(a, n);
    PagesFrom(rs);
    var b := rs[0];
    if a < b.start + b.pages {
      k := 0;
      var end := b.start + b.pages;
      assert a + n > end ==> end in Range(a, n);
    } else {
      assert forall p :: p in Range(a, n) ==> p in Pages(rs[1..]);
      k := WithinOneRun(rs[1..], a, n);
      k := k + 1;
    }
  }

  predicate Within(a: nat, n: nat, pages: set<nat>) { Range(a, n) <= pages }

  /** There are n pages in a row. */
  ghost predicate HasRun(pages: set<nat>, n: nat) { exists a: nat :: Within(a, n, pages) }

  /** rt_page_alloc fails if and only if there are not that many consecutive free pages. */
  lemma AllocFailsIff(rs: seq<Run>, n: nat)
    requires Coalesced(rs) && n > 0
    ensures Alloc(rs, n).got == Nothing <==> !HasRun(Pages(rs), n)
  {
    AllocNothing(rs, n);
    AllocTakes(rs, n);
    if Alloc(rs, n).got == Nothing {
      forall a: nat
        ensures !Within(a, n, Pages(rs))
      {
        if Within(a, n, Pages(rs)) { var k := WithinOneRun(rs, a, n); }
      }
    } else {
      assert Within(Alloc(rs, n).got.start, n, Pages(rs));
    }
  }

  // ----- release -----

  lemma FreeJoins(rs: seq<Run>, a: nat, n: nat)
    requires Coalesced(rs) && n > 0 && Range(a, n) !! Pages(rs) && rs != [] && rs[0].start + rs[0].pages == a
    ensures Coalesced(Free(rs, a, n)) && Pages(Free(rs, a, n)) == Pages(rs) + Range(a, n)
      && Free(rs, a, n)[0].start == rs[0].start
  {
    var b, rest := rs[0], rs[1..];
    RangeJoin(b.start, b.pages, n);
    if rest != [] && a + n == rest[0].start {
      RangeJoin(b.start, b.pages + n, rest[0].pages);
      CoalescedCons(Run(b.start, b.pages + n + rest[0].pages), rest[1..]);
      PagesCons(Run(b.start, b.pages + n + rest[0].pages), rest[1..]);
    } else {
      if rest != [] { NotInside(rest, a, n); }
      CoalescedCons(Run(b.start, b.pages + n), rest);
      PagesCons(Run(b.start, b.pages + n), rest);
    }
  }

  /** Pages that are not free, and begin before a list, end before it. */
  lemma NotInside(rs: seq<Run>, a: nat, n: nat)
    requires Coalesced(rs) && rs != [] && n > 0 && Range(a, n) !! Pages(rs)
    ensures a < rs[0].start ==> a + n <= rs[0].start
    ensures a >= rs[0].start ==> a >= rs[0].start + rs[0].pages
  {
    PagesFrom(rs);
    var first := rs[0].start;
    assert a < first < a + n ==> first in Range(a, n);
    assert a in Range(a, n) && a !in Range(rs[0].start, rs[0].pages);
  }

  /** What is released is exactly what is added, and the list stays coalesced. */
  lemma {:induction false} FreeAdds(rs: seq<Run>, a: nat, n: nat)
    requires Coalesced(rs) && n > 0 && Range(a, n) !! Pages(rs)
    ensures Coalesced(Free(rs, a, n)) && Pages(Free(rs, a, n)) == Pages(rs) + Range(a, n)
    ensures rs == [] || Free(rs, a, n)[0].start == (if a < rs[0].start then a else rs[0].start)
  {
    if rs == [] {
      PagesCons(Run(a, n), []);
      assert [Run(a, n)] + [] == [Run(a, n)];
    } else {
      var b, rest := rs[0], rs[1..];
      NotInside(rs, a, n);
      if b.start + b.pages == a {
        FreeJoins(rs, a, n);
      } else if b.start == a + n {
        RangeJoin(a, n, b.pages);
        CoalescedCons(Run(a, b.pages + n), rest);
        PagesCons(Run(a, b.pages + n), rest);
      } else if b.start > a + n {
        CoalescedCons(Run(a, n), rs);
        PagesCons(Run(a, n), rs);
      } else {
        FreeAdds(rest, a, n);
        CoalescedCons(b, Free(rest, a, n));
        PagesCons(b, Free(rest, a, n));
      }
    }
  }

  // ----- one list for a set of pages -----

  lemma FirstRun(r: seq<Run>, s: seq<Run>)
    requires Coalesced(r) && Coalesced(s) && Pages(r) == Pages(s) && r != [] && s != []
    ensures r[0] == s[0] && Pages(r[1..]) == Pages(s[1..])
  {
    PagesFrom(r);
    PagesFrom(s);
    var a, m, n := r[0].start, r[0].pages, s[0].pages;
    assert s[0].start == a;
    var rEnd, sEnd := a + m, a + n;
    assert m < n ==> rEnd in Range(a, n);
    assert n < m ==> sEnd in Range(a, m);
  }

  /** A set of pages has one coalesced list. */
  lemma {:induction false} OneList(r: seq<Run>, s: seq<Run>)
    requires Coalesced(r) && Coalesced(s) && Pages(r) == Pages(s)
    ensures r == s
    decreases |r|
  {
    if r == [] || s == [] {
      if r != [] { PagesFrom(r); }
      if s != [] { PagesFrom(s); }
    } else {
      FirstRun(r, s);
      OneList(r[1..], s[1..]);
      assert r == [r[0]] + r[1..] && s == [s[0]] + s[1..];
    }
  }

  /** Releasing what was handed out restores the list. */
  lemma FreeUndoesAlloc(rs: seq<Run>, n: nat)
    requires Coalesced(rs) && n > 0 && Alloc(rs, n).got.At?
    ensures Free(Alloc(rs, n).list, Alloc(rs, n).got.start, n) == rs
  {
    var o := Alloc(rs, n);
    AllocTakes(rs, n);
    FreeAdds(o.list, o.got.start, n);
    OneList(Free(o.list, o.got.start, n), rs);
  }

  /** The order in which two ranges are released makes no difference. */
  lemma FreesCommute(rs: seq<Run>, a: nat, m: nat, b: nat, n: nat)
    requires Coalesced(rs) && m > 0 && n > 0 && Range(a, m) !! Pages(rs) && Range(b, n) !! Pages(rs)
      && Range(a, m) !! Range(b, n)
    ensures Free(Free(rs, a, m), b, n) == Free(Free(rs, b, n), a, m)
  {
    FreeAdds(rs, a, m);
    FreeAdds(rs, b, n);
    FreeAdds(Free(rs, a, m), b, n);
    FreeAdds(Free(rs, b, n), a, m);
    assert Pages(rs) + Range(a, m) + Range(b, n) == Pages(rs) + Range(b, n) + Range(a, m);
    OneList(Free(Free(rs, a, m), b, n), Free(Free(rs, b, n), a, m));
  }

  // ----- runs -----

  /** The free pages and the blocks that callers have. */
  datatype State = State(free: seq<Run>, out: set<Run>)

  datatype Op = OpAlloc(n: nat) | OpFree(block: Run)

  function Blocks(out: set<Run>): set<nat> { set r, p | r in out && p in Range(r.start, r.pages) :: p }

  predicate Apart(out: set<Run>) {
    forall r, q :: r in out && q in out && r != q ==> Range(r.start, r.pages) !! Range(q.start, q.pages)
  }

  /** The list is coalesced, the blocks are apart from it and from one another, and together they are all
      the pages there are. */
  predicate Inv(s: State, all: set<nat>) {
    && Coalesced(s.free) && Apart(s.out) && (forall r :: r in s.out ==> r.pages > 0)
    && Pages(s.free) !! Blocks(s.out) && Pages(s.free) + Blocks(s.out) == all
  }

  predicate Legal(s: State, op: Op) {
    match op
    case OpAlloc(_) => true
    case OpFree(block) => block in s.out
  }

  /** No pages are asked for: nothing is handed out. */
  function Step(s: State, op: Op): State
    requires Legal(s, op)
  {
    match op
    case OpAlloc(n) =>
      if n == 0 then s
      else
        var o := Alloc(s.free, n);
        if o.got.Nothing? then s else State(o.list, s.out + {Run(o.got.start, n)})
    case OpFree(block) => State(Free(s.free, block.start, block.pages), s.out - {block})
  }

  lemma BlocksMore(out: set<Run>, r: Run)
    ensures Blocks(out + {r}) == Blocks(out) + Range(r.start, r.pages)
  {
  }

  lemma BlocksLess(out: set<Run>, r: Run)
    requires r in out && Apart(out)
    ensures Blocks(out - {r}) == Blocks(out) - Range(r.start, r.pages) && Range(r.start, r.pages) <= Blocks(out)
  {
    BlocksMore(out - {r}, r);
    assert out - {r} + {r} == out;
    assert Blocks(out - {r}) !! Range(r.start, r.pages);
  }

  lemma ApartMore(out: set<Run>, r: Run)
    requires Apart(out) && Range(r.start, r.pages) !! Blocks(out)
    ensures Apart(out + {r})
  {
    forall q | q in out
      ensures Range(q.start, q.pages) !! Range(r.start, r.pages)
    {
      assert forall p :: p in Range(q.start, q.pages) ==> p in Blocks(out);
    }
  }

  lemma AllocKeeps(s: State, all: set<nat>, n: nat)
    requires Inv(s, all)
    ensures Inv(Step(s, OpAlloc(n)), all)
  {
    hide Coalesced, Range, Blocks, Pages, Apart, Alloc;
    if n > 0 {
      AllocTakes(s.free, n);
      var o := Alloc(s.free, n);
      if o.got.At? {
        var r := Run(o.got.start, n);
        BlocksMore(s.out, r);
        assert Range(r.start, r.pages) !! Blocks(s.out);
        ApartMore(s.out, r);
      }
    }
  }

  lemma FreeKeeps(s: State, all: set<nat>, block: Run)
    requires Inv(s, all) && block in s.out
    ensures Inv(Step(s, OpFree(block)), all)
  {
    BlocksLess(s.out, block);
    FreeAdds(s.free, block.start, block.pages);
    hide Coalesced, Range, Blocks, Pages;
  }

  predicate LegalRun(s: State, ops: seq<Op>)
    decreases |ops|
  {
    ops == [] || (Legal(s, ops[0]) && LegalRun(Step(s, ops[0]), ops[1..]))
  }

  /** Over any run the free list and the blocks handed out are a partition of the pages. */
  lemma {:induction false} RunKeeps(s: State, ops: seq<Op>, all: set<nat>)
    requires Inv(s, all) && LegalRun(s, ops)
    ensures Inv(After(s, ops), all)
    decreases |ops|
  {
    if ops != [] {
      match ops[0] {
        case OpAlloc(n) => AllocKeeps(s, all, n);
        case OpFree(block) => FreeKeeps(s, all, block);
      }
      hide Inv, Step, Legal;
      RunKeeps(Step(s, ops[0]), ops[1..], all);
    }
  }

  function After(s: State, ops: seq<Op>): State
    requires LegalRun(s, ops)
    decreases |ops|
  {
    if ops == [] then s else After(Step(s, ops[0]), ops[1..])
  }

  /** Once every block is released, in whatever order, the list is one run again: what the allocator began
      with. */
  lemma AllReleased(s: State, ops: seq<Op>, a: nat, n: nat)
    requires n > 0 && s == State([Run(a, n)], {}) && LegalRun(s, ops) && After(s, ops).out == {}
    ensures After(s, ops).free == [Run(a, n)]
  {
    PagesCons(Run(a, n), []);
    CoalescedCons(Run(a, n), []);
    assert [Run(a, n)] + [] == [Run(a, n)];
    assert Pages([]) == {} && Blocks({}) == {};
    RunKeeps(s, ops, Range(a, n));
    assert Pages(After(s, ops).free) == Pages(After(s, ops).free) + Blocks({});
    OneList(After(s, ops).free, [Run(a, n)]);
  }
}
