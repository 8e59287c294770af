/** rt_page_alloc and rt_page_free as they run: one walk along the list of free runs, which is changed
    where the walk stops. */
module PageAllocator {
  import opened SlabPages

  class PageAllocator {
    var pageList: seq<Run>
    ghost var out: set<Run>

    /** rt_page_init: all pages in one run. */
    constructor (start: nat, pages: nat)
      requires pages > 0
      ensures State() == SlabPages.State([Run(start, pages)], {}) && Inv(State(), Range(start, pages))
    {
      pageList, out := [Run(start, pages)], {};
      new;
      PagesCons(Run(start, pages), []);
      CoalescedCons(Run(start, pages), []);
      assert [Run(start, pages)] + [] == [Run(start, pages)];
      assert Pages([]) == {} && Blocks({}) == {};
    }

    ghost function State(): SlabPages.State
      reads this
    {
      SlabPages.State(pageList, out)
    }

    method Alloc(n: nat) returns (got: Got)
      modifies this
      ensures State() == Step(old(State()), OpAlloc(n))
      ensures got == if n == 0 then Nothing else SlabPages.Alloc(old(pageList), n).got
    {
      got := Nothing;
      if n == 0 { return; }
      ghost var rs := pageList;
      var k := 0;
      AllocStart(rs, n);
      hide SlabPages.Alloc, AllocFrom;
      while k < |pageList|
        invariant k <= |pageList| && pageList == rs && out == old(out) && AllocFrom(rs, k, n)
      {
        var b := pageList[k];
        AllocOne(rs, k, n);
        if b.pages >= n {
          if b.pages > n {
            pageList := pageList[k := Run(b.start + n, b.pages - n)];
          } else {
            pageList := pageList[..k] + pageList[k + 1..];
          }
          out := out + {Run(b.start, n)};
          return At(b.start);
        }
        k := k + 1;
      }
      AllocEnd(rs, n);
    }

    /** Join the run at k, which ends at a, with n pages and with the run after it if that begins there. */
    method Extend(k: nat, n: nat)
      requires k < |pageList|
      modifies this`pageList
      ensures pageList == Extended(old(pageList), k, n)
    {
      var b := pageList[k];
      if k + 1 < |pageList| && b.start + b.pages + n == pageList[k + 1].start {
        pageList := pageList[..k] + [Run(b.start, b.pages + n + pageList[k + 1].pages)] + pageList[k + 2..];
      } else {
        pageList := pageList[k := Run(b.start, b.pages + n)];
      }
    }

    method Free(a: nat, n: nat)
      requires n != 0 && Run(a, n) in out
      modifies this
      ensures State() == Step(old(State()), OpFree(Run(a, n)))
    {
      out := out - {Run(a, n)};
      PutBack(a, n);
    }

    method PutBack(a: nat, n: nat)
      modifies this`pageList
      ensures pageList == SlabPages.Free(old(pageList), a, n)
    {
      hide *;
      ghost var rs := pageList;
      var k := 0;
      FreeStart(rs, a, n);
      while k < |pageList| && pageList[k].start <= a + n
        invariant k <= |pageList| && pageList == rs && FreeFrom(rs, k, a, n)
      {
        var b := pageList[k];
        FreeOne(rs, k, a, n);
        if b.start + b.pages == a {
          Extend(k, n);
          return;
        }
        if b.start == a + n {
          pageList := pageList[k := Run(a, b.pages + n)];
          return;
        }
        k := k + 1;
      }
      FreeHere(rs, k, a, n);
      pageList := pageList[..k] + [Run(a, n)] + pageList[k..];
    }
  }

  function Extended(rs: seq<Run>, k: nat, n: nat): seq<Run>
    requires k < |rs|
  {
    var b := rs[k];
    if k + 1 < |rs| && b.start + b.pages + n == rs[k + 1].start
    then rs[..k] + [Run(b.start, b.pages + n + rs[k + 1].pages)] + rs[k + 2..]
    else rs[k := Run(b.start, b.pages + n)]
  }

  /** The walk has found nothing before k. */
  ghost predicate AllocFrom(rs: seq<Run>, k: nat, n: nat)
    requires k <= |rs|
  {
    Alloc(rs, n) == Outcome(rs[..k] + Alloc(rs[k..], n).list, Alloc(rs[k..], n).got)
  }

  lemma AllocOne(rs: seq<Run>, k: nat, n: nat)
    requires k < |rs| && AllocFrom(rs, k, n)
    ensures rs[k].pages > n ==> Alloc(rs, n) == Outcome(rs[k := Run(rs[k].start + n, rs[k].pages - n)], At(rs[k].start))
    ensures rs[k].pages == n ==> Alloc(rs, n) == Outcome(rs[..k] + rs[k + 1..], At(rs[k].start))
    ensures rs[k].pages < n ==> AllocFrom(rs, k + 1, n)
  {
    assert rs[k..][1..] == rs[k + 1..];
    if rs[k].pages > n {
      assert rs[..k] + ([Run(rs[k].start + n, rs[k].pages - n)] + rs[k + 1..]) ==
          rs[k := Run(rs[k].start + n, rs[k].pages - n)];
    } else if rs[k].pages < n {
      assert rs[..k] + ([rs[k]] + Alloc(rs[k + 1..], n).list) == rs[..k + 1] + Alloc(rs[k + 1..], n).list;
    }
  }

  lemma AllocStart(rs: seq<Run>, n: nat)
    ensures AllocFrom(rs, 0, n)
  {
    assert rs[0..] == rs && rs[..0] + Alloc(rs, n).list == Alloc(rs, n).list;
  }

  lemma AllocEnd(rs: seq<Run>, n: nat)
    requires AllocFrom(rs, |rs|, n)
    ensures Alloc(rs, n) == Outcome(rs, Nothing)
  {
    assert rs[..|rs|] + [] == rs;
  }

  /** The walk has passed the runs before k. */
  ghost predicate FreeFrom(rs: seq<Run>, k: nat, a: nat, n: nat)
    requires k <= |rs|
  {
    Free(rs, a, n) == rs[..k] + Free(rs[k..], a, n)
  }

  lemma FreeStart(rs: seq<Run>, a: nat, n: nat)
    ensures FreeFrom(rs, 0, a, n)
  {
    assert rs[0..] == rs && rs[..0] + Free(rs, a, n) == Free(rs, a, n);
  }

  lemma FreeOne(rs: seq<Run>, k: nat, a: nat, n: nat)
    requires k < |rs| && FreeFrom(rs, k, a, n)
    ensures var b := rs[k];
      if b.start + b.pages == a then Free(rs, a, n) == Extended(rs, k, n)
      else if b.start == a + n then Free(rs, a, n) == rs[k := Run(a, b.pages + n)]
      else b.start <= a + n ==> FreeFrom(rs, k + 1, a, n)
  {
    var b := rs[k];
    assert rs[k..][1..] == rs[k + 1..];
    if b.start + b.pages == a {
      if k + 1 < |rs| && a + n == rs[k + 1].start {
        assert rs[k + 1..][1..] == rs[k + 2..];
      } else {
        assert rs[..k] + ([Run(b.start, b.pages + n)] + rs[k + 1..]) == rs[k := Run(b.start, b.pages + n)];
      }
    } else if b.start == a + n {
      assert rs[..k] + ([Run(a, b.pages + n)] + rs[k + 1..]) == rs[k := Run(a, b.pages + n)];
    } else {
      assert rs[..k] + ([b] + Free(rs[k + 1..], a, n)) == rs[..k + 1] + Free(rs[k + 1..], a, n);
    }
  }

  lemma FreeHere(rs: seq<Run>, k: nat, a: nat, n: nat)
    requires k <= |rs| && FreeFrom(rs, k, a, n)
    requires k < |rs| ==> rs[k].start > a + n
    ensures Free(rs, a, n) == rs[..k] + [Run(a, n)] + rs[k..]
  {
  }
}
