/** Events bit by bit: when a wish is met, what a thread gets and what is left, said of single flags. */
module EventBits {
  import opened Lists
  import opened EventFlags

  /** Flag k of f, from 0 to 31. */
  predicate Bit(f: bv32, k: bv5) { (f >> k) & 1 == 1 }

  /** Some flag of want is set, all of them are. */
  ghost predicate SomeSet(flags: bv32, want: bv32) { exists k: bv5 :: Bit(want, k) && Bit(flags, k) }

  ghost predicate AllSet(flags: bv32, want: bv32) { forall k: bv5 :: Bit(want, k) ==> Bit(flags, k) }

  /** The condition of a wish: with AND all flags it asks for, with OR alone at least one. */
  ghost predicate MetByBits(w: Wish, flags: bv32) {
    if w.all then AllSet(flags, w.want) else w.any && SomeSet(flags, w.want)
  }

  /** A word is its 32 flags. */
  lemma NoBits(f: bv32)
    requires forall k: bv5 :: !Bit(f, k)
    ensures f == 0
  {
    assert !Bit(f, 0) && !Bit(f, 1) && !Bit(f, 2) && !Bit(f, 3) && !Bit(f, 4) && !Bit(f, 5) && !Bit(f, 6) && !Bit(f, 7);
    assert !Bit(f, 8) && !Bit(f, 9) && !Bit(f, 10) && !Bit(f, 11) && !Bit(f, 12) && !Bit(f, 13) && !Bit(f, 14);
    assert !Bit(f, 15) && !Bit(f, 16) && !Bit(f, 17) && !Bit(f, 18) && !Bit(f, 19) && !Bit(f, 20) && !Bit(f, 21);
    assert !Bit(f, 22) && !Bit(f, 23) && !Bit(f, 24) && !Bit(f, 25) && !Bit(f, 26) && !Bit(f, 27) && !Bit(f, 28);
    assert !Bit(f, 29) && !Bit(f, 30) && !Bit(f, 31);
  }

  lemma BitOfBoth(a: bv32, b: bv32, k: bv5)
    ensures Bit(Both(a, b), k) <==> Bit(a, k) && Bit(b, k)
  {
  }

  lemma BitOfMinus(a: bv32, b: bv32, k: bv5)
    ensures Bit(Minus(a, b), k) <==> Bit(a, k) && !Bit(b, k)
  {
    assert Minus(a, b) == Both(a, !b);
    hide Both, Minus, Bit;
    BitOfBoth(a, !b, k);
    BitOfNot(b, k);
  }

  lemma BitOfNot(b: bv32, k: bv5)
    ensures Bit(!b, k) <==> !Bit(b, k)
  {
  }

  lemma BitOfMore(a: bv32, b: bv32, k: bv5)
    ensures Bit(Plus(a, b), k) <==> Bit(a, k) || Bit(b, k)
  {
  }

  // ----- when a wish is met -----

  lemma SomeIff(flags: bv32, want: bv32)
    ensures HasAny(flags, want) <==> SomeSet(flags, want)
  {
    hide Bit, Both;
    forall k: bv5
      ensures Bit(Both(flags, want), k) <==> Bit(flags, k) && Bit(want, k)
    {
      BitOfBoth(flags, want, k);
    }
    if Both(flags, want) == 0 { ZeroBits(); }
    if !SomeSet(flags, want) { NoBits(Both(flags, want)); }
  }

  lemma ZeroBits()
    ensures forall k: bv5 :: !Bit(0, k)
  {
  }

  lemma AllIff(flags: bv32, want: bv32)
    ensures HasAll(flags, want) <==> AllSet(flags, want)
  {
    hide Bit, Both, Minus;
    forall k: bv5
      ensures Bit(Minus(want, flags), k) <==> Bit(want, k) && !Bit(flags, k)
      ensures Bit(Both(flags, want), k) <==> Bit(flags, k) && Bit(want, k)
    {
      BitOfMinus(want, flags, k);
      BitOfBoth(flags, want, k);
    }
    if AllSet(flags, want) {
      NoBits(Minus(want, flags));
      AllOfNone(flags, want);
    }
  }

  lemma AllOfNone(flags: bv32, want: bv32)
    requires Minus(want, flags) == 0
    ensures HasAll(flags, want)
  {
  }

  /** The test of rt_event_recv and rt_event_send. */
  lemma MetIff(w: Wish, flags: bv32)
    ensures Met(w, flags) <==> MetByBits(w, flags)
  {
    hide HasAll, HasAny, SomeSet, AllSet;
    SomeIff(flags, w.want);
    AllIff(flags, w.want);
  }

  // ----- rt_event_recv -----

  /** Flag k is taken by a thread whose wish w is granted. */
  predicate Clears(w: Wish, k: bv5) { w.clear && Bit(w.want, k) }

  lemma RecvBits(w: Wish, flags: bv32, k: bv5)
    ensures Bit(RecvGot(w, flags), k) <==> Bit(w.want, k) && Bit(flags, k)
    ensures Bit(RecvLeft(w, flags), k) <==> Bit(flags, k) && !Clears(w, k)
  {
    hide Bit, Both, Minus;
    BitOfBoth(flags, w.want, k);
    BitOfMinus(flags, w.want, k);
  }

  lemma RecvAllBits(w: Wish, flags: bv32)
    ensures forall k: bv5 :: Bit(RecvGot(w, flags), k) <==> Bit(w.want, k) && Bit(flags, k)
    ensures forall k: bv5 :: Bit(RecvLeft(w, flags), k) <==> Bit(flags, k) && !Clears(w, k)
  {
    hide Bit, Clears, RecvGot, RecvLeft;
    forall k: bv5
      ensures Bit(RecvGot(w, flags), k) <==> Bit(w.want, k) && Bit(flags, k)
      ensures Bit(RecvLeft(w, flags), k) <==> Bit(flags, k) && !Clears(w, k)
    {
      RecvBits(w, flags, k);
    }
  }

  /** A receive that asks for something is granted if its condition holds, and then leaves exactly the flags it does
      not clear; otherwise the thread is on the list, at its place, if it is ready to wait. */
  lemma RecvDoes(s: Event, w: Wish, wait: bool, at: nat)
    requires Legal(s, Recv(w, wait, at))
    ensures var r := Next(s, Recv(w, wait, at));
      if w.want != 0 && MetByBits(w, s.flags) then
        r.waiters == s.waiters && forall k: bv5 :: Bit(r.flags, k) <==> Bit(s.flags, k) && !Clears(w, k)
      else if w.want != 0 && wait then
        r.flags == s.flags && JoinedAt(s.waiters, r.waiters, at, w)
      else r == s
  {
    hide Bit, Met, MetByBits, RecvLeft, Clears;
    MetIff(w, s.flags);
    RecvAllBits(w, s.flags);
    InsertJoins(s.waiters, at, w);
  }

  // ----- rt_event_send -----

  /** Flag k once the first n of some granted wishes have taken theirs. */
  ghost predicate StillSet(flags: bv32, gs: seq<Wish>, n: nat, k: bv5)
    requires n <= |gs|
  {
    Bit(flags, k) && forall j :: 0 <= j < n ==> !Clears(gs[j], k)
  }

  /** The condition of wish n when its turn comes. */
  ghost predicate MetInTurn(flags: bv32, gs: seq<Wish>, n: nat)
    requires n < |gs|
  {
    if gs[n].all then forall k: bv5 :: Bit(gs[n].want, k) ==> StillSet(flags, gs, n, k)
    else gs[n].any && exists k: bv5 :: Bit(gs[n].want, k) && StillSet(flags, gs, n, k)
  }

  /** What the thread of wish n gets. */
  ghost predicate GotInTurn(flags: bv32, gs: seq<Wish>, n: nat, r: Resumed)
    requires n < |gs|
  {
    r.t == gs[n].t && forall k: bv5 :: Bit(r.got, k) <==> Bit(gs[n].want, k) && StillSet(flags, gs, n, k)
  }

  /** The granted wishes of a walk, in turn: each met when its turn came, its thread got exactly the flags it asked
      for that were still set, and what is left at the end are the flags that nobody cleared. */
  ghost predicate Granted(ws: seq<Wish>, flags: bv32, gs: seq<Wish>, r: Walked) {
    && |gs| == |r.resumed| && multiset(ws) == multiset(gs) + multiset(r.waiters)
    && (forall n :: 0 <= n < |gs| ==> MetInTurn(flags, gs, n) && GotInTurn(flags, gs, n, r.resumed[n]))
    && (forall k: bv5 :: Bit(r.flags, k) <==> StillSet(flags, gs, |gs|, k))
    && (forall n :: 0 <= n < |r.waiters| ==> !MetByBits(r.waiters[n], r.flags))
  }

  lemma SendBits(w: Wish, flags: bv32, k: bv5)
    requires Met(w, flags)
    ensures Bit(SendGot(w, flags), k) <==> Bit(w.want, k) && Bit(flags, k)
    ensures Bit(SendLeft(w, flags), k) <==> Bit(flags, k) && !Clears(w, k)
  {
    SendIsRecv(w, flags);
    RecvBits(w, flags, k);
    hide Bit, Clears, Met;
  }

  /** With one more wish in front, which has taken its flags. */
  lemma StillSetCons(w: Wish, flags: bv32, left: bv32, gs: seq<Wish>, n: nat, k: bv5)
    requires n <= |gs| && (Bit(left, k) <==> Bit(flags, k) && !Clears(w, k))
    ensures StillSet(left, gs, n, k) <==> StillSet(flags, [w] + gs, n + 1, k)
  {
    hide Bit, Clears;
    var more := [w] + gs;
    assert more[0] == w && more[1..] == gs;
    assert forall j :: 0 < j < n + 1 ==> more[j] == gs[j - 1];
    assert forall j :: 0 <= j < n ==> more[j + 1] == gs[j];
  }

  lemma GrantedCons(w: Wish, flags: bv32, left: bv32, gs: seq<Wish>, rs: seq<Resumed>, n: nat)
    requires n < |gs| == |rs| && forall k: bv5 :: Bit(left, k) <==> Bit(flags, k) && !Clears(w, k)
    requires MetInTurn(left, gs, n) && GotInTurn(left, gs, n, rs[n])
    ensures MetInTurn(flags, [w] + gs, n + 1) && GotInTurn(flags, [w] + gs, n + 1, rs[n])
  {
    hide Bit, Clears, StillSet;
    forall k: bv5
      ensures StillSet(left, gs, n, k) <==> StillSet(flags, [w] + gs, n + 1, k)
    {
      StillSetCons(w, flags, left, gs, n, k);
    }
    assert ([w] + gs)[n + 1] == gs[n];
  }

  lemma FirstGranted(w: Wish, flags: bv32, gs: seq<Wish>, got: bv32)
    requires MetByBits(w, flags) && forall k: bv5 :: Bit(got, k) <==> Bit(w.want, k) && Bit(flags, k)
    ensures MetInTurn(flags, [w] + gs, 0) && GotInTurn(flags, [w] + gs, 0, Resumed(w.t, got))
  {
    hide Bit, Clears;
    assert ([w] + gs)[0] == w;
    assert forall k: bv5 :: StillSet(flags, [w] + gs, 0, k) <==> Bit(flags, k);
  }

  /** One walk grants wishes in turn and leaves nobody on the list whose condition holds. */
  lemma {:induction false} WalkGrants(ws: seq<Wish>, flags: bv32) returns (gs: seq<Wish>)
    ensures Granted(ws, flags, gs, Walk(ws, flags))
  {
    if ws == [] {
      gs := [];
      hide Bit, Clears;
    } else {
      var w, rest := ws[0], ws[1..];
      assert ws == [w] + rest;
      MetIff(w, flags);
      if Met(w, flags) {
        var left := SendLeft(w, flags);
        var more := WalkGrants(rest, left);
        gs := [w] + more;
        SendAllBits(w, flags);
        GrantedFront(w, flags, rest, more, Walk(rest, left));
      } else {
        gs := WalkGrants(rest, flags);
        WalkLeavesNoneMet(ws, flags);
        NotGranted(w, flags, rest, gs, Walk(rest, flags));
      }
    }
  }

  lemma SendAllBits(w: Wish, flags: bv32)
    requires Met(w, flags)
    ensures forall k: bv5 :: Bit(SendGot(w, flags), k) <==> Bit(w.want, k) && Bit(flags, k)
    ensures forall k: bv5 :: Bit(SendLeft(w, flags), k) <==> Bit(flags, k) && !Clears(w, k)
  {
    hide Bit, Clears, Met, SendGot, SendLeft;
    forall k: bv5
      ensures Bit(SendGot(w, flags), k) <==> Bit(w.want, k) && Bit(flags, k)
      ensures Bit(SendLeft(w, flags), k) <==> Bit(flags, k) && !Clears(w, k)
    {
      SendBits(w, flags, k);
    }
  }

  lemma GrantedFront(w: Wish, flags: bv32, rest: seq<Wish>, gs: seq<Wish>, r: Walked)
    requires MetByBits(w, flags) && Granted(rest, SendLeft(w, flags), gs, r)
    requires forall k: bv5 :: Bit(SendGot(w, flags), k) <==> Bit(w.want, k) && Bit(flags, k)
    requires forall k: bv5 :: Bit(SendLeft(w, flags), k) <==> Bit(flags, k) && !Clears(w, k)
    ensures Granted([w] + rest, flags, [w] + gs, r.(resumed := [Resumed(w.t, SendGot(w, flags))] + r.resumed))
  {
    hide Bit, Clears, SendGot, SendLeft, MetByBits, MetInTurn, GotInTurn, StillSet;
    var left, got := SendLeft(w, flags), Resumed(w.t, SendGot(w, flags));
    FirstGranted(w, flags, gs, SendGot(w, flags));
    forall n | 0 <= n < |gs| + 1
      ensures MetInTurn(flags, [w] + gs, n) && GotInTurn(flags, [w] + gs, n, ([got] + r.resumed)[n])
    {
      if n > 0 { GrantedCons(w, flags, left, gs, r.resumed, n - 1); }
    }
    forall k: bv5
      ensures Bit(r.flags, k) <==> StillSet(flags, [w] + gs, |gs| + 1, k)
    {
      StillSetCons(w, flags, left, gs, |gs|, k);
    }
  }

  lemma NotGranted(w: Wish, flags: bv32, rest: seq<Wish>, gs: seq<Wish>, r: Walked)
    requires Granted(rest, flags, gs, r) && NoneMet([w] + r.waiters, r.flags)
    ensures Granted([w] + rest, flags, gs, r.(waiters := [w] + r.waiters))
  {
    hide Bit, Clears, MetByBits, MetInTurn, GotInTurn, StillSet, Met;
    assert ([w] + r.waiters)[0] == w;
    MetIff(w, r.flags);
  }

  /** A send of no flags changes nothing; any other sets its flags and grants wishes in turn. */
  lemma SendDoes(s: Event, more: bv32) returns (now: bv32, gs: seq<Wish>, resumed: seq<Resumed>)
    ensures forall k: bv5 :: Bit(now, k) <==> Bit(s.flags, k) || Bit(more, k)
    ensures var r := Next(s, Send(more));
      if more == 0 then r == s else Granted(s.waiters, now, gs, Walked(r.waiters, r.flags, resumed))
    ensures resumed == InTurn(s.waiters, Plus(s.flags, more)).resumed
  {
    hide Bit, Granted, Walk, InTurn, Plus;
    now := Plus(s.flags, more);
    gs := WalkGrants(s.waiters, now);
    WalkIsInTurn(s.waiters, now);
    resumed := Walk(s.waiters, now).resumed;
    forall k: bv5
      ensures Bit(now, k) <==> Bit(s.flags, k) || Bit(more, k)
    {
      BitOfMore(s.flags, more, k);
    }
  }

  // ----- timeouts and resets -----

  /** A timeout takes its thread's wish off the list, whatever flags there are; a reset clears every flag and the
      list. */
  lemma OthersDo(s: Event, e: Step)
    requires Legal(s, e) && (e.Expire? || e.Reset?)
    ensures var r := Next(s, e);
      if e.Reset? then (forall k: bv5 :: !Bit(r.flags, k)) && r.waiters == []
      else r.flags == s.flags && exists i :: 0 <= i < |s.waiters| && s.waiters[i].t == e.t && WithoutOne(s, r, i)
  {
    if e.Expire? { var i := WithoutIs(s.waiters, e.t); } else { ZeroBits(); }
    hide Bit;
  }

  predicate WithoutOne(s: Event, r: Event, i: nat)
    requires i < |s.waiters|
  {
    r.waiters == s.waiters[..i] + s.waiters[i + 1..]
  }

  lemma {:induction false} WithoutIs(ws: seq<Wish>, t: Tid) returns (i: nat)
    requires Listed(ws, t)
    ensures i < |ws| && ws[i].t == t && Without(ws, t) == ws[..i] + ws[i + 1..]
  {
    if ws[0].t == t {
      i := 0;
    } else {
      assert Listed(ws[1..], t) by { var k :| 0 <= k < |ws| && ws[k].t == t; assert ws[1..][k - 1].t == t; }
      i := WithoutIs(ws[1..], t);
      assert ws[..i + 1] == [ws[0]] + ws[1..][..i];
      i := i + 1;
    }
  }

  // ----- runs -----

  /** In every reachable state nobody is suspended whose condition holds: with OR none of the flags asked for is set,
      with AND one of them is not. */
  lemma NobodyForgotten(s: Event, es: seq<Step>)
    requires NoLostWakeUp(s) && LegalRun(s, es)
    ensures var r := After(s, es); forall n :: 0 <= n < |r.waiters| ==> !MetByBits(r.waiters[n], r.flags)
  {
    var r := After(s, es);
    hide After, Met, MetByBits;
    forall n | 0 <= n < |r.waiters|
      ensures !MetByBits(r.waiters[n], r.flags)
    {
      MetIff(r.waiters[n], r.flags);
    }
  }
}
