/** Events: threads wait for all or any of some of 32 flags; a send sets flags and walks the list of
    suspended threads once, resuming each whose wish is met by what is set at that point. */
module EventFlags {
  import opened Lists

  type Tid = nat

  /** What a thread waits for: RT_EVENT_FLAG_AND, _OR and _CLEAR are all, any and clear. */
  datatype Wish = Wish(t: Tid, want: bv32, all: bool, any: bool, clear: bool)

  /** The flags set, and the suspended threads in the order of the list. */
  datatype Event = Event(flags: bv32, waiters: seq<Wish>)

  datatype Resumed = Resumed(t: Tid, got: bv32)

  // ----- one wish -----

  /** The condition both rt_event_recv and rt_event_send test; the AND option goes first. */
  predicate Met(w: Wish, flags: bv32) {
    if w.all then HasAll(flags, w.want) else w.any && HasAny(flags, w.want)
  }

  predicate HasAll(flags: bv32, want: bv32) { Both(flags, want) == want }
  predicate HasAny(flags: bv32, want: bv32) { Both(flags, want) != 0 }

  function Both(a: bv32, b: bv32): bv32 { a & b }
  function Minus(flags: bv32, x: bv32): bv32 { flags & !x }
  function Plus(flags: bv32, x: bv32): bv32 { flags | x }

  /** What an immediate rt_event_recv returns and leaves. */
  function RecvGot(w: Wish, flags: bv32): bv32 { Both(flags, w.want) }
  function RecvLeft(w: Wish, flags: bv32): bv32 { if w.clear then Minus(flags, w.want) else flags }

  /** What rt_event_send stores for the thread it resumes, and leaves. */
  function SendGot(w: Wish, flags: bv32): bv32 { if w.all then w.want else Both(w.want, flags) }
  function SendLeft(w: Wish, flags: bv32): bv32 { if w.clear then Minus(flags, SendGot(w, flags)) else flags }

  /** A thread resumed by a send gets and leaves what it would have by an immediate receive. */
  lemma SendIsRecv(w: Wish, flags: bv32)
    requires Met(w, flags)
    ensures SendGot(w, flags) == RecvGot(w, flags) && SendLeft(w, flags) == RecvLeft(w, flags)
  {
    hide Both, Minus;
    if !w.all {
      BothCommutes(w.want, flags);
      ClearSame(flags, w.want);
    }
  }

  lemma BothCommutes(a: bv32, b: bv32)
    ensures Both(a, b) == Both(b, a)
  {
  }

  lemma ClearSame(flags: bv32, want: bv32)
    ensures Minus(flags, Both(want, flags)) == Minus(flags, want)
  {
  }

  /** Every flag of a is in b. */
  predicate Within(a: bv32, b: bv32) { a & b == a }

  lemma LeftWithin(w: Wish, flags: bv32)
    ensures Within(SendLeft(w, flags), flags)
  {
    hide SendGot, Minus, Within;
    MaskedWithin(flags, SendGot(w, flags));
  }

  lemma MaskedWithin(a: bv32, x: bv32)
    ensures Within(Minus(a, x), a) && Within(a, a)
  {
  }

  lemma WithinTrans(a: bv32, b: bv32, c: bv32)
    requires Within(a, b) && Within(b, c)
    ensures Within(a, c)
  {
    assert a & c == (a & b) & c == a & (b & c) == a & b;
  }

  /** A wish not met by some flags is not met by fewer. */
  lemma FewerFlags(w: Wish, a: bv32, b: bv32)
    requires Within(a, b) && !Met(w, b)
    ensures !Met(w, a)
  {
    hide Within, HasAll, HasAny;
    if HasAll(a, w.want) { AllOfMore(w.want, a, b); }
    if HasAny(a, w.want) { AnyOfMore(w.want, a, b); }
  }

  lemma AllOfMore(want: bv32, a: bv32, b: bv32)
    requires Within(a, b) && HasAll(a, want)
    ensures HasAll(b, want)
  {
  }

  lemma AnyOfMore(want: bv32, a: bv32, b: bv32)
    requires Within(a, b) && HasAny(a, want)
    ensures HasAny(b, want)
  {
  }

  // ----- the walk -----

  datatype Walked = Walked(waiters: seq<Wish>, flags: bv32, resumed: seq<Resumed>)

  /** One pass over the list: a thread whose wish is met is resumed, takes its flags if it said so, and
      leaves the list. */
  function Walk(ws: seq<Wish>, flags: bv32): Walked {
    if ws == [] then Walked([], flags, [])
    else if Met(ws[0], flags) then
      var r := Walk(ws[1..], SendLeft(ws[0], flags));
      r.(resumed := [Resumed(ws[0].t, SendGot(ws[0], flags))] + r.resumed)
    else
      var r := Walk(ws[1..], flags);
      r.(waiters := [ws[0]] + r.waiters)
  }

  /** The same threads calling rt_event_recv one after the other, in the order of the list. */
  function InTurn(ws: seq<Wish>, flags: bv32): Walked {
    if ws == [] then Walked([], flags, [])
    else if Met(ws[0], flags) then
      var r := InTurn(ws[1..], RecvLeft(ws[0], flags));
      r.(resumed := [Resumed(ws[0].t, RecvGot(ws[0], flags))] + r.resumed)
    else
      var r := InTurn(ws[1..], flags);
      r.(waiters := [ws[0]] + r.waiters)
  }

  /** A send has the effect of all suspended threads receiving in turn: the same threads get the same flags
      and the same flags are left. */
  lemma {:induction false} WalkIsInTurn(ws: seq<Wish>, flags: bv32)
    ensures Walk(ws, flags) == InTurn(ws, flags)
  {
    if ws != [] {
      if Met(ws[0], flags) {
        SendIsRecv(ws[0], flags);
        WalkIsInTurn(ws[1..], SendLeft(ws[0], flags));
      } else {
        WalkIsInTurn(ws[1..], flags);
      }
    }
  }

  predicate NoneMet(ws: seq<Wish>, flags: bv32) { forall k :: 0 <= k < |ws| ==> !Met(ws[k], flags) }

  /** The walk only takes flags away, and leaves nobody on the list whose wish is met in the end, although
      earlier threads were tested against flags that later ones took. */
  lemma {:induction false} WalkLeavesNoneMet(ws: seq<Wish>, flags: bv32)
    ensures Within(Walk(ws, flags).flags, flags) && NoneMet(Walk(ws, flags).waiters, Walk(ws, flags).flags)
  {
    hide Within, Met, SendLeft, SendGot;
    if ws == [] {
      MaskedWithin(flags, flags);
    } else if Met(ws[0], flags) {
      var left := SendLeft(ws[0], flags);
      WalkLeavesNoneMet(ws[1..], left);
      LeftWithin(ws[0], flags);
      WithinTrans(Walk(ws[1..], left).flags, left, flags);
    } else {
      WalkLeavesNoneMet(ws[1..], flags);
      var r := Walk(ws[1..], flags);
      FewerFlags(ws[0], r.flags, flags);
      NoneMetCons(ws[0], r.waiters, r.flags);
    }
  }

  lemma NoneMetCons(w: Wish, ws: seq<Wish>, flags: bv32)
    requires !Met(w, flags) && NoneMet(ws, flags)
    ensures NoneMet([w] + ws, flags)
  {
    hide Met;
  }

  function Threads(ws: seq<Wish>): seq<Tid> { seq(|ws|, i requires 0 <= i < |ws| => ws[i].t) }

  function ResumedThreads(rs: seq<Resumed>): seq<Tid> { seq(|rs|, i requires 0 <= i < |rs| => rs[i].t) }

  /** Everyone on the list is afterwards either still on it or resumed, once. */
  lemma {:induction false} WalkKeepsThreads(ws: seq<Wish>, flags: bv32)
    ensures multiset(Threads(ws)) ==
      multiset(Threads(Walk(ws, flags).waiters)) + multiset(ResumedThreads(Walk(ws, flags).resumed))
  {
    hide Met, SendLeft, SendGot, Threads, ResumedThreads;
    if ws == [] {
      NoThreads();
    } else {
      assert ws == [ws[0]] + ws[1..];
      ThreadsCons(ws[0], ws[1..]);
      if Met(ws[0], flags) {
        var r, got := Walk(ws[1..], SendLeft(ws[0], flags)), Resumed(ws[0].t, SendGot(ws[0], flags));
        WalkKeepsThreads(ws[1..], SendLeft(ws[0], flags));
        assert Walk(ws, flags).waiters == r.waiters && Walk(ws, flags).resumed == [got] + r.resumed;
        hide Walk;
        ResumedCons(got, r.resumed);
      } else {
        var r := Walk(ws[1..], flags);
        WalkKeepsThreads(ws[1..], flags);
        assert Walk(ws, flags).waiters == [ws[0]] + r.waiters && Walk(ws, flags).resumed == r.resumed;
        hide Walk;
        ThreadsCons(ws[0], r.waiters);
      }
    }
  }

  lemma NoThreads()
    ensures Threads([]) == [] && ResumedThreads([]) == []
  {
  }

  lemma ThreadsCons(w: Wish, ws: seq<Wish>)
    ensures multiset(Threads([w] + ws)) == multiset{w.t} + multiset(Threads(ws))
  {
    assert Threads([w] + ws) == [w.t] + Threads(ws);
  }

  lemma ResumedCons(r: Resumed, rs: seq<Resumed>)
    ensures multiset(ResumedThreads([r] + rs)) == multiset{r.t} + multiset(ResumedThreads(rs))
  {
    assert ResumedThreads([r] + rs) == [r.t] + ResumedThreads(rs);
  }

  // ----- steps -----

  datatype Step =
    | Send(flags: bv32)
    | Recv(w: Wish, wait: bool, at: nat)   // suspends at a place the object's flag decides
    | Expire(t: Tid)                       // the timer of a suspended thread
    | Reset                                // RT_IPC_CMD_RESET

  predicate Listed(ws: seq<Wish>, t: Tid) { exists k :: 0 <= k < |ws| && ws[k].t == t }

  /** A receive asks for something, all or any of it, and comes from a thread that is running. */
  predicate Legal(s: Event, e: Step) {
    match e
    case Send(_) => true
    case Recv(w, _, at) => (w.all || w.any) && !Listed(s.waiters, w.t) && at <= |s.waiters|
    case Expire(t) => Listed(s.waiters, t)
    case Reset => true
  }

  function Without(ws: seq<Wish>, t: Tid): seq<Wish> {
    if ws == [] then [] else if ws[0].t == t then ws[1..] else [ws[0]] + Without(ws[1..], t)
  }

  /** Setting or asking for no flags at all is an error that changes nothing. */
  function Next(s: Event, e: Step): Event
    requires Legal(s, e)
  {
    match e
    case Send(flags) =>
      if flags == 0 then s
      else var r := Walk(s.waiters, Plus(s.flags, flags)); Event(r.flags, r.waiters)
    case Recv(w, wait, at) =>
      if w.want == 0 then s
      else if Met(w, s.flags) then s.(flags := RecvLeft(w, s.flags))
      else if wait then s.(waiters := s.waiters[..at] + [w] + s.waiters[at..])
      else s
    case Expire(t) => s.(waiters := Without(s.waiters, t))
    case Reset => Event(0, [])
  }

  /** No wake-up is lost: nobody is suspended whose wish is met. */
  predicate NoLostWakeUp(s: Event) { NoneMet(s.waiters, s.flags) }

  lemma {:induction false} WithoutNoneMet(ws: seq<Wish>, t: Tid, flags: bv32)
    requires NoneMet(ws, flags)
    ensures NoneMet(Without(ws, t), flags)
  {
    hide Met;
    if ws != [] {
      assert !Met(ws[0], flags);
      assert NoneMet(ws[1..], flags);
      WithoutNoneMet(ws[1..], t, flags);
      NoneMetCons(ws[0], Without(ws[1..], t), flags);
    }
  }

  lemma RecvLeftWithin(w: Wish, flags: bv32)
    ensures Within(RecvLeft(w, flags), flags)
  {
    hide Minus, Within;
    MaskedWithin(flags, w.want);
  }

  lemma {:induction false} FewerNoneMet(ws: seq<Wish>, a: bv32, b: bv32)
    requires NoneMet(ws, b) && Within(a, b)
    ensures NoneMet(ws, a)
  {
    hide Met, Within;
    forall k | 0 <= k < |ws|
      ensures !Met(ws[k], a)
    {
      FewerFlags(ws[k], a, b);
    }
  }

  lemma NextKeeps(s: Event, e: Step)
    requires NoLostWakeUp(s) && Legal(s, e)
    ensures NoLostWakeUp(Next(s, e))
  {
    hide Met, Within, RecvLeft;
    match e
    case Send(flags) => WalkLeavesNoneMet(s.waiters, Plus(s.flags, flags));
    case Recv(w, _, _) =>
      RecvLeftWithin(w, s.flags);
      FewerNoneMet(s.waiters, RecvLeft(w, s.flags), s.flags);
    case Expire(t) => WithoutNoneMet(s.waiters, t, s.flags);
    case Reset =>
  }

  predicate LegalRun(s: Event, es: seq<Step>)
    decreases |es|
  {
    es == [] || (Legal(s, es[0]) && LegalRun(Next(s, es[0]), es[1..]))
  }

  /** In every reachable state nobody is suspended whose wish is met. */
  function After(s: Event, es: seq<Step>): (r: Event)
    requires NoLostWakeUp(s) && LegalRun(s, es)
    ensures NoLostWakeUp(r)
    decreases |es|
  {
    if es == [] then s else NextKeeps(s, es[0]); After(Next(s, es[0]), es[1..])
  }
}
