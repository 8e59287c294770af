/** A mutex with priority inheritance: taken again by its owner, handed to the first waiter on release, the
    owner lifted to the priority of a more urgent waiter.  A smaller number is a more urgent priority. */
module Mutexes {
  import opened Lists

  type Tid = nat
  datatype Owner = Nobody | Thread(t: Tid)

  /** byPrio is the flag of the object: waiters by priority, or in arrival order; prio is the current
      priority of every thread. */
  datatype Mutex = Mutex(byPrio: bool, value: nat, owner: Owner, original: nat, hold: nat, waiters: seq<Tid>,
      prio: seq<nat>)

  datatype Event =
    | Take(t: Tid, wait: bool)
    | Release(t: Tid)
    | Expire(t: Tid)                 // the timer of a waiter
    | SetPrio(t: Tid, p: nat)        // of a thread that has nothing to do with the mutex

  const NO_PRIORITY := 0xff

  function Prio(prio: seq<nat>, t: Tid): nat { if t < |prio| then prio[t] else 0 }

  // ----- the waiting list -----

  /** Before the first waiter that is less urgent. */
  function PrioPlace(ws: seq<Tid>, prio: seq<nat>, p: nat): (k: nat)
    ensures k <= |ws|
    ensures forall i :: 0 <= i < k ==> Prio(prio, ws[i]) <= p
    ensures k < |ws| ==> p < Prio(prio, ws[k])
  {
    if ws == [] || p < Prio(prio, ws[0]) then 0 else 1 + PrioPlace(ws[1..], prio, p)
  }

  function Place(byPrio: bool, ws: seq<Tid>, prio: seq<nat>, t: Tid): (k: nat)
    ensures k <= |ws|
  {
    if byPrio then PrioPlace(ws, prio, Prio(prio, t)) else |ws|
  }

  // ----- steps -----

  predicate Legal(s: Mutex, e: Event) {
    && e.t < |s.prio|
    && match e
       case Take(t, _) => t !in s.waiters
       case Release(t) => t !in s.waiters
       case Expire(t) => t in s.waiters
       case SetPrio(t, _) => t !in s.waiters && s.owner != Thread(t)
  }

  /** The owner is lifted to the priority of t if t is more urgent. */
  function Lifted(prio: seq<nat>, owner: Owner, t: Tid): seq<nat> {
    if owner.Thread? && owner.t < |prio| && Prio(prio, t) < prio[owner.t] then prio[owner.t := Prio(prio, t)] else prio
  }

  /** The last hold is given up: the owner's priority goes back, the first waiter owns the mutex. */
  function HandedOn(s: Mutex): Mutex
    requires s.owner.Thread? && s.owner.t < |s.prio|
  {
    var prio := s.prio[s.owner.t := s.original];
    if s.waiters == [] then s.(value := s.value + 1, owner := Nobody, original := NO_PRIORITY, hold := 0, prio := prio)
    else
      var w := s.waiters[0];
      s.(owner := Thread(w), original := Prio(prio, w), hold := 1, waiters := s.waiters[1..], prio := prio)
  }

  function Step(s: Mutex, e: Event): Mutex
    requires Legal(s, e)
  {
    match e
    case Take(t, wait) =>
      if s.owner == Thread(t) then s.(hold := s.hold + 1)
      else if s.value > 0 then s.(value := s.value - 1, owner := Thread(t), original := s.prio[t], hold := s.hold + 1)
      else if !wait then s
      else
        var prio := Lifted(s.prio, s.owner, t);
        s.(prio := prio, waiters := Insert(s.waiters, Place(s.byPrio, s.waiters, prio, t), t))
    case Release(t) =>
      if s.owner != Thread(t) then s
      else if s.hold > 1 then s.(hold := s.hold - 1)
      else HandedOn(s)
    case Expire(t) => s.(waiters := Remove(s.waiters, t))
    case SetPrio(t, p) => s.(prio := s.prio[t := p])
  }

  // ----- the invariant -----

  /** The mutex is free with nobody owning or waiting, or it is owned and held. */
  predicate Balanced(s: Mutex) {
    if s.owner.Nobody? then s.value == 1 && s.hold == 0 && s.waiters == []
    else s.value == 0 && s.hold >= 1 && s.owner.t < |s.prio| && s.owner.t !in s.waiters
  }

  predicate InTable(ws: seq<Tid>, n: nat) { forall w :: w in ws ==> w < n }

  predicate Sorted(ws: seq<Tid>, prio: seq<nat>) {
    forall i, j :: 0 <= i < j < |ws| ==> Prio(prio, ws[i]) <= Prio(prio, ws[j])
  }

  predicate NotAbove(p: nat, ws: seq<Tid>, prio: seq<nat>) { forall i :: 0 <= i < |ws| ==> p <= Prio(prio, ws[i]) }

  /** The owner is at least as urgent as every waiter, and as it was when it got the mutex. */
  predicate NoInversion(s: Mutex) {
    s.owner.Thread? ==> Prio(s.prio, s.owner.t) <= s.original && NotAbove(Prio(s.prio, s.owner.t), s.waiters, s.prio)
  }

  /** What holds of any mutex. */
  predicate Sound(s: Mutex) { Balanced(s) && Distinct(s.waiters) && InTable(s.waiters, |s.prio|) }

  /** What holds of a mutex that keeps its waiters by priority. */
  predicate Inv(s: Mutex) { s.byPrio && Sound(s) && Sorted(s.waiters, s.prio) && NoInversion(s) }

  // ----- the waiting list stays sorted -----

  lemma InTableOf(ws: seq<Tid>, n: nat, more: seq<Tid>, t: Tid)
    requires InTable(ws, n) && t < n && Elems(more) <= Elems(ws) + {t}
    ensures InTable(more, n)
  {
    assert forall w :: w in more ==> w in Elems(more);
  }

  lemma LaterLessUrgent(ws: seq<Tid>, prio: seq<nat>, p: nat, k: nat)
    requires Sorted(ws, prio) && k <= |ws| && (k < |ws| ==> p < Prio(prio, ws[k]))
    ensures forall i :: k <= i < |ws| ==> p < Prio(prio, ws[i])
  {
    hide Prio;
  }

  /** A waiter goes after everyone at least as urgent and before everyone less urgent, so equals are served
      in the order they came. */
  lemma InsertSorted(ws: seq<Tid>, prio: seq<nat>, t: Tid)
    requires Sorted(ws, prio)
    ensures var k := PrioPlace(ws, prio, Prio(prio, t));
      && Sorted(Insert(ws, k, t), prio)
      && (forall i :: 0 <= i < k ==> Prio(prio, ws[i]) <= Prio(prio, t))
      && (forall i :: k <= i < |ws| ==> Prio(prio, t) < Prio(prio, ws[i]))
  {
    hide Prio;
    var k := PrioPlace(ws, prio, Prio(prio, t));
    LaterLessUrgent(ws, prio, Prio(prio, t), k);
    hide PrioPlace;
    InsertedSorted(ws, prio, k, t);
  }

  lemma InsertedSorted(ws: seq<Tid>, prio: seq<nat>, k: nat, t: Tid)
    requires Sorted(ws, prio) && k <= |ws|
    requires forall i :: 0 <= i < k ==> Prio(prio, ws[i]) <= Prio(prio, t)
    requires forall i :: k <= i < |ws| ==> Prio(prio, t) < Prio(prio, ws[i])
    ensures Sorted(Insert(ws, k, t), prio)
  {
    hide Prio;
    var s := Insert(ws, k, t);
    forall i, j | 0 <= i < j < |s|
      ensures Prio(prio, s[i]) <= Prio(prio, s[j])
    {
      var a := if i < k then ws[i] else if i == k then t else ws[i - 1];
      var b := if j < k then ws[j] else if j == k then t else ws[j - 1];
      assert s[i] == a && s[j] == b;
    }
  }

  lemma SamePrio(ws: seq<Tid>, a: seq<nat>, b: seq<nat>, p: nat)
    requires forall i :: 0 <= i < |ws| ==> Prio(a, ws[i]) == Prio(b, ws[i])
    ensures Sorted(ws, a) ==> Sorted(ws, b)
    ensures NotAbove(p, ws, a) ==> NotAbove(p, ws, b)
  {
    hide Prio;
  }

  lemma TailSorted(ws: seq<Tid>, prio: seq<nat>)
    requires Sorted(ws, prio) && ws != []
    ensures Sorted(ws[1..], prio) && NotAbove(Prio(prio, ws[0]), ws[1..], prio)
  {
    hide Prio;
  }

  lemma {:induction false} RemoveSorted(ws: seq<Tid>, t: Tid, prio: seq<nat>, p: nat)
    requires Sorted(ws, prio) && NotAbove(p, ws, prio)
    ensures Sorted(Remove(ws, t), prio) && NotAbove(p, Remove(ws, t), prio)
  {
    if ws != [] {
      TailSorted(ws, prio);
      if ws[0] != t {
        RemoveAbove(ws[1..], t, prio, Prio(prio, ws[0]));
        RemoveSorted(ws[1..], t, prio, p);
        hide Prio;
      }
    }
  }

  lemma {:induction false} RemoveAbove(ws: seq<Tid>, t: Tid, prio: seq<nat>, p: nat)
    requires NotAbove(p, ws, prio)
    ensures NotAbove(p, Remove(ws, t), prio)
  {
    if ws != [] && ws[0] != t {
      assert NotAbove(p, ws[1..], prio);
      RemoveAbove(ws[1..], t, prio, p);
      hide Prio;
    }
  }

  /** Lifting the owner leaves the waiters' priorities alone. */
  lemma LiftedFacts(s: Mutex, t: Tid)
    requires Sound(s) && s.owner.Thread? && t < |s.prio| && s.owner != Thread(t)
    ensures var prio := Lifted(s.prio, s.owner, t);
      && |prio| == |s.prio| && Prio(prio, t) == Prio(s.prio, t)
      && (forall i :: 0 <= i < |s.waiters| ==> Prio(prio, s.waiters[i]) == Prio(s.prio, s.waiters[i]))
      && Prio(prio, s.owner.t) <= Prio(prio, t) && Prio(prio, s.owner.t) <= Prio(s.prio, s.owner.t)
  {
    assert forall i :: 0 <= i < |s.waiters| ==> s.waiters[i] in s.waiters && s.waiters[i] != s.owner.t;
  }

  lemma AboveLower(p: nat, q: nat, ws: seq<Tid>, prio: seq<nat>)
    requires NotAbove(p, ws, prio) && q <= p
    ensures NotAbove(q, ws, prio)
  {
  }

  lemma InsertAbove(p: nat, ws: seq<Tid>, k: nat, t: Tid, prio: seq<nat>)
    requires NotAbove(p, ws, prio) && k <= |ws| && p <= Prio(prio, t)
    ensures NotAbove(p, Insert(ws, k, t), prio)
  {
    hide Prio;
    var s := Insert(ws, k, t);
    assert forall i :: 0 <= i < |s| ==> s[i] == (if i < k then ws[i] else if i == k then t else ws[i - 1]);
  }

  // ----- every step keeps the invariant -----

  lemma SuspendSound(s: Mutex, t: Tid)
    requires Sound(s) && Legal(s, Take(t, true)) && s.owner.Thread? && s.owner != Thread(t)
    ensures Sound(Step(s, Take(t, true)))
  {
    LiftedFacts(s, t);
    var k := Place(s.byPrio, s.waiters, Lifted(s.prio, s.owner, t), t);
    InsertElems(s.waiters, k, t);
    InTableOf(s.waiters, |s.prio|, Insert(s.waiters, k, t), t);
    assert s.owner.t !in Elems(Insert(s.waiters, k, t));
  }

  lemma HandedOnSound(s: Mutex)
    requires Sound(s) && s.owner.Thread?
    ensures Sound(HandedOn(s))
  {
    if s.waiters != [] {
      TailElems(s.waiters);
      assert s.waiters[0] in s.waiters;
      InTableOf(s.waiters, |s.prio|, s.waiters[1..], s.waiters[0]);
      assert s.waiters[0] !in s.waiters[1..];
    }
  }

  /** Owner, count and list agree in every reachable state, whatever the flag. */
  lemma StepSound(s: Mutex, e: Event)
    requires Sound(s) && Legal(s, e)
    ensures Sound(Step(s, e)) && |Step(s, e).prio| == |s.prio| && Step(s, e).byPrio == s.byPrio
  {
    match e
    case Take(t, wait) =>
      if s.owner.Thread? && s.owner != Thread(t) && wait { SuspendSound(s, t); LiftedFacts(s, t); }
    case Release(t) =>
      if s.owner == Thread(t) { HandedOnSound(s); }
    case Expire(t) =>
      RemoveElems(s.waiters, t);
      InTableOf(s.waiters, |s.prio|, Remove(s.waiters, t), t);
      assert s.owner.Thread? ==> s.owner.t !in Elems(Remove(s.waiters, t));
    case SetPrio(t, p) =>
  }

  lemma SuspendKeeps(s: Mutex, t: Tid)
    requires Inv(s) && Legal(s, Take(t, true)) && s.owner.Thread? && s.owner != Thread(t)
    ensures Inv(Step(s, Take(t, true)))
  {
    SuspendSound(s, t);
    LiftedFacts(s, t);
    var prio := Lifted(s.prio, s.owner, t);
    hide Sound, Lifted, Prio;
    SamePrio(s.waiters, s.prio, prio, Prio(s.prio, s.owner.t));
    InsertSorted(s.waiters, prio, t);
    AboveLower(Prio(s.prio, s.owner.t), Prio(prio, s.owner.t), s.waiters, prio);
    InsertAbove(Prio(prio, s.owner.t), s.waiters, PrioPlace(s.waiters, prio, Prio(prio, t)), t, prio);
  }

  lemma RestoredPrio(s: Mutex)
    requires Sound(s) && s.owner.Thread?
    ensures var prio := s.prio[s.owner.t := s.original];
      forall i :: 0 <= i < |s.waiters| ==> Prio(prio, s.waiters[i]) == Prio(s.prio, s.waiters[i])
  {
    assert forall i :: 0 <= i < |s.waiters| ==> s.waiters[i] in s.waiters && s.waiters[i] != s.owner.t;
  }

  lemma HandedOnKeeps(s: Mutex)
    requires Inv(s) && s.owner.Thread?
    ensures Inv(HandedOn(s))
  {
    HandedOnSound(s);
    RestoredPrio(s);
    var prio := s.prio[s.owner.t := s.original];
    SamePrio(s.waiters, s.prio, prio, 0);
    if s.waiters != [] { TailSorted(s.waiters, prio); }
    hide Sound, Prio;
  }

  /** With waiters by priority, no step lets the owner be less urgent than a waiter. */
  lemma StepKeeps(s: Mutex, e: Event)
    requires Inv(s) && Legal(s, e)
    ensures Inv(Step(s, e))
  {
    StepSound(s, e);
    match e
    case Take(t, wait) =>
      if s.owner.Thread? && s.owner != Thread(t) && wait { SuspendKeeps(s, t); }
    case Release(t) =>
      if s.owner == Thread(t) && s.hold <= 1 { HandedOnKeeps(s); }
    case Expire(t) =>
      RemoveSorted(s.waiters, t, s.prio, if s.owner.Thread? then Prio(s.prio, s.owner.t) else 0);
    case SetPrio(t, p) =>
      assert forall i :: 0 <= i < |s.waiters| ==> s.waiters[i] in s.waiters && s.waiters[i] != t;
      SamePrio(s.waiters, s.prio, s.prio[t := p], if s.owner.Thread? then Prio(s.prio, s.owner.t) else 0);
  }

  // ----- runs -----

  predicate LegalRun(s: Mutex, es: seq<Event>)
    decreases |es|
  {
    es == [] || (Legal(s, es[0]) && LegalRun(Step(s, es[0]), es[1..]))
  }

  function After(s: Mutex, es: seq<Event>): (r: Mutex)
    requires Inv(s) && LegalRun(s, es)
    ensures Inv(r)
    decreases |es|
  {
    if es == [] then s else StepKeeps(s, es[0]); After(Step(s, es[0]), es[1..])
  }

  // ----- the owner's priority comes back -----

  /** t owns the mutex all through the run. */
  predicate OwnsThrough(s: Mutex, es: seq<Event>, t: Tid)
    requires LegalRun(s, es)
    decreases |es|
  {
    s.owner == Thread(t) && (es == [] || OwnsThrough(Step(s, es[0]), es[1..], t))
  }

  lemma OriginalStays(s: Mutex, e: Event, t: Tid)
    requires Inv(s) && Legal(s, e) && s.owner == Thread(t) && Step(s, e).owner == Thread(t)
    ensures Step(s, e).original == s.original
  {
    assert s.waiters != [] ==> s.waiters[0] in s.waiters;
  }

  lemma {:induction false} OriginalThrough(s: Mutex, es: seq<Event>, t: Tid)
    requires Inv(s) && LegalRun(s, es) && OwnsThrough(s, es, t)
    ensures After(s, es).original == s.original && After(s, es).owner == Thread(t)
    decreases |es|
  {
    if es != [] {
      StepKeeps(s, es[0]);
      OriginalStays(s, es[0], t);
      hide Inv, Legal, Step;
      OriginalThrough(Step(s, es[0]), es[1..], t);
    }
  }

  /** A thread that comes to own the mutex, by taking it free or by being handed it, is to get back the priority
      it had before that step. */
  lemma OriginalIsBefore(s: Mutex, e: Event, t: Tid)
    requires Inv(s) && Legal(s, e) && s.owner != Thread(t) && Step(s, e).owner == Thread(t)
    ensures Step(s, e).original == Prio(s.prio, t)
  {
    if e.Release? { RestoredPrio(s); }
  }

  /** However a thread came to own the mutex, and however often its priority was raised meanwhile, after its
      last release it has the priority it had before it owned it. */
  lemma PriorityComesBack(s: Mutex, e: Event, t: Tid, es: seq<Event>)
    requires Inv(s) && Legal(s, e) && s.owner != Thread(t) && Step(s, e).owner == Thread(t)
    requires Inv(Step(s, e)) && LegalRun(Step(s, e), es) && OwnsThrough(Step(s, e), es, t)
    requires After(Step(s, e), es).hold == 1 && Legal(After(Step(s, e), es), Release(t))
    ensures var r := Step(After(Step(s, e), es), Release(t));
      Prio(r.prio, t) == Prio(s.prio, t) && r.owner != Thread(t)
  {
    var s1 := Step(s, e);
    OriginalIsBefore(s, e, t);
    OriginalThrough(s1, es, t);
    StepSound(s, e);
    AfterLength(s1, es);
    var q := After(s1, es);
    assert q.waiters != [] ==> q.waiters[0] in q.waiters;
    hide Inv, LegalRun, OwnsThrough, After;
  }

  lemma {:induction false} AfterLength(s: Mutex, es: seq<Event>)
    requires Inv(s) && LegalRun(s, es)
    ensures |After(s, es).prio| == |s.prio|
    decreases |es|
  {
    if es != [] {
      StepKeeps(s, es[0]);
      StepSound(s, es[0]);
      hide Inv, Legal, Step;
      AfterLength(Step(s, es[0]), es[1..]);
    }
  }

  /** A thread that was handed the mutex gets back the priority it waited with. */
  lemma HandedPriority(s: Mutex, t: Tid)
    requires Inv(s) && Legal(s, Release(t)) && s.owner == Thread(t) && s.hold == 1 && s.waiters != []
    ensures var r := Step(s, Release(t)); r.owner == Thread(s.waiters[0]) && r.original == Prio(s.prio, s.waiters[0])
  {
    assert s.waiters[0] in s.waiters;
  }

  // ----- equals are served in turn -----

  predicate Ahead(ws: seq<Tid>, a: Tid, b: Tid) { exists i, j :: 0 <= i < j < |ws| && ws[i] == a && ws[j] == b }

  lemma InsertAhead(ws: seq<Tid>, k: nat, t: Tid, a: Tid, b: Tid)
    requires Ahead(ws, a, b) && k <= |ws|
    ensures Ahead(Insert(ws, k, t), a, b)
  {
    var i, j :| 0 <= i < j < |ws| && ws[i] == a && ws[j] == b;
    var s := Insert(ws, k, t);
    var i1, j1 := if i < k then i else i + 1, if j < k then j else j + 1;
    assert s[i1] == a && s[j1] == b;
  }

  lemma TailAhead(ws: seq<Tid>, a: Tid, b: Tid)
    requires Ahead(ws, a, b) && ws[0] != a
    ensures Ahead(ws[1..], a, b)
  {
    var i, j :| 0 <= i < j < |ws| && ws[i] == a && ws[j] == b;
    assert ws[1..][i - 1] == a && ws[1..][j - 1] == b;
  }

  lemma {:induction false} RemoveAhead(ws: seq<Tid>, t: Tid, a: Tid, b: Tid)
    requires Ahead(ws, a, b) && t != a && t != b
    ensures Ahead(Remove(ws, t), a, b)
  {
    if ws[0] == t {
      TailAhead(ws, a, b);
    } else if ws[0] == a {
      assert ws == [a] + ws[1..];
      assert b in ws[1..] by {
        var i, j :| 0 <= i < j < |ws| && ws[i] == a && ws[j] == b;
        assert ws[1..][j - 1] == b;
      }
      RemoveStill(ws[1..], t, b);
      var k :| 0 <= k < |Remove(ws[1..], t)| && Remove(ws[1..], t)[k] == b;
      assert Remove(ws, t)[0] == a && Remove(ws, t)[k + 1] == b;
    } else {
      TailAhead(ws, a, b);
      RemoveAhead(ws[1..], t, a, b);
      InsertAhead(Remove(ws[1..], t), 0, ws[0], a, b);
      assert Insert(Remove(ws[1..], t), 0, ws[0]) == [ws[0]] + Remove(ws[1..], t);
    }
  }

  lemma {:induction false} RemoveStill(ws: seq<Tid>, t: Tid, b: Tid)
    requires b in ws && b != t
    ensures b in Remove(ws, t)
  {
    if ws[0] != t && ws[0] != b { RemoveStill(ws[1..], t, b); }
  }

  /** a keeps waiting all through the run, and b does not give up. */
  predicate BothWait(s: Mutex, es: seq<Event>, a: Tid, b: Tid)
    requires LegalRun(s, es)
    decreases |es|
  {
    a in s.waiters && (es == [] || (es[0] != Expire(b) && BothWait(Step(s, es[0]), es[1..], a, b)))
  }

  lemma StepAhead(s: Mutex, e: Event, a: Tid, b: Tid)
    requires Inv(s) && Legal(s, e) && Ahead(s.waiters, a, b) && a in Step(s, e).waiters && e != Expire(b)
    ensures Ahead(Step(s, e).waiters, a, b)
  {
    match e
    case Take(t, wait) =>
      var prio := Lifted(s.prio, s.owner, t);
      InsertAhead(s.waiters, Place(s.byPrio, s.waiters, prio, t), t, a, b);
    case Release(t) =>
      if s.owner == Thread(t) && s.hold <= 1 {
        TailElems(s.waiters);
        assert s.waiters[0] != a;
        TailAhead(s.waiters, a, b);
      }
    case Expire(t) =>
      RemoveElems(s.waiters, t);
      assert t == a ==> a !in Elems(Remove(s.waiters, t));
      RemoveAhead(s.waiters, t, a, b);
    case SetPrio(_, _) =>
  }

  /** Nobody is handed the mutex before those ahead of him. */
  lemma {:induction false} ServedInOrder(s: Mutex, es: seq<Event>, a: Tid, b: Tid)
    requires Inv(s) && LegalRun(s, es) && BothWait(s, es, a, b) && Ahead(s.waiters, a, b)
    ensures Ahead(After(s, es).waiters, a, b)
    decreases |es|
  {
    if es != [] {
      StepKeeps(s, es[0]);
      StepAhead(s, es[0], a, b);
      hide Inv, Legal, Step, Ahead;
      ServedInOrder(Step(s, es[0]), es[1..], a, b);
    }
  }

  /** A thread that comes to wait when an equal, or a more urgent one, waits already goes behind it. */
  lemma ComesBehind(s: Mutex, a: Tid, b: Tid)
    requires Inv(s) && Legal(s, Take(b, true)) && a in s.waiters && s.owner != Thread(b)
      && Prio(s.prio, a) <= Prio(s.prio, b)
    ensures Ahead(Step(s, Take(b, true)).waiters, a, b)
  {
    LiftedFacts(s, b);
    var prio := Lifted(s.prio, s.owner, b);
    var k := PrioPlace(s.waiters, prio, Prio(prio, b));
    SamePrio(s.waiters, s.prio, prio, 0);
    InsertSorted(s.waiters, prio, b);
    var i :| 0 <= i < |s.waiters| && s.waiters[i] == a;
    assert Prio(prio, s.waiters[i]) <= Prio(prio, b);
    assert i < k;
    var w := Insert(s.waiters, k, b);
    assert w[i] == a && w[k] == b;
  }

  /** Of two waiters equally urgent the one that came first is handed the mutex first: as long as it waits, the
      other waits too. */
  lemma EqualsInTurn(s: Mutex, a: Tid, b: Tid, es: seq<Event>)
    requires Inv(s) && Legal(s, Take(b, true)) && a in s.waiters && s.owner != Thread(b)
      && Prio(s.prio, a) == Prio(s.prio, b)
    requires Inv(Step(s, Take(b, true))) && LegalRun(Step(s, Take(b, true)), es)
      && BothWait(Step(s, Take(b, true)), es, a, b)
    ensures var r := After(Step(s, Take(b, true)), es); b in r.waiters && r.owner != Thread(b)
  {
    ComesBehind(s, a, b);
    ServedInOrder(Step(s, Take(b, true)), es, a, b);
    hide Step, After, LegalRun, Sorted, NoInversion;
  }

  // ----- waiters in arrival order -----

  /** With waiters in arrival order the hand-off does not lift the new owner: the owner is at least as
      urgent as the waiters left if and only if the first waiter was. */
  lemma HandOffKeepsIff(s: Mutex, t: Tid)
    requires Sound(s) && NoInversion(s) && Legal(s, Release(t)) && s.owner == Thread(t) && s.hold == 1
      && s.waiters != []
    ensures NoInversion(Step(s, Release(t))) <==> NotAbove(Prio(s.prio, s.waiters[0]), s.waiters[1..], s.prio)
  {
    RestoredPrio(s);
    var prio := s.prio[s.owner.t := s.original];
    assert forall i :: 0 <= i < |s.waiters[1..]| ==> s.waiters[1..][i] == s.waiters[i + 1];
    assert Prio(prio, s.waiters[0]) == Prio(s.prio, s.waiters[0]);
    hide Sound, Prio;
    SamePrio(s.waiters[1..], s.prio, prio, Prio(s.prio, s.waiters[0]));
    SamePrio(s.waiters[1..], prio, s.prio, Prio(s.prio, s.waiters[0]));
  }

  /** A mutex with waiters in arrival order, before and after two threads came to wait for it. */
  const FREE_MUTEX := Mutex(false, 1, Nobody, NO_PRIORITY, 0, [], [20, 20, 5])
  const TWO_WAITING := Mutex(false, 0, Thread(0), 20, 1, [1, 2], [5, 20, 5])

  lemma TwoComeToWait()
    ensures var es := [Take(0, true), Take(1, true), Take(2, true)];
      Sound(FREE_MUTEX) && LegalRun(FREE_MUTEX, es) && Step(Step(Step(FREE_MUTEX, es[0]), es[1]), es[2]) == TWO_WAITING
  {
    var s1 := Step(FREE_MUTEX, Take(0, true));
    var s2 := Step(s1, Take(1, true));
    assert s2.waiters == [1];
    var s3 := Step(s2, Take(2, true));
    assert s3.waiters == [1, 2];
    var es := [Take(0, true), Take(1, true), Take(2, true)];
    assert es[1..] == [Take(1, true), Take(2, true)] && es[1..][1..] == [Take(2, true)] && es[1..][1..][1..] == [];
    assert LegalRun(s2, [Take(2, true)]);
  }

  /** The second thread waits less urgently than the third: after the release the owner is less urgent than
      a waiter. */
  lemma HandOffCanInvert()
    ensures Sound(TWO_WAITING) && NoInversion(TWO_WAITING) && Legal(TWO_WAITING, Release(0))
    ensures !NoInversion(Step(TWO_WAITING, Release(0)))
  {
    var r := Step(TWO_WAITING, Release(0));
    assert r.owner == Thread(1) && r.waiters == [2] && r.prio == [20, 20, 5];
    assert Prio(r.prio, r.waiters[0]) == 5;
  }
}
