/** What rt_mutex_take and rt_mutex_release do to the owner, the count, the waiters and the priorities, whatever the
    flag of the mutex: step by step, and counted over runs. */
module MutexCalls {
  import opened Lists
  import opened Mutexes

  // ----- one call -----

  /** A thread that wants the mutex from another and is ready to wait. */
  predicate Blocks(s: Mutex, e: Event) {
    e.Take? && e.wait && s.owner.Thread? && s.owner != Thread(e.t)
  }

  /** The owner gives back its last hold. */
  predicate GivesUp(s: Mutex, e: Event) { e.Release? && s.owner == Thread(e.t) && s.hold == 1 }

  function OwnerAfter(s: Mutex, e: Event): Owner {
    if e.Take? && s.owner.Nobody? then Thread(e.t)
    else if GivesUp(s, e) then if s.waiters == [] then Nobody else Thread(s.waiters[0])
    else s.owner
  }

  /** A waiter is let in behind everyone at least as urgent and before everyone else, or behind everyone; it is the
      only one to come, and leaves by its timer or by getting the mutex. */
  predicate Waits(s: Mutex, e: Event, ws: seq<Tid>) {
    if Blocks(s, e) then
      exists k :: 0 <= k <= |s.waiters| && ws == s.waiters[..k] + [e.t] + s.waiters[k..]
        && if s.byPrio then
             && (forall i :: 0 <= i < k ==> Prio(s.prio, s.waiters[i]) <= Prio(s.prio, e.t))
             && (forall i :: k <= i < |s.waiters| ==> Prio(s.prio, e.t) < Prio(s.prio, s.waiters[i]))
           else k == |s.waiters|
    else if e.Expire? then Elems(ws) == Elems(s.waiters) - {e.t} && Remove(s.waiters, e.t) == ws
    else if GivesUp(s, e) then ws == (if s.waiters == [] then [] else s.waiters[1..])
    else ws == s.waiters
  }

  function Least(a: nat, b: nat): nat { if b < a then b else a }

  /** The owner is lifted by a waiter, and has its saved priority back with the last release. */
  function PrioAfter(s: Mutex, e: Event, u: Tid): nat {
    if Blocks(s, e) && s.owner == Thread(u) then Least(Prio(s.prio, u), Prio(s.prio, e.t))
    else if GivesUp(s, e) && u == e.t then s.original
    else if e.SetPrio? && u == e.t then e.p
    else Prio(s.prio, u)
  }

  predicate Priorities(s: Mutex, e: Event, r: Mutex) {
    forall u :: 0 <= u < |s.prio| ==> Prio(r.prio, u) == PrioAfter(s, e, u)
  }

  /** Owner, waiters and priorities after any call. */
  lemma StepDoes(s: Mutex, e: Event)
    requires (s.byPrio ==> Inv(s)) && Sound(s) && Legal(s, e)
    ensures var r := Step(s, e);
      r.owner == OwnerAfter(s, e) && Waits(s, e, r.waiters) && Priorities(s, e, r) && r.byPrio == s.byPrio
  {
    StepSound(s, e);
    if Blocks(s, e) {
      BlockedWaits(s, e);
    } else if e.Expire? {
      RemoveElems(s.waiters, e.t);
    } else if GivesUp(s, e) && s.waiters != [] {
      assert s.waiters[0] in s.waiters;
    }
  }

  lemma BlockedWaits(s: Mutex, e: Event)
    requires (s.byPrio ==> Inv(s)) && Sound(s) && Legal(s, e) && Blocks(s, e)
    ensures var r := Step(s, e); Waits(s, e, r.waiters) && Priorities(s, e, r)
  {
    var t, prio := e.t, Lifted(s.prio, s.owner, e.t);
    LiftedFacts(s, t);
    var k := Place(s.byPrio, s.waiters, prio, t);
    assert Step(s, e).waiters == s.waiters[..k] + [t] + s.waiters[k..];
    if s.byPrio {
      SamePrio(s.waiters, s.prio, prio, 0);
      InsertSorted(s.waiters, prio, t);
    }
  }

  // ----- holds over runs -----

  function Ran(s: Mutex, es: seq<Event>): Mutex
    requires LegalRun(s, es)
    decreases |es|
  {
    if es == [] then s else Ran(Step(s, es[0]), es[1..])
  }

  /** How often t takes, and how often it releases. */
  function Takes(es: seq<Event>, t: Tid): nat {
    if es == [] then 0 else (if es[0].Take? && es[0].t == t then 1 else 0) + Takes(es[1..], t)
  }

  function Releases(es: seq<Event>, t: Tid): nat {
    if es == [] then 0 else (if es[0].Release? && es[0].t == t then 1 else 0) + Releases(es[1..], t)
  }

  lemma HoldStep(s: Mutex, e: Event, t: Tid)
    requires Sound(s) && Legal(s, e) && s.owner == Thread(t) && Step(s, e).owner == Thread(t)
    ensures Step(s, e).hold == s.hold + Takes([e], t) - Releases([e], t)
  {
    assert s.waiters != [] ==> s.waiters[0] in s.waiters;
    hide Place, Lifted, Remove;
    assert [e][1..] == [];
  }

  lemma {:induction false} HoldThrough(s: Mutex, es: seq<Event>, t: Tid)
    requires Sound(s) && LegalRun(s, es) && OwnsThrough(s, es, t)
    ensures Sound(Ran(s, es)) && Ran(s, es).owner == Thread(t)
    ensures Ran(s, es).hold == s.hold + Takes(es, t) - Releases(es, t)
    decreases |es|
  {
    if es != [] {
      HoldStep(s, es[0], t);
      StepSound(s, es[0]);
      assert [es[0]][1..] == [];
      hide Sound, Legal, Step;
      HoldThrough(Step(s, es[0]), es[1..], t);
    }
  }

  lemma NewOwnerHoldsOnce(s: Mutex, e: Event, t: Tid)
    requires Sound(s) && Legal(s, e) && s.owner != Thread(t) && Step(s, e).owner == Thread(t)
    ensures Sound(Step(s, e)) && Step(s, e).hold == 1
  {
    StepSound(s, e);
    hide Place, Lifted, Remove;
  }

  /** From the step that made t the owner on, while it owns the mutex, the count is its takes less its releases,
      that step counted as the first take. */
  lemma HoldIsTakesLessReleases(s: Mutex, e: Event, t: Tid, es: seq<Event>)
    requires Sound(s) && Legal(s, e) && s.owner != Thread(t) && Step(s, e).owner == Thread(t)
    requires LegalRun(Step(s, e), es) && OwnsThrough(Step(s, e), es, t)
    ensures Ran(Step(s, e), es).hold == 1 + Takes(es, t) - Releases(es, t)
  {
    NewOwnerHoldsOnce(s, e, t);
    hide Sound, Legal, Step;
    HoldThrough(Step(s, e), es, t);
  }

  /** A release then gives the mutex up if and only if it is as many as the takes were. */
  lemma GivenUpIffBalanced(s: Mutex, e: Event, t: Tid, es: seq<Event>)
    requires Sound(s) && Legal(s, e) && s.owner != Thread(t) && Step(s, e).owner == Thread(t)
    requires LegalRun(Step(s, e), es) && OwnsThrough(Step(s, e), es, t)
    requires Legal(Ran(Step(s, e), es), Release(t))
    ensures Step(Ran(Step(s, e), es), Release(t)).owner != Thread(t) <==> Releases(es, t) + 1 == Takes(es, t) + 1
  {
    NewOwnerHoldsOnce(s, e, t);
    HoldThrough(Step(s, e), es, t);
    var q := Ran(Step(s, e), es);
    assert q.waiters != [] ==> q.waiters[0] in q.waiters;
    hide Ran, OwnsThrough, LegalRun, Takes, Releases;
  }
}
