/** What each scheduler call does to the threads, the queues and the running thread, said of the state before and
    after it alone. */
module SchedulerCalls {
  import opened Lists
  import opened ReadyBits
  import opened Schedulers

  /** The calls that end in rt_schedule. */
  predicate Reschedules(s: Sched, e: Event)
    requires Inv(s)
  {
    match e
    case Startup(_) => true
    case Timeout(_) => true
    case Exit => true
    case Schedule => true
    case Unlock => s.lockNest == 1
    case Yield => s.threads[s.current].stat == Ready && |s.queues[s.threads[s.current].prio]| > 1
    case _ => false
  }

  /** The thread a call is about. */
  function Subject(s: Sched, e: Event): Tid {
    match e
    case Startup(t) => t
    case Suspend(t) => t
    case Resume(t) => t
    case Timeout(t) => t
    case SetPriority(t, _) => t
    case Detach(t) => t
    case _ => s.current
  }

  /** What becomes of that thread. */
  predicate Becomes(b: Tcb, e: Event, a: Tcb) {
    && a.initPrio == b.initPrio
    && match e
       case Startup(_) => a.stat == Ready && a.prio == b.initPrio
       case Suspend(_) => a.prio == b.prio && a.stat == if b.stat == Ready then Suspended else b.stat
       case Resume(_) => a.prio == b.prio && a.stat == if b.stat == Suspended then Ready else b.stat
       case Timeout(_) => a.prio == b.prio && a.stat == Ready
       case SetPriority(_, p) => a.prio == p && a.stat == b.stat
       case Exit => a.prio == b.prio && a.stat == Closed
       case Detach(_) => a.prio == b.prio && a.stat == Closed
       case _ => a == b
  }

  /** The calls that send a thread to the end of a queue. */
  predicate GoesLast(s: Sched, e: Event)
    requires Inv(s) && Legal(s, e)
  {
    match e
    case Startup(_) => true
    case Timeout(_) => true
    case Resume(t) => s.threads[t].stat == Suspended
    case SetPriority(t, _) => s.threads[t].stat == Ready
    case Yield => s.threads[s.current].stat == Ready && |s.queues[s.threads[s.current].prio]| > 1
    case _ => false
  }

  predicate Last(q: seq<Tid>, t: Tid) { q != [] && q[|q| - 1] == t }

  /** t apart, every queue is as it was, in the same order. */
  predicate OthersQueued(s: Sched, r: Sched, t: Tid) {
    |r.queues| == |s.queues| && forall p :: 0 <= p < |s.queues| ==> Remove(r.queues[p], t) == Remove(s.queues[p], t)
  }

  predicate OtherThreads(s: Sched, r: Sched, t: Tid) {
    |r.threads| == |s.threads| && forall u :: 0 <= u < |s.threads| && u != t ==> r.threads[u] == s.threads[u]
  }

  lemma {:induction false} RemoveEnd(q: seq<Tid>, t: Tid)
    requires t !in q
    ensures Remove(q + [t], t) == q
    decreases |q|
  {
    if q == [] {
      assert [] + [t] == [t];
    } else {
      assert (q + [t])[1..] == q[1..] + [t];
      RemoveEnd(q[1..], t);
    }
  }

  lemma {:induction false} RemoveNone(q: seq<Tid>, t: Tid)
    requires t !in q
    ensures Remove(q, t) == q
    decreases |q|
  {
    if q != [] { RemoveNone(q[1..], t); }
  }

  lemma RemoveTwice(q: seq<Tid>, t: Tid)
    requires Distinct(q)
    ensures t !in Remove(q, t) && Remove(Remove(q, t), t) == Remove(q, t)
  {
    RemoveElems(q, t);
    assert t !in Elems(Remove(q, t));
    RemoveNone(Remove(q, t), t);
  }

  // ----- the list operations -----

  lemma ReadiedDoes(s: Sched, t: Tid)
    requires Inv(s) && t < |s.threads| && s.threads[t].stat != Ready
    ensures var r := Readied(s, t);
      OthersQueued(s, r, t) && OtherThreads(s, r, t) && Last(r.queues[s.threads[t].prio], t)
  {
    var p := s.threads[t].prio;
    NotQueued(s, p, t);
    RemoveEnd(s.queues[p], t);
    RemoveNone(s.queues[p], t);
    hide SetBit, Remove;
  }

  lemma NotQueued(s: Sched, p: nat, t: Tid)
    requires Queues(s) && p < PRIORITY_MAX && t < |s.threads|
    ensures Distinct(s.queues[p]) && (t in s.queues[p] <==> s.threads[t].stat == Ready && s.threads[t].prio == p)
  {
    assert QueueOk(s.queues, s.group, |s.threads|, p) && Placed(s.queues, s.threads, p, t);
  }

  lemma StoppedDoes(s: Sched, t: Tid, stat: Stat)
    requires Inv(s) && t < |s.threads|
    ensures var r := Stopped(s, t, stat); OthersQueued(s, r, t) && OtherThreads(s, r, t)
  {
    var p := s.threads[t].prio;
    NotQueued(s, p, t);
    RemoveTwice(s.queues[p], t);
    hide ClearBit, Remove;
  }

  lemma RotatedDoes(s: Sched)
    requires Inv(s)
    ensures var r := Rotated(s);
      OthersQueued(s, r, s.current) && r.threads == s.threads && Last(r.queues[s.threads[s.current].prio], s.current)
  {
    var p, t := s.threads[s.current].prio, s.current;
    NotQueued(s, p, t);
    RemoveTwice(s.queues[p], t);
    RemoveEnd(Remove(s.queues[p], t), t);
    hide Remove;
  }

  lemma MovedDoes(s: Sched, t: Tid, p: nat)
    requires Inv(s) && t < |s.threads| && p < PRIORITY_MAX
    ensures var r := Moved(s, t, p);
      OthersQueued(s, r, t) && OtherThreads(s, r, t) && (s.threads[t].stat == Ready ==> Last(r.queues[p], t))
  {
    var q := s.threads[t].prio;
    NotQueued(s, q, t);
    NotQueued(s, p, t);
    RemoveTwice(s.queues[q], t);
    RemoveEnd(Remove(s.queues[q], t), t);
    if p != q {
      RemoveEnd(s.queues[p], t);
      RemoveNone(s.queues[p], t);
    }
    hide SetBit, ClearBit, Remove;
  }

  // ----- the calls -----

  lemma ScheduledKeeps(s: Sched)
    requires Inv(s)
    ensures var r := Scheduled(s);
      && r.threads == s.threads && r.queues == s.queues && r.lockNest == s.lockNest
      && (if s.lockNest == 0 then RunsMostUrgent(r) else r.current == s.current)
  {
    ScheduledRuns(s);
    hide Inv, Ffs, RunsMostUrgent;
  }

  function NestAfter(s: Sched, e: Event): int { s.lockNest + if e.Lock? then 1 else if e.Unlock? then -1 else 0 }

  /** What a call does to the threads, the queues and the lock. */
  predicate Changes(s: Sched, e: Event, r: Sched)
    requires Inv(s) && Legal(s, e)
  {
    var t := Subject(s, e);
    && t < |s.threads| && OtherThreads(s, r, t) && Becomes(s.threads[t], e, r.threads[t])
    && OthersQueued(s, r, t) && r.lockNest == NestAfter(s, e)
    && (GoesLast(s, e) ==> r.threads[t].prio < |r.queues| && Last(r.queues[r.threads[t].prio], t))
  }

  lemma ChangesKept(s: Sched, e: Event, m: Sched)
    requires Inv(s) && Legal(s, e) && Changes(s, e, m) && Inv(m)
    ensures Changes(s, e, Scheduled(m))
    ensures if m.lockNest == 0 then RunsMostUrgent(Scheduled(m)) else Scheduled(m).current == m.current
  {
    ScheduledKeeps(m);
    hide Inv, Remove, Ffs, RunsMostUrgent;
  }

  lemma NothingChanges(s: Sched, e: Event, r: Sched)
    requires Inv(s) && Legal(s, e) && r.threads == s.threads && r.queues == s.queues && r.lockNest == NestAfter(s, e)
    requires e.Lock? || e.Unlock? || e.Schedule? || (e.Yield? && !CanRotate(s))
      || (e.Suspend? && s.threads[e.t].stat != Ready) || (e.Resume? && s.threads[e.t].stat != Suspended)
    ensures Changes(s, e, r)
  {
    hide Remove, SetBit, ClearBit;
  }

  lemma ReadiedChanges(s: Sched, e: Event)
    requires Inv(s) && Legal(s, e) && (e.Timeout? || (e.Resume? && s.threads[e.t].stat == Suspended))
    ensures Changes(s, e, Readied(s, e.t)) && Inv(Readied(s, e.t)) && Readied(s, e.t).current == s.current
  {
    ReadiedDoes(s, e.t);
    InsertKeeps(s, e.t);
    hide Remove, SetBit;
  }

  lemma StoppedChanges(s: Sched, e: Event, stat: Stat)
    requires Inv(s) && Legal(s, e) && Subject(s, e) != IDLE
    requires if e.Suspend? then s.threads[e.t].stat == Ready && stat == Suspended
             else (e.Exit? || e.Detach?) && stat == Closed
    ensures var r := Stopped(s, Subject(s, e), stat); Changes(s, e, r) && Inv(r) && r.current == s.current
  {
    var t := Subject(s, e);
    StoppedDoes(s, t, stat);
    StoppedKeeps(s, t, stat);
    hide Remove, ClearBit;
  }

  lemma StartedChanges(s: Sched, e: Event)
    requires Inv(s) && Legal(s, e) && e.Startup?
    ensures var r := Started(s, e.t); Changes(s, e, r) && Inv(r) && r.current == s.current
  {
    StartedDoes(s, e.t);
    StartedKeeps(s, e.t);
    hide Remove, SetBit;
  }

  lemma RotatedChanges(s: Sched)
    requires Inv(s) && CanRotate(s)
    ensures var r := Rotated(s); Changes(s, Yield, r) && Inv(r) && r.current == s.current
  {
    RotatedDoes(s);
    RotatedKeeps(s);
    hide Remove;
  }

  lemma MovedChanges(s: Sched, e: Event)
    requires Inv(s) && Legal(s, e) && e.SetPriority?
    ensures var r := Moved(s, e.t, e.p); Changes(s, e, r) && r.current == s.current
  {
    MovedDoes(s, e.t, e.p);
    hide Remove, SetBit, ClearBit;
  }

  /** Every call does to its thread what its name says and leaves the others; the queues keep their order, and a
      thread that becomes ready, changes its priority or yields is the last of its own; and where the call ends in
      rt_schedule, unlocked, the head of the most urgent queue runs.  Nothing else changes who runs. */
  lemma StepDoes(s: Sched, e: Event)
    requires Inv(s) && Legal(s, e)
    ensures Changes(s, e, Step(s, e))
    ensures var r := Step(s, e);
      if Reschedules(s, e) && r.lockNest == 0 then RunsMostUrgent(r) else r.current == s.current
  {
    hide SetBit, ClearBit, Remove, RunsMostUrgent, Ffs, Changes, Readied, Stopped, Started, Rotated, Moved;
    match e
    case Startup(t) =>
      StartedChanges(s, e);
      ChangesKept(s, e, Started(s, t));
    case Suspend(t) =>
      if s.threads[t].stat == Ready { StoppedChanges(s, e, Suspended); } else { NothingChanges(s, e, s); }
    case Resume(t) => if s.threads[t].stat == Suspended { ReadiedChanges(s, e); } else { NothingChanges(s, e, s); }
    case Timeout(t) =>
      ReadiedChanges(s, e);
      ChangesKept(s, e, Readied(s, t));
    case Yield =>
      if CanRotate(s) {
        RotatedChanges(s);
        ChangesKept(s, e, Rotated(s));
      } else {
        NothingChanges(s, e, s);
      }
    case SetPriority(t, p) => MovedChanges(s, e);
    case Exit =>
      StoppedChanges(s, e, Closed);
      ChangesKept(s, e, Stopped(s, s.current, Closed));
    case Detach(t) => StoppedChanges(s, e, Closed);
    case Schedule =>
      NothingChanges(s, e, s);
      ChangesKept(s, e, s);
    case Lock => NothingChanges(s, e, Step(s, e));
    case Unlock =>
      NothingChanges(s, e, s.(lockNest := s.lockNest - 1));
      if s.lockNest == 1 { ChangesKept(s, e, s.(lockNest := 0)); }
  }

  lemma StartedDoes(s: Sched, t: Tid)
    requires Inv(s) && t < |s.threads| && s.threads[t].stat == Init
    ensures var r := Started(s, t);
      && OthersQueued(s, r, t) && OtherThreads(s, r, t) && Last(r.queues[s.threads[t].initPrio], t)
      && r.threads[t] == Tcb(Ready, s.threads[t].initPrio, s.threads[t].initPrio)
  {
    var p := s.threads[t].initPrio;
    NotQueued(s, p, t);
    RemoveEnd(s.queues[p], t);
    RemoveNone(s.queues[p], t);
    hide SetBit, Remove;
  }
}
