/** The ready queues and the ready group: which threads can run, and which one does. */
module Schedulers {
  import opened Lists
  import opened ReadyBits

  const PRIORITY_MAX := 32      // RT_THREAD_PRIORITY_MAX

  type Tid = nat
  datatype Stat = Init | Ready | Suspended | Closed
  datatype Tcb = Tcb(stat: Stat, prio: nat, initPrio: nat)

  /** One queue for each priority, 0 the most urgent; bit p of group is for queue p. */
  datatype Sched = Sched(threads: seq<Tcb>, queues: seq<seq<Tid>>, group: nat, current: Tid, lockNest: nat)

  const IDLE: Tid := 0

  datatype Event =
    | Startup(t: Tid) | Suspend(t: Tid) | Resume(t: Tid) | Timeout(t: Tid)
    | Yield | SetPriority(t: Tid, p: nat) | Exit | Detach(t: Tid) | Schedule | Lock | Unlock

  // ----- the two list operations -----

  /** rt_schedule_insert_thread: READY, at the end of the queue of its priority. */
  function Readied(s: Sched, t: Tid): Sched
    requires t < |s.threads| && s.threads[t].prio < |s.queues|
  {
    var p := s.threads[t].prio;
    s.(threads := s.threads[t := s.threads[t].(stat := Ready)],
       queues := s.queues[p := s.queues[p] + [t]],
       group := SetBit(s.group, p))
  }

  /** rt_schedule_remove_thread. */
  function Take(s: Sched, t: Tid): Sched
    requires t < |s.threads| && s.threads[t].prio < |s.queues|
  {
    var p := s.threads[t].prio;
    var q := Remove(s.queues[p], t);
    s.(queues := s.queues[p := q], group := if q == [] then ClearBit(s.group, p) else s.group)
  }

  // ----- calls -----

  /** rt_schedule. */
  function Scheduled(s: Sched): Sched
    requires Inv(s)
  {
    if s.lockNest > 0 then s
    else
      IdleReady(s);
      s.(current := s.queues[Ffs(s.group) - 1][0])
  }

  function Stopped(s: Sched, t: Tid, stat: Stat): Sched
    requires t < |s.threads| && s.threads[t].prio < |s.queues|
  {
    Take(s.(threads := s.threads[t := s.threads[t].(stat := stat)]), t)
  }

  function Started(s: Sched, t: Tid): Sched
    requires t < |s.threads| && s.threads[t].initPrio < |s.queues|
  {
    Readied(s.(threads := s.threads[t := Tcb(Suspended, s.threads[t].initPrio, s.threads[t].initPrio)]), t)
  }

  /** The running thread is ready and not alone in its queue. */
  predicate CanRotate(s: Sched)
    requires s.current < |s.threads| && s.threads[s.current].prio < |s.queues|
  {
    s.threads[s.current].stat == Ready && |s.queues[s.threads[s.current].prio]| > 1
  }

  /** The running thread goes to the end of its queue. */
  function Rotated(s: Sched): Sched
    requires s.current < |s.threads| && s.threads[s.current].prio < |s.queues|
  {
    var p := s.threads[s.current].prio;
    s.(queues := s.queues[p := Remove(s.queues[p], s.current) + [s.current]])
  }

  function Moved(s: Sched, t: Tid, p: nat): Sched
    requires t < |s.threads| && s.threads[t].prio < |s.queues| && p < |s.queues|
  {
    if s.threads[t].stat == Ready
    then var s1 := Take(s, t); Readied(s1.(threads := s1.threads[t := s1.threads[t].(prio := p)]), t)
    else s.(threads := s.threads[t := s.threads[t].(prio := p)])
  }

  /** The idle thread is always ready; a thread is started once; the running thread ends itself, or a started
      thread is deleted or detached. */
  predicate Legal(s: Sched, e: Event) {
    match e
    case Startup(t) => t < |s.threads| && s.threads[t].stat == Init
    case Suspend(t) => t < |s.threads| && t != IDLE
    case Resume(t) => t < |s.threads|
    case Timeout(t) => t < |s.threads| && s.threads[t].stat == Suspended
    case Yield => true
    case SetPriority(t, p) => t < |s.threads| && s.threads[t].stat != Init && p < PRIORITY_MAX
    case Exit => s.current < |s.threads| && s.current != IDLE && s.threads[s.current].stat == Ready
    case Detach(t) => t < |s.threads| && t != IDLE && (s.threads[t].stat == Ready || s.threads[t].stat == Suspended)
    case Schedule => true
    case Lock => true
    case Unlock => s.lockNest > 0
  }

  // ----- the invariant -----

  /** A thread is in queue p if and only if it is ready at that priority. */
  predicate Placed(queues: seq<seq<Tid>>, threads: seq<Tcb>, p: nat, t: Tid)
    requires p < |queues| && t < |threads|
  {
    t in queues[p] <==> threads[t].stat == Ready && threads[t].prio == p
  }

  /** A queue has threads, each once, and its bit is set if and only if it has one. */
  predicate QueueOk(queues: seq<seq<Tid>>, group: nat, n: nat, p: nat)
    requires p < |queues|
  {
    Distinct(queues[p]) && (forall t :: t in queues[p] ==> t < n) && (Bit(group, p) <==> queues[p] != [])
  }

  /** Queues, group and threads agree. */
  predicate InStep(threads: seq<Tcb>, queues: seq<seq<Tid>>, group: nat) {
    && |queues| == PRIORITY_MAX && group < WORD
    && (forall t :: 0 <= t < |threads| ==> threads[t].prio < PRIORITY_MAX && threads[t].initPrio < PRIORITY_MAX)
    && (forall p :: 0 <= p < PRIORITY_MAX ==> QueueOk(queues, group, |threads|, p))
    && (forall p, t :: 0 <= p < PRIORITY_MAX && 0 <= t < |threads| ==> Placed(queues, threads, p, t))
  }

  predicate Queues(s: Sched) { InStep(s.threads, s.queues, s.group) }

  predicate Inv(s: Sched) {
    Queues(s) && s.current < |s.threads| && IDLE < |s.threads| && s.threads[IDLE].stat == Ready
  }

  function Pow2(n: nat): nat { if n == 0 then 1 else 2 * Pow2(n - 1) }

  lemma {:induction false} BitInWord(v: nat, k: nat, n: nat)
    requires Bit(v, k) && v < Pow2(n)
    ensures k < n
    decreases k
  {
    if n == 0 { NoBits(v, k); } else if k > 0 { BitInWord(v / 2, k - 1, n - 1); }
  }

  lemma {:induction false} Pow2Sum(a: nat, b: nat)
    ensures Pow2(a + b) == Pow2(a) * Pow2(b)
  {
    if a > 0 { Pow2Sum(a - 1, b); }
  }

  lemma WordBits()
    ensures Pow2(32) == WORD
  {
    assert Pow2(1) == 2;
    Pow2Sum(1, 1);
    Pow2Sum(2, 2);
    Pow2Sum(4, 4);
    Pow2Sum(8, 8);
    Pow2Sum(16, 16);
  }

  /** In a word that is not zero the search finds one of 32 bits. */
  lemma FfsInWord(v: nat)
    requires 0 < v < WORD
    ensures 1 <= Ffs(v) <= PRIORITY_MAX && Lowest(v, Ffs(v) - 1)
  {
    hide Ffs, Bit, Lowest;
    FfsIsLowest(v);
    WordBits();
    LowestIsSet(v, Ffs(v) - 1);
    BitInWord(v, Ffs(v) - 1, 32);
  }

  /** The idle thread keeps the group from being empty, so the search finds a queue, and a thread in it. */
  lemma IdleReady(s: Sched)
    requires Inv(s)
    ensures 0 < s.group < WORD && 1 <= Ffs(s.group) <= PRIORITY_MAX && |s.queues| == PRIORITY_MAX
    ensures s.queues[Ffs(s.group) - 1] != [] && Lowest(s.group, Ffs(s.group) - 1)
  {
    var p := s.threads[IDLE].prio;
    assert Placed(s.queues, s.threads, p, IDLE) && QueueOk(s.queues, s.group, |s.threads|, p);
    hide Ffs, Bit, Lowest;
    NoBits(s.group, p);
    FfsInWord(s.group);
    LowestIsSet(s.group, Ffs(s.group) - 1);
    assert QueueOk(s.queues, s.group, |s.threads|, Ffs(s.group) - 1);
  }

  lemma LowestIsSet(v: nat, k: nat)
    requires Lowest(v, k)
    ensures Bit(v, k)
  {
  }

  // ----- the list operations keep queues, group and threads in step -----

  lemma {:induction false} SetBitWord(v: nat, k: nat, n: nat)
    requires v < Pow2(n) && k < n
    ensures SetBit(v, k) < Pow2(n)
    decreases n
  {
    if k > 0 { SetBitWord(v / 2, k - 1, n - 1); }
  }

  lemma {:induction false} ClearBitWord(v: nat, k: nat)
    ensures ClearBit(v, k) <= v
    decreases k
  {
    if k > 0 { ClearBitWord(v / 2, k - 1); }
  }

  lemma InsertGroup(s: Sched, t: Tid)
    requires Queues(s) && t < |s.threads|
    ensures Readied(s, t).group < WORD
    ensures forall p :: 0 <= p < PRIORITY_MAX ==>
      (Bit(Readied(s, t).group, p) <==> p == s.threads[t].prio || Bit(s.group, p))
  {
    WordBits();
    SetBitWord(s.group, s.threads[t].prio, 32);
    forall p | 0 <= p < PRIORITY_MAX
      ensures Bit(Readied(s, t).group, p) <==> p == s.threads[t].prio || Bit(s.group, p)
    {
      SetBitBits(s.group, s.threads[t].prio, p);
    }
  }

  /** A thread that is not ready goes to the end of the queue of its priority. */
  lemma InsertKeeps(s: Sched, t: Tid)
    requires Queues(s) && t < |s.threads| && s.threads[t].stat != Ready
    ensures Queues(Readied(s, t))
  {
    var r, q := Readied(s, t), s.threads[t].prio;
    InsertGroup(s, t);
    hide SetBit, Bit;
    assert Placed(s.queues, s.threads, q, t) && QueueOk(s.queues, s.group, |s.threads|, q);
    BackElems(s.queues[q], t);
    forall p | 0 <= p < PRIORITY_MAX
      ensures QueueOk(r.queues, r.group, |r.threads|, p)
    {
      assert QueueOk(s.queues, s.group, |s.threads|, p);
    }
    forall p, u | 0 <= p < PRIORITY_MAX && 0 <= u < |r.threads|
      ensures Placed(r.queues, r.threads, p, u)
    {
      assert Placed(s.queues, s.threads, p, u);
      assert p == q ==> (u in r.queues[q] <==> u in s.queues[q] || u == t);
    }
  }

  lemma StoppedGroup(s: Sched, t: Tid, stat: Stat)
    requires Queues(s) && t < |s.threads|
    ensures var r, q := Stopped(s, t, stat), s.threads[t].prio;
      && r.group < WORD && r.queues == s.queues[q := Remove(s.queues[q], t)]
      && forall p :: 0 <= p < PRIORITY_MAX ==> (Bit(r.group, p) <==> Bit(s.group, p) && (p != q || r.queues[q] != []))
  {
    var q := s.threads[t].prio;
    ClearBitWord(s.group, q);
    forall p | 0 <= p < PRIORITY_MAX
      ensures Bit(ClearBit(s.group, q), p) <==> p != q && Bit(s.group, p)
    {
      ClearBitBits(s.group, q, p);
    }
  }

  /** A thread leaves its queue if it is in it; the last one takes its bit with it. */
  lemma StoppedKeeps(s: Sched, t: Tid, stat: Stat)
    requires Queues(s) && t < |s.threads| && stat != Ready
    ensures Queues(Stopped(s, t, stat))
  {
    var r, q := Stopped(s, t, stat), s.threads[t].prio;
    StoppedGroup(s, t, stat);
    assert Placed(s.queues, s.threads, q, t) && QueueOk(s.queues, s.group, |s.threads|, q);
    RemoveElems(s.queues[q], t);
    hide ClearBit, Bit, Remove;
    assert forall u :: u in r.queues[q] <==> u in Elems(r.queues[q]);
    assert forall u :: u in s.queues[q] <==> u in Elems(s.queues[q]);
    forall p | 0 <= p < PRIORITY_MAX
      ensures QueueOk(r.queues, r.group, |r.threads|, p)
    {
      assert QueueOk(s.queues, s.group, |s.threads|, p);
    }
    forall p, u | 0 <= p < PRIORITY_MAX && 0 <= u < |r.threads|
      ensures Placed(r.queues, r.threads, p, u)
    {
      assert Placed(s.queues, s.threads, p, u);
    }
  }

  /** The priority of a thread that is not ready is of no concern to the queues. */
  lemma RetunedKeeps(s: Sched, t: Tid, u: Tcb)
    requires Queues(s) && t < |s.threads| && s.threads[t].stat != Ready && u.stat != Ready
    requires u.prio < PRIORITY_MAX && u.initPrio < PRIORITY_MAX
    ensures Queues(s.(threads := s.threads[t := u]))
  {
    var r := s.(threads := s.threads[t := u]);
    forall p | 0 <= p < PRIORITY_MAX
      ensures QueueOk(r.queues, r.group, |r.threads|, p)
    {
      assert QueueOk(s.queues, s.group, |s.threads|, p);
    }
    forall p, x | 0 <= p < PRIORITY_MAX && 0 <= x < |r.threads|
      ensures Placed(r.queues, r.threads, p, x)
    {
      assert Placed(s.queues, s.threads, p, x);
    }
  }

  /** Another order of a queue. */
  lemma ReorderedKeeps(s: Sched, q: nat, queue: seq<Tid>)
    requires Queues(s) && q < PRIORITY_MAX && Distinct(queue) && Elems(queue) == Elems(s.queues[q])
    ensures Queues(s.(queues := s.queues[q := queue]))
  {
    var r := s.(queues := s.queues[q := queue]);
    assert QueueOk(s.queues, s.group, |s.threads|, q);
    assert forall u :: u in queue <==> u in Elems(queue);
    assert forall u :: u in s.queues[q] <==> u in Elems(s.queues[q]);
    assert queue == [] <==> s.queues[q] == [] by {
      if queue != [] { assert queue[0] in queue; }
      if s.queues[q] != [] { assert s.queues[q][0] in s.queues[q]; }
    }
    forall p | 0 <= p < PRIORITY_MAX
      ensures QueueOk(r.queues, r.group, |r.threads|, p)
    {
      assert QueueOk(s.queues, s.group, |s.threads|, p);
    }
    forall p, u | 0 <= p < PRIORITY_MAX && 0 <= u < |r.threads|
      ensures Placed(r.queues, r.threads, p, u)
    {
      assert Placed(s.queues, s.threads, p, u);
    }
  }

  lemma RotatedKeeps(s: Sched)
    requires Inv(s) && CanRotate(s)
    ensures Inv(Rotated(s))
  {
    var t := s.current;
    var q := s.threads[t].prio;
    assert Placed(s.queues, s.threads, q, t) && QueueOk(s.queues, s.group, |s.threads|, q);
    RemoveElems(s.queues[q], t);
    BackElems(Remove(s.queues[q], t), t);
    assert t in Elems(s.queues[q]);
    hide InStep, Distinct, Remove;
    ReorderedKeeps(s, q, Remove(s.queues[q], t) + [t]);
  }

  lemma StartedKeeps(s: Sched, t: Tid)
    requires Inv(s) && t < |s.threads| && s.threads[t].stat == Init
    ensures Inv(Started(s, t))
  {
    var u := Tcb(Suspended, s.threads[t].initPrio, s.threads[t].initPrio);
    RetunedKeeps(s, t, u);
    hide InStep;
    InsertKeeps(s.(threads := s.threads[t := u]), t);
  }

  lemma MovedKeeps(s: Sched, t: Tid, p: nat)
    requires Inv(s) && t < |s.threads| && p < PRIORITY_MAX
    ensures Inv(Moved(s, t, p))
  {
    if s.threads[t].stat == Ready {
      var s1 := Stopped(s, t, Suspended);
      StoppedKeeps(s, t, Suspended);
      RetunedKeeps(s1, t, s1.threads[t].(prio := p));
      InsertKeeps(s1.(threads := s1.threads[t := s1.threads[t].(prio := p)]), t);
      MovedIs(s, t, p);
      hide InStep;
    } else {
      RetunedKeeps(s, t, s.threads[t].(prio := p));
    }
  }

  /** Moving a ready thread is taking it off, giving it its priority and inserting it. */
  lemma MovedIs(s: Sched, t: Tid, p: nat)
    requires Queues(s) && t < |s.threads| && p < PRIORITY_MAX && s.threads[t].stat == Ready
    ensures var s1 := Stopped(s, t, Suspended);
      Moved(s, t, p) == Readied(s1.(threads := s1.threads[t := s1.threads[t].(prio := p)]), t)
  {
    hide SetBit, ClearBit, Remove;
  }

  // ----- which thread runs -----

  /** The running thread is the first of the most urgent queue with a thread in it. */
  predicate RunsMostUrgent(s: Sched) {
    exists h :: 0 <= h < |s.queues| && FirstOf(s, h)
  }

  predicate FirstOf(s: Sched, h: nat)
    requires h < |s.queues|
  {
    s.queues[h] != [] && s.current == s.queues[h][0] && forall p :: 0 <= p < h ==> s.queues[p] == []
  }

  /** With the scheduler unlocked, rt_schedule gives the processor to the first thread of the most urgent
      queue that has one; with it locked, nothing changes. */
  lemma ScheduledRuns(s: Sched)
    requires Inv(s)
    ensures Inv(Scheduled(s)) && Scheduled(s).queues == s.queues && Scheduled(s).threads == s.threads
    ensures if s.lockNest > 0 then Scheduled(s) == s else RunsMostUrgent(Scheduled(s))
    ensures s.lockNest == 0 ==> s.threads[Scheduled(s).current].stat == Ready
  {
    if s.lockNest == 0 {
      IdleReady(s);
      var h := Ffs(s.group) - 1;
      FirstReady(s, h);
      NoneMoreUrgent(s, h);
      hide InStep, Ffs;
      assert FirstOf(Scheduled(s), h);
    }
  }

  lemma FirstReady(s: Sched, h: nat)
    requires Queues(s) && h < PRIORITY_MAX && s.queues[h] != []
    ensures s.queues[h][0] < |s.threads| && s.threads[s.queues[h][0]].stat == Ready
  {
    var t := s.queues[h][0];
    assert QueueOk(s.queues, s.group, |s.threads|, h) && t in s.queues[h];
    assert Placed(s.queues, s.threads, h, t);
  }

  lemma NoneMoreUrgent(s: Sched, h: nat)
    requires Queues(s) && h < PRIORITY_MAX && Lowest(s.group, h)
    ensures forall p :: 0 <= p < h ==> s.queues[p] == []
  {
    hide Bit;
    forall p | 0 <= p < h
      ensures s.queues[p] == []
    {
      assert QueueOk(s.queues, s.group, |s.threads|, p);
    }
  }

  // ----- steps and runs -----

  /** A call: what it does to the queues, then rt_schedule where the call ends in one. */
  function Step(s: Sched, e: Event): (r: Sched)
    requires Inv(s) && Legal(s, e)
    ensures Inv(r)
  {
    match e
    case Startup(t) => StartedKeeps(s, t); ScheduledRuns(Started(s, t)); Scheduled(Started(s, t))
    case Suspend(t) =>
      if s.threads[t].stat != Ready then s
      else StoppedKeeps(s, t, Suspended); Stopped(s, t, Suspended)
    case Resume(t) =>
      if s.threads[t].stat != Suspended then s
      else InsertKeeps(s, t); Readied(s, t)
    case Timeout(t) => InsertKeeps(s, t); ScheduledRuns(Readied(s, t)); Scheduled(Readied(s, t))
    case Yield => if !CanRotate(s) then s else RotatedKeeps(s); ScheduledRuns(Rotated(s)); Scheduled(Rotated(s))
    case SetPriority(t, p) => MovedKeeps(s, t, p); Moved(s, t, p)
    case Exit =>
      StoppedKeeps(s, s.current, Closed);
      ScheduledRuns(Stopped(s, s.current, Closed));
      Scheduled(Stopped(s, s.current, Closed))
    case Detach(t) => StoppedKeeps(s, t, Closed); Stopped(s, t, Closed)
    case Schedule => ScheduledRuns(s); Scheduled(s)
    case Lock => s.(lockNest := s.lockNest + 1)
    case Unlock =>
      if s.lockNest > 1 then s.(lockNest := s.lockNest - 1)
      else
        ScheduledRuns(s.(lockNest := 0));
        Scheduled(s.(lockNest := 0))
  }

  predicate LegalRun(s: Sched, es: seq<Event>)
    requires Inv(s)
    decreases |es|
  {
    es == [] || (Legal(s, es[0]) && LegalRun(Step(s, es[0]), es[1..]))
  }

  /** In every reachable state the group shows which queues have threads, and every ready thread is in the
      queue of its priority and in no other. */
  function AfterRun(s: Sched, es: seq<Event>): (r: Sched)
    requires Inv(s) && LegalRun(s, es)
    ensures Inv(r)
    decreases |es|
  {
    if es == [] then s else AfterRun(Step(s, es[0]), es[1..])
  }

  // ----- locking -----

  /** The lock is held all through the run. */
  predicate StaysLocked(s: Sched, es: seq<Event>)
    requires Inv(s) && LegalRun(s, es)
    decreases |es|
  {
    s.lockNest > 0 && (es == [] || StaysLocked(Step(s, es[0]), es[1..]))
  }

  lemma LockedStep(s: Sched, e: Event)
    requires Inv(s) && Legal(s, e) && s.lockNest > 0 && Step(s, e).lockNest > 0
    ensures Step(s, e).current == s.current
  {
    hide SetBit, ClearBit, Remove, InStep;
  }

  /** While the scheduler is locked the running thread stays, whatever becomes ready. */
  lemma {:induction false} LockedNoSwitch(s: Sched, es: seq<Event>)
    requires Inv(s) && LegalRun(s, es) && StaysLocked(s, es)
    ensures AfterRun(s, es).current == s.current
    decreases |es|
  {
    if es != [] {
      LockedStep(s, es[0]);
      hide Inv, Legal, Step;
      LockedNoSwitch(Step(s, es[0]), es[1..]);
    }
  }

  // ----- round robin -----

  /** The running thread at the head of the most urgent queue, nobody holding the scheduler. */
  predicate Running(s: Sched, h: nat) { Inv(s) && s.lockNest == 0 && h < PRIORITY_MAX && FirstOf(s, h) }

  lemma RunningReady(s: Sched, h: nat)
    requires Running(s, h)
    ensures s.threads[s.current].stat == Ready && s.threads[s.current].prio == h && Distinct(s.queues[h])
  {
    var t := s.queues[h][0];
    assert QueueOk(s.queues, s.group, |s.threads|, h) && t in s.queues[h];
    assert Placed(s.queues, s.threads, h, t);
  }

  lemma LowestQueue(s: Sched, h: nat)
    requires Inv(s) && h < PRIORITY_MAX && s.queues[h] != [] && forall p :: 0 <= p < h ==> s.queues[p] == []
    ensures Ffs(s.group) - 1 == h
  {
    IdleReady(s);
    forall p | 0 <= p < h
      ensures !Bit(s.group, p)
    {
      assert QueueOk(s.queues, s.group, |s.threads|, p);
    }
    assert QueueOk(s.queues, s.group, |s.threads|, h);
    hide Ffs, Bit;
    LowestUnique(s.group, h, Ffs(s.group) - 1);
  }

  /** A yield sends the running thread to the end of its queue and runs the next. */
  lemma YieldRotates(s: Sched, h: nat)
    requires Running(s, h)
    ensures var q, r := s.queues[h], Step(s, Yield);
      Running(r, h) && r.queues == s.queues[h := q[1..] + [q[0]]] && r.threads == s.threads
  {
    RunningReady(s, h);
    var q := s.queues[h];
    if |q| > 1 {
      RotatedKeeps(s);
      var r := Rotated(s);
      assert r.queues[h] == q[1..] + [q[0]];
      LowestQueue(r, h);
      ScheduledRuns(r);
    } else {
      assert q[1..] + [q[0]] == q && s.queues[h := q] == s.queues;
    }
  }

  /** n yields, each by the thread running at the time. */
  function Yields(s: Sched, n: nat): Sched
    requires Inv(s)
    decreases n
  {
    if n == 0 then s else Yields(Step(s, Yield), n - 1)
  }

  /** Equal threads take turns: after k yields the k-th thread of the queue runs, and after as many yields
      as there are threads the queue is as it was. */
  lemma {:induction false} RoundRobin(s: Sched, h: nat, k: nat)
    requires Running(s, h) && k <= |s.queues[h]|
    ensures var q, r := s.queues[h], Yields(s, k);
      Running(r, h) && r.queues[h] == q[k..] + q[..k] && r.threads == s.threads
    decreases k
  {
    var q := s.queues[h];
    if k == 0 {
      assert q[0..] + q[..0] == q;
    } else {
      RunningInv(s, h);
      hide Running, Inv, Step, Yields;
      LastYield(s, k - 1);
      RoundRobin(s, h, k - 1);
      var r := Yields(s, k - 1);
      RunningInv(r, h);
      YieldRotates(r, h);
      RotateOnce(q, k - 1);
    }
  }

  lemma RunningInv(s: Sched, h: nat)
    requires Running(s, h)
    ensures Inv(s) && h < |s.queues| && s.queues[h] != []
  {
  }

  lemma {:induction false} LastYield(s: Sched, n: nat)
    requires Inv(s)
    ensures Inv(Yields(s, n)) && Yields(s, n + 1) == Step(Yields(s, n), Yield)
    decreases n
  {
    hide Inv, Step;
    if n > 0 { LastYield(Step(s, Yield), n - 1); }
  }

  lemma RotateOnce(q: seq<Tid>, k: nat)
    requires k < |q|
    ensures var r := q[k..] + q[..k]; r[1..] + [r[0]] == q[k + 1..] + q[..k + 1]
  {
  }
}
