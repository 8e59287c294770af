/** scheduler.c and thread.c as they run: the list node and the mask of each thread, the heads of the ready
    queues, the ready group, the running thread. */
module Scheduler {
  import opened Lists
  import opened LinkedRings
  import opened ReadyBits
  import opened Schedulers
  import opened ReadyRings

  class Scheduler {
    var threads: seq<Tcb>
    var numberMask: seq<nat>
    var next: Links
    var prev: Links
    var readyGroup: nat
    var current: Tid
    var lockNest: nat
    ghost var queues: seq<seq<Tid>>

    ghost function State(): Sched
      reads this
    {
      Sched(threads, queues, readyGroup, current, lockNest)
    }

    /** The links are those of the queues, and the masks those of the priorities. */
    ghost predicate Shown()
      reads this`next, this`prev, this`queues, this`threads, this`numberMask
    {
      Linked(next, prev, queues, threads) && Masks(threads, numberMask)
    }

    ghost predicate Valid() reads this { Inv(State()) && Shown() }

    /** rt_system_scheduler_init and the start of the idle thread, number 0. */
    constructor (threads: seq<Tcb>)
      requires |threads| > 0 && forall t :: 0 <= t < |threads| ==>
        threads[t].stat == Init && threads[t].prio < PRIORITY_MAX && threads[t].initPrio < PRIORITY_MAX
      ensures Valid() && current == IDLE && lockNest == 0
      ensures this.threads == threads[IDLE := Tcb(Ready, threads[IDLE].initPrio, threads[IDLE].initPrio)]
    {
      this.threads, numberMask := threads, seq(|threads|, _ => 0);
      next, prev, queues := Selves(|threads|), Selves(|threads|), seq(PRIORITY_MAX, _ => []);
      readyGroup, current, lockNest := 0, IDLE, 0;
      new;
      NothingReady(State());
      NoneLinked(|threads|, threads);
      Begin(IDLE);
      assert this.threads == threads[IDLE := Tcb(Ready, threads[IDLE].initPrio, threads[IDLE].initPrio)];
    }

    // ----- rt_list_insert_before and rt_list_remove -----

    method ListInsertBefore(l: Node, n: Node)
      requires l in prev
      modifies this`next, this`prev
      ensures next == BeforeNext(old(next), old(prev), l, n) && prev == BeforePrev(old(prev), l, n)
    {
      next := next[prev[l] := n];
      prev := prev[n := prev[l]];
      prev := prev[l := n];
      next := next[n := l];
    }

    method ListRemove(n: Node)
      requires n in next && n in prev
      modifies this`next, this`prev
      ensures next == OutNext(old(next), old(prev), n) && prev == OutPrev(old(next), old(prev), n)
    {
      prev := prev[next[n] := prev[n]];
      next := next[prev[n] := next[n]];
      next, prev := next[n := n], prev[n := n];
    }

    // ----- the two list operations of the scheduler -----

    /** The thread, in no queue, is linked in before the head of its queue, and its mask put into the group. */
    method InsertThread(t: Tid, ghost s: Sched)
      requires Queues(s) && t < |s.threads| && s.threads[t].stat == Suspended && Linked(next, prev, s.queues, s.threads)
      requires threads == s.threads || threads == s.threads[t := s.threads[t].(stat := Ready)]
      requires Masks(threads, numberMask) && queues == s.queues && readyGroup == s.group && current == s.current
        && lockNest == s.lockNest
      modifies this`threads, this`next, this`prev, this`readyGroup, this`queues
      ensures State() == Readied(s, t) && Queues(State()) && Shown()
    {
      var p := threads[t].prio;
      InsertKeeps(s, t);
      InsertLinked(next, prev, s, t);
      OrIsSet(readyGroup, p);
      hide InStep, Linked, SetBit, Or, BeforeNext, BeforePrev;
      threads := threads[t := threads[t].(stat := Ready)];
      ListInsertBefore(Head(p), t);
      readyGroup := Or(readyGroup, numberMask[t]);
      queues := queues[p := queues[p] + [t]];
    }

    /** The thread is linked out, and its mask taken off the group if the head is linked to itself then. Its
        state is set by the caller, before or after. */
    method RemoveThread(t: Tid, ghost s: Sched, ghost stat: Stat)
      requires Queues(s) && Removable(s, t) && stat != Ready && Linked(next, prev, s.queues, s.threads)
      requires queues == s.queues && readyGroup == s.group
      requires |threads| == |s.threads| && threads[t].prio == s.threads[t].prio && t < |numberMask|
        && numberMask[t] == Pow2(threads[t].prio)
      modifies this`next, this`prev, this`readyGroup, this`queues
      ensures queues == Stopped(s, t, stat).queues && readyGroup == Stopped(s, t, stat).group
      ensures Linked(next, prev, queues, Stopped(s, t, stat).threads)
    {
      var p := threads[t].prio;
      RemoveLinked(next, prev, s, t, stat);
      AndNotIsClear(readyGroup, p);
      ghost var r := Stopped(s, t, stat);
      assert r.queues == queues[p := Remove(queues[p], t)];
      hide InStep, ClearBit, AndNot, OutNext, OutPrev, Remove, Ring;
      ListRemove(t);
      queues := queues[p := Remove(queues[p], t)];
      assert RingAt(next, prev, queues, p);
      HeadLinks(next, prev, p, queues[p]);
      HeadAlone(p, queues[p]);
      if next[Head(p)] == Head(p) {
        readyGroup := AndNot(readyGroup, numberMask[t]);
      }
    }

    /** rt_schedule: the first entry of the queue that the group shows to be the most urgent. */
    method Schedule()
      requires Valid()
      modifies this`current
      ensures State() == Scheduled(old(State())) && Valid()
      ensures lockNest == 0 ==> RunsMostUrgent(State())
    {
      ScheduledRuns(State());
      if lockNest == 0 {
        IdleReady(State());
        var highest := Ffs(readyGroup) - 1;
        assert RingAt(next, prev, queues, highest);
        HeadLinks(next, prev, highest, queues[highest]);
        hide InStep, Ffs, Ring;
        var to := next[Head(highest)];
        if to != current { current := to; }
      }
    }

    // ----- calls -----

    /** A thread that was never started becomes ready at its initial priority. */
    method Begin(t: Tid)
      requires Queues(State()) && Shown() && t < |threads| && threads[t].stat == Init
      modifies this`threads, this`numberMask, this`next, this`prev, this`readyGroup, this`queues
      ensures State() == Started(old(State()), t) && Queues(State()) && Shown()
    {
      ghost var s := State();
      var p := threads[t].initPrio;
      ghost var u := Tcb(Suspended, p, p);
      RetunedKeeps(s, t, u);
      RetunedLinked(next, prev, s, t, u);
      hide InStep, Linked, SetBit;
      threads := threads[t := threads[t].(prio := p)];
      numberMask := numberMask[t := Pow2(p)];
      threads := threads[t := threads[t].(stat := Suspended)];
      assert threads == s.threads[t := u];
      InsertThread(t, State());
    }

    method Startup(t: Tid)
      requires Valid() && Legal(State(), Schedulers.Startup(t))
      modifies this
      ensures Valid() && State() == Step(old(State()), Schedulers.Startup(t))
      ensures lockNest == 0 ==> RunsMostUrgent(State())
    {
      StartedKeeps(State(), t);
      hide InStep, Linked, Masks, Readied;
      Begin(t);
      Schedule();
    }

    method Suspend(t: Tid) returns (ok: bool)
      requires Valid() && Legal(State(), Schedulers.Suspend(t))
      modifies this
      ensures Valid() && State() == Step(old(State()), Schedulers.Suspend(t)) && ok == (old(threads[t].stat) == Ready)
    {
      ok := threads[t].stat == Ready;
      if ok {
        ghost var s := State();
        StoppedKeeps(s, t, Suspended);
        hide InStep, Linked, ClearBit;
        threads := threads[t := threads[t].(stat := Suspended)];
        RemoveThread(t, s, Suspended);
      }
    }

    method Resume(t: Tid) returns (ok: bool)
      requires Valid() && Legal(State(), Schedulers.Resume(t))
      modifies this
      ensures Valid() && State() == Step(old(State()), Schedulers.Resume(t))
        && ok == (old(threads[t].stat) == Suspended)
    {
      ok := threads[t].stat == Suspended;
      if ok {
        Unlist(t);
        hide InStep, Linked, Masks, SetBit;
        InsertThread(t, State());
      }
    }

    /** A thread in no list is linked out all the same, which changes nothing. */
    method Unlist(t: Tid)
      requires Shown() && t < |threads| && threads[t].stat == Suspended
      modifies this`next, this`prev
      ensures next == old(next) && prev == old(prev)
    {
      assert Loose(next, prev, threads, t);
      LooseOut(next, prev, t);
      ListRemove(t);
    }

    method Timeout(t: Tid)
      requires Valid() && Legal(State(), Schedulers.Timeout(t))
      modifies this
      ensures Valid() && State() == Step(old(State()), Schedulers.Timeout(t))
      ensures lockNest == 0 ==> RunsMostUrgent(State())
    {
      InsertKeeps(State(), t);
      Unlist(t);
      hide InStep, Linked, Masks, SetBit;
      InsertThread(t, State());
      Schedule();
    }

    /** The running thread is ready and its neighbours in the list differ: there are others in its queue. */
    method Yield()
      requires Valid()
      modifies this
      ensures Valid() && State() == Step(old(State()), Schedulers.Yield)
    {
      ghost var s := State();
      var t := current;
      var p := threads[t].prio;
      if threads[t].stat == Ready {
        InRing(next, prev, s, t);
        if next[t] != prev[t] {
          RotatedKeeps(s);
          RotateLinked(next, prev, s, t);
          hide InStep, Linked, Remove, OutNext, OutPrev, BeforeNext, BeforePrev;
          ListRemove(t);
          ListInsertBefore(Head(p), t);
          queues := queues[p := Remove(queues[p], t) + [t]];
          assert State() == Rotated(s);
          Schedule();
        }
      }
    }

    method SetPriority(t: Tid, p: nat)
      requires Valid() && Legal(State(), Schedulers.SetPriority(t, p))
      modifies this
      ensures Valid() && State() == Step(old(State()), Schedulers.SetPriority(t, p))
    {
      ghost var s := State();
      MovedKeeps(s, t, p);
      if threads[t].stat == Ready {
        Move(t, p);
      } else {
        RetunedLinked(next, prev, s, t, s.threads[t].(prio := p));
        hide InStep, Linked;
        threads := threads[t := threads[t].(prio := p)];
        numberMask := numberMask[t := Pow2(p)];
      }
    }

    /** A ready thread changes queues. */
    method Move(t: Tid, p: nat)
      requires Queues(State()) && Shown() && t < |threads| && threads[t].stat == Ready && p < PRIORITY_MAX
      modifies this`threads, this`numberMask, this`next, this`prev, this`readyGroup, this`queues
      ensures State() == Moved(old(State()), t, p) && Shown()
    {
      ghost var s := State();
      ghost var s1 := Stopped(s, t, Suspended);
      StoppedKeeps(s, t, Suspended);
      MovedIs(s, t, p);
      RetunedKeeps(s1, t, s1.threads[t].(prio := p));
      hide InStep, Linked, ClearBit, SetBit, Remove;
      RemoveThread(t, s, Suspended);
      RetunedLinked(next, prev, s1, t, s1.threads[t].(prio := p));
      threads := threads[t := threads[t].(prio := p)];
      numberMask := numberMask[t := Pow2(p)];
      InsertThread(t, s1.(threads := s1.threads[t := s1.threads[t].(prio := p)]));
    }

    method Exit()
      requires Valid() && Legal(State(), Schedulers.Exit)
      modifies this
      ensures Valid() && State() == Step(old(State()), Schedulers.Exit)
      ensures State().threads[old(current)].stat == Closed && (lockNest == 0 ==> RunsMostUrgent(State()))
    {
      StoppedKeeps(State(), current, Closed);
      hide InStep, Linked, Masks, ClearBit, Remove;
      Close(current);
      Schedule();
    }

    method Detach(t: Tid)
      requires Valid() && Legal(State(), Schedulers.Detach(t))
      modifies this
      ensures Valid() && State() == Step(old(State()), Schedulers.Detach(t))
    {
      StoppedKeeps(State(), t, Closed);
      hide InStep, Linked, Masks, ClearBit, Remove;
      Close(t);
    }

    /** The thread is taken off whatever list it is in, then closed. */
    method Close(t: Tid)
      requires Queues(State()) && Shown() && Removable(State(), t)
      modifies this`threads, this`next, this`prev, this`readyGroup, this`queues
      ensures State() == Stopped(old(State()), t, Closed) && Shown()
    {
      ghost var s := State();
      hide InStep, Linked, ClearBit, Remove;
      RemoveThread(t, s, Closed);
      threads := threads[t := threads[t].(stat := Closed)];
    }

    method EnterCritical()
      requires Valid()
      modifies this`lockNest
      ensures Valid() && State() == Step(old(State()), Lock)
    {
      lockNest := lockNest + 1;
    }

    method ExitCritical()
      requires Valid() && lockNest > 0
      modifies this
      ensures Valid() && State() == Step(old(State()), Unlock) && (lockNest == 0 ==> RunsMostUrgent(State()))
    {
      hide InStep, Linked, Masks;
      lockNest := lockNest - 1;
      if lockNest == 0 { Schedule(); }
    }
  }

  lemma HeadAlone(p: nat, q: seq<Tid>)
    ensures q != [] ==> q[0] != Head(p)
  {
  }

  /** A ready thread has two links on the ring of its queue. */
  lemma InRing(next: Links, prev: Links, s: Sched, t: Tid)
    requires Queues(s) && t < |s.threads| && s.threads[t].stat == Ready && Linked(next, prev, s.queues, s.threads)
    ensures t in next && t in prev && (next[t] != prev[t] <==> |s.queues[s.threads[t].prio]| > 1)
  {
    var p := s.threads[t].prio;
    assert Placed(s.queues, s.threads, p, t) && RingAt(next, prev, s.queues, p);
    AloneIff(next, prev, p, s.queues[p], t);
  }

  lemma {:induction false} NoBitSet(k: nat)
    ensures !Bit(0, k)
  {
    if k > 0 { NoBitSet(k - 1); }
  }

  lemma NothingReady(s: Sched)
    requires s.queues == seq(PRIORITY_MAX, _ => []) && s.group == 0
    requires forall t :: 0 <= t < |s.threads| ==>
      s.threads[t].stat != Ready && s.threads[t].prio < PRIORITY_MAX && s.threads[t].initPrio < PRIORITY_MAX
    ensures Queues(s)
  {
    forall p | 0 <= p < PRIORITY_MAX
      ensures QueueOk(s.queues, s.group, |s.threads|, p)
    {
      NoBitSet(p);
    }
  }
}
