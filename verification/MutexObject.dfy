/** The mutex object and the priorities of the threads as ipc.c updates them. */
module MutexObject {
  import opened Lists
  import opened Mutexes

  class MutexObject {
    const byPrio: bool
    var value: nat
    var owner: Owner
    var originalPriority: nat
    var hold: nat
    var suspended: seq<Tid>
    var currentPriority: seq<nat>

    constructor (byPrio: bool, priorities: seq<nat>)
      ensures State() == Mutex(byPrio, 1, Nobody, NO_PRIORITY, 0, [], priorities) && Sound(State())
        && NoInversion(State())
    {
      this.byPrio := byPrio;
      value, owner, originalPriority, hold := 1, Nobody, NO_PRIORITY, 0;
      suspended, currentPriority := [], priorities;
    }

    function State(): Mutex
      reads this
    {
      Mutex(byPrio, value, owner, originalPriority, hold, suspended, currentPriority)
    }

    /** rt_ipc_list_suspend: behind everyone, or before the first thread that is less urgent. */
    method Suspend(t: Tid)
      requires t < |currentPriority| && InTable(suspended, |currentPriority|)
      modifies this`suspended
      ensures suspended == Insert(old(suspended), Place(byPrio, old(suspended), currentPriority, t), t)
    {
      if !byPrio {
        suspended := suspended + [t];
        assert suspended == Insert(old(suspended), |old(suspended)|, t);
      } else {
        var n := 0;
        while n < |suspended|
          invariant n <= PrioPlace(suspended, currentPriority, currentPriority[t])
        {
          assert suspended[n] in suspended;
          if currentPriority[t] < currentPriority[suspended[n]] { break; }
          n := n + 1;
        }
        suspended := suspended[..n] + [t] + suspended[n..];
      }
    }

    /** The section of rt_mutex_take: taken, or the thread has to wait or give up. */
    method Take(t: Tid, wait: bool) returns (taken: bool)
      requires Sound(State()) && Legal(State(), Mutexes.Take(t, wait))
      modifies this
      ensures State() == Step(old(State()), Mutexes.Take(t, wait)) && Sound(State())
      ensures taken == (old(owner) == Nobody || old(owner) == Thread(t))
      ensures taken ==> owner == Thread(t) && hold == old(hold) + 1
    {
      ghost var s := State();
      StepSound(s, Mutexes.Take(t, wait));
      taken := true;
      if owner == Thread(t) {
        hold := hold + 1;
      } else if value > 0 {
        value := value - 1;
        owner := Thread(t);
        originalPriority := currentPriority[t];
        hold := hold + 1;
      } else {
        taken := false;
        if wait {
          if currentPriority[t] < currentPriority[owner.t] {
            currentPriority := currentPriority[owner.t := currentPriority[t]];
          }
          Suspend(t);
        }
      }
    }

    method Release(t: Tid) returns (ok: bool)
      requires Sound(State()) && Legal(State(), Mutexes.Release(t))
      modifies this
      ensures State() == Step(old(State()), Mutexes.Release(t)) && Sound(State())
      ensures ok == (old(owner) == Thread(t))
    {
      ghost var s := State();
      StepSound(s, Mutexes.Release(t));
      ok := owner == Thread(t);
      if ok {
        hold := hold - 1;
        if hold == 0 {
          if originalPriority != currentPriority[t] { currentPriority := currentPriority[t := originalPriority]; }
          assert currentPriority == s.prio[t := s.original];
          if suspended != [] {
            var next := suspended[0];
            assert next in suspended;
            owner := Thread(next);
            originalPriority := currentPriority[next];
            hold := hold + 1;
            suspended := suspended[1..];
          } else {
            value := value + 1;
            owner := Nobody;
            originalPriority := NO_PRIORITY;
          }
        }
      }
    }

    /** The timer of a waiter takes it off the list; the owner keeps its priority. */
    method Expire(t: Tid)
      requires Sound(State()) && Legal(State(), Mutexes.Expire(t))
      modifies this`suspended
      ensures State() == Step(old(State()), Mutexes.Expire(t)) && Sound(State())
    {
      StepSound(State(), Mutexes.Expire(t));
      suspended := Remove(suspended, t);
    }
  }
}
