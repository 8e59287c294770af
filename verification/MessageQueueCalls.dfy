/** What each section of a message queue call does to the slots, the buffers and the receivers, and how long a
    suspended receiver waits for its turn. */
module MessageQueueCalls {
  import opened Lists
  import opened MessageQueues

  predicate WaitersSame(s: Mq, r: Mq) { r.waiters == s.waiters && r.woken == s.woken }

  /** Thread t has something in flight, or has nothing in flight any more; what others have is as it was. */
  ghost predicate Holds(s: Mq, r: Mq, t: Tid, h: Hold) { t in r.held && r.held[t] == h && OthersHold(s, r, t) }

  ghost predicate LetsGo(s: Mq, r: Mq, t: Tid) { t !in r.held && OthersHold(s, r, t) }

  ghost predicate OthersHold(s: Mq, r: Mq, t: Tid) {
    forall u :: u != t ==> (u in r.held <==> u in s.held) && (u in s.held ==> r.held[u] == s.held[u])
  }

  /** The first slot of a list has been taken off it. */
  predicate TakenOff(was: seq<Slot>, list: seq<Slot>, k: Slot) { was == [k] + list }

  /** The three sections of a send.  The first takes the first free slot, or finds none and changes nothing. */
  lemma SendTakeDoes(s: Mq, t: Tid, msg: Msg, urgent: bool)
    requires Inv(s) && Legal(s, SendTake(t, msg, urgent))
    ensures var r := Step(s, SendTake(t, msg, urgent));
      && r.data == s.data && r.queued == s.queued && WaitersSame(s, r)
      && if s.free == [] then r == s
         else TakenOff(s.free, r.free, s.free[0]) && Holds(s, r, t, Filling(s.free[0], msg, urgent, false))
  {
  }

  /** The copying fills the slot's buffer, and no other. */
  lemma SendCopyDoes(s: Mq, t: Tid)
    requires Inv(s) && Legal(s, SendCopy(t))
    ensures var r, h := Step(s, SendCopy(t)), s.held[t];
      && r.free == s.free && r.queued == s.queued && WaitersSame(s, r)
      && |r.data| == |s.data| && r.data[h.slot] == h.msg
      && (forall k :: 0 <= k < |s.data| && k != h.slot ==> r.data[k] == s.data[k])
      && Holds(s, r, t, Filling(h.slot, h.msg, h.urgent, true))
  {
  }

  /** The last section puts the slot at the back of the queue, or at its front for an urgent message, and resumes the
      first receiver. */
  lemma SendLinkDoes(s: Mq, t: Tid)
    requires Inv(s) && Legal(s, SendLink(t))
    ensures var r, h := Step(s, SendLink(t)), s.held[t];
      && r.data == s.data && r.free == s.free && LetsGo(s, r, t)
      && (if h.urgent then TakenOff(r.queued, s.queued, h.slot) else r.queued == s.queued + [h.slot])
      && FirstWoken(s.waiters, s.woken, r.waiters, r.woken)
  {
  }

  /** A receive takes the first slot of the queue into flight; with none, the receiver is suspended at its place if it
      is ready to wait. */
  lemma RecvDoes(s: Mq, t: Tid, wait: bool, at: nat)
    requires Inv(s) && Legal(s, Recv(t, wait, at))
    ensures var r := Step(s, Recv(t, wait, at));
      && r.data == s.data && r.free == s.free && r.woken == s.woken - {t}
      && if s.queued != [] then
           var k := s.queued[0];
           && k < |s.data| && TakenOff(s.queued, r.queued, k) && Holds(s, r, t, Emptying(k, s.data[k]))
           && r.waiters == s.waiters
         else
           && r.queued == [] && r.held == s.held
           && if wait then JoinedAt(s.waiters, r.waiters, at, t) else r.waiters == s.waiters
  {
    InsertJoins(s.waiters, at, t);
    if s.queued != [] { SlotInRange(s, s.queued[0]); }
    hide JoinedAt;
  }

  /** When the message is copied out the slot is the first free one. */
  lemma RecvDoneDoes(s: Mq, t: Tid)
    requires Inv(s) && Legal(s, RecvDone(t))
    ensures var r := Step(s, RecvDone(t));
      && r.data == s.data && r.queued == s.queued && WaitersSame(s, r)
      && TakenOff(r.free, s.free, s.held[t].slot) && LetsGo(s, r, t)
  {
  }

  lemma ExpireDoes(s: Mq, t: Tid)
    requires Inv(s) && Legal(s, Expire(t))
    ensures var r := Step(s, Expire(t)); LeftBy(s.waiters, r.waiters, t) && r == s.(waiters := r.waiters)
  {
    RemoveLeaves(s.waiters, t);
  }

  /** A reset resumes every receiver with an error and frees the queued slots, each in front of the last; what is in
      flight stays so. */
  lemma ResetDoes(s: Mq)
    requires Inv(s)
    ensures var r := Step(s, Reset);
      && r.data == s.data && r.held == s.held && r.waiters == [] && r.woken == s.woken && r.queued == []
      && |r.free| == |s.queued| + |s.free| && r.free[|s.queued|..] == s.free
      && forall i :: 0 <= i < |s.queued| ==> r.free[i] == s.queued[|s.queued| - 1 - i]
  {
    ReverseAt(s.queued);
  }

  lemma {:induction false} ReverseAt<T>(s: seq<T>)
    ensures |Reverse(s)| == |s| && forall i :: 0 <= i < |s| ==> Reverse(s)[i] == s[|s| - 1 - i]
  {
    if s != [] { ReverseAt(s[1..]); }
  }

  // ----- waiting for one's turn -----

  /** Threads are suspended in the order they come: RT_IPC_FLAG_FIFO. */
  predicate InOrderOfComing(s: Mq, e: Event) { (e.Recv? ==> e.at == |s.waiters|) && !e.Reset? }

  /** A receiver that waits for a message throughout a run. */
  predicate WaitsThrough(s: Mq, es: seq<Event>, t: Tid)
    requires LegalRun(s, es)
    decreases |es|
  {
    t in s.waiters && (es == [] || (InOrderOfComing(s, es[0]) && WaitsThrough(Step(s, es[0]), es[1..], t)))
  }

  /** An event that shortens the line before t: a message is linked, urgent or not, or a receiver ahead of t times
      out. */
  predicate Advances(s: Mq, e: Event, t: Tid)
    requires t in s.waiters
  {
    e.SendLink? || (e.Expire? && e.t in s.waiters && IndexOf(s.waiters, e.t) < IndexOf(s.waiters, t))
  }

  function Advanced(s: Mq, es: seq<Event>, t: Tid): nat
    requires LegalRun(s, es) && WaitsThrough(s, es, t)
    decreases |es|
  {
    if es == [] then 0
    else (if Advances(s, es[0], t) then 1 else 0) + Advanced(Step(s, es[0]), es[1..], t)
  }

  /** One event, for a waiting receiver that does not time out itself: with nobody ahead a message resumes it; otherwise
      it moves up by one or stays where it is. */
  lemma TurnStep(s: Mq, e: Event, t: Tid)
    requires Inv(s) && Legal(s, e) && t in s.waiters && InOrderOfComing(s, e) && e != Expire(t)
    ensures var r, k := Step(s, e), IndexOf(s.waiters, t);
      if Advances(s, e, t) then
        if k == 0 then t !in r.waiters && t in r.woken else t in r.waiters && IndexOf(r.waiters, t) == k - 1
      else t in r.waiters && IndexOf(r.waiters, t) == k
  {
    hide Conserved, Buffers;
    if e.SendLink? {
      IndexAfterFirst(s.waiters, t);
    } else if e.Recv? && s.queued == [] {
      IndexAfterJoin(s.waiters, t, e.t);
      assert s.waiters[..e.at] + [e.t] + s.waiters[e.at..] == s.waiters + [e.t];
    } else if e.Expire? {
      IndexAfterRemove(s.waiters, t, e.t);
    }
  }

  lemma StillWaiting(s: Mq, e: Event, t: Tid)
    requires Inv(s) && Legal(s, e)
    ensures t in Step(s, e).waiters ==> e != Expire(t)
  {
    if e == Expire(t) {
      RemoveElems(s.waiters, t);
      assert t !in Elems(Step(s, e).waiters);
    }
  }

  /** Under RT_IPC_FLAG_FIFO a waiting receiver moves up once for every message linked and every timeout ahead of it,
      and so waits for no more messages than it had receivers ahead. */
  lemma {:induction false} WaitsItsTurn(s: Mq, es: seq<Event>, t: Tid)
    requires Inv(s) && LegalRun(s, es) && WaitsThrough(s, es, t)
    ensures t in After(s, es).waiters
    ensures IndexOf(After(s, es).waiters, t) + Advanced(s, es, t) == IndexOf(s.waiters, t)
    decreases |es|
  {
    if es != [] {
      var e, s1 := es[0], Step(s, es[0]);
      StepKeeps(s, e);
      StillWaiting(s, e, t);
      TurnStep(s, e, t);
      hide Inv, Legal, Step, InOrderOfComing, Advances;
      WaitsItsTurn(s1, es[1..], t);
    }
  }
}
