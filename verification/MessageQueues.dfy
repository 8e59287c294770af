/** A message queue shared by threads, one interrupt-disabled section at a time.

    Sending is two sections with the copying of the message between them, and so is receiving: the slot is
    in flight meanwhile, on no list.  A run interleaves the sections of any number of threads. */
module MessageQueues {
  import opened Lists

  type Tid = nat
  type Slot = nat
  type Msg = int

  /** A slot in flight: being filled by a sender, or being emptied by a receiver. */
  datatype Hold = Filling(slot: Slot, msg: Msg, urgent: bool, copied: bool) | Emptying(slot: Slot, msg: Msg)

  /** free and queued are the two lists from their heads, data the message buffers of the slots, held what
      each thread has in flight, waiters the suspended receivers, woken those resumed by a send that have
      not run yet. */
  datatype Mq = Mq(data: seq<Msg>, free: seq<Slot>, queued: seq<Slot>, held: map<Tid, Hold>, waiters: seq<Tid>,
      woken: set<Tid>)

  datatype Event =
    | SendTake(t: Tid, msg: Msg, urgent: bool)   // first section of rt_mq_send and rt_mq_urgent
    | SendCopy(t: Tid)                           // the copying in between
    | SendLink(t: Tid)                           // second section
    | Recv(t: Tid, wait: bool, at: nat)          // first section of rt_mq_recv, or its loop after a wake-up
    | RecvDone(t: Tid)                           // the copying out and the last section
    | Expire(t: Tid)                             // the timer of a suspended receiver
    | Reset                                      // RT_IPC_CMD_RESET

  // ----- steps -----

  predicate Idle(s: Mq, t: Tid) { t !in s.held && t !in s.waiters && t !in s.woken }

  /** What a thread does next in its call. */
  predicate Legal(s: Mq, e: Event) {
    match e
    case SendTake(t, _, _) => Idle(s, t)
    case SendCopy(t) => t in s.held && s.held[t].Filling? && !s.held[t].copied && s.held[t].slot < |s.data|
    case SendLink(t) => t in s.held && s.held[t].Filling? && s.held[t].copied
    case Recv(t, _, at) => t !in s.held && t !in s.waiters && at <= |s.waiters|
    case RecvDone(t) => t in s.held && s.held[t].Emptying? && s.held[t].slot < |s.data|
    case Expire(t) => t in s.waiters
    case Reset => true
  }

  /** Resume the first suspended receiver, if there is one. */
  function Woke(s: Mq): Mq {
    if s.waiters == [] then s else s.(waiters := s.waiters[1..], woken := s.woken + {s.waiters[0]})
  }

  function Linked(s: Mq, h: Hold): seq<Slot>
    requires h.Filling?
  {
    if h.urgent then [h.slot] + s.queued else s.queued + [h.slot]
  }

  function Step(s: Mq, e: Event): Mq
    requires Legal(s, e)
  {
    match e
    case SendTake(t, msg, urgent) =>
      if s.free == [] then s
      else s.(free := s.free[1..], held := s.held[t := Filling(s.free[0], msg, urgent, false)])
    case SendCopy(t) =>
      var h := s.held[t];
      s.(data := s.data[h.slot := h.msg], held := s.held[t := h.(copied := true)])
    case SendLink(t) => Woke(s.(queued := Linked(s, s.held[t]), held := s.held - {t}))
    case Recv(t, wait, at) =>
      var s1 := s.(woken := s.woken - {t});
      if s.queued != [] then
        s1.(queued := s.queued[1..], held := s.held[t := Emptying(s.queued[0], Buffer(s, s.queued[0]))])
      else if wait then s1.(waiters := s.waiters[..at] + [t] + s.waiters[at..])
      else s1
    case RecvDone(t) => s.(free := [s.held[t].slot] + s.free, held := s.held - {t})
    case Expire(t) => s.(waiters := Remove(s.waiters, t))
    case Reset => s.(waiters := [], queued := [], free := Reverse(s.queued) + s.free)
  }

  function Buffer(s: Mq, k: Slot): Msg { if k < |s.data| then s.data[k] else 0 }

  /** The messages in the queue, in the order in which they will be received. */
  function Deque(s: Mq): seq<Msg> { seq(|s.queued|, i requires 0 <= i < |s.queued| => Buffer(s, s.queued[i])) }

  /** The message a receiver gets when its call returns. */
  function Delivered(s: Mq, t: Tid): Msg
    requires Legal(s, RecvDone(t))
  {
    s.data[s.held[t].slot]
  }

  // ----- the invariant -----

  function HeldSlots(held: map<Tid, Hold>): set<Slot> { set t | t in held :: held[t].slot }

  /** No two threads have the same slot in flight. */
  predicate OneEach(held: map<Tid, Hold>) {
    forall t, u :: t in held && u in held && t != u ==> held[t].slot != held[u].slot
  }

  function AllSlots(n: nat): (ks: set<Slot>)
    ensures forall k: nat :: k in ks <==> k < n
  {
    if n == 0 then {} else AllSlots(n - 1) + {n - 1}
  }

  /** Every slot is free, queued or in flight, and only one of these. */
  predicate Conserved(free: seq<Slot>, queued: seq<Slot>, held: map<Tid, Hold>, n: nat) {
    && Distinct(free) && Distinct(queued) && OneEach(held)
    && Elems(free) !! Elems(queued) && (Elems(free) + Elems(queued)) !! HeldSlots(held)
    && Elems(free) + Elems(queued) + HeldSlots(held) == AllSlots(n)
  }

  /** The buffer in flight has the message of the thread that has it. */
  predicate Filled(data: seq<Msg>, h: Hold) {
    h.slot < |data| && ((h.Filling? && !h.copied) || data[h.slot] == h.msg)
  }

  predicate Buffers(data: seq<Msg>, held: map<Tid, Hold>) { forall t :: t in held ==> Filled(data, held[t]) }

  /** Nobody waits twice, and no wake-up is lost: a receiver is left waiting only if every message in the
      queue has a receiver on its way to it. */
  predicate Waiting(s: Mq) {
    && Distinct(s.waiters) && Elems(s.waiters) !! s.woken
    && (s.waiters != [] ==> |s.queued| <= |s.woken|)
  }

  predicate Inv(s: Mq) {
    Conserved(s.free, s.queued, s.held, |s.data|) && Buffers(s.data, s.held) && Waiting(s)
  }

  // ----- what is in flight -----

  lemma HeldMore(held: map<Tid, Hold>, t: Tid, h: Hold)
    requires t !in held && OneEach(held) && h.slot !in HeldSlots(held)
    ensures OneEach(held[t := h]) && HeldSlots(held[t := h]) == HeldSlots(held) + {h.slot}
  {
    var more := held[t := h];
    assert forall u :: u in held ==> held[u].slot in HeldSlots(held);
    assert HeldSlots(more) == HeldSlots(held) + {h.slot} by {
      assert forall u :: u in held ==> more[u].slot == held[u].slot;
      assert forall k :: k in HeldSlots(held) ==> exists u :: u in held && held[u].slot == k && u in more;
      assert t in more && more[t].slot == h.slot;
    }
  }

  lemma HeldLess(held: map<Tid, Hold>, t: Tid)
    requires t in held && OneEach(held)
    ensures OneEach(held - {t}) && HeldSlots(held - {t}) == HeldSlots(held) - {held[t].slot}
      && held[t].slot in HeldSlots(held)
  {
    var less := held - {t};
    assert forall u :: u in less ==> u in held && u != t && less[u] == held[u];
    assert forall u :: u in held && u != t ==> u in less && less[u].slot == held[u].slot;
    assert forall k :: k in HeldSlots(held) && k != held[t].slot ==> k in HeldSlots(less);
  }

  lemma HeldSame(held: map<Tid, Hold>, t: Tid, h: Hold)
    requires t in held && OneEach(held) && h.slot == held[t].slot
    ensures OneEach(held[t := h]) && HeldSlots(held[t := h]) == HeldSlots(held)
  {
    var more := held[t := h];
    assert forall u :: u in held <==> u in more;
    assert forall u :: u in held ==> more[u].slot == held[u].slot;
    assert forall k :: k in HeldSlots(held) ==> k in HeldSlots(more);
  }

  // ----- every step keeps the slots -----

  lemma TakeConserves(free: seq<Slot>, queued: seq<Slot>, held: map<Tid, Hold>, n: nat, t: Tid, h: Hold)
    requires Conserved(free, queued, held, n) && free != [] && t !in held && h.slot == free[0]
    ensures Conserved(free[1..], queued, held[t := h], n)
  {
    TailElems(free);
    assert free[0] in Elems(free);
    HeldMore(held, t, h);
  }

  lemma LinkConserves(free: seq<Slot>, queued: seq<Slot>, held: map<Tid, Hold>, n: nat, t: Tid, urgent: bool)
    requires Conserved(free, queued, held, n) && t in held
    ensures var k := held[t].slot; Conserved(free, if urgent then [k] + queued else queued + [k], held - {t}, n)
  {
    HeldLess(held, t);
    if urgent { FrontElems(held[t].slot, queued); } else { BackElems(queued, held[t].slot); }
  }

  lemma UnlinkConserves(free: seq<Slot>, queued: seq<Slot>, held: map<Tid, Hold>, n: nat, t: Tid, h: Hold)
    requires Conserved(free, queued, held, n) && queued != [] && t !in held && h.slot == queued[0]
    ensures Conserved(free, queued[1..], held[t := h], n)
  {
    TailElems(queued);
    assert queued[0] in Elems(queued);
    HeldMore(held, t, h);
  }

  lemma PutConserves(free: seq<Slot>, queued: seq<Slot>, held: map<Tid, Hold>, n: nat, t: Tid)
    requires Conserved(free, queued, held, n) && t in held
    ensures Conserved([held[t].slot] + free, queued, held - {t}, n)
  {
    HeldLess(held, t);
    FrontElems(held[t].slot, free);
  }

  lemma ResetConserves(free: seq<Slot>, queued: seq<Slot>, held: map<Tid, Hold>, n: nat)
    requires Conserved(free, queued, held, n)
    ensures Conserved(Reverse(queued) + free, [], held, n)
  {
    ReverseElems(queued);
    JoinElems(Reverse(queued), free);
  }

  // ----- every step keeps the buffers -----

  lemma CopyBuffers(data: seq<Msg>, held: map<Tid, Hold>, t: Tid)
    requires Buffers(data, held) && OneEach(held) && t in held && held[t].Filling?
    ensures Buffers(data[held[t].slot := held[t].msg], held[t := held[t].(copied := true)])
  {
    var h := held[t];
    var more, written := held[t := h.(copied := true)], data[h.slot := h.msg];
    forall u | u in more
      ensures Filled(written, more[u])
    {
      assert Filled(data, held[u]);
    }
  }

  /** Every slot in a list is a slot. */
  lemma SlotInRange(s: Mq, k: Slot)
    requires Inv(s) && (k in s.free || k in s.queued)
    ensures k < |s.data|
  {
    assert k in Elems(s.free) || k in Elems(s.queued);
    assert k in AllSlots(|s.data|);
  }

  // ----- every step keeps the waiting list -----

  lemma WokeWaiting(s: Mq)
    requires Distinct(s.waiters) && Elems(s.waiters) !! s.woken
    requires s.waiters != [] ==> |s.queued| <= |s.woken| + 1
    ensures Waiting(Woke(s))
  {
    if s.waiters != [] {
      TailElems(s.waiters);
      assert s.waiters[0] in Elems(s.waiters);
    }
  }

  lemma SuspendWaiting(s: Mq, t: Tid, at: nat)
    requires Waiting(s) && t !in s.waiters && t !in s.woken && at <= |s.waiters| && s.queued == []
    ensures Waiting(s.(waiters := s.waiters[..at] + [t] + s.waiters[at..]))
  {
    InsertElems(s.waiters, at, t);
  }

  /** A woken receiver that runs takes a message away with it, or finds none. */
  lemma RunWaiting(s: Mq, t: Tid)
    requires Waiting(s)
    ensures s.queued != [] ==> Waiting(s.(woken := s.woken - {t}, queued := s.queued[1..]))
    ensures s.queued == [] ==> Waiting(s.(woken := s.woken - {t}))
  {
  }

  lemma StepKeeps(s: Mq, e: Event)
    requires Inv(s) && Legal(s, e)
    ensures Inv(Step(s, e))
  {
    match e
    case SendTake(t, msg, urgent) =>
      if s.free != [] {
        TakeConserves(s.free, s.queued, s.held, |s.data|, t, Filling(s.free[0], msg, urgent, false));
        SlotInRange(s, s.free[0]);
      }
    case SendCopy(t) =>
      HeldSame(s.held, t, s.held[t].(copied := true));
      CopyBuffers(s.data, s.held, t);
    case SendLink(t) =>
      LinkConserves(s.free, s.queued, s.held, |s.data|, t, s.held[t].urgent);
      WokeWaiting(s.(queued := Linked(s, s.held[t]), held := s.held - {t}));
    case Recv(t, wait, at) =>
      RunWaiting(s, t);
      if s.queued != [] {
        UnlinkConserves(s.free, s.queued, s.held, |s.data|, t, Emptying(s.queued[0], Buffer(s, s.queued[0])));
        SlotInRange(s, s.queued[0]);
      } else if wait {
        SuspendWaiting(s.(woken := s.woken - {t}), t, at);
      }
    case RecvDone(t) =>
      PutConserves(s.free, s.queued, s.held, |s.data|, t);
    case Expire(t) =>
      RemoveElems(s.waiters, t);
    case Reset =>
      ResetConserves(s.free, s.queued, s.held, |s.data|);
  }

  // ----- runs -----

  predicate LegalRun(s: Mq, es: seq<Event>)
    decreases |es|
  {
    es == [] || (Legal(s, es[0]) && LegalRun(Step(s, es[0]), es[1..]))
  }

  /** Under every interleaving no slot is lost or used twice, no buffer in flight is disturbed and no
      wake-up is lost. */
  function After(s: Mq, es: seq<Event>): (r: Mq)
    requires Inv(s) && LegalRun(s, es)
    ensures Inv(r) && |r.data| == |s.data|
    decreases |es|
  {
    if es == [] then s else StepKeeps(s, es[0]); After(Step(s, es[0]), es[1..])
  }

  // ----- the deque -----

  /** Delivery is that of a deque: a message goes to its back, or to its front if it is urgent, at the step
      that links it, and comes off its front at the step that unlinks it. */
  lemma StepIsDeque(s: Mq, e: Event)
    requires Inv(s) && Legal(s, e)
    ensures Deque(Step(s, e)) ==
      match e
      case SendLink(t) => if s.held[t].urgent then [s.held[t].msg] + Deque(s) else Deque(s) + [s.held[t].msg]
      case Recv(t, _, _) => if Deque(s) == [] then [] else Deque(s)[1..]
      case Reset => []
      case _ => Deque(s)
  {
    match e
    case SendTake(t, _, _) =>
    case SendCopy(t) => CopyLeavesQueue(s, t);
    case SendLink(t) => assert Filled(s.data, s.held[t]);
    case Recv(t, _, _) =>
    case RecvDone(t) =>
    case Expire(t) =>
    case Reset =>
  }

  lemma CopyLeavesQueue(s: Mq, t: Tid)
    requires Inv(s) && Legal(s, SendCopy(t))
    ensures Deque(Step(s, SendCopy(t))) == Deque(s)
  {
    var k := s.held[t].slot;
    assert k in HeldSlots(s.held);
    assert forall i :: 0 <= i < |s.queued| ==> s.queued[i] in Elems(s.queued) && s.queued[i] != k;
  }

  /** A receiver takes the message at the front of the deque. */
  lemma RecvTakesFront(s: Mq, t: Tid, wait: bool, at: nat)
    requires Inv(s) && Legal(s, Recv(t, wait, at)) && Deque(s) != []
    ensures var r := Step(s, Recv(t, wait, at)); t in r.held && r.held[t].Emptying? && r.held[t].msg == Deque(s)[0]
  {
  }

  // ----- the deque over runs -----

  /** The messages in the queue: first the urgent ones, the last linked foremost, then the ordinary ones. */
  datatype Lanes = Lanes(urgent: seq<Msg>, ordinary: seq<Msg>)

  predicate Split(s: Mq, l: Lanes) { l.urgent + l.ordinary == Deque(s) }

  /** A stack of urgent messages before a queue of ordinary ones. */
  function LanesAfter(s: Mq, l: Lanes, e: Event): Lanes
    requires Legal(s, e)
  {
    match e
    case SendLink(t) =>
      var m := s.held[t].msg;
      if s.held[t].urgent then l.(urgent := [m] + l.urgent) else l.(ordinary := l.ordinary + [m])
    case Recv(_, _, _) =>
      if l.urgent != [] then l.(urgent := l.urgent[1..])
      else if l.ordinary != [] then l.(ordinary := l.ordinary[1..])
      else l
    case Reset => Lanes([], [])
    case _ => l
  }

  /** The ordinary message an event puts into the queue. */
  function SentBy(s: Mq, e: Event): seq<Msg>
    requires Legal(s, e)
  {
    if e.SendLink? && !s.held[e.t].urgent then [s.held[e.t].msg] else []
  }

  /** The ordinary message the thread of an event has in flight as it leaves the queue. */
  function ReceivedBy(s: Mq, l: Lanes, e: Event): seq<Msg>
    requires Legal(s, e)
  {
    if e.Recv? && l.urgent == [] && s.queued != [] then [Step(s, e).held[e.t].msg] else []
  }

  function LanesAfterRun(s: Mq, l: Lanes, es: seq<Event>): Lanes
    requires LegalRun(s, es)
    decreases |es|
  {
    if es == [] then l else LanesAfterRun(Step(s, es[0]), LanesAfter(s, l, es[0]), es[1..])
  }

  function Sent(s: Mq, es: seq<Event>): seq<Msg>
    requires LegalRun(s, es)
    decreases |es|
  {
    if es == [] then [] else SentBy(s, es[0]) + Sent(Step(s, es[0]), es[1..])
  }

  function Received(s: Mq, l: Lanes, es: seq<Event>): seq<Msg>
    requires LegalRun(s, es)
    decreases |es|
  {
    if es == [] then []
    else ReceivedBy(s, l, es[0]) + Received(Step(s, es[0]), LanesAfter(s, l, es[0]), es[1..])
  }

  predicate NoReset(es: seq<Event>) { forall k :: 0 <= k < |es| ==> !es[k].Reset? }

  lemma StepInLanes(s: Mq, l: Lanes, e: Event)
    requires Inv(s) && Legal(s, e) && Split(s, l)
    ensures Split(Step(s, e), LanesAfter(s, l, e))
    ensures !e.Reset? ==> l.ordinary + SentBy(s, e) == ReceivedBy(s, l, e) + LanesAfter(s, l, e).ordinary
  {
    StepIsDeque(s, e);
    if e.Recv? && l.urgent == [] && s.queued != [] {
      RecvTakesFront(s, e.t, e.wait, e.at);
      assert l.ordinary == Deque(s);
      assert Deque(s) == [Deque(s)[0]] + Deque(s)[1..];
    }
  }

  /** Whatever urgent messages overtake them, ordinary messages are first in, first out: those in the queue
      and those sent are, in this order, those received and those in the queue. */
  lemma {:induction false} RunIsFifo(s: Mq, l: Lanes, es: seq<Event>)
    requires Inv(s) && LegalRun(s, es) && Split(s, l) && NoReset(es)
    ensures Split(After(s, es), LanesAfterRun(s, l, es))
    ensures l.ordinary + Sent(s, es) == Received(s, l, es) + LanesAfterRun(s, l, es).ordinary
    decreases |es|
  {
    if es != [] {
      var e, s1, l1 := es[0], Step(s, es[0]), LanesAfter(s, l, es[0]);
      assert !e.Reset?;
      StepKeeps(s, e);
      StepInLanes(s, l, e);
      RunIsFifo(s1, l1, es[1..]);
      var rest := LanesAfterRun(s1, l1, es[1..]).ordinary;
      Associative(l.ordinary, SentBy(s, e), Sent(s1, es[1..]));
      Associative(ReceivedBy(s, l, e), l1.ordinary, Sent(s1, es[1..]));
      Associative(ReceivedBy(s, l, e), Received(s1, l1, es[1..]), rest);
    }
  }

  // ----- messages in flight -----

  /** Whatever happens between, the receiver returns the message it unlinked. */
  lemma DeliversWhatItTook(s: Mq, t: Tid)
    requires Inv(s) && Legal(s, RecvDone(t))
    ensures Delivered(s, t) == s.held[t].msg
  {
    assert Filled(s.data, s.held[t]);
  }

  /** A thread's message in flight is left alone by the steps of others. */
  lemma OthersKeepHeld(s: Mq, e: Event, t: Tid)
    requires Inv(s) && Legal(s, e) && t in s.held && (e.Reset? || e.t != t)
    ensures t in Step(s, e).held && Step(s, e).held[t] == s.held[t]
  {
  }

  /** A send finds the queue full only when every slot is queued or in flight. */
  lemma FullMeansInUse(s: Mq, t: Tid, msg: Msg, urgent: bool)
    requires Inv(s) && Legal(s, SendTake(t, msg, urgent))
    ensures Step(s, SendTake(t, msg, urgent)) == s <==> Elems(s.queued) + HeldSlots(s.held) == AllSlots(|s.data|)
  {
    if s.free != [] {
      assert s.free[0] in Elems(s.free) && s.free[0] in AllSlots(|s.data|);
      var r := Step(s, SendTake(t, msg, urgent));
      assert t in r.held && t !in s.held;
    }
  }

  lemma {:induction false} SizeOfHeld(held: map<Tid, Hold>)
    requires OneEach(held)
    ensures |HeldSlots(held)| == |held|
  {
    if held != map[] {
      var t :| t in held;
      HeldLess(held, t);
      SizeOfHeld(held - {t});
      assert (held - {t}).Keys == held.Keys - {t};
    }
  }

  lemma {:induction false} SizeOfAll(n: nat)
    ensures |AllSlots(n)| == n
  {
    if n > 0 {
      SizeOfAll(n - 1);
      assert AllSlots(n) == AllSlots(n - 1) + {n - 1};
    }
  }

  /** Free, queued and in-flight slots add up. */
  lemma SlotsAddUp(s: Mq)
    requires Inv(s)
    ensures |s.free| + |s.queued| + |s.held| == |s.data|
  {
    SizeOf(s.free);
    SizeOf(s.queued);
    SizeOfHeld(s.held);
    SizeOfAll(|s.data|);
    assert |Elems(s.free) + Elems(s.queued)| == |Elems(s.free)| + |Elems(s.queued)|;
    assert |Elems(s.free) + Elems(s.queued) + HeldSlots(s.held)| ==
        |Elems(s.free) + Elems(s.queued)| + |HeldSlots(s.held)|;
  }
}
