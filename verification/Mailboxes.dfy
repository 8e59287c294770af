/** A mailbox shared by threads: a bounded queue in a ring buffer, with receivers suspended while it is
    empty and senders suspended while it is full.  Each event is one interrupt-disabled section; a woken
    thread runs later and may find the mailbox empty or full again. */
module Mailboxes {
  import opened Lists

  type Tid = nat
  type Mail = int

  /** receivers and senders are the two suspend lists; wokenReceivers and wokenSenders those resumed from
      them, without an error, that have not run yet. */
  datatype Mb = Mb(pool: seq<Mail>, inOff: nat, outOff: nat, entry: nat,
                   receivers: seq<Tid>, wokenReceivers: set<Tid>, senders: seq<Tid>, wokenSenders: set<Tid>)

  datatype Event =
    | Send(t: Tid, mail: Mail, wait: bool, at: nat)   // rt_mb_send_wait, or its loop after a wake-up
    | Recv(t: Tid, wait: bool, at: nat)               // rt_mb_recv, or its loop after a wake-up
    | ExpireSender(t: Tid)                            // the timer of a suspended thread
    | ExpireReceiver(t: Tid)
    | Reset                                           // RT_IPC_CMD_RESET

  /** The cell k places after off in the ring. */
  function Around(off: nat, k: nat, size: nat): int { if off + k >= size then off + k - size else off + k }

  function Bump(off: nat, size: nat): nat { if off + 1 >= size then 0 else off + 1 }

  // ----- steps -----

  predicate Legal(s: Mb, e: Event) {
    match e
    case Send(t, _, _, at) => t !in s.receivers && t !in s.senders && t !in s.wokenReceivers && at <= |s.senders|
    case Recv(t, _, at) => t !in s.receivers && t !in s.senders && t !in s.wokenSenders && at <= |s.receivers|
    case ExpireSender(t) => t in s.senders
    case ExpireReceiver(t) => t in s.receivers
    case Reset => true
  }

  function WakeReceiver(s: Mb): Mb {
    if s.receivers == [] then s
    else s.(receivers := s.receivers[1..], wokenReceivers := s.wokenReceivers + {s.receivers[0]})
  }

  function WakeSender(s: Mb): Mb {
    if s.senders == [] then s
    else s.(senders := s.senders[1..], wokenSenders := s.wokenSenders + {s.senders[0]})
  }

  /** A mail goes into the ring. */
  function Put(s: Mb, mail: Mail): Mb
    requires s.inOff < |s.pool|
  {
    s.(pool := s.pool[s.inOff := mail], inOff := Bump(s.inOff, |s.pool|), entry := s.entry + 1)
  }

  /** A mail comes out of the ring. */
  function Take(s: Mb): Mb
    requires s.entry > 0
  {
    s.(outOff := Bump(s.outOff, |s.pool|), entry := s.entry - 1)
  }

  function Step(s: Mb, e: Event): Mb
    requires Legal(s, e) && Ring(s)
  {
    match e
    case Send(t, mail, wait, at) =>
      var s1 := s.(wokenSenders := s.wokenSenders - {t});
      if s.entry < |s.pool| then RingRoom(s); WakeReceiver(Put(s1, mail))
      else if wait then s1.(senders := Insert(s.senders, at, t))
      else s1
    case Recv(t, wait, at) =>
      var s1 := s.(wokenReceivers := s.wokenReceivers - {t});
      if s.entry > 0 then WakeSender(Take(s1))
      else if wait then s1.(receivers := Insert(s.receivers, at, t))
      else s1
    case ExpireSender(t) => s.(senders := Remove(s.senders, t))
    case ExpireReceiver(t) => s.(receivers := Remove(s.receivers, t))
    case Reset => s.(receivers := [], senders := [], entry := 0, inOff := 0, outOff := 0)
  }

  // ----- the invariant -----

  /** The mails are in the ring from outOff on, and inOff is right behind the last. */
  predicate Ring(s: Mb) {
    && s.entry <= |s.pool| && (s.outOff < |s.pool| || (|s.pool| == 0 && s.outOff == 0))
    && s.inOff == Around(s.outOff, s.entry, |s.pool|)
  }

  lemma RingRoom(s: Mb)
    requires Ring(s) && s.entry < |s.pool|
    ensures s.inOff < |s.pool|
  {
  }

  /** No wake-up is lost: a receiver is left suspended only if every mail has a receiver on its way to it;
      a sender only if every free cell has a sender on its way to it. */
  predicate NoLostWakeUp(s: Mb) {
    && (s.receivers != [] ==> s.entry <= |s.wokenReceivers|)
    && (s.senders != [] ==> |s.pool| - s.entry <= |s.wokenSenders|)
  }

  predicate Waiting(s: Mb) {
    && Distinct(s.receivers) && Distinct(s.senders)
    && Elems(s.receivers) !! s.wokenReceivers && Elems(s.senders) !! s.wokenSenders
    && NoLostWakeUp(s)
  }

  predicate Inv(s: Mb) { Ring(s) && Waiting(s) }

  /** The mails in the box, the next to be received first. */
  function Mails(s: Mb): seq<Mail>
    requires Ring(s)
  {
    seq(s.entry, i requires 0 <= i < s.entry => s.pool[Around(s.outOff, i, |s.pool|)])
  }

  // ----- the ring is a bounded queue -----

  lemma PutIsAppend(s: Mb, mail: Mail)
    requires Ring(s) && s.entry < |s.pool|
    ensures s.inOff < |s.pool| && Ring(Put(s, mail)) && Mails(Put(s, mail)) == Mails(s) + [mail]
  {
    var r := Put(s, mail);
    assert forall i :: 0 <= i < s.entry ==> Around(s.outOff, i, |s.pool|) != s.inOff;
    assert forall i :: 0 <= i < s.entry ==> Mails(r)[i] == Mails(s)[i];
  }

  lemma TakeIsRest(s: Mb)
    requires Ring(s) && s.entry > 0
    ensures Ring(Take(s)) && Mails(Take(s)) == Mails(s)[1..] && s.pool[s.outOff] == Mails(s)[0]
  {
    assert forall i :: 0 <= i < s.entry - 1 ==>
        Around(Bump(s.outOff, |s.pool|), i, |s.pool|) == Around(s.outOff, i + 1, |s.pool|);
  }

  // ----- every step keeps the invariant -----

  lemma WakeReceiverKeeps(s: Mb)
    requires Distinct(s.receivers) && Distinct(s.senders)
    requires Elems(s.receivers) !! s.wokenReceivers && Elems(s.senders) !! s.wokenSenders
    requires s.receivers != [] ==> s.entry <= |s.wokenReceivers| + 1
    requires s.senders != [] ==> |s.pool| - s.entry <= |s.wokenSenders|
    ensures Waiting(WakeReceiver(s))
  {
    if s.receivers != [] {
      TailElems(s.receivers);
      assert s.receivers[0] in Elems(s.receivers);
    }
  }

  lemma WakeSenderKeeps(s: Mb)
    requires Distinct(s.receivers) && Distinct(s.senders)
    requires Elems(s.receivers) !! s.wokenReceivers && Elems(s.senders) !! s.wokenSenders
    requires s.receivers != [] ==> s.entry <= |s.wokenReceivers|
    requires s.senders != [] ==> |s.pool| - s.entry <= |s.wokenSenders| + 1
    ensures Waiting(WakeSender(s))
  {
    if s.senders != [] {
      TailElems(s.senders);
      assert s.senders[0] in Elems(s.senders);
    }
  }

  lemma SendKeeps(s: Mb, t: Tid, mail: Mail, wait: bool, at: nat)
    requires Inv(s) && Legal(s, Send(t, mail, wait, at))
    ensures Inv(Step(s, Send(t, mail, wait, at)))
  {
    var s1 := s.(wokenSenders := s.wokenSenders - {t});
    if s.entry < |s.pool| {
      PutIsAppend(s1, mail);
      WakeReceiverKeeps(Put(s1, mail));
    } else if wait {
      InsertElems(s.senders, at, t);
    }
  }

  lemma RecvKeeps(s: Mb, t: Tid, wait: bool, at: nat)
    requires Inv(s) && Legal(s, Recv(t, wait, at))
    ensures Inv(Step(s, Recv(t, wait, at)))
  {
    var s1 := s.(wokenReceivers := s.wokenReceivers - {t});
    if s.entry > 0 {
      TakeIsRest(s1);
      WakeSenderKeeps(Take(s1));
    } else if wait {
      InsertElems(s.receivers, at, t);
    }
  }

  lemma StepKeeps(s: Mb, e: Event)
    requires Inv(s) && Legal(s, e)
    ensures Inv(Step(s, e)) && |Step(s, e).pool| == |s.pool|
  {
    match e
    case Send(t, mail, wait, at) => SendKeeps(s, t, mail, wait, at);
    case Recv(t, wait, at) => RecvKeeps(s, t, wait, at);
    case ExpireSender(t) => RemoveElems(s.senders, t);
    case ExpireReceiver(t) => RemoveElems(s.receivers, t);
    case Reset =>
  }

  // ----- the mailbox is a bounded queue -----

  /** A send appends its mail if there is room; a receive takes the first mail if there is one; a reset
      empties the box; nothing else touches the mails. */
  lemma StepIsQueue(s: Mb, e: Event)
    requires Inv(s) && Legal(s, e)
    ensures Ring(Step(s, e))
    ensures Mails(Step(s, e)) ==
      match e
      case Send(_, mail, _, _) => if |Mails(s)| < |s.pool| then Mails(s) + [mail] else Mails(s)
      case Recv(_, _, _) => if Mails(s) == [] then [] else Mails(s)[1..]
      case Reset => []
      case _ => Mails(s)
  {
    StepKeeps(s, e);
    match e
    case Send(t, mail, _, _) =>
      if s.entry < |s.pool| { PutIsAppend(s.(wokenSenders := s.wokenSenders - {t}), mail); }
    case Recv(t, _, _) =>
      if s.entry > 0 { TakeIsRest(s.(wokenReceivers := s.wokenReceivers - {t})); }
    case _ =>
  }

  // ----- runs -----

  predicate LegalRun(s: Mb, es: seq<Event>)
    requires Inv(s)
    decreases |es|
  {
    es == [] || (Legal(s, es[0]) && (StepKeeps(s, es[0]); LegalRun(Step(s, es[0]), es[1..])))
  }

  /** Over every run, with senders, receivers, timeouts and resets interleaved in any way, the ring is sound
      and no wake-up is lost. */
  function After(s: Mb, es: seq<Event>): (r: Mb)
    requires Inv(s) && LegalRun(s, es)
    ensures Inv(r) && |r.pool| == |s.pool|
    decreases |es|
  {
    if es == [] then s else StepKeeps(s, es[0]); After(Step(s, es[0]), es[1..])
  }

  /** The mail an event puts into the box, and the mail it takes out. */
  function SentBy(s: Mb, e: Event): seq<Mail> { if e.Send? && s.entry < |s.pool| then [e.mail] else [] }

  function ReceivedBy(s: Mb, e: Event): seq<Mail>
    requires Ring(s)
  {
    if e.Recv? && s.entry > 0 then [s.pool[s.outOff]] else []
  }

  function Sent(s: Mb, es: seq<Event>): seq<Mail>
    requires Inv(s) && LegalRun(s, es)
    decreases |es|
  {
    if es == [] then [] else StepKeeps(s, es[0]); SentBy(s, es[0]) + Sent(Step(s, es[0]), es[1..])
  }

  function Received(s: Mb, es: seq<Event>): seq<Mail>
    requires Inv(s) && LegalRun(s, es)
    decreases |es|
  {
    if es == [] then [] else StepKeeps(s, es[0]); ReceivedBy(s, es[0]) + Received(Step(s, es[0]), es[1..])
  }

  predicate NoReset(es: seq<Event>) { forall k :: 0 <= k < |es| ==> !es[k].Reset? }

  lemma StepIsFifo(s: Mb, e: Event)
    requires Inv(s) && Legal(s, e) && !e.Reset?
    ensures Ring(Step(s, e)) && Mails(s) + SentBy(s, e) == ReceivedBy(s, e) + Mails(Step(s, e))
  {
    StepIsQueue(s, e);
    FirstMail(s);
  }

  lemma FirstMail(s: Mb)
    requires Ring(s)
    ensures |Mails(s)| == s.entry
    ensures s.entry > 0 ==> s.pool[s.outOff] == Mails(s)[0] && Mails(s) == [Mails(s)[0]] + Mails(s)[1..]
  {
    if s.entry > 0 { TakeIsRest(s); }
  }

  /** First in, first out: what was in the box and what was sent is, in this order, what was received and
      what is in the box. */
  lemma {:induction false} RunIsFifo(s: Mb, es: seq<Event>)
    requires Inv(s) && LegalRun(s, es) && NoReset(es)
    ensures Mails(s) + Sent(s, es) == Received(s, es) + Mails(After(s, es))
    decreases |es|
  {
    if es == [] {
      assert Mails(s) + [] == [] + Mails(s);
    } else {
      var e, s1 := es[0], Step(s, es[0]);
      assert !e.Reset?;
      StepKeeps(s, e);
      StepIsFifo(s, e);
      RunIsFifo(s1, es[1..]);
      RunParts(s, es);
      hide *;
      Associative(Mails(s), SentBy(s, e), Sent(s1, es[1..]));
      Associative(ReceivedBy(s, e), Mails(s1), Sent(s1, es[1..]));
      Associative(ReceivedBy(s, e), Received(s1, es[1..]), Mails(After(s1, es[1..])));
    }
  }

  lemma RunParts(s: Mb, es: seq<Event>)
    requires Inv(s) && LegalRun(s, es) && es != []
    ensures var s1 := Step(s, es[0]);
      && Inv(s1) && LegalRun(s1, es[1..]) && After(s, es) == After(s1, es[1..])
      && Sent(s, es) == SentBy(s, es[0]) + Sent(s1, es[1..])
      && Received(s, es) == ReceivedBy(s, es[0]) + Received(s1, es[1..])
  {
    StepKeeps(s, es[0]);
  }
}
