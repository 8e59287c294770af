/** What each section of a mailbox call does to the mails, the suspend lists and the woken threads, and how long a
    suspended thread waits for its turn. */
module MailboxCalls {
  import opened Lists
  import opened Mailboxes

  /** One mail more at the back, one less at the front. */
  predicate Appended(was: seq<Mail>, mails: seq<Mail>, mail: Mail) { mails == was + [mail] }

  predicate Dropped(was: seq<Mail>, mails: seq<Mail>) { was != [] && was == [was[0]] + mails }

  predicate SendersSame(s: Mb, r: Mb) { r.senders == s.senders && r.wokenSenders == s.wokenSenders }

  predicate ReceiversSame(s: Mb, r: Mb) { r.receivers == s.receivers && r.wokenReceivers == s.wokenReceivers }

  /** rt_mb_send_wait: with room the mail goes in and the first receiver is resumed; without, the sender is suspended at
      its place if it is ready to wait.  Nothing else changes. */
  lemma SendDoes(s: Mb, t: Tid, mail: Mail, wait: bool, at: nat)
    requires Inv(s) && Legal(s, Send(t, mail, wait, at))
    ensures var r := Step(s, Send(t, mail, wait, at));
      && Ring(r) && |r.pool| == |s.pool| && r.wokenSenders == s.wokenSenders - {t}
      && (if |Mails(s)| < |s.pool| then
            Appended(Mails(s), Mails(r), mail) && r.senders == s.senders
            && FirstWoken(s.receivers, s.wokenReceivers, r.receivers, r.wokenReceivers)
          else
            Mails(r) == Mails(s) && ReceiversSame(s, r)
            && if wait then JoinedAt(s.senders, r.senders, at, t) else r.senders == s.senders)
  {
    StepKeeps(s, Send(t, mail, wait, at));
    StepIsQueue(s, Send(t, mail, wait, at));
    FirstMail(s);
    InsertJoins(s.senders, at, t);
    hide Mails, Ring, Waiting;
  }

  /** rt_mb_recv, the other way round. */
  lemma RecvDoes(s: Mb, t: Tid, wait: bool, at: nat)
    requires Inv(s) && Legal(s, Recv(t, wait, at))
    ensures var r := Step(s, Recv(t, wait, at));
      && Ring(r) && |r.pool| == |s.pool| && r.wokenReceivers == s.wokenReceivers - {t}
      && (if Mails(s) != [] then
            Dropped(Mails(s), Mails(r)) && r.receivers == s.receivers
            && FirstWoken(s.senders, s.wokenSenders, r.senders, r.wokenSenders)
          else
            Mails(r) == [] && SendersSame(s, r)
            && if wait then JoinedAt(s.receivers, r.receivers, at, t) else r.receivers == s.receivers)
  {
    StepKeeps(s, Recv(t, wait, at));
    StepIsQueue(s, Recv(t, wait, at));
    FirstMail(s);
    InsertJoins(s.receivers, at, t);
    hide Mails, Ring, Waiting;
  }

  /** A timeout takes its thread off its list; a reset empties the box and both lists. */
  lemma OthersDo(s: Mb, e: Event)
    requires Inv(s) && Legal(s, e) && !e.Send? && !e.Recv?
    ensures var r := Step(s, e);
      && Ring(r) && |r.pool| == |s.pool|
      && match e
         case ExpireSender(t) =>
           (Mails(r) == Mails(s) && ReceiversSame(s, r)
            && r.wokenSenders == s.wokenSenders && LeftBy(s.senders, r.senders, t))
         case ExpireReceiver(t) =>
           (Mails(r) == Mails(s) && SendersSame(s, r)
            && r.wokenReceivers == s.wokenReceivers && LeftBy(s.receivers, r.receivers, t))
         case _ =>
           (Mails(r) == [] && r.senders == [] && r.receivers == []
            && r.wokenSenders == s.wokenSenders && r.wokenReceivers == s.wokenReceivers)
  {
    StepKeeps(s, e);
    StepIsQueue(s, e);
    if e.ExpireSender? { RemoveLeaves(s.senders, e.t); }
    if e.ExpireReceiver? { RemoveLeaves(s.receivers, e.t); }
    hide Mails, Ring, Waiting;
  }

  // ----- waiting for one's turn -----

  datatype Side = Senders | Receivers

  /** The threads that wait for room, or for mail. */
  function Line(s: Mb, side: Side): seq<Tid> { if side.Senders? then s.senders else s.receivers }

  function Woken(s: Mb, side: Side): set<Tid> { if side.Senders? then s.wokenSenders else s.wokenReceivers }

  function Timeout(side: Side, t: Tid): Event { if side.Senders? then ExpireSender(t) else ExpireReceiver(t) }

  /** Threads are suspended in the order they come: RT_IPC_FLAG_FIFO. */
  predicate InOrderOfComing(s: Mb, e: Event) {
    (e.Recv? ==> e.at == |s.receivers|) && (e.Send? ==> e.at == |s.senders|) && !e.Reset?
  }

  /** A thread that waits throughout a run. */
  predicate WaitsThrough(s: Mb, es: seq<Event>, side: Side, t: Tid)
    requires Inv(s) && LegalRun(s, es)
    decreases |es|
  {
    && t in Line(s, side)
    && (es == [] ||
        (InOrderOfComing(s, es[0]) && (StepKeeps(s, es[0]); WaitsThrough(Step(s, es[0]), es[1..], side, t))))
  }

  /** What a thread on the line waits for: a mail taken out, or a mail put in. */
  predicate Serves(s: Mb, e: Event, side: Side) {
    if side.Senders? then e.Recv? && s.entry > 0 else e.Send? && s.entry < |s.pool|
  }

  /** An event that shortens the line before t: one more is served, or one ahead of t times out. */
  predicate Advances(s: Mb, e: Event, side: Side, t: Tid)
    requires t in Line(s, side)
  {
    || Serves(s, e, side)
    || exists u :: u in Line(s, side) && e == Timeout(side, u) && IndexOf(Line(s, side), u) < IndexOf(Line(s, side), t)
  }

  function Advanced(s: Mb, es: seq<Event>, side: Side, t: Tid): nat
    requires Inv(s) && LegalRun(s, es) && WaitsThrough(s, es, side, t)
    decreases |es|
  {
    if es == [] then 0
    else
      StepKeeps(s, es[0]);
      (if Advances(s, es[0], side, t) then 1 else 0) + Advanced(Step(s, es[0]), es[1..], side, t)
  }

  /** One event, for a waiting thread that does not time out itself: served with nobody ahead it is resumed; otherwise
      it moves up by one or stays where it is. */
  lemma TurnStep(s: Mb, e: Event, side: Side, t: Tid)
    requires Inv(s) && Legal(s, e) && t in Line(s, side) && InOrderOfComing(s, e) && e != Timeout(side, t)
    ensures var line, k := Line(Step(s, e), side), IndexOf(Line(s, side), t);
      if Advances(s, e, side, t) then
        if k == 0 then t !in line && t in Woken(Step(s, e), side) else t in line && IndexOf(line, t) == k - 1
      else t in line && IndexOf(line, t) == k
  {
    LineAfter(s, e, side);
    LineDistinct(s, side);
    hide Inv, Legal, Step, Line, Woken, Serves, InOrderOfComing;
    var line := Line(s, side);
    if Serves(s, e, side) {
      IndexAfterFirst(line, t);
    } else if e == Timeout(side, e.t) {
      IndexAfterRemove(line, t, e.t);
    } else if e.t !in line {
      IndexAfterJoin(line, t, e.t);
    }
  }

  lemma LineDistinct(s: Mb, side: Side)
    requires Inv(s)
    ensures Distinct(Line(s, side))
  {
    hide Ring;
  }

  /** What one event makes of a line. */
  lemma LineAfter(s: Mb, e: Event, side: Side)
    requires Inv(s) && Legal(s, e) && InOrderOfComing(s, e)
    ensures var line, after := Line(s, side), Line(Step(s, e), side);
      if Serves(s, e, side) then line != [] ==> after == line[1..] && line[0] in Woken(Step(s, e), side)
      else if e == Timeout(side, e.t) then e.t in line && after == Remove(line, e.t)
      else after == line || (e.t !in line && after == line + [e.t])
    ensures Serves(s, e, side) ==> e != Timeout(side, e.t)
  {
    hide Ring, NoLostWakeUp;
    var line := Line(s, side);
    if (e.Send? && side.Senders?) || (e.Recv? && side.Receivers?) {
      assert line[..|line|] + [e.t] + line[|line|..] == line + [e.t];
    }
  }

  lemma StillWaiting(s: Mb, e: Event, side: Side, t: Tid)
    requires Inv(s) && Legal(s, e)
    ensures t in Line(Step(s, e), side) ==> e != Timeout(side, t)
  {
    if e == Timeout(side, t) {
      RemoveElems(Line(s, side), t);
      assert t !in Elems(Line(Step(s, e), side));
    }
  }

  /** Under RT_IPC_FLAG_FIFO a waiting receiver moves up once for every mail put in and every timeout ahead of it, and
      so waits for no more mails than it had receivers ahead; a waiting sender likewise for mails taken out. */
  lemma {:induction false} WaitsItsTurn(s: Mb, es: seq<Event>, side: Side, t: Tid)
    requires Inv(s) && LegalRun(s, es) && WaitsThrough(s, es, side, t)
    ensures t in Line(After(s, es), side)
    ensures IndexOf(Line(After(s, es), side), t) + Advanced(s, es, side, t) == IndexOf(Line(s, side), t)
    decreases |es|
  {
    if es != [] {
      var e, s1 := es[0], Step(s, es[0]);
      StepKeeps(s, e);
      StillWaiting(s, e, side, t);
      TurnStep(s, e, side, t);
      hide Inv, Legal, Step, InOrderOfComing, Advances, Line;
      WaitsItsTurn(s1, es[1..], side, t);
    }
  }
}
