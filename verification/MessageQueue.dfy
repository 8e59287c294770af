/** The message queue object as ipc.c updates it: slots chained by next fields from three pointers, and the
    count of queued messages.  Each method is one interrupt-disabled section, or the copying between two. */
module MessageQueue {
  import opened Lists
  import opened MessageQueues

  const NULL := -1

  // ----- chains -----

  /** Following next from head goes through s and ends. */
  predicate Chain(next: seq<int>, head: int, s: seq<Slot>)
    decreases |s|
  {
    if s == [] then head == NULL
    else head == s[0] && s[0] < |next| && Chain(next, next[s[0]], s[1..])
  }

  lemma {:induction false} ChainFrame(next: seq<int>, head: int, s: seq<Slot>, k: Slot, v: int)
    requires Chain(next, head, s) && k < |next| && k !in s
    ensures Chain(next[k := v], head, s)
    decreases |s|
  {
    if s != [] {
      assert s[0] in s && forall x :: x in s[1..] ==> x in s;
      ChainFrame(next, next[s[0]], s[1..], k, v);
    }
  }

  lemma {:induction false} ChainAppend(next: seq<int>, head: int, s: seq<Slot>, k: Slot)
    requires Chain(next, head, s) && s != [] && Distinct(s) && k < |next| && next[k] == NULL && k !in s
    ensures s[|s| - 1] < |next| && Chain(next[s[|s| - 1] := k], head, s + [k])
    decreases |s|
  {
    var last := s[|s| - 1];
    if |s| == 1 {
      assert (s + [k])[1..] == [k];
    } else {
      TailElems(s);
      ChainAppend(next, next[s[0]], s[1..], k);
      assert (s + [k])[1..] == s[1..] + [k];
      assert s[0] != last;
    }
  }

  lemma ChainHead(next: seq<int>, head: int, s: seq<Slot>)
    requires Chain(next, head, s)
    ensures head == NULL <==> s == []
    ensures s != [] ==> head == s[0] < |next| && Chain(next, next[head], s[1..])
  {
  }

  lemma ChainPush(next: seq<int>, head: int, s: seq<Slot>, k: Slot)
    requires Chain(next, head, s) && k < |next| && k !in s
    ensures Chain(next[k := head], k, [k] + s)
  {
    ChainFrame(next, head, s, k, head);
    assert ([k] + s)[1..] == s;
  }

  function TailOf(s: seq<Slot>): int { if s == [] then NULL else s[|s| - 1] }

  /** The slots about to be linked at the back end their chain. */
  predicate Ends(next: seq<int>, held: map<Tid, Hold>) {
    forall t :: t in held && held[t].Filling? && held[t].copied && !held[t].urgent ==>
      held[t].slot < |next| && next[held[t].slot] == NULL
  }

  /** The pointers and next fields show the two lists. */
  predicate Shown(next: seq<int>, head: int, tail: int, free: int, s: Mq) {
    && |next| == |s.data| && Chain(next, head, s.queued) && tail == TailOf(s.queued) && Chain(next, free, s.free)
    && Ends(next, s.held)
  }

  lemma HeldApart(s: Mq, t: Tid)
    requires Inv(s) && t in s.held
    ensures s.held[t].slot < |s.data| && s.held[t].slot !in s.free && s.held[t].slot !in s.queued
    ensures forall u :: u in s.held && u != t ==> s.held[u].slot != s.held[t].slot
  {
    assert s.held[t].slot in HeldSlots(s.held);
    assert Filled(s.data, s.held[t]);
    assert forall k :: k in s.free ==> k in Elems(s.free);
    assert forall k :: k in s.queued ==> k in Elems(s.queued);
  }

  lemma FreeApart(s: Mq, k: Slot)
    requires Inv(s) && (k in s.free || k in s.queued)
    ensures k < |s.data| && (k in s.free ==> k !in s.queued)
    ensures forall u :: u in s.held ==> s.held[u].slot != k
  {
    SlotInRange(s, k);
    assert k in Elems(s.free) || k in Elems(s.queued);
    assert k in s.queued ==> k in Elems(s.queued);
    assert forall u :: u in s.held ==> s.held[u].slot in HeldSlots(s.held);
  }

  // ----- what each section does to the lists -----

  lemma TakeShown(next: seq<int>, head: int, tail: int, free: int, s: Mq, t: Tid, msg: Msg, urgent: bool)
    requires Inv(s) && Legal(s, SendTake(t, msg, urgent)) && Shown(next, head, tail, free, s) && free != NULL
    ensures s.free != [] && free == s.free[0] < |next|
    ensures Shown(next, head, tail, next[free], Step(s, SendTake(t, msg, urgent)))
  {
    ChainHead(next, free, s.free);
  }

  lemma CopyShown(next: seq<int>, head: int, tail: int, free: int, s: Mq, t: Tid)
    requires Inv(s) && Legal(s, SendCopy(t)) && Shown(next, head, tail, free, s)
    ensures var k, s1 := s.held[t].slot, Step(s, SendCopy(t));
      && k < |next| && Shown(next[k := NULL], head, tail, free, s1)
           && (s.held[t].urgent ==> Shown(next, head, tail, free, s1))
  {
    HeldApart(s, t);
    ChainFrame(next, head, s.queued, s.held[t].slot, NULL);
    ChainFrame(next, free, s.free, s.held[t].slot, NULL);
  }

  lemma LinkBackShown(next: seq<int>, head: int, tail: int, free: int, s: Mq, t: Tid)
    requires Inv(s) && Legal(s, SendLink(t)) && !s.held[t].urgent && Shown(next, head, tail, free, s)
    ensures var k, s1 := s.held[t].slot, Step(s, SendLink(t));
      && (tail != NULL ==> head != NULL && 0 <= tail < |next|) && (tail == NULL ==> head == NULL)
      && Shown(if tail != NULL then next[tail := k] else next, if head == NULL then k else head, k, free, s1)
  {
    var k := s.held[t].slot;
    HeldApart(s, t);
    ChainHead(next, head, s.queued);
    if s.queued != [] {
      var last := s.queued[|s.queued| - 1];
      ChainAppend(next, head, s.queued, k);
      FreeApart(s, last);
      assert last in Elems(s.queued) && last !in Elems(s.free);
      ChainFrame(next, free, s.free, last, k);
    }
  }

  lemma LinkFrontShown(next: seq<int>, head: int, tail: int, free: int, s: Mq, t: Tid)
    requires Inv(s) && Legal(s, SendLink(t)) && s.held[t].urgent && Shown(next, head, tail, free, s)
    ensures var k, s1 := s.held[t].slot, Step(s, SendLink(t));
      k < |next| && Shown(next[k := head], k, if tail == NULL then k else tail, free, s1)
  {
    var k := s.held[t].slot;
    HeldApart(s, t);
    ChainPush(next, head, s.queued, k);
    ChainFrame(next, free, s.free, k, head);
  }

  lemma UnlinkShown(next: seq<int>, head: int, tail: int, free: int, s: Mq, t: Tid, wait: bool, at: nat)
    requires Inv(s) && Legal(s, Recv(t, wait, at)) && s.queued != [] && Shown(next, head, tail, free, s)
    ensures head == s.queued[0] < |next|
    ensures Shown(next, next[head], if tail == head then NULL else tail, free, Step(s, Recv(t, wait, at)))
  {
    ChainHead(next, head, s.queued);
    if |s.queued| > 1 { TailElems(s.queued); assert s.queued[|s.queued| - 1] in s.queued[1..]; }
  }

  lemma PutShown(next: seq<int>, head: int, tail: int, free: int, s: Mq, t: Tid)
    requires Inv(s) && Legal(s, RecvDone(t)) && Shown(next, head, tail, free, s)
    ensures var k := s.held[t].slot;
      k < |next| && Shown(next[k := free], head, tail, k, Step(s, RecvDone(t)))
  {
    var k := s.held[t].slot;
    HeldApart(s, t);
    ChainPush(next, free, s.free, k);
    ChainFrame(next, head, s.queued, k, free);
  }

  lemma {:induction false} ReverseMore(s: seq<Slot>, k: Slot)
    ensures Reverse(s + [k]) == [k] + Reverse(s)
  {
    if s == [] {
      assert ([] + [k])[1..] == [];
    } else {
      assert (s + [k])[1..] == s[1..] + [k];
      ReverseMore(s[1..], k);
    }
  }

  /** The release of the queued slots, so far: done is on the free list, rest still queued. */
  predicate Releasing(next: seq<int>, head: int, tail: int, free: int, s: Mq, done: seq<Slot>, rest: seq<Slot>) {
    && s.queued == done + rest && |next| == |s.data|
    && Chain(next, head, rest) && tail == TailOf(rest) && Chain(next, free, Reverse(done) + s.free)
         && Ends(next, s.held)
  }

  lemma ReleaseOne(next: seq<int>, head: int, tail: int, free: int, s: Mq, done: seq<Slot>, rest: seq<Slot>)
    requires Inv(s) && Releasing(next, head, tail, free, s, done, rest) && rest != []
    ensures head == rest[0] < |next|
    ensures Releasing(next[head := free], next[head], if tail == head then NULL
      else tail, head, s, done + [rest[0]], rest[1..])
  {
    hide Inv, Chain, Ends, Reverse;
    var k := rest[0];
    ChainHead(next, head, rest);
    QueuedApart(s, done, rest);
    assert done + rest == (done + [k]) + rest[1..];
    ReverseMore(done, k);
    assert Reverse(done + [k]) + s.free == [k] + (Reverse(done) + s.free);
    ChainPush(next, free, Reverse(done) + s.free, k);
    ChainFrame(next, next[head], rest[1..], k, free);
    EndsFrame(next, s.held, k, free);
    TailRest(rest);
  }

  lemma EndsFrame(next: seq<int>, held: map<Tid, Hold>, k: Slot, v: int)
    requires Ends(next, held) && k < |next| && forall u :: u in held ==> held[u].slot != k
    ensures Ends(next[k := v], held)
  {
  }

  lemma TailRest(rest: seq<Slot>)
    requires rest != [] && rest[0] !in rest[1..]
    ensures TailOf(rest[1..]) == if TailOf(rest) == rest[0] then NULL else TailOf(rest)
  {
    if |rest| > 1 { assert rest[|rest| - 1] in rest[1..]; }
  }

  lemma QueuedApart(s: Mq, done: seq<Slot>, rest: seq<Slot>)
    requires Inv(s) && s.queued == done + rest && rest != []
    ensures rest[0] < |s.data| && rest[0] !in rest[1..] && rest[0] !in Reverse(done) + s.free
    ensures forall u :: u in s.held ==> s.held[u].slot != rest[0]
  {
    var k, n := rest[0], |done|;
    assert s.queued[n] == k;
    FreeApart(s, k);
    assert k in Elems(s.queued) && k !in Elems(s.free);
    assert forall i :: 0 <= i < n ==> done[i] == s.queued[i];
    assert forall i :: 1 <= i < |rest| ==> rest[i] == s.queued[n + i];
    assert Distinct(done);
    ReverseElems(done);
    assert k !in Elems(done);
  }

  /** The slots below n, the last first. */
  function Down(n: nat): seq<Slot> { if n == 0 then [] else [n - 1] + Down(n - 1) }

  lemma {:induction false} DownSlots(n: nat)
    ensures Distinct(Down(n)) && Elems(Down(n)) == AllSlots(n) && n !in Down(n)
  {
    if n > 0 {
      DownSlots(n - 1);
      FrontElems(n - 1, Down(n - 1));
    }
    assert n !in AllSlots(n) && (n in Down(n) ==> n in Elems(Down(n)));
  }

  function NewQueue(slots: nat): Mq { Mq(seq(slots, _ => 0), Down(slots), [], map[], [], {}) }

  lemma NewQueueShown(slots: nat, next: seq<int>, free: int)
    requires |next| == slots && Chain(next, free, Down(slots))
    ensures Inv(NewQueue(slots)) && Shown(next, NULL, NULL, free, NewQueue(slots))
  {
    DownSlots(slots);
    hide Down;
    assert HeldSlots(map[]) == {};
  }

  class MessageQueue {
    var data: seq<Msg>
    var next: seq<int>
    var head: int
    var tail: int
    var freeHead: int
    var entry: nat
    var suspended: seq<Tid>
    ghost var mq: Mq

    ghost predicate Valid() reads this {
      && Inv(mq) && data == mq.data && Shown(next, head, tail, freeHead, mq) && entry == |mq.queued|
           && suspended == mq.waiters
    }

    /** Every slot free, the last on top. */
    constructor (slots: nat)
      ensures Valid() && mq == NewQueue(slots)
    {
      data, next := seq(slots, _ => 0), seq(slots, _ => NULL);
      head, tail, freeHead, entry, suspended := NULL, NULL, NULL, 0, [];
      mq := NewQueue(slots);
      new;
      InitFree(slots);
      NewQueueShown(slots, next, freeHead);
    }

    method InitFree(slots: nat)
      requires |next| == slots && freeHead == NULL
      modifies this`next, this`freeHead
      ensures |next| == slots && Chain(next, freeHead, Down(slots))
    {
      var k := 0;
      while k < slots
        invariant k <= slots == |next| && Chain(next, freeHead, Down(k))
      {
        DownSlots(k);
        ChainPush(next, freeHead, Down(k), k);
        next := next[k := freeHead];
        freeHead := k;
        k := k + 1;
      }
    }

    /** First section of a send: a slot off the free list; NULL when the queue is full. */
    method TakeSlot(t: Tid, msg: Msg, urgent: bool) returns (k: int)
      requires Valid() && Legal(mq, SendTake(t, msg, urgent))
      modifies this
      ensures Valid() && mq == Step(old(mq), SendTake(t, msg, urgent))
      ensures k == NULL <==> old(mq).free == []
      ensures k != NULL ==> t in mq.held && mq.held[t].slot == k
    {
      StepKeeps(mq, SendTake(t, msg, urgent));
      ChainHead(next, freeHead, mq.free);
      k := freeHead;
      if k != NULL {
        TakeShown(next, head, tail, freeHead, mq, t, msg, urgent);
        freeHead := next[k];
      }
      mq := Step(mq, SendTake(t, msg, urgent));
    }

    /** Between the sections: the message is copied into the slot. */
    method CopyIn(k: Slot, msg: Msg, urgent: bool, ghost t: Tid)
      requires Valid() && Legal(mq, SendCopy(t)) && mq.held[t] == Filling(k, msg, urgent, false)
      modifies this
      ensures Valid() && mq == Step(old(mq), SendCopy(t))
    {
      StepKeeps(mq, SendCopy(t));
      CopyShown(next, head, tail, freeHead, mq, t);
      if !urgent { next := next[k := NULL]; }
      data := data[k := msg];
      mq := Step(mq, SendCopy(t));
    }

    method ResumeFirst() returns (resumed: bool)
      requires suspended == mq.waiters
      modifies this`suspended
      ensures suspended == Woke(mq).waiters && resumed == (mq.waiters != [])
    {
      resumed := suspended != [];
      if resumed { suspended := suspended[1..]; }
    }

    /** Second section of rt_mq_send. */
    method LinkBack(k: Slot, ghost t: Tid) returns (resumed: bool)
      requires Valid() && Legal(mq, SendLink(t)) && mq.held[t].slot == k && !mq.held[t].urgent
      modifies this
      ensures Valid() && mq == Step(old(mq), SendLink(t)) && resumed == (old(mq).waiters != [])
    {
      hide Inv, Legal, Shown, Step, Woke;
      StepKeeps(mq, SendLink(t));
      LinkFields(mq, t);
      LinkBackShown(next, head, tail, freeHead, mq, t);
      if tail != NULL { next := next[tail := k]; }
      tail := k;
      if head == NULL { head := k; }
      entry := entry + 1;
      resumed := ResumeFirst();
      mq := Step(mq, SendLink(t));
    }

    /** Second section of rt_mq_urgent. */
    method LinkFront(k: Slot, ghost t: Tid) returns (resumed: bool)
      requires Valid() && Legal(mq, SendLink(t)) && mq.held[t].slot == k && mq.held[t].urgent
      modifies this
      ensures Valid() && mq == Step(old(mq), SendLink(t)) && resumed == (old(mq).waiters != [])
    {
      hide Inv, Legal, Shown, Step, Woke;
      StepKeeps(mq, SendLink(t));
      LinkFields(mq, t);
      LinkFrontShown(next, head, tail, freeHead, mq, t);
      next := next[k := head];
      head := k;
      if tail == NULL { tail := k; }
      entry := entry + 1;
      resumed := ResumeFirst();
      mq := Step(mq, SendLink(t));
    }

    /** First section of a receive with a message in the queue. */
    method Unlink(t: Tid, ghost wait: bool, ghost at: nat) returns (k: Slot)
      requires Valid() && Legal(mq, Recv(t, wait, at)) && entry > 0
      modifies this
      ensures Valid() && mq == Step(old(mq), Recv(t, wait, at)) && t in mq.held && mq.held[t].slot == k
    {
      StepKeeps(mq, Recv(t, wait, at));
      UnlinkShown(next, head, tail, freeHead, mq, t, wait, at);
      k := head;
      head := next[k];
      if tail == k { tail := NULL; }
      entry := entry - 1;
      mq := Step(mq, Recv(t, wait, at));
    }

    /** First section of a receive that finds the queue empty: suspend, at a place the queue's flag decides. */
    method Suspend(t: Tid, at: nat)
      requires Valid() && Legal(mq, Recv(t, true, at)) && entry == 0
      modifies this
      ensures Valid() && mq == Step(old(mq), Recv(t, true, at))
    {
      StepKeeps(mq, Recv(t, true, at));
      suspended := suspended[..at] + [t] + suspended[at..];
      mq := Step(mq, Recv(t, true, at));
    }

    /** The copying out and the last section of a receive. */
    method PutSlot(k: Slot, ghost t: Tid) returns (msg: Msg)
      requires Valid() && Legal(mq, RecvDone(t)) && mq.held[t].slot == k
      modifies this
      ensures Valid() && mq == Step(old(mq), RecvDone(t)) && msg == old(mq).held[t].msg
    {
      StepKeeps(mq, RecvDone(t));
      DeliversWhatItTook(mq, t);
      PutShown(next, head, tail, freeHead, mq, t);
      msg := data[k];
      next := next[k := freeHead];
      freeHead := k;
      mq := Step(mq, RecvDone(t));
    }

    /** A receive that finds the queue empty and does not wait. */
    method GiveUp(ghost t: Tid, ghost at: nat)
      requires Valid() && Legal(mq, Recv(t, false, at)) && entry == 0
      modifies this`mq
      ensures Valid() && mq == Step(old(mq), Recv(t, false, at))
    {
      StepKeeps(mq, Recv(t, false, at));
      mq := Step(mq, Recv(t, false, at));
    }

    /** The timer of a suspended receiver takes it off the list. */
    method Expire(t: Tid)
      requires Valid() && Legal(mq, MessageQueues.Expire(t))
      modifies this
      ensures Valid() && mq == Step(old(mq), MessageQueues.Expire(t))
    {
      StepKeeps(mq, MessageQueues.Expire(t));
      suspended := Remove(suspended, t);
      mq := Step(mq, MessageQueues.Expire(t));
    }

    /** rt_ipc_list_resume_all. */
    method ResumeAll()
      modifies this`suspended
      ensures suspended == []
    {
      while suspended != []
        decreases |suspended|
      {
        suspended := suspended[1..];
      }
    }

    method ReleaseHead(ghost s: Mq, ghost done: seq<Slot>, ghost rest: seq<Slot>)
      requires Inv(s) && Releasing(next, head, tail, freeHead, s, done, rest) && rest != []
      modifies this`next, this`head, this`tail, this`freeHead
      ensures Releasing(next, head, tail, freeHead, s, done + [rest[0]], rest[1..])
    {
      ReleaseOne(next, head, tail, freeHead, s, done, rest);
      hide *;
      var k := head;
      head := next[k];
      if tail == k { tail := NULL; }
      next := next[k := freeHead];
      freeHead := k;
    }

    /** Every queued slot goes to the free list, the first first. */
    method ReleaseAll()
      requires Inv(mq) && Shown(next, head, tail, freeHead, mq)
      modifies this`next, this`head, this`tail, this`freeHead
      ensures Shown(next, head, tail, freeHead, Step(mq, MessageQueues.Reset))
    {
      ghost var s, done: seq<Slot>, rest := mq, [], mq.queued;
      NothingReleased(next, head, tail, freeHead, s);
      hide *;
      while head != NULL
        invariant Releasing(next, head, tail, freeHead, s, done, rest) && (head == NULL <==> rest == [])
        decreases |rest|
      {
        ReleaseHead(s, done, rest);
        done, rest := done + [rest[0]], rest[1..];
        RestEmpty(next, head, tail, freeHead, s, done, rest);
      }
      AllReleased(next, head, tail, freeHead, s, done, rest);
    }

    /** RT_IPC_CMD_RESET: everyone resumed with an error, every queued slot released. */
    method Reset()
      requires Valid()
      modifies this
      ensures Valid() && mq == Step(old(mq), MessageQueues.Reset)
    {
      StepKeeps(mq, MessageQueues.Reset);
      hide Inv, Shown;
      ResumeAll();
      ReleaseAll();
      entry := 0;
      mq := Step(mq, MessageQueues.Reset);
    }
  }

  lemma NothingReleased(next: seq<int>, head: int, tail: int, free: int, s: Mq)
    requires Inv(s) && Shown(next, head, tail, free, s)
    ensures Releasing(next, head, tail, free, s, [], s.queued) && (head == NULL <==> s.queued == [])
  {
    assert [] + s.free == s.free && [] + s.queued == s.queued;
    ChainHead(next, head, s.queued);
  }

  /** The queue after a slot was linked, field by field. */
  lemma LinkFields(s: Mq, t: Tid)
    requires Legal(s, SendLink(t))
    ensures var r := Step(s, SendLink(t));
      r.data == s.data && |r.queued| == |s.queued| + 1 && r.waiters == Woke(s).waiters
  {
  }

  lemma RestEmpty(next: seq<int>, head: int, tail: int, free: int, s: Mq, done: seq<Slot>, rest: seq<Slot>)
    requires Releasing(next, head, tail, free, s, done, rest)
    ensures head == NULL <==> rest == []
  {
    ChainHead(next, head, rest);
  }

  lemma AllReleased(next: seq<int>, head: int, tail: int, free: int, s: Mq, done: seq<Slot>, rest: seq<Slot>)
    requires Releasing(next, head, tail, free, s, done, rest) && rest == []
    ensures Shown(next, head, tail, free, Step(s, Reset))
  {
    assert done + rest == done;
  }
}
