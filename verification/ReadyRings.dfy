/** The ready queues as circular lists through the tlist of each thread, with a head for each priority, and the
    ready group as a word that masks are put into and taken out of. */
module ReadyRings {
  import opened Lists
  import opened LinkedRings
  import opened ReadyBits
  import opened Schedulers

  // ----- masks -----

  /** v | m and v & ~m, bit by bit. */
  function Or(v: nat, m: nat): nat
    decreases v + m
  {
    if v == 0 then m else if m == 0 then v
    else (if v % 2 == 1 || m % 2 == 1 then 1 else 0) + 2 * Or(v / 2, m / 2)
  }

  function AndNot(v: nat, m: nat): nat
    decreases v
  {
    if v == 0 then 0 else (if v % 2 == 1 && m % 2 == 0 then 1 else 0) + 2 * AndNot(v / 2, m / 2)
  }

  lemma PowHalf(k: nat)
    requires k > 0
    ensures Pow2(k) > 1 && Pow2(k) % 2 == 0 && Pow2(k) / 2 == Pow2(k - 1)
  {
    PowPositive(k - 1);
    var h := Pow2(k - 1);
    assert Pow2(k) == 2 * h;
    Half(h);
  }

  lemma Half(h: nat)
    ensures 2 * h % 2 == 0 && 2 * h / 2 == h
  {
  }

  lemma {:induction false} PowPositive(k: nat)
    ensures Pow2(k) >= 1
  {
    if k > 0 { PowPositive(k - 1); }
  }

  lemma {:induction false} SetZero(k: nat)
    ensures SetBit(0, k) == Pow2(k)
  {
    if k > 0 { SetZero(k - 1); }
  }

  lemma OrZero(v: nat)
    ensures Or(v, 0) == v
  {
  }

  lemma {:induction false} AndNotZero(v: nat)
    ensures AndNot(v, 0) == v
  {
    if v > 0 { AndNotZero(v / 2); }
  }

  lemma {:induction false} ClearZero(k: nat)
    ensures ClearBit(0, k) == 0
  {
    if k > 0 { ClearZero(k - 1); }
  }

  /** The mask of a priority has its bit and no other. */
  lemma {:induction false} OrIsSet(v: nat, k: nat)
    ensures Or(v, Pow2(k)) == SetBit(v, k)
    decreases k
  {
    if v == 0 {
      SetZero(k);
    } else if k == 0 {
      OrZero(v / 2);
    } else {
      PowHalf(k);
      OrIsSet(v / 2, k - 1);
    }
  }

  lemma {:induction false} AndNotIsClear(v: nat, k: nat)
    ensures AndNot(v, Pow2(k)) == ClearBit(v, k)
    decreases k
  {
    if v == 0 {
      ClearZero(k);
    } else if k == 0 {
      AndNotZero(v / 2);
    } else {
      PowHalf(k);
      AndNotIsClear(v / 2, k - 1);
    }
  }

  // ----- rings -----

  /** The list head of a priority; the node of a thread is its number. */
  function Head(p: nat): Node { -1 - p }

  function Cycle(p: nat, q: seq<Tid>): seq<Node> { [Head(p)] + q }

  predicate RingAt(next: Links, prev: Links, queues: seq<seq<Tid>>, p: nat)
    requires p < |queues|
  {
    Ring(next, prev, Cycle(p, queues[p]))
  }

  /** Every queue is a ring from its head round; a thread that is in no list is linked to itself. */
  predicate Linked(next: Links, prev: Links, queues: seq<seq<Tid>>, threads: seq<Tcb>) {
    && (forall p :: 0 <= p < |queues| ==> RingAt(next, prev, queues, p))
    && (forall t :: 0 <= t < |threads| ==> t in next && t in prev && Loose(next, prev, threads, t))
  }

  predicate Loose(next: Links, prev: Links, threads: seq<Tcb>, t: Tid)
    requires t < |threads| && t in next && t in prev
  {
    threads[t].stat == Suspended || threads[t].stat == Init ==> next[t] == t && prev[t] == t
  }

  lemma RingFrame(next: Links, prev: Links, next2: Links, prev2: Links, s: seq<Node>)
    requires Ring(next, prev, s)
    requires forall x :: x in s ==>
      x in next && x in prev && x in next2 && x in prev2 && next2[x] == next[x] && prev2[x] == prev[x]
    ensures Ring(next2, prev2, s)
  {
    forall i | 0 <= i < |s|
      ensures LinkedAt(next2, prev2, s, i)
    {
      var x := s[i];
      assert x in s && LinkedAt(next, prev, s, i);
      assert x in next2 && x in prev2 && next2[x] == next[x] && prev2[x] == prev[x];
    }
  }

  /** Queues have no thread in common, and a thread that is not ready is in none. */
  lemma InOneQueue(s: Sched, p: nat, t: Tid)
    requires Queues(s) && p < PRIORITY_MAX && t in s.queues[p]
    ensures t < |s.threads| && s.threads[t].stat == Ready && s.threads[t].prio == p
  {
    assert QueueOk(s.queues, s.group, |s.threads|, p);
    assert Placed(s.queues, s.threads, p, t);
  }

  /** What rt_list_isempty and the first entry of a queue are read from. */
  lemma HeadLinks(next: Links, prev: Links, p: nat, q: seq<Tid>)
    requires Ring(next, prev, Cycle(p, q))
    ensures Head(p) in next && Head(p) in prev
    ensures next[Head(p)] == (if q == [] then Head(p) else q[0])
      && prev[Head(p)] == (if q == [] then Head(p) else q[|q| - 1])
  {
    assert LinkedAt(next, prev, Cycle(p, q), 0);
  }

  lemma TailOf(p: nat, q: seq<Tid>)
    ensures Cycle(p, q)[|q|] == (if q == [] then Head(p) else q[|q| - 1])
    ensures forall t: Tid :: Inserted(Cycle(p, q), |q|, t) == Cycle(p, q + [t])
  {
    forall t: Tid
      ensures Inserted(Cycle(p, q), |q|, t) == Cycle(p, q + [t])
    {
    }
  }

  // ----- rt_list_insert_before the head of a queue -----

  function BeforeNext(next: Links, prev: Links, h: Node, t: Node): Links
    requires h in prev
  {
    next[prev[h] := t][t := h]
  }

  function BeforePrev(prev: Links, h: Node, t: Node): Links
    requires h in prev
  {
    prev[t := prev[h]][h := t]
  }

  lemma InsertedOwn(next: Links, prev: Links, p: nat, q: seq<Tid>, t: Tid)
    requires Ring(next, prev, Cycle(p, q)) && t !in q
    ensures Head(p) in prev
    ensures Ring(BeforeNext(next, prev, Head(p), t), BeforePrev(prev, Head(p), t), Cycle(p, q + [t]))
  {
    HeadLinks(next, prev, p, q);
    TailOf(p, q);
    var l := Cycle(p, q)[|q|];
    assert LinkedAt(next, prev, Cycle(p, q), |q|);
    InsertRing(next, prev, Cycle(p, q), |q|, t);
    assert next[l] == Head(p) && prev[Head(p)] == l;
    assert InsertNext(next, l, t) == BeforeNext(next, prev, Head(p), t);
    assert InsertPrev(next, prev, l, t) == BeforePrev(prev, Head(p), t);
  }

  lemma InsertedOther(next: Links, prev: Links, p: nat, q: seq<Tid>, t: Tid, o: nat, other: seq<Tid>)
    requires Ring(next, prev, Cycle(p, q)) && Ring(next, prev, Cycle(o, other)) && o != p && t !in other
    requires forall x :: x in other ==> x !in q
    ensures Head(p) in prev
    ensures Ring(BeforeNext(next, prev, Head(p), t), BeforePrev(prev, Head(p), t), Cycle(o, other))
  {
    HeadLinks(next, prev, p, q);
    var next2, prev2 := BeforeNext(next, prev, Head(p), t), BeforePrev(prev, Head(p), t);
    var c := Cycle(o, other);
    forall x | x in c
      ensures x in next2 && x in prev2 && next2[x] == next[x] && prev2[x] == prev[x]
    {
      var i :| 0 <= i < |c| && c[i] == x;
      assert LinkedAt(next, prev, c, i);
    }
    RingFrame(next, prev, next2, prev2, c);
  }

  lemma InsertedLoose(next: Links, prev: Links, s: Sched, t: Tid, u: Tid)
    requires Queues(s) && t < |s.threads| && u < |s.threads| && Linked(next, prev, s.queues, s.threads)
    ensures var h := Head(s.threads[t].prio); var r := Readied(s, t);
      h in prev && u in BeforeNext(next, prev, h, t) && u in BeforePrev(prev, h, t)
      && Loose(BeforeNext(next, prev, h, t), BeforePrev(prev, h, t), r.threads, u)
  {
    var p := s.threads[t].prio;
    assert RingAt(next, prev, s.queues, p);
    HeadLinks(next, prev, p, s.queues[p]);
    assert Loose(next, prev, s.threads, u);
    if s.queues[p] != [] { InOneQueue(s, p, s.queues[p][|s.queues[p]| - 1]); }
    hide SetBit;
  }

  /** rt_schedule_insert_thread on the links. */
  lemma InsertLinked(next: Links, prev: Links, s: Sched, t: Tid)
    requires Queues(s) && t < |s.threads| && s.threads[t].stat != Ready && Linked(next, prev, s.queues, s.threads)
    ensures var h := Head(s.threads[t].prio); var r := Readied(s, t);
      h in prev && Linked(BeforeNext(next, prev, h, t), BeforePrev(prev, h, t), r.queues, r.threads)
  {
    var p := s.threads[t].prio;
    assert RingAt(next, prev, s.queues, p);
    HeadLinks(next, prev, p, s.queues[p]);
    var next2, prev2, r := BeforeNext(next, prev, Head(p), t), BeforePrev(prev, Head(p), t), Readied(s, t);
    hide SetBit, Ring, BeforeNext, BeforePrev;
    forall o | 0 <= o < |r.queues|
      ensures RingAt(next2, prev2, r.queues, o)
    {
      assert RingAt(next, prev, s.queues, o);
      NotIn(s, o, t);
      if o == p {
        InsertedOwn(next, prev, p, s.queues[p], t);
      } else {
        ApartQueues(s, o, p);
        InsertedOther(next, prev, p, s.queues[p], t, o, s.queues[o]);
      }
    }
    forall u | 0 <= u < |r.threads|
      ensures u in next2 && u in prev2 && Loose(next2, prev2, r.threads, u)
    {
      InsertedLoose(next, prev, s, t, u);
    }
  }

  lemma NotIn(s: Sched, p: nat, t: Tid)
    requires Queues(s) && p < PRIORITY_MAX && t < |s.threads| && s.threads[t].stat != Ready
    ensures t !in s.queues[p]
  {
    if t in s.queues[p] { InOneQueue(s, p, t); }
  }

  lemma ApartQueues(s: Sched, o: nat, p: nat)
    requires Queues(s) && o < PRIORITY_MAX && p < PRIORITY_MAX && o != p
    ensures forall x :: x in s.queues[o] ==> x !in s.queues[p]
  {
    forall x | x in s.queues[o] && x in s.queues[p]
      ensures false
    {
      InOneQueue(s, o, x);
      InOneQueue(s, p, x);
    }
  }

  // ----- rt_list_remove -----

  function OutNext(next: Links, prev: Links, t: Node): Links
    requires t in next && t in prev
  {
    next[prev[t] := next[t]][t := t]
  }

  function OutPrev(next: Links, prev: Links, t: Node): Links
    requires t in next && t in prev
  {
    prev[next[t] := prev[t]][t := t]
  }

  /** A node linked to itself stays so. */
  lemma LooseOut(next: Links, prev: Links, t: Node)
    requires t in next && t in prev && next[t] == t && prev[t] == t
    ensures OutNext(next, prev, t) == next && OutPrev(next, prev, t) == prev
  {
  }

  lemma {:induction false} RemoveIsRemoved(q: seq<Tid>, i: nat)
    requires i < |q| && Distinct(q)
    ensures Remove(q, q[i]) == q[..i] + q[i + 1..]
  {
    if i > 0 {
      assert q[1..][i - 1] == q[i];
      RemoveIsRemoved(q[1..], i - 1);
      assert [q[0]] + (q[1..][..i - 1] + q[1..][i..]) == q[..i] + q[i + 1..];
    }
  }

  /** Where a thread of a queue is on its ring, and what rt_thread_yield tests. */
  lemma NodeAt(next: Links, prev: Links, p: nat, q: seq<Tid>, t: Tid)
    requires Ring(next, prev, Cycle(p, q)) && t in q
    ensures var i := IndexOf(q, t); Cycle(p, q)[i + 1] == t && LinkedAt(next, prev, Cycle(p, q), i + 1) && Distinct(q)
    ensures t in next && t in prev && prev[t] in Cycle(p, q) && next[t] in Cycle(p, q)
  {
    var c, i := Cycle(p, q), IndexOf(q, t);
    QueueDistinct(p, q);
    assert c[i + 1] == t && LinkedAt(next, prev, c, i + 1);
    assert prev[t] == c[i] && next[t] == c[if i + 2 < |c| then i + 2 else 0];
  }

  lemma AloneIff(next: Links, prev: Links, p: nat, q: seq<Tid>, t: Tid)
    requires Ring(next, prev, Cycle(p, q)) && t in q
    ensures t in next && t in prev && (next[t] != prev[t] <==> |q| > 1)
  {
    var c, i := Cycle(p, q), IndexOf(q, t);
    NodeAt(next, prev, p, q, t);
    assert prev[t] == c[i] && next[t] == c[if i + 2 < |c| then i + 2 else 0];
  }

  lemma RemovedOwn(next: Links, prev: Links, p: nat, q: seq<Tid>, t: Tid)
    requires Ring(next, prev, Cycle(p, q)) && t in q
    ensures t in next && t in prev
    ensures Ring(OutNext(next, prev, t), OutPrev(next, prev, t), Cycle(p, Remove(q, t)))
  {
    var c, i := Cycle(p, q), IndexOf(q, t);
    NodeAt(next, prev, p, q, t);
    RemoveRing(next, prev, c, i + 1);
    RemoveIsRemoved(q, i);
    assert Removed(c, i + 1) == Cycle(p, Remove(q, t));
    RemovedAt(c, i + 1);
    hide Cycle, Remove, IndexOf, Removed;
    AlsoLoose(RemoveNext(next, prev, t), RemovePrev(next, prev, t), Cycle(p, Remove(q, t)), t);
  }

  lemma AlsoLoose(next: Links, prev: Links, s: seq<Node>, t: Node)
    requires Ring(next, prev, s) && t !in s
    ensures Ring(next[t := t], prev[t := t], s)
  {
    forall x | x in s
      ensures x in next && x in prev
    {
      var i :| 0 <= i < |s| && s[i] == x;
      assert LinkedAt(next, prev, s, i);
    }
    RingFrame(next, prev, next[t := t], prev[t := t], s);
  }

  lemma QueueDistinct(p: nat, q: seq<Tid>)
    requires Distinct(Cycle(p, q))
    ensures Distinct(q)
  {
    forall i, j | 0 <= i < j < |q|
      ensures q[i] != q[j]
    {
      assert Cycle(p, q)[i + 1] == q[i] && Cycle(p, q)[j + 1] == q[j];
    }
  }

  lemma RemovedOther(next: Links, prev: Links, p: nat, q: seq<Tid>, t: Tid, o: nat, other: seq<Tid>)
    requires Ring(next, prev, Cycle(p, q)) && t in q && Ring(next, prev, Cycle(o, other)) && o != p
    requires forall x :: x in other ==> x !in q
    ensures t in next && t in prev && Ring(OutNext(next, prev, t), OutPrev(next, prev, t), Cycle(o, other))
  {
    NodeAt(next, prev, p, q, t);
    var c := Cycle(o, other);
    forall x | x in c
      ensures x in next && x in prev && x !in Cycle(p, q)
    {
      var i :| 0 <= i < |c| && c[i] == x;
      assert LinkedAt(next, prev, c, i);
    }
    RingFrame(next, prev, OutNext(next, prev, t), OutPrev(next, prev, t), c);
  }

  /** A thread that is ready, or in no list. */
  predicate Removable(s: Sched, t: Tid) {
    t < |s.threads| && (s.threads[t].stat == Ready || s.threads[t].stat == Suspended)
  }

  /** rt_schedule_remove_thread on the links: a thread that is in no queue stays alone. */
  lemma RemoveLinked(next: Links, prev: Links, s: Sched, t: Tid, stat: Stat)
    requires Queues(s) && Removable(s, t) && stat != Ready && Linked(next, prev, s.queues, s.threads)
    ensures var r := Stopped(s, t, stat);
      t in next && t in prev && Linked(OutNext(next, prev, t), OutPrev(next, prev, t), r.queues, r.threads)
  {
    if s.threads[t].stat == Ready {
      RemoveReady(next, prev, s, t, stat);
    } else {
      RemoveLoose(next, prev, s, t, stat);
    }
  }

  lemma {:induction false} RemoveAbsent(q: seq<Tid>, t: Tid)
    requires t !in q
    ensures Remove(q, t) == q
  {
    if q != [] {
      RemoveAbsent(q[1..], t);
      assert [q[0]] + q[1..] == q;
    }
  }

  lemma RemoveLoose(next: Links, prev: Links, s: Sched, t: Tid, stat: Stat)
    requires Queues(s) && t < |s.threads| && s.threads[t].stat == Suspended && stat != Ready
      && Linked(next, prev, s.queues, s.threads)
    ensures var r := Stopped(s, t, stat);
      t in next && t in prev && Linked(OutNext(next, prev, t), OutPrev(next, prev, t), r.queues, r.threads)
  {
    var r, p := Stopped(s, t, stat), s.threads[t].prio;
    assert Loose(next, prev, s.threads, t);
    LooseOut(next, prev, t);
    NotIn(s, p, t);
    RemoveAbsent(s.queues[p], t);
    assert r.queues == s.queues;
    hide ClearBit, Ring, Remove, OutNext, OutPrev;
    forall u | 0 <= u < |r.threads|
      ensures u in next && u in prev && Loose(next, prev, r.threads, u)
    {
      assert Loose(next, prev, s.threads, u);
    }
    forall o | 0 <= o < |r.queues|
      ensures RingAt(next, prev, r.queues, o)
    {
      assert RingAt(next, prev, s.queues, o);
    }
  }

  lemma RemoveReady(next: Links, prev: Links, s: Sched, t: Tid, stat: Stat)
    requires Queues(s) && t < |s.threads| && s.threads[t].stat == Ready && Linked(next, prev, s.queues, s.threads)
    ensures var r := Stopped(s, t, stat);
      t in next && t in prev && Linked(OutNext(next, prev, t), OutPrev(next, prev, t), r.queues, r.threads)
  {
    var p := s.threads[t].prio;
    var next2, prev2, r := OutNext(next, prev, t), OutPrev(next, prev, t), Stopped(s, t, stat);
    assert RingAt(next, prev, s.queues, p) && Placed(s.queues, s.threads, p, t);
    RemovedOwn(next, prev, p, s.queues[p], t);
    hide ClearBit, Ring, OutNext, OutPrev, Remove;
    forall o | 0 <= o < |r.queues|
      ensures RingAt(next2, prev2, r.queues, o)
    {
      assert RingAt(next, prev, s.queues, o);
      if o != p {
        ApartQueues(s, o, p);
        RemovedOther(next, prev, p, s.queues[p], t, o, s.queues[o]);
      }
    }
    forall u | 0 <= u < |r.threads|
      ensures u in next2 && u in prev2 && Loose(next2, prev2, r.threads, u)
    {
      RemovedLoose(next, prev, s, t, stat, u);
    }
  }

  lemma RemovedLoose(next: Links, prev: Links, s: Sched, t: Tid, stat: Stat, u: Tid)
    requires Queues(s) && t < |s.threads| && s.threads[t].stat == Ready && u < |s.threads|
      && Linked(next, prev, s.queues, s.threads)
    ensures t in next && t in prev && u in OutNext(next, prev, t) && u in OutPrev(next, prev, t)
    ensures Loose(OutNext(next, prev, t), OutPrev(next, prev, t), Stopped(s, t, stat).threads, u)
  {
    var p := s.threads[t].prio;
    assert RingAt(next, prev, s.queues, p) && Placed(s.queues, s.threads, p, t);
    NodeAt(next, prev, p, s.queues[p], t);
    assert Loose(next, prev, s.threads, u);
    if u in s.queues[p] { InOneQueue(s, p, u); }
    assert u >= 0 > Head(p);
    hide ClearBit, Ring, Remove;
  }

  // ----- other changes -----

  /** A change of priority, or the start of a thread, moves no link. */
  lemma RetunedLinked(next: Links, prev: Links, s: Sched, t: Tid, u: Tcb)
    requires t < |s.threads| && Linked(next, prev, s.queues, s.threads)
    requires u.stat == s.threads[t].stat || (s.threads[t].stat == Init && u.stat == Suspended)
    ensures Linked(next, prev, s.queues, s.threads[t := u])
  {
    var threads := s.threads[t := u];
    forall x | 0 <= x < |threads|
      ensures x in next && x in prev && Loose(next, prev, threads, x)
    {
      assert Loose(next, prev, s.threads, x);
    }
  }

  /** Taking the running thread off its queue and putting it back at the end. */
  lemma RotateLinked(next: Links, prev: Links, s: Sched, t: Tid)
    requires Queues(s) && t < |s.threads| && s.threads[t].stat == Ready && Linked(next, prev, s.queues, s.threads)
    requires s.current == t && CanRotate(s)
    ensures t in next && t in prev && Head(s.threads[t].prio) in OutPrev(next, prev, t)
    ensures var n, v, h := OutNext(next, prev, t), OutPrev(next, prev, t), Head(s.threads[t].prio);
      Linked(BeforeNext(n, v, h, t), BeforePrev(v, h, t), Rotated(s).queues, Rotated(s).threads)
  {
    var s1 := Stopped(s, t, Suspended);
    RemoveLinked(next, prev, s, t, Suspended);
    StoppedKeeps(s, t, Suspended);
    assert s1.threads[t].stat == Suspended && s1.threads[t].prio == s.threads[t].prio;
    InsertLinked(OutNext(next, prev, t), OutPrev(next, prev, t), s1, t);
    var r := Readied(s1, t);
    assert r.queues == Rotated(s).queues && r.threads == s.threads;
  }

  /** Nobody is ready: every node is linked to itself. */
  lemma NoneLinked(n: nat, threads: seq<Tcb>)
    requires |threads| == n && forall t :: 0 <= t < n ==> threads[t].stat != Ready
    ensures Linked(Selves(n), Selves(n), seq(PRIORITY_MAX, _ => []), threads)
  {
    var queues: seq<seq<Tid>> := seq(PRIORITY_MAX, _ => []);
    forall p | 0 <= p < |queues|
      ensures RingAt(Selves(n), Selves(n), queues, p)
    {
      assert queues[p] == [] && Cycle(p, queues[p]) == [Head(p)];
    }
  }

  /** rt_list_init for every node below n. */
  function Selves(n: int): (links: Links)
    requires n >= -PRIORITY_MAX
    ensures forall x :: x in links <==> -PRIORITY_MAX <= x < n
    ensures forall x :: x in links ==> links[x] == x
    decreases n + PRIORITY_MAX
  {
    if n == -PRIORITY_MAX then map[] else Selves(n - 1)[n - 1 := n - 1]
  }

  // ----- masks of threads -----

  /** number_mask has the bit of the current priority, from the start of a thread on. */
  predicate Masks(threads: seq<Tcb>, masks: seq<nat>) {
    |masks| == |threads| && forall t :: 0 <= t < |threads| && threads[t].stat != Init ==>
      masks[t] == Pow2(threads[t].prio)
  }
}
