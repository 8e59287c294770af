/** rt_timer_check and whole runs of starts, stops and ticks: when a timer fires, and in what order. */
module TimerRuns {
  import opened Lists
  import opened TimerRows
  import opened Timers

  // ----- one turn of the check loop -----

  predicate HeadDue(st: State)
    requires st.rows != []
  {
    Last(st.rows) != [] && Last(st.rows)[0] < |st.timers| && Due(st.now, st.timers[Last(st.rows)[0]].timeout)
  }

  predicate OpsInTable(ops: seq<Op>, n: nat) { forall k :: 0 <= k < |ops| ==> ops[k].id < n }

  function DoAll(st: State, ops: seq<Op>): (r: State)
    requires OpsInTable(ops, |st.timers|) && st.rows != []
    ensures |r.timers| == |st.timers| && |r.rows| == |st.rows| && r.now == st.now
    decreases |ops|
  {
    if ops == [] then st else DoAll(Do(st, ops[0]), ops[1..])
  }

  /** After the timeout function of x: a periodic timer that is still activated starts again. */
  function Rearmed(st: State, x: Tid): (r: State)
    requires x < |st.timers| && st.rows != []
    ensures |r.timers| == |st.timers| && |r.rows| == |st.rows| && r.now == st.now
  {
    if st.timers[x].periodic && st.timers[x].activated then Started(st, x)
    else st.(timers := st.timers[x := st.timers[x].(activated := false)])
  }

  /** Take x off the rows, run its timeout function (which does ops), rearm it. */
  function Turn(st: State, x: Tid, ops: seq<Op>): (r: State)
    requires x < |st.timers| && st.rows != [] && OpsInTable(ops, |st.timers|)
    ensures |r.timers| == |st.timers| && |r.rows| == |st.rows| && r.now == st.now
  {
    Rearmed(DoAll(st.(rows := RemoveAll(st.rows, x)), ops), x)
  }

  // ----- what callers owe -----

  /** The period of a periodic timer is positive, and no timer is longer than the check can tell. */
  predicate Sound(t: Timer) { t.init < HALF && (t.periodic ==> t.init >= 1) }

  predicate AllSound(timers: seq<Timer>) { forall x :: 0 <= x < |timers| ==> Sound(timers[x]) }

  /** An operation that keeps to that; `least` is the shortest time it may start or set: 0 for a thread,
      1 for a timeout function, which runs inside the check. */
  predicate OpOk(timers: seq<Timer>, op: Op, least: nat) {
    && op.id < |timers|
    && match op
       case Start(id) => timers[id].init >= least
       case Stop(_) => true
       case SetTime(id, ticks) => least <= ticks < HALF && (timers[id].periodic ==> ticks >= 1)
       case SetPeriodic(id, on) => on ==> timers[id].init >= 1
  }

  predicate OpsOk(timers: seq<Timer>, ops: seq<Op>) {
    forall k :: 0 <= k < |ops| ==> OpOk(timers, ops[k], 1)
  }

  lemma DoKeeps(st: State, op: Op, lo: int, least: nat)
    requires Valid(st, lo) && -1 <= lo <= least && AllSound(st.timers) && OpOk(st.timers, op, least)
    ensures Valid(Do(st, op), lo) && AllSound(Do(st, op).timers)
  {
    match op
    case Start(id) => StartKeeps(st, id, lo);
    case Stop(id) => StopKeeps(st, id, lo);
    case SetTime(id, ticks) => SameTimeouts(st, Do(st, op).timers, lo);
    case SetPeriodic(id, on) => SameTimeouts(st, Do(st, op).timers, lo);
  }

  /** What a timeout function may do stays allowed whatever it did before. */
  lemma OpsStayOk(st: State, op: Op, ops: seq<Op>)
    requires st.rows != [] && OpOk(st.timers, op, 1) && OpsOk(st.timers, ops)
    ensures OpsOk(Do(st, op).timers, ops)
  {
    var after := Do(st, op).timers;
    assert forall x :: 0 <= x < |after| ==> (st.timers[x].init >= 1 ==> after[x].init >= 1);
  }

  /** The pending timers that are due. */
  function DueSet(st: State): set<Tid>
    requires st.rows != []
  {
    set x | x in Last(st.rows) && At(st.timers, st.now, x) <= 0
  }

  /** Nothing a timeout function may do makes another timer due. */
  lemma DoNotDue(st: State, op: Op)
    requires Valid(st, -1) && AllSound(st.timers) && OpOk(st.timers, op, 1)
    ensures DueSet(Do(st, op)) <= DueSet(st)
  {
    var after := Do(st, op);
    DoLast(st, op);
    forall x | x in DueSet(after)
      ensures x in DueSet(st)
    {
      assert x in Elems(Last(after.rows));
      if op.Start? && x == op.id { StartKeeps(st, x, -1); }
    }
  }

  /** Who is pending after an operation, and when. */
  lemma DoLast(st: State, op: Op)
    requires Valid(st, -1) && AllSound(st.timers) && OpOk(st.timers, op, 0)
    ensures Elems(Last(Do(st, op).rows)) ==
      if op.Start? then Elems(Last(st.rows)) + {op.id}
      else if op.Stop? && st.timers[op.id].activated then Elems(Last(st.rows)) - {op.id}
      else Elems(Last(st.rows))
    ensures forall x :: x != op.id || !op.Start? ==> At(Do(st, op).timers, st.now, x) == At(st.timers, st.now, x)
  {
    match op
    case Start(id) => StartKeeps(st, id, -1);
    case Stop(id) => StopKeeps(st, id, -1);
    case SetTime(_, _) =>
    case SetPeriodic(_, _) =>
  }

  lemma OkInTable(timers: seq<Timer>, ops: seq<Op>)
    requires OpsOk(timers, ops)
    ensures OpsInTable(ops, |timers|)
  {
  }

  lemma {:induction false} DoAllKeeps(st: State, ops: seq<Op>)
    requires Valid(st, -1) && AllSound(st.timers) && OpsOk(st.timers, ops)
    ensures OpsInTable(ops, |st.timers|)
    ensures var r := DoAll(st, ops); Valid(r, -1) && AllSound(r.timers) && DueSet(r) <= DueSet(st)
    decreases |ops|
  {
    OkInTable(st.timers, ops);
    if ops != [] {
      DoKeeps(st, ops[0], -1, 1);
      DoNotDue(st, ops[0]);
      OpsStayOk(st, ops[0], ops[1..]);
      DoAllKeeps(Do(st, ops[0]), ops[1..]);
    }
  }

  lemma RearmKeeps(st: State, x: Tid)
    requires Valid(st, -1) && AllSound(st.timers) && x < |st.timers|
    ensures Valid(Rearmed(st, x), -1) && AllSound(Rearmed(st, x).timers) && DueSet(Rearmed(st, x)) <= DueSet(st)
  {
    if st.timers[x].periodic && st.timers[x].activated {
      assert OpOk(st.timers, Start(x), 1);
      DoKeeps(st, Start(x), -1, 1);
      DoNotDue(st, Start(x));
    } else {
      SameTimeouts(st, Rearmed(st, x).timers, -1);
    }
  }

  /** A turn keeps the rows in order and makes the set of due timers smaller. */
  lemma TurnKeeps(st: State, x: Tid, ops: seq<Op>)
    requires Valid(st, -1) && AllSound(st.timers) && OpsOk(st.timers, ops)
    requires x in DueSet(st)
    ensures x < |st.timers| && OpsInTable(ops, |st.timers|)
    ensures var r := Turn(st, x, ops); Valid(r, -1) && AllSound(r.timers) && DueSet(r) <= DueSet(st) - {x}
  {
    var st1 := st.(rows := RemoveAll(st.rows, x));
    RemoveKeeps(st, x, -1);
    assert DueSet(st1) <= DueSet(st) - {x} by {
      assert forall y :: y in Last(st1.rows) ==> y in Elems(Last(st1.rows));
    }
    DoAllKeeps(st1, ops);
    RearmKeeps(DoAll(st1, ops), x);
  }

  // ----- the check loop -----

  /** The state after the loop, the timers fired in order, and whether the loop came to its end within
      the turns it was given. */
  datatype Outcome = Outcome(st: State, fired: seq<Tid>, ended: bool)

  /** What the timeout functions called in one check do: acts[i] is what the i-th one does. */
  type Acts = seq<seq<Op>>

  predicate ActsOk(timers: seq<Timer>, acts: Acts) { forall k :: 0 <= k < |acts| ==> OpsOk(timers, acts[k]) }

  predicate ActsInTable(acts: Acts, n: nat) { forall k :: 0 <= k < |acts| ==> OpsInTable(acts[k], n) }

  function First(acts: Acts): seq<Op> { if acts == [] then [] else acts[0] }
  function Others(acts: Acts): Acts { if acts == [] then [] else acts[1..] }

  lemma ActsParts(acts: Acts, n: nat)
    requires ActsInTable(acts, n)
    ensures OpsInTable(First(acts), n) && ActsInTable(Others(acts), n)
  {
    if acts != [] { assert OpsInTable(acts[0], n); }
  }

  function CheckFor(st: State, acts: Acts, turns: nat): Outcome
    requires st.rows != [] && ActsInTable(acts, |st.timers|)
    decreases turns
  {
    if !HeadDue(st) then Outcome(st, [], true)
    else if turns == 0 then Outcome(st, [], false)
    else
      ActsParts(acts, |st.timers|);
      var x := Last(st.rows)[0];
      var o := CheckFor(Turn(st, x, First(acts)), Others(acts), turns - 1);
      o.(fired := [x] + o.fired)
  }

  lemma OkActs(timers: seq<Timer>, acts: Acts)
    requires ActsOk(timers, acts)
    ensures ActsInTable(acts, |timers|) && OpsOk(timers, First(acts)) && ActsOk(timers, Others(acts))
  {
  }

  lemma HeadIsDue(st: State)
    requires Valid(st, -1) && HeadDue(st)
    ensures Last(st.rows)[0] in DueSet(st)
  {
    var x := Last(st.rows)[0];
    assert x in Last(st.rows) && At(st.timers, st.now, x) < HALF;
    DueIff(st.now, st.timers[x].timeout);
  }

  /** When the head is not due, no timer is: the rest are later still. */
  lemma NoneDue(st: State)
    requires Valid(st, -1) && !HeadDue(st)
    ensures Valid(st, 1) && DueSet(st) == {}
  {
    var last := Last(st.rows);
    if last != [] {
      assert last[0] in last;
      DueIff(st.now, st.timers[last[0]].timeout);
      assert forall i :: 0 < i < |last| ==> At(st.timers, st.now, last[0]) <= At(st.timers, st.now, last[i]);
      assert forall x :: x in last ==> At(st.timers, st.now, x) >= 1;
    }
  }

  lemma {:induction false} DoAllOk(st: State, ops: seq<Op>, more: seq<Op>)
    requires Valid(st, -1) && AllSound(st.timers) && OpsOk(st.timers, ops) && OpsOk(st.timers, more)
    ensures OpsInTable(ops, |st.timers|) && OpsOk(DoAll(st, ops).timers, more)
    decreases |ops|
  {
    OkInTable(st.timers, ops);
    if ops != [] {
      DoKeeps(st, ops[0], -1, 1);
      OpsStayOk(st, ops[0], ops[1..]);
      OpsStayOk(st, ops[0], more);
      DoAllOk(Do(st, ops[0]), ops[1..], more);
    }
  }

  lemma TurnActsOk(st: State, x: Tid, ops: seq<Op>, acts: Acts)
    requires Valid(st, -1) && AllSound(st.timers) && OpsOk(st.timers, ops) && ActsOk(st.timers, acts) && x < |st.timers|
    ensures OpsInTable(ops, |st.timers|) && ActsOk(Turn(st, x, ops).timers, acts)
  {
    var st1 := st.(rows := RemoveAll(st.rows, x));
    RemoveKeeps(st, x, -1);
    OkInTable(st.timers, ops);
    forall k | 0 <= k < |acts|
      ensures OpsOk(Turn(st, x, ops).timers, acts[k])
    {
      DoAllOk(st1, ops, acts[k]);
      RearmOk(DoAll(st1, ops), x, acts[k]);
    }
  }

  lemma RearmOk(st: State, x: Tid, ops: seq<Op>)
    requires x < |st.timers| && st.rows != [] && OpsOk(st.timers, ops)
    ensures OpsOk(Rearmed(st, x).timers, ops)
  {
    var after := Rearmed(st, x).timers;
    assert forall y :: 0 <= y < |after| ==>
        after[y].init == st.timers[y].init && after[y].periodic == st.timers[y].periodic;
  }

  /** What a turn of the loop leaves for the next. */
  lemma NextTurn(st: State, acts: Acts)
    requires Valid(st, -1) && AllSound(st.timers) && ActsOk(st.timers, acts) && HeadDue(st)
    ensures ActsInTable(acts, |st.timers|)
    ensures var x := Last(st.rows)[0]; var r := Turn(st, x, First(acts));
      x in DueSet(st) && Valid(r, -1) && AllSound(r.timers) && ActsOk(r.timers, Others(acts))
      && DueSet(r) <= DueSet(st) - {x} && |r.timers| == |st.timers| && |r.rows| == |st.rows| && r.now == st.now
  {
    var x := Last(st.rows)[0];
    OkActs(st.timers, acts);
    HeadIsDue(st);
    TurnKeeps(st, x, First(acts));
    TurnActsOk(st, x, First(acts), Others(acts));
  }

  lemma SmallerDue(a: set<Tid>, b: set<Tid>, x: Tid)
    requires a <= b - {x} && x in b
    ensures |a| < |b|
  {
    SubsetSize(a, b - {x});
  }

  lemma {:induction false} SubsetSize(a: set<Tid>, b: set<Tid>)
    requires a <= b
    ensures |a| <= |b|
  {
    if a != {} {
      var x :| x in a;
      SubsetSize(a - {x}, b - {x});
    }
  }

  /** A turn, then the rest of the loop. */
  lemma CheckOne(st: State, acts: Acts, turns: nat)
    requires st.rows != [] && ActsInTable(acts, |st.timers|) && HeadDue(st) && turns > 0
    ensures OpsInTable(First(acts), |st.timers|) && ActsInTable(Others(acts), |st.timers|)
    ensures var x := Last(st.rows)[0]; var o := CheckFor(Turn(st, x, First(acts)), Others(acts), turns - 1);
      CheckFor(st, acts, turns) == o.(fired := [x] + o.fired)
  {
    ActsParts(acts, |st.timers|);
    hide Turn;
  }

  /** The loop came to its end: no timer is due, the rows are in order, at most n timers were fired. */
  predicate EndedWell(o: Outcome, n: nat) {
    o.ended && Valid(o.st, 1) && AllSound(o.st.timers) && |o.fired| <= n
  }

  lemma EndedOneMore(o: Outcome, x: Tid, n: nat, m: nat)
    requires EndedWell(o, n) && n < m
    ensures EndedWell(o.(fired := [x] + o.fired), m)
  {
    hide Valid, AllSound;
  }

  /** The check loop ends, whatever the timeout functions do, as long as periods are positive and no
      timeout function starts a timer of zero ticks: each turn leaves fewer timers due.  It ends with no
      timer due. */
  lemma {:induction false} CheckEnds(st: State, acts: Acts, turns: nat)
    requires Valid(st, -1) && AllSound(st.timers) && ActsOk(st.timers, acts) && |DueSet(st)| <= turns
    ensures ActsInTable(acts, |st.timers|) && EndedWell(CheckFor(st, acts, turns), |DueSet(st)|)
    decreases turns
  {
    OkActs(st.timers, acts);
    hide *;
    if HeadDue(st) {
      NextTurn(st, acts);
      var x := Last(st.rows)[0];
      var st1 := Turn(st, x, First(acts));
      SmallerDue(DueSet(st1), DueSet(st), x);
      CheckOne(st, acts, turns);
      CheckEnds(st1, Others(acts), turns - 1);
      EndedOneMore(CheckFor(st1, Others(acts), turns - 1), x, |DueSet(st1)|, |DueSet(st)|);
    } else {
      CheckNone(st, acts, turns);
    }
  }

  lemma CheckNone(st: State, acts: Acts, turns: nat)
    requires Valid(st, -1) && AllSound(st.timers) && ActsInTable(acts, |st.timers|) && !HeadDue(st)
    ensures EndedWell(CheckFor(st, acts, turns), |DueSet(st)|)
  {
    NoneDue(st);
    hide Valid, AllSound, ActsInTable;
  }
}
