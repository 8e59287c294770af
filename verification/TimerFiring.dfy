/** Exact firing: a timer left alone fires when its tick comes, not before, and once, across the wrap of the
    tick and whatever other timers do. */
module TimerFiring {
  import opened Lists
  import opened TimerRows
  import opened Timers
  import opened TimerRuns

  // ----- leaving a timer alone -----

  /** Neither started nor stopped; its period and kind may be changed. */
  predicate SparesOp(op: Op, x: Tid) { op.id == x ==> !op.Start? && !op.Stop? }

  predicate Spares(ops: seq<Op>, x: Tid) { forall k :: 0 <= k < |ops| ==> SparesOp(ops[k], x) }

  predicate ActsSpare(acts: Acts, x: Tid) { forall k :: 0 <= k < |acts| ==> Spares(acts[k], x) }

  predicate Pending(st: State, x: Tid) { st.rows != [] && x < |st.timers| && x in Last(st.rows) }

  /** Pending in one state as in the other, for the same tick. */
  predicate SamePending(st: State, st1: State, x: Tid) {
    Pending(st1, x) == Pending(st, x) && |st1.timers| == |st.timers|
    && (x < |st.timers| ==> st1.timers[x].timeout == st.timers[x].timeout)
  }

  lemma SparedByOp(st: State, op: Op, x: Tid)
    requires Valid(st, -1) && AllSound(st.timers) && OpOk(st.timers, op, 0) && SparesOp(op, x)
    ensures SamePending(st, Do(st, op), x)
  {
    DoLast(st, op);
    assert x in Last(Do(st, op).rows) <==> x in Elems(Last(Do(st, op).rows));
    assert x in Last(st.rows) <==> x in Elems(Last(st.rows));
  }

  lemma OkForThread(timers: seq<Timer>, op: Op)
    requires OpOk(timers, op, 1)
    ensures OpOk(timers, op, 0)
  {
  }

  lemma {:induction false} SparedByAll(st: State, ops: seq<Op>, x: Tid)
    requires Valid(st, -1) && AllSound(st.timers) && OpsOk(st.timers, ops) && Spares(ops, x)
    ensures OpsInTable(ops, |st.timers|) && SamePending(st, DoAll(st, ops), x)
    decreases |ops|
  {
    OkInTable(st.timers, ops);
    if ops != [] {
      OkForThread(st.timers, ops[0]);
      SparedByOp(st, ops[0], x);
      DoKeeps(st, ops[0], -1, 1);
      OpsStayOk(st, ops[0], ops[1..]);
      hide Valid, AllSound, Do, SparesOp;
      SparedByAll(Do(st, ops[0]), ops[1..], x);
    }
  }

  lemma RemovedOther(st: State, y: Tid, x: Tid)
    requires Valid(st, -1) && x != y
    ensures SamePending(st, st.(rows := RemoveAll(st.rows, y)), x)
  {
    RemoveKeeps(st, y, -1);
    var after := Last(RemoveAll(st.rows, y));
    assert x in after <==> x in Elems(after);
  }

  lemma RearmedOther(st: State, y: Tid, x: Tid)
    requires Valid(st, -1) && AllSound(st.timers) && x != y && y < |st.timers|
    ensures SamePending(st, Rearmed(st, y), x)
  {
    if st.timers[y].periodic && st.timers[y].activated {
      SparedByOp(st, Start(y), x);
    }
  }

  /** Firing another timer. */
  lemma SparedByTurn(st: State, y: Tid, ops: seq<Op>, x: Tid)
    requires Valid(st, -1) && AllSound(st.timers) && OpsOk(st.timers, ops) && Spares(ops, x) && x != y
      && y < |st.timers|
    ensures OpsInTable(ops, |st.timers|) && SamePending(st, Turn(st, y, ops), x)
  {
    RemovedOther(st, y, x);
    RemoveKeeps(st, y, -1);
    var st1 := st.(rows := RemoveAll(st.rows, y));
    SparedByAll(st1, ops, x);
    DoAllKeeps(st1, ops);
    RearmedOther(DoAll(st1, ops), y, x);
  }

  lemma SparesParts(acts: Acts, x: Tid)
    requires ActsSpare(acts, x)
    ensures Spares(First(acts), x) && ActsSpare(Others(acts), x)
  {
    if acts != [] { assert Spares(acts[0], x); }
  }

  function Fires(fired: seq<Tid>, x: Tid): nat { multiset(fired)[x] }

  lemma FiresCons(y: Tid, fired: seq<Tid>, x: Tid)
    ensures Fires([y] + fired, x) == (if y == x then 1 else 0) + Fires(fired, x)
  {
  }

  predicate DueNow(st: State, x: Tid) { st.rows != [] && x in DueSet(st) }

  /** A check that may begin, with timeout functions that leave x alone. */
  predicate Quiet(st: State, acts: Acts, x: Tid) {
    Valid(st, -1) && AllSound(st.timers) && ActsOk(st.timers, acts) && ActsSpare(acts, x)
  }

  function Next(st: State, acts: Acts): State
    requires st.rows != [] && HeadDue(st) && ActsInTable(acts, |st.timers|)
  {
    ActsParts(acts, |st.timers|);
    Turn(st, Last(st.rows)[0], First(acts))
  }

  lemma QuietInTable(st: State, acts: Acts, x: Tid)
    requires Quiet(st, acts, x)
    ensures st.rows != [] && ActsInTable(acts, |st.timers|)
  {
    OkActs(st.timers, acts);
  }

  /** One turn of the loop, as far as x is concerned. */
  lemma QuietTurn(st: State, acts: Acts, x: Tid)
    requires Quiet(st, acts, x) && st.rows != [] && HeadDue(st) && ActsInTable(acts, |st.timers|)
    ensures var st1, y := Next(st, acts), Last(st.rows)[0];
      && Quiet(st1, Others(acts), x) && st1.rows != [] && st1.now == st.now && |st1.timers| == |st.timers|
      && ActsInTable(Others(acts), |st.timers|)
      && DueNow(st, y) && |DueSet(st1)| < |DueSet(st)|
      && (if x == y then !DueNow(st1, x) else SamePending(st, st1, x) && (DueNow(st1, x) <==> DueNow(st, x)))
  {
    var st1, y := Next(st, acts), Last(st.rows)[0];
    OkActs(st.timers, acts);
    SparesParts(acts, x);
    NextTurn(st, acts);
    ActsParts(acts, |st.timers|);
    SmallerDue(DueSet(st1), DueSet(st), y);
    if x == y {
      FiredNotDue(st, x, First(acts));
    } else {
      SparedByTurn(st, y, First(acts), x);
      StillDue(st, st1, x);
    }
  }

  lemma StillDue(st: State, st1: State, x: Tid)
    requires SamePending(st, st1, x) && st1.now == st.now && st.rows != [] && st1.rows != []
    requires InTable(Last(st.rows), |st.timers|) && InTable(Last(st1.rows), |st.timers|)
    ensures DueNow(st1, x) <==> DueNow(st, x)
  {
  }

  /** A timer just fired is not due any more: it is off the rows, or a full period ahead. */
  lemma FiredNotDue(st: State, x: Tid, ops: seq<Op>)
    requires Valid(st, -1) && AllSound(st.timers) && OpsOk(st.timers, ops) && DueNow(st, x)
    ensures x < |st.timers| && OpsInTable(ops, |st.timers|) && !DueNow(Turn(st, x, ops), x)
  {
    TurnKeeps(st, x, ops);
  }

  lemma CheckNext(st: State, acts: Acts, turns: nat)
    requires st.rows != [] && ActsInTable(acts, |st.timers|) && HeadDue(st) && turns > 0
    ensures ActsInTable(Others(acts), |st.timers|) && Last(st.rows) != []
    ensures var o := CheckFor(Next(st, acts), Others(acts), turns - 1);
      CheckFor(st, acts, turns) == Fired(Last(st.rows)[0], o)
  {
    CheckOne(st, acts, turns);
  }

  function Fired(y: Tid, o: Outcome): Outcome { o.(fired := [y] + o.fired) }

  lemma FiredState(y: Tid, o: Outcome)
    ensures Fired(y, o).st == o.st && Fired(y, o).fired == [y] + o.fired
  {
  }

  /** The loop passed x by. */
  predicate PassedBy(st: State, o: Outcome, x: Tid) {
    Fires(o.fired, x) == 0 && SamePending(st, o.st, x) && o.st.now == st.now
  }

  lemma PassedByOneMore(st: State, st1: State, y: Tid, o: Outcome, x: Tid)
    requires SamePending(st, st1, x) && st1.now == st.now && PassedBy(st1, o, x) && x != y
    ensures PassedBy(st, Fired(y, o), x)
  {
    FiresCons(y, o.fired, x);
  }

  lemma PassedByNothing(st: State, ended: bool, x: Tid)
    ensures PassedBy(st, Outcome(st, [], ended), x)
  {
  }

  lemma CheckStops(st: State, acts: Acts, turns: nat)
    requires st.rows != [] && ActsInTable(acts, |st.timers|) && (!HeadDue(st) || turns == 0)
    ensures CheckFor(st, acts, turns) == Outcome(st, [], !HeadDue(st))
  {
  }

  lemma NotHead(st: State, x: Tid)
    requires st.rows != [] && !DueNow(st, x)
    ensures forall y :: DueNow(st, y) ==> y != x
  {
  }

  /** A timer that is not due does not fire, and if it was pending it still is, for the same tick. */
  lemma {:induction false} NotDueNotFired(st: State, acts: Acts, turns: nat, x: Tid)
    requires Quiet(st, acts, x) && !DueNow(st, x)
    ensures st.rows != [] && ActsInTable(acts, |st.timers|) && PassedBy(st, CheckFor(st, acts, turns), x)
    decreases turns
  {
    hide *;
    QuietInTable(st, acts, x);
    if HeadDue(st) && turns > 0 {
      QuietTurn(st, acts, x);
      NotHead(st, x);
      CheckNext(st, acts, turns);
      NotDueNotFired(Next(st, acts), Others(acts), turns - 1, x);
      PassedByOneMore(st, Next(st, acts), Last(st.rows)[0], CheckFor(Next(st, acts), Others(acts), turns - 1), x);
    } else {
      CheckStops(st, acts, turns);
      PassedByNothing(st, !HeadDue(st), x);
    }
  }

  /** A due timer fires exactly once in the check. */
  lemma {:induction false} DueFiresOnce(st: State, acts: Acts, turns: nat, x: Tid)
    requires Quiet(st, acts, x) && DueNow(st, x) && st.rows != [] && |DueSet(st)| <= turns
    ensures ActsInTable(acts, |st.timers|) && Fires(CheckFor(st, acts, turns).fired, x) == 1
    decreases turns
  {
    hide *;
    QuietInTable(st, acts, x);
    DueMeansHead(st, acts, x);
    QuietTurn(st, acts, x);
    CheckNext(st, acts, turns);
    var st1, y := Next(st, acts), Last(st.rows)[0];
    var o := CheckFor(st1, Others(acts), turns - 1);
    FiredOnce(y, o, x);
    if y == x {
      NotDueNotFired(st1, Others(acts), turns - 1, x);
      PassedNotFired(st1, o, x);
    } else {
      DueFiresOnce(st1, Others(acts), turns - 1, x);
    }
  }

  lemma FiredOnce(y: Tid, o: Outcome, x: Tid)
    ensures Fires(Fired(y, o).fired, x) == (if y == x then 1 else 0) + Fires(o.fired, x)
  {
    FiresCons(y, o.fired, x);
  }

  lemma PassedNotFired(st: State, o: Outcome, x: Tid)
    requires PassedBy(st, o, x)
    ensures Fires(o.fired, x) == 0
  {
  }

  lemma DueMeansHead(st: State, acts: Acts, x: Tid)
    requires Quiet(st, acts, x) && DueNow(st, x) && st.rows != []
    ensures HeadDue(st)
  {
    if !HeadDue(st) { NoneDue(st); }
  }

  // ----- runs -----

  /** A thread starts or stops a timer, or the tick goes up and the check runs. */
  datatype Event = Call(op: Op) | Tick(acts: Acts)

  function Ticked(st: State): State { st.(now := Plus(st.now, 1)) }

  /** The check of the next tick, run to its end. */
  function Checked(st: State, acts: Acts): Outcome
    requires st.rows != [] && ActsInTable(acts, |st.timers|)
  {
    CheckFor(Ticked(st), acts, |DueSet(Ticked(st))|)
  }

  predicate EventOk(st: State, e: Event) {
    match e
    case Call(op) => OpOk(st.timers, op, 0)
    case Tick(acts) => ActsOk(st.timers, acts)
  }

  /** Between two events: the rows are in order, no timeout is in the past, periods are positive. */
  predicate Idle(st: State) { Valid(st, 0) && AllSound(st.timers) }

  /** One tick on, every timeout is one tick nearer. */
  lemma TickKeeps(st: State)
    requires Valid(st, 0)
    ensures Valid(Ticked(st), -1) && Ticked(st).timers == st.timers
    ensures forall x :: x in Last(st.rows) ==> At(st.timers, Ticked(st).now, x) == At(st.timers, st.now, x) - 1
  {
    var last, next := Last(st.rows), Ticked(st).now;
    forall x | x in last
      ensures At(st.timers, next, x) == At(st.timers, st.now, x) - 1
    {
      AheadNextTick(st.now, st.timers[x].timeout);
    }
    assert forall i :: 0 <= i < |last| ==> last[i] in last;
  }

  lemma CheckedIdle(st: State, acts: Acts)
    requires Idle(st) && ActsOk(st.timers, acts)
    ensures ActsInTable(acts, |st.timers|) && Idle(Checked(st, acts).st) && Checked(st, acts).ended
  {
    TickKeeps(st);
    CheckEnds(Ticked(st), acts, |DueSet(Ticked(st))|);
  }

  function Step(st: State, e: Event): (r: State)
    requires Idle(st) && EventOk(st, e)
    ensures Idle(r)
  {
    match e
    case Call(op) => DoKeeps(st, op, 0, 0); Do(st, op)
    case Tick(acts) => CheckedIdle(st, acts); Checked(st, acts).st
  }

  predicate LegalRun(st: State, es: seq<Event>)
    requires Idle(st)
    decreases |es|
  {
    es == [] || (EventOk(st, es[0]) && LegalRun(Step(st, es[0]), es[1..]))
  }

  /** Whatever threads and timeout functions do, between two events the rows are in order. */
  function After(st: State, es: seq<Event>): (r: State)
    requires Idle(st) && LegalRun(st, es)
    ensures Idle(r)
    decreases |es|
  {
    if es == [] then st else After(Step(st, es[0]), es[1..])
  }

  function Ticks(es: seq<Event>): nat {
    if es == [] then 0 else (if es[0].Tick? then 1 else 0) + Ticks(es[1..])
  }

  /** How often x fired in a run. */
  function FiresIn(st: State, es: seq<Event>, x: Tid): nat
    requires Idle(st) && LegalRun(st, es)
    decreases |es|
  {
    if es == [] then 0
    else (if es[0].Tick? then (CheckedIdle(st, es[0].acts); Fires(Checked(st, es[0].acts).fired, x)) else 0)
         + FiresIn(Step(st, es[0]), es[1..], x)
  }

  predicate EventSpares(e: Event, x: Tid) {
    match e
    case Call(op) => SparesOp(op, x)
    case Tick(acts) => ActsSpare(acts, x)
  }

  predicate LeftAlone(es: seq<Event>, x: Tid) { forall k :: 0 <= k < |es| ==> EventSpares(es[k], x) }

  /** The ticks a pending timer still has to wait; one of zero ticks waits for the next check. */
  function Wait(st: State, x: Tid): int {
    if At(st.timers, st.now, x) < 1 then 1 else At(st.timers, st.now, x)
  }

  /** One event, as far as a pending timer left alone is concerned, when its tick has not come. */
  lemma WaitStep(st: State, e: Event, x: Tid)
    requires Idle(st) && EventOk(st, e) && EventSpares(e, x) && Pending(st, x)
    requires e.Tick? ==> Wait(st, x) > 1
    ensures Pending(Step(st, e), x) && Wait(Step(st, e), x) == Wait(st, x) - (if e.Tick? then 1 else 0)
    ensures e.Tick? ==> ActsInTable(e.acts, |st.timers|) && Fires(Checked(st, e.acts).fired, x) == 0
  {
    match e
    case Call(op) =>
      WithinLower(st);
      SparedByOp(st, op, x);
    case Tick(acts) =>
      TickKeeps(st);
      var st1 := Ticked(st);
      assert !DueNow(st1, x);
      NotDueNotFired(st1, acts, |DueSet(st1)|, x);
  }

  lemma WithinLower(st: State)
    requires Idle(st)
    ensures Valid(st, -1)
  {
  }

  /** Until its tick comes, a timer left alone stays pending and does not fire. */
  lemma {:induction false} WaitsUntil(st: State, es: seq<Event>, x: Tid)
    requires Idle(st) && LegalRun(st, es) && LeftAlone(es, x) && Pending(st, x) && Ticks(es) < Wait(st, x)
    ensures Pending(After(st, es), x) && Wait(After(st, es), x) == Wait(st, x) - Ticks(es)
    ensures FiresIn(st, es, x) == 0
    decreases |es|
  {
    if es != [] {
      assert EventSpares(es[0], x);
      WaitStep(st, es[0], x);
      assert LeftAlone(es[1..], x);
      hide Idle, EventOk, Step, Pending, Wait, EventSpares, LeftAlone;
      WaitsUntil(Step(st, es[0]), es[1..], x);
    }
  }

  /** The check of its tick fires it, once. */
  lemma FiresNow(st: State, acts: Acts, x: Tid)
    requires Idle(st) && ActsOk(st.timers, acts) && ActsSpare(acts, x) && Pending(st, x) && Wait(st, x) == 1
    ensures ActsInTable(acts, |st.timers|) && Fires(Checked(st, acts).fired, x) == 1
  {
    TickKeeps(st);
    assert DueNow(Ticked(st), x);
    DueFiresOnce(Ticked(st), acts, |DueSet(Ticked(st))|, x);
  }

  /** A timer of n ticks started now and left alone does not fire before the n-th tick from now (the
      first, for n = 0), and fires exactly once in the check of that tick, whatever other timers are
      started, stopped or fired in between and wherever the tick wraps. */
  lemma FiresExactlyOnTime(st: State, x: Tid, es: seq<Event>, acts: Acts)
    requires Idle(st) && OpOk(st.timers, Start(x), 0)
    requires Idle(Started(st, x)) && LegalRun(Started(st, x), es) && LeftAlone(es, x)
    requires Ticks(es) + 1 == (if st.timers[x].init == 0 then 1 else st.timers[x].init)
    requires ActsOk(After(Started(st, x), es).timers, acts) && ActsSpare(acts, x)
    ensures FiresIn(Started(st, x), es, x) == 0
    ensures ActsInTable(acts, |After(Started(st, x), es).timers|)
    ensures Fires(Checked(After(Started(st, x), es), acts).fired, x) == 1
  {
    StartedPending(st, x);
    hide Idle, Started, Wait, Pending;
    WaitsUntil(Started(st, x), es, x);
    FiresNow(After(Started(st, x), es), acts, x);
  }

  lemma StartedPending(st: State, x: Tid)
    requires Idle(st) && OpOk(st.timers, Start(x), 0)
    ensures Idle(Started(st, x)) && Pending(Started(st, x), x)
    ensures Wait(Started(st, x), x) == if st.timers[x].init == 0 then 1 else st.timers[x].init
  {
    StartKeeps(st, x, 0);
    DoKeeps(st, Start(x), 0, 0);
    assert x in Elems(Last(Started(st, x).rows));
  }

  /** The tick of the run. */
  lemma {:induction false} NowAfter(st: State, es: seq<Event>)
    requires Idle(st) && LegalRun(st, es)
    ensures After(st, es).now == TickAfter(st.now, Ticks(es))
    decreases |es|
  {
    hide *;
    if es == [] {
      NoEvents(st);
      TickAfterMore(st.now, 0, 0);
    } else {
      AfterOne(st, es);
      StepNow(st, es[0]);
      TickAfterMore(st.now, if es[0].Tick? then 1 else 0, Ticks(es[1..]));
      NowAfter(Step(st, es[0]), es[1..]);
    }
  }

  lemma NoEvents(st: State)
    requires Idle(st) && LegalRun(st, [])
    ensures After(st, []) == st && Ticks([]) == 0
  {
  }

  lemma AfterOne(st: State, es: seq<Event>)
    requires Idle(st) && LegalRun(st, es) && es != []
    ensures EventOk(st, es[0]) && LegalRun(Step(st, es[0]), es[1..])
    ensures After(st, es) == After(Step(st, es[0]), es[1..])
      && Ticks(es) == (if es[0].Tick? then 1 else 0) + Ticks(es[1..])
  {
  }

  lemma StepNow(st: State, e: Event)
    requires Idle(st) && EventOk(st, e)
    ensures Step(st, e).now == TickAfter(st.now, if e.Tick? then 1 else 0)
  {
    if e.Tick? { CheckedNow(st, e.acts); }
  }

  /** The tick, n ticks on. */
  function TickAfter(a: Tick, n: nat): Tick { (a + n) % 0x1_0000_0000 }

  lemma TickAfterMore(a: Tick, d: nat, n: nat)
    ensures TickAfter(a, 0) == a && TickAfter(TickAfter(a, d), n) == TickAfter(a, d + n)
  {
  }

  lemma CheckedNow(st: State, acts: Acts)
    requires Idle(st) && ActsOk(st.timers, acts)
    ensures ActsInTable(acts, |st.timers|) && Checked(st, acts).st.now == Plus(st.now, 1)
  {
    OkActs(st.timers, acts);
    CheckKeepsNow(Ticked(st), acts, |DueSet(Ticked(st))|);
  }

  lemma {:induction false} CheckKeepsNow(st: State, acts: Acts, turns: nat)
    requires st.rows != [] && ActsInTable(acts, |st.timers|)
    ensures CheckFor(st, acts, turns).st.now == st.now
    decreases turns
  {
    if HeadDue(st) && turns > 0 {
      CheckNext(st, acts, turns);
      CheckKeepsNow(Next(st, acts), Others(acts), turns - 1);
    }
  }
}
