/** Timers with the same timeout fire in the order in which they were started; and the activated flag
    says who is pending, with one exception. */
module TimerOrder {
  import opened Lists
  import opened TimerRows
  import opened Timers
  import opened TimerRuns
  import opened TimerFiring

  predicate Before(s: seq<Tid>, a: Tid, b: Tid) { exists i, j :: 0 <= i < j < |s| && s[i] == a && s[j] == b }

  // ----- order in a row -----

  lemma BeforeCons(y: Tid, s: seq<Tid>, a: Tid, b: Tid)
    requires Before(s, a, b) || (y == a && b in s)
    ensures Before([y] + s, a, b)
  {
    var t := [y] + s;
    if Before(s, a, b) {
      var i, j :| 0 <= i < j < |s| && s[i] == a && s[j] == b;
      assert t[i + 1] == a && t[j + 1] == b;
    } else {
      var j :| 0 <= j < |s| && s[j] == b;
      assert t[0] == a && t[j + 1] == b;
    }
  }

  lemma BeforeTail(s: seq<Tid>, a: Tid, b: Tid)
    requires Before(s, a, b)
    ensures s != [] && b in s[1..] && (s[0] == a || Before(s[1..], a, b))
  {
    var i, j :| 0 <= i < j < |s| && s[i] == a && s[j] == b;
    assert s[1..][j - 1] == b;
    if i > 0 { assert s[1..][i - 1] == a; }
  }

  lemma {:induction false} KeepBefore(s: Row, keep: set<Tid>, a: Tid, b: Tid)
    requires Before(s, a, b) && a in keep && b in keep
    ensures Before(Keep(s, keep), a, b)
  {
    BeforeTail(s, a, b);
    if s[0] == a {
      KeepElems(s[1..], keep);
      assert b in Elems(Keep(s[1..], keep));
      BeforeCons(a, Keep(s[1..], keep), a, b);
    } else {
      KeepBefore(s[1..], keep, a, b);
      if s[0] in keep { BeforeCons(s[0], Keep(s[1..], keep), a, b); }
        else { assert Keep(s, keep) == Keep(s[1..], keep); }
    }
  }

  lemma WithoutBefore(s: Row, x: Tid, a: Tid, b: Tid)
    requires Before(s, a, b) && x != a && x != b
    ensures Before(Without(s, x), a, b)
  {
    KeepBefore(s, Elems(s) - {x}, a, b);
  }

  lemma InsBefore(s: Row, late: set<Tid>, x: Tid, a: Tid, b: Tid)
    requires Before(s, a, b)
    ensures Before(Ins(s, late, x), a, b)
  {
    var i, j :| 0 <= i < j < |s| && s[i] == a && s[j] == b;
    var k, t := Place(s, late), Ins(s, late, x);
    assert t[if i < k then i else i + 1] == a && t[if j < k then j else j + 1] == b;
  }

  lemma BeforeBoth(s: seq<Tid>, a: Tid, b: Tid)
    requires Before(s, a, b)
    ensures a in s && b in s
  {
  }

  // ----- order under the operations -----

  predicate InOrder(st: State, a: Tid, b: Tid) { st.rows != [] && Before(Last(st.rows), a, b) }

  lemma RemovedInOrder(st: State, x: Tid, a: Tid, b: Tid)
    requires Valid(st, -1) && InOrder(st, a, b) && x != a && x != b
    ensures InOrder(st.(rows := RemoveAll(st.rows, x)), a, b)
  {
    WithoutBefore(Last(st.rows), x, a, b);
  }

  lemma StartedInOrder(st: State, x: Tid, a: Tid, b: Tid)
    requires Valid(st, -1) && InOrder(st, a, b) && x != a && x != b && x < |st.timers|
    ensures InOrder(Started(st, x), a, b)
  {
    WithoutBefore(Last(st.rows), x, a, b);
    var u := st.timers[x].(timeout := Plus(st.now, st.timers[x].init), activated := true);
    InsBefore(Last(RemoveAll(st.rows, x)), LateSet(st.timers[x := u], u.timeout), x, a, b);
  }

  lemma DoInOrder(st: State, op: Op, a: Tid, b: Tid)
    requires Valid(st, -1) && InOrder(st, a, b) && op.id < |st.timers| && SparesOp(op, a) && SparesOp(op, b)
    ensures InOrder(Do(st, op), a, b)
  {
    match op
    case Start(x) => StartedInOrder(st, x, a, b);
    case Stop(x) => if st.timers[x].activated { RemovedInOrder(st, x, a, b); }
    case SetTime(_, _) =>
    case SetPeriodic(_, _) =>
  }

  lemma {:induction false} DoAllInOrder(st: State, ops: seq<Op>, a: Tid, b: Tid)
    requires Valid(st, -1) && AllSound(st.timers) && OpsOk(st.timers, ops) && Spares(ops, a) && Spares(ops, b)
      && InOrder(st, a, b)
    ensures OpsInTable(ops, |st.timers|) && InOrder(DoAll(st, ops), a, b)
    decreases |ops|
  {
    OkInTable(st.timers, ops);
    if ops != [] {
      assert SparesOp(ops[0], a) && SparesOp(ops[0], b);
      DoInOrder(st, ops[0], a, b);
      DoKeeps(st, ops[0], -1, 1);
      OpsStayOk(st, ops[0], ops[1..]);
      hide Valid, AllSound, Do, SparesOp, InOrder;
      DoAllInOrder(Do(st, ops[0]), ops[1..], a, b);
    }
  }

  lemma TurnInOrder(st: State, y: Tid, ops: seq<Op>, a: Tid, b: Tid)
    requires Valid(st, -1) && AllSound(st.timers) && OpsOk(st.timers, ops) && Spares(ops, a) && Spares(ops, b)
    requires InOrder(st, a, b) && y != a && y != b && y < |st.timers|
    ensures OpsInTable(ops, |st.timers|) && InOrder(Turn(st, y, ops), a, b)
  {
    RemovedInOrder(st, y, a, b);
    RemoveKeeps(st, y, -1);
    var st1 := st.(rows := RemoveAll(st.rows, y));
    DoAllInOrder(st1, ops, a, b);
    DoAllKeeps(st1, ops);
    var st2 := DoAll(st1, ops);
    if st2.timers[y].periodic && st2.timers[y].activated { StartedInOrder(st2, y, a, b); }
  }

  lemma NextInOrder(st: State, acts: Acts, a: Tid, b: Tid)
    requires Quiet(st, acts, a) && Quiet(st, acts, b) && InOrder(st, a, b) && HeadDue(st)
      && ActsInTable(acts, |st.timers|)
    requires Last(st.rows)[0] != a && Last(st.rows)[0] != b
    ensures InOrder(Next(st, acts), a, b)
  {
    SparesParts(acts, a);
    SparesParts(acts, b);
    OkActs(st.timers, acts);
    TurnInOrder(st, Last(st.rows)[0], First(acts), a, b);
  }

  /** Timers that are not due stay in order through a check. */
  lemma {:induction false} CheckKeepsOrder(st: State, acts: Acts, turns: nat, a: Tid, b: Tid)
    requires Quiet(st, acts, a) && Quiet(st, acts, b) && !DueNow(st, a) && !DueNow(st, b) && InOrder(st, a, b)
    ensures st.rows != [] && ActsInTable(acts, |st.timers|) && InOrder(CheckFor(st, acts, turns).st, a, b)
    decreases turns
  {
    hide *;
    QuietInTable(st, acts, a);
    if HeadDue(st) && turns > 0 {
      QuietTurn(st, acts, a);
      QuietTurn(st, acts, b);
      NotHead(st, a);
      NotHead(st, b);
      CheckNext(st, acts, turns);
      NextInOrder(st, acts, a, b);
      CheckKeepsOrder(Next(st, acts), Others(acts), turns - 1, a, b);
      FiredState(Last(st.rows)[0], CheckFor(Next(st, acts), Others(acts), turns - 1));
    } else {
      CheckStops(st, acts, turns);
    }
  }

  lemma FiresMeansIn(fired: seq<Tid>, x: Tid)
    requires Fires(fired, x) > 0
    ensures x in fired
  {
  }

  lemma InOrderHead(st: State, a: Tid, b: Tid)
    requires Valid(st, -1) && InOrder(st, a, b)
    ensures Last(st.rows) != [] && Last(st.rows)[0] != b && a != b
  {
    BeforeTail(Last(st.rows), a, b);
  }

  lemma QuietValid(st: State, acts: Acts, x: Tid)
    requires Quiet(st, acts, x)
    ensures Valid(st, -1)
  {
  }

  /** Two due timers fire in the order in which they stand. */
  lemma {:induction false} DueFireInOrder(st: State, acts: Acts, turns: nat, a: Tid, b: Tid)
    requires Quiet(st, acts, a) && Quiet(st, acts, b) && DueNow(st, a) && DueNow(st, b) && InOrder(st, a, b)
    requires st.rows != [] && |DueSet(st)| <= turns
    ensures ActsInTable(acts, |st.timers|) && Before(CheckFor(st, acts, turns).fired, a, b)
    decreases turns
  {
    hide *;
    QuietInTable(st, acts, a);
    QuietValid(st, acts, a);
    DueMeansHead(st, acts, a);
    InOrderHead(st, a, b);
    QuietTurn(st, acts, a);
    QuietTurn(st, acts, b);
    CheckNext(st, acts, turns);
    var st1, y := Next(st, acts), Last(st.rows)[0];
    var o := CheckFor(st1, Others(acts), turns - 1);
    FiredState(y, o);
    if y == a {
      DueFiresOnce(st1, Others(acts), turns - 1, b);
      FiresMeansIn(o.fired, b);
    } else {
      NextInOrder(st, acts, a, b);
      DueFireInOrder(st1, Others(acts), turns - 1, a, b);
    }
    BeforeCons(y, o.fired, a, b);
  }

  // ----- order over runs -----

  lemma InOrderPending(st: State, a: Tid, b: Tid)
    requires Idle(st) && InOrder(st, a, b)
    ensures Pending(st, a) && Pending(st, b)
  {
    BeforeBoth(Last(st.rows), a, b);
  }

  lemma StepInOrder(st: State, e: Event, a: Tid, b: Tid)
    requires Idle(st) && EventOk(st, e) && EventSpares(e, a) && EventSpares(e, b) && InOrder(st, a, b)
    requires e.Tick? ==> Wait(st, a) > 1 && Wait(st, b) > 1
    ensures InOrder(Step(st, e), a, b)
  {
    match e
    case Call(op) =>
      WithinLower(st);
      DoInOrder(st, op, a, b);
    case Tick(acts) =>
      TickKeeps(st);
      var st1 := Ticked(st);
      assert !DueNow(st1, a) && !DueNow(st1, b);
      CheckKeepsOrder(st1, acts, |DueSet(st1)|, a, b);
  }

  lemma {:induction false} RunInOrder(st: State, es: seq<Event>, a: Tid, b: Tid)
    requires Idle(st) && LegalRun(st, es) && LeftAlone(es, a) && LeftAlone(es, b) && InOrder(st, a, b)
    requires Ticks(es) < Wait(st, a) && Ticks(es) < Wait(st, b)
    ensures InOrder(After(st, es), a, b)
    decreases |es|
  {
    hide *;
    if es == [] {
      NoEvents(st);
    } else {
      AfterOne(st, es);
      AloneOne(es, a);
      AloneOne(es, b);
      InOrderPending(st, a, b);
      WaitStep(st, es[0], a);
      WaitStep(st, es[0], b);
      StepInOrder(st, es[0], a, b);
      RunInOrder(Step(st, es[0]), es[1..], a, b);
    }
  }

  lemma AloneOne(es: seq<Event>, x: Tid)
    requires LeftAlone(es, x) && es != []
    ensures EventSpares(es[0], x) && LeftAlone(es[1..], x)
  {
  }

  /** A timer started behind another with the same timeout stands behind it. */
  lemma StartedBehind(st: State, a: Tid, b: Tid)
    requires Idle(st) && Pending(st, a) && a != b && b < |st.timers|
    requires Started(st, b).timers[b].timeout == st.timers[a].timeout
    ensures InOrder(Started(st, b), a, b)
  {
    var u := st.timers[b].(timeout := Plus(st.now, st.timers[b].init), activated := true);
    var row, timers := Without(Last(st.rows), b), st.timers[b := u];
    RemoveKeeps(st, b, 0);
    AheadOfStart(st.now, st.timers[b].init);
    assert a in Elems(row);
    assert Valid(st.(rows := RemoveAll(st.rows, b)), 0);
    hide Without, Nested, RemoveAll, Plus, Ahead;
    RetimedAbsent(row, st.timers, st.now, b, u, 0);
    BehindEqual(row, timers, st.now, a, b);
  }

  lemma BehindEqual(row: Row, timers: seq<Timer>, now: Tick, a: Tid, b: Tid)
    requires Sorted(row, timers, now) && Within(row, timers, now, 0) && InTable(row, |timers|)
    requires a in row && b < |timers| && timers[a].timeout == timers[b].timeout && 0 <= At(timers, now, b) < HALF
    ensures Before(Ins(row, LateSet(timers, timers[b].timeout), b), a, b)
  {
    var late := LateSet(timers, timers[b].timeout);
    SortedPartitioned(row, timers, now, timers[b].timeout);
    var i :| 0 <= i < |row| && row[i] == a;
    NotLate(row, late, i);
    var s := Ins(row, late, b);
    assert s[i] == a && s[Place(row, late)] == b;
  }

  /** Of two timers with the same timeout the one started first fires first, whatever happens to other
      timers in between. */
  lemma EqualTimeoutsFireInStartOrder(st: State, a: Tid, b: Tid, es: seq<Event>, acts: Acts)
    requires Idle(st) && Pending(st, a) && a != b && OpOk(st.timers, Start(b), 0)
    requires Started(st, b).timers[b].timeout == st.timers[a].timeout
    requires Idle(Started(st, b)) && LegalRun(Started(st, b), es) && LeftAlone(es, a) && LeftAlone(es, b)
    requires Ticks(es) + 1 == Wait(Started(st, b), b)
    requires ActsOk(After(Started(st, b), es).timers, acts) && ActsSpare(acts, a) && ActsSpare(acts, b)
    ensures ActsInTable(acts, |After(Started(st, b), es).timers|)
    ensures Before(Checked(After(Started(st, b), es), acts).fired, a, b)
  {
    var st1 := Started(st, b);
    StartedBehind(st, a, b);
    assert Wait(st1, a) == Wait(st1, b);
    hide *;
    InOrderPending(st1, a, b);
    RunInOrder(st1, es, a, b);
    WaitsUntil(st1, es, a);
    WaitsUntil(st1, es, b);
    BothFireNow(After(st1, es), acts, a, b);
  }

  lemma BothFireNow(st: State, acts: Acts, a: Tid, b: Tid)
    requires Idle(st) && ActsOk(st.timers, acts) && ActsSpare(acts, a) && ActsSpare(acts, b) && InOrder(st, a, b)
    requires Pending(st, a) && Pending(st, b) && Wait(st, a) == 1 && Wait(st, b) == 1
    ensures ActsInTable(acts, |st.timers|) && Before(Checked(st, acts).fired, a, b)
  {
    TickKeeps(st);
    var st1 := Ticked(st);
    assert DueNow(st1, a) && DueNow(st1, b);
    DueFireInOrder(st1, acts, |DueSet(st1)|, a, b);
  }

  // ----- the activated flag -----

  /** Outside the check a timer is flagged activated exactly when it is pending. */
  predicate Flagged(st: State) {
    st.rows != [] && forall x :: 0 <= x < |st.timers| ==> (st.timers[x].activated <==> x in Last(st.rows))
  }

  /** While the timeout function of y runs: y is off the rows but still flagged. */
  predicate FlaggedBut(st: State, y: Tid) {
    && st.rows != []
    && (forall x :: 0 <= x < |st.timers| && x != y ==> (st.timers[x].activated <==> x in Last(st.rows)))
    && (y < |st.timers| && y in Last(st.rows) ==> st.timers[y].activated)
  }

  lemma DoFlags(st: State, op: Op, y: Tid)
    requires Valid(st, -1) && AllSound(st.timers) && OpOk(st.timers, op, 0) && FlaggedBut(st, y)
    ensures FlaggedBut(Do(st, op), y)
  {
    DoLast(st, op);
    var before, after := Last(st.rows), Last(Do(st, op).rows);
    assert forall x :: x in after <==> x in Elems(after);
    assert forall x :: x in before <==> x in Elems(before);
  }

  lemma {:induction false} DoAllFlags(st: State, ops: seq<Op>, y: Tid)
    requires Valid(st, -1) && AllSound(st.timers) && OpsOk(st.timers, ops) && FlaggedBut(st, y)
    ensures OpsInTable(ops, |st.timers|) && FlaggedBut(DoAll(st, ops), y)
    decreases |ops|
  {
    OkInTable(st.timers, ops);
    if ops != [] {
      OkForThread(st.timers, ops[0]);
      DoFlags(st, ops[0], y);
      DoKeeps(st, ops[0], -1, 1);
      OpsStayOk(st, ops[0], ops[1..]);
      hide Valid, AllSound, Do, FlaggedBut;
      DoAllFlags(Do(st, ops[0]), ops[1..], y);
    }
  }

  /** A one-shot timer restarted by its own timeout function is left pending but not flagged: the check
      clears the flag after the call.  That is the one way the flag goes wrong. */
  lemma RearmFlagsIff(st: State, y: Tid)
    requires Valid(st, -1) && AllSound(st.timers) && FlaggedBut(st, y) && y < |st.timers|
    ensures Flagged(Rearmed(st, y)) <==> !(y in Last(st.rows) && !st.timers[y].periodic)
  {
    if st.timers[y].periodic && st.timers[y].activated {
      DoFlags(st, Start(y), y);
      StartKeeps(st, y, -1);
      var after := Last(Started(st, y).rows);
      assert y in Elems(after);
    }
  }

  /** Firing a timer keeps the flags right if and only if its timeout function has not restarted it as
      a one-shot timer. */
  lemma TurnFlagsIff(st: State, y: Tid, ops: seq<Op>)
    requires Valid(st, -1) && AllSound(st.timers) && OpsOk(st.timers, ops) && Flagged(st) && y in DueSet(st)
    ensures y < |st.timers| && OpsInTable(ops, |st.timers|)
    ensures var mid := DoAll(st.(rows := RemoveAll(st.rows, y)), ops);
      Flagged(Turn(st, y, ops)) <==> !(y in Last(mid.rows) && !mid.timers[y].periodic)
  {
    var st1 := st.(rows := RemoveAll(st.rows, y));
    RemoveKeeps(st, y, -1);
    assert forall x :: x in Last(st1.rows) <==> x in Elems(Last(st1.rows));
    assert FlaggedBut(st1, y);
    DoAllFlags(st1, ops, y);
    DoAllKeeps(st1, ops);
    RearmFlagsIff(DoAll(st1, ops), y);
  }

  /** Threads keep the flags right. */
  lemma CallKeepsFlags(st: State, op: Op)
    requires Idle(st) && OpOk(st.timers, op, 0) && Flagged(st)
    ensures Flagged(Do(st, op))
  {
    WithinLower(st);
    DoFlags(st, op, |st.timers|);
  }
}
