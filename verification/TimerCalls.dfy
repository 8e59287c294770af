/** What each timer call does, field by field and place by place, and that a period once set is the one that the
    next start uses. */
module TimerCalls {
  import opened Lists
  import opened TimerRows
  import opened Timers
  import opened TimerRuns
  import opened TimerFiring

  /** A row with x taken out of it. */
  function Less(row: Row, x: Tid): Row {
    if x in row then (var i := IndexOf(row, x); row[..i] + row[i + 1..]) else row
  }

  lemma LessIs(row: Row, x: Tid)
    requires Distinct(row)
    ensures Without(row, x) == Less(row, x) && x !in Less(row, x)
  {
    if x in row { WithoutAt(row, IndexOf(row, x)); } else { WithoutAbsent(row, x); }
  }

  lemma LessEverywhere(st: State, x: Tid)
    requires Valid(st, -1)
    ensures forall j :: 0 <= j < |st.rows| ==> RemoveAll(st.rows, x)[j] == Less(st.rows[j], x)
  {
    hide Less, Valid;
    forall j | 0 <= j < |st.rows|
      ensures RemoveAll(st.rows, x)[j] == Less(st.rows[j], x)
    {
      AllRowsSorted(st, -1, j);
      LessIs(st.rows[j], x);
    }
  }

  /** Only timer x differs. */
  predicate OthersSame(st: State, r: State, x: Tid) {
    && r.now == st.now && |r.timers| == |st.timers| && |r.rows| == |st.rows|
    && forall y :: 0 <= y < |st.timers| && y != x ==> r.timers[y] == st.timers[y]
  }

  lemma SameTable(st: State, r: State, x: Tid)
    requires OthersSame(st, r, x) && x < |st.timers|
    ensures r.timers == st.timers[x := r.timers[x]]
  {
  }

  // ----- rt_timer_start -----

  /** x was put at k, behind every timer that times out no later and before every one that times out later; the others
      stand as they stood. */
  predicate PutAt(before: Row, row: Row, timers: seq<Timer>, now: Tick, x: Tid, k: nat) {
    && k < |row| && row[k] == x && row[..k] + row[k + 1..] == before
    && (forall i :: 0 <= i < k ==> At(timers, now, row[i]) <= At(timers, now, x))
    && (forall i :: k < i < |row| ==> At(timers, now, row[i]) > At(timers, now, x))
  }

  function Pow4(k: nat): (n: nat)
    ensures n >= 1
  {
    if k == 0 then 1 else 4 * Pow4(k - 1)
  }

  /** A timer is on the row k above the last if and only if the k lowest pairs of bits of the start counter are
      zero. */
  predicate OnRows(rows: seq<Row>, nr: Tick, x: Tid) {
    forall j :: 0 <= j < |rows| ==> (x in rows[j] <==> nr % Pow4(|rows| - 1 - j) == 0)
  }

  lemma {:induction false} HeightIs(nr: Tick, levels: nat, k: nat)
    requires k < levels
    ensures k < Height(nr, levels) <==> nr % Pow4(k) == 0
    decreases levels
  {
    if k > 0 {
      HeightIs(nr / 4, levels - 1, k - 1);
      MultipleOf(nr, 4, Pow4(k - 1));
    }
  }

  lemma MultipleOf(n: nat, c: nat, d: nat)
    requires c > 0 && d > 0
    ensures c * d > 0 && (n % (c * d) == 0 <==> n % c == 0 && n / c % d == 0)
  {
    var q, m := n / c, n / (c * d);
    assert n == c * q + n % c && n == c * d * m + n % (c * d);
    if n % (c * d) == 0 {
      assert n == c * (d * m);
      Divides(n, c, d * m);
      Divides(q, d, m);
    }
    if n % c == 0 && q % d == 0 {
      var t := q / d;
      assert q == d * t && n == c * (d * t) == (c * d) * t;
      Divides(n, c * d, t);
    }
  }

  lemma Divides(n: nat, c: nat, k: nat)
    requires c > 0 && n == c * k
    ensures n % c == 0 && n / c == k
  {
    var e := k - n / c;
    assert c * e == n % c;
    NoLessThan(c, e);
  }

  lemma NoLessThan(c: nat, e: int)
    ensures e >= 1 ==> c * e >= c
    ensures e <= -1 ==> c * e + c <= 0
  {
  }

  lemma StartedOn(st: State, x: Tid)
    requires Valid(st, -1) && x < |st.timers|
    ensures OnRows(Do(st, Start(x)).rows, Do(st, Start(x)).randomNr, x)
  {
    hide *;
    SameHeight(st, x);
    var rows, nr := Do(st, Start(x)).rows, Do(st, Start(x)).randomNr;
    forall j | 0 <= j < |rows|
      ensures x in rows[j] <==> |rows| - 1 - j < Height(nr, |rows|)
    {
      OnRow(st, x, j);
    }
    OnRowsIf(rows, nr, x);
  }

  lemma OnRowsIf(rows: seq<Row>, nr: Tick, x: Tid)
    requires forall j :: 0 <= j < |rows| ==> (x in rows[j] <==> |rows| - 1 - j < Height(nr, |rows|))
    ensures OnRows(rows, nr, x)
  {
    hide Height, Pow4;
    forall j | 0 <= j < |rows|
      ensures x in rows[j] <==> nr % Pow4(|rows| - 1 - j) == 0
    {
      HeightIs(nr, |rows|, |rows| - 1 - j);
    }
  }

  lemma SameHeight(st: State, x: Tid)
    requires Valid(st, -1) && x < |st.timers|
    ensures st.rows != [] && |Do(st, Start(x)).rows| == |st.rows|
  {
  }

  lemma OnRow(st: State, x: Tid, j: nat)
    requires Valid(st, -1) && x < |st.timers| && j < |st.rows|
    ensures var r := Do(st, Start(x));
      |r.rows| == |st.rows| && (x in r.rows[j] <==> |r.rows| - 1 - j < Height(r.randomNr, |r.rows|))
  {
    AllRowsSorted(st, -1, j);
    LessIs(st.rows[j], x);
    hide Less, Valid, LateSet, Height, Without;
    InsHas(RemoveAll(st.rows, x)[j], LateSet(Do(st, Start(x)).timers, Do(st, Start(x)).timers[x].timeout), x);
    hide Ins;
  }

  lemma InsHas(row: Row, late: set<Tid>, x: Tid)
    ensures x in Ins(row, late, x)
  {
  }

  /** A timer started is activated, times out its period from now, and is at its place on the list. */
  lemma StartDoes(st: State, x: Tid) returns (k: nat)
    requires Valid(st, -1) && AllSound(st.timers) && x < |st.timers|
    ensures var r := Do(st, Start(x));
      && OthersSame(st, r, x) && r.randomNr == (st.randomNr + 1) % 0x1_0000_0000
      && r.timers[x] == st.timers[x].(timeout := (st.now + st.timers[x].init) % 0x1_0000_0000, activated := true)
      && st.rows != [] && PutAt(Less(Last(st.rows), x), Last(r.rows), r.timers, r.now, x, k)
      && OnRows(r.rows, r.randomNr, x)
  {
    StartedOn(st, x);
    StartedRow(st, x);
    StartedFields(st, x);
    StartedOrder(st, x);
    hide *;
    k := PlacedAt(Last(RemoveAll(st.rows, x)), Do(st, Start(x)).timers, st.now, x);
  }

  lemma StartedFields(st: State, x: Tid)
    requires Valid(st, -1) && AllSound(st.timers) && x < |st.timers|
    ensures var r := Do(st, Start(x));
      && OthersSame(st, r, x) && r.randomNr == (st.randomNr + 1) % 0x1_0000_0000
      && r.timers[x] == st.timers[x].(timeout := (st.now + st.timers[x].init) % 0x1_0000_0000, activated := true)
  {
    hide Valid, InsertAll, LateSet, RemoveAll, Height;
  }

  lemma StartedOrder(st: State, x: Tid)
    requires Valid(st, -1) && AllSound(st.timers) && x < |st.timers|
    ensures var row, r := Last(RemoveAll(st.rows, x)), Do(st, Start(x));
      && InTable(row, |r.timers|) && Sorted(row, r.timers, r.now) && Within(row, r.timers, r.now, -1)
      && 0 <= At(r.timers, r.now, x) < HALF
  {
    StartedFields(st, x);
    RemoveKeeps(st, x, -1);
    AbsentFrom(Last(RemoveAll(st.rows, x)), x);
    AheadOfStart(st.now, st.timers[x].init);
    hide Nested, Sorted, Within, Distinct, LateSet, RemoveAll, Ahead, InTable, Do;
    RetimedAbsent(Last(RemoveAll(st.rows, x)), st.timers, st.now, x, Do(st, Start(x)).timers[x], -1);
    SameTable(st, Do(st, Start(x)), x);
  }

  lemma StartedRow(st: State, x: Tid)
    requires Valid(st, -1) && x < |st.timers|
    ensures var r := Do(st, Start(x));
      && OthersSame(st, r, x) && Last(RemoveAll(st.rows, x)) == Less(Last(st.rows), x)
      && Last(r.rows) == Ins(Last(RemoveAll(st.rows, x)), LateSet(r.timers, r.timers[x].timeout), x)
  {
    LessEverywhere(st, x);
    hide Less, Nested, Sorted, Within, InTable, Distinct, LateSet, Ins;
  }

  lemma PlacedAt(row: Row, timers: seq<Timer>, now: Tick, x: Tid) returns (k: nat)
    requires InTable(row, |timers|) && Sorted(row, timers, now) && Within(row, timers, now, -1)
    requires x < |timers| && 0 <= At(timers, now, x) < HALF
    ensures PutAt(row, Ins(row, LateSet(timers, timers[x].timeout), x), timers, now, x, k)
  {
    var late := LateSet(timers, timers[x].timeout);
    SortedPartitioned(row, timers, now, timers[x].timeout);
    k := Place(row, late);
    LateFrom(row, late, k);
    hide LateSet, Sorted, Partitioned, InTable, Within, PutAt, At;
    PutBetween(row, timers, now, x, k, late);
  }

  lemma PutBetween(row: Row, timers: seq<Timer>, now: Tick, x: Tid, k: nat, late: set<Tid>)
    requires k <= |row| && k == Place(row, late)
    requires forall y :: y in row ==> (y in late <==> At(timers, now, y) > At(timers, now, x))
    requires forall y :: y in row[k..] ==> y in late
    ensures PutAt(row, Ins(row, late, x), timers, now, x, k)
  {
    InsParts(row, late, x);
    hide At, Ins, Place;
    var r := Ins(row, late, x);
    assert forall i :: 0 <= i < k ==> r[i] == r[..k][i] == row[i] && row[i] in row;
    forall i | k < i < |r|
      ensures At(timers, now, r[i]) > At(timers, now, x)
    {
      assert r[i] == r[k + 1..][i - k - 1] == row[k..][i - k - 1] == row[i - 1];
    }
  }

  lemma InsParts(row: Row, late: set<Tid>, x: Tid)
    ensures var k, r := Place(row, late), Ins(row, late, x);
      |r| == |row| + 1 && r[..k] == row[..k] && r[k] == x && r[k + 1..] == row[k..] && row == row[..k] + row[k..]
  {
  }

  // ----- rt_timer_stop -----

  /** A timer stopped is on no row and not activated, and nothing else has changed; one that is not activated stays
      as it is. */
  lemma StopDoes(st: State, x: Tid)
    requires Valid(st, -1) && x < |st.timers|
    ensures var r := Do(st, Stop(x));
      if !st.timers[x].activated then r == st
      else
        && OthersSame(st, r, x) && r.randomNr == st.randomNr && r.timers[x] == st.timers[x].(activated := false)
        && forall j :: 0 <= j < |st.rows| ==> r.rows[j] == Less(st.rows[j], x) && x !in r.rows[j]
  {
    LessEverywhere(st, x);
    hide Less, Valid;
    forall j | 0 <= j < |st.rows|
      ensures x !in Less(st.rows[j], x)
    {
      AllRowsSorted(st, -1, j);
      LessIs(st.rows[j], x);
    }
  }

  // ----- rt_timer_control -----

  /** Setting the period or the kind changes that field alone: a pending timer keeps its tick and its place. */
  lemma ControlDoes(st: State, op: Op)
    requires op.id < |st.timers| && (op.SetTime? || op.SetPeriodic?) && st.rows != []
    ensures var r, was := Do(st, op), st.timers[op.id];
      && OthersSame(st, r, op.id) && r.rows == st.rows && r.randomNr == st.randomNr
      && r.timers[op.id] == Timer(if op.SetTime? then op.ticks else was.init, was.timeout,
                                  if op.SetPeriodic? then op.on else was.periodic, was.activated)
  {
  }

  /** Nobody sets the period of x. */
  predicate Unset(ops: seq<Op>, x: Tid) { forall k :: 0 <= k < |ops| ==> !(ops[k].SetTime? && ops[k].id == x) }

  predicate UnsetActs(acts: Acts, x: Tid) { forall k :: 0 <= k < |acts| ==> Unset(acts[k], x) }

  predicate EventUnset(e: Event, x: Tid) {
    match e
    case Call(op) => !(op.SetTime? && op.id == x)
    case Tick(acts) => UnsetActs(acts, x)
  }

  predicate PeriodLeft(es: seq<Event>, x: Tid) { forall k :: 0 <= k < |es| ==> EventUnset(es[k], x) }

  /** The period of x, 0 if there is no such timer. */
  function Period(st: State, x: Tid): Tick { if x < |st.timers| then st.timers[x].init else 0 }

  lemma {:induction false} PeriodByAll(st: State, ops: seq<Op>, x: Tid)
    requires OpsInTable(ops, |st.timers|) && st.rows != [] && Unset(ops, x)
    ensures Period(DoAll(st, ops), x) == Period(st, x)
    decreases |ops|
  {
    if ops != [] {
      assert !(ops[0].SetTime? && ops[0].id == x);
      PeriodByAll(Do(st, ops[0]), ops[1..], x);
    }
  }

  lemma PeriodByTurn(st: State, y: Tid, ops: seq<Op>, x: Tid)
    requires y < |st.timers| && OpsInTable(ops, |st.timers|) && st.rows != [] && Unset(ops, x)
    ensures Period(Turn(st, y, ops), x) == Period(st, x)
  {
    PeriodByAll(st.(rows := RemoveAll(st.rows, y)), ops, x);
  }

  lemma UnsetParts(acts: Acts, x: Tid)
    requires UnsetActs(acts, x)
    ensures Unset(First(acts), x) && UnsetActs(Others(acts), x)
  {
    if acts != [] { assert Unset(acts[0], x); }
  }

  lemma {:induction false} PeriodByCheck(st: State, acts: Acts, turns: nat, x: Tid)
    requires st.rows != [] && ActsInTable(acts, |st.timers|) && UnsetActs(acts, x)
    ensures Period(CheckFor(st, acts, turns).st, x) == Period(st, x)
    decreases turns
  {
    if HeadDue(st) && turns > 0 {
      UnsetParts(acts, x);
      CheckNext(st, acts, turns);
      ActsParts(acts, |st.timers|);
      PeriodByTurn(st, Last(st.rows)[0], First(acts), x);
      PeriodByCheck(Next(st, acts), Others(acts), turns - 1, x);
    }
  }

  lemma PeriodByStep(st: State, e: Event, x: Tid)
    requires Idle(st) && EventOk(st, e) && EventUnset(e, x)
    ensures Period(Step(st, e), x) == Period(st, x) && |Step(st, e).timers| == |st.timers|
  {
    match e
    case Call(op) =>
    case Tick(acts) =>
      OkActs(st.timers, acts);
      TickKeeps(st);
      PeriodByCheck(Ticked(st), acts, |DueSet(Ticked(st))|, x);
      CheckKeepsTable(Ticked(st), acts, |DueSet(Ticked(st))|);
  }

  lemma {:induction false} CheckKeepsTable(st: State, acts: Acts, turns: nat)
    requires st.rows != [] && ActsInTable(acts, |st.timers|)
    ensures |CheckFor(st, acts, turns).st.timers| == |st.timers|
    decreases turns
  {
    if HeadDue(st) && turns > 0 {
      CheckNext(st, acts, turns);
      CheckKeepsTable(Next(st, acts), Others(acts), turns - 1);
    }
  }

  lemma {:induction false} PeriodThrough(st: State, es: seq<Event>, x: Tid)
    requires Idle(st) && LegalRun(st, es) && PeriodLeft(es, x)
    ensures Period(After(st, es), x) == Period(st, x) && |After(st, es).timers| == |st.timers|
    decreases |es|
  {
    if es != [] {
      assert EventUnset(es[0], x);
      PeriodByStep(st, es[0], x);
      hide Idle, EventOk, Step, Period, EventUnset;
      PeriodThrough(Step(st, es[0]), es[1..], x);
    }
  }

  /** After the period of x was set, and until it is set again, whatever else happens over any number of ticks, a start
      of x makes it time out that many ticks later. */
  lemma PeriodSetIsUsed(st: State, x: Tid, ticks: Tick, es: seq<Event>)
    requires Idle(st) && EventOk(st, Call(SetTime(x, ticks)))
    requires LegalRun(Step(st, Call(SetTime(x, ticks))), es) && PeriodLeft(es, x)
    ensures var was := After(Step(st, Call(SetTime(x, ticks))), es);
      && x < |was.timers| && was.rows != []
      && Do(was, Start(x)).timers[x].timeout == (st.now + Ticks(es) + ticks) % 0x1_0000_0000
  {
    hide *;
    var st1 := Step(st, Call(SetTime(x, ticks)));
    JustSet(st, x, ticks);
    PeriodThrough(st1, es, x);
    NowAfter(st1, es);
    StartedLater(After(st1, es), x, st.now, Ticks(es));
  }

  lemma JustSet(st: State, x: Tid, ticks: Tick)
    requires Idle(st) && EventOk(st, Call(SetTime(x, ticks)))
    ensures var st1 := Step(st, Call(SetTime(x, ticks)));
      Idle(st1) && Period(st1, x) == ticks && x < |st1.timers| && st1.now == st.now
  {
  }

  lemma StartedLater(st: State, x: Tid, was: Tick, n: nat)
    requires Idle(st) && x < |st.timers| && st.now == TickAfter(was, n)
    ensures st.rows != []
    ensures Do(st, Start(x)).timers[x].timeout == (was + n + Period(st, x)) % 0x1_0000_0000
  {
  }
}
