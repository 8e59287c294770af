/** Hard timers over a 32-bit tick that wraps: the rows of timer lists, what starting, stopping and
    checking do to them, and the order the rows keep. */
module Timers {
  import opened Lists
  import opened TimerRows

  const HALF := 0x7FFF_FFFF     // RT_TICK_MAX / 2

  type Tick = t: int | 0 <= t < 0x1_0000_0000

  datatype Timer = Timer(init: Tick, timeout: Tick, periodic: bool, activated: bool)

  /** rows[|rows| - 1] lists every pending timer; the rows above it are shortcuts. */
  datatype State = State(timers: seq<Timer>, rows: seq<Row>, now: Tick, randomNr: Tick)

  // ----- ticks -----

  function Plus(a: Tick, b: Tick): Tick { (a + b) % 0x1_0000_0000 }
  function Minus(a: Tick, b: Tick): Tick { (a - b) % 0x1_0000_0000 }

  /** The comparison of the insertion walk: t is after u, as far as wrapping ticks can tell. */
  predicate Later(t: Tick, u: Tick) { Minus(t, u) != 0 && Minus(t, u) < HALF }

  /** The comparison of rt_timer_check. */
  predicate Due(now: Tick, timeout: Tick) { Minus(now, timeout) < HALF }

  /** How many ticks from now the timeout is; a timeout of the previous tick counts as -1. */
  function Ahead(now: Tick, timeout: Tick): (d: int)
    ensures -1 <= d < 0xFFFF_FFFF
  {
    (timeout - now + 1) % 0x1_0000_0000 - 1
  }

  lemma LaterIff(now: Tick, t: Tick, u: Tick)
    requires Ahead(now, t) < HALF && 0 <= Ahead(now, u) < HALF
    ensures Later(t, u) <==> Ahead(now, t) > Ahead(now, u)
  {
  }

  lemma DueIff(now: Tick, t: Tick)
    requires Ahead(now, t) < HALF
    ensures Due(now, t) <==> Ahead(now, t) <= 0
  {
  }

  lemma AheadNextTick(now: Tick, t: Tick)
    requires 0 <= Ahead(now, t)
    ensures Ahead(Plus(now, 1), t) == Ahead(now, t) - 1
  {
  }

  lemma AheadOfStart(now: Tick, init: Tick)
    requires init < HALF
    ensures Ahead(now, Plus(now, init)) == init
  {
  }

  // ----- rows -----

  function Last(rows: seq<Row>): Row
    requires rows != []
  {
    rows[|rows| - 1]
  }

  function RemoveAll(rows: seq<Row>, x: Tid): (r: seq<Row>)
    ensures |r| == |rows|
  {
    seq(|rows|, i requires 0 <= i < |rows| => Without(rows[i], x))
  }

  /** x put into the lowest `height` rows. */
  function InsertAll(rows: seq<Row>, late: set<Tid>, x: Tid, height: nat): (r: seq<Row>)
    ensures |r| == |rows|
  {
    seq(|rows|, i requires 0 <= i < |rows| => if i + height >= |rows| then Ins(rows[i], late, x) else rows[i])
  }

  /** How many rows a timer goes to: the last, and one more for each pair of zero bits. */
  function Height(nr: Tick, levels: nat): (h: nat)
    requires levels > 0
    ensures 1 <= h <= levels
    decreases levels
  {
    if levels > 1 && nr % 4 == 0 then 1 + Height(nr / 4, levels - 1) else 1
  }

  function LateSet(timers: seq<Timer>, timeout: Tick): set<Tid> {
    set x: nat | x < |timers| && Later(timers[x].timeout, timeout)
  }

  predicate Nested(rows: seq<Row>) {
    forall r {:trigger rows[r]} :: 0 <= r < |rows| - 1 ==> SubRow(rows[r], rows[r + 1])
  }

  // ----- operations -----

  function Started(st: State, id: Tid): State
    requires id < |st.timers| && st.rows != []
  {
    var t := st.timers[id];
    var u := t.(timeout := Plus(st.now, t.init), activated := true);
    var timers := st.timers[id := u];
    var nr := Plus(st.randomNr, 1);
    State(timers,
          InsertAll(RemoveAll(st.rows, id), LateSet(timers, u.timeout), id, Height(nr, |st.rows|)),
          st.now, nr)
  }

  /** A timer that is not activated is left alone (the call returns an error). */
  function Stopped(st: State, id: Tid): State
    requires id < |st.timers|
  {
    if !st.timers[id].activated then st
    else st.(rows := RemoveAll(st.rows, id), timers := st.timers[id := st.timers[id].(activated := false)])
  }

  /** What a thread or a timeout function may do to timers. */
  datatype Op = Start(id: Tid) | Stop(id: Tid) | SetTime(id: Tid, ticks: Tick) | SetPeriodic(id: Tid, on: bool)

  function Do(st: State, op: Op): State
    requires op.id < |st.timers| && st.rows != []
  {
    match op
    case Start(id) => Started(st, id)
    case Stop(id) => Stopped(st, id)
    case SetTime(id, ticks) => st.(timers := st.timers[id := st.timers[id].(init := ticks)])
    case SetPeriodic(id, on) => st.(timers := st.timers[id := st.timers[id].(periodic := on)])
  }

  // ----- the order of the rows -----

  /** Where the timer stands relative to now. */
  function At(timers: seq<Timer>, now: Tick, x: Tid): int {
    if x < |timers| then Ahead(now, timers[x].timeout) else -1
  }

  predicate InTable(row: Row, n: nat) { forall x :: x in row ==> x < n }

  predicate Sorted(row: Row, timers: seq<Timer>, now: Tick) {
    forall i, j :: 0 <= i < j < |row| ==> At(timers, now, row[i]) <= At(timers, now, row[j])
  }

  predicate Within(row: Row, timers: seq<Timer>, now: Tick, lo: int) {
    forall x :: x in row ==> lo <= At(timers, now, x) < HALF
  }

  /** The rows are shortcuts of one another, the last row has each pending timer once, sorted by how far
      ahead its timeout is, and no timeout is before lo or beyond half the range of the tick. */
  predicate Valid(st: State, lo: int) {
    && st.rows != [] && Nested(st.rows) && Distinct(Last(st.rows))
    && InTable(Last(st.rows), |st.timers|)
    && Sorted(Last(st.rows), st.timers, st.now)
    && Within(Last(st.rows), st.timers, st.now, lo)
  }

  // ----- every row is a part of the last -----

  lemma {:induction false} RowOfLast(rows: seq<Row>, r: nat)
    requires r < |rows| && Nested(rows)
    ensures SubRow(rows[r], Last(rows))
    decreases |rows| - r
  {
    if r == |rows| - 1 {
      KeepAll(Last(rows), Elems(Last(rows)));
    } else {
      RowOfLast(rows, r + 1);
      SubRowTrans(rows[r], rows[r + 1], Last(rows));
    }
  }

  lemma SubRowTrans(a: Row, b: Row, c: Row)
    requires SubRow(a, b) && SubRow(b, c)
    ensures SubRow(a, c)
  {
    KeepElems(b, Elems(a));
    KeepTwice(c, Elems(b), Elems(a));
    assert Elems(b) * Elems(a) == Elems(a);
    assert a == Keep(Keep(c, Elems(b)), Elems(a));
  }

  lemma SubRowElems(a: Row, b: Row)
    requires SubRow(a, b)
    ensures forall x :: x in a ==> x in b
  {
    KeepElems(b, Elems(a));
    assert forall x :: x in a ==> x in Elems(a);
  }

  lemma KeepSorted(s: Row, keep: set<Tid>, timers: seq<Timer>, now: Tick)
    requires Sorted(s, timers, now)
    ensures Sorted(Keep(s, keep), timers, now)
  {
    hide Keep, At;
    forall i, j | 0 <= i < j < |Keep(s, keep)|
      ensures At(timers, now, Keep(s, keep)[i]) <= At(timers, now, Keep(s, keep)[j])
    {
      var a, b := KeepOrder(s, keep, i, j);
    }
  }

  /** Every row, not just the last, is sorted. */
  lemma AllRowsSorted(st: State, lo: int, r: nat)
    requires Valid(st, lo) && r < |st.rows|
    ensures InTable(st.rows[r], |st.timers|) && Sorted(st.rows[r], st.timers, st.now) && Distinct(st.rows[r])
  {
    RowOfLast(st.rows, r);
    SubRowElems(st.rows[r], Last(st.rows));
    KeepSorted(Last(st.rows), Elems(st.rows[r]), st.timers, st.now);
    KeepDistinct(Last(st.rows), Elems(st.rows[r]));
  }

  // ----- removing -----

  lemma RemoveNested(rows: seq<Row>, id: Tid)
    requires Nested(rows)
    ensures Nested(RemoveAll(rows, id))
  {
    var after := RemoveAll(rows, id);
    forall r | 0 <= r < |rows| - 1
      ensures SubRow(after[r], after[r + 1])
    {
      WithoutSub(rows[r], rows[r + 1], id);
    }
  }

  lemma KeepWithin(row: Row, keep: set<Tid>, timers: seq<Timer>, now: Tick, lo: int)
    requires InTable(row, |timers|) && Within(row, timers, now, lo)
    ensures InTable(Keep(row, keep), |timers|) && Within(Keep(row, keep), timers, now, lo)
  {
    KeepElems(row, keep);
    hide Keep, At;
    assert forall x :: x in Keep(row, keep) ==> x in Elems(Keep(row, keep));
  }

  lemma RemoveKeeps(st: State, id: Tid, lo: int)
    requires Valid(st, lo)
    ensures Valid(st.(rows := RemoveAll(st.rows, id)), lo)
    ensures Elems(Last(RemoveAll(st.rows, id))) == Elems(Last(st.rows)) - {id}
    ensures Last(RemoveAll(st.rows, id)) == Without(Last(st.rows), id)
  {
    RemoveNested(st.rows, id);
    var last, keep := Last(st.rows), Elems(Last(st.rows)) - {id};
    WithoutElems(last, id);
    hide Keep, Nested, Sorted, Within, InTable, Distinct;
    KeepSorted(last, keep, st.timers, st.now);
    KeepDistinct(last, keep);
    KeepWithin(last, keep, st.timers, st.now, lo);
  }

  // ----- inserting -----

  /** Another timeout for a timer that is in no row. */
  lemma RetimedAbsent(row: Row, timers: seq<Timer>, now: Tick, id: Tid, t: Timer, lo: int)
    requires id < |timers| && id !in row && InTable(row, |timers|)
    requires Sorted(row, timers, now) && Within(row, timers, now, lo)
    ensures Sorted(row, timers[id := t], now) && Within(row, timers[id := t], now, lo)
  {
    assert forall x :: x in row ==> At(timers[id := t], now, x) == At(timers, now, x);
  }

  lemma SortedPartitioned(row: Row, timers: seq<Timer>, now: Tick, timeout: Tick)
    requires InTable(row, |timers|) && Sorted(row, timers, now) && Within(row, timers, now, -1)
    requires 0 <= Ahead(now, timeout) < HALF
    ensures Partitioned(row, LateSet(timers, timeout))
    ensures forall x :: x in row ==> (x in LateSet(timers, timeout) <==> At(timers, now, x) > Ahead(now, timeout))
  {
    forall x | x in row
      ensures x in LateSet(timers, timeout) <==> At(timers, now, x) > Ahead(now, timeout)
    {
      LaterIff(now, timers[x].timeout, timeout);
    }
  }

  lemma SubPartitioned(a: Row, b: Row, late: set<Tid>)
    requires SubRow(a, b) && Partitioned(b, late)
    ensures Partitioned(a, late)
  {
    hide Keep;
    forall i, j | 0 <= i < j < |a| && a[i] in late
      ensures a[j] in late
    {
      var i2, j2 := KeepOrder(b, Elems(a), i, j);
    }
  }

  lemma InsertedSorted(row: Row, timers: seq<Timer>, now: Tick, id: Tid, k: nat)
    requires Sorted(row, timers, now) && k <= |row|
    requires forall i :: 0 <= i < k ==> At(timers, now, row[i]) <= At(timers, now, id)
    requires forall i :: k <= i < |row| ==> At(timers, now, id) <= At(timers, now, row[i])
    ensures Sorted(row[..k] + [id] + row[k..], timers, now)
  {
    hide At;
    var s := row[..k] + [id] + row[k..];
    assert forall i :: 0 <= i < k ==> s[i] == row[i];
    assert forall i :: k < i < |s| ==> s[i] == row[i - 1];
  }

  lemma InsSorted(row: Row, timers: seq<Timer>, now: Tick, id: Tid)
    requires Sorted(row, timers, now) && Within(row, timers, now, -1) && InTable(row, |timers|)
    requires id < |timers| && 0 <= At(timers, now, id) < HALF
    ensures Sorted(Ins(row, LateSet(timers, timers[id].timeout), id), timers, now)
  {
    var late := LateSet(timers, timers[id].timeout);
    SortedPartitioned(row, timers, now, timers[id].timeout);
    var k := Place(row, late);
    LateFrom(row, late, k);
    assert forall i :: k <= i < |row| ==> row[i] in row[k..];
    hide LateSet, Place, Sorted;
    InsertedSorted(row, timers, now, id, k);
  }

  lemma InsWithin(row: Row, late: set<Tid>, timers: seq<Timer>, now: Tick, id: Tid, lo: int)
    requires InTable(row, |timers|) && Within(row, timers, now, lo)
    requires id < |timers| && lo <= At(timers, now, id) < HALF
    ensures InTable(Ins(row, late, id), |timers|) && Within(Ins(row, late, id), timers, now, lo)
  {
    InsElems(row, late, id);
    hide Ins, At;
    assert forall x :: x in Ins(row, late, id) ==> x in Elems(Ins(row, late, id));
  }

  lemma InsertNested(rows: seq<Row>, late: set<Tid>, id: Tid, height: nat)
    requires rows != [] && Nested(rows) && Partitioned(Last(rows), late) && id !in Last(rows)
    ensures Nested(InsertAll(rows, late, id, height))
  {
    var after := InsertAll(rows, late, id, height);
    forall r | 0 <= r < |rows| - 1
      ensures SubRow(after[r], after[r + 1])
    {
      RowOfLast(rows, r + 1);
      SubPartitioned(rows[r + 1], Last(rows), late);
      SubRowElems(rows[r + 1], Last(rows));
      if r + height >= |rows| {
        InsBothSub(rows[r], rows[r + 1], late, id);
      } else if r + 1 + height >= |rows| {
        InsBelowSub(rows[r], rows[r + 1], late, id);
      }
    }
  }

  /** Starting a timer keeps the rows in order and puts the timer after every timer that times out no
      later and before every one that times out later. */
  lemma StartKeeps(st: State, id: Tid, lo: int)
    requires Valid(st, lo) && -1 <= lo && id < |st.timers| && lo <= st.timers[id].init < HALF
    ensures Valid(Started(st, id), lo)
    ensures Elems(Last(Started(st, id).rows)) == Elems(Last(st.rows)) + {id}
    ensures At(Started(st, id).timers, st.now, id) == st.timers[id].init
  {
    var rows := RemoveAll(st.rows, id);
    var t := st.timers[id].(timeout := Plus(st.now, st.timers[id].init), activated := true);
    RemoveKeeps(st, id, lo);
    AbsentFrom(Last(rows), id);
    RetimedAbsent(Last(rows), st.timers, st.now, id, t, lo);
    AheadOfStart(st.now, st.timers[id].init);
    PutIn(st.(rows := rows, timers := st.timers[id := t]), id, Height(Plus(st.randomNr, 1), |rows|), lo);
  }

  lemma AbsentFrom(row: Row, id: Tid)
    requires id !in Elems(row)
    ensures id !in row
  {
  }

  /** The insertion itself: a timer that is in no row goes to the lowest rows. */
  lemma PutIn(st: State, id: Tid, height: nat, lo: int)
    requires Valid(st, lo) && -1 <= lo && id < |st.timers| && id !in Last(st.rows) && height > 0
    requires 0 <= At(st.timers, st.now, id) < HALF && lo <= At(st.timers, st.now, id)
    ensures var late := LateSet(st.timers, st.timers[id].timeout);
      && Valid(st.(rows := InsertAll(st.rows, late, id, height)), lo)
      && Elems(Last(InsertAll(st.rows, late, id, height))) == Elems(Last(st.rows)) + {id}
  {
    var rows, late := st.rows, LateSet(st.timers, st.timers[id].timeout);
    WithinFrom(Last(rows), st.timers, st.now, lo);
    SortedPartitioned(Last(rows), st.timers, st.now, st.timers[id].timeout);
    hide LateSet, Ins, Nested, Sorted, Within, InTable, Distinct, Partitioned;
    InsertNested(rows, late, id, height);
    InsSorted(Last(rows), st.timers, st.now, id);
    InsWithin(Last(rows), late, st.timers, st.now, id, lo);
    InsElems(Last(rows), late, id);
    InsDistinct(Last(rows), late, id);
  }

  lemma WithinFrom(row: Row, timers: seq<Timer>, now: Tick, lo: int)
    requires Within(row, timers, now, lo) && -1 <= lo
    ensures Within(row, timers, now, -1)
  {
  }

  lemma StopKeeps(st: State, id: Tid, lo: int)
    requires Valid(st, lo) && id < |st.timers|
    ensures Valid(Stopped(st, id), lo)
    ensures Elems(Last(Stopped(st, id).rows)) == Elems(Last(st.rows)) - (if st.timers[id].activated then {id} else {})
  {
    RemoveKeeps(st, id, lo);
    SameTimeouts(st.(rows := RemoveAll(st.rows, id)), st.timers[id := st.timers[id].(activated := false)], lo);
  }

  /** Flags and periods have no part in the order. */
  lemma SameTimeouts(st: State, timers: seq<Timer>, lo: int)
    requires Valid(st, lo) && |timers| == |st.timers|
    requires forall x :: 0 <= x < |timers| ==> timers[x].timeout == st.timers[x].timeout
    ensures Valid(st.(timers := timers), lo)
  {
    assert forall x :: x in Last(st.rows) ==> At(timers, st.now, x) == At(st.timers, st.now, x);
  }
}
