/** The timers as timer.c runs them: the insertion walk down the rows, removal row by row, the check
    loop and the tick, each doing exactly what the specification of its name says. */
module TimerSystem {
  import opened Lists
  import opened TimerRows
  import opened Timers
  import opened TimerRuns
  import opened TimerFiring
  import opened TimerOrder

  /** A row without x, x unlinked where it stands; a timer that is in no row is left alone. */
  function Unlinked(s: Row, x: Tid): Row {
    if x in s then s[..IndexOf(s, x)] + s[IndexOf(s, x) + 1..] else s
  }

  lemma UnlinkedIsWithout(s: Row, x: Tid)
    requires Distinct(s)
    ensures Unlinked(s, x) == Without(s, x)
  {
    if x in s { WithoutAt(s, IndexOf(s, x)); } else { WithoutAbsent(s, x); }
  }

  predicate AllDistinct(rows: seq<Row>) { forall r :: 0 <= r < |rows| ==> Distinct(rows[r]) }

  lemma RowsDistinct(st: State, lo: int)
    requires Valid(st, lo)
    ensures AllDistinct(st.rows)
  {
    forall r | 0 <= r < |st.rows|
      ensures Distinct(st.rows[r])
    {
      AllRowsSorted(st, lo, r);
    }
  }

  /** What the walk needs of the rows: each a part of the next, each split by the new timeout. */
  predicate Walkable(rows: seq<Row>, late: set<Tid>) {
    Nested(rows) && forall r :: 0 <= r < |rows| ==> Partitioned(rows[r], late)
  }

  lemma RowsWalkable(st: State, id: Tid)
    requires Valid(st, -1) && id < |st.timers| && 0 <= At(st.timers, st.now, id) < HALF
    ensures Walkable(st.rows, LateSet(st.timers, st.timers[id].timeout))
  {
    var late := LateSet(st.timers, st.timers[id].timeout);
    SortedPartitioned(Last(st.rows), st.timers, st.now, st.timers[id].timeout);
    forall r | 0 <= r < |st.rows|
      ensures Partitioned(st.rows[r], late)
    {
      RowOfLast(st.rows, r);
      SubPartitioned(st.rows[r], Last(st.rows), late);
    }
  }

  /** The rows as the walk finds them: the timer is off them and has its new timeout. */
  lemma ReadyToInsert(st: State, id: Tid, timers: seq<Timer>)
    requires Valid(st, -1) && id < |st.timers| && st.timers[id].init < HALF
    requires timers == st.timers[id := st.timers[id].(activated := false, timeout := Plus(st.now, st.timers[id].init))]
    ensures var rows := RemoveAll(st.rows, id);
      rows != [] && Walkable(rows, LateSet(timers, timers[id].timeout)) && AllInTable(rows, |timers|)
  {
    var rows := RemoveAll(st.rows, id);
    RemoveKeeps(st, id, -1);
    AbsentFrom(Last(rows), id);
    RetimedAbsent(Last(rows), st.timers, st.now, id, timers[id], -1);
    AheadOfStart(st.now, st.timers[id].init);
    var st1 := st.(rows := rows, timers := timers);
    RowsWalkable(st1, id);
    forall r | 0 <= r < |rows|
      ensures InTable(rows[r], |timers|)
    {
      AllRowsSorted(st1, -1, r);
    }
  }

  predicate AllInTable(rows: seq<Row>, n: nat) { forall r :: 0 <= r < |rows| ==> InTable(rows[r], n) }

  lemma InTableAt(rows: seq<Row>, n: nat, r: nat)
    requires AllInTable(rows, n) && r < |rows|
    ensures InTable(rows[r], n)
  {
  }

  /** The places found so far, row by row. */
  predicate Placed(rows: seq<Row>, late: set<Tid>, rowHead: seq<nat>) {
    |rowHead| <= |rows| && forall r :: 0 <= r < |rowHead| ==> rowHead[r] == Place(rows[r], late)
  }

  lemma PlacedNone(rows: seq<Row>, late: set<Tid>)
    ensures Placed(rows, late, [])
  {
  }

  lemma PlacedMore(rows: seq<Row>, late: set<Tid>, rowHead: seq<nat>, pos: nat)
    requires Placed(rows, late, rowHead) && |rowHead| < |rows| && pos == Place(rows[|rowHead|], late)
    ensures Placed(rows, late, rowHead + [pos])
  {
  }

  /** Which timers are late depends on timeouts only. */
  lemma LateByTimeout(a: seq<Timer>, b: seq<Timer>, timeout: Tick)
    requires |a| == |b| && forall x :: 0 <= x < |a| ==> a[x].timeout == b[x].timeout
    ensures LateSet(a, timeout) == LateSet(b, timeout)
  {
  }

  class TimerSystem {
    var timers: seq<Timer>
    var rows: seq<Row>
    var now: Tick
    var randomNr: Tick

    /** Timers freshly initialised: none activated, no timeout set. */
    constructor (levels: nat, timers: seq<Timer>)
      requires levels > 0 && AllSound(timers) && forall x :: 0 <= x < |timers| ==> !timers[x].activated
      ensures Idle(State()) && Flagged(State()) && State().timers == timers && |State().rows| == levels
    {
      this.timers, rows, now, randomNr := timers, seq(levels, _ => []), 0, 0;
    }

    function State(): State
      reads this
    {
      Timers.State(timers, rows, now, randomNr)
    }

    /** _rt_timer_remove: out of every row. */
    method Remove(id: Tid)
      requires AllDistinct(rows)
      modifies this`rows
      ensures rows == RemoveAll(old(rows), id)
    {
      ghost var before := rows;
      var i := 0;
      while i < |rows|
        invariant i <= |rows| == |before|
        invariant forall r :: 0 <= r < i ==> rows[r] == Without(before[r], id)
        invariant forall r :: i <= r < |rows| ==> rows[r] == before[r]
      {
        assert Distinct(before[i]);
        UnlinkedIsWithout(rows[i], id);
        rows := rows[i := Unlinked(rows[i], id)];
        i := i + 1;
      }
    }

    /** The walk along one row: past every entry that does not time out later. */
    method Walk(r: nat, from: nat, id: Tid) returns (pos: nat)
      requires r < |rows| && id < |timers| && InTable(rows[r], |timers|)
      requires from <= Place(rows[r], LateSet(timers, timers[id].timeout))
      ensures pos == Place(rows[r], LateSet(timers, timers[id].timeout))
    {
      ghost var late := LateSet(timers, timers[id].timeout);
      pos := from;
      while pos < |rows[r]|
        invariant pos <= Place(rows[r], late)
        decreases |rows[r]| - pos
      {
        var t := rows[r][pos];
        assert t in rows[r];
        if Later(timers[t].timeout, timers[id].timeout) { break; }
        pos := pos + 1;
      }
    }

    /** The entry a row below that the walk goes on from: right after the same timer, or the row's head. */
    method Descend(r: nat, pos: nat, ghost late: set<Tid>) returns (from: nat)
      requires r + 1 < |rows| && Walkable(rows, late) && pos == Place(rows[r], late)
      ensures from <= Place(rows[r + 1], late)
    {
      DescendBelow(rows[r], rows[r + 1], late);
      from := if pos == 0 then 0 else IndexOf(rows[r + 1], rows[r][pos - 1]) + 1;
    }

    /** Where the timer goes in every row; the walk in a row begins where the walk above it ended. */
    method FindPlaces(id: Tid) returns (rowHead: seq<nat>)
      requires id < |timers| && rows != [] && Walkable(rows, LateSet(timers, timers[id].timeout))
      requires AllInTable(rows, |timers|)
      ensures |rowHead| == |rows| && Placed(rows, LateSet(timers, timers[id].timeout), rowHead)
    {
      ghost var late := LateSet(timers, timers[id].timeout);
      rowHead := [];
      var from: nat, r: nat := 0, 0;
      PlacedNone(rows, late);
      hide Walkable, Place, LateSet, Placed, AllInTable, InTable;
      while r < |rows|
        invariant r <= |rows| && |rowHead| == r && Placed(rows, late, rowHead)
        invariant r < |rows| ==> from <= Place(rows[r], late)
      {
        InTableAt(rows, |timers|, r);
        var pos := Walk(r, from, id);
        PlacedMore(rows, late, rowHead, pos);
        rowHead := rowHead + [pos];
        if r + 1 < |rows| { from := Descend(r, pos, late); }
        r := r + 1;
      }
    }

    /** Into the last row, and up one row for every pair of zero bits in the counter. */
    method Link(id: Tid, rowHead: seq<nat>, ghost late: set<Tid>)
      requires rows != [] && |rowHead| == |rows| && Placed(rows, late, rowHead)
      modifies this`rows
      ensures rows == InsertAll(old(rows), late, id, Height(randomNr, |old(rows)|))
    {
      ghost var before, levels := rows, |rows|;
      var tst: Tick, lvl := randomNr, 1;
      var k := |rows| - 1;
      rows := rows[k := rows[k][..rowHead[k]] + [id] + rows[k][rowHead[k]..]];
      while lvl < |rows| && tst % 4 == 0
        invariant 1 <= lvl <= levels == |rows|
        invariant rows == InsertAll(before, late, id, lvl)
        invariant Height(randomNr, levels) == lvl - 1 + Height(tst, levels - lvl + 1)
        decreases levels - lvl
      {
        var k := |rows| - 1 - lvl;
        rows := rows[k := rows[k][..rowHead[k]] + [id] + rows[k][rowHead[k]..]];
        tst := tst / 4;
        lvl := lvl + 1;
      }
    }

    /** The insertion of a timer that is off the rows and has its timeout. */
    method Insert(id: Tid)
      requires id < |timers| && rows != [] && Walkable(rows, LateSet(timers, timers[id].timeout))
      requires AllInTable(rows, |timers|)
      modifies this`rows, this`randomNr
      ensures randomNr == Plus(old(randomNr), 1)
      ensures rows == InsertAll(old(rows), LateSet(timers, timers[id].timeout), id, Height(randomNr, |old(rows)|))
    {
      var rowHead := FindPlaces(id);
      randomNr := Plus(randomNr, 1);
      Link(id, rowHead, LateSet(timers, timers[id].timeout));
    }

    /** A timer leaves the rows and is given the tick at which it is due. */
    method Retime(id: Tid)
      requires Valid(State(), -1) && id < |timers| && timers[id].init < HALF
      modifies this`rows, this`timers
      ensures timers ==
        old(timers)[id := old(timers)[id].(activated := false, timeout := Plus(now, old(timers)[id].init))]
      ensures rows == RemoveAll(old(rows), id) && rows != [] && |rows| == |old(rows)|
      ensures Walkable(rows, LateSet(timers, timers[id].timeout)) && AllInTable(rows, |timers|)
    {
      ghost var st := State();
      RowsDistinct(st, -1);
      Remove(id);
      assert |rows| == |st.rows|;
      hide Valid, Walkable, AllInTable, AllDistinct, LateSet, RemoveAll, Plus;
      timers := timers[id := timers[id].(activated := false)];
      timers := timers[id := timers[id].(timeout := Plus(now, timers[id].init))];
      ReadyToInsert(st, id, timers);
    }

    method Start(id: Tid)
      requires Valid(State(), -1) && id < |timers| && timers[id].init < HALF
      modifies this
      ensures State() == Started(old(State()), id)
    {
      ghost var st := State();
      hide Valid, Walkable, AllInTable, LateSet, InsertAll, RemoveAll, Height, Plus;
      Retime(id);
      Insert(id);
      ghost var walked := timers;
      timers := timers[id := timers[id].(activated := true)];
      LateByTimeout(walked, timers, timers[id].timeout);
      assert timers == Started(st, id).timers;
    }

    method Stop(id: Tid) returns (ok: bool)
      requires Valid(State(), -1) && id < |timers|
      modifies this`rows, this`timers
      ensures State() == Stopped(old(State()), id) && ok == old(timers[id].activated)
    {
      ok := timers[id].activated;
      if ok {
        RowsDistinct(State(), -1);
        Remove(id);
        timers := timers[id := timers[id].(activated := false)];
      }
    }

    /** rt_timer_control. */
    method Control(op: Op)
      requires op.id < |timers| && (op.SetTime? || op.SetPeriodic?) && rows != []
      modifies this`timers
      ensures State() == Do(old(State()), op)
    {
      match op
      case SetTime(id, ticks) => timers := timers[id := timers[id].(init := ticks)];
      case SetPeriodic(id, on) => timers := timers[id := timers[id].(periodic := on)];
    }

    /** What a timeout function does. */
    method CallTimeout(ops: seq<Op>)
      requires Valid(State(), -1) && AllSound(timers) && OpsOk(timers, ops)
      modifies this
      ensures OpsInTable(ops, |old(timers)|) && State() == DoAll(old(State()), ops)
      decreases |ops|
    {
      OkInTable(timers, ops);
      if ops != [] {
        ghost var st := State();
        DoKeeps(st, ops[0], -1, 1);
        OpsStayOk(st, ops[0], ops[1..]);
        match ops[0] {
          case Start(id) => Start(id);
          case Stop(id) => var ok := Stop(id);
          case SetTime(_, _) => Control(ops[0]);
          case SetPeriodic(_, _) => Control(ops[0]);
        }
        assert State() == Do(st, ops[0]);
        CallTimeout(ops[1..]);
      }
    }

    /** One turn of the check loop. */
    method Fire(x: Tid, ops: seq<Op>)
      requires Valid(State(), -1) && AllSound(timers) && OpsOk(timers, ops) && x in DueSet(State())
      modifies this
      ensures x < |old(timers)| && OpsInTable(ops, |old(timers)|) && State() == Turn(old(State()), x, ops)
    {
      ghost var st := State();
      TurnKeeps(st, x, ops);
      RowsDistinct(st, -1);
      RemoveKeeps(st, x, -1);
      Remove(x);
      ghost var st1 := State();
      DoAllKeeps(st1, ops);
      CallTimeout(ops);
      if timers[x].periodic && timers[x].activated {
        ghost var st2 := State();
        timers := timers[x := timers[x].(activated := false)];
        SameTimeouts(st2, timers, -1);
        Start(x);
        RestartUnflagged(st2, x);
      } else {
        timers := timers[x := timers[x].(activated := false)];
      }
    }

    /** rt_timer_check. */
    method Check(acts: Acts) returns (fired: seq<Tid>)
      requires Valid(State(), -1) && AllSound(timers) && ActsOk(timers, acts)
      modifies this
      ensures ActsInTable(acts, |old(timers)|)
      ensures var o := CheckFor(old(State()), acts, |DueSet(old(State()))|);
        o.ended && State() == o.st && fired == o.fired
    {
      ghost var st, turns := State(), |DueSet(State())|;
      ghost var left: nat := turns;
      ghost var whole := Outcome(st, [], true);
      var more := acts;
      fired := [];
      CheckBegins(st, acts);
      whole := CheckFor(st, acts, turns);
      hide CheckFor, Valid, AllSound, ActsOk, ActsInTable, DueSet, ToDo, OpsOk, OpsInTable, Turn, First, Others,
          HeadDue;
      while |Last(rows)| > 0 && Due(now, timers[Last(rows)[0]].timeout)
        invariant Checking(State(), more, left) && rows != []
        invariant |Last(rows)| > 0 ==> Last(rows)[0] < |timers|
        invariant ActsInTable(more, |timers|) && ToDo(whole, fired, CheckFor(State(), more, left))
        decreases left
      {
        ghost var st1 := State();
        var x := Last(rows)[0];
        OneTurn(st1, more, left, whole, fired);
        Fire(x, First(more));
        fired, more, left := fired + [x], Others(more), left - 1;
      }
      CheckDone(State(), more, left, whole, fired);
    }

    /** rt_tick_increase, as far as the timers go. */
    method TickIncrease(acts: Acts) returns (fired: seq<Tid>)
      requires Idle(State()) && ActsOk(timers, acts)
      modifies this
      ensures ActsInTable(acts, |old(timers)|)
      ensures State() == Checked(old(State()), acts).st && fired == Checked(old(State()), acts).fired && Idle(State())
    {
      TickKeeps(State());
      CheckedIdle(State(), acts);
      now := Plus(now, 1);
      fired := Check(acts);
    }
  }

  /** What holds at the head of the check loop. */
  ghost predicate Checking(st: State, acts: Acts, left: nat) {
    Valid(st, -1) && AllSound(st.timers) && ActsOk(st.timers, acts) && |DueSet(st)| <= left
  }

  lemma CheckBegins(st: State, acts: Acts)
    requires Valid(st, -1) && AllSound(st.timers) && ActsOk(st.timers, acts)
    ensures Checking(st, acts, |DueSet(st)|) && HeadInTable(st) && ActsInTable(acts, |st.timers|)
    ensures var whole := CheckFor(st, acts, |DueSet(st)|); whole.ended && ToDo(whole, [], whole)
  {
    OkActs(st.timers, acts);
    CheckEnds(st, acts, |DueSet(st)|);
  }

  predicate HeadInTable(st: State) { st.rows != [] && (|Last(st.rows)| > 0 ==> Last(st.rows)[0] < |st.timers|) }

  lemma OneTurn(st: State, acts: Acts, left: nat, whole: Outcome, fired: seq<Tid>)
    requires Checking(st, acts, left) && st.rows != [] && |Last(st.rows)| > 0 && Last(st.rows)[0] < |st.timers|
    requires Due(st.now, st.timers[Last(st.rows)[0]].timeout)
    requires ActsInTable(acts, |st.timers|) && ToDo(whole, fired, CheckFor(st, acts, left))
    ensures left > 0 && Valid(st, -1) && AllSound(st.timers) && OpsOk(st.timers, First(acts))
      && OpsInTable(First(acts), |st.timers|)
    ensures var x := Last(st.rows)[0]; var st1 := Turn(st, x, First(acts));
      && x in DueSet(st) && Checking(st1, Others(acts), left - 1) && HeadInTable(st1)
           && ActsInTable(Others(acts), |st1.timers|)
      && ToDo(whole, fired + [x], CheckFor(st1, Others(acts), left - 1))
  {
    var x := Last(st.rows)[0];
    TurnChecking(st, acts, left);
    TurnHead(Turn(st, x, First(acts)), Others(acts), left - 1);
    assert HeadDue(st);
    hide *;
    CheckOne(st, acts, left);
    ToDoMore(whole, fired, x, CheckFor(Turn(st, x, First(acts)), Others(acts), left - 1));
  }

  lemma TurnChecking(st: State, acts: Acts, left: nat)
    requires Checking(st, acts, left) && st.rows != [] && HeadDue(st)
    ensures left > 0 && Valid(st, -1) && AllSound(st.timers) && OpsOk(st.timers, First(acts))
      && OpsInTable(First(acts), |st.timers|)
    ensures ActsInTable(acts, |st.timers|)
    ensures var x := Last(st.rows)[0]; var st1 := Turn(st, x, First(acts));
      x in DueSet(st) && Checking(st1, Others(acts), left - 1) && |st1.timers| == |st.timers|
  {
    NextTurn(st, acts);
    OkActs(st.timers, acts);
    ActsParts(acts, |st.timers|);
    hide Turn, Valid, AllSound, ActsOk, OpsOk, ActsInTable, DueSet, First, Others, HeadDue, OpsInTable;
    SmallerDue(DueSet(Turn(st, Last(st.rows)[0], First(acts))), DueSet(st), Last(st.rows)[0]);
  }

  lemma TurnHead(st: State, acts: Acts, left: nat)
    requires Checking(st, acts, left)
    ensures HeadInTable(st) && ActsInTable(acts, |st.timers|)
  {
    OkActs(st.timers, acts);
    hide ActsOk, AllSound, DueSet, ActsInTable;
    if |Last(st.rows)| > 0 { assert Last(st.rows)[0] in Last(st.rows); }
  }

  lemma ToDoMore(whole: Outcome, fired: seq<Tid>, x: Tid, rest: Outcome)
    requires ToDo(whole, fired, rest.(fired := [x] + rest.fired))
    ensures ToDo(whole, fired + [x], rest)
  {
    Associative(fired, [x], rest.fired);
  }

  lemma CheckDone(st: State, acts: Acts, left: nat, whole: Outcome, fired: seq<Tid>)
    requires st.rows != [] && (|Last(st.rows)| > 0 ==>
      Last(st.rows)[0] < |st.timers| && !Due(st.now, st.timers[Last(st.rows)[0]].timeout))
    requires ActsInTable(acts, |st.timers|) && ToDo(whole, fired, CheckFor(st, acts, left))
    ensures whole.st == st && whole.fired == fired
  {
    CheckStops(st, acts, left);
  }

  /** What the whole loop gives is what it has given so far and what the rest of it gives. */
  ghost predicate ToDo(whole: Outcome, fired: seq<Tid>, rest: Outcome) {
    whole == rest.(fired := fired + rest.fired)
  }

  /** Clearing the flag first makes no difference to a restart. */
  lemma RestartUnflagged(st: State, x: Tid)
    requires x < |st.timers| && st.rows != []
    ensures Started(st.(timers := st.timers[x := st.timers[x].(activated := false)]), x) == Started(st, x)
  {
  }
}
