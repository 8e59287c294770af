/** When the check loop ends: for ever is for timers of zero ticks that are started again as they fire. */
module TimerHangs {
  import opened Lists
  import opened TimerRows
  import opened Timers
  import opened TimerRuns
  import opened TimerFiring

  /** No timer is longer than the check can tell. */
  predicate Short(timers: seq<Timer>) { forall x :: 0 <= x < |timers| ==> timers[x].init < HALF }

  /** Started again by the check itself, for the tick at hand. */
  predicate Endless(t: Timer) { t.periodic && t.activated && t.init == 0 }

  predicate EndlessDue(st: State, x: Tid)
    requires st.rows != []
  {
    x in DueSet(st) && x < |st.timers| && Endless(st.timers[x])
  }

  /** A turn whose timeout function does nothing to timers. */
  predicate TurnedTo(st: State, y: Tid, r: State) {
    && Valid(r, -1) && Short(r.timers) && |r.timers| == |st.timers| && r.now == st.now && r.rows != [] && st.rows != []
    && y < |st.timers| && (forall x :: 0 <= x < |st.timers| && x != y ==> r.timers[x] == st.timers[x])
    && (if Endless(st.timers[y]) then Endless(r.timers[y]) && DueSet(r) == DueSet(st)
         else DueSet(r) == DueSet(st) - {y})
  }

  lemma SameDue(st: State, r: State, last: set<Tid>)
    requires st.rows != [] && r.rows != [] && Elems(Last(r.rows)) == last && r.now == st.now
    requires forall x :: x in last ==> At(r.timers, r.now, x) == At(st.timers, st.now, x)
    ensures DueSet(r) == set x | x in last && At(st.timers, st.now, x) <= 0
  {
    assert forall x :: x in Last(r.rows) <==> x in Elems(Last(r.rows));
  }

  lemma RemovedDue(st: State, y: Tid)
    requires Valid(st, -1)
    ensures var st1 := st.(rows := RemoveAll(st.rows, y));
      Valid(st1, -1) && y !in Last(st1.rows) && DueSet(st1) == DueSet(st) - {y}
  {
    var st1 := st.(rows := RemoveAll(st.rows, y));
    RemoveKeeps(st, y, -1);
    AbsentFrom(Last(st1.rows), y);
    SameDue(st, st1, Elems(Last(st.rows)) - {y});
    assert forall x :: x in Last(st.rows) <==> x in Elems(Last(st.rows));
  }

  /** Starting a timer makes it due if it is of zero ticks, and changes no other. */
  lemma StartDue(st: State, y: Tid)
    requires Valid(st, -1) && Short(st.timers) && y < |st.timers|
    ensures var r := Started(st, y);
      && Valid(r, -1) && Short(r.timers)
      && DueSet(r) == (if st.timers[y].init == 0 then DueSet(st) + {y} else DueSet(st) - {y})
  {
    var r := Started(st, y);
    StartKeeps(st, y, -1);
    assert forall x :: x in Last(st.rows) <==> x in Elems(Last(st.rows));
    assert forall x :: x in Last(r.rows) <==> x in Elems(Last(r.rows));
    assert forall x :: x != y ==> At(r.timers, r.now, x) == At(st.timers, st.now, x);
  }

  lemma FlagDue(st: State, y: Tid)
    requires Valid(st, -1) && Short(st.timers) && y < |st.timers|
    ensures var r := st.(timers := st.timers[y := st.timers[y].(activated := false)]);
      Valid(r, -1) && Short(r.timers) && DueSet(r) == DueSet(st)
  {
    SameTimeouts(st, st.timers[y := st.timers[y].(activated := false)], -1);
  }

  lemma PlainTurn(st: State, y: Tid)
    requires Valid(st, -1) && Short(st.timers) && y in DueSet(st) && y < |st.timers|
    ensures TurnedTo(st, y, Turn(st, y, []))
  {
    var st1 := st.(rows := RemoveAll(st.rows, y));
    RemovedDue(st, y);
    assert DoAll(st1, []) == st1;
    StartDue(st1, y);
    FlagDue(st1, y);
    RearmedOthers(st1, y);
    hide Valid, Short, DueSet, RemoveAll, Started;
  }

  lemma RearmedOthers(st: State, y: Tid)
    requires y < |st.timers| && st.rows != []
    ensures forall x :: 0 <= x < |st.timers| && x != y ==> Rearmed(st, y).timers[x] == st.timers[x]
    ensures Endless(st.timers[y]) ==> Endless(Started(st, y).timers[y])
    ensures Started(st, y).now == st.now && |Started(st, y).timers| == |st.timers| && Started(st, y).rows != []
  {
  }

  lemma PlainNext(st: State)
    requires Valid(st, -1) && Short(st.timers) && HeadDue(st)
    ensures var y := Last(st.rows)[0]; y in DueSet(st) && TurnedTo(st, y, Turn(st, y, []))
  {
    HeadIsDue(st);
    PlainTurn(st, Last(st.rows)[0]);
  }

  lemma PlainCheck(st: State, turns: nat)
    requires st.rows != []
    ensures !HeadDue(st) ==> CheckFor(st, [], turns).ended
    ensures HeadDue(st) && turns == 0 ==> !CheckFor(st, [], turns).ended
    ensures HeadDue(st) && turns > 0 ==>
      CheckFor(st, [], turns).ended == CheckFor(Turn(st, Last(st.rows)[0], []), [], turns - 1).ended
  {
  }

  lemma {:induction false} EndsWithout(st: State, turns: nat)
    requires Valid(st, -1) && Short(st.timers) && |DueSet(st)| <= turns
    requires forall x :: x in DueSet(st) ==> !EndlessDue(st, x)
    ensures CheckFor(st, [], turns).ended
    decreases turns
  {
    PlainCheck(st, turns);
    if HeadDue(st) {
      PlainNext(st);
      var y := Last(st.rows)[0];
      var r := Turn(st, y, []);
      hide Valid, CheckFor, Turn;
      assert !EndlessDue(st, y);
      SmallerDue(DueSet(r), DueSet(st), y);
      assert forall x :: x in DueSet(r) ==> x != y && (EndlessDue(r, x) ==> EndlessDue(st, x));
      EndsWithout(r, turns - 1);
    }
  }

  lemma {:induction false} NeverEndsWith(st: State, x: Tid, turns: nat)
    requires Valid(st, -1) && Short(st.timers) && EndlessDue(st, x)
    ensures !CheckFor(st, [], turns).ended
    decreases turns
  {
    PlainCheck(st, turns);
    if !HeadDue(st) { NoneDue(st); }
    if turns > 0 {
      PlainNext(st);
      var y := Last(st.rows)[0];
      hide Valid, CheckFor, Turn;
      assert EndlessDue(Turn(st, y, []), x);
      NeverEndsWith(Turn(st, y, []), x, turns - 1);
    }
  }

  ghost predicate Ends(st: State)
    requires st.rows != []
  {
    exists turns: nat :: CheckFor(st, [], turns).ended
  }

  /** If timeout functions leave timers alone, the check loop ends if and only if no due timer is periodic,
      activated and of zero ticks. */
  lemma EndsIff(st: State)
    requires Valid(st, -1) && Short(st.timers)
    ensures Ends(st) <==> forall x :: x in DueSet(st) ==> !EndlessDue(st, x)
  {
    if x :| x in DueSet(st) && EndlessDue(st, x) {
      forall turns: nat
        ensures !CheckFor(st, [], turns).ended
      {
        NeverEndsWith(st, x, turns);
      }
    } else {
      EndsWithout(st, |DueSet(st)|);
    }
  }

  // ----- reached from a start -----

  /** A timer of zero ticks is due in the check of the tick after its start. */
  lemma StartedDue(st: State, x: Tid)
    requires Valid(st, 0) && Short(st.timers) && x < |st.timers| && st.timers[x].init == 0
    ensures var r := Ticked(Started(st, x));
      && Valid(r, -1) && Short(r.timers) && x < |r.timers| && r.timers[x].init == 0 && x in DueSet(r)
      && r.timers[x].activated && r.timers[x].periodic == st.timers[x].periodic
  {
    StartKeeps(st, x, 0);
    var s := Started(st, x);
    assert x in Elems(Last(s.rows));
    hide Valid;
    TickKeeps(s);
  }

  /** A thread starts a periodic timer of zero ticks: the check of the next tick never ends. */
  lemma ZeroPeriodHangs(st: State, x: Tid)
    requires Valid(st, 0) && Short(st.timers) && x < |st.timers| && st.timers[x].periodic && st.timers[x].init == 0
    ensures Started(st, x).rows != [] && !Ends(Ticked(Started(st, x)))
  {
    StartedDue(st, x);
    hide Started, Valid, DueSet;
    assert EndlessDue(Ticked(Started(st, x)), x);
    EndsIff(Ticked(Started(st, x)));
  }

  function OneTimer(periodic: bool): State { State([Timer(0, 0, periodic, false)], [[]], 0, 0) }

  lemma OneTimerValid(periodic: bool)
    ensures Valid(OneTimer(periodic), 0) && Short(OneTimer(periodic).timers)
  {
  }

  /** Such a system: one timer, just initialised. */
  lemma FirstCheckHangs()
    ensures Started(OneTimer(true), 0).rows != [] && !Ends(Ticked(Started(OneTimer(true), 0)))
  {
    OneTimerValid(true);
    ZeroPeriodHangs(OneTimer(true), 0);
  }

  // ----- a timeout function that starts a timer of zero ticks -----

  lemma RestartingTurn(st: State, y: Tid, x: Tid)
    requires Valid(st, -1) && Short(st.timers) && y in DueSet(st) && y < |st.timers| && x < |st.timers|
      && st.timers[x].init == 0
    ensures var r := Turn(st, y, [Start(x)]);
      Valid(r, -1) && Short(r.timers) && |r.timers| == |st.timers| && r.timers[x].init == 0 && x in DueSet(r)
  {
    var st1 := st.(rows := RemoveAll(st.rows, y));
    RemovedDue(st, y);
    var st2 := Started(st1, x);
    assert DoAll(st1, [Start(x)]) == DoAll(st2, []) == st2;
    hide Valid, DueSet, RemoveAll;
    StartDue(st1, x);
    StartDue(st2, y);
    FlagDue(st2, y);
  }

  function Restarting(x: Tid, m: nat): Acts { seq(m, _ => [Start(x)]) }

  /** A timer of zero ticks that is started again in every timeout function keeps the loop going, one-shot or
      not. */
  lemma {:induction false} RestartHangs(st: State, x: Tid, m: nat)
    requires Valid(st, -1) && Short(st.timers) && x in DueSet(st) && x < |st.timers| && st.timers[x].init == 0
    ensures ActsInTable(Restarting(x, m), |st.timers|) && !CheckFor(st, Restarting(x, m), m).ended
    decreases m
  {
    if !HeadDue(st) { NoneDue(st); }
    if m > 0 {
      HeadIsDue(st);
      var acts, y := Restarting(x, m), Last(st.rows)[0];
      assert First(acts) == [Start(x)] && Others(acts) == Restarting(x, m - 1);
      RestartingTurn(st, y, x);
      CheckOne(st, acts, m);
      hide Valid, DueSet, CheckFor, Turn;
      RestartHangs(Turn(st, y, [Start(x)]), x, m - 1);
    }
  }

  /** A one-shot timer of zero ticks, started by a thread and then in its own timeout function. */
  lemma OneShotRestartHangs(m: nat)
    ensures var st := Ticked(Started(OneTimer(false), 0));
      st.rows != [] && ActsInTable(Restarting(0, m), |st.timers|) && !CheckFor(st, Restarting(0, m), m).ended
  {
    OneTimerValid(false);
    StartedDue(OneTimer(false), 0);
    hide Started, Ticked, DueSet, Valid;
    RestartHangs(Ticked(Started(OneTimer(false), 0)), 0, m);
  }
}
