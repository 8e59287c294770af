/** A run in which a one-shot timer starts itself again in its own timeout function. */
module TimerExamples {
  import opened Lists
  import opened TimerRows
  import opened Timers
  import opened TimerRuns
  import opened TimerFiring
  import opened TimerOrder

  /** One timer of one tick: fresh, started at tick 0, and after the check of tick 1. */
  const FRESH := State([Timer(1, 0, false, false)], [[]], 0, 0)
  const RUNNING := State([Timer(1, 1, false, true)], [[0]], 0, 1)
  const RESTARTED := State([Timer(1, 2, false, false)], [[0]], 1, 2)

  lemma OneEntry(late: set<Tid>)
    ensures Ins([], late, 0) == [0] && Without([0], 0) == [] && Without([], 0) == []
  {
    WithoutAt([0], 0);
    WithoutAbsent([], 0);
  }

  /** Starting the only timer. */
  lemma StartOnly(st: State)
    requires |st.timers| == 1 && (st.rows == [[]] || st.rows == [[0]])
    ensures Started(st, 0) ==
      State([st.timers[0].(timeout := Plus(st.now, st.timers[0].init), activated := true)], [[0]], st.now,
        Plus(st.randomNr, 1))
  {
    var u := st.timers[0].(timeout := Plus(st.now, st.timers[0].init), activated := true);
    var late := LateSet(st.timers[0 := u], u.timeout);
    OneEntry(late);
    assert RemoveAll(st.rows, 0) == [[]];
    assert InsertAll([[]], late, 0, 1) == [[0]];
    assert st.timers[0 := u] == [u];
  }

  lemma FirstStart()
    ensures Idle(FRESH) && Started(FRESH, 0) == RUNNING
  {
    StartOnly(FRESH);
  }

  lemma RestartTurn()
    ensures Turn(Ticked(RUNNING), 0, [Start(0)]) == RESTARTED
  {
    var st1 := Ticked(RUNNING).(rows := RemoveAll([[0]], 0));
    OneEntry({});
    assert st1.rows == [[]];
    StartOnly(st1);
    assert DoAll(st1, [Start(0)]) == Started(st1, 0);
    assert Started(st1, 0).timers[0 := Timer(1, 2, false, false)] == RESTARTED.timers;
  }

  /** The one check in which the timer fires and starts again. */
  lemma RestartCheck()
    requires Idle(RUNNING)
    ensures Checked(RUNNING, [[Start(0)]]) == Outcome(RESTARTED, [0], true)
  {
    var st, acts := Ticked(RUNNING), [[Start(0)]];
    assert DueSet(st) == {0};
    RestartTurn();
    hide Turn;
    CheckOne(st, acts, 1);
    assert First(acts) == [Start(0)] && Others(acts) == [];
    assert !HeadDue(RESTARTED);
  }

  const RESTARTING := [Call(Start(0)), Tick([[Start(0)]])]

  /** After a thread started the timer, and the timer itself in the check, it is pending but counts as not
      activated: rt_timer_stop refuses it, and it fires in the check of the next tick all the same. */
  lemma StopRefusesPending()
    ensures Idle(FRESH) && LegalRun(FRESH, RESTARTING) && After(FRESH, RESTARTING) == RESTARTED
    ensures Pending(RESTARTED, 0) && !RESTARTED.timers[0].activated
    ensures Stopped(RESTARTED, 0) == RESTARTED
    ensures Fires(Checked(RESTARTED, []).fired, 0) == 1
  {
    FirstStart();
    DoKeeps(FRESH, Start(0), 0, 0);
    RestartCheck();
    var es := RESTARTING;
    assert es[1..] == [Tick([[Start(0)]])] && es[1..][1..] == [];
    assert Step(FRESH, es[0]) == RUNNING;
    assert EventOk(RUNNING, es[1]);
    assert Step(RUNNING, es[1]) == RESTARTED;
    FiresNow(RESTARTED, [], 0);
  }
}
