/** The firings of a timer left to itself over any run, however long: a one-shot timer of n ticks fires once, at
    the n-th tick, and a periodic one at every n-th tick. */
module TimerPeriods {
  import opened Lists
  import opened TimerRows
  import opened Timers
  import opened TimerRuns
  import opened TimerFiring

  // ----- left to itself -----

  /** Nobody operates on x at all, so its period and kind stay as well. */
  predicate Untouched(ops: seq<Op>, x: Tid) { forall k :: 0 <= k < |ops| ==> ops[k].id != x }

  predicate UntouchedActs(acts: Acts, x: Tid) { forall k :: 0 <= k < |acts| ==> Untouched(acts[k], x) }

  predicate EventUntouched(e: Event, x: Tid) {
    match e
    case Call(op) => op.id != x
    case Tick(acts) => UntouchedActs(acts, x)
  }

  predicate ToItself(es: seq<Event>, x: Tid) { forall k :: 0 <= k < |es| ==> EventUntouched(es[k], x) }

  lemma UntouchedSpares(acts: Acts, x: Tid)
    requires UntouchedActs(acts, x)
    ensures ActsSpare(acts, x) && Untouched(First(acts), x) && UntouchedActs(Others(acts), x)
  {
    forall k | 0 <= k < |acts|
      ensures Spares(acts[k], x)
    {
      assert Untouched(acts[k], x);
    }
    if acts != [] { assert Untouched(acts[0], x); }
  }

  /** x is as it was, field for field, and pending if it was. */
  predicate Same(st: State, st1: State, x: Tid) {
    SamePending(st, st1, x) && (x < |st.timers| ==> st1.timers[x] == st.timers[x])
  }

  lemma SameByOp(st: State, op: Op, x: Tid)
    requires Valid(st, -1) && AllSound(st.timers) && OpOk(st.timers, op, 0) && op.id != x
    ensures Same(st, Do(st, op), x)
  {
    SparedByOp(st, op, x);
  }

  lemma {:induction false} SameByAll(st: State, ops: seq<Op>, x: Tid)
    requires Valid(st, -1) && AllSound(st.timers) && OpsOk(st.timers, ops) && Untouched(ops, x)
    ensures OpsInTable(ops, |st.timers|) && Same(st, DoAll(st, ops), x)
    decreases |ops|
  {
    OkInTable(st.timers, ops);
    if ops != [] {
      OkForThread(st.timers, ops[0]);
      SameByOp(st, ops[0], x);
      DoKeeps(st, ops[0], -1, 1);
      OpsStayOk(st, ops[0], ops[1..]);
      hide Valid, AllSound, Do;
      SameByAll(Do(st, ops[0]), ops[1..], x);
    }
  }

  lemma SameByRearming(st: State, y: Tid, x: Tid)
    requires Valid(st, -1) && AllSound(st.timers) && x != y && y < |st.timers|
    ensures Same(st, Rearmed(st, y), x)
  {
    RearmedOther(st, y, x);
  }

  lemma SameThrough(a: State, b: State, c: State, x: Tid)
    requires Same(a, b, x) && Same(b, c, x)
    ensures Same(a, c, x)
  {
  }

  /** Another timer fires. */
  lemma SameByTurn(st: State, y: Tid, ops: seq<Op>, x: Tid)
    requires Valid(st, -1) && AllSound(st.timers) && OpsOk(st.timers, ops) && Untouched(ops, x) && x != y
      && y < |st.timers|
    ensures OpsInTable(ops, |st.timers|) && Same(st, Turn(st, y, ops), x)
  {
    RemovedOther(st, y, x);
    RemoveKeeps(st, y, -1);
    var st1 := st.(rows := RemoveAll(st.rows, y));
    SameByAll(st1, ops, x);
    DoAllKeeps(st1, ops);
    hide Valid, AllSound, DoAll, Rearmed, RemoveAll;
    SameByRearming(DoAll(st1, ops), y, x);
    SameThrough(st, st1, DoAll(st1, ops), x);
    SameThrough(st, DoAll(st1, ops), Rearmed(DoAll(st1, ops), y), x);
  }

  /** What firing makes of x itself: off the rows, or a period ahead. */
  predicate FiredTo(st: State, st1: State, x: Tid) {
    && x < |st.timers| && |st1.timers| == |st.timers| && st1.now == st.now && st1.rows != []
    && if st.timers[x].periodic && st.timers[x].activated
       then Pending(st1, x) && st1.timers[x] == st.timers[x].(timeout := Plus(st.now, st.timers[x].init))
       else !Pending(st1, x)
  }

  lemma OwnTurn(st: State, ops: seq<Op>, x: Tid)
    requires Valid(st, -1) && AllSound(st.timers) && OpsOk(st.timers, ops) && Untouched(ops, x) && DueNow(st, x)
    ensures x < |st.timers| && OpsInTable(ops, |st.timers|) && FiredTo(st, Turn(st, x, ops), x)
  {
    var st1 := st.(rows := RemoveAll(st.rows, x));
    RemoveKeeps(st, x, -1);
    AbsentFrom(Last(st1.rows), x);
    SameByAll(st1, ops, x);
    DoAllKeeps(st1, ops);
    var st2 := DoAll(st1, ops);
    assert x in Last(st.rows);
    hide DoAll, RemoveAll, Untouched;
    RearmedTo(st2, x);
  }

  lemma RearmedTo(st: State, x: Tid)
    requires Valid(st, -1) && AllSound(st.timers) && x < |st.timers| && !Pending(st, x)
    ensures FiredTo(st, Rearmed(st, x), x)
  {
    if st.timers[x].periodic && st.timers[x].activated {
      StartKeeps(st, x, -1);
      assert x in Elems(Last(Started(st, x).rows));
    }
  }

  // ----- one check -----

  /** The loop leaves a timer that is not due as it is. */
  predicate LeftAs(st: State, o: Outcome, x: Tid) {
    Fires(o.fired, x) == 0 && Same(st, o.st, x) && o.st.now == st.now && o.st.rows != []
  }

  lemma LeftAsOneMore(st: State, st1: State, y: Tid, o: Outcome, x: Tid)
    requires Same(st, st1, x) && st1.now == st.now && LeftAs(st1, o, x) && x != y
    ensures LeftAs(st, Fired(y, o), x)
  {
    FiresCons(y, o.fired, x);
  }

  lemma LeftAsNothing(st: State, ended: bool, x: Tid)
    requires st.rows != []
    ensures LeftAs(st, Outcome(st, [], ended), x)
  {
  }

  /** One turn of the loop. */
  lemma UntouchedTurn(st: State, acts: Acts, x: Tid)
    requires Quiet(st, acts, x) && UntouchedActs(acts, x) && st.rows != [] && HeadDue(st)
      && ActsInTable(acts, |st.timers|)
    ensures var st1, y := Next(st, acts), Last(st.rows)[0];
      if x == y then FiredTo(st, st1, x) else Same(st, st1, x)
  {
    UntouchedSpares(acts, x);
    OkActs(st.timers, acts);
    HeadIsDue(st);
    var y := Last(st.rows)[0];
    hide Valid, AllSound, Turn, UntouchedActs;
    if x == y { OwnTurn(st, First(acts), x); } else { SameByTurn(st, y, First(acts), x); }
  }

  lemma {:induction false} NotDueLeft(st: State, acts: Acts, turns: nat, x: Tid)
    requires Quiet(st, acts, x) && UntouchedActs(acts, x) && !DueNow(st, x)
    ensures st.rows != [] && ActsInTable(acts, |st.timers|) && LeftAs(st, CheckFor(st, acts, turns), x)
    decreases turns
  {
    hide *;
    QuietInTable(st, acts, x);
    if HeadDue(st) && turns > 0 {
      QuietTurn(st, acts, x);
      NotHead(st, x);
      CheckNext(st, acts, turns);
      UntouchedTurn(st, acts, x);
      UntouchedSpares(acts, x);
      NotDueLeft(Next(st, acts), Others(acts), turns - 1, x);
      LeftAsOneMore(st, Next(st, acts), Last(st.rows)[0], CheckFor(Next(st, acts), Others(acts), turns - 1), x);
    } else {
      CheckStops(st, acts, turns);
      LeftAsNothing(st, !HeadDue(st), x);
    }
  }

  lemma FiredToThen(st: State, st1: State, o: Outcome, x: Tid)
    requires FiredTo(st, st1, x) && LeftAs(st1, o, x)
    ensures FiredTo(st, o.st, x) && Fires(Fired(x, o).fired, x) == 1
  {
    FiresCons(x, o.fired, x);
  }

  lemma SameThenFired(st: State, st1: State, st2: State, x: Tid)
    requires Same(st, st1, x) && st1.now == st.now && FiredTo(st1, st2, x)
    ensures FiredTo(st, st2, x)
  {
  }

  /** A due timer fires once, and is then off the rows or a period ahead. */
  lemma {:induction false} DueFiredTo(st: State, acts: Acts, turns: nat, x: Tid)
    requires Quiet(st, acts, x) && UntouchedActs(acts, x) && DueNow(st, x) && st.rows != [] && |DueSet(st)| <= turns
    ensures ActsInTable(acts, |st.timers|) && FiredTo(st, CheckFor(st, acts, turns).st, x)
    ensures Fires(CheckFor(st, acts, turns).fired, x) == 1
    decreases turns
  {
    hide *;
    QuietInTable(st, acts, x);
    DueMeansHead(st, acts, x);
    QuietTurn(st, acts, x);
    CheckNext(st, acts, turns);
    UntouchedTurn(st, acts, x);
    UntouchedSpares(acts, x);
    var st1, y := Next(st, acts), Last(st.rows)[0];
    var o := CheckFor(st1, Others(acts), turns - 1);
    if y == x {
      NotDueLeft(st1, Others(acts), turns - 1, x);
      FiredToThen(st, st1, o, x);
    } else {
      DueFiredTo(st1, Others(acts), turns - 1, x);
      SameThenFired(st, st1, o.st, x);
      FiredOnce(y, o, x);
    }
    FiredState(y, o);
  }

  // ----- one event -----

  /** The tick of x has not come, or x is not pending: nothing happens to it. */
  lemma QuietStep(st: State, e: Event, x: Tid)
    requires Idle(st) && EventOk(st, e) && EventUntouched(e, x)
    requires e.Tick? && Pending(st, x) ==> Wait(st, x) > 1
    ensures Same(st, Step(st, e), x)
      && (Pending(st, x) ==> Wait(Step(st, e), x) == Wait(st, x) - (if e.Tick? then 1 else 0))
    ensures e.Tick? ==> ActsInTable(e.acts, |st.timers|) && Fires(Checked(st, e.acts).fired, x) == 0
  {
    match e
    case Call(op) =>
      WithinLower(st);
      SameByOp(st, op, x);
    case Tick(acts) =>
      TickKeeps(st);
      UntouchedSpares(acts, x);
      var st1 := Ticked(st);
      assert !DueNow(st1, x);
      NotDueLeft(st1, acts, |DueSet(st1)|, x);
  }

  /** The tick of x. */
  lemma FiringStep(st: State, acts: Acts, x: Tid)
    requires Idle(st) && ActsOk(st.timers, acts) && UntouchedActs(acts, x) && Pending(st, x) && Wait(st, x) == 1
    ensures ActsInTable(acts, |st.timers|) && Fires(Checked(st, acts).fired, x) == 1
    ensures FiredTo(Ticked(st), Checked(st, acts).st, x)
  {
    TickKeeps(st);
    UntouchedSpares(acts, x);
    assert DueNow(Ticked(st), x);
    DueFiredTo(Ticked(st), acts, |DueSet(Ticked(st))|, x);
  }

  // ----- one-shot timers -----

  /** A timer that is not pending never fires. */
  lemma {:induction false} NeverFires(st: State, es: seq<Event>, x: Tid)
    requires Idle(st) && LegalRun(st, es) && ToItself(es, x) && !Pending(st, x)
    ensures FiresIn(st, es, x) == 0 && !Pending(After(st, es), x)
    decreases |es|
  {
    if es != [] {
      assert EventUntouched(es[0], x);
      QuietStep(st, es[0], x);
      hide Idle, EventOk, Step, Pending, EventUntouched;
      NeverFires(Step(st, es[0]), es[1..], x);
    }
  }

  /** A pending timer that will not start again. */
  predicate LastTime(st: State, x: Tid) { Pending(st, x) && !(st.timers[x].periodic && st.timers[x].activated) }

  lemma LastTimeStays(st: State, st1: State, x: Tid)
    requires LastTime(st, x) && Same(st, st1, x)
    ensures LastTime(st1, x)
  {
  }

  lemma LastTimeOver(st: State, st1: State, x: Tid)
    requires LastTime(st, x) && FiredTo(Ticked(st), st1, x)
    ensures !Pending(st1, x)
  {
  }

  /** It fires once when its tick comes, and never after. */
  lemma {:induction false} FiresOnce(st: State, es: seq<Event>, x: Tid)
    requires Idle(st) && LegalRun(st, es) && ToItself(es, x) && LastTime(st, x)
    ensures FiresIn(st, es, x) == if Ticks(es) < Wait(st, x) then 0 else 1
    decreases |es|
  {
    if es == [] {
      assert Wait(st, x) >= 1;
    } else {
      assert EventUntouched(es[0], x);
      assert ToItself(es[1..], x);
      var st1 := Step(st, es[0]);
      assert LastTime(st, x) ==> Pending(st, x);
      if es[0].Tick? && Wait(st, x) <= 1 {
        assert Wait(st, x) == 1;
        FiringStep(st, es[0].acts, x);
        hide Idle, EventOk, Wait, ToItself, Pending, Checked;
        LastTimeOver(st, st1, x);
        NeverFires(st1, es[1..], x);
      } else {
        QuietStep(st, es[0], x);
        hide Idle, EventOk, Step, Pending, ToItself, Wait, LastTime;
        LastTimeStays(st, st1, x);
        FiresOnce(st1, es[1..], x);
      }
    }
  }

  /** The ticks from the start of a timer to its first firing. */
  function FirstWait(t: Timer): nat { if t.init == 0 then 1 else t.init }

  /** A one-shot timer of n ticks, started and left to itself, fires at the n-th tick and at no other (at the
      first, for n = 0), however long the run. */
  lemma OneShotFiresOnce(st: State, x: Tid, es: seq<Event>)
    requires Idle(st) && OpOk(st.timers, Start(x), 0) && !st.timers[x].periodic
    requires Idle(Started(st, x)) && LegalRun(Started(st, x), es) && ToItself(es, x)
    ensures FiresIn(Started(st, x), es, x) == if Ticks(es) < FirstWait(st.timers[x]) then 0 else 1
  {
    StartedPending(st, x);
    FiresOnce(Started(st, x), es, x);
  }

  // ----- periodic timers -----

  predicate Cyclic(st: State, x: Tid, n: nat) {
    Pending(st, x) && st.timers[x].periodic && st.timers[x].activated && st.timers[x].init == n && 1 <= n < HALF
  }

  lemma CyclicStays(st: State, st1: State, x: Tid, n: nat)
    requires Cyclic(st, x, n) && Same(st, st1, x)
    ensures Cyclic(st1, x, n)
  {
  }

  lemma CyclicAgain(st: State, st1: State, x: Tid, n: nat)
    requires Cyclic(st, x, n) && FiredTo(Ticked(st), st1, x)
    ensures Cyclic(st1, x, n) && Wait(st1, x) == n
  {
    AheadOfStart(Ticked(st).now, n);
  }

  /** How often a timer that waits w ticks, then n again and again, fires in t ticks. */
  function FiringsIn(t: nat, w: nat, n: nat): nat
    requires n > 0
  {
    if t < w then 0 else 1 + (t - w) / n
  }

  lemma FiringsAfter(t: nat, n: nat)
    requires n > 0
    ensures FiringsIn(t, n, n) == t / n
  {
    if n <= t {
      var q := (t - n) / n;
      assert t - n == q * n + (t - n) % n;
      assert t == (q + 1) * n + (t - n) % n;
      Quotient(t, q + 1, (t - n) % n, n);
    }
  }

  lemma Quotient(t: nat, q: nat, r: nat, n: nat)
    requires n > 0 && r < n && t == q * n + r
    ensures t / n == q
  {
    var p, s := t / n, t % n;
    assert t == p * n + s;
    if p < q { AtLeast(p + 1, q, n); }
    if q < p { AtLeast(q + 1, p, n); }
  }

  lemma AtLeast(a: nat, b: nat, n: nat)
    requires a <= b
    ensures a * n <= b * n
  {
  }

  /** How often x fires in the first event. */
  function FiresFirst(st: State, e: Event, x: Tid): nat
    requires Idle(st) && EventOk(st, e)
  {
    if e.Tick? then (CheckedIdle(st, e.acts); Fires(Checked(st, e.acts).fired, x)) else 0
  }

  function TickOf(e: Event): nat { if e.Tick? then 1 else 0 }

  lemma RunOne(st: State, es: seq<Event>, x: Tid)
    requires Idle(st) && LegalRun(st, es) && ToItself(es, x) && es != []
    ensures EventOk(st, es[0]) && EventUntouched(es[0], x) && LegalRun(Step(st, es[0]), es[1..]) && ToItself(es[1..], x)
    ensures FiresIn(st, es, x) == FiresFirst(st, es[0], x) + FiresIn(Step(st, es[0]), es[1..], x)
    ensures Ticks(es) == TickOf(es[0]) + Ticks(es[1..])
  {
    hide Step;
  }

  /** After d ticks (one or none), of which w were to be waited: f firings, and w1 ticks to wait. */
  predicate NextWait(d: nat, w: int, f: nat, w1: int, n: nat) {
    d <= 1 && 1 <= w && 1 <= w1 && if d == 1 && w == 1 then f == 1 && w1 == n else f == 0 && w1 == w - d
  }

  lemma FiringsAdd(t: nat, d: nat, w: nat, f: nat, w1: nat, n: nat)
    requires n > 0 && NextWait(d, w, f, w1, n)
    ensures FiringsIn(d + t, w, n) == f + FiringsIn(t, w1, n)
  {
    if d == 1 && w == 1 { FiringsStep(d + t, n); } else { FiringsLater(d + t, w, d, n); }
  }

  /** One event in the life of a periodic timer. */
  lemma CyclicStep(st: State, e: Event, x: Tid, n: nat)
    requires Idle(st) && EventOk(st, e) && EventUntouched(e, x) && Cyclic(st, x, n)
    ensures Cyclic(Step(st, e), x, n) && Wait(st, x) >= 1 && Wait(Step(st, e), x) >= 1
    ensures var st1 := Step(st, e);
      NextWait(TickOf(e), Wait(st, x), FiresFirst(st, e, x), Wait(st1, x), n)
  {
    assert Wait(st, x) >= 1 && Pending(st, x);
    if e.Tick? && Wait(st, x) == 1 {
      FiringStep(st, e.acts, x);
      hide Idle, EventOk, Pending, Checked, Cyclic;
      CyclicAgain(st, Step(st, e), x, n);
    } else {
      QuietStep(st, e, x);
      hide Idle, EventOk, Pending, Checked, Cyclic, Same;
      CyclicStays(st, Step(st, e), x, n);
    }
  }

  lemma {:induction false} FiresEvery(st: State, es: seq<Event>, x: Tid, n: nat)
    requires Idle(st) && LegalRun(st, es) && ToItself(es, x) && Cyclic(st, x, n) && n > 0 && Wait(st, x) >= 1
    ensures FiresIn(st, es, x) == FiringsIn(Ticks(es), Wait(st, x), n)
    decreases |es|
  {
    hide *;
    if es == [] {
      FiresNone(st, es, x, n);
    } else {
      RunOne(st, es, x);
      var st1, d := Step(st, es[0]), TickOf(es[0]);
      CyclicStep(st, es[0], x, n);
      FiresEvery(st1, es[1..], x, n);
      FiringsAdd(Ticks(es[1..]), d, Wait(st, x), FiresFirst(st, es[0], x), Wait(st1, x), n);
    }
  }

  lemma FiresNone(st: State, es: seq<Event>, x: Tid, n: nat)
    requires Idle(st) && LegalRun(st, es) && es == [] && n > 0 && Wait(st, x) >= 1
    ensures FiresIn(st, es, x) == 0 == FiringsIn(Ticks(es), Wait(st, x), n)
  {
    hide Wait;
  }

  lemma FiringsLater(t: nat, w: nat, d: nat, n: nat)
    requires n > 0 && d <= t && d <= w
    ensures FiringsIn(t - d, w - d, n) == FiringsIn(t, w, n)
  {
    assert (t - d) - (w - d) == t - w;
  }

  lemma FiringsStep(t: nat, n: nat)
    requires n > 0 && t > 0
    ensures FiringsIn(t, 1, n) == 1 + FiringsIn(t - 1, n, n)
  {
    FiringsAfter(t - 1, n);
  }

  /** A periodic timer of n ticks, started and left to itself, fires at every n-th tick from its start and at no
      other. */
  lemma PeriodicFiresEvery(st: State, x: Tid, es: seq<Event>)
    requires Idle(st) && OpOk(st.timers, Start(x), 0) && st.timers[x].periodic
    requires Idle(Started(st, x)) && LegalRun(Started(st, x), es) && ToItself(es, x)
    ensures st.timers[x].init > 0 && FiresIn(Started(st, x), es, x) == Ticks(es) / st.timers[x].init
  {
    StartedPending(st, x);
    var n := st.timers[x].init;
    assert Cyclic(Started(st, x), x, n) && 1 <= n && Wait(Started(st, x), x) == n;
    hide Idle, Started, FiresIn, Wait, Cyclic, Pending, ToItself;
    FiresEvery(Started(st, x), es, x, n);
    FiringsAfter(Ticks(es), n);
  }
}
