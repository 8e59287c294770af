/** The event object as ipc.c updates it: the flags and the list of suspended threads. */
module EventObject {
  import opened EventFlags
  import opened EventBits

  /** The walk has passed those in kept, has still to pass those in rest. */
  ghost predicate WalkLeft(whole: Walked, kept: seq<Wish>, rest: seq<Wish>, flags: bv32, resumed: seq<Resumed>) {
    var r := Walk(rest, flags);
    whole == Walked(kept + r.waiters, r.flags, resumed + r.resumed)
  }

  lemma WalkOne(whole: Walked, ws: seq<Wish>, n: nat, flags: bv32, resumed: seq<Resumed>)
    requires n < |ws| && WalkLeft(whole, ws[..n], ws[n..], flags, resumed)
    ensures var w := ws[n];
      if Met(w, flags)
      then var more := ws[..n] + ws[n + 1..];
        WalkLeft(whole, more[..n], more[n..], SendLeft(w, flags), resumed + [Resumed(w.t, SendGot(w, flags))])
      else WalkLeft(whole, ws[..n + 1], ws[n + 1..], flags, resumed)
  {
    hide Met, SendLeft, SendGot;
    var w := ws[n];
    assert ws[n..][1..] == ws[n + 1..];
    if Met(w, flags) {
      var more := ws[..n] + ws[n + 1..];
      assert more[..n] == ws[..n] && more[n..] == ws[n + 1..];
    } else {
      assert ws[..n + 1] == ws[..n] + [w];
    }
  }

  lemma WalkDone(whole: Walked, ws: seq<Wish>, flags: bv32, resumed: seq<Resumed>)
    requires WalkLeft(whole, ws[..|ws|], ws[|ws|..], flags, resumed)
    ensures whole == Walked(ws, flags, resumed)
  {
  }
  class EventObject {
    var flags: bv32
    var suspended: seq<Wish>

    constructor ()
      ensures State() == Event(0, [])
    {
      flags, suspended := 0, [];
    }

    function State(): Event
      reads this
    {
      Event(flags, suspended)
    }

    /** What a thread resumed by a send gets, taken off the flags if it said so. */
    method Grant(w: Wish) returns (eventSet: bv32)
      modifies this`flags
      ensures eventSet == SendGot(w, old(flags)) && flags == SendLeft(w, old(flags))
    {
      hide Both, Minus;
      eventSet := if w.all then w.want else Both(w.want, flags);
      if w.clear { flags := Minus(flags, eventSet); }
    }

    /** rt_event_send: the walk over the list, which threads leave as they are resumed. */
    method Send(more: bv32) returns (ok: bool, resumed: seq<Resumed>)
      modifies this
      ensures ok == (more != 0) && State() == Next(old(State()), EventFlags.Send(more))
      ensures ok ==> resumed == InTurn(old(suspended), Plus(old(flags), more)).resumed
      ensures ok ==>
        exists gs :: Granted(old(suspended), Plus(old(flags), more), gs, Walked(suspended, flags, resumed))
    {
      ok, resumed := more != 0, [];
      if ok {
        flags := Plus(flags, more);
        ghost var whole := Walk(suspended, flags);
        WalkIsInTurn(suspended, flags);
        ghost var gs := WalkGrants(suspended, flags);
        var n := 0;
        hide Met, SendLeft, SendGot, Walk, InTurn, Granted, Plus;
        while n < |suspended|
          invariant n <= |suspended| && WalkLeft(whole, suspended[..n], suspended[n..], flags, resumed)
          decreases |suspended| - n
        {
          var w := suspended[n];
          WalkOne(whole, suspended, n, flags, resumed);
          if Met(w, flags) {
            var got := Grant(w);
            resumed := resumed + [Resumed(w.t, got)];
            suspended := suspended[..n] + suspended[n + 1..];
          } else {
            n := n + 1;
          }
        }
        WalkDone(whole, suspended, flags, resumed);
      }
    }

    /** rt_event_recv up to the point where the thread has its flags, waits or gives up. */
    method Recv(w: Wish, wait: bool, at: nat) returns (ok: bool, got: bv32)
      requires Legal(State(), EventFlags.Recv(w, wait, at))
      modifies this
      ensures State() == Next(old(State()), EventFlags.Recv(w, wait, at))
      ensures ok <==> w.want != 0 && MetByBits(w, old(flags))
      ensures ok ==> forall k: bv5 :: Bit(got, k) <==> Bit(w.want, k) && Bit(old(flags), k)
      ensures ok ==> forall k: bv5 :: Bit(flags, k) <==> Bit(old(flags), k) && !Clears(w, k)
    {
      MetIff(w, flags);
      RecvAllBits(w, flags);
      hide Both, Minus, Met, MetByBits, Bit, Clears;
      ok, got := false, 0;
      if w.want != 0 {
        ok := Met(w, flags);
        if ok {
          got := Both(flags, w.want);
          if w.clear { flags := Minus(flags, w.want); }
        } else if wait {
          suspended := suspended[..at] + [w] + suspended[at..];
        }
      }
    }

    /** The timer of a suspended thread takes it off the list. */
    method Expire(t: Tid)
      requires Legal(State(), EventFlags.Expire(t))
      modifies this`suspended
      ensures State() == Next(old(State()), EventFlags.Expire(t))
    {
      suspended := Without(suspended, t);
    }

    /** RT_IPC_CMD_RESET. */
    method Reset()
      modifies this
      ensures State() == Next(old(State()), EventFlags.Reset)
    {
      while suspended != []
        decreases |suspended|
      {
        suspended := suspended[1..];
      }
      flags := 0;
    }
  }
}
