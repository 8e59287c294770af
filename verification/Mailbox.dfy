/** The mailbox object as ipc.c updates it: a fixed array, two offsets, a count and two suspend lists.  Each
    method is one interrupt-disabled section. */
module Mailbox {
  import opened Lists
  import opened Mailboxes

  class Mailbox {
    const pool: array<Mail>
    var inOffset: nat
    var outOffset: nat
    var entry: nat
    var suspendedReceivers: seq<Tid>
    var suspendedSenders: seq<Tid>
    ghost var wokenReceivers: set<Tid>
    ghost var wokenSenders: set<Tid>

    constructor (size: nat)
      ensures fresh(pool) && pool.Length == size && Inv(State()) && Mails(State()) == []
      ensures State().receivers == [] && State().senders == [] && State().wokenReceivers == {}
        && State().wokenSenders == {}
    {
      pool := new Mail[size](_ => 0);
      inOffset, outOffset, entry := 0, 0, 0;
      suspendedReceivers, suspendedSenders := [], [];
      wokenReceivers, wokenSenders := {}, {};
    }

    ghost function State(): Mb
      reads this, pool
    {
      Mb(pool[..], inOffset, outOffset, entry, suspendedReceivers, wokenReceivers, suspendedSenders, wokenSenders)
    }

    method Put(mail: Mail)
      requires inOffset < pool.Length
      modifies pool, this`inOffset, this`entry
      ensures State() == Mailboxes.Put(old(State()), mail)
    {
      pool[inOffset] := mail;
      inOffset := inOffset + 1;
      if inOffset >= pool.Length { inOffset := 0; }
      entry := entry + 1;
    }

    method Take() returns (mail: Mail)
      requires entry > 0 && outOffset < pool.Length
      modifies this`outOffset, this`entry
      ensures State() == Mailboxes.Take(old(State())) && mail == old(pool[outOffset])
    {
      mail := pool[outOffset];
      outOffset := outOffset + 1;
      if outOffset >= pool.Length { outOffset := 0; }
      entry := entry - 1;
    }

    method ResumeReceiver()
      modifies this`suspendedReceivers, this`wokenReceivers
      ensures State() == WakeReceiver(old(State()))
    {
      if suspendedReceivers != [] {
        wokenReceivers := wokenReceivers + {suspendedReceivers[0]};
        suspendedReceivers := suspendedReceivers[1..];
      }
    }

    method ResumeSender()
      modifies this`suspendedSenders, this`wokenSenders
      ensures State() == WakeSender(old(State()))
    {
      if suspendedSenders != [] {
        wokenSenders := wokenSenders + {suspendedSenders[0]};
        suspendedSenders := suspendedSenders[1..];
      }
    }

    /** The section of rt_mb_send_wait that looks for room: sent, or the thread has to wait or give up. */
    method Send(t: Tid, mail: Mail, wait: bool, at: nat) returns (sent: bool)
      requires Inv(State()) && Legal(State(), Mailboxes.Send(t, mail, wait, at))
      modifies this, pool
      ensures State() == Step(old(State()), Mailboxes.Send(t, mail, wait, at)) && Inv(State())
      ensures sent == (|old(Mails(State()))| < pool.Length)
    {
      ghost var s := State();
      SendKeeps(s, t, mail, wait, at);
      if s.entry < pool.Length { RingRoom(s); }
      hide Inv, WakeReceiver, Mailboxes.Put, Waiting;
      wokenSenders := wokenSenders - {t};
      sent := entry != pool.Length;
      if sent {
        Put(mail);
        ResumeReceiver();
      } else if wait {
        suspendedSenders := suspendedSenders[..at] + [t] + suspendedSenders[at..];
      }
    }

    /** The section of rt_mb_recv that looks for a mail. */
    method Recv(t: Tid, wait: bool, at: nat) returns (got: bool, mail: Mail)
      requires Inv(State()) && Legal(State(), Mailboxes.Recv(t, wait, at))
      modifies this
      ensures State() == Step(old(State()), Mailboxes.Recv(t, wait, at)) && Inv(State())
      ensures got == (old(Mails(State())) != []) && (got ==> mail == old(Mails(State()))[0])
    {
      ghost var s := State();
      RecvKeeps(s, t, wait, at);
      FirstMail(s);
      hide Inv, WakeSender, Mailboxes.Take, Waiting;
      wokenReceivers := wokenReceivers - {t};
      got, mail := entry != 0, 0;
      if got {
        mail := Take();
        ResumeSender();
      } else if wait {
        suspendedReceivers := suspendedReceivers[..at] + [t] + suspendedReceivers[at..];
      }
    }

    /** rt_ipc_list_resume_all on both lists, with an error for everyone. */
    method ResumeAll()
      modifies this`suspendedReceivers, this`suspendedSenders
      ensures suspendedReceivers == [] && suspendedSenders == []
    {
      while suspendedReceivers != []
        decreases |suspendedReceivers|
      {
        suspendedReceivers := suspendedReceivers[1..];
      }
      while suspendedSenders != []
        invariant suspendedReceivers == []
        decreases |suspendedSenders|
      {
        suspendedSenders := suspendedSenders[1..];
      }
    }

    method Reset()
      requires Inv(State())
      modifies this
      ensures State() == Step(old(State()), Mailboxes.Reset) && Inv(State())
    {
      StepKeeps(State(), Mailboxes.Reset);
      ResumeAll();
      entry := 0;
      inOffset := 0;
      outOffset := 0;
    }

    /** A timer takes a suspended thread off its list. */
    method Expire(t: Tid)
      requires Inv(State()) && (t in suspendedReceivers || t in suspendedSenders)
      modifies this
      ensures Inv(State())
      ensures State() == Step(old(State()), if t in old(suspendedReceivers) then ExpireReceiver(t) else ExpireSender(t))
    {
      if t in suspendedReceivers {
        StepKeeps(State(), ExpireReceiver(t));
        suspendedReceivers := Remove(suspendedReceivers, t);
      } else {
        StepKeeps(State(), ExpireSender(t));
        suspendedSenders := Remove(suspendedSenders, t);
      }
    }
  }
}
