/** Two hosts that read the same epoch file. */
module RpcTwins {
  import Text
  import opened RpcIds
  import opened RpcChannel
  import opened RpcHost
  import opened RpcProtocol

  /** A host remembers only what was written. */
  predicate RemembersWritten(s: System)
  {
    forall h, i :: 0 <= h < |s.hosts| && 0 <= i < |s.hosts[h].processed| ==> s.hosts[h].processed[i] in s.written
  }

  lemma PollRemembers(host: Host, files: Files, written: seq<Id>)
    requires forall i :: 0 <= i < |host.processed| ==> host.processed[i] in written
    requires files.slot.Holds? ==> files.slot.request.id in written
    ensures forall i :: 0 <= i < |Poll(host, files).0.processed| ==> Poll(host, files).0.processed[i] in written
  {
  }

  lemma StepRemembers(s: System, action: Action)
    requires Ok(s) && RemembersWritten(s)
    ensures RemembersWritten(Step(s, action))
  {
    hide ChannelOk, HostsOk, Poll, Deliver, Prepare, Take, Resume, Finish, Judge, Accept, Look, Free, NextRequest, RemoveIfSame, Matches;
    match action {
      case PollHost(h) =>
        if h < |s.hosts| {
          PollRemembers(s.hosts[h], s.files, s.written);
        }
      case _ =>
    }
  }

  lemma {:induction false} RunRemembers(actions: seq<Action>)
    ensures Ok(Run(Init(), actions)) && RemembersWritten(Run(Init(), actions))
    decreases |actions|
  {
    hide Step, Ok, RemembersWritten;
    RunOk(actions);
    if actions == [] {
      NothingRemembered();
    } else {
      RunRemembers(actions[..|actions| - 1]);
      StepRemembers(Run(Init(), actions[..|actions| - 1]), actions[|actions| - 1]);
    }
  }

  lemma NothingRemembered()
    ensures RemembersWritten(Init())
  {
  }

  // ----- Leading two hosts to one request -----

  predicate LivesInEpoch(s: System, h: nat)
  {
    h < |s.hosts| && s.hosts[h].alive && s.hosts[h].epoch == s.ch.nonce
  }

  /** Two live hosts of the current epoch, and no accepted shutdown that is about to end it. */
  predicate Twins(s: System, g: nat, h: nat)
  {
    && Ok(s) && RemembersWritten(s) && g != h && LivesInEpoch(s, g) && LivesInEpoch(s, h)
    && !(s.ch.delivering && s.ch.active[0].Accepting? && s.ch.active[0].task.shutdown)
  }

  predicate Idle(s: System, h: nat)
  {
    h < |s.hosts| && s.hosts[h].busy.None?
  }

  lemma EndsItsHandler(s: System, g: nat, h: nat)
    requires Twins(s, g, h)
    ensures var t := Step(s, EndHandler(g)); Twins(t, g, h) && Idle(t, g) && (Idle(s, h) ==> Idle(t, h)) && t.ch == s.ch
  {
    hide ChannelOk, HostsOk, SlotOk, RemembersWritten;
    StepOk(s, EndHandler(g));
    StepRemembers(s, EndHandler(g));
  }

  /** The page's steps leave the hosts alone. */
  lemma HostsStay(s: System, t: System, g: nat, h: nat)
    requires Twins(s, g, h) && Ok(t) && RemembersWritten(t) && t.hosts == s.hosts && t.ch.nonce == s.ch.nonce
    requires t.ch.delivering ==> t.ch.active[0].Starting? || (t.ch.active == s.ch.active && s.ch.delivering)
    ensures Twins(t, g, h) && (Idle(s, g) ==> Idle(t, g)) && (Idle(s, h) ==> Idle(t, h))
  {
    hide Ok, RemembersWritten;
    BothActive(s);
    BothActive(t);
  }

  lemma BothActive(s: System)
    requires Ok(s)
    ensures s.ch.delivering ==> |s.ch.active| == 1
  {
  }

  lemma Resumes(s: System, g: nat, h: nat)
    requires Twins(s, g, h)
    ensures var t := Step(s, ResumeDelivery);
      && Twins(t, g, h) && (Idle(s, g) ==> Idle(t, g)) && (Idle(s, h) ==> Idle(t, h)) && !t.ch.paused
  {
    hide HostsOk, SlotOk, RemembersWritten, QueuesOk, IdsOk, HistoryOk, Pump;
    var t := Step(s, ResumeDelivery);
    StepOk(s, ResumeDelivery);
    StepRemembers(s, ResumeDelivery);
    Unpaused(s.ch, s.written);
    PumpBegins(s.ch.(paused := false), s.written);
    HostsStay(s, t, g, h);
  }

  /** Free for the next request of the epoch: nothing is being delivered, or one that is about to be written. */
  predicate Open(ch: Channel)
  {
    !ch.paused && (ch.delivering ==> |ch.active| == 1 && ch.active[0].Starting? && ch.active[0].task.request.nonce == ch.nonce)
  }

  lemma FinishOpens(ch: Channel, written: seq<Id>, outcome: Outcome)
    requires ChannelOk(ch, written) && ch.delivering && !ch.paused
    ensures var t := Finish(ch, 0, outcome); Open(t) && t.nonce == ch.nonce
  {
    hide Pump;
    var id := ch.active[0].task.request.id;
    var rest := Ended(ch.(active := ch.active[..0] + ch.active[1..], delivering := false), id, outcome);
    assert rest.active == [];
    Ending(ch, written, outcome);
    PumpBegins(rest, written);
    assert rest.priority != [] ==> Waits(rest, written, rest.priority[0]);
    assert rest.normal != [] ==> Waits(rest, written, rest.normal[0]);
  }

  lemma Opened(s: System, t: System, g: nat, h: nat, outcome: Outcome)
    requires Twins(s, g, h) && s.ch.delivering && !s.ch.paused && Ok(t) && RemembersWritten(t) && t.hosts == s.hosts
    requires t.ch == Finish(s.ch, 0, outcome)
    ensures Twins(t, g, h) && (Idle(s, g) ==> Idle(t, g)) && (Idle(s, h) ==> Idle(t, h)) && Open(t.ch)
  {
    hide HostsOk, SlotOk, RemembersWritten, QueuesOk, IdsOk, HistoryOk, Finish;
    FinishOpens(s.ch, s.written, outcome);
    HostsStay(s, t, g, h);
  }

  /** What is being delivered can be brought to its end. */
  function Clearing(s: System): seq<Action>
  {
    if !AtPhase(s.ch) then []
    else
      match s.ch.active[0]
      case Starting(_) => [FailWrite]
      case Awaiting(task, _) => [LoseAck(task.request.id), ReadAck, JudgeAck(true)]
      case Accepting(_) => [RemoveAck]
  }

  lemma Clears(s: System, g: nat, h: nat)
    requires Twins(s, g, h) && !s.ch.paused
    ensures var t := Run(s, Clearing(s));
      Twins(t, g, h) && (Idle(s, g) ==> Idle(t, g)) && (Idle(s, h) ==> Idle(t, h)) && Open(t.ch)
  {
    hide HostsOk, SlotOk, RemembersWritten, QueuesOk, IdsOk, HistoryOk, Finish, Run;
    RunOfNothing(s);
    if AtPhase(s.ch) {
      match s.ch.active[0] {
        case Starting(_) =>
          RunOne(s, FailWrite);
          StepOk(s, FailWrite);
          StepRemembers(s, FailWrite);
          Opened(s, Step(s, FailWrite), g, h, WriteFailed);
        case Awaiting(task, seen) => GivesUp(s, g, h, task, seen);
        case Accepting(_) =>
          RunOne(s, RemoveAck);
          StepOk(s, RemoveAck);
          StepRemembers(s, RemoveAck);
          Opened(s, Step(s, RemoveAck), g, h, Accepted);
      }
    }
  }

  lemma GivesUp(s: System, g: nat, h: nat, task: Task, seen: Text.Option<Ack>)
    requires Twins(s, g, h) && !s.ch.paused && AtPhase(s.ch) && s.ch.active[0] == Awaiting(task, seen)
    ensures var t := Run(s, [LoseAck(task.request.id), ReadAck, JudgeAck(true)]);
      Twins(t, g, h) && (Idle(s, g) ==> Idle(t, g)) && (Idle(s, h) ==> Idle(t, h)) && Open(t.ch)
  {
    hide HostsOk, SlotOk, RemembersWritten, QueuesOk, IdsOk, HistoryOk, Finish, Run, ActiveOk;
    var id := task.request.id;
    RunThree(s, LoseAck(id), ReadAck, JudgeAck(true));
    var one := Step(s, LoseAck(id));
    StepOk(s, LoseAck(id));
    StepRemembers(s, LoseAck(id));
    HostsStay(s, one, g, h);
    var two := Step(one, ReadAck);
    StepOk(one, ReadAck);
    StepRemembers(one, ReadAck);
    assert two.ch == one.ch.(active := [Awaiting(task, Text.None)]);
    StepOk(two, JudgeAck(true));
    StepRemembers(two, JudgeAck(true));
    assert Twins(two, g, h);
    Opened(two, Step(two, JudgeAck(true)), g, h, if task.request.nonce != two.ch.nonce then Restarted else TimedOut);
  }

  lemma RunOne(s: System, a: Action)
    ensures Run(s, [a]) == Step(s, a)
  {
    assert [a][..0] == [];
  }

  lemma RunThree(s: System, a: Action, b: Action, c: Action)
    ensures Run(s, [a, b, c]) == Step(Step(Step(s, a), b), c)
  {
    assert [a, b, c][..2] == [a, b] && [a, b][..1] == [a];
    RunOne(s, a);
  }

  /** A call makes sure that there is something to write. */
  lemma Calls(s: System, g: nat, h: nat)
    requires Twins(s, g, h) && Open(s.ch)
    ensures var t := Step(s, CallExec(Other, 0));
      && Twins(t, g, h) && (Idle(s, g) ==> Idle(t, g)) && (Idle(s, h) ==> Idle(t, h)) && Open(t.ch) && t.ch.delivering
  {
    hide HostsOk, SlotOk, RemembersWritten, IdsOk, HistoryOk, Pump;
    var r := NextRequest(s.ch, Other, 0);
    var q, t := Queued(s.ch, r, false, false), Step(s, CallExec(Other, 0));
    StepOk(s, CallExec(Other, 0));
    StepRemembers(s, CallExec(Other, 0));
    QueueKeeps(s.ch, s.written, r, false, false);
    PumpBegins(q, s.written);
    assert q.priority != [] ==> Waits(q, s.written, q.priority[0]);
    assert Waits(q, s.written, q.normal[0]);
    HostsStay(s, t, g, h);
  }

  lemma BothTakeIt(s: System, g: nat, h: nat)
    requires Twins(s, g, h) && Idle(s, g) && Idle(s, h) && Open(s.ch) && s.ch.delivering
    ensures var t := Run(s, [WriteSlot, PollHost(g), PollHost(h)]); RunTwice(t, g, h)
  {
    hide HostsOk, SlotOk, QueuesOk, IdsOk, HistoryOk, Run;
    RunThree(s, WriteSlot, PollHost(g), PollHost(h));
    var r := s.ch.active[0].task.request;
    var written := Step(s, WriteSlot);
    assert r.id !in s.hosts[g].processed && r.id !in s.hosts[h].processed;
    var one := Step(written, PollHost(g));
    assert one.files.slot == Holds(r) && one.hosts[g].started == s.hosts[g].started + [r] && one.hosts[h] == s.hosts[h];
    var two := Step(one, PollHost(h));
    assert two.hosts[g] == one.hosts[g] && two.hosts[h].started == s.hosts[h].started + [r];
    var i, j := |s.hosts[g].started|, |s.hosts[h].started|;
    assert StartedAt(two, g, i) && StartedAt(two, h, j) && two.hosts[g].started[i] == two.hosts[h].started[j];
  }

  /** Two hosts were handed the same request. */
  ghost predicate RunTwice(s: System, g: nat, h: nat)
  {
    exists i: nat, j: nat :: StartedAt(s, g, i) && StartedAt(s, h, j) && s.hosts[g].started[i] == s.hosts[h].started[j]
  }

  lemma {:induction false} RunBoth(s: System, a: seq<Action>, b: seq<Action>)
    ensures Run(s, a + b) == Run(Run(s, a), b)
    decreases |b|
  {
    if b == [] {
      assert a + b == a;
    } else {
      assert (a + b)[..|a + b| - 1] == a + b[..|b| - 1];
      RunBoth(s, a, b[..|b| - 1]);
    }
  }

  /** The condition for running a request at most once cannot be dropped: whenever two live hosts have the current epoch,
      however that came about, the run can go on so that both are handed one request. */
  lemma TwinsCanAlwaysMeet(actions: seq<Action>, g: nat, h: nat) returns (more: seq<Action>)
    requires Twins(Run(Init(), actions), g, h)
    ensures RunTwice(Run(Init(), actions + more), g, h)
  {
    hide Twins, Idle, Open, Run, Step, RunTwice, Clearing;
    var s := Run(Init(), actions);
    var free := [EndHandler(g), EndHandler(h), ResumeDelivery];
    RunThree(s, EndHandler(g), EndHandler(h), ResumeDelivery);
    EndsItsHandler(s, g, h);
    var one := Step(s, EndHandler(g));
    TwinsSwap(one, g, h);
    EndsItsHandler(one, h, g);
    var two := Step(one, EndHandler(h));
    TwinsSwap(two, h, g);
    Resumes(two, g, h);
    var three := Step(two, ResumeDelivery);
    Clears(three, g, h);
    var four := Run(three, Clearing(three));
    Calls(four, g, h);
    RunOne(four, CallExec(Other, 0));
    var five := Step(four, CallExec(Other, 0));
    BothTakeIt(five, g, h);
    RunBoth(Init(), actions, free);
    RunBoth(Init(), actions + free, Clearing(three));
    RunBoth(Init(), actions + free + Clearing(three), [CallExec(Other, 0)]);
    RunBoth(Init(), actions + free + Clearing(three) + [CallExec(Other, 0)], [WriteSlot, PollHost(g), PollHost(h)]);
    more := free + Clearing(three) + [CallExec(Other, 0)] + [WriteSlot, PollHost(g), PollHost(h)];
    assert actions + more
        == actions + free + Clearing(three) + [CallExec(Other, 0)] + [WriteSlot, PollHost(g), PollHost(h)];
  }

  lemma TwinsSwap(s: System, g: nat, h: nat)
    requires Twins(s, g, h)
    ensures Twins(s, h, g)
  {
  }
}
