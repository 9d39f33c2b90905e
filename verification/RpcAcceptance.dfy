/** What an accepted delivery means: the acknowledgement was written by a host that was handed the request. */
module RpcAcceptance {
  import Text
  import opened RpcIds
  import opened RpcChannel
  import opened RpcHost
  import opened RpcProtocol

  function Handed(hosts: seq<Host>): set<Id>
  {
    set h, i | 0 <= h < |hosts| && 0 <= i < |hosts[h].started| :: hosts[h].started[i].id
  }

  lemma HandedStays(a: seq<Host>, b: seq<Host>)
    requires |a| <= |b| && forall h :: 0 <= h < |a| ==> a[h].started <= b[h].started
    ensures Handed(a) <= Handed(b)
  {
    forall id | id in Handed(a)
      ensures id in Handed(b)
    {
      var h, i :| 0 <= h < |a| && 0 <= i < |a[h].started| && id == a[h].started[i].id;
      assert b[h].started[i] == a[h].started[i];
    }
  }

  /** An acknowledgement that carries what the request of that id does, and a host was handed the request. */
  predicate Earned(requests: map<Id, Request>, handed: set<Id>, id: Id, ack: Ack)
  {
    id in requests && id in handed && ack == Ack(id, requests[id].nonce, requests[id].instance)
  }

  /** What was seen, what is being accepted and what was accepted was earned; and no acknowledgement was found bad. */
  predicate DeliveriesEarned(ch: Channel, handed: set<Id>)
  {
    && (forall id :: id in ch.outcomes ==>
          ch.outcomes[id] != BadAcknowledgement && (ch.outcomes[id] == Accepted ==> id in handed))
    && (forall k :: 0 <= k < |ch.active| ==>
          var id := ch.active[k].task.request.id;
          match ch.active[k]
          case Starting(_) => true
          case Awaiting(_, seen) => seen.Some? ==> Earned(ch.requests, handed, id, seen.value)
          case Accepting(_) => id in handed)
  }

  /** Acknowledgement files are earned, and a host remembers only what it was handed. */
  predicate Honest(s: System)
  {
    && DeliveriesEarned(s.ch, Handed(s.hosts))
    && (forall id :: id in s.files.acks ==> Earned(s.ch.requests, Handed(s.hosts), id, s.files.acks[id]))
    && (forall h, p :: 0 <= h < |s.hosts| && 0 <= p < |s.hosts[h].processed| ==> WasHanded(s.hosts[h], s.hosts[h].processed[p]))
  }

  predicate WasHanded(host: Host, id: Id)
  {
    exists i :: 0 <= i < |host.started| && host.started[i].id == id
  }

  // ----- Steps of the channel -----

  /** The channel's step only adds requests and may begin a delivery. */
  predicate Quiet(a: Channel, b: Channel)
  {
    && Extends(a.requests, b.requests) && b.outcomes == a.outcomes
    && (b.active == a.active || (|b.active| == 1 && b.active[0].Starting?))
  }

  lemma QuietKeeps(a: Channel, b: Channel, handed: set<Id>)
    requires DeliveriesEarned(a, handed) && Quiet(a, b)
    ensures DeliveriesEarned(b, handed)
  {
  }

  lemma PumpIsQuiet(ch: Channel, written: seq<Id>)
    requires ChannelOk(ch, written)
    ensures Quiet(ch, Pump(ch))
  {
    hide Pump, QueuesOk, IdsOk, HistoryOk;
    PumpBegins(ch, written);
  }

  lemma DeliverIsQuiet(ch: Channel, written: seq<Id>, cmd: Command, instance: nat, priority: bool, shutdown: bool)
    requires ChannelOk(ch, written)
    ensures Quiet(ch, Deliver(ch, NextRequest(ch, cmd, instance), priority, shutdown))
  {
    hide Pump, ChannelOk;
    var r := NextRequest(ch, cmd, instance);
    QueueKeeps(ch, written, r, priority, shutdown);
    PumpIsQuiet(Queued(ch, r, priority, shutdown), written);
  }

  lemma ResumeIsQuiet(ch: Channel, written: seq<Id>)
    requires ChannelOk(ch, written)
    ensures Quiet(ch, Resume(ch))
  {
    hide Pump, QueuesOk, IdsOk, HistoryOk, ActiveOk;
    if ch.paused {
      Unpaused(ch, written);
      PumpIsQuiet(ch.(paused := false), written);
    }
  }

  lemma RotationEarns(ch: Channel, handed: set<Id>, pause: bool)
    requires DeliveriesEarned(ch, handed)
    ensures DeliveriesEarned(Prepare(ch, pause), handed) && DeliveriesEarned(Take(ch), handed)
  {
  }

  lemma FinishEarns(ch: Channel, written: seq<Id>, handed: set<Id>, outcome: Outcome)
    requires ChannelOk(ch, written) && DeliveriesEarned(ch, handed) && ch.delivering && outcome != BadAcknowledgement
    requires outcome == Accepted ==> ch.active[0].task.request.id in handed
    ensures DeliveriesEarned(Finish(ch, 0, outcome), handed)
  {
    hide Pump, QueuesOk, IdsOk, HistoryOk;
    var rest := Ended(ch.(active := ch.active[..0] + ch.active[1..], delivering := false), ch.active[0].task.request.id, outcome);
    Ending(ch, written, outcome);
    assert rest.active == [];
    PumpIsQuiet(rest, written);
    QuietKeeps(rest, Pump(rest), handed);
  }

  lemma JudgeEarns(ch: Channel, written: seq<Id>, handed: set<Id>, timedOut: bool)
    requires ChannelOk(ch, written) && DeliveriesEarned(ch, handed) && ch.delivering && ch.active[0].Awaiting?
    ensures DeliveriesEarned(Judge(ch, 0, timedOut), handed)
  {
    hide Finish, QueuesOk, IdsOk, HistoryOk;
    FinishEarns(ch, written, handed, Restarted);
    FinishEarns(ch, written, handed, TimedOut);
    RequestIsOwn(ch, written);
  }

  /** The delivery under way carries the request of its id. */
  lemma RequestIsOwn(ch: Channel, written: seq<Id>)
    requires ChannelOk(ch, written) && ch.delivering
    ensures |ch.active| == 1
    ensures var r := ch.active[0].task.request; r.id in ch.requests && ch.requests[r.id] == r
  {
  }

  lemma AcceptEarns(ch: Channel, written: seq<Id>, handed: set<Id>)
    requires ChannelOk(ch, written) && DeliveriesEarned(ch, handed) && ch.delivering && ch.active[0].Accepting?
    ensures DeliveriesEarned(Accept(ch, 0), handed)
  {
    hide Finish, QueuesOk, IdsOk, HistoryOk;
    PrepareKeeps(ch, written, true);
    SameDelivery(ch);
    RotationEarns(ch, handed, true);
    FinishEarns(if ch.active[0].task.shutdown then Prepare(ch, true) else ch, written, handed, Accepted);
  }

  /** The page changes no acknowledgement but may remove one. */
  lemma PageLeavesAcks(s: System, action: Action)
    requires OfThePage(action)
    ensures var t := ClientStep(s, action);
      t.hosts == s.hosts && forall id :: id in t.files.acks ==> id in s.files.acks && t.files.acks[id] == s.files.acks[id]
  {
    hide Deliver, Free, Prepare, Take, Resume, Finish, Judge, Accept, Look, NextRequest;
  }

  lemma PageStepEarns(s: System, action: Action)
    requires Ok(s) && Honest(s) && OfThePage(action)
    ensures DeliveriesEarned(ClientStep(s, action).ch, Handed(s.hosts))
  {
    hide QueuesOk, IdsOk, HistoryOk, HostsOk, SlotOk, Deliver, Free, Prepare, Take, Resume, Finish, Judge, Accept, Handed;
    hide NextRequest, DeliveriesEarned, JudgeReply;
    var handed := Handed(s.hosts);
    match action {
      case CallExec(cmd, instance) =>
        DeliverIsQuiet(s.ch, s.written, cmd, instance, false, false);
        QuietKeeps(s.ch, ClientStep(s, action).ch, handed);
      case CallDirect(cmd, instance) =>
        DeliverIsQuiet(s.ch, s.written, cmd, instance, true, false);
        QuietKeeps(s.ch, Deliver(s.ch, NextRequest(s.ch, cmd, instance), true, false), handed);
      case RequestShutdown =>
        DeliverIsQuiet(s.ch, s.written, Exit, 0, true, true);
        QuietKeeps(s.ch, Deliver(s.ch, NextRequest(s.ch, Exit, 0), true, true), handed);
      case PrepareEpoch(pause) => RotationEarns(s.ch, handed, pause);
      case TakeEpoch => RotationEarns(s.ch, handed, false);
      case ResumeDelivery =>
        ResumeIsQuiet(s.ch, s.written);
        QuietKeeps(s.ch, Resume(s.ch), handed);
      case WriteSlot => WriteEarns(s, handed);
      case FailWrite =>
        if AtPhase(s.ch) {
          FinishEarns(s.ch, s.written, handed, WriteFailed);
        }
      case ReadAck => LookEarns(s);
      case JudgeAck(timedOut) =>
        if AtPhase(s.ch) && s.ch.active[0].Awaiting? {
          JudgeEarns(s.ch, s.written, handed, timedOut);
        }
      case RemoveAck =>
        if AtPhase(s.ch) && s.ch.active[0].Accepting? {
          AcceptEarns(s.ch, s.written, handed);
        }
      case ReadResult(_) =>
      case JudgeResult(id, timedOut) => JudgeKeepsChannel(s, id, timedOut);
    }
  }

  lemma WriteEarns(s: System, handed: set<Id>)
    requires DeliveriesEarned(s.ch, handed)
    ensures DeliveriesEarned(ClientStep(s, WriteSlot).ch, handed)
  {
  }

  lemma LookEarns(s: System)
    requires Honest(s)
    ensures DeliveriesEarned(ClientStep(s, ReadAck).ch, Handed(s.hosts))
  {
    hide Handed;
  }

  // ----- Steps of the hosts -----

  /** A host's step: what it was handed grows, and it acknowledges only what it was handed. */
  predicate HostStays(host: Host, files: Files, requests: map<Id, Request>, next: Host, after: Files)
  {
    && host.started <= next.started
    && (forall p :: 0 <= p < |next.processed| ==> WasHanded(next, next.processed[p]))
    && (forall id :: id in after.acks ==>
          (id in files.acks && after.acks[id] == files.acks[id])
          || (id in requests && WasHanded(next, id) && after.acks[id] == Ack(id, requests[id].nonce, requests[id].instance)))
  }

  predicate RemembersHanded(host: Host)
  {
    forall p :: 0 <= p < |host.processed| ==> WasHanded(host, host.processed[p])
  }

  lemma BeginHands(host: Host, r: Request)
    requires RemembersHanded(host)
    ensures RemembersHanded(RpcHost.Begin(host, r)) && WasHanded(RpcHost.Begin(host, r), r.id)
  {
    var next := RpcHost.Begin(host, r);
    assert next.started[|host.started|] == r;
    forall p | 0 <= p < |next.processed|
      ensures WasHanded(next, next.processed[p])
    {
      AddedIsOldOrNew(host.processed, PROCESSED_LIMIT, r.id, p);
      if next.processed[p] != r.id {
        var q :| 0 <= q < |host.processed| && host.processed[q] == next.processed[p];
        assert WasHanded(host, host.processed[q]);
        var i :| 0 <= i < |host.started| && host.started[i].id == host.processed[q];
        assert next.started[i] == host.started[i];
      }
    }
  }

  lemma AddedIsOldOrNew(values: seq<Id>, limit: nat, id: Id, p: nat)
    requires p < |Added(values, limit, id)|
    ensures Added(values, limit, id)[p] == id || exists q :: 0 <= q < |values| && values[q] == Added(values, limit, id)[p]
  {
  }

  lemma PollIsHonest(host: Host, files: Files, requests: map<Id, Request>, written: seq<Id>)
    requires RemembersHanded(host) && SlotOk(files.slot, requests, written)
    ensures HostStays(host, files, requests, Poll(host, files).0, Poll(host, files).1)
  {
    hide RpcHost.Begin, WasHanded;
    if files.slot.Holds? {
      BeginHands(host, files.slot.request);
      BeginAdds(host, files.slot.request);
      SameHanded(host);
      SameHanded(RpcHost.Begin(host, files.slot.request));
      if files.slot.request.id in host.processed {
        var p :| 0 <= p < |host.processed| && host.processed[p] == files.slot.request.id;
      }
    } else {
      SameHanded(host);
    }
  }

  lemma BeginAdds(host: Host, r: Request)
    ensures host.started <= RpcHost.Begin(host, r).started
  {
  }

  /** What was handed over does not depend on the rest of the host. */
  lemma SameHanded(host: Host)
    ensures forall other: Host, id {:trigger WasHanded(other, id)} :: other.started == host.started ==> WasHanded(other, id) == WasHanded(host, id)
  {
  }

  lemma OtherHostStepsAreHonest(host: Host, files: Files, requests: map<Id, Request>, r: Request)
    requires RemembersHanded(host)
    ensures HostStays(host, files, requests, EndNormal(host, files).0, EndNormal(host, files).1)
    ensures HostStays(host, files, requests, EndPriority(host, files).0, EndPriority(host, files).1)
    ensures HostStays(host, files, requests, WriteResult(host, files, r).0, WriteResult(host, files, r).1)
    ensures HostStays(host, files, requests, host.(alive := false), files)
  {
    hide WasHanded;
    SameHanded(host);
  }

  lemma SetHostIsHonest(s: System, h: nat, r: (Host, Files))
    requires Honest(s) && h < |s.hosts| && HostStays(s.hosts[h], s.files, s.ch.requests, r.0, r.1)
    ensures Honest(SetHost(s, h, r))
  {
    hide WasHanded, Handed, DeliveriesEarned;
    var t := SetHost(s, h, r);
    HandedStays(s.hosts, t.hosts);
    MoreHanded(s.ch, Handed(s.hosts), Handed(t.hosts));
    forall id | id in t.files.acks
      ensures Earned(t.ch.requests, Handed(t.hosts), id, t.files.acks[id])
    {
      if WasHanded(r.0, id) {
        HandedByOne(t.hosts, h, id);
      }
    }
  }

  lemma MoreHanded(ch: Channel, a: set<Id>, b: set<Id>)
    requires DeliveriesEarned(ch, a) && a <= b
    ensures DeliveriesEarned(ch, b)
  {
  }

  lemma HandedByOne(hosts: seq<Host>, h: nat, id: Id)
    requires h < |hosts| && WasHanded(hosts[h], id)
    ensures id in Handed(hosts)
  {
  }

  lemma HostStepIsHonest(s: System, action: Action)
    requires Ok(s) && Honest(s) && !OfThePage(action)
    ensures Honest(HostStep(s, action))
  {
    hide ChannelOk, HostsOk, SlotOk, Poll, EndNormal, EndPriority, WriteResult, DeliveriesEarned, Handed, WasHanded, HostStays;
    match action {
      case SpawnHost =>
        if s.files.epoch.Some? {
          var t := HostStep(s, action);
          HandedStays(s.hosts, t.hosts);
          MoreHanded(s.ch, Handed(s.hosts), Handed(t.hosts));
        }
      case KillHost(h) =>
        if h < |s.hosts| {
          OtherHostStepsAreHonest(s.hosts[h], s.files, s.ch.requests, Request(Id(0, 0), Other, 0, 0));
          SetHostIsHonest(s, h, (s.hosts[h].(alive := false), s.files));
        }
      case PollHost(h) =>
        if h < |s.hosts| {
          PollIsHonest(s.hosts[h], s.files, s.ch.requests, s.written);
          SetHostIsHonest(s, h, Poll(s.hosts[h], s.files));
        }
      case EndHandler(h) =>
        if h < |s.hosts| {
          OtherHostStepsAreHonest(s.hosts[h], s.files, s.ch.requests, Request(Id(0, 0), Other, 0, 0));
          SetHostIsHonest(s, h, EndNormal(s.hosts[h], s.files));
        }
      case EndPriorityHandler(h) =>
        if h < |s.hosts| {
          OtherHostStepsAreHonest(s.hosts[h], s.files, s.ch.requests, Request(Id(0, 0), Other, 0, 0));
          SetHostIsHonest(s, h, EndPriority(s.hosts[h], s.files));
        }
      case AnswerRequest(h, i) =>
        if StartedAt(s, h, i) {
          OtherHostStepsAreHonest(s.hosts[h], s.files, s.ch.requests, s.hosts[h].started[i]);
          SetHostIsHonest(s, h, WriteResult(s.hosts[h], s.files, s.hosts[h].started[i]));
        }
      case _ =>
    }
  }

  lemma StepIsHonest(s: System, action: Action)
    requires Ok(s) && Honest(s)
    ensures Honest(Step(s, action))
  {
    hide Ok, ClientStep, HostStep, OfThePage, DeliveriesEarned, Handed, WasHanded;
    if OfThePage(action) {
      PageStepEarns(s, action);
      PageLeavesAcks(s, action);
      StepGrows(s, action);
    } else {
      HostStepIsHonest(s, action);
    }
  }

  lemma {:induction false} RunIsHonest(actions: seq<Action>)
    ensures Ok(Run(Init(), actions)) && Honest(Run(Init(), actions))
    decreases |actions|
  {
    hide Step, Ok, Honest;
    RunOk(actions);
    if actions == [] {
      NothingIsHonest();
    } else {
      RunIsHonest(actions[..|actions| - 1]);
      StepIsHonest(Run(Init(), actions[..|actions| - 1]), actions[|actions| - 1]);
    }
  }

  lemma NothingIsHonest()
    ensures Honest(Init())
  {
  }

  // ----- What an outcome means -----

  /** An accepted request was handed to a host of its own epoch; and no acknowledgement is ever found bad, because what lies
      under an id carries what the request of that id does. */
  lemma AcceptedMeansHanded(actions: seq<Action>, id: Id)
    ensures var s := Run(Init(), actions);
      && (id in s.ch.outcomes ==> s.ch.outcomes[id] != BadAcknowledgement)
      && (id in s.ch.outcomes && s.ch.outcomes[id] == Accepted ==>
            id in s.ch.requests
            && exists h: nat, i: nat :: StartedAt(s, h, i) && s.hosts[h].started[i] == s.ch.requests[id]
                                        && s.hosts[h].epoch == s.ch.requests[id].nonce)
      && (id in s.files.acks ==>
            id in s.ch.requests && s.files.acks[id] == Ack(id, s.ch.requests[id].nonce, s.ch.requests[id].instance))
  {
    hide Run, QueuesOk, ActiveOk, IdsOk, SlotOk;
    RunIsHonest(actions);
    var s := Run(Init(), actions);
    if id in s.ch.outcomes && s.ch.outcomes[id] == Accepted {
      var h, i :| 0 <= h < |s.hosts| && 0 <= i < |s.hosts[h].started| && id == s.hosts[h].started[i].id;
      assert HostOk(s.hosts[h], s.ch.requests, s.written);
      assert StartedAt(s, h, i);
    }
  }
}
