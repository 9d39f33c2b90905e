/** The file mailbox as a whole: one channel, any number of hosts old and new polling the same files, and files that may
    vanish at any time. */
module RpcProtocol {
  import opened Text
  import opened RpcIds
  import opened RpcChannel
  import opened RpcHost

  /** Where an `exec` stands once its request was made. */
  datatype Exec = Waiting(seen: Option<Reply>) | Resolved(reply: Reply) | Rejected

  /** `written` is the history of the slot. */
  datatype System = System(ch: Channel, files: Files, hosts: seq<Host>, execs: map<Id, Exec>, written: seq<Id>)

  datatype Action =
    // the page
    | CallExec(cmd: Command, instance: nat)
    | CallDirect(cmd: Command, instance: nat)
    | RequestShutdown
    | PrepareEpoch(pause: bool)
    | TakeEpoch
    | ResumeDelivery
    | WriteSlot
    | FailWrite
    | ReadAck
    | JudgeAck(timedOut: bool)
    | RemoveAck
    | ReadResult(id: Id)
    | JudgeResult(id: Id, timedOut: bool)
    // the hosts
    | PublishEpoch(epoch: nat)
    | SpawnHost
    | KillHost(host: nat)
    | PollHost(host: nat)
    | EndHandler(host: nat)
    | EndPriorityHandler(host: nat)
    | AnswerRequest(host: nat, index: nat)
    // the world
    | LoseSlot
    | LoseAck(id: Id)
    | LoseResult(id: Id)
    | Scribble(found: Option<Id>, nonce: nat)

  function Init(): System
  {
    System(InitialChannel(), Files(Empty, map[], map[], None), [], map[], [])
  }

  predicate AtPhase(ch: Channel)
  {
    ch.delivering && |ch.active| == 1
  }

  function CallStep(s: System, cmd: Command, instance: nat, priority: bool): System
  {
    var r := NextRequest(s.ch, cmd, instance);
    s.(ch := Deliver(s.ch, r, priority, false), execs := s.execs[r.id := Waiting(None)])
  }

  predicate MatchesReply(reply: Reply, r: Request)
  {
    reply.id == r.id && reply.nonce == Some(r.nonce) && reply.instance == r.instance
  }

  /** What follows a look at the result file; it matters only once the delivery was accepted. */
  function JudgeReply(s: System, id: Id, timedOut: bool): System
    requires id in s.execs && s.execs[id].Waiting? && id in s.ch.requests
  {
    var r := s.ch.requests[id];
    if id !in s.ch.outcomes then s
    else if s.ch.outcomes[id] != Accepted || r.nonce != s.ch.nonce then s.(execs := s.execs[id := Rejected])
    else if s.execs[id].seen.Some? then
      if !MatchesReply(s.execs[id].seen.value, r) then s.(execs := s.execs[id := Rejected])
      else s.(execs := s.execs[id := Resolved(s.execs[id].seen.value)], files := s.files.(results := s.files.results - {id}))
    else if timedOut then s.(execs := s.execs[id := Rejected])
    else s
  }

  function Lookup<V>(m: map<Id, V>, id: Id): Option<V>
  {
    if id in m then Some(m[id]) else None
  }

  function ClientStep(s: System, action: Action): System
  {
    match action
    case CallExec(cmd, instance) => CallStep(s, cmd, instance, false)
    case CallDirect(cmd, instance) => if Free(s.ch) then CallStep(s, cmd, instance, true) else s
    case RequestShutdown =>
      if s.ch.prepared.Some? || s.ch.paused then s
      else s.(ch := Deliver(s.ch, NextRequest(s.ch, Exit, 0), true, true))
    case PrepareEpoch(pause) => s.(ch := Prepare(s.ch, pause))
    case TakeEpoch => s.(ch := Take(s.ch))
    case ResumeDelivery => s.(ch := Resume(s.ch))
    case WriteSlot =>
      if AtPhase(s.ch) && s.ch.active[0].Starting? then
        var r := s.ch.active[0].task.request;
        s.(ch := Write(s.ch), files := s.files.(slot := Holds(r)), written := s.written + [r.id])
      else s
    case FailWrite =>
      if AtPhase(s.ch) && s.ch.active[0].Starting? then s.(ch := Finish(s.ch, 0, WriteFailed)) else s
    case ReadAck =>
      if AtPhase(s.ch) && s.ch.active[0].Awaiting? then
        s.(ch := Look(s.ch, Lookup(s.files.acks, s.ch.active[0].task.request.id)))
      else s
    case JudgeAck(timedOut) =>
      if AtPhase(s.ch) && s.ch.active[0].Awaiting? then s.(ch := Judge(s.ch, 0, timedOut)) else s
    case RemoveAck =>
      if AtPhase(s.ch) && s.ch.active[0].Accepting? then
        s.(ch := Accept(s.ch, 0), files := s.files.(acks := s.files.acks - {s.ch.active[0].task.request.id}))
      else s
    case ReadResult(id) =>
      if id in s.execs && s.execs[id].Waiting? then s.(execs := s.execs[id := Waiting(Lookup(s.files.results, id))]) else s
    case JudgeResult(id, timedOut) =>
      if id in s.execs && s.execs[id].Waiting? && id in s.ch.requests then JudgeReply(s, id, timedOut) else s
    case _ => s
  }

  function SetHost(s: System, h: nat, r: (Host, Files)): System
    requires h < |s.hosts|
  {
    s.(hosts := s.hosts[h := r.0], files := r.1)
  }

  function HostStep(s: System, action: Action): System
  {
    match action
    case PublishEpoch(epoch) => s.(files := s.files.(epoch := Some(epoch)))
    case SpawnHost => if s.files.epoch.None? then s else s.(hosts := s.hosts + [NewHost(s.files.epoch.value)])
    case KillHost(h) => if h < |s.hosts| then s.(hosts := s.hosts[h := s.hosts[h].(alive := false)]) else s
    case PollHost(h) => if h < |s.hosts| && s.hosts[h].alive then SetHost(s, h, Poll(s.hosts[h], s.files)) else s
    case EndHandler(h) => if h < |s.hosts| && s.hosts[h].alive then SetHost(s, h, EndNormal(s.hosts[h], s.files)) else s
    case EndPriorityHandler(h) =>
      if h < |s.hosts| && s.hosts[h].alive then SetHost(s, h, EndPriority(s.hosts[h], s.files)) else s
    case AnswerRequest(h, i) =>
      if h < |s.hosts| && s.hosts[h].alive && i < |s.hosts[h].started|
      then SetHost(s, h, WriteResult(s.hosts[h], s.files, s.hosts[h].started[i]))
      else s
    case LoseSlot => s.(files := s.files.(slot := Empty))
    case LoseAck(id) => s.(files := s.files.(acks := s.files.acks - {id}))
    case LoseResult(id) => s.(files := s.files.(results := s.files.results - {id}))
    case Scribble(found, nonce) => s.(files := s.files.(slot := Garbage(found, nonce)))
    case _ => s
  }

  predicate OfThePage(action: Action)
  {
    match action
    case CallExec(_, _) => true
    case CallDirect(_, _) => true
    case RequestShutdown => true
    case PrepareEpoch(_) => true
    case TakeEpoch => true
    case ResumeDelivery => true
    case WriteSlot => true
    case FailWrite => true
    case ReadAck => true
    case JudgeAck(_) => true
    case RemoveAck => true
    case ReadResult(_) => true
    case JudgeResult(_, _) => true
    case _ => false
  }

  function Step(s: System, action: Action): System
  {
    if OfThePage(action) then ClientStep(s, action) else HostStep(s, action)
  }

  function Run(s: System, actions: seq<Action>): System
    decreases |actions|
  {
    if actions == [] then s else Step(Run(s, actions[..|actions| - 1]), actions[|actions| - 1])
  }

  // ----- The invariant -----

  predicate HostsOk(s: System)
  {
    forall h :: 0 <= h < |s.hosts| ==> HostOk(s.hosts[h], s.ch.requests, s.written)
  }

  predicate Ok(s: System)
  {
    ChannelOk(s.ch, s.written) && HostsOk(s) && SlotOk(s.files.slot, s.ch.requests, s.written)
  }

  /** A result of a command was written by a host that was handed the request, and if it carries a nonce it is that of
      the request. */
  ghost predicate Genuine(s: System, reply: Reply)
  {
    reply.handled ==>
      reply.id in s.ch.requests
      && (reply.nonce.Some? ==> reply.nonce.value == s.ch.requests[reply.id].nonce)
      && exists h: nat, i: nat :: StartedAt(s, h, i) && s.hosts[h].started[i].id == reply.id
  }

  predicate StartedAt(s: System, h: nat, i: nat)
  {
    h < |s.hosts| && i < |s.hosts[h].started|
  }

  ghost predicate RepliesOk(s: System)
  {
    && (forall id :: id in s.files.results ==> s.files.results[id].id == id && Genuine(s, s.files.results[id]))
    && (forall id :: id in s.execs ==>
          id in s.ch.requests
          && match s.execs[id]
             case Waiting(seen) => seen.Some? ==> Genuine(s, seen.value)
             case Resolved(reply) => Genuine(s, reply) && MatchesReply(reply, s.ch.requests[id])
             case Rejected => true)
  }

  // ----- Steps keep it -----

  /** Requests are only added, and only new ones. */
  predicate Extends(a: map<Id, Request>, b: map<Id, Request>)
  {
    forall id :: id in a ==> id in b && b[id] == a[id]
  }

  lemma PumpKeepsRequests(ch: Channel, written: seq<Id>)
    requires ChannelOk(ch, written)
    ensures Pump(ch).requests == ch.requests
  {
    hide Pump, ChannelOk;
    PumpBegins(ch, written);
  }

  lemma DeliverAdds(ch: Channel, written: seq<Id>, cmd: Command, instance: nat, priority: bool, shutdown: bool)
    requires ChannelOk(ch, written)
    ensures var r := NextRequest(ch, cmd, instance);
      && r.id !in ch.requests && ChannelOk(Deliver(ch, r, priority, shutdown), written)
      && Deliver(ch, r, priority, shutdown).requests == ch.requests[r.id := r]
  {
    hide Pump, ChannelOk;
    var r := NextRequest(ch, cmd, instance);
    DeliverKeeps(ch, written, cmd, instance, priority, shutdown);
    QueueKeeps(ch, written, r, priority, shutdown);
    PumpKeepsRequests(Queued(ch, r, priority, shutdown), written);
  }

  lemma RequestedKeeps(s: System, ch: Channel, r: Request)
    requires Ok(s) && ChannelOk(ch, s.written) && r.id !in s.ch.requests && ch.requests == s.ch.requests[r.id := r]
    ensures Ok(s.(ch := ch))
  {
    hide HostOk, ChannelOk;
    forall h | 0 <= h < |s.hosts|
      ensures HostOk(s.hosts[h], ch.requests, s.written)
    {
      RequestedOnKeeps(s.hosts[h], s.ch.requests, s.written, r);
    }
  }

  lemma SameRequestsKeep(s: System, ch: Channel)
    requires Ok(s) && ChannelOk(ch, s.written) && ch.requests == s.ch.requests
    ensures Ok(s.(ch := ch))
  {
    hide HostOk, ChannelOk;
  }

  lemma Ending(ch: Channel, written: seq<Id>, outcome: Outcome)
    requires ChannelOk(ch, written) && ch.delivering
    ensures ChannelOk(Ended(ch.(active := ch.active[..0] + ch.active[1..], delivering := false),
                            ch.active[0].task.request.id, outcome), written)
  {
    assert ch.active[..0] + ch.active[1..] == [];
  }

  lemma FinishKeepsRequests(ch: Channel, written: seq<Id>, outcome: Outcome)
    requires ChannelOk(ch, written) && ch.delivering
    ensures Finish(ch, 0, outcome).requests == ch.requests
  {
    hide Pump, QueuesOk, IdsOk, HistoryOk;
    Ending(ch, written, outcome);
    PumpKeepsRequests(Ended(ch.(active := ch.active[..0] + ch.active[1..], delivering := false),
                            ch.active[0].task.request.id, outcome), written);
  }

  lemma JudgeKeepsRequests(ch: Channel, written: seq<Id>, timedOut: bool)
    requires ChannelOk(ch, written) && ch.delivering && ch.active[0].Awaiting?
    ensures Judge(ch, 0, timedOut).requests == ch.requests
  {
    hide Finish, QueuesOk, IdsOk, HistoryOk;
    FinishKeepsRequests(ch, written, Restarted);
    FinishKeepsRequests(ch, written, BadAcknowledgement);
    FinishKeepsRequests(ch, written, TimedOut);
  }

  lemma AcceptKeepsRequests(ch: Channel, written: seq<Id>)
    requires ChannelOk(ch, written) && ch.delivering && ch.active[0].Accepting?
    ensures Accept(ch, 0).requests == ch.requests
  {
    hide Finish, QueuesOk, IdsOk, HistoryOk;
    PrepareKeeps(ch, written, true);
    SameDelivery(ch);
    FinishKeepsRequests(if ch.active[0].task.shutdown then Prepare(ch, true) else ch, written, Accepted);
  }

  lemma ResumeKeepsRequests(ch: Channel, written: seq<Id>)
    requires ChannelOk(ch, written)
    ensures Resume(ch).requests == ch.requests
  {
    hide Pump, QueuesOk, IdsOk, HistoryOk, ActiveOk;
    if ch.paused {
      Unpaused(ch, written);
      PumpKeepsRequests(ch.(paused := false), written);
    }
  }

  /** Steps of the page that only change the channel. */
  lemma ChannelStepKeeps(s: System, action: Action)
    requires Ok(s) && OfThePage(action)
    requires !action.CallExec? && !action.CallDirect? && !action.RequestShutdown? && !action.WriteSlot?
    ensures var t := ClientStep(s, action); ChannelOk(t.ch, s.written) && t.ch.requests == s.ch.requests
  {
    hide QueuesOk, IdsOk, HistoryOk, Finish, Judge, Accept, Resume, HostsOk, SlotOk, JudgeReply;
    match action {
      case PrepareEpoch(pause) => PrepareKeeps(s.ch, s.written, pause);
      case TakeEpoch => TakeKeeps(s.ch, s.written);
      case ResumeDelivery =>
        ResumeKeeps(s.ch, s.written);
        ResumeKeepsRequests(s.ch, s.written);
      case FailWrite =>
        if s.ch.delivering {
          FinishKeeps(s.ch, s.written, WriteFailed);
          FinishKeepsRequests(s.ch, s.written, WriteFailed);
        }
      case ReadAck =>
        if s.ch.delivering && s.ch.active[0].Awaiting? {
          LookKeeps(s.ch, s.written, Lookup(s.files.acks, s.ch.active[0].task.request.id));
        }
      case JudgeAck(timedOut) =>
        if s.ch.delivering && s.ch.active[0].Awaiting? {
          JudgeKeeps(s.ch, s.written, timedOut);
          JudgeKeepsRequests(s.ch, s.written, timedOut);
        }
      case RemoveAck =>
        if s.ch.delivering && s.ch.active[0].Accepting? {
          AcceptKeeps(s.ch, s.written);
          AcceptKeepsRequests(s.ch, s.written);
        }
      case JudgeResult(id, timedOut) =>
        JudgeKeepsChannel(s, id, timedOut);
      case _ =>
    }
  }

  lemma JudgeKeepsChannel(s: System, id: Id, timedOut: bool)
    ensures var t := ClientStep(s, JudgeResult(id, timedOut));
            t.ch == s.ch && t.hosts == s.hosts && t.written == s.written && t.files.slot == s.files.slot
  {
  }

  /** What such a step leaves alone. */
  lemma ChannelStepFrame(s: System, action: Action)
    requires OfThePage(action)
    requires !action.CallExec? && !action.CallDirect? && !action.RequestShutdown? && !action.WriteSlot?
    ensures var t := ClientStep(s, action);
            t.hosts == s.hosts && t.written == s.written && t.files.slot == s.files.slot
  {
    hide Prepare, Take, Resume, Finish, Judge, Accept;
  }

  lemma WriteStepKeeps(s: System)
    requires Ok(s)
    ensures Ok(ClientStep(s, WriteSlot))
  {
    hide QueuesOk, IdsOk, HistoryOk, HostOk;
    if s.ch.delivering && s.ch.active[0].Starting? {
      var r := s.ch.active[0].task.request;
      WriteKeeps(s.ch, s.written);
      forall h | 0 <= h < |s.hosts|
        ensures HostOk(s.hosts[h], s.ch.requests, s.written + [r.id])
      {
        WrittenOnKeeps(s.hosts[h], s.ch.requests, s.written, r.id);
      }
    }
  }

  lemma ClientStepKeeps(s: System, action: Action)
    requires Ok(s) && OfThePage(action)
    ensures Ok(ClientStep(s, action))
  {
    hide ChannelOk, HostOk, Deliver, Free, Prepare, Take, Resume, Finish, Judge, Accept, JudgeReply, Look, NextRequest;
    match action {
      case CallExec(cmd, instance) =>
        DeliverAdds(s.ch, s.written, cmd, instance, false, false);
        RequestedKeeps(s, Deliver(s.ch, NextRequest(s.ch, cmd, instance), false, false), NextRequest(s.ch, cmd, instance));
      case CallDirect(cmd, instance) =>
        DeliverAdds(s.ch, s.written, cmd, instance, true, false);
        RequestedKeeps(s, Deliver(s.ch, NextRequest(s.ch, cmd, instance), true, false), NextRequest(s.ch, cmd, instance));
      case RequestShutdown =>
        DeliverAdds(s.ch, s.written, Exit, 0, true, true);
        RequestedKeeps(s, Deliver(s.ch, NextRequest(s.ch, Exit, 0), true, true), NextRequest(s.ch, Exit, 0));
      case WriteSlot =>
        WriteStepKeeps(s);
      case _ =>
        ChannelStepKeeps(s, action);
        ChannelStepFrame(s, action);
        SameRequestsKeep(s, ClientStep(s, action).ch);
    }
  }

  lemma SetHostKeeps(s: System, h: nat, r: (Host, Files))
    requires Ok(s) && h < |s.hosts| && HostOk(r.0, s.ch.requests, s.written) && SlotOk(r.1.slot, s.ch.requests, s.written)
    ensures Ok(SetHost(s, h, r))
  {
    hide HostOk, ChannelOk;
  }

  lemma SmallHostSteps(host: Host, files: Files, requests: map<Id, Request>, written: seq<Id>)
    requires HostOk(host, requests, written) && SlotOk(files.slot, requests, written)
    ensures HostOk(EndNormal(host, files).0, requests, written) && SlotOk(EndNormal(host, files).1.slot, requests, written)
    ensures HostOk(EndPriority(host, files).0, requests, written) && SlotOk(EndPriority(host, files).1.slot, requests, written)
    ensures HostOk(host.(alive := false), requests, written)
  {
  }

  lemma WriteResultKeeps(host: Host, files: Files, requests: map<Id, Request>, written: seq<Id>, i: nat)
    requires HostOk(host, requests, written) && SlotOk(files.slot, requests, written) && i < |host.started|
    ensures HostOk(WriteResult(host, files, host.started[i]).0, requests, written)
            && SlotOk(WriteResult(host, files, host.started[i]).1.slot, requests, written)
  {
  }

  lemma HostStepKeeps(s: System, action: Action)
    requires Ok(s) && !OfThePage(action)
    ensures Ok(HostStep(s, action))
  {
    hide ChannelOk, HostOk, Poll, EndNormal, EndPriority, WriteResult, SetHost;
    match action {
      case SpawnHost =>
        if s.files.epoch.Some? {
          NewHostOk(s.files.epoch.value, s.ch.requests, s.written);
        }
      case KillHost(h) =>
        if h < |s.hosts| {
          SmallHostSteps(s.hosts[h], s.files, s.ch.requests, s.written);
        }
      case PollHost(h) =>
        if h < |s.hosts| {
          PollKeeps(s.hosts[h], s.files, s.ch.requests, s.written);
          SetHostKeeps(s, h, Poll(s.hosts[h], s.files));
        }
      case EndHandler(h) =>
        if h < |s.hosts| {
          SmallHostSteps(s.hosts[h], s.files, s.ch.requests, s.written);
          SetHostKeeps(s, h, EndNormal(s.hosts[h], s.files));
        }
      case EndPriorityHandler(h) =>
        if h < |s.hosts| {
          SmallHostSteps(s.hosts[h], s.files, s.ch.requests, s.written);
          SetHostKeeps(s, h, EndPriority(s.hosts[h], s.files));
        }
      case AnswerRequest(h, i) =>
        if h < |s.hosts| && i < |s.hosts[h].started| {
          WriteResultKeeps(s.hosts[h], s.files, s.ch.requests, s.written, i);
          SetHostKeeps(s, h, WriteResult(s.hosts[h], s.files, s.hosts[h].started[i]));
        }
      case _ =>
    }
  }

  lemma NewHostOk(epoch: nat, requests: map<Id, Request>, written: seq<Id>)
    ensures HostOk(NewHost(epoch), requests, written)
  {
  }

  lemma InitOk()
    ensures Ok(Init())
  {
  }

  lemma {:induction false} RunOk(actions: seq<Action>)
    ensures Ok(Run(Init(), actions))
    decreases |actions|
  {
    hide Ok, ClientStep, HostStep, OfThePage;
    if actions == [] {
      InitOk();
    } else {
      var front, last := actions[..|actions| - 1], actions[|actions| - 1];
      RunOk(front);
      if OfThePage(last) {
        ClientStepKeeps(Run(Init(), front), last);
      } else {
        HostStepKeeps(Run(Init(), front), last);
      }
    }
  }

  // ----- What follows for every run -----

  /** In its lifetime a host never hands the same request to `handleCommand` twice, and only requests of its own epoch. */
  lemma AtMostOncePerHost(actions: seq<Action>, h: nat)
    requires h < |Run(Init(), actions).hosts|
    ensures var host := Run(Init(), actions).hosts[h];
      && (forall i, j :: 0 <= i < j < |host.started| ==> host.started[i].id != host.started[j].id)
      && (forall i :: 0 <= i < |host.started| ==>
            host.started[i].nonce == host.epoch
            && host.started[i].id in Run(Init(), actions).ch.requests
            && Run(Init(), actions).ch.requests[host.started[i].id] == host.started[i])
  {
    hide Run;
    RunOk(actions);
  }

  predicate DistinctEpochs(hosts: seq<Host>)
  {
    forall g, h :: 0 <= g < h < |hosts| ==> hosts[g].epoch != hosts[h].epoch
  }

  /** As long as every host has its own epoch, a request runs at most once anywhere. */
  lemma AtMostOnceAnywhere(actions: seq<Action>, g: nat, i: nat, h: nat, j: nat)
    requires var s := Run(Init(), actions);
      DistinctEpochs(s.hosts) && StartedAt(s, g, i) && StartedAt(s, h, j)
      && s.hosts[g].started[i].id == s.hosts[h].started[j].id
    ensures g == h && i == j
  {
    hide Run;
    AtMostOncePerHost(actions, g);
    AtMostOncePerHost(actions, h);
    var s := Run(Init(), actions);
    assert s.hosts[g].started[i] == s.hosts[h].started[j];
  }

  /** At most one delivery is active; what a rotation drops from the queues is never written; nothing is written twice;
      and all that was written but the delivery under way has ended, so nothing unfinished is overwritten. */
  lemma DeliveriesAreExclusive(actions: seq<Action>)
    ensures var s := Run(Init(), actions);
      && |s.ch.active| == (if s.ch.delivering then 1 else 0)
      && (forall i :: 0 <= i < |s.written| ==> s.written[i] !in s.ch.dropped)
      && (forall i, j :: 0 <= i < j < |s.written| ==> s.written[i] != s.written[j])
      && (s.ch.delivering && s.ch.active[0].Starting? ==> forall i :: 0 <= i < |s.written| ==> s.written[i] in s.ch.outcomes)
  {
    hide Run, QueuesOk, IdsOk;
    RunOk(actions);
  }

  /** Two hosts that read the same epoch file may both run a request: it stays in the slot until its handler ends. */
  function TwinHosts(): seq<Action>
  {
    [PublishEpoch(0), SpawnHost, SpawnHost, CallExec(Other, 0), WriteSlot, PollHost(0), PollHost(1)]
  }

  lemma TwinHostsRunARequestTwice()
    ensures var s := Run(Init(), TwinHosts());
      StartedAt(s, 0, 0) && StartedAt(s, 1, 0) && s.hosts[0].started[0] == s.hosts[1].started[0]
  {
    hide Run, Step, StartedAt;
    var a := TwinHosts();
    RunNothing(a[..0]);
    RunStep(a, 0);
    RunStep(a, 1);
    RunStep(a, 2);
    RunStep(a, 3);
    RunStep(a, 4);
    RunStep(a, 5);
    RunStep(a, 6);
    assert a[..7] == a;
    TwinsMeetARequest();
    BothPoll(Run(Init(), a[..5]), Request(Id(0, 1), Other, 0, 0));
  }

  lemma TwinsMeetARequest()
    ensures var s := Step(Step(Step(Step(Step(Init(), PublishEpoch(0)), SpawnHost), SpawnHost), CallExec(Other, 0)), WriteSlot);
      s.files.slot == Holds(Request(Id(0, 1), Other, 0, 0)) && s.hosts == [NewHost(0), NewHost(0)]
  {
    hide Deliver;
    var s3 := Step(Step(Step(Init(), PublishEpoch(0)), SpawnHost), SpawnHost);
    assert s3.hosts == [NewHost(0), NewHost(0)] && s3.ch == InitialChannel();
    FirstCall();
  }

  lemma BothPoll(s: System, r: Request)
    requires s.files.slot == Holds(r) && s.hosts == [NewHost(r.nonce), NewHost(r.nonce)]
    ensures var t := Step(Step(s, PollHost(0)), PollHost(1));
      StartedAt(t, 0, 0) && StartedAt(t, 1, 0) && t.hosts[0].started[0] == t.hosts[1].started[0]
  {
    var one := Step(s, PollHost(0));
    assert one.files.slot == Holds(r) && one.hosts[0].started == [r] && one.hosts[1] == NewHost(r.nonce);
    var two := Step(one, PollHost(1));
    assert two.hosts[1].started == [r];
  }

  lemma FirstCall()
    ensures var r := Request(Id(0, 1), Other, 0, 0);
      NextRequest(InitialChannel(), Other, 0) == r
      && Deliver(InitialChannel(), r, false, false)
         == InitialChannel().(sequence := 1, requests := map[r.id := r], delivering := true, active := [Starting(Task(r, false))])
  {
    var r := Request(Id(0, 1), Other, 0, 0);
    var q := Queued(InitialChannel(), r, false, false);
    assert q.normal == [Task(r, false)] && q.normal[1..] == [];
  }

  lemma RunStep(actions: seq<Action>, k: nat)
    requires k < |actions|
    ensures Run(Init(), actions[..k + 1]) == Step(Run(Init(), actions[..k]), actions[k])
  {
    assert actions[..k + 1][..k] == actions[..k];
  }

  lemma RunNothing(actions: seq<Action>)
    requires actions == []
    ensures Run(Init(), actions) == Init()
  {
  }

  // ----- Replies -----

  predicate Grows(s: System, t: System)
  {
    && Extends(s.ch.requests, t.ch.requests) && |s.hosts| <= |t.hosts|
    && (forall h :: 0 <= h < |s.hosts| ==> s.hosts[h].started <= t.hosts[h].started)
  }

  lemma GenuineStays(s: System, t: System, reply: Reply)
    requires Grows(s, t) && Genuine(s, reply)
    ensures Genuine(t, reply)
  {
    if reply.handled {
      var h: nat, i: nat :| StartedAt(s, h, i) && s.hosts[h].started[i].id == reply.id;
      assert s.hosts[h].started <= t.hosts[h].started;
      assert StartedAt(t, h, i) && t.hosts[h].started[i] == s.hosts[h].started[i];
    }
  }

  lemma StepGrows(s: System, action: Action)
    requires Ok(s)
    ensures Grows(s, Step(s, action))
  {
    hide ChannelOk, HostOk, SlotOk, Deliver, Free, Prepare, Take, Resume, Finish, Judge, Accept, Look, NextRequest, Added;
    match action {
      case CallExec(cmd, instance) => DeliverAdds(s.ch, s.written, cmd, instance, false, false);
      case CallDirect(cmd, instance) => DeliverAdds(s.ch, s.written, cmd, instance, true, false);
      case RequestShutdown => DeliverAdds(s.ch, s.written, Exit, 0, true, true);
      case WriteSlot =>
      case _ =>
        if OfThePage(action) {
          ChannelStepKeeps(s, action);
          ChannelStepFrame(s, action);
        }
    }
  }

  /** Results the step does not write are as genuine as before. */
  predicate ResultsKept(s: System, t: System)
  {
    forall id :: id in t.files.results ==> id in s.files.results && t.files.results[id] == s.files.results[id]
  }

  lemma ExecStays(s: System, t: System, id: Id)
    requires RepliesOk(s) && Grows(s, t) && id in s.execs && id in t.execs && t.execs[id] == s.execs[id]
    ensures id in t.ch.requests
    ensures match t.execs[id]
            case Waiting(seen) => seen.Some? ==> Genuine(t, seen.value)
            case Resolved(reply) => Genuine(t, reply) && MatchesReply(reply, t.ch.requests[id])
            case Rejected => true
  {
    hide Genuine;
    match s.execs[id] {
      case Waiting(seen) =>
        if seen.Some? {
          GenuineStays(s, t, seen.value);
        }
      case Resolved(reply) => GenuineStays(s, t, reply);
      case Rejected =>
    }
  }

  lemma QuietStepKeepsReplies(s: System, t: System)
    requires RepliesOk(s) && Grows(s, t) && ResultsKept(s, t) && t.execs == s.execs
    ensures RepliesOk(t)
  {
    hide Genuine;
    forall id | id in t.files.results
      ensures t.files.results[id].id == id && Genuine(t, t.files.results[id])
    {
      GenuineStays(s, t, s.files.results[id]);
    }
    forall id | id in t.execs
      ensures id in t.ch.requests
              && match t.execs[id]
                 case Waiting(seen) => seen.Some? ==> Genuine(t, seen.value)
                 case Resolved(reply) => Genuine(t, reply) && MatchesReply(reply, t.ch.requests[id])
                 case Rejected => true
    {
      ExecStays(s, t, id);
    }
  }

  lemma CallKeepsReplies(s: System, cmd: Command, instance: nat, priority: bool)
    requires Ok(s) && RepliesOk(s)
    ensures RepliesOk(CallStep(s, cmd, instance, priority))
  {
    hide Genuine, ChannelOk, HostOk, Deliver;
    var t := CallStep(s, cmd, instance, priority);
    var r := NextRequest(s.ch, cmd, instance);
    DeliverAdds(s.ch, s.written, cmd, instance, priority, false);
    QuietStepKeepsReplies(s, t.(execs := s.execs));
    forall id | id in t.execs && id != r.id
      ensures id in s.execs && t.execs[id] == s.execs[id]
    {
    }
    SameReplies(t.(execs := s.execs), t);
  }

  /** Calls only add execs without a reply. */
  lemma SameReplies(s: System, t: System)
    requires RepliesOk(s) && t == s.(execs := t.execs)
    requires forall id :: id in t.execs ==> id in s.ch.requests && (t.execs[id] == Waiting(None) || (id in s.execs && t.execs[id] == s.execs[id]))
    ensures RepliesOk(t)
  {
    hide Genuine;
    forall reply | Genuine(s, reply)
      ensures Genuine(t, reply)
    {
      GenuineStays(s, t, reply);
    }
  }

  lemma ReadResultKeepsReplies(s: System, id: Id)
    requires RepliesOk(s)
    ensures RepliesOk(ClientStep(s, ReadResult(id)))
  {
    hide Genuine;
    var t := ClientStep(s, ReadResult(id));
    forall reply | Genuine(s, reply)
      ensures Genuine(t, reply)
    {
      GenuineStays(s, t, reply);
    }
  }

  lemma JudgeResultKeepsReplies(s: System, id: Id, timedOut: bool)
    requires RepliesOk(s)
    ensures RepliesOk(ClientStep(s, JudgeResult(id, timedOut)))
  {
    hide Genuine;
    var t := ClientStep(s, JudgeResult(id, timedOut));
    forall reply | Genuine(s, reply)
      ensures Genuine(t, reply)
    {
      GenuineStays(s, t, reply);
    }
  }

  lemma ErrorsAreNoResults(s: System, h: nat, r: (Host, Files))
    requires Ok(s) && RepliesOk(s) && h < |s.hosts| && s.hosts[h].started <= r.0.started
    requires forall id :: id in r.1.results ==>
               r.1.results[id].id == id
               && (!r.1.results[id].handled || (id in s.files.results && r.1.results[id] == s.files.results[id]))
    ensures RepliesOk(SetHost(s, h, r))
  {
    hide Genuine, Ok;
    var t := SetHost(s, h, r);
    QuietStepKeepsReplies(s, t.(files := s.files));
    forall id | id in t.files.results
      ensures Genuine(t, t.files.results[id])
    {
      if t.files.results[id].handled {
        GenuineStays(s, t, s.files.results[id]);
      } else {
        ErrorIsGenuine(t, t.files.results[id]);
      }
    }
    forall reply | Genuine(t.(files := s.files), reply)
      ensures Genuine(t, reply)
    {
      GenuineStays(t.(files := s.files), t, reply);
    }
  }

  lemma ErrorIsGenuine(s: System, reply: Reply)
    requires !reply.handled
    ensures Genuine(s, reply)
  {
  }

  lemma PollResults(s: System, h: nat)
    requires Ok(s) && RepliesOk(s) && h < |s.hosts|
    ensures RepliesOk(SetHost(s, h, Poll(s.hosts[h], s.files)))
  {
    hide Ok, Genuine, Added;
    ErrorsAreNoResults(s, h, Poll(s.hosts[h], s.files));
  }

  lemma EndResults(s: System, h: nat)
    requires Ok(s) && RepliesOk(s) && h < |s.hosts|
    ensures RepliesOk(SetHost(s, h, EndNormal(s.hosts[h], s.files)))
    ensures RepliesOk(SetHost(s, h, EndPriority(s.hosts[h], s.files)))
  {
    hide Ok, Genuine;
    ErrorsAreNoResults(s, h, EndNormal(s.hosts[h], s.files));
    ErrorsAreNoResults(s, h, EndPriority(s.hosts[h], s.files));
  }

  lemma AnswerResults(s: System, h: nat, i: nat)
    requires Ok(s) && RepliesOk(s) && StartedAt(s, h, i)
    ensures RepliesOk(SetHost(s, h, WriteResult(s.hosts[h], s.files, s.hosts[h].started[i])))
  {
    hide Genuine, ChannelOk, SlotOk;
    var r := s.hosts[h].started[i];
    var t := SetHost(s, h, WriteResult(s.hosts[h], s.files, r));
    QuietStepKeepsReplies(s, t.(files := s.files));
    assert HostOk(s.hosts[h], s.ch.requests, s.written);
    var reply := t.files.results[r.id];
    assert Genuine(t, reply) by {
      AnswerIsGenuine(t, h, i, reply);
    }
    forall reply | Genuine(t.(files := s.files), reply)
      ensures Genuine(t, reply)
    {
      GenuineStays(t.(files := s.files), t, reply);
    }
  }

  lemma AnswerIsGenuine(s: System, h: nat, i: nat, reply: Reply)
    requires StartedAt(s, h, i) && reply.id == s.hosts[h].started[i].id && reply.id in s.ch.requests
    requires reply.nonce.Some? ==> reply.nonce.value == s.ch.requests[reply.id].nonce
    ensures Genuine(s, reply)
  {
  }

  lemma StepKeepsReplies(s: System, action: Action)
    requires Ok(s) && RepliesOk(s)
    ensures RepliesOk(Step(s, action))
  {
    hide Ok, RepliesOk, Deliver, Free, Prepare, Take, Resume, Finish, Judge, Accept, Look, NextRequest, Grows, CallStep;
    hide Poll, EndNormal, EndPriority, WriteResult, SetHost;
    StepGrows(s, action);
    match action {
      case CallExec(cmd, instance) => CallKeepsReplies(s, cmd, instance, false);
      case CallDirect(cmd, instance) => CallKeepsReplies(s, cmd, instance, true);
      case ReadResult(id) => ReadResultKeepsReplies(s, id);
      case JudgeResult(id, timedOut) => JudgeResultKeepsReplies(s, id, timedOut);
      case PollHost(h) =>
        if h < |s.hosts| {
          PollResults(s, h);
        }
      case EndHandler(h) =>
        if h < |s.hosts| {
          EndResults(s, h);
        }
      case EndPriorityHandler(h) =>
        if h < |s.hosts| {
          EndResults(s, h);
        }
      case AnswerRequest(h, i) =>
        if StartedAt(s, h, i) {
          AnswerResults(s, h, i);
        }
      case _ =>
        QuietStepKeepsReplies(s, Step(s, action));
    }
  }

  lemma {:induction false} RunRepliesOk(actions: seq<Action>)
    ensures Ok(Run(Init(), actions)) && RepliesOk(Run(Init(), actions))
    decreases |actions|
  {
    hide Ok, Step, RepliesOk;
    RunOk(actions);
    if actions == [] {
      InitReplies();
    } else {
      RunRepliesOk(actions[..|actions| - 1]);
      StepKeepsReplies(Run(Init(), actions[..|actions| - 1]), actions[|actions| - 1]);
    }
  }

  lemma InitReplies()
    ensures RepliesOk(Init())
  {
  }

  /** What an `exec` resolves with: a reply that carries the id, the nonce and the instance of its request; and when it
      is the result of a command, a host of that very epoch was handed the request. */
  lemma ExecResolvesWithItsOwnReply(actions: seq<Action>, id: Id)
    requires id in Run(Init(), actions).execs && Run(Init(), actions).execs[id].Resolved?
    ensures var s := Run(Init(), actions); var reply := s.execs[id].reply;
      && id in s.ch.requests && MatchesReply(reply, s.ch.requests[id])
      && (reply.handled ==>
            exists h: nat, i: nat :: StartedAt(s, h, i) && s.hosts[h].started[i] == s.ch.requests[id]
                                     && s.hosts[h].epoch == s.ch.requests[id].nonce)
  {
    hide Run, QueuesOk, ActiveOk, HistoryOk, SlotOk;
    RunRepliesOk(actions);
    var s := Run(Init(), actions);
    var reply := s.execs[id].reply;
    assert s.ch.requests[id].id == id;
    if reply.handled {
      var h: nat, i: nat :| StartedAt(s, h, i) && s.hosts[h].started[i].id == reply.id;
      assert HostOk(s.hosts[h], s.ch.requests, s.written);
    }
  }

  // ----- The fence between two hosts -----

  /** Deliveries are paused and none is under way. */
  predicate FenceUp(ch: Channel)
  {
    ch.paused && !ch.delivering
  }

  /** Nothing takes the fence down: neither the resume nor a preparation that finds no prepared nonce and does not pause. */
  predicate LeavesFence(ch: Channel, action: Action)
  {
    !action.ResumeDelivery?
    && (ch.prepared.None? ==> !action.TakeEpoch? && action != PrepareEpoch(false))
  }

  predicate FenceStays(s: System, actions: seq<Action>)
    decreases |actions|
  {
    actions == []
    || (FenceStays(s, actions[..|actions| - 1])
        && LeavesFence(Run(s, actions[..|actions| - 1]).ch, actions[|actions| - 1]))
  }

  /** After an accepted shutdown deliveries are paused and the epoch is a new one, before anything else can go out. */
  lemma AcceptedShutdownFences(ch: Channel, written: seq<Id>)
    requires ChannelOk(ch, written) && ch.delivering && ch.active[0].Accepting? && ch.active[0].task.shutdown
    ensures FenceUp(Accept(ch, 0)) && Accept(ch, 0).prepared.Some?
    ensures ch.prepared.None? ==> Accept(ch, 0).nonce == ch.drawn && Accept(ch, 0).normal == [] && Accept(ch, 0).priority == []
  {
    hide QueuesOk, IdsOk, HistoryOk;
    PrepareKeeps(ch, written, true);
    SameDelivery(ch);
    var p := Prepare(ch, true);
    Ending(p, written, Accepted);
    PumpBegins(Ended(p.(active := p.active[..0] + p.active[1..], delivering := false), p.active[0].task.request.id, Accepted), written);
  }

  lemma FencedStep(s: System, action: Action)
    requires Ok(s) && FenceUp(s.ch) && LeavesFence(s.ch, action)
    ensures FenceUp(Step(s, action).ch) && Step(s, action).written == s.written
  {
    hide HostsOk, SlotOk, QueuesOk, IdsOk, HistoryOk, Pump, Poll, EndNormal, EndPriority, WriteResult;
    FencedPump();
  }

  lemma FencedPump()
    ensures forall ch: Channel {:trigger Pump(ch)} :: FenceUp(ch) ==> Pump(ch) == ch
  {
  }

  /** From the accepted shutdown of the old host until the resume nothing is written into the slot, as long as no second
      preparation without pause comes in between. */
  lemma {:induction false} NothingCrossesTheFence(s: System, actions: seq<Action>)
    requires Ok(s) && FenceUp(s.ch) && FenceStays(s, actions)
    ensures Ok(Run(s, actions)) && FenceUp(Run(s, actions).ch) && Run(s, actions).written == s.written
    decreases |actions|
  {
    hide Ok, FenceUp, Step, LeavesFence;
    if actions != [] {
      var front, last := actions[..|actions| - 1], actions[|actions| - 1];
      NothingCrossesTheFence(s, front);
      StepOk(Run(s, front), last);
      FencedStep(Run(s, front), last);
    }
  }

  lemma StepOk(s: System, action: Action)
    requires Ok(s)
    ensures Ok(Step(s, action))
  {
    hide Ok, ClientStep, HostStep, OfThePage;
    if OfThePage(action) {
      ClientStepKeeps(s, action);
    } else {
      HostStepKeeps(s, action);
    }
  }

  /** The fence stays up exactly through the steps that leave it alone. */
  lemma FenceStaysUp(s: System, action: Action)
    requires Ok(s) && FenceUp(s.ch)
    ensures FenceUp(Step(s, action).ch) <==> LeavesFence(s.ch, action)
  {
    hide HostsOk, SlotOk, QueuesOk, IdsOk, HistoryOk, ActiveOk, Poll, EndNormal, EndPriority, WriteResult, Pump;
    if LeavesFence(s.ch, action) {
      FencedStep(s, action);
    } else if action.ResumeDelivery? {
      StaysUnpaused(s.ch.(paused := false));
    }
  }

  lemma {:induction false} StaysUnpaused(ch: Channel)
    ensures Pump(ch).paused == ch.paused
    decreases |ch.priority| + |ch.normal|
  {
    if !ch.delivering && !ch.paused {
      if ch.priority != [] && ch.priority[0].request.nonce != ch.nonce {
        StaysUnpaused(Ended(ch.(priority := ch.priority[1..]), ch.priority[0].request.id, Restarted));
      } else if ch.priority == [] && ch.normal != [] && ch.normal[0].request.nonce != ch.nonce {
        StaysUnpaused(Ended(ch.(normal := ch.normal[1..]), ch.normal[0].request.id, Restarted));
      }
    }
  }

  /** A call, and the write of whatever is to be delivered next. */
  function Probe(s: System): System
  {
    Step(Step(s, CallExec(Other, 0)), WriteSlot)
  }

  lemma OpenChannelWrites(s: System)
    requires Ok(s) && !s.ch.paused && (s.ch.delivering ==> s.ch.active[0].Starting?)
    ensures |Probe(s).written| == |s.written| + 1
  {
    hide QueuesOk, IdsOk, HistoryOk, HostsOk, SlotOk, Pump;
    var r := NextRequest(s.ch, Other, 0);
    QueueKeeps(s.ch, s.written, r, false, false);
    PumpBegins(Queued(s.ch, r, false, false), s.written);
  }

  lemma LiftedFence(s: System, action: Action)
    requires Ok(s) && FenceUp(s.ch) && !LeavesFence(s.ch, action)
    ensures var t := Step(s, action);
      t.written == s.written && !t.ch.paused && (t.ch.delivering ==> AtPhase(t.ch) && t.ch.active[0].Starting?)
  {
    hide HostsOk, SlotOk, QueuesOk, IdsOk, HistoryOk, Pump;
    if action.ResumeDelivery? {
      Unpaused(s.ch, s.written);
      PumpBegins(s.ch.(paused := false), s.written);
    }
  }

  /** A request can go out right after a step if and only if the step takes the fence down. */
  lemma FenceHoldsExactly(s: System, action: Action)
    requires Ok(s) && FenceUp(s.ch)
    ensures Probe(Step(s, action)).written == s.written <==> LeavesFence(s.ch, action)
  {
    hide Ok, FenceUp, Step, LeavesFence;
    var t := Step(s, action);
    StepOk(s, action);
    if LeavesFence(s.ch, action) {
      FencedStep(s, action);
      UpMeansClosed(t);
    } else {
      LiftedFence(s, action);
      OpenChannelWrites(t);
    }
  }

  lemma UpMeansClosed(s: System)
    requires Ok(s) && FenceUp(s.ch)
    ensures Probe(s).written == s.written
  {
    hide Ok, FenceUp, Step;
    var t := Step(s, CallExec(Other, 0));
    FencedStep(s, CallExec(Other, 0));
    StepOk(s, CallExec(Other, 0));
    FencedStep(t, WriteSlot);
  }

  /** Over runs: at no moment of a run that starts behind the fence could a request have gone out, if and only if every
      step left the fence alone. */
  lemma {:induction false} FenceHoldsOverRuns(s: System, actions: seq<Action>)
    requires Ok(s) && FenceUp(s.ch)
    ensures FenceStays(s, actions)
       <==> forall k :: 0 <= k <= |actions| ==> Probe(Run(s, actions[..k])).written == s.written
    decreases |actions|
  {
    hide Ok, FenceUp, Step, LeavesFence, Probe;
    if actions == [] {
      RunOfNothing(s);
      UpMeansClosed(s);
      assert forall k :: 0 <= k <= |actions| ==> actions[..k] == [];
    } else {
      var front, last := actions[..|actions| - 1], actions[|actions| - 1];
      FenceHoldsOverRuns(s, front);
      assert forall k :: 0 <= k <= |front| ==> front[..k] == actions[..k];
      assert actions[..|actions|] == actions;
      if FenceStays(s, front) {
        NothingCrossesTheFence(s, front);
        FenceHoldsExactly(Run(s, front), last);
        assert Probe(Run(s, actions)).written == s.written <==> LeavesFence(Run(s, front).ch, last);
      }
    }
  }

  lemma RunOfNothing(s: System)
    ensures Run(s, []) == s
  {
  }

  /** For instance a nonce that is taken a second time before the resume, as by a boot that is tried again. */
  lemma SecondTakeLiftsTheFence(s: System)
    requires Ok(s) && FenceUp(s.ch) && s.ch.prepared.Some?
    ensures FenceUp(Step(s, TakeEpoch).ch) && !LeavesFence(Step(s, TakeEpoch).ch, TakeEpoch)
    ensures Probe(Step(Step(s, TakeEpoch), TakeEpoch)).written != s.written
  {
    hide Ok;
    FencedStep(s, TakeEpoch);
    StepOk(s, TakeEpoch);
    FenceHoldsExactly(Step(s, TakeEpoch), TakeEpoch);
  }
}
