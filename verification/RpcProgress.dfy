/** What a poll does with a request, what passes a busy host, and that a command goes all the way through. */
module RpcProgress {
  import Text
  import opened RpcIds
  import opened RpcChannel
  import opened RpcHost
  import opened RpcProtocol
  import opened RpcAcceptance

  // ----- The two loops of a host -----

  /** Requests whose handlers have ended in a run, loop by loop. */
  function EndedBy(actions: seq<Action>, h: nat): set<Id>
    decreases |actions|
  {
    if actions == [] then {}
    else
      var front, last := actions[..|actions| - 1], actions[|actions| - 1];
      var hosts := Run(Init(), front).hosts;
      EndedBy(front, h)
      + (if h < |hosts| && hosts[h].alive && last == EndHandler(h) && hosts[h].busy.Some? then {hosts[h].busy.value}
         else if h < |hosts| && hosts[h].alive && last == EndPriorityHandler(h) && hosts[h].priorityBusy.Some?
         then {hosts[h].priorityBusy.value} else {})
  }

  /** Whatever was begun has ended or is in one of the loops, and the second loop has no ordinary command. */
  predicate LoopsOk(host: Host, ended: set<Id>)
  {
    && (host.priorityBusy.Some? ==> WasHanded(host, host.priorityBusy.value))
    && forall i :: 0 <= i < |host.started| ==>
         var r := host.started[i];
         && (r.id in ended || host.busy == Text.Some(r.id) || host.priorityBusy == Text.Some(r.id))
         && (host.priorityBusy == Text.Some(r.id) ==> !r.cmd.Other?)
  }

  lemma PollKeepsLoops(host: Host, files: Files, requests: map<Id, Request>, written: seq<Id>, ended: set<Id>)
    requires LoopsOk(host, ended) && HostOk(host, requests, written) && SlotOk(files.slot, requests, written)
    requires RemembersHanded(host)
    ensures LoopsOk(Poll(host, files).0, ended)
  {
    hide Added;
    var t := Poll(host, files).0;
    if files.slot.Holds? && files.slot.request.id !in host.processed && files.slot.request.nonce == host.epoch {
      var r := files.slot.request;
      BeginKeeps(host, requests, written, r);
      var next := RpcHost.Begin(host, r);
      assert next.started[|host.started|] == r;
      forall i | 0 <= i < |host.started|
        ensures next.started[i] == host.started[i] && host.started[i].id != r.id
      {
        assert next.started[i].id != next.started[|host.started|].id;
      }
      StillHanded(host, next);
      StillHanded(next, t);
      forall i | 0 <= i < |t.started|
        ensures t.started[i].id in ended || t.busy == Text.Some(t.started[i].id) || t.priorityBusy == Text.Some(t.started[i].id)
        ensures t.priorityBusy == Text.Some(t.started[i].id) ==> !t.started[i].cmd.Other?
      {
        assert t.started == host.started || t.started == next.started;
        if i < |host.started| {
          assert t.started[i] == host.started[i];
        }
      }
    } else {
      SameLoops(host, t, ended);
    }
  }

  lemma StillHanded(a: Host, b: Host)
    ensures a.started <= b.started ==> forall id :: WasHanded(a, id) ==> WasHanded(b, id)
  {
    if a.started <= b.started {
      forall id | WasHanded(a, id)
        ensures WasHanded(b, id)
      {
        var i :| 0 <= i < |a.started| && a.started[i].id == id;
        assert b.started[i].id == id;
      }
    }
  }

  lemma EndKeepsLoops(host: Host, files: Files, ended: set<Id>)
    requires LoopsOk(host, ended)
    ensures LoopsOk(EndNormal(host, files).0, ended + if host.busy.Some? then {host.busy.value} else {})
    ensures LoopsOk(EndPriority(host, files).0, ended + if host.priorityBusy.Some? then {host.priorityBusy.value} else {})
  {
  }

  lemma StepKeepsLoops(s: System, action: Action, h: nat, ended: set<Id>)
    requires Ok(s) && Honest(s) && (h < |s.hosts| ==> LoopsOk(s.hosts[h], ended))
    requires h >= |s.hosts| ==> ended == {}
    ensures var more := if h < |s.hosts| && s.hosts[h].alive && action == EndHandler(h) && s.hosts[h].busy.Some?
                        then {s.hosts[h].busy.value}
                        else if h < |s.hosts| && s.hosts[h].alive && action == EndPriorityHandler(h) && s.hosts[h].priorityBusy.Some?
                        then {s.hosts[h].priorityBusy.value} else {};
      h < |Step(s, action).hosts| ==> LoopsOk(Step(s, action).hosts[h], ended + more)
  {
    hide ChannelOk, SlotOk, Poll, EndNormal, EndPriority, WriteResult, LoopsOk, WasHanded, DeliveriesEarned, Handed, ClientStep;
    if OfThePage(action) {
      PageLeavesAcks(s, action);
      assert ended + {} == ended;
    } else {
      HostStepKeepsLoops(s, action, h, ended);
    }
  }

  lemma HostStepKeepsLoops(s: System, action: Action, h: nat, ended: set<Id>)
    requires Ok(s) && Honest(s) && !OfThePage(action) && (h < |s.hosts| ==> LoopsOk(s.hosts[h], ended))
    requires h >= |s.hosts| ==> ended == {}
    ensures var more := if h < |s.hosts| && s.hosts[h].alive && action == EndHandler(h) && s.hosts[h].busy.Some?
                        then {s.hosts[h].busy.value}
                        else if h < |s.hosts| && s.hosts[h].alive && action == EndPriorityHandler(h) && s.hosts[h].priorityBusy.Some?
                        then {s.hosts[h].priorityBusy.value} else {};
      h < |HostStep(s, action).hosts| ==> LoopsOk(HostStep(s, action).hosts[h], ended + more)
  {
    hide ChannelOk, SlotOk, Poll, EndNormal, EndPriority, WriteResult, LoopsOk, WasHanded, DeliveriesEarned, Handed, HostOk;
    assert ended + {} == ended;
    if h >= |s.hosts| {
      NewHostHasNoLoops(if s.files.epoch.Some? then s.files.epoch.value else 0);
    } else {
      var host := s.hosts[h];
      EndKeepsLoops(host, s.files, ended);
      match action {
        case PollHost(g) =>
          if g == h {
            PollKeepsLoops(host, s.files, s.ch.requests, s.written, ended);
          }
        case KillHost(_) => SameLoops(host, host.(alive := false), ended);
        case AnswerRequest(_, i) =>
          if i < |host.started| {
            AnswerKeepsLoops(host, s.files, host.started[i], ended);
          }
        case EndHandler(_) => EndNothing(host, s.files);
        case EndPriorityHandler(_) => EndNothing(host, s.files);
        case _ =>
      }
    }
  }

  lemma EndNothing(host: Host, files: Files)
    ensures host.busy.None? ==> EndNormal(host, files) == (host, files)
    ensures host.priorityBusy.None? ==> EndPriority(host, files) == (host, files)
  {
  }

  lemma NewHostHasNoLoops(epoch: nat)
    ensures LoopsOk(NewHost(epoch), {})
  {
  }

  lemma SameLoops(a: Host, b: Host, ended: set<Id>)
    requires LoopsOk(a, ended) && b.started == a.started && b.busy == a.busy && b.priorityBusy == a.priorityBusy
    ensures LoopsOk(b, ended)
  {
    StillHanded(a, b);
  }

  lemma AnswerKeepsLoops(host: Host, files: Files, r: Request, ended: set<Id>)
    requires LoopsOk(host, ended)
    ensures LoopsOk(WriteResult(host, files, r).0, ended)
  {
    hide LoopsOk;
    SameLoops(host, WriteResult(host, files, r).0, ended);
  }

  lemma {:induction false} RunKeepsLoops(actions: seq<Action>, h: nat)
    ensures h < |Run(Init(), actions).hosts| ==> LoopsOk(Run(Init(), actions).hosts[h], EndedBy(actions, h))
    ensures h >= |Run(Init(), actions).hosts| ==> EndedBy(actions, h) == {}
    decreases |actions|
  {
    hide Step, Ok, Honest, LoopsOk;
    if actions != [] {
      var front, last := actions[..|actions| - 1], actions[|actions| - 1];
      RunKeepsLoops(front, h);
      RunIsHonest(front);
      StepKeepsLoops(Run(Init(), front), last, h, EndedBy(front, h));
      StepGrows(Run(Init(), front), last);
    }
  }

  /** A host never has two ordinary commands begun and not ended. */
  lemma OneOrdinaryCommandAtATime(actions: seq<Action>, h: nat, i: nat, j: nat)
    requires StartedAt(Run(Init(), actions), h, i) && StartedAt(Run(Init(), actions), h, j) && i != j
    requires Run(Init(), actions).hosts[h].started[i].cmd == Other && Run(Init(), actions).hosts[h].started[j].cmd == Other
    ensures var host := Run(Init(), actions).hosts[h];
      host.started[i].id in EndedBy(actions, h) || host.started[j].id in EndedBy(actions, h)
  {
    hide Run, EndedBy;
    RunKeepsLoops(actions, h);
    AtMostOncePerHost(actions, h);
  }

  // ----- What a poll does -----

  predicate Polls(s: System, h: nat)
  {
    Ok(s) && Honest(s) && h < |s.hosts| && s.hosts[h].alive && s.files.slot.Holds?
  }

  /** The request in the slot is new to the host and of its epoch. */
  predicate IsNews(host: Host, r: Request)
  {
    r.nonce == host.epoch && !WasHanded(host, r.id)
  }

  lemma NewsIsUnknown(s: System, h: nat)
    requires Honest(s) && h < |s.hosts| && s.files.slot.Holds? && IsNews(s.hosts[h], s.files.slot.request)
    ensures s.files.slot.request.id !in s.hosts[h].processed
  {
  }

  /** An idle host begins any new request of its epoch; a busy one begins a ping, an interrupt or an exit as long as it is not
      busy with another of these; and it acknowledges at once. */
  lemma NewRequestIsBegun(s: System, h: nat)
    requires Polls(s, h) && IsNews(s.hosts[h], s.files.slot.request)
    requires var cmd := s.files.slot.request.cmd;
      s.hosts[h].busy.None? || (s.hosts[h].priorityBusy.None? && (cmd == Ping || cmd == Interrupt || cmd == Exit))
    ensures var t, r := Step(s, PollHost(h)), s.files.slot.request;
      && t.hosts[h].started == s.hosts[h].started + [r]
      && (if s.hosts[h].busy.None? then t.hosts[h].busy == Text.Some(r.id) && t.hosts[h].priorityBusy == s.hosts[h].priorityBusy
          else t.hosts[h].busy == s.hosts[h].busy && t.hosts[h].priorityBusy == Text.Some(r.id))
      && r.id in t.hosts[h].meta && t.hosts[h].meta[r.id] == r.nonce && t.hosts[h].alive
      && t.files == s.files.(acks := s.files.acks[r.id := Ack(r.id, r.nonce, r.instance)])
      && t.ch == s.ch && t.execs == s.execs && t.written == s.written && |t.hosts| == |s.hosts|
  {
    hide Ok, Honest, WasHanded, Added;
    NewsIsUnknown(s, h);
  }

  /** A busy host leaves an ordinary command where it is, and so does one whose two loops are busy any request. */
  lemma OthersWait(s: System, h: nat)
    requires Polls(s, h) && s.hosts[h].busy.Some?
    requires s.hosts[h].priorityBusy.Some? || (s.files.slot.request.cmd == Other && s.files.slot.request.nonce == s.hosts[h].epoch)
    ensures Step(s, PollHost(h)) == s
  {
    hide Ok, Honest;
    assert s.hosts[h := s.hosts[h]] == s.hosts;
  }

  /** A request that was handed over before is acknowledged again and taken out of the slot, and not begun. */
  lemma KnownRequestIsAcknowledged(s: System, h: nat)
    requires Polls(s, h) && s.files.slot.request.id in s.hosts[h].processed && s.files.slot.request.nonce == s.hosts[h].epoch
    requires s.hosts[h].busy.None? || (s.hosts[h].priorityBusy.None? && s.files.slot.request.cmd != Other)
    ensures var r := s.files.slot.request;
      Step(s, PollHost(h)) == s.(files := s.files.(slot := Empty, acks := s.files.acks[r.id := Ack(r.id, r.nonce, r.instance)]))
  {
    hide Ok, Honest;
    assert s.hosts[h := s.hosts[h]] == s.hosts;
  }

  /** A request of another epoch is answered with an error under its own id and nonce, and taken out of the slot. */
  lemma StaleRequestIsRefused(s: System, h: nat)
    requires Polls(s, h) && s.files.slot.request.nonce != s.hosts[h].epoch
    requires s.hosts[h].busy.None? || s.hosts[h].priorityBusy.None?
    ensures var t, r := Step(s, PollHost(h)), s.files.slot.request;
      && t.files == s.files.(slot := Empty, results := s.files.results[r.id := Reply(r.id, Text.Some(r.nonce), 0, false)])
      && t.hosts[h].started == s.hosts[h].started && t.hosts[h].processed == s.hosts[h].processed
      && t.hosts[h].busy == s.hosts[h].busy && t.hosts[h].priorityBusy == s.hosts[h].priorityBusy
  {
    hide Ok, Honest;
  }

  /** When a handler ends, its loop is free again, and the slot is emptied if it still holds that request, and only then. */
  lemma HandlerEnds(s: System, h: nat)
    requires Ok(s) && h < |s.hosts| && s.hosts[h].alive
    ensures var t := Step(s, EndHandler(h));
      && t.hosts[h].busy.None? && t.hosts[h].priorityBusy == s.hosts[h].priorityBusy
      && (s.files.slot.Holds? ==>
            t.files.slot == if s.hosts[h].busy == Text.Some(s.files.slot.request.id) then Empty else s.files.slot)
    ensures var t := Step(s, EndPriorityHandler(h));
      && t.hosts[h].priorityBusy.None? && t.hosts[h].busy == s.hosts[h].busy
      && (s.files.slot.Holds? ==>
            t.files.slot == if s.hosts[h].priorityBusy == Text.Some(s.files.slot.request.id) then Empty else s.files.slot)
  {
    hide Ok;
  }

  /** What no request can be read from is taken out of the slot by a free host, with an error under its id if it shows one; a
      busy host leaves it alone. Nothing is begun. */
  lemma GarbageIsRefused(s: System, h: nat)
    requires h < |s.hosts| && s.hosts[h].alive && s.files.slot.Garbage?
    ensures var t, found := Step(s, PollHost(h)), s.files.slot.id;
      && t.hosts[h].started == s.hosts[h].started && t.hosts[h].busy == s.hosts[h].busy
      && (if s.hosts[h].busy.Some? then t.files == s.files
          else if found.None? then t.files == s.files.(slot := Empty)
          else t.files == s.files.(slot := Empty, results :=
                 s.files.results[found.value := Reply(found.value, Text.Some(s.files.slot.nonce), 0, false)]))
  {
  }

  /** The first answer of a request carries the epoch noted when it was begun; a later one carries none, and so nobody takes it
      for the answer. */
  lemma AnswersAreStampedOnce(s: System, h: nat, i: nat)
    requires h < |s.hosts| && s.hosts[h].alive && i < |s.hosts[h].started|
    ensures var r, meta := s.hosts[h].started[i], s.hosts[h].meta;
      var t := Step(s, AnswerRequest(h, i)); var again := Step(t, AnswerRequest(h, i));
      && t.files.results == s.files.results[r.id :=
           Reply(r.id, if r.id in meta then Text.Some(meta[r.id]) else Text.None, r.instance, true)]
      && again.files.results == s.files.results[r.id := Reply(r.id, Text.None, r.instance, true)]
      && t.files.acks == s.files.acks && t.files.slot == s.files.slot && t.hosts[h].started == s.hosts[h].started
  {
    var r, t := s.hosts[h].started[i], Step(s, AnswerRequest(h, i));
    assert t.hosts[h].started[i] == r && r.id !in t.hosts[h].meta;
  }

  /** A waiting call: until its delivery has ended it waits; unless that was accepted in the epoch of today it is rejected; then
      what was read decides, and the time only when nothing was. */
  lemma WaitingCallGoesOn(s: System, id: Id, timedOut: bool)
    requires id in s.execs && s.execs[id].Waiting? && id in s.ch.requests
    ensures var t, r, seen := Step(s, JudgeResult(id, timedOut)), s.ch.requests[id], s.execs[id].seen;
      if id !in s.ch.outcomes then t == s
      else if s.ch.outcomes[id] != Accepted || r.nonce != s.ch.nonce then t.execs == s.execs[id := Rejected]
      else if seen == Text.None then if timedOut then t.execs == s.execs[id := Rejected] else t == s
      else if seen.value.id == r.id && seen.value.nonce == Text.Some(r.nonce) && seen.value.instance == r.instance
      then t.execs == s.execs[id := Resolved(seen.value)] && t.files.results == s.files.results - {id}
      else t.execs == s.execs[id := Rejected]
  {
  }

  /** A host that was killed does nothing any more. */
  lemma TheDeadDoNothing(s: System, h: nat, i: nat)
    requires h < |s.hosts|
    ensures var t := Step(s, KillHost(h));
      && t == s.(hosts := s.hosts[h := s.hosts[h].(alive := false)])
      && Step(t, PollHost(h)) == t && Step(t, EndHandler(h)) == t && Step(t, EndPriorityHandler(h)) == t
      && Step(t, AnswerRequest(h, i)) == t
  {
  }

  /** A call that must not wait is refused while anything is under way or in line. */
  lemma DirectCallsDoNotWait(s: System, cmd: Command, instance: nat)
    requires s.ch.delivering || s.ch.normal != []
    ensures Step(s, CallDirect(cmd, instance)) == s
  {
  }

  /** A shutdown asked for behind a pause or a prepared epoch comes to nothing; otherwise it is an exit of this epoch with a
      number of its own that passes the ordinary calls in line, and begins at once when nothing is under way. */
  lemma ShutdownIsAskedFor(s: System)
    requires Ok(s)
    ensures var t, r := Step(s, RequestShutdown), Request(Id(s.ch.prefix, s.ch.sequence + 1), Exit, s.ch.nonce, 0);
      if s.ch.prepared.Some? || s.ch.paused then t == s
      else
        && t.ch.requests == s.ch.requests[r.id := r] && r.id !in s.written && t.files == s.files && t.execs == s.execs
        && (s.ch.delivering ==>
              t.ch.active == s.ch.active && t.ch.priority == s.ch.priority + [Task(r, true)] && t.ch.normal == s.ch.normal)
        && (!s.ch.delivering && s.ch.priority == [] ==> t.ch.active == [Starting(Task(r, true))] && t.ch.normal == s.ch.normal)
  {
    hide Pump, QueuesOk, IdsOk, HistoryOk, HostsOk, SlotOk;
    if s.ch.prepared.None? && !s.ch.paused {
      var r := NextRequest(s.ch, Exit, 0);
      FreshId(s.ch, s.written);
      QueueKeeps(s.ch, s.written, r, true, true);
      PumpBegins(Queued(s.ch, r, true, true), s.written);
      if s.ch.priority == [] {
        assert [Task(r, true)][1..] == [];
      }
    }
  }

  // ----- How a delivery goes on -----

  /** A judgement: the epoch first, then what was seen, then the time. What was seen in the epoch is accepted. */
  lemma AwaitingDeliveryGoesOn(s: System, timedOut: bool)
    requires Ok(s) && Honest(s) && AtPhase(s.ch) && s.ch.active[0].Awaiting?
    ensures var t, task := Step(s, JudgeAck(timedOut)), s.ch.active[0].task; var id := task.request.id;
      if task.request.nonce != s.ch.nonce then id in t.ch.outcomes && t.ch.outcomes[id] == Restarted
      else if s.ch.active[0].seen.Some? then t == s.(ch := s.ch.(active := [Accepting(task)]))
      else if timedOut then id in t.ch.outcomes && t.ch.outcomes[id] == TimedOut
      else t == s
  {
    hide QueuesOk, IdsOk, HistoryOk, Finish, HostsOk, SlotOk, Handed;
    RequestIsOwn(s.ch, s.written);
    FinishEnds(s.ch, s.written, Restarted);
    FinishEnds(s.ch, s.written, TimedOut);
    assert s.ch.active[0 := Accepting(s.ch.active[0].task)] == [Accepting(s.ch.active[0].task)];
  }

  /** An acknowledgement of anything else ends the delivery, were one ever to lie under its id. */
  lemma ForeignAcknowledgementIsRefused(s: System, timedOut: bool)
    requires Ok(s) && AtPhase(s.ch) && s.ch.active[0].Awaiting? && s.ch.active[0].seen.Some?
    requires var ack, r := s.ch.active[0].seen.value, s.ch.active[0].task.request;
      r.nonce == s.ch.nonce && (ack.id != r.id || ack.nonce != r.nonce || ack.instance != r.instance)
    ensures var t, id := Step(s, JudgeAck(timedOut)), s.ch.active[0].task.request.id;
      id in t.ch.outcomes && t.ch.outcomes[id] == BadAcknowledgement
  {
    hide QueuesOk, IdsOk, HistoryOk, Finish, HostsOk, SlotOk;
    FinishEnds(s.ch, s.written, BadAcknowledgement);
  }

  /** A new epoch starts afresh: a nonce and a prefix never drawn before, numbers from the start, nothing in line, and whatever was
      is rejected as restarted; what is under way goes on. An epoch that is prepared already is kept. */
  lemma EpochStartsAfresh(s: System, pause: bool)
    ensures var t := Step(s, PrepareEpoch(pause)).ch;
      if s.ch.prepared.Some? then t == s.ch.(paused := s.ch.paused || pause)
      else
        && t.nonce == t.prefix == s.ch.drawn && t.drawn == s.ch.drawn + 1 && t.prepared == Text.Some(t.nonce) && t.sequence == 0
        && t.normal == [] && t.priority == [] && t.paused == pause && t.active == s.ch.active && t.requests == s.ch.requests
        && (forall task :: task in s.ch.normal || task in s.ch.priority ==>
              task.request.id in t.dropped && task.request.id in t.outcomes && t.outcomes[task.request.id] == Restarted)
  {
    hide RejectAll;
    if s.ch.prepared.None? {
      forall task | task in s.ch.normal || task in s.ch.priority
        ensures task.request.id in QueuedIds(s.ch.normal) + QueuedIds(s.ch.priority)
      {
        if i :| 0 <= i < |s.ch.normal| && s.ch.normal[i] == task {
          assert s.ch.normal[i].request.id in QueuedIds(s.ch.normal);
        }
        if i :| 0 <= i < |s.ch.priority| && s.ch.priority[i] == task {
          assert s.ch.priority[i].request.id in QueuedIds(s.ch.priority);
        }
      }
      AllAreRejected(s.ch.outcomes, QueuedIds(s.ch.normal) + QueuedIds(s.ch.priority));
    }
  }

  /** What a call has come to stays. */
  lemma SettledCallsStay(s: System, action: Action, id: Id)
    requires Ok(s) && id in s.execs && id in s.ch.requests && !s.execs[id].Waiting?
    ensures id in Step(s, action).execs && Step(s, action).execs[id] == s.execs[id]
  {
    hide HostStep, Pump, Finish, Judge, Prepare, QueuesOk, HistoryOk, HostsOk, SlotOk, MatchesReply, Deliver, Accept, Resume;
    HostsLeaveCalls(s, action);
    FreshId(s.ch, s.written);
  }

  lemma HostsLeaveCalls(s: System, action: Action)
    ensures HostStep(s, action).execs == s.execs
  {
    hide Poll, EndNormal, EndPriority, WriteResult;
  }

  /** A write fails only while it is under way. */
  lemma WrittenRequestsDoNotFail(s: System)
    requires s.ch.active == [] || !s.ch.active[0].Starting?
    ensures Step(s, FailWrite) == s && Step(s, WriteSlot) == s
  {
  }

  lemma AllAreRejected(outcomes: map<Id, Outcome>, ids: set<Id>)
    ensures forall id :: id in ids ==> id in RejectAll(outcomes, ids) && RejectAll(outcomes, ids)[id] == Restarted
  {
  }

  lemma FinishEnds(ch: Channel, written: seq<Id>, outcome: Outcome)
    requires ChannelOk(ch, written) && ch.delivering
    ensures var t, id := Finish(ch, 0, outcome), ch.active[0].task.request.id;
      t.outcomes == ch.outcomes[id := outcome] && t.nonce == ch.nonce && t.requests == ch.requests
  {
    hide Pump, QueuesOk, IdsOk, HistoryOk;
    Ending(ch, written, outcome);
    var rest := Ended(ch.(active := ch.active[..0] + ch.active[1..], delivering := false), ch.active[0].task.request.id, outcome);
    PumpBegins(rest, written);
  }

  /** The last step of an accepted delivery; the epoch stays unless it was the shutdown. */
  lemma AcceptedDeliveryEnds(s: System)
    requires Ok(s) && AtPhase(s.ch) && s.ch.active[0].Accepting?
    ensures var t, task := Step(s, RemoveAck), s.ch.active[0].task; var id := task.request.id;
      && id in t.ch.outcomes && t.ch.outcomes[id] == Accepted && t.ch.requests == s.ch.requests && id !in t.files.acks
      && t.hosts == s.hosts && t.execs == s.execs && t.files.results == s.files.results
      && (!task.shutdown ==> t.ch.nonce == s.ch.nonce)
  {
    hide QueuesOk, IdsOk, HistoryOk, Finish, HostsOk, SlotOk;
    PrepareKeeps(s.ch, s.written, true);
    SameDelivery(s.ch);
    RotationKeepsRequests(s.ch);
    FinishEnds(if s.ch.active[0].task.shutdown then Prepare(s.ch, true) else s.ch, s.written, Accepted);
  }

  lemma RotationKeepsRequests(ch: Channel)
    ensures Prepare(ch, true).requests == ch.requests
  {
  }

  // ----- All the way -----

  predicate Clear(ch: Channel)
  {
    !ch.paused && !ch.delivering && ch.normal == [] && ch.priority == []
  }

  /** What the page, the host and its handler do for one command. */
  function OneCommand(cmd: Command, instance: nat, direct: bool, h: nat, i: nat, id: Id): seq<Action>
  {
    [if direct then CallDirect(cmd, instance) else CallExec(cmd, instance), WriteSlot, PollHost(h), ReadAck, JudgeAck(false),
     RemoveAck, AnswerRequest(h, i), ReadResult(id), JudgeResult(id, false)]
  }

  lemma CallBegins(s: System, cmd: Command, instance: nat, direct: bool)
    requires Ok(s) && Clear(s.ch)
    ensures var r := Request(Id(s.ch.prefix, s.ch.sequence + 1), cmd, s.ch.nonce, instance);
      var t := Step(s, if direct then CallDirect(cmd, instance) else CallExec(cmd, instance));
      && t.ch.active == [Starting(Task(r, false))] && t.ch.delivering && t.ch.nonce == s.ch.nonce
      && t.ch.requests == s.ch.requests[r.id := r] && r.id !in s.written
      && t == s.(ch := t.ch, execs := s.execs[r.id := Waiting(Text.None)])
  {
    hide Pump, QueuesOk, IdsOk, HistoryOk, HostsOk, SlotOk;
    var r := NextRequest(s.ch, cmd, instance);
    FreshId(s.ch, s.written);
    QueueKeeps(s.ch, s.written, r, direct, false);
    var q := Queued(s.ch, r, direct, false);
    PumpBegins(q, s.written);
    assert [Task(r, false)][1..] == [];
  }

  lemma WrittenCommand(s: System, r: Request)
    requires Ok(s) && s.ch.delivering && s.ch.active == [Starting(Task(r, false))]
    ensures var t := Step(s, WriteSlot);
      && t.ch == s.ch.(active := [Awaiting(Task(r, false), Text.None)]) && t.files == s.files.(slot := Holds(r))
      && t.hosts == s.hosts && t.execs == s.execs
  {
    hide Ok;
  }

  lemma ReadCommandAck(s: System, r: Request, ack: Ack)
    requires s.ch.delivering && s.ch.active == [Awaiting(Task(r, false), Text.None)] && r.id in s.files.acks && s.files.acks[r.id] == ack
    ensures Step(s, ReadAck) == s.(ch := s.ch.(active := [Awaiting(Task(r, false), Text.Some(ack))]))
  {
  }

  lemma Answered(s: System, h: nat, i: nat, r: Request)
    requires StartedAt(s, h, i) && s.hosts[h].started[i] == r && s.hosts[h].alive
    requires r.id in s.hosts[h].meta && s.hosts[h].meta[r.id] == r.nonce
    ensures var t := Step(s, AnswerRequest(h, i));
      && t.files == s.files.(results := s.files.results[r.id := Reply(r.id, Text.Some(r.nonce), r.instance, true)])
      && t.ch == s.ch && t.execs == s.execs
  {
  }

  lemma Resolves(s: System, r: Request)
    requires r.id in s.execs && s.execs[r.id].Waiting? && r.id in s.ch.requests && s.ch.requests[r.id] == r
    requires r.id in s.ch.outcomes && s.ch.outcomes[r.id] == Accepted && r.nonce == s.ch.nonce
    requires r.id in s.files.results && s.files.results[r.id] == Reply(r.id, Text.Some(r.nonce), r.instance, true)
    ensures var t := Step(Step(s, ReadResult(r.id)), JudgeResult(r.id, false));
      t.execs == s.execs[r.id := Resolved(Reply(r.id, Text.Some(r.nonce), r.instance, true))]
  {
  }

  /** From any reachable state in which the channel has nothing to do: a command is begun by a live host of the epoch and
      resolves with its result; an ordinary one if the host is idle, and a ping, interrupt or exit also beside a running
      command. */
  lemma ACommandGoesThrough(s: System, cmd: Command, instance: nat, direct: bool, h: nat)
    requires Ok(s) && Honest(s) && Clear(s.ch) && h < |s.hosts| && s.hosts[h].alive && s.hosts[h].epoch == s.ch.nonce
    requires s.hosts[h].busy.None? || (s.hosts[h].priorityBusy.None? && (cmd == Ping || cmd == Interrupt || cmd == Exit))
    ensures var r := Request(Id(s.ch.prefix, s.ch.sequence + 1), cmd, s.ch.nonce, instance);
      var t := Run(s, OneCommand(cmd, instance, direct, h, |s.hosts[h].started|, r.id));
      && t.execs == s.execs[r.id := Resolved(Reply(r.id, Text.Some(r.nonce), instance, true))]
      && h < |t.hosts| && t.hosts[h].started == s.hosts[h].started + [r]
  {
    hide Ok, Honest, Step, Run, StartedAt;
    var r, i := Request(Id(s.ch.prefix, s.ch.sequence + 1), cmd, s.ch.nonce, instance), |s.hosts[h].started|;
    var a := OneCommand(cmd, instance, direct, h, i, r.id);
    RunNine(s, a);
    var called := Step(s, a[0]);
    CallBegins(s, cmd, instance, direct);
    StepOk(s, a[0]);
    StepIsHonest(s, a[0]);
    var written := Step(called, WriteSlot);
    WrittenCommand(called, r);
    StepOk(called, WriteSlot);
    StepIsHonest(called, WriteSlot);
    UnwrittenIsNews(s, h, r);
    NewRequestIsBegun(written, h);
    var polled := Step(written, PollHost(h));
    StepOk(written, PollHost(h));
    StepIsHonest(written, PollHost(h));
    var seen := Step(polled, ReadAck);
    ReadCommandAck(polled, r, Ack(r.id, r.nonce, r.instance));
    StepOk(polled, ReadAck);
    StepIsHonest(polled, ReadAck);
    var judged := Step(seen, JudgeAck(false));
    AwaitingDeliveryGoesOn(seen, false);
    StepOk(seen, JudgeAck(false));
    var accepted := Step(judged, RemoveAck);
    AcceptedDeliveryEnds(judged);
    IsStartedAt(accepted, h, i);
    Answered(accepted, h, i, r);
    var answered := Step(accepted, AnswerRequest(h, i));
    AnswerStarts(accepted, h, i);
    Resolves(answered, r);
    ResultsLeaveHosts(answered, r.id);
  }

  lemma IsStartedAt(s: System, h: nat, i: nat)
    requires h < |s.hosts| && i < |s.hosts[h].started|
    ensures StartedAt(s, h, i)
  {
  }

  lemma UnwrittenIsNews(s: System, h: nat, r: Request)
    requires Ok(s) && h < |s.hosts| && r.id !in s.written && r.nonce == s.hosts[h].epoch
    ensures IsNews(s.hosts[h], r)
  {
    assert HostOk(s.hosts[h], s.ch.requests, s.written);
  }

  lemma AnswerStarts(s: System, h: nat, i: nat)
    requires StartedAt(s, h, i)
    ensures var t := Step(s, AnswerRequest(h, i)); |t.hosts| == |s.hosts| && t.hosts[h].started == s.hosts[h].started
  {
  }

  lemma ResultsLeaveHosts(s: System, id: Id)
    ensures Step(Step(s, ReadResult(id)), JudgeResult(id, false)).hosts == s.hosts
  {
  }

  lemma RunNine(s: System, a: seq<Action>)
    requires |a| == 9
    ensures Run(s, a)
         == Step(Step(Step(Step(Step(Step(Step(Step(Step(s, a[0]), a[1]), a[2]), a[3]), a[4]), a[5]), a[6]), a[7]), a[8])
  {
    hide Step;
    RunLast(s, a, 0);
    RunLast(s, a, 1);
    RunLast(s, a, 2);
    RunLast(s, a, 3);
    RunLast(s, a, 4);
    RunLast(s, a, 5);
    RunLast(s, a, 6);
    RunLast(s, a, 7);
    RunLast(s, a, 8);
    assert a[..9] == a;
    RunOfNothing(s);
    assert a[..0] == [];
  }

  lemma RunLast(s: System, a: seq<Action>, k: nat)
    requires k < |a|
    ensures Run(s, a[..k + 1]) == Step(Run(s, a[..k]), a[k])
  {
    assert a[..k + 1][..k] == a[..k];
  }
}
