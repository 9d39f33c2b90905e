/** The browser's end of the file mailbox: two lanes of requests, one delivery at a time, and epochs. */
module RpcChannel {
  import opened Text
  import opened RpcIds

  datatype Command = Ping | Interrupt | Exit | Other

  datatype Request = Request(id: Id, cmd: Command, nonce: nat, instance: nat)

  /** A request to be delivered; `shutdown` is the one whose acceptance rotates the epoch. */
  datatype Task = Task(request: Request, shutdown: bool)

  datatype Ack = Ack(id: Id, nonce: nat, instance: nat)

  /** A delivery under way: before the slot is written, waiting for the acknowledgement, and removing it. */
  datatype Delivery = Starting(task: Task) | Awaiting(task: Task, seen: Option<Ack>) | Accepting(task: Task)

  /** How a delivery ended. */
  datatype Outcome = Accepted | TimedOut | Restarted | BadAcknowledgement | WriteFailed

  /** `drawn` counts the random prefixes and nonces handed out: a new one was never used before. */
  datatype Channel = Channel(
    sequence: nat, prefix: nat, nonce: nat, normal: seq<Task>, priority: seq<Task>, delivering: bool,
    active: seq<Delivery>, paused: bool, prepared: Option<nat>, drawn: nat,
    requests: map<Id, Request>, outcomes: map<Id, Outcome>, dropped: set<Id>)

  function InitialChannel(): Channel
  {
    Channel(0, 0, 0, [], [], false, [], false, None, 1, map[], map[], {})
  }

  function Ended(ch: Channel, id: Id, outcome: Outcome): Channel
  {
    ch.(outcomes := ch.outcomes[id := outcome])
  }

  /** `pumpDeliveries`: the next task of the priority lane, else of the normal one, unless something is being delivered
      or deliveries are paused. A task of another epoch is rejected at once, and the next one tried. */
  function Pump(ch: Channel): Channel
    decreases |ch.priority| + |ch.normal|, 0
  {
    if ch.delivering || ch.paused then ch
    else if ch.priority != [] then Begin(ch.(priority := ch.priority[1..]), ch.priority[0])
    else if ch.normal != [] then Begin(ch.(normal := ch.normal[1..]), ch.normal[0])
    else ch
  }

  function Begin(ch: Channel, task: Task): Channel
    decreases |ch.priority| + |ch.normal|, 1
  {
    if task.request.nonce != ch.nonce then Pump(Ended(ch, task.request.id, Restarted))
    else ch.(delivering := true, active := ch.active + [Starting(task)])
  }

  /** A new request, stamped with the epoch it is made in. */
  function NextRequest(ch: Channel, cmd: Command, instance: nat): Request
  {
    Request(Id(ch.prefix, ch.sequence + 1), cmd, ch.nonce, instance)
  }

  function Queued(ch: Channel, r: Request, priority: bool, shutdown: bool): Channel
  {
    var numbered := ch.(sequence := ch.sequence + 1, requests := ch.requests[r.id := r]);
    if priority then numbered.(priority := numbered.priority + [Task(r, shutdown)])
    else numbered.(normal := numbered.normal + [Task(r, shutdown)])
  }

  function Deliver(ch: Channel, request: Request, priority: bool, shutdown: bool): Channel
  {
    Pump(Queued(ch, request, priority, shutdown))
  }

  /** The channel is free: for requests that must not wait behind others. */
  predicate Free(ch: Channel)
  {
    !ch.delivering && ch.normal == []
  }

  function QueuedIds(tasks: seq<Task>): set<Id>
  {
    set i | 0 <= i < |tasks| :: tasks[i].request.id
  }

  function RejectAll(outcomes: map<Id, Outcome>, ids: set<Id>): map<Id, Outcome>
  {
    map id | id in outcomes.Keys + ids :: if id in ids then Restarted else outcomes[id]
  }

  /** `prepareHostEpoch`: new nonce and prefix; all that is queued is rejected. A second preparation only pauses. */
  function Prepare(ch: Channel, pause: bool): Channel
  {
    if ch.prepared.Some? then (if pause then ch.(paused := true) else ch)
    else
      var queued := QueuedIds(ch.normal) + QueuedIds(ch.priority);
      ch.(nonce := ch.drawn, prefix := ch.drawn, drawn := ch.drawn + 1, sequence := 0, prepared := Some(ch.drawn),
          paused := pause, normal := [], priority := [], outcomes := RejectAll(ch.outcomes, queued),
          dropped := ch.dropped + queued)
  }

  /** `takeHostEpoch`: the prepared nonce is used up. */
  function Take(ch: Channel): Channel
  {
    Prepare(ch, false).(prepared := None)
  }

  function Resume(ch: Channel): Channel
  {
    if !ch.paused then ch else Pump(ch.(paused := false))
  }

  // ----- The delivery under way -----

  /** The delivery ends, and the next one may begin. */
  function Finish(ch: Channel, k: nat, outcome: Outcome): Channel
    requires k < |ch.active|
  {
    var rest := ch.(active := ch.active[..k] + ch.active[k + 1..], delivering := false);
    Pump(Ended(rest, ch.active[k].task.request.id, outcome))
  }

  predicate Matches(ack: Ack, r: Request)
  {
    ack.id == r.id && ack.nonce == r.nonce && ack.instance == r.instance
  }

  /** What follows a look at the acknowledgement file: the epoch is checked before the acknowledgement. */
  function Judge(ch: Channel, k: nat, timedOut: bool): Channel
    requires k < |ch.active| && ch.active[k].Awaiting?
  {
    var d := ch.active[k];
    if d.task.request.nonce != ch.nonce then Finish(ch, k, Restarted)
    else if d.seen.Some? then
      if !Matches(d.seen.value, d.task.request) then Finish(ch, k, BadAcknowledgement)
      else ch.(active := ch.active[k := Accepting(d.task)])
    else if timedOut then Finish(ch, k, TimedOut)
    else ch
  }

  /** The acknowledgement is removed; an accepted shutdown rotates the epoch and pauses before anything else goes out. */
  function Accept(ch: Channel, k: nat): Channel
    requires k < |ch.active| && ch.active[k].Accepting?
  {
    var d := ch.active[k];
    Finish(if d.task.shutdown then Prepare(ch, true) else ch, k, Accepted)
  }

  // ----- What the channel keeps -----

  /** A waiting task belongs to the current epoch, and nothing has become of it yet. */
  predicate Waits(ch: Channel, written: seq<Id>, task: Task)
  {
    var r := task.request;
    && r.nonce == ch.nonce && r.id.prefix == ch.prefix && r.id.sequence <= ch.sequence
    && r.id in ch.requests && ch.requests[r.id] == r
    && r.id !in written && r.id !in ch.dropped && r.id !in ch.outcomes
  }

  predicate InOrder(tasks: seq<Task>)
  {
    forall i, j :: 0 <= i < j < |tasks| ==> tasks[i].request.id.sequence < tasks[j].request.id.sequence
  }

  predicate QueuesOk(ch: Channel, written: seq<Id>)
  {
    && (forall i :: 0 <= i < |ch.normal| ==> Waits(ch, written, ch.normal[i]))
    && (forall i :: 0 <= i < |ch.priority| ==> Waits(ch, written, ch.priority[i]))
    && InOrder(ch.normal) && InOrder(ch.priority)
    && (forall i, j :: 0 <= i < |ch.normal| && 0 <= j < |ch.priority| ==> ch.normal[i].request.id != ch.priority[j].request.id)
  }

  /** At most one delivery is active, and it is known what has been written of it. */
  predicate ActiveOk(ch: Channel, written: seq<Id>)
  {
    && |ch.active| == (if ch.delivering then 1 else 0)
    && (ch.delivering ==>
          var d := ch.active[0]; var r := d.task.request;
          && r.id in ch.requests && ch.requests[r.id] == r && r.id !in ch.outcomes && r.id !in ch.dropped
          && (d.Starting? <==> r.id !in written)
          && (forall i :: 0 <= i < |ch.normal| ==> ch.normal[i].request.id != r.id)
          && (forall i :: 0 <= i < |ch.priority| ==> ch.priority[i].request.id != r.id))
  }

  /** Ids are used once, and each belongs to the epoch of its prefix. */
  predicate IdsOk(ch: Channel, written: seq<Id>)
  {
    && ch.prefix == ch.nonce < ch.drawn
    && (forall id :: id in ch.requests ==>
          ch.requests[id].id == id && ch.requests[id].nonce == id.prefix < ch.drawn
          && (id.prefix == ch.prefix ==> id.sequence <= ch.sequence))
    && (forall i :: 0 <= i < |written| ==> written[i] in ch.requests)
  }

  /** Nothing dropped at a rotation is ever written, nothing is written twice, and before the next write the last one
      has ended. */
  predicate HistoryOk(ch: Channel, written: seq<Id>)
  {
    && (forall i, j :: 0 <= i < j < |written| ==> written[i] != written[j])
    && (forall i :: 0 <= i < |written| ==>
          written[i] !in ch.dropped
          && (written[i] in ch.outcomes || (ch.delivering && |ch.active| == 1 && ch.active[0].task.request.id == written[i])))
    && (forall id :: id in ch.outcomes ==> id in ch.requests)
    && (forall id :: id in ch.dropped ==> id in ch.outcomes)
  }

  predicate ChannelOk(ch: Channel, written: seq<Id>)
  {
    QueuesOk(ch, written) && ActiveOk(ch, written) && IdsOk(ch, written) && HistoryOk(ch, written)
  }

  /** The nonce check before the write never fires: what is queued belongs to the epoch. */
  lemma PumpBegins(ch: Channel, written: seq<Id>)
    requires ChannelOk(ch, written)
    ensures Pump(ch)
         == if ch.delivering || ch.paused || (ch.priority == [] && ch.normal == []) then ch
            else if ch.priority != [] then
              ch.(priority := ch.priority[1..], delivering := true, active := [Starting(ch.priority[0])])
            else ch.(normal := ch.normal[1..], delivering := true, active := [Starting(ch.normal[0])])
  {
    if ch.priority != [] {
      assert Waits(ch, written, ch.priority[0]);
    } else if ch.normal != [] {
      assert Waits(ch, written, ch.normal[0]);
    }
  }

  lemma PumpKeeps(ch: Channel, written: seq<Id>)
    requires ChannelOk(ch, written)
    ensures ChannelOk(Pump(ch), written)
  {
    hide Pump;
    PumpBegins(ch, written);
  }

  lemma DeliverKeeps(ch: Channel, written: seq<Id>, cmd: Command, instance: nat, priority: bool, shutdown: bool)
    requires ChannelOk(ch, written)
    ensures ChannelOk(Deliver(ch, NextRequest(ch, cmd, instance), priority, shutdown), written)
    ensures NextRequest(ch, cmd, instance).id !in ch.requests
  {
    hide Pump;
    var r := NextRequest(ch, cmd, instance);
    QueueKeeps(ch, written, r, priority, shutdown);
    PumpKeeps(Queued(ch, r, priority, shutdown), written);
  }

  lemma FreshId(ch: Channel, written: seq<Id>)
    requires ChannelOk(ch, written)
    ensures var id := Id(ch.prefix, ch.sequence + 1);
      && id !in ch.requests && id !in ch.outcomes && id !in ch.dropped && id !in written
      && (forall i :: 0 <= i < |ch.normal| ==> ch.normal[i].request.id.sequence <= ch.sequence && ch.normal[i].request.id in ch.requests)
      && (forall i :: 0 <= i < |ch.priority| ==> ch.priority[i].request.id.sequence <= ch.sequence && ch.priority[i].request.id in ch.requests)
  {
    forall i | 0 <= i < |ch.normal|
      ensures ch.normal[i].request.id.sequence <= ch.sequence && ch.normal[i].request.id in ch.requests
    {
      assert Waits(ch, written, ch.normal[i]);
    }
    forall i | 0 <= i < |ch.priority|
      ensures ch.priority[i].request.id.sequence <= ch.sequence && ch.priority[i].request.id in ch.requests
    {
      assert Waits(ch, written, ch.priority[i]);
    }
  }

  lemma QueuedWaits(ch: Channel, written: seq<Id>, r: Request, priority: bool, shutdown: bool)
    requires ChannelOk(ch, written) && r.id == Id(ch.prefix, ch.sequence + 1) && r.nonce == ch.nonce
    ensures QueuesOk(Queued(ch, r, priority, shutdown), written)
  {
    hide IdsOk, HistoryOk, ActiveOk, Waits;
    FreshId(ch, written);
    var q := Queued(ch, r, priority, shutdown);
    NewlyWaits(ch, written, r, priority, shutdown);
    forall i | 0 <= i < |ch.normal|
      ensures Waits(q, written, ch.normal[i])
    {
      StillWaits(ch, written, r, priority, shutdown, ch.normal[i]);
    }
    forall i | 0 <= i < |ch.priority|
      ensures Waits(q, written, ch.priority[i])
    {
      StillWaits(ch, written, r, priority, shutdown, ch.priority[i]);
    }
  }

  lemma StillWaits(ch: Channel, written: seq<Id>, r: Request, priority: bool, shutdown: bool, task: Task)
    requires Waits(ch, written, task) && r.id == Id(ch.prefix, ch.sequence + 1)
    ensures Waits(Queued(ch, r, priority, shutdown), written, task)
  {
  }

  lemma NewlyWaits(ch: Channel, written: seq<Id>, r: Request, priority: bool, shutdown: bool)
    requires ChannelOk(ch, written) && r.id == Id(ch.prefix, ch.sequence + 1) && r.nonce == ch.nonce
    ensures Waits(Queued(ch, r, priority, shutdown), written, Task(r, shutdown))
  {
    hide QueuesOk, ActiveOk;
    FreshId(ch, written);
  }

  lemma QueueKeeps(ch: Channel, written: seq<Id>, r: Request, priority: bool, shutdown: bool)
    requires ChannelOk(ch, written) && r.id == Id(ch.prefix, ch.sequence + 1) && r.nonce == ch.nonce
    ensures r.id !in ch.requests && ChannelOk(Queued(ch, r, priority, shutdown), written)
  {
    hide QueuesOk, Waits;
    FreshId(ch, written);
    QueuedWaits(ch, written, r, priority, shutdown);
  }

  lemma PrepareKeeps(ch: Channel, written: seq<Id>, pause: bool)
    requires ChannelOk(ch, written)
    ensures ChannelOk(Prepare(ch, pause), written)
  {
    if ch.prepared.None? {
      var queued := QueuedIds(ch.normal) + QueuedIds(ch.priority);
      forall id | id in queued
        ensures id in ch.requests && id !in written && id !in ch.outcomes
        ensures ch.delivering ==> ch.active[0].task.request.id != id
      {
        if i :| 0 <= i < |ch.normal| && ch.normal[i].request.id == id {
          assert Waits(ch, written, ch.normal[i]);
        } else {
          var j :| 0 <= j < |ch.priority| && ch.priority[j].request.id == id;
          assert Waits(ch, written, ch.priority[j]);
        }
      }
    }
  }

  lemma FinishKeeps(ch: Channel, written: seq<Id>, outcome: Outcome)
    requires ChannelOk(ch, written) && ch.delivering
    ensures ChannelOk(Finish(ch, 0, outcome), written)
  {
    hide Pump;
    var id := ch.active[0].task.request.id;
    var rest := Ended(ch.(active := ch.active[..0] + ch.active[1..], delivering := false), id, outcome);
    assert rest.active == [];
    assert ChannelOk(rest, written) by {
      assert forall i :: 0 <= i < |written| ==> written[i] in rest.outcomes;
    }
    PumpKeeps(rest, written);
  }

  /** The request goes into the slot. */
  function Write(ch: Channel): Channel
    requires ch.delivering && |ch.active| == 1 && ch.active[0].Starting?
  {
    ch.(active := [Awaiting(ch.active[0].task, None)])
  }

  lemma WriteKeeps(ch: Channel, written: seq<Id>)
    requires ChannelOk(ch, written) && ch.delivering && ch.active[0].Starting?
    ensures ChannelOk(Write(ch), written + [ch.active[0].task.request.id])
    ensures forall i :: 0 <= i < |written| ==> written[i] in ch.outcomes
  {
    var id := ch.active[0].task.request.id;
    var next := written + [id];
    forall i | 0 <= i < |ch.normal|
      ensures Waits(Write(ch), next, ch.normal[i])
    {
      assert Waits(ch, written, ch.normal[i]);
    }
    forall i | 0 <= i < |ch.priority|
      ensures Waits(Write(ch), next, ch.priority[i])
    {
      assert Waits(ch, written, ch.priority[i]);
    }
    assert ActiveOk(Write(ch), next) && IdsOk(Write(ch), next);
    assert forall i :: 0 <= i < |written| ==> written[i] != id;
  }

  function Look(ch: Channel, ack: Option<Ack>): Channel
    requires |ch.active| == 1 && ch.active[0].Awaiting?
  {
    ch.(active := [Awaiting(ch.active[0].task, ack)])
  }

  lemma LookKeeps(ch: Channel, written: seq<Id>, ack: Option<Ack>)
    requires ChannelOk(ch, written) && ch.delivering && ch.active[0].Awaiting?
    ensures ChannelOk(Look(ch, ack), written)
  {
    hide Waits, InOrder, IdsOk;
    SameQueues(ch, Look(ch, ack), written);
  }

  /** The delivery under way is no concern of the waiting tasks. */
  lemma SameQueues(a: Channel, b: Channel, written: seq<Id>)
    requires b == a.(active := b.active)
    ensures QueuesOk(a, written) == QueuesOk(b, written) && IdsOk(a, written) == IdsOk(b, written)
  {
    assert forall task :: Waits(a, written, task) == Waits(b, written, task);
  }

  lemma JudgeKeeps(ch: Channel, written: seq<Id>, timedOut: bool)
    requires ChannelOk(ch, written) && ch.delivering && ch.active[0].Awaiting?
    ensures ChannelOk(Judge(ch, 0, timedOut), written)
  {
    hide Finish, Waits, InOrder, IdsOk;
    FinishKeeps(ch, written, Restarted);
    FinishKeeps(ch, written, BadAcknowledgement);
    FinishKeeps(ch, written, TimedOut);
    SameQueues(ch, ch.(active := ch.active[0 := Accepting(ch.active[0].task)]), written);
  }

  lemma AcceptKeeps(ch: Channel, written: seq<Id>)
    requires ChannelOk(ch, written) && ch.delivering && ch.active[0].Accepting?
    ensures ChannelOk(Accept(ch, 0), written)
  {
    hide Finish, QueuesOk, IdsOk, HistoryOk;
    PrepareKeeps(ch, written, true);
    SameDelivery(ch);
    FinishKeeps(if ch.active[0].task.shutdown then Prepare(ch, true) else ch, written, Accepted);
  }

  lemma SameDelivery(ch: Channel)
    ensures Prepare(ch, true).delivering == ch.delivering && Prepare(ch, true).active == ch.active
  {
  }

  lemma ResumeKeeps(ch: Channel, written: seq<Id>)
    requires ChannelOk(ch, written)
    ensures ChannelOk(Resume(ch), written)
  {
    hide Pump, IdsOk, HistoryOk, Waits;
    if ch.paused {
      assert ChannelOk(ch.(paused := false), written) by {
        Unpaused(ch, written);
      }
      PumpKeeps(ch.(paused := false), written);
    }
  }

  lemma Unpaused(ch: Channel, written: seq<Id>)
    requires ChannelOk(ch, written)
    ensures ChannelOk(ch.(paused := false), written)
  {
    forall task | Waits(ch, written, task)
      ensures Waits(ch.(paused := false), written, task)
    {
    }
  }

  lemma TakeKeeps(ch: Channel, written: seq<Id>)
    requires ChannelOk(ch, written)
    ensures ChannelOk(Take(ch), written)
  {
    PrepareKeeps(ch, written, false);
    var p := Prepare(ch, false);
    forall task | Waits(p, written, task)
      ensures Waits(Take(ch), written, task)
    {
    }
  }
}
