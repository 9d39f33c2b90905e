/** The two ends of the mailbox as objects: the page's channel and the host's loops. */
module RpcMailbox {
  import opened Text
  import opened RpcIds
  import opened RpcChannel
  import opened RpcHost

  class TerminalClient {
    var sequence: nat
    var prefix: nat
    var nonce: nat
    var normal: seq<Task>
    var priority: seq<Task>
    var delivering: bool
    var active: seq<Delivery>
    var paused: bool
    var prepared: Option<nat>
    var drawn: nat
    var outcomes: map<Id, Outcome>
    ghost var requests: map<Id, Request>
    ghost var dropped: set<Id>

    ghost function View(): Channel
      reads this
    {
      Channel(sequence, prefix, nonce, normal, priority, delivering, active, paused, prepared, drawn, requests, outcomes,
              dropped)
    }

    constructor ()
      ensures View() == InitialChannel()
    {
      sequence, prefix, nonce, normal, priority := 0, 0, 0, [], [];
      delivering, active, paused, prepared, drawn := false, [], false, None, 1;
      outcomes, requests, dropped := map[], map[], {};
    }

    method PumpDeliveries()
      modifies this
      ensures View() == Pump(old(View()))
      decreases |priority| + |normal|
    {
      if delivering || paused || (|priority| == 0 && |normal| == 0) {
        return;
      }
      var task;
      if |priority| > 0 {
        task := priority[0];
        priority := priority[1..];
      } else {
        task := normal[0];
        normal := normal[1..];
      }
      if task.request.nonce != nonce {
        outcomes := outcomes[task.request.id := Restarted];
        PumpDeliveries();
      } else {
        delivering := true;
        active := active + [Starting(task)];
      }
    }

    method DeliverRequest(cmd: Command, instance: nat, urgent: bool, shutdown: bool) returns (request: Request)
      modifies this
      ensures request == NextRequest(old(View()), cmd, instance)
      ensures View() == Deliver(old(View()), request, urgent, shutdown)
    {
      sequence := sequence + 1;
      request := Request(Id(prefix, sequence), cmd, nonce, instance);
      requests := requests[request.id := request];
      if urgent {
        priority := priority + [Task(request, shutdown)];
      } else {
        normal := normal + [Task(request, shutdown)];
      }
      PumpDeliveries();
    }

    /** New nonce and prefix; everything queued is rejected. */
    method PrepareHostEpoch(pause: bool) returns (epoch: nat)
      modifies this
      ensures View() == Prepare(old(View()), pause)
      ensures prepared == Some(epoch)
    {
      hide QueuedIds, RejectAll;
      if prepared.Some? {
        if pause {
          paused := true;
        }
        return prepared.value;
      }
      RejectQueued();
      nonce, prefix, drawn := drawn, drawn, drawn + 1;
      sequence := 0;
      prepared := Some(nonce);
      paused := pause;
      return nonce;
    }

    /** Everything queued is rejected unwritten. */
    method RejectQueued()
      modifies this`normal, this`priority, this`outcomes, this`dropped
      ensures normal == [] && priority == []
      ensures var queued := QueuedIds(old(normal)) + QueuedIds(old(priority));
        outcomes == RejectAll(old(outcomes), queued) && dropped == old(dropped) + queued
    {
      hide QueuedIds, RejectAll;
      var queued := QueuedIds(normal) + QueuedIds(priority);
      normal, priority := [], [];
      outcomes := RejectAll(outcomes, queued);
      dropped := dropped + queued;
    }

    method TakeHostEpoch() returns (epoch: nat)
      modifies this
      ensures View() == Take(old(View())) && Prepare(old(View()), false).prepared == Some(epoch)
    {
      epoch := PrepareHostEpoch(false);
      prepared := None;
    }

    method ResumeHostDelivery()
      modifies this
      ensures View() == Resume(old(View()))
    {
      if !paused {
        return;
      }
      paused := false;
      PumpDeliveries();
    }

    /** The delivery under way ends one way or the other, and the next begins. */
    method FinishDelivery(outcome: Outcome)
      requires |active| == 1
      modifies this
      ensures View() == Finish(old(View()), 0, outcome)
    {
      assert active[..0] + active[1..] == [];
      outcomes := outcomes[active[0].task.request.id := outcome];
      active := [];
      delivering := false;
      PumpDeliveries();
    }

    method JudgeAcknowledgement(timedOut: bool)
      requires |active| == 1 && active[0].Awaiting?
      modifies this
      ensures View() == Judge(old(View()), 0, timedOut)
    {
      var d := active[0];
      if d.task.request.nonce != nonce {
        FinishDelivery(Restarted);
      } else if d.seen.Some? {
        if !Matches(d.seen.value, d.task.request) {
          FinishDelivery(BadAcknowledgement);
        } else {
          active := active[0 := Accepting(d.task)];
        }
      } else if timedOut {
        FinishDelivery(TimedOut);
      }
    }

    method AcceptDelivery()
      requires |active| == 1 && active[0].Accepting?
      modifies this
      ensures View() == Accept(old(View()), 0)
    {
      if active[0].task.shutdown {
        var _ := PrepareHostEpoch(true);
      }
      FinishDelivery(Accepted);
    }
  }

  class HostLoop {
    const epoch: nat
    const processed: BoundedProcessedIds
    var files: Files
    var busy: Option<Id>
    var priorityBusy: Option<Id>
    var meta: map<Id, nat>
    ghost var started: seq<Request>

    ghost predicate Valid()
      reads this, processed
    {
      processed.Valid() && processed.limit == PROCESSED_LIMIT
    }

    ghost function View(): Host
      reads this, processed
    {
      Host(epoch, true, processed.values, busy, priorityBusy, meta, started)
    }

    constructor (epoch: nat, files: Files)
      ensures Valid() && fresh(processed) && View() == NewHost(epoch) && this.files == files
    {
      this.epoch := epoch;
      this.files := files;
      busy, priorityBusy, meta, started := None, None, map[], [];
      processed := new BoundedProcessedIds(PROCESSED_LIMIT);
    }

    /** Remember, note the nonce, acknowledge. */
    method Accept(r: Request)
      requires Valid()
      modifies this, processed
      ensures Valid() && View() == RpcHost.Begin(old(View()), r) && files == WriteAck(old(files), r)
    {
      processed.Add(r.id);
      meta := meta[r.id := r.nonce];
      files := WriteAck(files, r);
      started := started + [r];
    }

    method Refuse(id: Id, nonce: nat)
      modifies this`files, this`meta
      ensures files == RemoveIfSame(WriteError(old(files), id, nonce), id) && meta == old(meta) - {id}
    {
      files := WriteError(files, id, nonce);
      meta := meta - {id};
      files := RemoveIfSame(files, id);
    }

    /** One tick: the normal loop, or while it is busy the one for urgent requests. */
    method Tick()
      requires Valid()
      modifies this, processed
      ensures Valid() && (View(), files) == Poll(old(View()), old(files))
    {
      if busy.Some? {
        if priorityBusy.None? {
          TickPriority();
        }
        return;
      }
      match files.slot {
        case Empty =>
        case Garbage(found, nonce) =>
          if found.None? {
            files := files.(slot := Empty);
          } else {
            Refuse(found.value, nonce);
          }
        case Holds(r) =>
          if r.nonce != epoch {
            Refuse(r.id, r.nonce);
            return;
          }
          ProcessedAreRemembered();
          var known := processed.Has(r.id);
          if known {
            files := RemoveIfSame(WriteAck(files, r), r.id);
            return;
          }
          Accept(r);
          busy := Some(r.id);
      }
    }

    lemma ProcessedAreRemembered()
      requires Valid()
      ensures forall id :: id in processed.values <==> id in LastOf(Inserted(processed.limit, processed.added), processed.limit)
    {
      RemembersTheLastInserted(processed.limit, processed.added);
    }

    method TickPriority()
      requires Valid()
      modifies this, processed
      ensures Valid() && (View(), files) == PollPriority(old(View()), old(files))
    {
      if !files.slot.Holds? {
        return;
      }
      var r := files.slot.request;
      if r.nonce != epoch {
        Refuse(r.id, r.nonce);
        return;
      }
      if !Urgent(r.cmd) {
        return;
      }
      ProcessedAreRemembered();
      var known := processed.Has(r.id);
      if known {
        files := RemoveIfSame(WriteAck(files, r), r.id);
        return;
      }
      Accept(r);
      priorityBusy := Some(r.id);
    }

    method EndHandler()
      modifies this`busy, this`files
      ensures (View(), files) == EndNormal(old(View()), old(files))
    {
      if busy.Some? {
        files := RemoveIfSame(files, busy.value);
        busy := None;
      }
    }

    method EndPriorityHandler()
      modifies this`priorityBusy, this`files
      ensures (View(), files) == EndPriority(old(View()), old(files))
    {
      if priorityBusy.Some? {
        files := RemoveIfSame(files, priorityBusy.value);
        priorityBusy := None;
      }
    }

    method Answer(r: Request)
      modifies this`meta, this`files
      ensures (View(), files) == WriteResult(old(View()), old(files), r)
    {
      var nonce := if r.id in meta then Some(meta[r.id]) else None;
      files := files.(results := files.results[r.id := Reply(r.id, nonce, r.instance, true)]);
      meta := meta - {r.id};
    }
  }
}
