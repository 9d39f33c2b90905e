/** The host's end of the mailbox: a polling loop for all requests, and a second one for the urgent ones while the first
    is busy. What happens without an await in between is one step. */
module RpcHost {
  import opened Text
  import opened RpcIds
  import opened RpcChannel

  const PROCESSED_LIMIT := 4096

  /** The slot file: missing, unusable (perhaps with a usable id and nonce), or a request. */
  datatype Slot = Empty | Garbage(id: Option<Id>, nonce: nat) | Holds(request: Request)

  /** A result file; `handled` tells the result of a command from a protocol error. */
  datatype Reply = Reply(id: Id, nonce: Option<nat>, instance: nat, handled: bool)

  datatype Files = Files(slot: Slot, acks: map<Id, Ack>, results: map<Id, Reply>, epoch: Option<nat>)

  /** `started` lists the requests handed to `handleCommand`, `meta` the nonces of those without a result yet. */
  datatype Host = Host(epoch: nat, alive: bool, processed: seq<Id>, busy: Option<Id>, priorityBusy: Option<Id>,
                       meta: map<Id, nat>, started: seq<Request>)

  function NewHost(epoch: nat): Host
  {
    Host(epoch, true, [], None, None, map[], [])
  }

  predicate Urgent(cmd: Command)
  {
    cmd.Ping? || cmd.Interrupt? || cmd.Exit?
  }

  function AckFor(r: Request): Ack
  {
    Ack(r.id, r.nonce, r.instance)
  }

  /** `removeIfSame`: the slot is emptied only if it holds this id. */
  function RemoveIfSame(files: Files, id: Id): Files
  {
    match files.slot
    case Holds(r) => if r.id == id then files.(slot := Empty) else files
    case Garbage(found, _) => if found == Some(id) then files.(slot := Empty) else files
    case Empty => files
  }

  function WriteAck(files: Files, r: Request): Files
  {
    files.(acks := files.acks[r.id := AckFor(r)])
  }

  /** `writeProtocolError` for a known id: its result file, stamped with the nonce of the request. */
  function WriteError(files: Files, id: Id, nonce: nat): Files
  {
    files.(results := files.results[id := Reply(id, Some(nonce), 0, false)])
  }

  function Forget(host: Host, id: Id): Host
  {
    host.(meta := host.meta - {id})
  }

  /** The request is remembered, acknowledged and handed over. */
  function Begin(host: Host, r: Request): Host
  {
    host.(processed := Added(host.processed, PROCESSED_LIMIT, r.id), meta := host.meta[r.id := r.nonce],
          started := host.started + [r])
  }

  /** One tick of the normal loop that finds it free. */
  function PollNormal(host: Host, files: Files): (Host, Files)
  {
    match files.slot
    case Empty => (host, files)
    case Garbage(None, _) => (host, files.(slot := Empty))
    case Garbage(Some(id), nonce) => (Forget(host, id), RemoveIfSame(WriteError(files, id, nonce), id))
    case Holds(r) =>
      if r.nonce != host.epoch then (Forget(host, r.id), RemoveIfSame(WriteError(files, r.id, r.nonce), r.id))
      else if r.id in host.processed then (host, RemoveIfSame(WriteAck(files, r), r.id))
      else (Begin(host, r).(busy := Some(r.id)), WriteAck(files, r))
  }

  /** One tick while the normal loop is busy: only what must not wait, everything else stays in the slot. */
  function PollPriority(host: Host, files: Files): (Host, Files)
  {
    match files.slot
    case Holds(r) =>
      if r.nonce != host.epoch then (Forget(host, r.id), RemoveIfSame(WriteError(files, r.id, r.nonce), r.id))
      else if !Urgent(r.cmd) then (host, files)
      else if r.id in host.processed then (host, RemoveIfSame(WriteAck(files, r), r.id))
      else (Begin(host, r).(priorityBusy := Some(r.id)), WriteAck(files, r))
    case _ => (host, files)
  }

  function Poll(host: Host, files: Files): (Host, Files)
  {
    if host.busy.None? then PollNormal(host, files)
    else if host.priorityBusy.None? then PollPriority(host, files)
    else (host, files)
  }

  /** The handler of the normal loop has ended. */
  function EndNormal(host: Host, files: Files): (Host, Files)
  {
    if host.busy.None? then (host, files) else (host.(busy := None), RemoveIfSame(files, host.busy.value))
  }

  function EndPriority(host: Host, files: Files): (Host, Files)
  {
    if host.priorityBusy.None? then (host, files)
    else (host.(priorityBusy := None), RemoveIfSame(files, host.priorityBusy.value))
  }

  /** `writeResult` for a started request, at any time and any number of times: it carries the nonce that was noted when
      the request began, if that is still there. */
  function WriteResult(host: Host, files: Files, r: Request): (Host, Files)
  {
    var nonce := if r.id in host.meta then Some(host.meta[r.id]) else None;
    (Forget(host, r.id), files.(results := files.results[r.id := Reply(r.id, nonce, r.instance, true)]))
  }

  // ----- What a host keeps -----

  /** Everything started was written into the slot, belongs to this host's epoch, and was started once; if the last
      request written was started, it was the last to be, and is still remembered. */
  predicate HostOk(host: Host, requests: map<Id, Request>, written: seq<Id>)
  {
    && (forall i :: 0 <= i < |host.started| ==>
          var r := host.started[i];
          r.nonce == host.epoch && r.id in written && r.id in requests && requests[r.id] == r)
    && (forall i, j :: 0 <= i < j < |host.started| ==> host.started[i].id != host.started[j].id)
    && (host.started != [] ==> host.started[|host.started| - 1].id in host.processed)
    && (forall i :: 0 <= i < |host.started| - 1 ==> written == [] || host.started[i].id != written[|written| - 1])
    && (forall id :: id in host.meta ==> host.meta[id] == host.epoch)
  }

  /** What the slot holds is the last request that was written. */
  predicate SlotOk(slot: Slot, requests: map<Id, Request>, written: seq<Id>)
  {
    slot.Holds? ==> written != [] && written[|written| - 1] == slot.request.id
                    && slot.request.id in requests && requests[slot.request.id] == slot.request
  }

  /** The dedup set forgets, and still no request is begun twice: to make the host forget the request in the slot,
      others would have to be written over it, and it would not come back. */
  lemma BeginKeeps(host: Host, requests: map<Id, Request>, written: seq<Id>, r: Request)
    requires HostOk(host, requests, written) && SlotOk(Holds(r), requests, written)
    requires r.nonce == host.epoch && r.id !in host.processed
    ensures HostOk(Begin(host, r), requests, written)
  {
    hide Added;
    JustAddedIsRemembered(host.processed, PROCESSED_LIMIT, r.id);
    forall i | 0 <= i < |host.started|
      ensures host.started[i].id != r.id
    {
      if i == |host.started| - 1 {
        assert host.started[i].id in host.processed;
      }
    }
  }

  lemma PollKeeps(host: Host, files: Files, requests: map<Id, Request>, written: seq<Id>)
    requires HostOk(host, requests, written) && SlotOk(files.slot, requests, written)
    ensures HostOk(Poll(host, files).0, requests, written) && SlotOk(Poll(host, files).1.slot, requests, written)
  {
    hide Begin;
    if files.slot.Holds? {
      var r := files.slot.request;
      if r.nonce == host.epoch && r.id !in host.processed {
        BeginKeeps(host, requests, written, r);
      }
    }
  }

  lemma WrittenOnKeeps(host: Host, requests: map<Id, Request>, written: seq<Id>, id: Id)
    requires HostOk(host, requests, written) && id !in written
    ensures HostOk(host, requests, written + [id])
  {
  }

  lemma RequestedOnKeeps(host: Host, requests: map<Id, Request>, written: seq<Id>, r: Request)
    requires HostOk(host, requests, written) && r.id !in requests
    ensures HostOk(host, requests[r.id := r], written)
  {
  }
}
