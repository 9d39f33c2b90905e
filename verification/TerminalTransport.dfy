/** Browser half of the terminal mailbox: input buffering, and the output poll loop.
    Every function named after an action is the code between two awaits; asynchronous runs are
    sequences of such actions in any order. */
module TerminalTransport {
  import opened Text
  import opened TransportProtocol

  // ----- Splitting input by bytes -----

  function Pack(chunk: string, rest: string, limit: nat): seq<string>
    decreases |rest|
  {
    if rest == "" then if chunk == "" then [] else [chunk]
    else if chunk != "" && ByteLength(chunk) + CharBytes(rest[0]) > limit then
      [chunk] + Pack([rest[0]], rest[1..], limit)
    else Pack(chunk + [rest[0]], rest[1..], limit)
  }

  function Pieces(value: string, limit: nat): seq<string>
  {
    if ByteLength(value) <= limit then [value] else Pack("", value, limit)
  }

  /** `splitByBytes` */
  method SplitByBytes(value: string, limit: nat) returns (chunks: seq<string>)
    ensures chunks == Pieces(value, limit)
  {
    if ByteLength(value) <= limit {
      return [value];
    }
    chunks := [];
    var chunk, bytes, i := "", 0, 0;
    assert value[0..] == value;
    while i < |value|
      invariant 0 <= i <= |value|
      invariant bytes == ByteLength(chunk)
      invariant Pack("", value, limit) == chunks + Pack(chunk, value[i..], limit)
    {
      var c := value[i];
      var n := CharBytes(c);
      assert value[i..][0] == c && value[i..][1..] == value[i + 1..];
      ghost var before := chunks + Pack(chunk, value[i..], limit);
      if chunk != "" && bytes + n > limit {
        assert before == chunks + [chunk] + Pack([c], value[i + 1..], limit);
        assert "" + [c] == [c];
        chunks, chunk, bytes := chunks + [chunk], "", 0;
      }
      ByteLengthConcat(chunk, [c]);
      chunk, bytes, i := chunk + [c], bytes + n, i + 1;
    }
    if chunk != "" {
      chunks := chunks + [chunk];
    }
  }

  lemma NoBytes()
    ensures ByteLength("") == 0
  {
  }

  lemma ByteLengthOne(c: char)
    ensures ByteLength([c]) == CharBytes(c)
  {
    assert ByteLength([c]) == CharBytes(c) + ByteLength([c][1..]);
  }

  lemma {:induction false} PackProperties(chunk: string, rest: string, limit: nat)
    requires ByteLength(chunk) <= limit || |chunk| == 1
    ensures Concat(Pack(chunk, rest, limit)) == chunk + rest
    ensures forall p :: p in Pack(chunk, rest, limit) ==> p != "" && (ByteLength(p) <= limit || |p| == 1)
    decreases |rest|
  {
    hide ByteLength;
    if rest == "" {
      assert Concat([chunk]) == chunk + Concat([]);
    } else {
      var c := rest[0];
      ByteLengthConcat(chunk, [c]);
      ByteLengthOne(c);
      NoBytes();
      assert chunk + rest == (chunk + [c]) + rest[1..];
      if chunk != "" && ByteLength(chunk) + CharBytes(c) > limit {
        PackProperties([c], rest[1..], limit);
        assert Pack(chunk, rest, limit) == [chunk] + Pack([c], rest[1..], limit);
        assert chunk + ([c] + rest[1..]) == chunk + rest;
      } else {
        PackProperties(chunk + [c], rest[1..], limit);
      }
    }
  }

  /** The pieces spell the value; none is over the limit but for single characters that are, which no limit of four bytes
      or more knows; and none is empty unless the value is. */
  lemma PiecesSpellTheValue(value: string, limit: nat)
    ensures Concat(Pieces(value, limit)) == value
    ensures forall p :: p in Pieces(value, limit) ==> (ByteLength(p) <= limit || |p| == 1) && (p == "" ==> value == "")
    ensures limit >= 4 ==> forall p :: p in Pieces(value, limit) ==> ByteLength(p) <= limit
  {
    if ByteLength(value) <= limit {
      assert Concat([value]) == value + Concat([]);
    } else {
      NoBytes();
      PackProperties("", value, limit);
      assert "" + value == value;
      forall p | p in Pieces(value, limit) && |p| == 1
        ensures ByteLength(p) <= 4
      {
        ByteLengthOne(p[0]);
        assert p == [p[0]];
      }
    }
  }

  /** Greedy: no piece could also have taken the first character of the next one. */
  lemma {:induction false} PackIsGreedy(chunk: string, rest: string, limit: nat)
    ensures var p := Pack(chunk, rest, limit);
            && (chunk != "" ==> p != [] && chunk <= p[0])
            && forall i :: 0 < i < |p| ==> p[i] != "" && ByteLength(p[i - 1]) + CharBytes(p[i][0]) > limit
    decreases |rest|
  {
    if rest != "" {
      var c := rest[0];
      if chunk != "" && ByteLength(chunk) + CharBytes(c) > limit {
        PackIsGreedy([c], rest[1..], limit);
        var q := Pack([c], rest[1..], limit);
        assert q[0][0] == c;
        assert Pack(chunk, rest, limit) == [chunk] + q;
      } else {
        PackIsGreedy(chunk + [c], rest[1..], limit);
      }
    }
  }

  // ----- Frames -----

  datatype Kind = Input | Resize | Focus | Clear | Heartbeat | Dispose

  /** An empty `data` stands for a frame without data. */
  datatype InFrame = InFrame(kind: Kind, data: string, cols: int, rows: int)

  datatype Identity = Identity(protocolVersion: int, instanceId: string, sessionId: string, bootNonce: string)

  datatype OutFrame = OutFrame(identity: Identity, sequence: int, data: string)

  /** A frame file that was written: its number, the nonce it was written under, and its content. */
  datatype Sent = Sent(sequence: nat, nonce: string, frame: InFrame)

  /** Frames taken from the queue that one drain is writing. */
  datatype Batch = Batch(nonce: string, frames: seq<InFrame>, bytes: nat, done: nat)

  function DataOf(frames: seq<InFrame>): string
  {
    if frames == [] then "" else frames[0].data + DataOf(frames[1..])
  }

  function DataBytes(frames: seq<InFrame>): nat
  {
    if frames == [] then 0 else ByteLength(frames[0].data) + DataBytes(frames[1..])
  }

  lemma {:induction false} DataAppend(a: seq<InFrame>, b: seq<InFrame>)
    ensures DataOf(a + b) == DataOf(a) + DataOf(b)
    ensures DataBytes(a + b) == DataBytes(a) + DataBytes(b)
  {
    if a == [] {
      assert a + b == b;
    } else {
      assert (a + b)[1..] == a[1..] + b;
      DataAppend(a[1..], b);
    }
  }

  lemma DataOne(frame: InFrame)
    ensures DataOf([frame]) == frame.data && DataBytes([frame]) == ByteLength(frame.data)
  {
    hide ByteLength;
    assert [frame][1..] == [];
  }

  // ----- Input queue -----

  /** `push`: data frames are appended; a control frame replaces an equal last one, and at most 64 wait. */
  function Push(pending: seq<InFrame>, frame: InFrame): seq<InFrame>
  {
    if frame.data == "" && frame.kind != Dispose then
      if pending != [] && pending[|pending| - 1].kind == frame.kind then
        pending[|pending| - 1 := pending[|pending| - 1].(cols := frame.cols, rows := frame.rows)]
      else if ControlCount(pending) >= 64 then pending
      else pending + [frame]
    else pending + [frame]
  }

  function ControlCount(pending: seq<InFrame>): nat
  {
    if pending == [] then 0 else (if pending[0].data == "" then 1 else 0) + ControlCount(pending[1..])
  }

  function DataFrames(frame: InFrame, pieces: seq<string>): seq<InFrame>
  {
    if pieces == [] then [] else [frame.(data := pieces[0])] + DataFrames(frame, pieces[1..])
  }

  /** How many queued frames the next batch takes, `bytes` already being in it. */
  function BatchSize(pending: seq<InFrame>, taken: nat, bytes: nat): (n: nat)
    requires taken <= |pending|
    decreases |pending| - taken
  {
    if taken == |pending| then taken
    else
      var size := ByteLength(pending[taken].data);
      if taken > 0 && bytes + size > TERMINAL_FRAME_LIMIT then taken
      else if bytes + size >= TERMINAL_FRAME_LIMIT then taken + 1
      else BatchSize(pending, taken + 1, bytes + size)
  }

  // ----- The client -----

  /** The fields of a client, and four history fields that no action reads:
      `sent` (frame files written), `accepted` (input text taken from callers), `handed` (output data `write` took in this
      nonce epoch) and `shown` (output that reached a sink). */
  datatype Client = Client(
    identity: Identity, maxBufferedBytes: nat, hasOutput: bool,
    opening: bool, running: bool, disposed: bool, fenced: bool,
    pending: seq<InFrame>, pendingBytes: int, inputSeq: nat, batch: Option<Batch>,
    outputSeq: nat, listeners: nat, initialOutput: seq<string>, initialOutputBytes: int,
    sent: seq<Sent>, accepted: string, handed: seq<string>, shown: seq<string>)

  function Fresh(identity: Identity, maxBufferedBytes: nat, hasOutput: bool): Client
  {
    Client(identity, maxBufferedBytes, hasOutput, false, false, false, false, [], 0, 0, None,
           0, 0, [], 0, [], "", [], [])
  }

  function Enqueue(s: Client, frame: InFrame): (Client, bool)
  {
    if s.disposed || s.fenced then (s, false)
    else if ByteLength(frame.data) > s.maxBufferedBytes - s.pendingBytes then (s, false)
    else if frame.data != "" && ByteLength(frame.data) > TERMINAL_FRAME_LIMIT then
      (s.(pending := s.pending + DataFrames(frame, Pieces(frame.data, TERMINAL_FRAME_LIMIT)),
          pendingBytes := s.pendingBytes + ByteLength(frame.data),
          accepted := s.accepted + frame.data), true)
    else
      (s.(pending := Push(s.pending, frame),
          pendingBytes := s.pendingBytes + ByteLength(frame.data),
          accepted := s.accepted + frame.data), true)
  }

  /** One turn of the drain loop up to its first write; only one drain runs at a time. */
  function TakeBatch(s: Client): Client
  {
    if s.batch.Some? || s.pending == [] || !s.running || s.disposed || s.fenced then s
    else
      var n := BatchSize(s.pending, 0, 0);
      BatchSizeBounds(s.pending, 0, 0);
      var frames := s.pending[..n];
      s.(pending := s.pending[n..], pendingBytes := s.pendingBytes - DataBytes(frames),
         batch := Some(Batch(s.identity.bootNonce, frames, DataBytes(frames), 0)))
  }

  function FrameWritten(s: Client): Client
  {
    if s.batch.None? || s.batch.value.done >= |s.batch.value.frames| then s
    else
      var b := s.batch.value;
      s.(inputSeq := s.inputSeq + 1,
         sent := s.sent + [Sent(s.inputSeq + 1, b.nonce, b.frames[b.done])],
         batch := if b.done + 1 == |b.frames| then None else Some(b.(done := b.done + 1)))
  }

  /** A failed write puts the whole batch back, including what was written already. */
  function FrameFailed(s: Client): Client
  {
    if s.batch.None? || s.batch.value.done >= |s.batch.value.frames| then s
    else
      var b := s.batch.value;
      s.(inputSeq := s.inputSeq + 1,
         pending := b.frames + s.pending, pendingBytes := s.pendingBytes + b.bytes,
         batch := None)
  }

  /** `open`, up to its first await; a second call waits for the first. */
  function OpenStep(s: Client): Client
  {
    if s.disposed || s.fenced || s.opening then s else s.(opening := true)
  }

  /** The mailbox has been made, or could not be. */
  function OpenEnds(s: Client, ok: bool): Client
  {
    if !s.opening then s else s.(opening := false, running := s.running || ok)
  }

  function FenceStep(s: Client): Client
  {
    if s.disposed || s.fenced then s
    else s.(fenced := true, running := false, pending := [], pendingBytes := 0)
  }

  function RenewStep(s: Client, nonce: string): Client
  {
    s.(identity := s.identity.(bootNonce := nonce), outputSeq := 0, fenced := false, handed := [])
  }

  function DisposeBegin(s: Client): Client
  {
    if s.disposed || (!s.running && !s.opening) then s
    else Enqueue(s.(pending := [], pendingBytes := 0), InFrame(Dispose, "", 0, 0)).0
  }

  function DisposeEnd(s: Client): Client
  {
    s.(disposed := true, running := false, listeners := 0, initialOutput := [], initialOutputBytes := 0)
  }

  // ----- Output -----

  /** `write`: `None` when the data does not fit in front of the first subscriber. */
  function WriteStep(s: Client, data: string): Option<Client>
  {
    var taken := s.(handed := s.handed + [data]);
    if s.hasOutput || s.listeners > 0 then Some(taken.(shown := s.shown + [data]))
    else if ByteLength(data) > (if s.initialOutputBytes > s.maxBufferedBytes then 0
                                else s.maxBufferedBytes - s.initialOutputBytes) then None
    else Some(taken.(initialOutput := s.initialOutput + [data],
                     initialOutputBytes := s.initialOutputBytes + ByteLength(data)))
  }

  datatype Verdict = Dropped | Waiting | Refused | Taken

  /** What the poll loop does with one frame file, from reading it to the acknowledgement. */
  function ProcessFrame(s: Client, frame: Option<OutFrame>): (Client, Verdict)
  {
    if frame.None? || frame.value.identity != s.identity then (s, Dropped)
    else if frame.value.sequence <= s.outputSeq then (s, Dropped)
    else if frame.value.sequence != s.outputSeq + 1 then (s, Waiting)
    else if frame.value.data == "" then (s.(outputSeq := s.outputSeq + 1), Taken)
    else
      match WriteStep(s, frame.value.data)
      case None => (s, Refused)
      case Some(t) => (t.(outputSeq := s.outputSeq + 1), Taken)
  }

  function Subscribe(s: Client): Client
  {
    if s.disposed then s
    else s.(listeners := s.listeners + 1, shown := s.shown + s.initialOutput,
            initialOutput := [], initialOutputBytes := 0)
  }

  function Unsubscribe(s: Client): Client
  {
    if s.listeners == 0 then s else s.(listeners := s.listeners - 1)
  }

  method TakeFrames(all: seq<InFrame>) returns (frames: seq<InFrame>, rest: seq<InFrame>, bytes: nat)
    ensures frames + rest == all
    ensures |frames| == BatchSize(all, 0, 0) && bytes == DataBytes(frames)
  {
    hide ByteLength, DataBytes, BatchSize;
    NoData();
    frames, rest, bytes := [], all, 0;
    BatchTurn(all, 0, 0);
    while rest != []
      invariant frames + rest == all
      invariant bytes == DataBytes(frames)
      invariant BatchSize(all, 0, 0) == BatchSize(all, |frames|, bytes)
      decreases |rest|
    {
      var frame := rest[0];
      var size := ByteLength(frame.data);
      assert all[|frames|] == frame;
      BatchTurn(all, |frames|, bytes);
      if |frames| > 0 && bytes + size > TERMINAL_FRAME_LIMIT {
        return;
      }
      DataAppend(frames, [frame]);
      DataOne(frame);
      rest, frames, bytes := rest[1..], frames + [frame], bytes + size;
      if bytes >= TERMINAL_FRAME_LIMIT {
        return;
      }
    }
    BatchTurn(all, |frames|, bytes);
  }

  /** One turn of the loop that fills a batch. */
  lemma BatchTurn(pending: seq<InFrame>, taken: nat, bytes: nat)
    requires taken <= |pending|
    ensures taken == |pending| ==> BatchSize(pending, taken, bytes) == taken
    ensures taken < |pending| ==>
              var size := ByteLength(pending[taken].data);
              BatchSize(pending, taken, bytes)
              == if taken > 0 && bytes + size > TERMINAL_FRAME_LIMIT then taken
                 else if bytes + size >= TERMINAL_FRAME_LIMIT then taken + 1
                 else BatchSize(pending, taken + 1, bytes + size)
  {
    hide ByteLength;
  }

  lemma NoData()
    ensures DataOf([]) == "" && DataBytes([]) == 0
  {
  }

  lemma {:induction false} DataFramesSnoc(frame: InFrame, pieces: seq<string>, piece: string)
    ensures DataFrames(frame, pieces + [piece]) == DataFrames(frame, pieces) + [frame.(data := piece)]
  {
    if pieces == [] {
      assert pieces + [piece] == [piece];
      assert DataFrames(frame, [piece]) == [frame.(data := piece)] + DataFrames(frame, []);
    } else {
      assert (pieces + [piece])[1..] == pieces[1..] + [piece];
      DataFramesSnoc(frame, pieces[1..], piece);
    }
  }

  lemma {:induction false} BatchSizeBounds(pending: seq<InFrame>, taken: nat, bytes: nat)
    requires taken <= |pending|
    ensures taken <= BatchSize(pending, taken, bytes) <= |pending|
    ensures taken == 0 && pending != [] ==> BatchSize(pending, taken, bytes) > 0
    decreases |pending| - taken
  {
    if taken < |pending| {
      var size := ByteLength(pending[taken].data);
      if !(taken > 0 && bytes + size > TERMINAL_FRAME_LIMIT) && bytes + size < TERMINAL_FRAME_LIMIT {
        BatchSizeBounds(pending, taken + 1, bytes + size);
      }
    }
  }

  // ----- The class -----

  class RpcTerminalClient {
    var identity: Identity
    const maxBufferedBytes: nat
    const hasOutput: bool
    var opening: bool
    var running: bool
    var disposed: bool
    var fenced: bool
    var pending: seq<InFrame>
    var pendingBytes: int
    var inputSeq: nat
    var batch: Option<Batch>
    var outputSeq: nat
    var listeners: nat
    var initialOutput: seq<string>
    var initialOutputBytes: int
    ghost var sent: seq<Sent>
    ghost var accepted: string
    ghost var handed: seq<string>
    ghost var shown: seq<string>

    ghost function View(): Client
      reads this
    {
      Client(identity, maxBufferedBytes, hasOutput, opening, running, disposed, fenced, pending, pendingBytes, inputSeq,
             batch, outputSeq, listeners, initialOutput, initialOutputBytes, sent, accepted, handed, shown)
    }

    constructor (identity: Identity, maxBufferedBytes: nat, hasOutput: bool)
      ensures View() == Fresh(identity, maxBufferedBytes, hasOutput)
    {
      this.identity, this.maxBufferedBytes, this.hasOutput := identity, maxBufferedBytes, hasOutput;
      opening, running, disposed, fenced := false, false, false, false;
      pending, pendingBytes, inputSeq, batch := [], 0, 0, None;
      outputSeq, listeners, initialOutput, initialOutputBytes := 0, 0, [], 0;
      sent, accepted, handed, shown := [], "", [], [];
    }

    method Open()
      modifies this`opening
      ensures View() == OpenStep(old(View()))
    {
      if !disposed && !fenced {
        opening := true;
      }
    }

    method Opened(ok: bool)
      requires opening
      modifies this`opening, this`running
      ensures View() == OpenEnds(old(View()), ok)
    {
      opening := false;
      if ok {
        running := true;
      }
    }

    method EnqueueFrame(frame: InFrame) returns (ok: bool)
      modifies this
      ensures (View(), ok) == Enqueue(old(View()), frame)
    {
      hide ByteLength, Pieces, ControlCount, DataFrames;
      if disposed || fenced {
        return false;
      }
      var dataBytes := ByteLength(frame.data);
      if dataBytes > maxBufferedBytes - pendingBytes {
        return false;
      }
      if frame.data != "" && dataBytes > TERMINAL_FRAME_LIMIT {
        var chunks := SplitByBytes(frame.data, TERMINAL_FRAME_LIMIT);
        PiecesSpellTheValue(frame.data, TERMINAL_FRAME_LIMIT);
        assert forall i :: 0 <= i < |chunks| ==> chunks[i] in chunks;
        PushChunks(frame, chunks);
        accepted := accepted + frame.data;
        return true;
      }
      PushFrame(frame);
      accepted := accepted + frame.data;
      return true;
    }

    method PushChunks(frame: InFrame, chunks: seq<string>)
      requires forall i :: 0 <= i < |chunks| ==> chunks[i] != ""
      modifies this`pending, this`pendingBytes
      ensures pending == old(pending) + DataFrames(frame, chunks)
      ensures pendingBytes == old(pendingBytes) + ByteLength(Concat(chunks))
    {
      hide ByteLength, ControlCount, DataFrames, Concat;
      var i := 0;
      NoFrames(frame);
      assert chunks[..0] == [];
      while i < |chunks|
        invariant 0 <= i <= |chunks|
        invariant pending == old(pending) + DataFrames(frame, chunks[..i])
        invariant pendingBytes == old(pendingBytes) + ByteLength(Concat(chunks[..i]))
      {
        assert chunks[..i + 1] == chunks[..i] + [chunks[i]];
        DataFramesSnoc(frame, chunks[..i], chunks[i]);
        ConcatSnoc(chunks[..i], chunks[i]);
        ByteLengthConcat(Concat(chunks[..i]), chunks[i]);
        PushFrame(frame.(data := chunks[i]));
        assert pending == old(pending) + (DataFrames(frame, chunks[..i]) + [frame.(data := chunks[i])]);
        i := i + 1;
      }
      assert chunks[..i] == chunks;
    }

    lemma NoFrames(frame: InFrame)
      ensures DataFrames(frame, []) == [] && ByteLength(Concat([])) == 0
    {
    }

    method PushFrame(frame: InFrame)
      modifies this`pending, this`pendingBytes
      ensures View() == old(View()).(pending := Push(old(pending), frame),
                                     pendingBytes := old(pendingBytes) + ByteLength(frame.data))
    {
      if frame.data == "" && frame.kind != Dispose {
        if pending != [] && pending[|pending| - 1].kind == frame.kind {
          var last := pending[|pending| - 1];
          pending := pending[|pending| - 1 := last.(cols := frame.cols, rows := frame.rows)];
          return;
        }
        if ControlCount(pending) >= 64 {
          return;
        }
      }
      pending := pending + [frame];
      pendingBytes := pendingBytes + (if frame.data != "" then ByteLength(frame.data) else 0);
    }

    /** The inner loop of `drainInput`, which shifts frames off the queue. */
    method StartBatch()
      modifies this`pending, this`pendingBytes, this`batch
      ensures View() == TakeBatch(old(View()))
    {
      hide BatchSize, DataBytes;
      if batch.Some? || pending == [] || !running || disposed || fenced {
        return;
      }
      var frames, rest, bytes := TakeFrames(pending);
      pending, pendingBytes := rest, pendingBytes - bytes;
      batch := Some(Batch(identity.bootNonce, frames, bytes, 0));
    }

    /** One `atomicWrite` of the batch, ending well or not. */
    method FinishWrite(ok: bool)
      modifies this
      ensures View() == if ok then FrameWritten(old(View())) else FrameFailed(old(View()))
    {
      if batch.None? || batch.value.done >= |batch.value.frames| {
        return;
      }
      var b := batch.value;
      inputSeq := inputSeq + 1;
      if ok {
        sent := sent + [Sent(inputSeq, b.nonce, b.frames[b.done])];
        batch := if b.done + 1 == |b.frames| then None else Some(b.(done := b.done + 1));
      } else {
        pending := b.frames + pending;
        pendingBytes := pendingBytes + b.bytes;
        batch := None;
      }
    }

    method Fence()
      modifies this`fenced, this`running, this`pending, this`pendingBytes
      ensures View() == FenceStep(old(View()))
    {
      if disposed || fenced {
        return;
      }
      fenced, running, pending, pendingBytes := true, false, [], 0;
    }

    /** The part of `renewBootNonce` after its fence. */
    method RenewNonce(nonce: string)
      modifies this`identity, this`outputSeq, this`fenced, this`handed
      ensures View() == RenewStep(old(View()), nonce)
    {
      identity := identity.(bootNonce := nonce);
      outputSeq, fenced, handed := 0, false, [];
    }

    method BeginDispose()
      modifies this
      ensures View() == DisposeBegin(old(View()))
    {
      if disposed || (!running && !opening) {
        return;
      }
      pending, pendingBytes := [], 0;
      var _ := EnqueueFrame(InFrame(Dispose, "", 0, 0));
    }

    method EndDispose()
      modifies this
      ensures View() == DisposeEnd(old(View()))
    {
      disposed, running, listeners, initialOutput, initialOutputBytes := true, false, 0, [], 0;
    }

    method Write(data: string) returns (ok: bool)
      modifies this`handed, this`shown, this`initialOutput, this`initialOutputBytes
      ensures ok <==> WriteStep(old(View()), data).Some?
      ensures View() == if ok then WriteStep(old(View()), data).value else old(View())
    {
      if !hasOutput && listeners == 0 {
        var available := if maxBufferedBytes - initialOutputBytes > 0 then maxBufferedBytes - initialOutputBytes else 0;
        if ByteLength(data) > available {
          return false;
        }
        initialOutput := initialOutput + [data];
        initialOutputBytes := initialOutputBytes + ByteLength(data);
      } else {
        shown := shown + [data];
      }
      handed := handed + [data];
      ok := true;
    }

    /** The body of the poll loop for one frame file. */
    method PollFrame(frame: Option<OutFrame>) returns (verdict: Verdict)
      modifies this
      ensures (View(), verdict) == ProcessFrame(old(View()), frame)
    {
      if frame.None? || frame.value.identity != identity || frame.value.sequence <= outputSeq {
        return Dropped;
      }
      if frame.value.sequence != outputSeq + 1 {
        return Waiting;
      }
      if frame.value.data != "" {
        var ok := Write(frame.value.data);
        if !ok {
          return Refused;
        }
      }
      outputSeq := frame.value.sequence;
      verdict := Taken;
    }

    method OnOutput()
      modifies this
      ensures View() == Subscribe(old(View()))
    {
      if disposed {
        return;
      }
      listeners := listeners + 1;
      shown := shown + initialOutput;
      initialOutput, initialOutputBytes := [], 0;
    }
  }
}
