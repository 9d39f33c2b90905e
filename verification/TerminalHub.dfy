/** The terminal object of an instance: devices come and go, a batch command and the interactive shell share it. Every
    section of code between two awaits is one step; devices and listeners are taken not to throw. */
module TerminalHub {
  import opened Text

  // ----- Submissions -----

  predicate IsLineEnd(c: char)
  {
    c == '\r' || c == '\n'
  }

  predicate HasLineEnd(data: string)
  {
    exists i :: 0 <= i < |data| && IsLineEnd(data[i])
  }

  /** Position of the first line end, or the length. */
  function FirstLineEnd(data: string): (i: nat)
    ensures i <= |data|
  {
    if data == "" || IsLineEnd(data[0]) then 0 else 1 + FirstLineEnd(data[1..])
  }

  /** Length of the first submission: up to and with its line end, which may be two characters long. */
  function FirstLength(data: string): (n: nat)
    requires data != ""
    ensures 0 < n <= |data|
  {
    var i := FirstLineEnd(data);
    if i == |data| then |data|
    else if data[i] == '\r' && i + 1 < |data| && data[i + 1] == '\n' then i + 2
    else i + 1
  }

  function Submissions(data: string): seq<string>
  {
    if data == "" then [] else [data[..FirstLength(data)]] + Submissions(data[FirstLength(data)..])
  }

  /** No character is lost or moved by splitting. */
  lemma {:induction false} SubmissionsSpellTheData(data: string)
    ensures Concat(Submissions(data)) == data
  {
    if data != "" {
      SubmissionsSpellTheData(data[FirstLength(data)..]);
    }
  }

  lemma {:induction false} FirstLineEndIsFirst(data: string)
    ensures forall i :: 0 <= i < FirstLineEnd(data) ==> !IsLineEnd(data[i])
    ensures FirstLineEnd(data) < |data| ==> IsLineEnd(data[FirstLineEnd(data)])
  {
    if data != "" && !IsLineEnd(data[0]) {
      FirstLineEndIsFirst(data[1..]);
      assert forall i :: 1 <= i < |data| ==> data[i] == data[1..][i - 1];
    }
  }

  /** Every submission but perhaps the last ends its line. */
  lemma {:induction false} SubmissionsEndTheirLines(data: string, k: nat)
    requires k < |Submissions(data)|
    ensures Submissions(data)[k] != ""
    ensures k < |Submissions(data)| - 1 ==> HasLineEnd(Submissions(data)[k])
    decreases |data|
  {
    var n := FirstLength(data);
    FirstLineEndIsFirst(data);
    if k == 0 {
      if |Submissions(data)| > 1 {
        var first := Submissions(data)[0];
        assert data[n..] != "";
        assert first[FirstLineEnd(data)] == data[FirstLineEnd(data)];
      }
    } else {
      SubmissionsEndTheirLines(data[n..], k - 1);
    }
  }

  /** What one submission may be: a line with its end, where a carriage return does not part from its line feed; or, when
      nothing follows, a line without one. */
  predicate IsSubmission(piece: string, rest: string)
  {
    var n := |piece|;
    || (n > 0 && rest == "" && NoEndBefore(piece, n))
    || (n > 0 && piece[n - 1] == '\n' && NoEndBefore(piece, n - 1))
    || (n > 1 && piece[n - 2] == '\r' && piece[n - 1] == '\n' && NoEndBefore(piece, n - 2))
    || (n > 0 && piece[n - 1] == '\r' && NoEndBefore(piece, n - 1) && (rest != "" ==> rest[0] != '\n'))
  }

  predicate NoEndBefore(text: string, n: nat)
    requires n <= |text|
  {
    forall i :: 0 <= i < n ==> text[i] != '\r' && text[i] != '\n'
  }

  predicate AreSubmissions(pieces: seq<string>)
  {
    pieces != [] ==> IsSubmission(pieces[0], Concat(pieces[1..])) && AreSubmissions(pieces[1..])
  }

  lemma FirstIsSubmission(data: string)
    requires data != ""
    ensures IsSubmission(data[..FirstLength(data)], data[FirstLength(data)..])
  {
    FirstLineEndIsFirst(data);
  }

  lemma SubmissionIsFirst(piece: string, rest: string)
    requires IsSubmission(piece, rest)
    ensures piece + rest != "" && FirstLength(piece + rest) == |piece|
  {
    var data := piece + rest;
    FirstLineEndIsFirst(data);
    var i := FirstLineEnd(data);
    assert forall j :: 0 <= j < |piece| ==> data[j] == piece[j];
    assert rest != "" ==> data[|piece|] == rest[0];
    assert i < |data| ==> IsLineEnd(data[i]);
  }

  /** Every text is split into submissions, and a list of submissions is what its joined text is split into: there is no other
      way. */
  lemma {:induction false} SplitsIntoSubmissions(data: string)
    ensures AreSubmissions(Submissions(data))
    decreases |data|
  {
    hide FirstLength, IsSubmission;
    if data != "" {
      var n := FirstLength(data);
      FirstIsSubmission(data);
      SplitsIntoSubmissions(data[n..]);
      SubmissionsSpellTheData(data[n..]);
      assert Submissions(data)[1..] == Submissions(data[n..]);
    }
  }

  lemma {:induction false} SubmissionsAreSplitOnly(pieces: seq<string>)
    requires AreSubmissions(pieces)
    ensures Submissions(Concat(pieces)) == pieces
  {
    hide FirstLength, IsSubmission;
    if pieces != [] {
      var piece, rest := pieces[0], Concat(pieces[1..]);
      SubmissionIsFirst(piece, rest);
      SubmissionsAreSplitOnly(pieces[1..]);
      assert Concat(pieces) == piece + rest;
      assert (piece + rest)[..|piece|] == piece && (piece + rest)[|piece|..] == rest;
    }
  }

  /** One match of the line end, at `start`. */
  lemma NextSubmission(data: string, start: nat)
    requires start < |data|
    ensures var length := FirstLength(data[start..]);
            start + length <= |data|
            && Submissions(data[start..]) == [data[start..start + length]] + Submissions(data[start + length..])
  {
    hide FirstLength;
    var rest := data[start..];
    var n := FirstLength(rest);
    assert rest != "";
    assert rest[n..] == data[start + n..];
    assert rest[..n] == data[start..start + n];
  }

  lemma NoSubmission(data: string)
    requires FirstLineEnd(data) == |data|
    ensures Submissions(data) == if data == "" then [] else [data]
  {
    if data != "" {
      assert data[..|data|] == data && data[|data|..] == "";
    }
  }

  method SplitCommandSubmissions(data: string) returns (submissions: seq<string>)
    ensures submissions == Submissions(data)
  {
    hide FirstLength, FirstLineEnd, Submissions;
    submissions := [];
    var start := 0;
    assert data[0..] == data;
    while start < |data| && FirstLineEnd(data[start..]) < |data| - start
      invariant 0 <= start <= |data| && submissions + Submissions(data[start..]) == Submissions(data)
      decreases |data| - start
    {
      var length := FirstLength(data[start..]);
      NextSubmission(data, start);
      submissions := submissions + [data[start..start + length]];
      start := start + length;
    }
    if start < |data| {
      NoSubmission(data[start..]);
      submissions := submissions + [data[start..]];
    } else {
      NoSubmission("");
      assert data[start..] == "";
    }
  }

  // ----- State -----

  /** A batch call in line, waiting for the shell to be idle, about to run, running, done. */
  datatype BatchPhase = Queued | WaitingIdle | Ready | Active | Done

  /** The promise a call awaits: already resolved, or another promise and then the gate of one more call. */
  datatype Tail = Resolved | Then(previous: Tail, gate: nat)

  datatype Batch = Batch(previous: Tail, phase: BatchPhase)

  /** How a piece of input gets to the shell: at once, after the batch that held it back, or from the line of submissions. */
  datatype Way = Direct | Held | Lined

  datatype Piece = Piece(way: Way, text: string)

  datatype Shown = Shown(device: nat, text: string)

  /** Output that was taken and what each device was given; input that was taken and what the listeners were given. */
  datatype Log = Log(written: seq<string>, shown: seq<Shown>, accepted: seq<Piece>, heard: seq<Piece>)

  datatype Hub = Hub(
    maxBytes: nat, device: Option<nat>, output: seq<string>, input: seq<string>, submitted: seq<string>,
    outputBytes: int, inputBytes: int, submittedBytes: int, disposed: bool, batchActive: bool, running: bool,
    flushQueued: bool, batchTail: Tail, batches: seq<Batch>, log: Log)

  function NewHub(maxBytes: nat): Hub
  {
    Hub(maxBytes, None, [], [], [], 0, 0, 0, false, false, false, false, Resolved, [], Log([], [], [], []))
  }

  function Bytes(pieces: seq<string>): nat
  {
    if pieces == [] then 0 else Bytes(pieces[..|pieces| - 1]) + ByteLength(pieces[|pieces| - 1])
  }

  lemma {:induction false} BytesAppend(a: seq<string>, b: seq<string>)
    ensures Bytes(a + b) == Bytes(a) + Bytes(b)
    decreases |b|
  {
    if b == [] {
      assert a + b == a;
    } else {
      assert (a + b)[..|a + b| - 1] == a + b[..|b| - 1];
      BytesAppend(a, b[..|b| - 1]);
    }
  }

  lemma BytesOne(piece: string)
    ensures Bytes([piece]) == ByteLength(piece)
  {
    assert [piece][..0] == [];
  }

  lemma BytesOfNothing()
    ensures Bytes([]) == 0
  {
  }

  // ----- Logs -----

  function Tag(way: Way, texts: seq<string>): (pieces: seq<Piece>)
    ensures |pieces| == |texts|
  {
    seq(|texts|, i requires 0 <= i < |texts| => Piece(way, texts[i]))
  }

  /** What went a given way. */
  function On(way: Way, pieces: seq<Piece>): seq<string>
  {
    if pieces == [] then []
    else On(way, pieces[..|pieces| - 1]) + if pieces[|pieces| - 1].way == way then [pieces[|pieces| - 1].text] else []
  }

  lemma {:induction false} OnAppend(way: Way, a: seq<Piece>, b: seq<Piece>)
    ensures On(way, a + b) == On(way, a) + On(way, b)
    decreases |b|
  {
    if b == [] {
      assert a + b == a;
    } else {
      assert (a + b)[..|a + b| - 1] == a + b[..|b| - 1];
      OnAppend(way, a, b[..|b| - 1]);
    }
  }

  lemma {:induction false} OnTagged(way: Way, other: Way, texts: seq<string>)
    ensures On(way, Tag(other, texts)) == if way == other then texts else []
    decreases |texts|
  {
    if texts != [] {
      var front := texts[..|texts| - 1];
      assert Tag(other, texts)[..|texts| - 1] == Tag(other, front);
      OnTagged(way, other, front);
      assert texts == front + [texts[|texts| - 1]];
    }
  }

  lemma TagOne(way: Way, text: string)
    ensures Tag(way, [text]) == [Piece(way, text)]
  {
  }

  /** Adding to a log adds to the way it went, and to no other. */
  lemma LogGrows(log: seq<Piece>, way: Way, texts: seq<string>)
    ensures forall w :: On(w, log + Tag(way, texts)) == On(w, log) + if w == way then texts else []
  {
    hide Tag, On;
    forall w
      ensures On(w, log + Tag(way, texts)) == On(w, log) + if w == way then texts else []
    {
      OnAppend(w, log, Tag(way, texts));
      OnTagged(w, way, texts);
    }
  }

  function ShownTexts(shown: seq<Shown>): seq<string>
  {
    seq(|shown|, i requires 0 <= i < |shown| => shown[i].text)
  }

  function ShownOn(device: nat, texts: seq<string>): seq<Shown>
  {
    seq(|texts|, i requires 0 <= i < |texts| => Shown(device, texts[i]))
  }

  lemma ShownGrows(shown: seq<Shown>, device: nat, texts: seq<string>)
    ensures ShownTexts(shown + ShownOn(device, texts)) == ShownTexts(shown) + texts
  {
  }

  function Take(h: Hub, way: Way, texts: seq<string>): Hub
  {
    h.(log := h.log.(accepted := h.log.accepted + Tag(way, texts)))
  }

  // ----- Output -----

  /** A new device first gets everything that was held back. */
  function Attach(h: Hub, device: nat): Hub
  {
    if h.disposed || h.device == Some(device) then h
    else
      h.(device := Some(device), output := [], outputBytes := h.outputBytes - Bytes(h.output),
         log := h.log.(shown := h.log.shown + ShownOn(device, h.output)))
  }

  function Detach(h: Hub, device: Option<nat>): Hub
  {
    if device.None? || h.device == device then h.(device := None) else h
  }

  /** `prompt` tells whether the output so far ends in the shell's prompt. Output that does not fit is refused. */
  function WriteOutput(h: Hub, data: string, prompt: bool): (Hub, bool)
  {
    if data == "" then (h, true)
    else
      var seen := if prompt then FinishInteractive(h) else h;
      var log := seen.log.(written := seen.log.written + [data]);
      if seen.device.Some? then (seen.(log := log.(shown := log.shown + ShownOn(seen.device.value, [data]))), true)
      else if ByteLength(data) + seen.outputBytes > seen.maxBytes then (seen, false)
      else (seen.(output := seen.output + [data], outputBytes := seen.outputBytes + ByteLength(data), log := log), true)
  }

  // ----- Input -----

  predicate Submission(data: string)
  {
    |data| > 1 && HasLineEnd(data)
  }

  function Room(h: Hub): int
  {
    h.maxBytes - h.inputBytes - h.submittedBytes
  }

  /** A piece handed to the shell; a line end starts a command. */
  function DeliverPiece(h: Hub, way: Way, data: string): Hub
  {
    h.(running := h.running || HasLineEnd(data), log := h.log.(heard := h.log.heard + Tag(way, [data])))
  }

  function DeliverPieces(h: Hub, way: Way, pieces: seq<string>): Hub
    decreases |pieces|
  {
    if pieces == [] then h else DeliverPiece(DeliverPieces(h, way, pieces[..|pieces| - 1]), way, pieces[|pieces| - 1])
  }

  function EnqueueSubmission(h: Hub, piece: string): Hub
  {
    Take(h, Lined, [piece]).(submitted := h.submitted + [piece], submittedBytes := h.submittedBytes + ByteLength(piece))
  }

  /** Submissions are taken one by one as long as they fit. */
  function EnqueueSubmissions(h: Hub, pieces: seq<string>): (Hub, bool)
    decreases |pieces|
  {
    if pieces == [] then (h, true)
    else
      var (before, ok) := EnqueueSubmissions(h, pieces[..|pieces| - 1]);
      var piece := pieces[|pieces| - 1];
      if !ok || ByteLength(piece) > Room(before) then (before, false) else (EnqueueSubmission(before, piece), true)
  }

  /** Input goes straight to the shell unless a batch runs, or a command does and it is a submission. */
  predicate GoesDirect(h: Hub, data: string)
  {
    data != "" && !h.batchActive && !(h.running && Submission(data))
  }

  /** `acceptInput`: held back during a batch, in line while a command runs, else straight to the shell. */
  function AcceptInput(h: Hub, data: string): (Hub, bool)
  {
    if data == "" then (h, true)
    else if h.batchActive then
      if ByteLength(data) > Room(h) then (h, false)
      else (Take(h, Held, [data]).(input := h.input + [data], inputBytes := h.inputBytes + ByteLength(data)), true)
    else if h.running && Submission(data) then EnqueueSubmissions(h, Submissions(data))
    else (DeliverPiece(Take(h, Direct, [data]), Direct, data), true)
  }

  function ScheduleFlush(h: Hub): Hub
  {
    if h.flushQueued || h.disposed || h.submitted == [] then h else h.(flushQueued := true)
  }

  function Wake(batch: Batch): Batch
  {
    if batch.phase.WaitingIdle? then batch.(phase := Ready) else batch
  }

  /** The prompt is back: waiting batches may go on, and the next submission is scheduled. */
  function FinishInteractive(h: Hub): Hub
  {
    if !h.running then h
    else
      ScheduleFlush(h.(running := false,
                       batches := seq(|h.batches|, i requires 0 <= i < |h.batches| => Wake(h.batches[i]))))
  }

  /** A scheduled flush finds the shell free and something in line. */
  predicate Flushes(h: Hub)
  {
    h.flushQueued && !h.disposed && !h.batchActive && !h.running && h.submitted != []
  }

  /** The scheduled flush hands over one submission. */
  function RunFlush(h: Hub): Hub
  {
    var woken := h.(flushQueued := false);
    if !Flushes(h) then woken
    else
      var piece := h.submitted[0];
      DeliverPiece(woken.(submitted := h.submitted[1..], submittedBytes := h.submittedBytes - ByteLength(piece)), Lined, piece)
  }

  function FlushInput(h: Hub): Hub
  {
    DeliverPieces(h.(input := [], inputBytes := 0), Held, h.input)
  }

  // ----- Batches -----

  function SetBatch(h: Hub, i: nat, phase: BatchPhase): Hub
    requires i < |h.batches|
  {
    h.(batches := h.batches[i := h.batches[i].(phase := phase)])
  }

  /** `batchTail`: the next call waits for what this one waited for, and then for its gate. */
  function CallRunBatch(h: Hub): Hub
  {
    h.(batches := h.batches + [Batch(h.batchTail, Queued)], batchTail := Then(h.batchTail, |h.batches|))
  }

  predicate IsPhase(h: Hub, i: nat, phase: BatchPhase)
  {
    i < |h.batches| && h.batches[i].phase == phase
  }

  /** A gate is open once its call has released it. */
  predicate Settled(tail: Tail, batches: seq<Batch>)
  {
    match tail
    case Resolved => true
    case Then(previous, gate) => Settled(previous, batches) && gate < |batches| && batches[gate].phase.Done?
  }

  /** The `finally` of a call. */
  function EndBatch(h: Hub, i: nat): Hub
    requires i < |h.batches|
  {
    ScheduleFlush(FlushInput(h.(batchActive := false))).(batches := SetBatch(h, i, Done).batches)
  }

  function Dropped(h: Hub): Hub
  {
    h.(disposed := true, device := None, output := [], input := [], submitted := [], outputBytes := 0, inputBytes := 0,
       submittedBytes := 0, flushQueued := false)
  }

  function Dispose(h: Hub): Hub
  {
    if h.disposed then h else FinishInteractive(Dropped(h))
  }

  datatype Action =
    | AttachDevice(device: nat)
    | DetachDevice(which: Option<nat>)
    | Output(text: string, prompt: bool)
    | Input(data: string)
    | Flush
    | CallBatch
    | EnterBatch(batch: nat)
    | ActivateBatch(batch: nat)
    | FailBatch(batch: nat)
    | FinishBatch(batch: nat)
    | DisposeHub

  function Step(h: Hub, action: Action): Hub
  {
    match action
    case AttachDevice(device) => Attach(h, device)
    case DetachDevice(which) => Detach(h, which)
    case Output(text, prompt) => WriteOutput(h, text, prompt).0
    case Input(data) => AcceptInput(h, data).0
    case Flush => RunFlush(h)
    case CallBatch => CallRunBatch(h)
    case EnterBatch(i) =>
      if IsPhase(h, i, Queued) && Settled(h.batches[i].previous, h.batches)
      then SetBatch(h, i, if h.running then WaitingIdle else Ready) else h
    case ActivateBatch(i) => if IsPhase(h, i, Ready) then SetBatch(h, i, Active).(batchActive := true) else h
    case FailBatch(i) => if IsPhase(h, i, WaitingIdle) then EndBatch(h, i) else h
    case FinishBatch(i) => if IsPhase(h, i, Active) then EndBatch(h, i) else h
    case DisposeHub => Dispose(h)
  }

  /** The hub after the first `n` actions. */
  function After(maxBytes: nat, actions: seq<Action>, n: nat): Hub
    requires n <= |actions|
  {
    if n == 0 then NewHub(maxBytes) else Step(After(maxBytes, actions, n - 1), actions[n - 1])
  }

  // ----- Nothing is lost -----

  /** The counters are the bytes of the queues, within the limit. */
  predicate Counted(h: Hub)
  {
    && h.outputBytes == Bytes(h.output) <= h.maxBytes
    && h.inputBytes == Bytes(h.input) && h.submittedBytes == Bytes(h.submitted)
    && h.inputBytes + h.submittedBytes <= h.maxBytes
  }

  /** With a device attached no output is held back, and outside a batch no input is. Until disposal the output taken is
      what the devices were given and then what is held back, and on each way the input taken is what the listeners were
      given and then what waits there. */
  predicate Conserved(h: Hub)
  {
    && (h.device.Some? ==> h.output == [])
    && (!h.batchActive ==> h.input == [])
    && (!h.disposed ==>
          && ShownTexts(h.log.shown) + h.output == h.log.written
          && On(Direct, h.log.heard) == On(Direct, h.log.accepted)
          && On(Held, h.log.heard) + h.input == On(Held, h.log.accepted)
          && On(Lined, h.log.heard) + h.submitted == On(Lined, h.log.accepted))
  }

  lemma FinishIsQuiet(h: Hub)
    ensures var f := FinishInteractive(h);
      && f == h.(running := false, flushQueued := f.flushQueued, batches := f.batches) && |f.batches| == |h.batches|
      && (forall i :: 0 <= i < |h.batches| ==> f.batches[i] == if h.running then Wake(h.batches[i]) else h.batches[i])
  {
  }

  lemma OutputIsQuiet(h: Hub, data: string, prompt: bool)
    ensures var t, f := WriteOutput(h, data, prompt).0, if data != "" && prompt then FinishInteractive(h) else h;
      t == f.(output := t.output, outputBytes := t.outputBytes, log := f.log.(written := t.log.written, shown := t.log.shown))
  {
    hide FinishInteractive, ByteLength, ShownOn;
  }

  lemma {:induction false} DeliverIsQuiet(h: Hub, way: Way, pieces: seq<string>)
    ensures var d := DeliverPieces(h, way, pieces);
      d == h.(running := d.running, log := h.log.(heard := h.log.heard + Tag(way, pieces)))
    decreases |pieces|
  {
    if pieces == [] {
      assert h.log.heard + Tag(way, pieces) == h.log.heard;
    } else {
      var front := pieces[..|pieces| - 1];
      DeliverIsQuiet(h, way, front);
      assert Tag(way, front) + Tag(way, [pieces[|pieces| - 1]]) == Tag(way, pieces);
      assert h.log.heard + Tag(way, front) + Tag(way, [pieces[|pieces| - 1]]) == h.log.heard + Tag(way, pieces);
    }
  }

  lemma EnqueueCounts(h: Hub, piece: string)
    requires Counted(h) && Conserved(h) && ByteLength(piece) <= Room(h)
    ensures Counted(EnqueueSubmission(h, piece)) && Conserved(EnqueueSubmission(h, piece))
  {
    hide ByteLength, Bytes, Tag, On, ShownTexts;
    BytesAppend(h.submitted, [piece]);
    BytesOne(piece);
    LogGrows(h.log.accepted, Lined, [piece]);
    assert On(Lined, h.log.heard) + (h.submitted + [piece]) == On(Lined, h.log.heard) + h.submitted + [piece];
  }

  /** Lining up submissions touches nothing but their queue. */
  lemma {:induction false} SubmissionsAreCounted(h: Hub, pieces: seq<string>)
    requires Counted(h) && Conserved(h)
    ensures var e := EnqueueSubmissions(h, pieces).0;
      && Counted(e) && Conserved(e)
      && e == h.(submitted := e.submitted, submittedBytes := e.submittedBytes, log := h.log.(accepted := e.log.accepted))
    decreases |pieces|
  {
    hide Counted, Conserved, ByteLength, Tag;
    if pieces != [] {
      SubmissionsAreCounted(h, pieces[..|pieces| - 1]);
      var before, piece := EnqueueSubmissions(h, pieces[..|pieces| - 1]), pieces[|pieces| - 1];
      if before.1 && ByteLength(piece) <= Room(before.0) {
        EnqueueCounts(before.0, piece);
      }
    }
  }

  lemma AttachCounts(h: Hub, device: nat)
    requires Counted(h) && Conserved(h)
    ensures Counted(Attach(h, device)) && Conserved(Attach(h, device))
  {
    hide ByteLength, Bytes, On, ShownOn, ShownTexts;
    BytesOfNothing();
    ShownGrows(h.log.shown, device, h.output);
    assert h.log.written + [] == h.log.written;
    var shown := ShownTexts(h.log.shown) + h.output;
    assert shown + [] == shown;
  }

  lemma OutputCounts(h: Hub, data: string, prompt: bool)
    requires Counted(h) && Conserved(h)
    ensures Counted(WriteOutput(h, data, prompt).0) && Conserved(WriteOutput(h, data, prompt).0)
  {
    hide ByteLength, Bytes, FinishInteractive, On, ShownOn, ShownTexts;
    FinishIsQuiet(h);
    BytesAppend(h.output, [data]);
    BytesOne(data);
    if h.device.Some? {
      ShownGrows(h.log.shown, h.device.value, [data]);
      assert ShownTexts(h.log.shown) + [] == ShownTexts(h.log.shown);
      assert ShownTexts(h.log.shown) + [data] + [] == ShownTexts(h.log.shown) + [data];
    }
    assert ShownTexts(h.log.shown) + (h.output + [data]) == ShownTexts(h.log.shown) + h.output + [data];
  }

  lemma InputCounts(h: Hub, data: string)
    requires Counted(h) && Conserved(h)
    ensures Counted(AcceptInput(h, data).0) && Conserved(AcceptInput(h, data).0)
  {
    hide ByteLength, Bytes, EnqueueSubmissions, Submissions, HasLineEnd, Tag, On, ShownTexts;
    SubmissionsAreCounted(h, Submissions(data));
    BytesAppend(h.input, [data]);
    BytesOne(data);
    LogGrows(h.log.accepted, Held, [data]);
    LogGrows(h.log.accepted, Direct, [data]);
    LogGrows(h.log.heard, Direct, [data]);
    assert On(Held, h.log.heard) + (h.input + [data]) == On(Held, h.log.heard) + h.input + [data];
  }

  lemma FlushCounts(h: Hub)
    requires Counted(h) && Conserved(h)
    ensures Counted(RunFlush(h)) && Conserved(RunFlush(h))
  {
    hide ByteLength, Bytes, HasLineEnd, Tag, On, ShownTexts;
    if h.submitted != [] {
      BytesAppend([h.submitted[0]], h.submitted[1..]);
      BytesOne(h.submitted[0]);
      LogGrows(h.log.heard, Lined, [h.submitted[0]]);
      assert h.submitted == [h.submitted[0]] + h.submitted[1..];
      assert On(Lined, h.log.heard) + h.submitted == On(Lined, h.log.heard) + [h.submitted[0]] + h.submitted[1..];
    }
  }

  /** The end of a call changes the flags, the queue of held input, and what was heard. */
  lemma EndIsQuiet(h: Hub, i: nat)
    requires i < |h.batches|
    ensures var e := EndBatch(h, i);
      e == h.(batchActive := false, input := [], inputBytes := 0, running := e.running, flushQueued := e.flushQueued,
              batches := SetBatch(h, i, Done).batches, log := h.log.(heard := h.log.heard + Tag(Held, h.input)))
  {
    hide DeliverPieces, Tag;
    DeliverIsQuiet(h.(batchActive := false, input := [], inputBytes := 0), Held, h.input);
  }

  lemma EndCounts(h: Hub, i: nat)
    requires Counted(h) && Conserved(h) && i < |h.batches|
    ensures Counted(EndBatch(h, i)) && Conserved(EndBatch(h, i))
  {
    hide ByteLength, Bytes, EndBatch, On, Tag, ShownTexts;
    BytesOfNothing();
    EndIsQuiet(h, i);
    LogGrows(h.log.heard, Held, h.input);
    var held := On(Held, h.log.heard) + h.input;
    assert held + [] == held;
  }

  lemma DisposeCounts(h: Hub)
    requires Counted(h) && Conserved(h)
    ensures Counted(Dispose(h)) && Conserved(Dispose(h))
  {
    hide FinishInteractive, ByteLength, On, Bytes;
    BytesOfNothing();
    FinishIsQuiet(Dropped(h));
  }

  lemma StepCounts(h: Hub, action: Action)
    requires Counted(h) && Conserved(h)
    ensures Counted(Step(h, action)) && Conserved(Step(h, action))
  {
    hide ByteLength, Bytes, Attach, WriteOutput, AcceptInput, RunFlush, EndBatch, Dispose, On, ShownTexts, Settled;
    match action {
      case AttachDevice(device) => AttachCounts(h, device);
      case Output(text, prompt) => OutputCounts(h, text, prompt);
      case Input(data) => InputCounts(h, data);
      case Flush => FlushCounts(h);
      case FailBatch(i) =>
        if IsPhase(h, i, WaitingIdle) {
          EndCounts(h, i);
        }
      case FinishBatch(i) =>
        if IsPhase(h, i, Active) {
          EndCounts(h, i);
        }
      case DisposeHub => DisposeCounts(h);
      case _ =>
    }
  }

  // ----- Batches in turn -----

  /** All gates before a call, chained. */
  function TailOf(n: nat): Tail
  {
    if n == 0 then Resolved else Then(TailOf(n - 1), n - 1)
  }

  lemma {:induction false} SettledIsAllDone(batches: seq<Batch>, n: nat)
    requires n <= |batches|
    ensures Settled(TailOf(n), batches) <==> forall j :: 0 <= j < n ==> batches[j].phase.Done?
  {
    if n > 0 {
      SettledIsAllDone(batches, n - 1);
    }
  }

  /** The promises chain all earlier gates; a call that has begun found them open; the flag is up exactly while a batch
      runs. */
  predicate Serial(h: Hub)
  {
    && h.batchTail == TailOf(|h.batches|)
    && (forall i :: 0 <= i < |h.batches| ==> h.batches[i].previous == TailOf(i))
    && (forall i, j :: 0 <= j < i < |h.batches| && !h.batches[i].phase.Queued? ==> h.batches[j].phase.Done?)
    && (h.batchActive <==> exists i :: 0 <= i < |h.batches| && h.batches[i].phase.Active?)
  }

  /** Any step of one call that keeps the turn. */
  lemma PhaseKeepsSerial(h: Hub, t: Hub, i: nat, phase: BatchPhase)
    requires Serial(h) && i < |h.batches| && !phase.Queued? && !h.batches[i].phase.Done?
    requires forall j :: 0 <= j < i ==> h.batches[j].phase.Done?
    requires t.batches == SetBatch(h, i, phase).batches && t.batchTail == h.batchTail && t.batchActive == phase.Active?
    ensures Serial(t)
  {
    hide TailOf;
    assert forall j :: 0 <= j < |h.batches| && j != i ==> t.batches[j] == h.batches[j];
    assert t.batches[i] == h.batches[i].(phase := phase);
    forall j | 0 <= j < |h.batches| && j != i
      ensures j > i ==> h.batches[j].phase.Queued?
      ensures !h.batches[j].phase.Active?
    {
    }
  }

  lemma SameBatchesSerial(h: Hub, t: Hub)
    requires Serial(h) && t.batches == h.batches && t.batchActive == h.batchActive && t.batchTail == h.batchTail
    ensures Serial(t)
  {
  }

  lemma FinishKeepsSerial(h: Hub)
    requires Serial(h)
    ensures Serial(FinishInteractive(h))
  {
    hide FinishInteractive, TailOf;
    FinishIsQuiet(h);
    var f := FinishInteractive(h);
    if i :| 0 <= i < |h.batches| && h.batches[i].phase.Active? {
      assert f.batches[i].phase.Active?;
    }
  }

  lemma CallKeepsSerial(h: Hub)
    requires Serial(h)
    ensures Serial(CallRunBatch(h))
  {
    var t := CallRunBatch(h);
    if i :| 0 <= i < |h.batches| && h.batches[i].phase.Active? {
      assert t.batches[i].phase.Active?;
    }
    if i :| 0 <= i < |t.batches| && t.batches[i].phase.Active? {
      assert h.batches[i].phase.Active?;
    }
  }

  lemma InputIsQuiet(h: Hub, data: string)
    requires Counted(h) && Conserved(h)
    ensures var t := AcceptInput(h, data).0;
      && t.batches == h.batches && t.batchActive == h.batchActive && t.batchTail == h.batchTail && t.disposed == h.disposed
      && t.log.heard == h.log.heard + (if GoesDirect(h, data) then Tag(Direct, [data]) else [])
      && t.running == (h.running || (GoesDirect(h, data) && HasLineEnd(data)))
  {
    hide Counted, Conserved, EnqueueSubmissions, Submissions, HasLineEnd, ByteLength, Tag;
    SubmissionsAreCounted(h, Submissions(data));
    assert h.log.heard + [] == h.log.heard;
  }

  lemma EndKeepsSerial(h: Hub, i: nat)
    requires Serial(h) && i < |h.batches| && (h.batches[i].phase.WaitingIdle? || h.batches[i].phase.Active?)
    ensures Serial(EndBatch(h, i))
  {
    hide EndBatch, TailOf, Tag;
    EndIsQuiet(h, i);
    PhaseKeepsSerial(h, EndBatch(h, i), i, Done);
  }

  /** A call that may begin, and the one that waits or runs, is the first not done. */
  lemma BeginKeepsSerial(h: Hub, i: nat)
    requires Serial(h) && IsPhase(h, i, Queued) && Settled(h.batches[i].previous, h.batches)
    ensures Serial(SetBatch(h, i, if h.running then WaitingIdle else Ready))
  {
    hide TailOf, Settled;
    SettledIsAllDone(h.batches, i);
    var phase := if h.running then WaitingIdle else Ready;
    forall j | 0 <= j < |h.batches|
      ensures !h.batches[j].phase.Active?
    {
      assert j > i ==> h.batches[j].phase.Queued?;
    }
    PhaseKeepsSerial(h, SetBatch(h, i, phase), i, phase);
  }

  lemma StepKeepsSerial(h: Hub, action: Action)
    requires Serial(h) && Counted(h) && Conserved(h)
    ensures Serial(Step(h, action))
  {
    hide AcceptInput, EndBatch, FinishInteractive, Counted, Conserved, HasLineEnd, Serial, CallRunBatch, Settled, Tag;
    match action {
      case AttachDevice(device) => SameBatchesSerial(h, Step(h, action));
      case DetachDevice(which) => SameBatchesSerial(h, Step(h, action));
      case Output(text, prompt) =>
        FinishKeepsSerial(h);
        SameBatchesSerial(if prompt && text != "" then FinishInteractive(h) else h, Step(h, action));
      case Input(data) =>
        InputIsQuiet(h, data);
        SameBatchesSerial(h, Step(h, action));
      case Flush => SameBatchesSerial(h, Step(h, action));
      case CallBatch => CallKeepsSerial(h);
      case EnterBatch(i) =>
        if IsPhase(h, i, Queued) && Settled(h.batches[i].previous, h.batches) {
          BeginKeepsSerial(h, i);
        }
      case ActivateBatch(i) =>
        if IsPhase(h, i, Ready) {
          FirstInTurn(h, i);
          PhaseKeepsSerial(h, Step(h, action), i, Active);
        }
      case FailBatch(i) =>
        if IsPhase(h, i, WaitingIdle) {
          EndKeepsSerial(h, i);
        }
      case FinishBatch(i) =>
        if IsPhase(h, i, Active) {
          EndKeepsSerial(h, i);
        }
      case DisposeHub =>
        SameBatchesSerial(h, Dropped(h));
        FinishKeepsSerial(Dropped(h));
    }
  }

  lemma FirstInTurn(h: Hub, i: nat)
    requires Serial(h) && i < |h.batches| && !h.batches[i].phase.Queued?
    ensures forall j :: 0 <= j < i ==> h.batches[j].phase.Done?
  {
  }

  lemma NewIsOk(maxBytes: nat)
    ensures Counted(NewHub(maxBytes)) && Conserved(NewHub(maxBytes)) && Serial(NewHub(maxBytes))
  {
  }

  /** In every run: the counters are the bytes of the queues and keep within the limit; what devices and listeners were
      given and what is queued is what was taken; and a batch call that has begun found all earlier ones done. */
  lemma {:induction false} HubConservesAndSerializes(maxBytes: nat, actions: seq<Action>, n: nat)
    requires n <= |actions|
    ensures var h := After(maxBytes, actions, n); Counted(h) && Conserved(h) && Serial(h)
  {
    hide Step, Counted, Conserved, Serial;
    if n == 0 {
      NewIsOk(maxBytes);
    } else {
      HubConservesAndSerializes(maxBytes, actions, n - 1);
      StepCounts(After(maxBytes, actions, n - 1), actions[n - 1]);
      StepKeepsSerial(After(maxBytes, actions, n - 1), actions[n - 1]);
    }
  }

  lemma {:induction false} SubmissionsTaken(h: Hub, pieces: seq<string>) returns (k: nat)
    ensures k <= |pieces|
    ensures var (t, ok) := EnqueueSubmissions(h, pieces);
      t.log.accepted == h.log.accepted + Tag(Lined, pieces[..k]) && (ok <==> k == |pieces|)
    decreases |pieces|
  {
    hide ByteLength;
    if pieces == [] {
      k := 0;
      assert h.log.accepted + Tag(Lined, []) == h.log.accepted;
    } else {
      var front := pieces[..|pieces| - 1];
      k := SubmissionsTaken(h, front);
      assert front[..k] == pieces[..k];
      var t := EnqueueSubmissions(h, front);
      if t.1 && ByteLength(pieces[|pieces| - 1]) <= Room(t.0) {
        assert Tag(Lined, front) + Tag(Lined, [pieces[|pieces| - 1]]) == Tag(Lined, pieces);
        assert h.log.accepted + Tag(Lined, front) + Tag(Lined, [pieces[|pieces| - 1]]) == h.log.accepted + Tag(Lined, pieces);
        assert front[..k] == front && pieces[..|pieces|] == pieces;
        k := |pieces|;
      }
    }
  }

  lemma ConcatOne(text: string)
    ensures Concat([text]) == text
  {
    assert Concat([text]) == text + Concat([]);
  }

  /** What counts as taken: all of it, in one piece or as its submissions; or, when the sender is told that there is no
      room, the submissions that did fit. */
  lemma InputIsTaken(h: Hub, data: string) returns (taken: seq<string>)
    ensures var (t, ok) := AcceptInput(h, data);
      var way := if h.batchActive then Held else if GoesDirect(h, data) then Direct else Lined;
      && t.log.accepted == h.log.accepted + Tag(way, taken)
      && (ok ==> Concat(taken) == data)
      && (!ok ==> way != Direct && (way == Held ==> taken == []) && (way == Lined ==> taken < Submissions(data)))
  {
    hide ByteLength, HasLineEnd, EnqueueSubmissions, Submissions;
    taken := if data == "" then [] else [data];
    ConcatOne(data);
    if data != "" && h.batchActive && ByteLength(data) > Room(h) {
      taken := [];
    } else if data != "" && !h.batchActive && !GoesDirect(h, data) {
      var k := SubmissionsTaken(h, Submissions(data));
      SubmissionsSpellTheData(data);
      taken := Submissions(data)[..k];
      assert Submissions(data)[..|Submissions(data)|] == Submissions(data);
    }
    assert Concat<char>([]) == "";
    assert taken == [] ==> h.log.accepted + Tag(Held, taken) == h.log.accepted;
  }

  /** Output is taken exactly when a device is attached, which is given it at once, or when it fits behind what is held. */
  lemma OutputIsTaken(h: Hub, data: string, prompt: bool)
    requires Counted(h) && data != ""
    ensures var (t, ok) := WriteOutput(h, data, prompt);
      && (ok <==> h.device.Some? || Bytes(h.output + [data]) <= h.maxBytes)
      && t.device == h.device && t.log.written == h.log.written + (if ok then [data] else [])
      && t.log.shown == h.log.shown + (if h.device.Some? then [Shown(h.device.value, data)] else [])
      && t.output == h.output + (if ok && h.device.None? then [data] else [])
  {
    hide ByteLength, Bytes;
    FinishIsQuiet(h);
    BytesAppend(h.output, [data]);
    BytesOne(data);
    assert h.log.written + [] == h.log.written && h.log.shown + [] == h.log.shown && h.output + [] == h.output;
  }

  /** During a batch, input is held back whole exactly when it fits beside what waits. */
  lemma HeldInputFits(h: Hub, data: string)
    requires Counted(h) && h.batchActive && data != ""
    ensures var (t, ok) := AcceptInput(h, data);
      && (ok <==> Bytes(h.input + [data]) + Bytes(h.submitted) <= h.maxBytes)
      && t.input == h.input + (if ok then [data] else []) && t.submitted == h.submitted
      && t.log.heard == h.log.heard
  {
    hide ByteLength, Bytes, Tag;
    BytesAppend(h.input, [data]);
    BytesOne(data);
    assert h.input + [] == h.input;
  }

  /** While a command runs, the longest beginning of the submissions that fits is lined up. */
  lemma {:induction false} LinedInputFits(h: Hub, pieces: seq<string>) returns (k: nat)
    requires Counted(h)
    ensures k <= |pieces|
    ensures var (t, ok) := EnqueueSubmissions(h, pieces);
      && t.submitted == h.submitted + pieces[..k] && (ok <==> k == |pieces|)
      && t.submittedBytes == Bytes(h.submitted + pieces[..k]) && t.inputBytes == h.inputBytes && t.maxBytes == h.maxBytes
      && (0 < k ==> Bytes(h.input) + Bytes(h.submitted + pieces[..k]) <= h.maxBytes)
      && (k < |pieces| ==> Bytes(h.input) + Bytes(h.submitted + pieces[..k + 1]) > h.maxBytes)
    decreases |pieces|
  {
    hide ByteLength, Bytes, Tag;
    if pieces == [] {
      k := 0;
      assert h.submitted + pieces[..k] == h.submitted;
    } else {
      var n := |pieces| - 1;
      var front := pieces[..n];
      k := LinedInputFits(h, front);
      var (before, ok) := EnqueueSubmissions(h, front);
      assert front[..k] == pieces[..k];
      assert k < n ==> front[..k + 1] == pieces[..k + 1];
      if ok {
        assert h.submitted + pieces[..n + 1] == h.submitted + pieces[..n] + [pieces[n]];
        BytesAppend(h.submitted + pieces[..n], [pieces[n]]);
        BytesOne(pieces[n]);
        if ByteLength(pieces[n]) <= Room(before) {
          k := n + 1;
        }
      }
    }
  }

  /** So the sender is told that there is no room exactly when not all of them fit. */
  lemma LinedInputIsTaken(h: Hub, data: string)
    requires Counted(h) && !h.batchActive && h.running && |data| > 1
    requires exists i :: 0 <= i < |data| && (data[i] == '\r' || data[i] == '\n')
    ensures var (t, ok) := AcceptInput(h, data);
      && (ok <==> Bytes(h.input) + Bytes(h.submitted + Submissions(data)) <= h.maxBytes)
      && t.log.heard == h.log.heard && t.input == h.input
  {
    hide ByteLength, Bytes, Tag, Submissions;
    var end :| 0 <= end < |data| && (data[end] == '\r' || data[end] == '\n');
    assert IsLineEnd(data[end]);
    var pieces := Submissions(data);
    var k := LinedInputFits(h, pieces);
    assert pieces[..|pieces|] == pieces;
    if k < |pieces| {
      assert h.submitted + pieces == h.submitted + pieces[..k + 1] + pieces[k + 1..];
      BytesAppend(h.submitted + pieces[..k + 1], pieces[k + 1..]);
    } else if k == 0 {
      assert h.submitted + pieces == h.submitted;
    }
    EnqueueHearsNothing(h, pieces);
  }

  /** All other input goes straight to the shell, and is always taken: to an idle shell, and to a command when it is one
      character or holds no line end. */
  lemma OtherInputGoesStraight(h: Hub, data: string)
    requires data != "" && !h.batchActive
    requires !h.running || |data| == 1 || forall i :: 0 <= i < |data| ==> data[i] != '\r' && data[i] != '\n'
    ensures var (t, ok) := AcceptInput(h, data);
      && ok && t.log.heard == h.log.heard + [Piece(Direct, data)] && t.submitted == h.submitted && t.input == h.input
      && (t.running <==> h.running || exists i :: 0 <= i < |data| && (data[i] == '\r' || data[i] == '\n'))
  {
    hide Tag;
    TagOne(Direct, data);
    if i :| 0 <= i < |data| && (data[i] == '\r' || data[i] == '\n') {
      assert IsLineEnd(data[i]);
    }
  }

  /** The hub lets go of everything when it is disposed of: nothing waits, nothing runs, nothing is attached. */
  lemma DisposalLetsGo(h: Hub)
    requires !h.disposed
    ensures var t := Dispose(h);
      && t.disposed && t.device == None && !t.running && !t.flushQueued && t.output == [] && t.input == [] && t.submitted == []
      && t.log == h.log && (forall i :: 0 <= i < |h.batches| ==> t.batches[i] == if h.running then Wake(h.batches[i]) else h.batches[i])
      && t.batchActive == h.batchActive
  {
    FinishIsQuiet(Dropped(h));
  }

  lemma {:induction false} EnqueueHearsNothing(h: Hub, pieces: seq<string>)
    ensures var t := EnqueueSubmissions(h, pieces).0; t.log.heard == h.log.heard && t.input == h.input
    decreases |pieces|
  {
    hide ByteLength, Tag;
    if pieces != [] {
      EnqueueHearsNothing(h, pieces[..|pieces| - 1]);
    }
  }
}
