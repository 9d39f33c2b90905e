/** What every asynchronous run of the terminal client keeps. */
module TerminalTransportRuns {
  import opened Text
  import opened TransportProtocol
  import opened TerminalTransport

  datatype Action =
    | Opening
    | Opened(ok: bool)
    | Send(data: string)
    | Control(kind: Kind, cols: int, rows: int)
    | Take
    | WriteDone
    | WriteFailed
    | Poll(frame: Option<OutFrame>)
    | Subscribing
    | Unsubscribing
    | Fencing
    | Renewing(nonce: string)
    | DisposeStart
    | DisposeFinish

  function Step(s: Client, a: Action): Client
  {
    match a
    case Opening => OpenStep(s)
    case Opened(ok) => OpenEnds(s, ok)
    case Send(data) => if data == "" then s else Enqueue(s, InFrame(Input, data, 0, 0)).0
    case Control(kind, cols, rows) => if kind == Input then s else Enqueue(s, InFrame(kind, "", cols, rows)).0
    case Take => TakeBatch(s)
    case WriteDone => FrameWritten(s)
    case WriteFailed => FrameFailed(s)
    case Poll(frame) => ProcessFrame(s, frame).0
    case Subscribing => Subscribe(s)
    case Unsubscribing => Unsubscribe(s)
    case Fencing => FenceStep(s)
    case Renewing(nonce) => RenewStep(s, nonce)
    case DisposeStart => DisposeBegin(s)
    case DisposeFinish => DisposeEnd(s)
  }

  function Run(s: Client, actions: seq<Action>): Client
    decreases |actions|
  {
    if actions == [] then s else Run(Step(s, actions[0]), actions[1..])
  }

  // ----- Bytes -----

  function InFlight(s: Client): nat
  {
    if s.batch.Some? then s.batch.value.bytes else 0
  }

  ghost predicate SmallFrames(frames: seq<InFrame>)
  {
    forall i :: 0 <= i < |frames| ==> ByteLength(frames[i].data) <= TERMINAL_FRAME_LIMIT
  }

  /** The counter is the queued byte sum, and queued plus in-flight bytes stay under the bound. */
  ghost predicate Accounted(s: Client)
  {
    && s.pendingBytes == DataBytes(s.pending)
    && SmallFrames(s.pending)
    && s.pendingBytes + InFlight(s) <= s.maxBufferedBytes + TERMINAL_FRAME_LIMIT
    && (s.batch.Some? ==>
          var b := s.batch.value;
          b.bytes == DataBytes(b.frames) <= TERMINAL_FRAME_LIMIT && b.done < |b.frames| && SmallFrames(b.frames))
  }

  lemma {:induction false} BatchWithinLimit(pending: seq<InFrame>, taken: nat, bytes: nat)
    requires SmallFrames(pending) && taken <= |pending|
    requires bytes == DataBytes(pending[..taken]) <= TERMINAL_FRAME_LIMIT
    ensures taken <= BatchSize(pending, taken, bytes) <= |pending|
    ensures DataBytes(pending[..BatchSize(pending, taken, bytes)]) <= TERMINAL_FRAME_LIMIT
    decreases |pending| - taken
  {
    hide ByteLength;
    if taken < |pending| {
      var size := ByteLength(pending[taken].data);
      assert pending[..taken + 1] == pending[..taken] + [pending[taken]];
      DataAppend(pending[..taken], [pending[taken]]);
      assert DataBytes([pending[taken]]) == size + DataBytes([pending[taken]][1..]);
      if !(taken > 0 && bytes + size > TERMINAL_FRAME_LIMIT) {
        assert taken == 0 ==> pending[..taken] == [];
        if bytes + size < TERMINAL_FRAME_LIMIT {
          BatchWithinLimit(pending, taken + 1, bytes + size);
        }
      }
    }
  }

  lemma PushKeepsData(pending: seq<InFrame>, frame: InFrame)
    requires SmallFrames(pending) && ByteLength(frame.data) <= TERMINAL_FRAME_LIMIT
    ensures DataBytes(Push(pending, frame)) == DataBytes(pending) + ByteLength(frame.data)
    ensures DataOf(Push(pending, frame)) == DataOf(pending) + frame.data
    ensures SmallFrames(Push(pending, frame))
  {
    hide ByteLength, DataOf, DataBytes, ControlCount;
    DataAppend(pending, [frame]);
    DataOne(frame);
    NothingHasNoBytes();
    if frame.data == "" && frame.kind != Dispose && pending != [] && pending[|pending| - 1].kind == frame.kind {
      var front, last := pending[..|pending| - 1], pending[|pending| - 1];
      var merged := last.(cols := frame.cols, rows := frame.rows);
      assert pending == front + [last] && Push(pending, frame) == front + [merged];
      DataAppend(front, [last]);
      DataAppend(front, [merged]);
      DataOne(last);
      DataOne(merged);
    }
  }

  lemma NothingHasNoBytes()
    ensures ByteLength("") == 0
  {
  }

  lemma {:induction false} DataFramesData(frame: InFrame, pieces: seq<string>)
    requires forall p :: p in pieces ==> ByteLength(p) <= TERMINAL_FRAME_LIMIT
    ensures DataOf(DataFrames(frame, pieces)) == Concat(pieces)
    ensures DataBytes(DataFrames(frame, pieces)) == ByteLength(Concat(pieces))
    ensures SmallFrames(DataFrames(frame, pieces))
  {
    if pieces != [] {
      DataFramesData(frame, pieces[1..]);
      ByteLengthConcat(pieces[0], Concat(pieces[1..]));
      assert DataFrames(frame, pieces)[1..] == DataFrames(frame, pieces[1..]);
    }
  }

  /** What one enqueue adds to the queue, whichever path it takes. */
  lemma EnqueueKeeps(s: Client, frame: InFrame)
    requires Accounted(s)
    ensures var (t, ok) := Enqueue(s, frame);
            && Accounted(t)
            && t.batch == s.batch && t.sent == s.sent && t.inputSeq == s.inputSeq
            && (ok ==> DataOf(t.pending) == DataOf(s.pending) + frame.data && t.accepted == s.accepted + frame.data)
            && (ok ==> t.pendingBytes <= t.maxBufferedBytes)
            && (!ok ==> t == s)
  {
    if Enqueue(s, frame).1 {
      if frame.data != "" && ByteLength(frame.data) > TERMINAL_FRAME_LIMIT {
        var pieces := Pieces(frame.data, TERMINAL_FRAME_LIMIT);
        PiecesSpellTheValue(frame.data, TERMINAL_FRAME_LIMIT);
        DataFramesData(frame, pieces);
        DataAppend(s.pending, DataFrames(frame, pieces));
      } else {
        PushKeepsData(s.pending, frame);
      }
    }
  }

  lemma TakeKeepsAccounts(s: Client)
    requires Accounted(s)
    ensures Accounted(TakeBatch(s))
  {
    if TakeBatch(s) != s {
      assert s.pending[..0] == [];
      BatchWithinLimit(s.pending, 0, 0);
      BatchSizeBounds(s.pending, 0, 0);
      var n := BatchSize(s.pending, 0, 0);
      assert s.pending == s.pending[..n] + s.pending[n..];
      DataAppend(s.pending[..n], s.pending[n..]);
    }
  }

  lemma WriteKeepsAccounts(s: Client)
    requires Accounted(s)
    ensures Accounted(FrameWritten(s))
  {
  }

  lemma FailureKeepsAccounts(s: Client)
    requires Accounted(s)
    ensures Accounted(FrameFailed(s))
  {
    if FrameFailed(s) != s {
      DataAppend(s.batch.value.frames, s.pending);
    }
  }

  lemma DisposeKeepsAccounts(s: Client)
    requires Accounted(s)
    ensures Accounted(DisposeBegin(s))
  {
    if DisposeBegin(s) != s {
      EnqueueKeeps(s.(pending := [], pendingBytes := 0), InFrame(Dispose, "", 0, 0));
    }
  }

  /** The input half of the state. */
  ghost predicate SameInput(s: Client, t: Client)
  {
    && t.maxBufferedBytes == s.maxBufferedBytes && t.pending == s.pending && t.pendingBytes == s.pendingBytes
    && t.batch == s.batch && t.inputSeq == s.inputSeq
    && t.sent == s.sent && t.accepted == s.accepted
  }

  predicate TouchesInput(a: Action)
  {
    a.Send? || a.Control? || a.Take? || a.WriteDone? || a.WriteFailed? || a.Fencing? || a.DisposeStart?
  }

  lemma OutputActionsLeaveInputAlone(s: Client, a: Action)
    requires !TouchesInput(a)
    ensures SameInput(s, Step(s, a))
  {
    hide ByteLength, Enqueue, TakeBatch, FrameWritten, FrameFailed, ProcessFrame;
    if a.Poll? {
      PollChangesOutput(s, a.frame);
    }
  }

  lemma PollChangesOutput(s: Client, frame: Option<OutFrame>)
    ensures var t := ProcessFrame(s, frame).0;
      t == s.(outputSeq := t.outputSeq, initialOutput := t.initialOutput, initialOutputBytes := t.initialOutputBytes,
              handed := t.handed, shown := t.shown)
  {
    hide WriteStep;
    if frame.Some? {
      WriteChangesOutput(s, frame.value.data);
    }
  }

  lemma WriteChangesOutput(s: Client, data: string)
    ensures WriteStep(s, data).Some? ==>
              var t := WriteStep(s, data).value;
              t == s.(initialOutput := t.initialOutput, initialOutputBytes := t.initialOutputBytes, handed := t.handed,
                      shown := t.shown)
  {
    hide ByteLength;
  }

  lemma EnqueueChangesInput(s: Client, frame: InFrame)
    ensures var t := Enqueue(s, frame).0; t == s.(pending := t.pending, pendingBytes := t.pendingBytes, accepted := t.accepted)
  {
    hide ByteLength, Pieces, Push, DataFrames;
  }

  lemma WritingChangesInput(s: Client, a: Action)
    requires a.Take? || a.WriteDone? || a.WriteFailed?
    ensures var t := Step(s, a);
      t == s.(pending := t.pending, pendingBytes := t.pendingBytes, inputSeq := t.inputSeq, batch := t.batch, sent := t.sent)
    ensures a.Take? ==> Step(s, a).inputSeq == s.inputSeq && Step(s, a).sent == s.sent
  {
    hide ByteLength, DataOf, DataBytes, BatchSize;
  }

  lemma SendingChangesInput(s: Client, a: Action)
    requires a.Send? || a.Control? || a.DisposeStart?
    ensures var t := Step(s, a); t == s.(pending := t.pending, pendingBytes := t.pendingBytes, accepted := t.accepted)
  {
    hide Enqueue;
    match a
    case Send(data) => EnqueueChangesInput(s, InFrame(Input, data, 0, 0));
    case Control(kind, cols, rows) => EnqueueChangesInput(s, InFrame(kind, "", cols, rows));
    case DisposeStart => EnqueueChangesInput(s.(pending := [], pendingBytes := 0), InFrame(Dispose, "", 0, 0));
  }

  lemma StepKeepsAccounts(s: Client, a: Action)
    requires Accounted(s)
    ensures Accounted(Step(s, a))
  {
    if !TouchesInput(a) {
      OutputActionsLeaveInputAlone(s, a);
    } else {
      match a
      case Send(data) => EnqueueKeeps(s, InFrame(Input, data, 0, 0));
      case Control(kind, cols, rows) => EnqueueKeeps(s, InFrame(kind, "", cols, rows));
      case Take => TakeKeepsAccounts(s);
      case WriteDone => WriteKeepsAccounts(s);
      case WriteFailed => FailureKeepsAccounts(s);
      case DisposeStart => DisposeKeepsAccounts(s);
      case Fencing =>
    }
  }

  /** Through any failures, requeues, fences, renewals and disposal, the byte counter is exact and
      queued plus in-flight input is at most the buffer plus one frame limit. */
  lemma {:induction false} InputStaysBounded(s: Client, actions: seq<Action>)
    requires Accounted(s)
    ensures Accounted(Run(s, actions))
    decreases |actions|
  {
    if actions != [] {
      StepKeepsAccounts(s, actions[0]);
      InputStaysBounded(Step(s, actions[0]), actions[1..]);
    }
  }

  lemma FreshIsAccounted(identity: Identity, maxBufferedBytes: nat, hasOutput: bool)
    ensures Accounted(Fresh(identity, maxBufferedBytes, hasOutput))
  {
  }

  // ----- Input text -----

  function SentData(sent: seq<Sent>): string
  {
    if sent == [] then "" else SentData(sent[..|sent| - 1]) + sent[|sent| - 1].frame.data
  }

  /** Text that is queued: the rest of the batch, then the queue. */
  function QueuedData(s: Client): string
  {
    (if s.batch.Some? && s.batch.value.done <= |s.batch.value.frames|
     then DataOf(s.batch.value.frames[s.batch.value.done..]) else "") + DataOf(s.pending)
  }

  /** What was sent and what is queued, joined, is what was accepted. */
  predicate SpellsInput(s: Client)
  {
    SentData(s.sent) + QueuedData(s) == s.accepted
  }

  /** The step fails a write of a batch of which text has been written already. */
  predicate Repeats(s: Client, a: Action)
  {
    a.WriteFailed? && s.batch.Some? && s.batch.value.done < |s.batch.value.frames|
    && DataOf(s.batch.value.frames[..s.batch.value.done]) != ""
  }

  predicate RepeatsNothing(s: Client, actions: seq<Action>)
    decreases |actions|
  {
    actions == [] || (!Repeats(s, actions[0]) && RepeatsNothing(Step(s, actions[0]), actions[1..]))
  }

  function Surplus(s: Client): int
  {
    |SentData(s.sent) + QueuedData(s)| - |s.accepted|
  }

  predicate KeepsQueue(a: Action)
  {
    !a.Fencing? && !a.Renewing? && !a.DisposeStart? && !a.DisposeFinish?
  }

  lemma TakeKeepsText(s: Client)
    requires Accounted(s)
    ensures QueuedData(TakeBatch(s)) == QueuedData(s)
  {
    if TakeBatch(s) != s {
      BatchSizeBounds(s.pending, 0, 0);
      var n := BatchSize(s.pending, 0, 0);
      assert s.pending == s.pending[..n] + s.pending[n..];
      DataAppend(s.pending[..n], s.pending[n..]);
      assert s.pending[..n][0..] == s.pending[..n];
    }
  }

  lemma WriteMovesOneFrame(s: Client)
    requires Accounted(s) && s.batch.Some?
    ensures var t := FrameWritten(s);
            SentData(t.sent) + QueuedData(t) == SentData(s.sent) + QueuedData(s)
  {
    hide DataOf, DataBytes, ByteLength, SmallFrames;
    var b := s.batch.value;
    var t := FrameWritten(s);
    assert t.sent[..|t.sent| - 1] == s.sent;
    var frame, rest := b.frames[b.done], b.frames[b.done + 1..];
    assert b.frames[b.done..] == [frame] + rest;
    DataAppend([frame], rest);
    DataOne(frame);
    NoData();
    if b.done + 1 == |b.frames| {
      assert rest == [];
    }
    assert QueuedData(s) == frame.data + DataOf(rest) + DataOf(s.pending);
    assert QueuedData(t) == DataOf(rest) + DataOf(s.pending);
  }

  lemma FailureRepeatsWrittenFrames(s: Client)
    requires Accounted(s) && s.batch.Some?
    ensures QueuedData(FrameFailed(s)) == DataOf(s.batch.value.frames[..s.batch.value.done]) + QueuedData(s)
  {
    hide ByteLength, DataOf, DataBytes, SmallFrames;
    var b := s.batch.value;
    DataAppend(b.frames, s.pending);
    assert b.frames == b.frames[..b.done] + b.frames[b.done..];
    DataAppend(b.frames[..b.done], b.frames[b.done..]);
  }

  /** What a step keeps: the surplus grows by exactly the text that is repeated. */
  ghost predicate Spelled(s: Client, t: Client, repeats: bool)
  {
    && (SpellsInput(s) && !repeats ==> SpellsInput(t))
    && (if repeats then Surplus(t) > Surplus(s) else Surplus(t) == Surplus(s))
  }

  lemma EnqueueSpells(s: Client, frame: InFrame)
    requires Accounted(s)
    ensures Spelled(s, Enqueue(s, frame).0, false)
  {
    hide Enqueue, Accounted, ByteLength, DataOf, SentData;
    EnqueueKeeps(s, frame);
  }

  lemma FailureSpells(s: Client)
    requires Accounted(s)
    ensures Spelled(s, FrameFailed(s), Repeats(s, WriteFailed))
  {
    hide ByteLength, DataOf, DataBytes, SmallFrames, SentData, QueuedData;
    if s.batch.Some? {
      FailureRepeatsWrittenFrames(s);
      assert "" + QueuedData(s) == QueuedData(s);
    }
  }

  lemma StepSpells(s: Client, a: Action)
    requires Accounted(s) && KeepsQueue(a)
    ensures Spelled(s, Step(s, a), Repeats(s, a))
  {
    hide Enqueue, TakeBatch, FrameWritten, FrameFailed, ByteLength, DataOf, SentData;
    if !TouchesInput(a) {
      OutputActionsLeaveInputAlone(s, a);
    } else {
      match a
      case Send(data) => EnqueueSpells(s, InFrame(Input, data, 0, 0));
      case Control(kind, cols, rows) => EnqueueSpells(s, InFrame(kind, "", cols, rows));
      case Take =>
        TakeKeepsText(s);
        TakeKeepsLogs(s);
      case WriteDone =>
        if s.batch.Some? {
          WriteMovesOneFrame(s);
        }
        WriteKeepsAccepted(s);
      case WriteFailed => FailureSpells(s);
    }
  }

  lemma TakeKeepsLogs(s: Client)
    ensures TakeBatch(s).sent == s.sent && TakeBatch(s).accepted == s.accepted
  {
  }

  lemma WriteKeepsAccepted(s: Client)
    ensures FrameWritten(s).accepted == s.accepted
    ensures s.batch.None? ==> FrameWritten(s) == s
  {
  }

  lemma {:induction false} RunSpells(s: Client, actions: seq<Action>)
    requires Accounted(s) && (SpellsInput(s) || Surplus(s) > 0)
    requires forall i :: 0 <= i < |actions| ==> KeepsQueue(actions[i])
    ensures var t := Run(s, actions);
      if SpellsInput(s) && RepeatsNothing(s, actions) then SpellsInput(t) else Surplus(t) > 0
    decreases |actions|
  {
    hide Step, Accounted, SentData, QueuedData, Repeats, KeepsQueue;
    if actions != [] {
      StepKeepsAccounts(s, actions[0]);
      StepSpells(s, actions[0]);
      RunSpells(Step(s, actions[0]), actions[1..]);
    }
  }

  /** Without fences, renewals and disposal, the written frames followed by the queue spell the accepted text if and only if
      no write failed in a batch of which text had been written already. */
  lemma InputIsExactlyOnceUnlessRepeated(identity: Identity, maxBufferedBytes: nat, hasOutput: bool, actions: seq<Action>)
    requires forall i :: 0 <= i < |actions| ==> KeepsQueue(actions[i])
    ensures SpellsInput(Run(Fresh(identity, maxBufferedBytes, hasOutput), actions))
       <==> RepeatsNothing(Fresh(identity, maxBufferedBytes, hasOutput), actions)
  {
    hide Run, RepeatsNothing;
    RunSpells(Fresh(identity, maxBufferedBytes, hasOutput), actions);
  }

  // ----- Frame numbers -----

  /** Numbers grow along the written frames. */
  ghost predicate NumbersGrow(s: Client)
  {
    && (forall i :: 0 <= i < |s.sent| ==> 1 <= s.sent[i].sequence <= s.inputSeq)
    && (forall i, j :: 0 <= i < j < |s.sent| ==> s.sent[i].sequence < s.sent[j].sequence)
  }

  ghost predicate NumbersHaveNoGap(s: Client)
  {
    |s.sent| == s.inputSeq && forall i :: 0 <= i < |s.sent| ==> s.sent[i].sequence == i + 1
  }

  lemma WrittenGrows(s: Client)
    requires NumbersGrow(s)
    ensures NumbersGrow(FrameWritten(s))
  {
    hide DataOf;
    var t := FrameWritten(s);
    if t != s {
      assert forall i :: 0 <= i < |s.sent| ==> t.sent[i] == s.sent[i];
    }
  }

  lemma FailedGrows(s: Client)
    requires NumbersGrow(s)
    ensures NumbersGrow(FrameFailed(s))
  {
    hide DataOf;
    assert FrameFailed(s).sent == s.sent && FrameFailed(s).inputSeq >= s.inputSeq;
  }

  lemma WritingNumbers(s: Client)
    requires NumbersGrow(s)
    ensures NumbersGrow(FrameWritten(s)) && NumbersGrow(FrameFailed(s))
    ensures NumbersHaveNoGap(s) ==> NumbersHaveNoGap(FrameWritten(s))
  {
    hide NumbersGrow, FrameFailed;
    WrittenGrows(s);
    FailedGrows(s);
  }

  lemma OtherActionsKeepNumbers(s: Client, a: Action)
    requires !a.WriteDone? && !a.WriteFailed?
    ensures Step(s, a).sent == s.sent && Step(s, a).inputSeq == s.inputSeq
  {
    hide ProcessFrame, Enqueue, TakeBatch;
    match a {
      case Poll(frame) => PollChangesOutput(s, frame);
      case Take => WritingChangesInput(s, a);
      case Send(_) => SendingChangesInput(s, a);
      case Control(_, _, _) => SendingChangesInput(s, a);
      case DisposeStart => SendingChangesInput(s, a);
      case _ =>
    }
  }

  /** No frame file is ever written twice, in one nonce epoch or across them. Without failed writes the
      numbers are 1, 2, 3 and so on. */
  lemma {:induction false} InputNumbersGrow(s: Client, actions: seq<Action>)
    requires NumbersGrow(s)
    ensures NumbersGrow(Run(s, actions))
    ensures NumbersHaveNoGap(s) && Action.WriteFailed !in actions ==> NumbersHaveNoGap(Run(s, actions))
    decreases |actions|
  {
    if actions != [] {
      WritingNumbers(s);
      if !actions[0].WriteDone? && !actions[0].WriteFailed? {
        OtherActionsKeepNumbers(s, actions[0]);
      }
      InputNumbersGrow(Step(s, actions[0]), actions[1..]);
    }
  }

  // ----- Output -----

  /** The host's output under one identity: its data for every frame number. */
  type HostOutput = (Identity, int) -> string

  /** Every frame read under the current identity carries what the host wrote under that number. */
  ghost predicate Authentic(s: Client, actions: seq<Action>, host: HostOutput)
    decreases |actions|
  {
    actions == [] ||
    (&& (actions[0].Poll? && actions[0].frame.Some? && actions[0].frame.value.identity == s.identity ==>
           actions[0].frame.value.data == host(s.identity, actions[0].frame.value.sequence))
     && Authentic(Step(s, actions[0]), actions[1..], host))
  }

  /** The non-empty data of frames 1 to `n`. */
  function FirstFrames(host: HostOutput, identity: Identity, n: nat): seq<string>
  {
    if n == 0 then []
    else FirstFrames(host, identity, n - 1) + (if host(identity, n) == "" then [] else [host(identity, n)])
  }

  lemma OneFrameInOrder(s: Client, frame: Option<OutFrame>, host: HostOutput)
    requires s.handed == FirstFrames(host, s.identity, s.outputSeq)
    requires frame.Some? && frame.value.identity == s.identity ==>
               frame.value.data == host(s.identity, frame.value.sequence)
    ensures var t := ProcessFrame(s, frame).0;
            t.identity == s.identity && t.handed == FirstFrames(host, t.identity, t.outputSeq)
  {
    var t := ProcessFrame(s, frame).0;
    if t != s {
      assert FirstFrames(host, s.identity, s.outputSeq + 1)
          == FirstFrames(host, s.identity, s.outputSeq)
             + (if host(s.identity, s.outputSeq + 1) == "" then [] else [host(s.identity, s.outputSeq + 1)]);
    }
  }

  lemma OtherActionsKeepEpochOutput(s: Client, a: Action)
    requires !a.Poll? && !a.Renewing?
    ensures var t := Step(s, a); t.identity == s.identity && t.handed == s.handed && t.outputSeq == s.outputSeq
  {
    hide Enqueue, TakeBatch, FrameWritten, FrameFailed;
    match a {
      case Take => WritingChangesInput(s, a);
      case WriteDone => WritingChangesInput(s, a);
      case WriteFailed => WritingChangesInput(s, a);
      case Send(_) => SendingChangesInput(s, a);
      case Control(_, _, _) => SendingChangesInput(s, a);
      case DisposeStart => SendingChangesInput(s, a);
      case _ =>
    }
  }

  /** Whatever the polls read, in whatever order they overlap: the data taken in the current nonce epoch is
      exactly that of frames 1 to `outputSeq`, once and in order. */
  lemma {:induction false} OutputIsExactlyOnceInOrder(s: Client, actions: seq<Action>, host: HostOutput)
    requires s.handed == FirstFrames(host, s.identity, s.outputSeq)
    requires Authentic(s, actions, host)
    ensures var t := Run(s, actions); t.handed == FirstFrames(host, t.identity, t.outputSeq)
    decreases |actions|
  {
    if actions != [] {
      match actions[0] {
        case Poll(frame) => OneFrameInOrder(s, frame, host);
        case Renewing(nonce) =>
        case _ => OtherActionsKeepEpochOutput(s, actions[0]);
      }
      OutputIsExactlyOnceInOrder(Step(s, actions[0]), actions[1..], host);
    }
  }

  /** A refused frame is offered again: refusing changes nothing. */
  lemma RefusalLosesNothing(s: Client, frame: Option<OutFrame>)
    ensures ProcessFrame(s, frame).1 != Taken <==> ProcessFrame(s, frame).0 == s
    ensures ProcessFrame(s, frame).1 == Taken ==> ProcessFrame(s, frame).0.outputSeq == s.outputSeq + 1
  {
  }

  /** The data of the frames taken along a run. */
  function TakenData(s: Client, actions: seq<Action>): seq<string>
    decreases |actions|
  {
    if actions == [] then []
    else
      (if actions[0].Poll? && ProcessFrame(s, actions[0].frame).1 == Taken && actions[0].frame.value.data != ""
       then [actions[0].frame.value.data] else [])
      + TakenData(Step(s, actions[0]), actions[1..])
  }

  ghost predicate OutputBuffered(s: Client)
  {
    s.initialOutput != [] ==> !s.hasOutput && s.listeners == 0
  }

  /** Until disposal, what reached a sink followed by what waits for the first subscriber is everything
      taken, in order, over all nonce epochs. */
  lemma {:induction false} OutputReachesTheSinkInOrder(s: Client, actions: seq<Action>)
    requires OutputBuffered(s)
    requires forall i :: 0 <= i < |actions| ==> !actions[i].DisposeFinish?
    ensures OutputBuffered(Run(s, actions))
    ensures var t := Run(s, actions);
            t.shown + t.initialOutput == s.shown + s.initialOutput + TakenData(s, actions)
    decreases |actions|
  {
    hide Step, OutputBuffered, ProcessFrame;
    if actions == [] {
      assert s.shown + s.initialOutput + [] == s.shown + s.initialOutput;
    } else {
      var a := actions[0];
      var t := Step(s, a);
      OutputStep(s, a);
      OutputReachesTheSinkInOrder(t, actions[1..]);
      var head := TakenData(s, [a]);
      assert [a][1..] == [];
      assert TakenData(s, actions) == head + TakenData(t, actions[1..]);
    }
  }

  lemma QuietStep(s: Client, a: Action)
    requires OutputBuffered(s) && !a.DisposeFinish? && !a.Poll?
    ensures OutputBuffered(Step(s, a)) && Step(s, a).shown + Step(s, a).initialOutput == s.shown + s.initialOutput
  {
    hide ByteLength, Pieces, Push, DataFrames, DataOf, DataBytes, BatchSize;
    assert s.shown + s.initialOutput + [] == s.shown + s.initialOutput;
  }

  lemma PollStep(s: Client, frame: Option<OutFrame>)
    requires OutputBuffered(s)
    ensures var (t, verdict) := ProcessFrame(s, frame);
      && OutputBuffered(t)
      && t.shown + t.initialOutput
         == s.shown + s.initialOutput
            + (if verdict == Taken && frame.value.data != "" then [frame.value.data] else [])
  {
    hide ByteLength;
    assert s.shown + s.initialOutput + [] == s.shown + s.initialOutput;
    if frame.Some? {
      var data := frame.value.data;
      assert s.shown + (s.initialOutput + [data]) == s.shown + s.initialOutput + [data];
      if s.initialOutput == [] {
        assert s.shown + [data] + s.initialOutput == s.shown + s.initialOutput + [data];
      }
    }
  }

  lemma OutputStep(s: Client, a: Action)
    requires OutputBuffered(s) && !a.DisposeFinish?
    ensures var t := Step(s, a);
            OutputBuffered(t) && t.shown + t.initialOutput == s.shown + s.initialOutput + TakenData(s, [a])
  {
    hide ProcessFrame, OutputBuffered;
    assert [a][1..] == [];
    assert TakenData(Step(s, a), []) == [];
    if a.Poll? {
      PollStep(s, a.frame);
      TakenOne(s, a);
    } else {
      QuietStep(s, a);
      assert s.shown + s.initialOutput + [] == s.shown + s.initialOutput;
    }
  }

  lemma TakenOne(s: Client, a: Action)
    requires a.Poll?
    ensures TakenData(s, [a])
         == if ProcessFrame(s, a.frame).1 == Taken && a.frame.value.data != "" then [a.frame.value.data] else []
  {
    hide ProcessFrame;
    assert [a][1..] == [];
    assert TakenData(Step(s, a), []) == [];
  }
}
