/** Which control frames reach the host: the latest of a kind survives merging, failed writes and repeats. */
module TerminalControls {
  import opened Text
  import opened TransportProtocol
  import opened TerminalTransport
  import opened TerminalTransportRuns

  /** Columns and rows of the last frame of the kind. */
  function Latest(frames: seq<InFrame>, kind: Kind): Option<(int, int)>
  {
    if frames == [] then None
    else
      var last := frames[|frames| - 1];
      if last.kind == kind then Some((last.cols, last.rows)) else Latest(frames[..|frames| - 1], kind)
  }

  lemma {:induction false} LatestAppend(a: seq<InFrame>, b: seq<InFrame>, kind: Kind)
    ensures Latest(a + b, kind) == if Latest(b, kind).Some? then Latest(b, kind) else Latest(a, kind)
    decreases |b|
  {
    if b == [] {
      assert a + b == a;
    } else {
      assert (a + b)[..|a + b| - 1] == a + b[..|b| - 1];
      LatestAppend(a, b[..|b| - 1], kind);
    }
  }

  lemma LatestOne(frame: InFrame, kind: Kind)
    ensures Latest([frame], kind) == if frame.kind == kind then Some((frame.cols, frame.rows)) else None
  {
  }

  /** How many frames carry no data. */
  function Bare(frames: seq<InFrame>): nat
  {
    if frames == [] then 0
    else Bare(frames[..|frames| - 1]) + if frames[|frames| - 1].data == "" then 1 else 0
  }

  lemma {:induction false} BareIsCounted(frames: seq<InFrame>)
    ensures ControlCount(frames) == Bare(frames)
  {
    if frames != [] {
      BareIsCounted(frames[1..]);
      BareFirst(frames);
    }
  }

  lemma {:induction false} BareFirst(frames: seq<InFrame>)
    requires frames != []
    ensures Bare(frames) == (if frames[0].data == "" then 1 else 0) + Bare(frames[1..])
  {
    var n := |frames| - 1;
    if n > 0 {
      BareFirst(frames[..n]);
      assert frames[..n][1..] == frames[1..][..n - 1];
    } else {
      assert frames[..0] == [] && frames[1..] == [];
    }
  }

  // ----- One push -----

  /** There is room for a control frame: one of its kind waits last, or fewer than 64 frames without data wait. A dispose
      frame always has. */
  predicate HasPlace(pending: seq<InFrame>, kind: Kind)
  {
    kind == Dispose || Bare(pending) < 64 || (pending != [] && pending[|pending| - 1].kind == kind)
  }

  /** Pushing changes the latest frame of its own kind alone, and not even that one only when it has no place. */
  lemma PushIsLatest(pending: seq<InFrame>, frame: InFrame, kind: Kind)
    ensures Latest(Push(pending, frame), kind)
         == if frame.kind == kind && (frame.data != "" || HasPlace(pending, kind)) then Some((frame.cols, frame.rows))
            else Latest(pending, kind)
    ensures |Push(pending, frame)| <= |pending| + 1
  {
    hide Latest, Bare, ControlCount;
    BareIsCounted(pending);
    LatestAppend(pending, [frame], kind);
    LatestOne(frame, kind);
    if pending != [] && pending[|pending| - 1].kind == frame.kind {
      MergedIsLatest(pending, frame, kind);
    }
  }

  lemma MergedIsLatest(pending: seq<InFrame>, frame: InFrame, kind: Kind)
    requires pending != [] && pending[|pending| - 1].kind == frame.kind
    ensures var last := |pending| - 1;
      Latest(pending[last := pending[last].(cols := frame.cols, rows := frame.rows)], kind)
      == if frame.kind == kind then Some((frame.cols, frame.rows)) else Latest(pending, kind)
  {
    hide Latest;
    var front, last := pending[..|pending| - 1], pending[|pending| - 1];
    var merged := last.(cols := frame.cols, rows := frame.rows);
    assert pending == front + [last];
    assert pending[|pending| - 1 := merged] == front + [merged];
    LatestAppend(front, [last], kind);
    LatestAppend(front, [merged], kind);
    LatestOne(last, kind);
    LatestOne(merged, kind);
  }

  /** Never more than 64 frames without data wait because of a push, dispose frames aside. */
  lemma PushKeepsFew(pending: seq<InFrame>, frame: InFrame)
    requires frame.kind != Dispose && Bare(pending) <= 64
    ensures Bare(Push(pending, frame)) <= 64
  {
    BareIsCounted(pending);
    if pending != [] {
      var front, last := pending[..|pending| - 1], pending[|pending| - 1];
      var merged := last.(cols := frame.cols, rows := frame.rows);
      assert pending[|pending| - 1 := merged][..|pending| - 1] == front;
    }
    assert (pending + [frame])[..|pending|] == pending;
  }

  // ----- On the wire -----

  function FramesOf(sent: seq<Sent>): (frames: seq<InFrame>)
    ensures |frames| == |sent|
  {
    seq(|sent|, i requires 0 <= i < |sent| => sent[i].frame)
  }

  /** What has been written, the rest of the batch, and the queue. */
  function Wire(s: Client): seq<InFrame>
  {
    FramesOf(s.sent)
    + (if s.batch.Some? && s.batch.value.done <= |s.batch.value.frames| then s.batch.value.frames[s.batch.value.done..] else [])
    + s.pending
  }

  /** What of the batch is done was written last. */
  predicate WroteTheBatch(s: Client)
  {
    s.batch.Some? ==>
      var b := s.batch.value;
      && b.done < |b.frames| && b.done <= |s.sent|
      && b.frames[..b.done] == FramesOf(s.sent)[|s.sent| - b.done..]
  }

  lemma TakeKeepsWire(s: Client)
    ensures Wire(TakeBatch(s)) == Wire(s) && (WroteTheBatch(s) ==> WroteTheBatch(TakeBatch(s)))
  {
    hide DataBytes, ByteLength, FramesOf;
    if TakeBatch(s) != s {
      BatchSizeBounds(s.pending, 0, 0);
      var n := BatchSize(s.pending, 0, 0);
      assert s.pending[..n][0..] + s.pending[n..] == s.pending;
      assert FramesOf(s.sent) + [] == FramesOf(s.sent);
    }
  }

  lemma WriteKeepsWire(s: Client)
    requires WroteTheBatch(s)
    ensures Wire(FrameWritten(s)) == Wire(s) && WroteTheBatch(FrameWritten(s))
  {
    var t := FrameWritten(s);
    if s.batch.Some? {
      var b := s.batch.value;
      assert FramesOf(t.sent) == FramesOf(s.sent) + [b.frames[b.done]];
      assert b.frames[b.done..] == [b.frames[b.done]] + b.frames[b.done + 1..];
    }
  }

  lemma FailureKeepsLatest(s: Client, kind: Kind)
    requires WroteTheBatch(s)
    ensures Latest(Wire(FrameFailed(s)), kind) == Latest(Wire(s), kind) && WroteTheBatch(FrameFailed(s))
  {
    hide FramesOf, Latest;
    if s.batch.Some? {
      var b, all := s.batch.value, FramesOf(s.sent);
      var before, done, rest := all[..|all| - b.done], b.frames[..b.done], b.frames[b.done..] + s.pending;
      assert all == before + done;
      assert b.frames + s.pending == done + rest;
      assert Wire(s) == before + done + rest by {
        assert all + b.frames[b.done..] + s.pending == all + (b.frames[b.done..] + s.pending);
      }
      assert Wire(FrameFailed(s)) == before + done + (done + rest) by {
        assert all + [] + (b.frames + s.pending) == all + (done + rest);
      }
      LatestAppend(before + done, rest, kind);
      LatestAppend(before, done, kind);
      LatestAppend(before + done, done + rest, kind);
      LatestAppend(done, rest, kind);
    }
  }

  /** A control frame that is asked for is taken: the client is neither fenced nor gone, its queue is within the limit, and
      there is a place. */
  predicate IsTaken(s: Client, a: Action, kind: Kind)
  {
    a.Control? && a.kind == kind && !s.disposed && !s.fenced && s.pendingBytes <= s.maxBufferedBytes && HasPlace(s.pending, kind)
  }

  lemma EnqueueControl(s: Client, frame: InFrame)
    requires frame.data == ""
    ensures var (t, ok) := Enqueue(s, frame);
      && ok == (!s.disposed && !s.fenced && s.pendingBytes <= s.maxBufferedBytes)
      && t.pending == (if ok then Push(s.pending, frame) else s.pending) && t.batch == s.batch && t.sent == s.sent
  {
    hide Push, Pieces;
  }

  lemma EnqueueData(s: Client, frame: InFrame, kind: Kind)
    requires frame.data != "" && frame.kind == Input && kind != Input
    ensures var t := Enqueue(s, frame).0; Latest(t.pending, kind) == Latest(s.pending, kind) && t.batch == s.batch && t.sent == s.sent
  {
    hide ByteLength, Pieces, Push, Latest, DataFrames, HasPlace;
    PushIsLatest(s.pending, frame, kind);
    var pieces := DataFrames(frame, Pieces(frame.data, TERMINAL_FRAME_LIMIT));
    DataFramesAreInput(frame, Pieces(frame.data, TERMINAL_FRAME_LIMIT), kind);
    LatestAppend(s.pending, pieces, kind);
  }

  lemma {:induction false} DataFramesAreInput(frame: InFrame, pieces: seq<string>, kind: Kind)
    requires frame.kind != kind
    ensures Latest(DataFrames(frame, pieces), kind) == None
  {
    if pieces != [] {
      DataFramesAreInput(frame, pieces[1..], kind);
      LatestAppend([frame.(data := pieces[0])], DataFrames(frame, pieces[1..]), kind);
    }
  }

  lemma SamePending(s: Client, t: Client, kind: Kind)
    requires t.batch == s.batch && t.sent == s.sent
    ensures Latest(t.pending, kind) == Latest(s.pending, kind) ==> Latest(Wire(t), kind) == Latest(Wire(s), kind)
    ensures Latest(t.pending, kind).Some? ==> Latest(Wire(t), kind) == Latest(t.pending, kind)
    ensures WroteTheBatch(s) ==> WroteTheBatch(t)
  {
    hide Latest;
    var front := FramesOf(s.sent)
      + (if s.batch.Some? && s.batch.value.done <= |s.batch.value.frames| then s.batch.value.frames[s.batch.value.done..] else []);
    LatestAppend(front, s.pending, kind);
    LatestAppend(front, t.pending, kind);
  }

  /** What a step makes of the latest frame of a kind: the one asked for, if it is taken, and otherwise what it was. */
  lemma StepKeepsLatest(s: Client, a: Action, kind: Kind)
    requires WroteTheBatch(s) && kind != Input && !a.Fencing? && !a.DisposeStart?
    ensures Latest(Wire(Step(s, a)), kind) == (if IsTaken(s, a, kind) then Some((a.cols, a.rows)) else Latest(Wire(s), kind))
    ensures WroteTheBatch(Step(s, a))
  {
    hide Enqueue, TakeBatch, FrameWritten, FrameFailed, ProcessFrame, Push, ByteLength, Wire, WroteTheBatch, Latest, HasPlace;
    if !TouchesInput(a) {
      OutputActionsLeaveInputAlone(s, a);
      SamePending(s, Step(s, a), kind);
    } else {
      match a
      case Send(data) =>
        if data != "" {
          EnqueueData(s, InFrame(Input, data, 0, 0), kind);
          SamePending(s, Step(s, a), kind);
        }
      case Control(asked, cols, rows) =>
        if asked != Input {
          EnqueueControl(s, InFrame(asked, "", cols, rows));
          PushIsLatest(s.pending, InFrame(asked, "", cols, rows), kind);
          SamePending(s, Step(s, a), kind);
        }
      case Take => TakeKeepsWire(s);
      case WriteDone => WriteKeepsWire(s);
      case WriteFailed => FailureKeepsLatest(s, kind);
    }
  }

  /** The last of the kind that was asked for and taken. */
  function LastTaken(s: Client, actions: seq<Action>, kind: Kind): Option<(int, int)>
    decreases |actions|
  {
    if actions == [] then None
    else
      var later := LastTaken(Step(s, actions[0]), actions[1..], kind);
      if later.Some? then later
      else if IsTaken(s, actions[0], kind) then Some((actions[0].cols, actions[0].rows))
      else None
  }

  lemma {:induction false} RunKeepsLatest(s: Client, actions: seq<Action>, kind: Kind)
    requires WroteTheBatch(s) && kind != Input
    requires forall i :: 0 <= i < |actions| ==> !actions[i].Fencing? && !actions[i].DisposeStart?
    ensures var last := LastTaken(s, actions, kind);
      Latest(Wire(Run(s, actions)), kind) == if last.Some? then last else Latest(Wire(s), kind)
    decreases |actions|
  {
    hide Step, WroteTheBatch, Wire, Latest, IsTaken;
    if actions != [] {
      StepKeepsLatest(s, actions[0], kind);
      RunKeepsLatest(Step(s, actions[0]), actions[1..], kind);
    }
  }

  /** Whatever is merged, written, failed and repeated: until a fence or the disposal, the latest size among what was written
      and what still waits is the last one that was taken. */
  lemma LatestSizeSurvives(identity: Identity, maxBufferedBytes: nat, hasOutput: bool, actions: seq<Action>)
    requires forall i :: 0 <= i < |actions| ==> !actions[i].Fencing? && !actions[i].DisposeStart?
    ensures var s := Fresh(identity, maxBufferedBytes, hasOutput);
      Latest(Wire(Run(s, actions)), Resize) == LastTaken(s, actions, Resize)
  {
    hide Run, Step, LastTaken;
    RunKeepsLatest(Fresh(identity, maxBufferedBytes, hasOutput), actions, Resize);
  }
}
