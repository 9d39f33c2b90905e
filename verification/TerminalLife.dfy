/** Open, fenced, renewed, disposed: what a terminal client does at each moment, told from the actions so far. */
module TerminalLife {
  import opened Text
  import opened TransportProtocol
  import opened TerminalTransport
  import opened TerminalTransportRuns

  // ----- Runs, action by action -----

  lemma {:induction false} RunOn(s: Client, actions: seq<Action>, a: Action)
    ensures Run(s, actions + [a]) == Step(Run(s, actions), a)
    decreases |actions|
  {
    hide Step;
    if actions == [] {
      assert ([] + [a])[1..] == [];
      assert Run(s, [a]) == Run(Step(s, a), [a][1..]);
    } else {
      assert (actions + [a])[1..] == actions[1..] + [a];
      RunOn(Step(s, actions[0]), actions[1..], a);
    }
  }

  lemma Snoc(actions: seq<Action>) returns (front: seq<Action>, last: Action)
    requires actions != []
    ensures actions == front + [last]
  {
    front, last := actions[..|actions| - 1], actions[|actions| - 1];
  }

  // ----- What the actions say -----

  predicate IsDisposed(actions: seq<Action>)
  {
    DisposeFinish in actions
  }

  /** A fence was put up before the disposal, and nothing has been renewed since. */
  predicate IsFenced(actions: seq<Action>)
  {
    exists k :: 0 <= k < |actions| && FencedSince(actions, k)
  }

  predicate FencedSince(actions: seq<Action>, k: nat)
    requires k < |actions|
  {
    actions[k] == Fencing && !IsDisposed(actions[..k]) && forall j :: k < j < |actions| ==> !actions[j].Renewing?
  }

  /** An opening was begun, before the disposal and not behind a fence, and has not ended. */
  predicate IsOpening(actions: seq<Action>)
  {
    exists k :: 0 <= k < |actions| && OpeningSince(actions, k)
  }

  predicate OpeningSince(actions: seq<Action>, k: nat)
    requires k < |actions|
  {
    actions[k] == Opening && !IsDisposed(actions[..k]) && !IsFenced(actions[..k])
    && forall j :: k < j < |actions| ==> !actions[j].Opened?
  }

  /** The action stops the client: it disposes of it, or puts up a fence where there was none. */
  predicate StopsAt(actions: seq<Action>, j: nat)
    requires j < |actions|
  {
    actions[j] == DisposeFinish || (actions[j] == Fencing && !IsDisposed(actions[..j]) && !IsFenced(actions[..j]))
  }

  /** An opening has succeeded, and nothing has stopped the client since. */
  predicate IsRunning(actions: seq<Action>)
  {
    exists k :: 0 <= k < |actions| && RunningSince(actions, k)
  }

  predicate RunningSince(actions: seq<Action>, k: nat)
    requires k < |actions|
  {
    actions[k] == Opened(true) && IsOpening(actions[..k]) && forall j :: k < j < |actions| ==> !StopsAt(actions, j)
  }

  /** The nonce of the last renewal, or the one from the start. */
  predicate IsNonce(actions: seq<Action>, first: string, nonce: string)
  {
    || (exists k :: 0 <= k < |actions| && actions[k] == Renewing(nonce) && NotRenewedFrom(actions, k + 1))
    || (nonce == first && NotRenewedFrom(actions, 0))
  }

  predicate NotRenewedFrom(actions: seq<Action>, k: nat)
  {
    forall j :: k <= j < |actions| ==> !actions[j].Renewing?
  }

  lemma FencedOn(actions: seq<Action>, a: Action)
    ensures IsFenced(actions + [a]) <==> (a == Fencing && !IsDisposed(actions)) || (IsFenced(actions) && !a.Renewing?)
  {
    hide IsDisposed;
    var all := actions + [a];
    assert all[..|actions|] == actions;
    forall k | 0 <= k < |actions|
      ensures FencedSince(all, k) <==> FencedSince(actions, k) && !a.Renewing?
    {
      assert all[..k] == actions[..k] && all[k] == actions[k] && all[|actions|] == a;
    }
    assert FencedSince(all, |actions|) <==> a == Fencing && !IsDisposed(actions);
  }

  lemma OpeningOn(actions: seq<Action>, a: Action)
    ensures IsOpening(actions + [a])
       <==> (a == Opening && !IsDisposed(actions) && !IsFenced(actions)) || (IsOpening(actions) && !a.Opened?)
  {
    hide IsDisposed, IsFenced;
    var all := actions + [a];
    assert all[..|actions|] == actions;
    forall k | 0 <= k < |actions|
      ensures OpeningSince(all, k) <==> OpeningSince(actions, k) && !a.Opened?
    {
      assert all[..k] == actions[..k] && all[k] == actions[k] && all[|actions|] == a;
    }
    assert OpeningSince(all, |actions|) <==> a == Opening && !IsDisposed(actions) && !IsFenced(actions);
  }

  lemma RunningOn(actions: seq<Action>, a: Action)
    ensures IsRunning(actions + [a])
       <==> (a == Opened(true) && IsOpening(actions))
            || (IsRunning(actions) && a != DisposeFinish && !(a == Fencing && !IsDisposed(actions) && !IsFenced(actions)))
  {
    hide IsDisposed, IsFenced, IsOpening;
    var all := actions + [a];
    assert all[..|actions|] == actions;
    forall k | 0 <= k < |actions|
      ensures all[..k] == actions[..k] && all[k] == actions[k] && StopsAt(all, k) == StopsAt(actions, k)
    {
    }
    assert all[|actions|] == a;
    forall k | 0 <= k < |actions|
      ensures RunningSince(all, k) <==> RunningSince(actions, k) && !StopsAt(all, |actions|)
    {
      if RunningSince(all, k) {
        assert forall j :: k < j < |actions| ==> !StopsAt(all, j);
      }
    }
    assert RunningSince(all, |actions|) <==> a == Opened(true) && IsOpening(actions);
  }

  lemma NonceOn(actions: seq<Action>, a: Action, first: string, nonce: string)
    ensures IsNonce(actions + [a], first, nonce) <==> if a.Renewing? then nonce == a.nonce else IsNonce(actions, first, nonce)
  {
    var all := actions + [a];
    assert all[|actions|] == a;
    forall k | 0 <= k <= |actions|
      ensures NotRenewedFrom(all, k) <==> NotRenewedFrom(actions, k) && !a.Renewing?
    {
      assert forall j :: k <= j < |actions| ==> all[j] == actions[j];
    }
    assert forall k :: 0 <= k < |actions| ==> all[k] == actions[k];
    if a.Renewing? && nonce == a.nonce {
      assert all[|actions|] == Renewing(nonce) && NotRenewedFrom(all, |actions| + 1);
    }
    if k :| 0 <= k < |actions| && actions[k] == Renewing(nonce) && NotRenewedFrom(actions, k + 1) && !a.Renewing? {
      assert all[k] == Renewing(nonce) && NotRenewedFrom(all, k + 1);
    }
  }

  /** What a step does to the flags and the nonce. */
  lemma StepFlags(s: Client, a: Action)
    ensures var t := Step(s, a); var fences := a == Fencing && !s.disposed && !s.fenced;
      && t.disposed == (s.disposed || a == DisposeFinish)
      && t.fenced == ((s.fenced && !a.Renewing?) || fences)
      && t.opening == ((s.opening && !a.Opened?) || (a == Opening && !s.disposed && !s.fenced))
      && t.running == ((s.running && a != DisposeFinish && !fences) || (a == Opened(true) && s.opening))
      && t.identity == (if a.Renewing? then s.identity.(bootNonce := a.nonce) else s.identity)
      && t.hasOutput == s.hasOutput && t.maxBufferedBytes == s.maxBufferedBytes
  {
    hide Enqueue, TakeBatch, FrameWritten, FrameFailed, ProcessFrame;
    match a {
      case Send(_) => SendingChangesInput(s, a);
      case Control(_, _, _) => SendingChangesInput(s, a);
      case DisposeStart => SendingChangesInput(s, a);
      case Take => WritingChangesInput(s, a);
      case WriteDone => WritingChangesInput(s, a);
      case WriteFailed => WritingChangesInput(s, a);
      case Poll(frame) => PollChangesOutput(s, frame);
      case _ =>
    }
  }

  ghost predicate Tells(actions: seq<Action>, first: Identity, s: Client)
  {
    && s.disposed == IsDisposed(actions) && s.fenced == IsFenced(actions) && s.opening == IsOpening(actions)
    && s.running == IsRunning(actions)
    && s.identity == first.(bootNonce := s.identity.bootNonce) && IsNonce(actions, first.bootNonce, s.identity.bootNonce)
  }

  /** Whether a client is gone, fenced, opening or running, and under which nonce, is told by the actions so far. */
  lemma {:induction false} LifeIsToldByTheActions(identity: Identity, maxBufferedBytes: nat, hasOutput: bool, actions: seq<Action>)
    ensures Tells(actions, identity, Run(Fresh(identity, maxBufferedBytes, hasOutput), actions))
    decreases |actions|
  {
    hide Step, IsFenced, IsOpening, IsRunning, IsNonce;
    var s := Fresh(identity, maxBufferedBytes, hasOutput);
    if actions == [] {
      NothingSaid(identity.bootNonce);
    } else {
      var front, last := Snoc(actions);
      LifeIsToldByTheActions(identity, maxBufferedBytes, hasOutput, front);
      RunOn(s, front, last);
      StepFlags(Run(s, front), last);
      FencedOn(front, last);
      OpeningOn(front, last);
      RunningOn(front, last);
      NonceOn(front, last, identity.bootNonce, Run(s, actions).identity.bootNonce);
    }
  }

  lemma NothingSaid(first: string)
    ensures !IsFenced([]) && !IsOpening([]) && !IsRunning([]) && IsNonce([], first, first)
  {
  }

  // ----- What is taken from callers -----

  /** Input is taken exactly when there is any, the client is neither gone nor fenced, and it fits behind what waits; a batch is
      begun exactly when something waits, none is under way, and the client runs, neither gone nor fenced. */
  lemma InputIsTakenExactly(identity: Identity, maxBufferedBytes: nat, hasOutput: bool, actions: seq<Action>, data: string)
    ensures var s := Run(Fresh(identity, maxBufferedBytes, hasOutput), actions);
      && Step(s, Send(data)).accepted
         == s.accepted + (if data != "" && !IsDisposed(actions) && !IsFenced(actions)
                             && DataBytes(s.pending) + ByteLength(data) <= maxBufferedBytes then data else "")
      && (Step(s, Take).batch.Some?
          <==> s.batch.Some? || (s.pending != [] && IsRunning(actions) && !IsDisposed(actions) && !IsFenced(actions)))
      && (s.batch.None? && Step(s, Take).batch.Some? ==> IsNonce(actions, identity.bootNonce, Step(s, Take).batch.value.nonce))
  {
    hide Run, IsFenced, IsOpening, IsRunning, IsNonce, ByteLength, DataBytes, Pieces, Push, DataFrames, BatchSize;
    LifeIsToldByTheActions(identity, maxBufferedBytes, hasOutput, actions);
    FreshIsAccounted(identity, maxBufferedBytes, hasOutput);
    InputStaysBounded(Fresh(identity, maxBufferedBytes, hasOutput), actions);
    LimitsStay(Fresh(identity, maxBufferedBytes, hasOutput), actions);
    var accepted := Run(Fresh(identity, maxBufferedBytes, hasOutput), actions).accepted;
    assert accepted + "" == accepted;
  }

  lemma {:induction false} LimitsStay(s: Client, actions: seq<Action>)
    ensures Run(s, actions).maxBufferedBytes == s.maxBufferedBytes && Run(s, actions).hasOutput == s.hasOutput
    decreases |actions|
  {
    hide Step;
    if actions != [] {
      StepFlags(s, actions[0]);
      LimitsStay(Step(s, actions[0]), actions[1..]);
    }
  }

  /** Disposing of a session that is open or opening leaves a dispose frame alone in the queue, or nothing behind a fence. */
  lemma DisposalClearsTheQueue(s: Client)
    ensures Step(s, DisposeStart).pending
         == if s.disposed || (!s.running && !s.opening) then s.pending
            else if s.fenced then []
            else [InFrame(Dispose, "", 0, 0)]
  {
    hide Pieces;
    assert ByteLength("") == 0;
    assert [] + [InFrame(Dispose, "", 0, 0)] == [InFrame(Dispose, "", 0, 0)];
  }

  /** A fence empties the queue and starts nothing; what was being written may still come to its end. */
  lemma FenceClearsTheQueue(s: Client)
    ensures var t := Step(s, Fencing);
      && t.batch == s.batch
      && (if s.disposed || s.fenced then t == s else t.pending == [] && t.pendingBytes == 0 && t.fenced && !t.running)
  {
  }

  // ----- Numbers of the written frames -----

  /** The action ends a write. */
  predicate EndsWrite(s: Client, a: Action)
  {
    (a == WriteDone || a == WriteFailed) && s.batch.Some? && s.batch.value.done < |s.batch.value.frames|
  }

  function Attempts(s: Client, actions: seq<Action>): nat
    decreases |actions|
  {
    if actions == [] then 0
    else (if EndsWrite(s, actions[0]) then 1 else 0) + Attempts(Step(s, actions[0]), actions[1..])
  }

  lemma StepNumbers(s: Client, a: Action)
    ensures var t := Step(s, a);
      && t.inputSeq == s.inputSeq + (if EndsWrite(s, a) then 1 else 0)
      && t.sent == s.sent + (if EndsWrite(s, a) && a == WriteDone
                             then [Sent(t.inputSeq, s.batch.value.nonce, s.batch.value.frames[s.batch.value.done])] else [])
  {
    hide Enqueue, TakeBatch, ProcessFrame;
    assert s.sent + [] == s.sent;
    match a {
      case Send(_) => SendingChangesInput(s, a);
      case Control(_, _, _) => SendingChangesInput(s, a);
      case DisposeStart => SendingChangesInput(s, a);
      case Take => WritingChangesInput(s, a);
      case Poll(frame) => PollChangesOutput(s, frame);
      case _ =>
    }
  }

  /** Every attempt at a write uses up a number, failed or not, so none is ever used twice. */
  lemma {:induction false} AttemptsAreNumbered(s: Client, actions: seq<Action>)
    ensures Run(s, actions).inputSeq == s.inputSeq + Attempts(s, actions)
    decreases |actions|
  {
    hide Step, EndsWrite;
    if actions != [] {
      StepNumbers(s, actions[0]);
      AttemptsAreNumbered(Step(s, actions[0]), actions[1..]);
    }
  }

  // ----- Output in front of the first listener -----

  function TotalBytes(pieces: seq<string>): nat
  {
    if pieces == [] then 0 else TotalBytes(pieces[..|pieces| - 1]) + ByteLength(pieces[|pieces| - 1])
  }

  predicate HeldIsCounted(s: Client)
  {
    s.initialOutputBytes == TotalBytes(s.initialOutput) <= s.maxBufferedBytes
  }

  lemma WriteKeepsHeld(s: Client, data: string)
    requires HeldIsCounted(s)
    ensures WriteStep(s, data).None? <==>
              !s.hasOutput && s.listeners == 0 && TotalBytes(s.initialOutput + [data]) > s.maxBufferedBytes
    ensures WriteStep(s, data).Some? ==> HeldIsCounted(WriteStep(s, data).value)
  {
    hide ByteLength;
    assert (s.initialOutput + [data])[..|s.initialOutput|] == s.initialOutput;
  }

  lemma StepKeepsHeld(s: Client, a: Action)
    requires HeldIsCounted(s)
    ensures HeldIsCounted(Step(s, a))
  {
    hide Enqueue, TakeBatch, FrameWritten, FrameFailed, WriteStep;
    match a {
      case Send(_) => SendingChangesInput(s, a);
      case Control(_, _, _) => SendingChangesInput(s, a);
      case DisposeStart => SendingChangesInput(s, a);
      case Take => WritingChangesInput(s, a);
      case WriteDone => WritingChangesInput(s, a);
      case WriteFailed => WritingChangesInput(s, a);
      case Poll(frame) =>
        if frame.Some? {
          WriteKeepsHeld(s, frame.value.data);
        }
      case _ =>
    }
  }

  lemma {:induction false} HeldStaysCounted(s: Client, actions: seq<Action>)
    requires HeldIsCounted(s)
    ensures HeldIsCounted(Run(s, actions))
    decreases |actions|
  {
    hide Step, HeldIsCounted;
    if actions != [] {
      StepKeepsHeld(s, actions[0]);
      HeldStaysCounted(Step(s, actions[0]), actions[1..]);
    }
  }

  /** The verdict on a frame file: one that is unreadable, of another epoch or not new is dropped, one behind a gap waits, and
      the next one is taken unless nobody listens and it does not fit beside what is held for the first listener. */
  lemma VerdictIsTold(identity: Identity, maxBufferedBytes: nat, hasOutput: bool, actions: seq<Action>, frame: Option<OutFrame>)
    ensures var s := Run(Fresh(identity, maxBufferedBytes, hasOutput), actions); var verdict := ProcessFrame(s, frame).1;
      && (verdict == Dropped <==> frame.None? || frame.value.identity != s.identity || frame.value.sequence < s.outputSeq + 1)
      && (verdict == Waiting <==> frame.Some? && frame.value.identity == s.identity && frame.value.sequence > s.outputSeq + 1)
      && (verdict == Refused <==> frame.Some? && frame.value.identity == s.identity && frame.value.sequence == s.outputSeq + 1
                                  && frame.value.data != "" && !hasOutput && s.listeners == 0
                                  && TotalBytes(s.initialOutput + [frame.value.data]) > maxBufferedBytes)
  {
    hide Run, WriteStep, ByteLength, TotalBytes;
    var s := Fresh(identity, maxBufferedBytes, hasOutput);
    NothingHeld();
    HeldStaysCounted(s, actions);
    LimitsStay(s, actions);
    if frame.Some? {
      WriteKeepsHeld(Run(s, actions), frame.value.data);
    }
  }

  lemma NothingHeld()
    ensures TotalBytes([]) == 0
  {
  }

  /** Disposal lets go of the listeners and of what was held for them. */
  lemma DisposalLetsGo(s: Client)
    ensures var t := Step(s, DisposeFinish); t.disposed && !t.running && t.listeners == 0 && t.initialOutput == []
  {
  }

  // ----- Listeners -----

  /** Subscriptions minus ends of subscriptions. */
  function Net(actions: seq<Action>): int
  {
    if actions == [] then 0
    else
      Net(actions[..|actions| - 1])
      + (if actions[|actions| - 1] == Subscribing then 1 else if actions[|actions| - 1] == Unsubscribing then -1 else 0)
  }

  lemma NetOn(actions: seq<Action>, a: Action)
    ensures Net(actions + [a]) == Net(actions) + (if a == Subscribing then 1 else if a == Unsubscribing then -1 else 0)
  {
    assert (actions + [a])[..|actions|] == actions;
  }

  /** `n` is the most subscriptions over ends that any part of the run up to its end has, the empty part included. */
  predicate IsMostNet(actions: seq<Action>, n: int)
  {
    (forall k :: 0 <= k <= |actions| ==> Net(actions[k..]) <= n) && exists k :: 0 <= k <= |actions| && Net(actions[k..]) == n
  }

  lemma MostNetOn(actions: seq<Action>, a: Action, n: nat)
    requires IsMostNet(actions, n)
    ensures IsMostNet(actions + [a],
                      if a == Subscribing then n + 1 else if a == Unsubscribing && n > 0 then n - 1 else n)
  {
    hide Net;
    var all := actions + [a];
    forall k | 0 <= k <= |actions|
      ensures Net(all[k..]) == Net(actions[k..]) + (if a == Subscribing then 1 else if a == Unsubscribing then -1 else 0)
    {
      assert all[k..] == actions[k..] + [a];
      NetOn(actions[k..], a);
    }
    assert all[|all|..] == [];
    NetOfNothing();
    var k :| 0 <= k <= |actions| && Net(actions[k..]) == n;
    assert k <= |all| && Net(all[|all|..]) == 0;
    assert n == 0 && a == Unsubscribing ==> Net(all[|all|..]) == 0;
  }

  lemma NetOfNothing()
    ensures Net([]) == 0
  {
  }

  lemma StepListeners(s: Client, a: Action)
    ensures Step(s, a).listeners
         == if a == Subscribing && !s.disposed then s.listeners + 1
            else if a == Unsubscribing && s.listeners > 0 then s.listeners - 1
            else if a == DisposeFinish then 0
            else s.listeners
  {
    hide Enqueue, TakeBatch, FrameWritten, FrameFailed, ProcessFrame;
    match a {
      case Send(_) => SendingChangesInput(s, a);
      case Control(_, _, _) => SendingChangesInput(s, a);
      case DisposeStart => SendingChangesInput(s, a);
      case Take => WritingChangesInput(s, a);
      case WriteDone => WritingChangesInput(s, a);
      case WriteFailed => WritingChangesInput(s, a);
      case Poll(frame) => PollChangesOutput(s, frame);
      case _ =>
    }
  }

  /** How many listen: until the disposal the most subscriptions over ends that any part of the run up to its end has, and
      nobody afterwards. */
  lemma {:induction false} ListenersAreToldByTheActions(identity: Identity, maxBufferedBytes: nat, hasOutput: bool,
                                                        actions: seq<Action>)
    ensures var n := Run(Fresh(identity, maxBufferedBytes, hasOutput), actions).listeners;
      if IsDisposed(actions) then n == 0 else IsMostNet(actions, n)
    decreases |actions|
  {
    hide Step, Net, IsMostNet, Tells;
    var s := Fresh(identity, maxBufferedBytes, hasOutput);
    if actions == [] {
      NobodyYet();
    } else {
      var front, last := Snoc(actions);
      ListenersAreToldByTheActions(identity, maxBufferedBytes, hasOutput, front);
      RunOn(s, front, last);
      GoneIsTold(identity, maxBufferedBytes, hasOutput, front);
      StepListeners(Run(s, front), last);
      if !IsDisposed(front) {
        MostNetOn(front, last, Run(s, front).listeners);
      }
    }
  }

  lemma GoneIsTold(identity: Identity, maxBufferedBytes: nat, hasOutput: bool, actions: seq<Action>)
    ensures Run(Fresh(identity, maxBufferedBytes, hasOutput), actions).disposed == IsDisposed(actions)
  {
    LifeIsToldByTheActions(identity, maxBufferedBytes, hasOutput, actions);
  }

  lemma NobodyYet()
    ensures IsMostNet([], 0)
  {
    NetOfNothing();
    var none: seq<Action> := [];
    assert none[0..] == none;
  }
}
