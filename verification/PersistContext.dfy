/** Saving and clearing share one store: which of their asynchronous calls may run at the same time. Every section of
    code between two awaits is one step. */
module PersistContext {
  import opened Text

  /** A save that was started: it collects, may write, settles, and is then taken out of flight. */
  datatype Phase = Collecting | Writing | Settled(ok: bool) | Released(ok: bool)

  datatype SaveRun = SaveRun(force: bool, phase: Phase)

  /** What a call of `save` waits for: a run to try again behind, or the run whose outcome it shares. */
  datatype Waiting = Behind(run: nat) | Shares(run: nat) | Rejected(run: nat)

  /** `issued` is the number of runs that had been started when the call came in. */
  datatype Call = Call(force: bool, issued: nat, waiting: Waiting)

  datatype ClearPhase = Pending(run: Option<nat>) | Clearing | Cleared

  datatype State = State(inflight: Option<nat>, runs: seq<SaveRun>, calls: seq<Call>, cleared: bool,
                         clears: seq<ClearPhase>, dirtyRevision: nat, savedDirtyRevision: nat, captured: nat)

  datatype Action =
    | CallSave(force: bool)
    | Resume(call: nat)
    | Check(dedup: bool)
    | Fail
    | FinishWrite
    | Release
    | CallClear
    | BeginClearing(clear: nat)
    | EndClear(clear: nat)
    | MarkDirty

  function Init(): State
  {
    State(None, [], [], false, [], 0, 0, 0)
  }

  function Start(s: State, force: bool): State
  {
    s.(inflight := Some(|s.runs|), runs := s.runs + [SaveRun(force, Collecting)])
  }

  /** The body of `save`: it starts a run, shares the one in flight, or gets in line behind it. */
  function Waits(s: State, force: bool): Waiting
  {
    if s.inflight.None? then Shares(|s.runs|) else if !force then Shares(s.inflight.value) else Behind(s.inflight.value)
  }

  function Enter(s: State, force: bool): State
  {
    if s.inflight.None? then Start(s, force) else s
  }

  predicate InFlight(s: State, phase: Phase)
  {
    s.inflight.Some? && s.inflight.value < |s.runs| && s.runs[s.inflight.value].phase == phase
  }

  function SetPhase(s: State, phase: Phase): State
    requires s.inflight.Some? && s.inflight.value < |s.runs|
  {
    s.(runs := s.runs[s.inflight.value := s.runs[s.inflight.value].(phase := phase)])
  }

  predicate IsReleased(s: State, run: nat)
  {
    run < |s.runs| && s.runs[run].phase.Released?
  }

  predicate IsActive(phase: ClearPhase)
  {
    !phase.Cleared?
  }

  /** An action that is not enabled changes nothing. */
  function Step(s: State, action: Action): State
  {
    match action
    case CallSave(force) =>
      Enter(s, force).(calls := s.calls + [Call(force, |s.runs|, Waits(s, force))])
    case Resume(call) =>
      if call < |s.calls| && s.calls[call].waiting.Behind? && IsReleased(s, s.calls[call].waiting.run) then
        var run := s.calls[call].waiting.run;
        if !s.runs[run].phase.ok then s.(calls := s.calls[call := s.calls[call].(waiting := Rejected(run))])
        else Enter(s, true).(calls := s.calls[call := s.calls[call].(waiting := Waits(s, true))])
      else s
    case Check(dedup) =>
      if InFlight(s, Collecting) then
        if dedup || s.cleared then SetPhase(s, Settled(true)) else SetPhase(s, Writing).(captured := s.dirtyRevision)
      else s
    case Fail =>
      if InFlight(s, Collecting) || InFlight(s, Writing) then SetPhase(s, Settled(false)) else s
    case FinishWrite =>
      if InFlight(s, Writing) then SetPhase(s, Settled(true)).(savedDirtyRevision := s.dirtyRevision) else s
    case Release =>
      if InFlight(s, Settled(true)) then SetPhase(s, Released(true)).(inflight := None)
      else if InFlight(s, Settled(false)) then SetPhase(s, Released(false)).(inflight := None)
      else s
    case CallClear =>
      s.(cleared := true, clears := s.clears + [Pending(s.inflight)])
    case BeginClearing(clear) =>
      if clear < |s.clears| && s.clears[clear].Pending?
         && (s.clears[clear].run.Some? ==> IsReleased(s, s.clears[clear].run.value))
      then s.(clears := s.clears[clear := Clearing])
      else s
    case EndClear(clear) =>
      if clear < |s.clears| && s.clears[clear].Clearing? then s.(clears := s.clears[clear := Cleared], cleared := false)
      else s
    case MarkDirty =>
      s.(dirtyRevision := s.dirtyRevision + 1)
  }

  function Run(s: State, actions: seq<Action>): State
    decreases |actions|
  {
    if actions == [] then s else Step(Run(s, actions[..|actions| - 1]), actions[|actions| - 1])
  }

  // ----- One writer -----

  /** Exactly the run in flight is not released. */
  predicate SingleFlight(s: State)
  {
    && (s.inflight.Some? ==> s.inflight.value == |s.runs| - 1 && !s.runs[s.inflight.value].phase.Released?)
    && (forall r :: 0 <= r < |s.runs| && !s.runs[r].phase.Released? ==> s.inflight == Some(r))
  }

  /** A forced call is never served by a run that had begun before it, and only by a forced one. */
  predicate CallServed(s: State, c: Call)
  {
    match c.waiting
    case Behind(run) => c.force && run < |s.runs|
    case Shares(run) => run < |s.runs| && (c.force ==> s.runs[run].force && run >= c.issued) && (!c.force ==> run + 1 >= c.issued)
    case Rejected(run) => c.force && IsReleased(s, run) && !s.runs[run].phase.ok
  }

  predicate CallsServed(s: State)
  {
    forall i :: 0 <= i < |s.calls| ==> s.calls[i].issued <= |s.runs| && CallServed(s, s.calls[i])
  }

  lemma StepKeepsSingleFlight(s: State, action: Action)
    requires SingleFlight(s)
    ensures SingleFlight(Step(s, action))
  {
  }

  predicate Evolves(s: State, t: State)
  {
    && |s.runs| <= |t.runs|
    && (forall r :: 0 <= r < |s.runs| ==> t.runs[r].force == s.runs[r].force && (s.runs[r].phase.Released? ==> t.runs[r] == s.runs[r]))
  }

  lemma StepEvolves(s: State, action: Action)
    requires SingleFlight(s)
    ensures Evolves(s, Step(s, action))
  {
  }

  lemma ServedStays(s: State, t: State, c: Call)
    requires Evolves(s, t) && c.issued <= |s.runs| && CallServed(s, c)
    ensures CallServed(t, c)
  {
  }

  lemma EnteredIsServed(s: State, force: bool, issued: nat)
    requires SingleFlight(s) && issued <= |s.runs|
    ensures CallServed(Enter(s, force), Call(force, issued, Waits(s, force)))
  {
  }

  lemma OtherActionsKeepCalls(s: State, action: Action)
    requires SingleFlight(s) && !action.CallSave? && !action.Resume?
    ensures Step(s, action).calls == s.calls
  {
  }

  lemma StepServesCalls(s: State, action: Action)
    requires SingleFlight(s) && CallsServed(s)
    ensures CallsServed(Step(s, action))
  {
    hide CallServed, SingleFlight, InFlight, SetPhase, Waits;
    var t := Step(s, action);
    StepEvolves(s, action);
    forall i | 0 <= i < |s.calls|
      ensures CallServed(t, s.calls[i])
    {
      ServedStays(s, t, s.calls[i]);
    }
    match action {
      case CallSave(force) =>
        EnteredIsServed(s, force, |s.runs|);
        SameRunsServeTheSame(Enter(s, force), t, Call(force, |s.runs|, Waits(s, force)));
      case Resume(call) =>
        ResumedIsServed(s, call);
      case _ =>
        OtherActionsKeepCalls(s, action);
    }
  }

  lemma SameRunsServeTheSame(s: State, t: State, c: Call)
    requires s.runs == t.runs
    ensures CallServed(s, c) == CallServed(t, c)
  {
  }

  lemma ResumedIsServed(s: State, call: nat)
    requires SingleFlight(s) && CallsServed(s)
    ensures var t := Step(s, Resume(call));
      |t.calls| == |s.calls|
      && (forall i :: 0 <= i < |s.calls| && t.calls[i] != s.calls[i] ==>
            t.calls[i].issued == s.calls[i].issued && CallServed(t, t.calls[i]))
  {
  }

  /** In every reachable state at most one save is at work, and every call is served as promised. */
  lemma {:induction false} AtMostOneSaveRuns(actions: seq<Action>)
    ensures SingleFlight(Run(Init(), actions)) && CallsServed(Run(Init(), actions))
    decreases |actions|
  {
    hide Step, SingleFlight, CallsServed;
    if actions == [] {
      NothingIsSingleFlight();
    } else {
      AtMostOneSaveRuns(actions[..|actions| - 1]);
      StepKeepsSingleFlight(Run(Init(), actions[..|actions| - 1]), actions[|actions| - 1]);
      StepServesCalls(Run(Init(), actions[..|actions| - 1]), actions[|actions| - 1]);
    }
  }

  lemma NothingIsSingleFlight()
    ensures SingleFlight(Init()) && CallsServed(Init())
  {
  }

  // ----- Saving against clearing -----

  predicate OneActive(s: State)
  {
    forall i, j :: 0 <= i < j < |s.clears| ==> !(IsActive(s.clears[i]) && IsActive(s.clears[j]))
  }

  predicate NoneActive(s: State)
  {
    forall i :: 0 <= i < |s.clears| ==> !IsActive(s.clears[i])
  }

  /** No clear is called while another is under way. */
  predicate OneClearAtATime(actions: seq<Action>)
    decreases |actions|
  {
    actions == []
    || (OneClearAtATime(actions[..|actions| - 1])
        && (actions[|actions| - 1].CallClear? ==> NoneActive(Run(Init(), actions[..|actions| - 1]))))
  }

  predicate Overlap(s: State)
  {
    InFlight(s, Writing) && exists i :: 0 <= i < |s.clears| && s.clears[i].Clearing?
  }

  /** While the one clear is under way the flag is up, so only the run it waits for may still write. */
  predicate Fenced(s: State)
  {
    && OneActive(s)
    && (forall i :: 0 <= i < |s.clears| && IsActive(s.clears[i]) ==>
          && s.cleared
          && (InFlight(s, Writing) ==> s.clears[i] == Pending(s.inflight)))
  }

  lemma StepKeepsFence(s: State, action: Action)
    requires SingleFlight(s) && Fenced(s) && (action.CallClear? ==> NoneActive(s))
    ensures Fenced(Step(s, action))
  {
    var t := Step(s, action);
    assert forall i :: 0 <= i < |s.clears| && IsActive(s.clears[i]) ==> OneActive(s);
    match action {
      case BeginClearing(clear) =>
        assert forall i :: 0 <= i < |t.clears| && i != clear ==> t.clears[i] == s.clears[i];
      case EndClear(clear) =>
        assert forall i :: 0 <= i < |t.clears| && i != clear ==> t.clears[i] == s.clears[i];
      case _ =>
    }
  }

  lemma {:induction false} FenceHolds(actions: seq<Action>)
    requires OneClearAtATime(actions)
    ensures Fenced(Run(Init(), actions))
    decreases |actions|
  {
    hide Step, Fenced, SingleFlight, CallsServed;
    if actions == [] {
      NothingIsFenced();
    } else {
      var front := actions[..|actions| - 1];
      FenceHolds(front);
      AtMostOneSaveRuns(front);
      StepKeepsFence(Run(Init(), front), actions[|actions| - 1]);
    }
  }

  lemma NothingIsFenced()
    ensures Fenced(Init())
  {
  }

  /** With one clear at a time, no save ever writes while a clear deletes. */
  lemma SavesAndClearsDoNotOverlap(actions: seq<Action>)
    requires OneClearAtATime(actions)
    ensures !Overlap(Run(Init(), actions))
  {
    FenceHolds(actions);
  }

  /** A clear that waits, waits for a run that was started. */
  predicate WaitsForRuns(s: State)
  {
    forall i :: 0 <= i < |s.clears| && s.clears[i].Pending? && s.clears[i].run.Some? ==> s.clears[i].run.value < |s.runs|
  }

  lemma StepKeepsWaiting(s: State, action: Action)
    requires SingleFlight(s) && WaitsForRuns(s)
    ensures WaitsForRuns(Step(s, action))
  {
  }

  lemma {:induction false} RunKeepsWaiting(actions: seq<Action>)
    ensures SingleFlight(Run(Init(), actions)) && WaitsForRuns(Run(Init(), actions))
    decreases |actions|
  {
    hide Step, SingleFlight, CallsServed, WaitsForRuns;
    AtMostOneSaveRuns(actions);
    if actions == [] {
      NothingWaits();
    } else {
      RunKeepsWaiting(actions[..|actions| - 1]);
      StepKeepsWaiting(Run(Init(), actions[..|actions| - 1]), actions[|actions| - 1]);
    }
  }

  lemma NothingWaits()
    ensures WaitsForRuns(Init())
  {
  }

  /** With clear `i` under way: the run in flight ends, both clears begin, and the first to end takes the flag down for
      both, so a save may write while the second deletes. */
  function BesideAnother(i: nat, second: nat): seq<Action>
  {
    [Fail, Release, BeginClearing(i), BeginClearing(second), EndClear(i), CallSave(false), Check(false)]
  }

  lemma RunSeven(s: State, a: seq<Action>)
    requires |a| == 7
    ensures Run(s, a) == Step(Step(Step(Step(Step(Step(Step(s, a[0]), a[1]), a[2]), a[3]), a[4]), a[5]), a[6])
  {
    hide Step;
    assert a[..6][..5] == a[..5] && a[..5][..4] == a[..4] && a[..4][..3] == a[..3];
    assert a[..3][..2] == a[..2] && a[..2][..1] == a[..1] && a[..1][..0] == [];
    assert Run(s, a[..1]) == Step(s, a[0]);
    assert Run(s, a[..2]) == Step(Run(s, a[..1]), a[1]);
    assert Run(s, a[..4]) == Step(Step(Run(s, a[..2]), a[2]), a[3]);
    assert Run(s, a[..6]) == Step(Step(Run(s, a[..4]), a[4]), a[5]);
  }

  lemma RunsEnd(s: State)
    requires SingleFlight(s)
    ensures var t := Step(Step(s, Fail), Release);
      && t.inflight.None? && t.cleared == s.cleared && t.clears == s.clears && |t.runs| == |s.runs|
      && (forall r :: 0 <= r < |t.runs| ==> IsReleased(t, r))
  {
    hide CallsServed;
    var failed := Step(s, Fail);
    StepKeepsSingleFlight(s, Fail);
    StepKeepsSingleFlight(failed, Release);
  }

  lemma ClearBesideAnother(s: State, i: nat)
    requires SingleFlight(s) && WaitsForRuns(s) && i < |s.clears| && IsActive(s.clears[i])
    ensures Overlap(Run(Step(s, CallClear), BesideAnother(i, |s.clears|)))
  {
    hide SingleFlight, Run;
    var j := |s.clears|;
    var called := Step(s, CallClear);
    StepKeepsSingleFlight(s, CallClear);
    CallWaits(s);
    RunSeven(called, BesideAnother(i, j));
    RunsEnd(called);
    var ended := Step(Step(called, Fail), Release);
    assert ended.clears[i] == s.clears[i] && ended.clears[j] == Pending(s.inflight);
    var first := Step(ended, BeginClearing(i));
    assert first.clears[i].Clearing? && first.clears[j] == ended.clears[j] && first.runs == ended.runs;
    var both := Step(first, BeginClearing(j));
    assert both.clears[j].Clearing? && both.clears[i].Clearing?;
    var down := Step(both, EndClear(i));
    assert !down.cleared && down.clears[j].Clearing? && down.inflight.None?;
    var saving := Step(down, CallSave(false));
    assert InFlight(saving, Collecting);
    assert Step(saving, Check(false)).clears[j].Clearing?;
  }

  lemma CallWaits(s: State)
    requires SingleFlight(s) && WaitsForRuns(s)
    ensures WaitsForRuns(Step(s, CallClear))
  {
  }

  lemma {:induction false} RunBoth(s: State, a: seq<Action>, b: seq<Action>)
    ensures Run(s, a + b) == Run(Run(s, a), b)
    decreases |b|
  {
    if b == [] {
      assert a + b == a;
    } else {
      assert (a + b)[..|a + b| - 1] == a + b[..|b| - 1];
      RunBoth(s, a, b[..|b| - 1]);
    }
  }

  lemma RunOne(s: State, action: Action)
    ensures Run(s, [action]) == Step(s, action)
  {
    assert [action][..0] == [];
  }

  lemma {:induction false} QuietContinuation(actions: seq<Action>, more: seq<Action>)
    requires OneClearAtATime(actions) && CallClear !in more
    ensures OneClearAtATime(actions + more)
    decreases |more|
  {
    hide Run;
    if more == [] {
      assert actions + more == actions;
    } else {
      assert (actions + more)[..|actions + more| - 1] == actions + more[..|more| - 1];
      QuietContinuation(actions, more[..|more| - 1]);
    }
  }

  /** When exactly one more clear is safe: no save can come to write beside a clear, however the run goes on without
      further clears, if and only if no clear is under way when it is called. */
  lemma OneMoreClearIsSafe(actions: seq<Action>)
    requires OneClearAtATime(actions)
    ensures NoneActive(Run(Init(), actions))
       <==> forall more :: CallClear !in more ==> !Overlap(Run(Init(), actions + [CallClear] + more))
  {
    hide Run, Overlap, Step, SingleFlight, WaitsForRuns;
    var called := actions + [CallClear];
    var s := Run(Init(), actions);
    if NoneActive(s) {
      assert OneClearAtATime(called) by {
        assert called[..|called| - 1] == actions;
      }
      forall more | CallClear !in more
        ensures !Overlap(Run(Init(), called + more))
      {
        QuietContinuation(called, more);
        SavesAndClearsDoNotOverlap(called + more);
      }
    } else {
      var i :| 0 <= i < |s.clears| && IsActive(s.clears[i]);
      RunKeepsWaiting(actions);
      ClearBesideAnother(s, i);
      RunBoth(Init(), actions, [CallClear]);
      RunOne(s, CallClear);
      RunBoth(Init(), called, BesideAnother(i, |s.clears|));
      assert CallClear !in BesideAnother(i, |s.clears|);
    }
  }

  // ----- Changes noticed while saving -----

  /** While the run writes, whatever else happens leaves it alone. */
  lemma {:induction false} StaysWriting(s: State, between: seq<Action>)
    requires InFlight(s, Writing) && Fail !in between && FinishWrite !in between
    ensures var t := Run(s, between);
      && InFlight(t, Writing) && t.captured == s.captured && t.dirtyRevision >= s.dirtyRevision
      && (t.dirtyRevision == s.dirtyRevision <==> MarkDirty !in between)
    decreases |between|
  {
    if between != [] {
      var front, last := between[..|between| - 1], between[|between| - 1];
      StaysWriting(s, front);
      assert between == front + [last];
    }
  }

  /** A completed save marks every change noticed by its end as saved, also those noticed while it was writing: the mark is
      right exactly when nothing was noticed in between, whatever else went on. */
  lemma CompletedSaveMarksAllChanges(s: State, between: seq<Action>)
    requires InFlight(s, Collecting) && !s.cleared && Fail !in between && FinishWrite !in between
    ensures var written := Step(Run(Step(s, Check(false)), between), FinishWrite);
      && InFlight(written, Settled(true))
      && written.captured == s.dirtyRevision && written.savedDirtyRevision == written.dirtyRevision
      && (written.savedDirtyRevision == written.captured <==> MarkDirty !in between)
  {
    hide Run;
    StaysWriting(Step(s, Check(false)), between);
  }

  // ----- The context object -----

  class Persist {
    var inflight: Option<nat>
    var runs: seq<SaveRun>
    var calls: seq<Call>
    var cleared: bool
    var clears: seq<ClearPhase>
    var dirtyRevision: nat
    var savedDirtyRevision: nat
    ghost var captured: nat

    ghost function View(): State
      reads this
    {
      State(inflight, runs, calls, cleared, clears, dirtyRevision, savedDirtyRevision, captured)
    }

    constructor ()
      ensures View() == Init()
    {
      inflight, runs, calls, cleared, clears := None, [], [], false, [];
      dirtyRevision, savedDirtyRevision, captured := 0, 0, 0;
    }

    /** `save`: start a run, share the one in flight, or get in line behind it. */
    method EnterSave(force: bool) returns (waiting: Waiting)
      modifies this`inflight, this`runs
      ensures View() == Enter(old(View()), force) && waiting == Waits(old(View()), force)
    {
      if inflight.None? {
        inflight := Some(|runs|);
        runs := runs + [SaveRun(force, Collecting)];
        return Shares(|runs| - 1);
      }
      return if !force then Shares(inflight.value) else Behind(inflight.value);
    }

    method Save(force: bool)
      modifies this
      ensures View() == Step(old(View()), CallSave(force))
    {
      var issued := |runs|;
      var waiting := EnterSave(force);
      calls := calls + [Call(force, issued, waiting)];
    }

    /** `inflight.then(() => save(fs, true))`: a rejection is passed on, a success runs again. */
    method ResumeCall(call: nat)
      requires call < |calls| && calls[call].waiting.Behind? && IsReleased(View(), calls[call].waiting.run)
      modifies this
      ensures View() == Step(old(View()), Resume(call))
    {
      var run := calls[call].waiting.run;
      if !runs[run].phase.ok {
        calls := calls[call := calls[call].(waiting := Rejected(run))];
      } else {
        var waiting := EnterSave(true);
        calls := calls[call := calls[call].(waiting := waiting)];
      }
    }

    /** After collecting: nothing new, cleared meanwhile, or on to the write. */
    method CheckRun(dedup: bool)
      requires InFlight(View(), Collecting)
      modifies this
      ensures View() == Step(old(View()), Check(dedup))
    {
      var run := inflight.value;
      if dedup || cleared {
        runs := runs[run := runs[run].(phase := Settled(true))];
      } else {
        runs := runs[run := runs[run].(phase := Writing)];
        captured := dirtyRevision;
      }
    }

    method FinishRun()
      requires InFlight(View(), Writing)
      modifies this
      ensures View() == Step(old(View()), FinishWrite)
    {
      var run := inflight.value;
      savedDirtyRevision := dirtyRevision;
      runs := runs[run := runs[run].(phase := Settled(true))];
    }

    /** The `finally` behind a run. */
    method ReleaseRun(ok: bool)
      requires InFlight(View(), Settled(ok))
      modifies this
      ensures View() == Step(old(View()), Release)
    {
      var run := inflight.value;
      runs := runs[run := runs[run].(phase := Released(ok))];
      inflight := None;
    }

    method Clear()
      modifies this
      ensures View() == Step(old(View()), CallClear)
    {
      cleared := true;
      clears := clears + [Pending(inflight)];
    }

    /** The clear goes on once the run it found in flight is done, however that ended. */
    method StartClearing(clear: nat)
      requires clear < |clears| && clears[clear].Pending?
      requires clears[clear].run.Some? ==> IsReleased(View(), clears[clear].run.value)
      modifies this
      ensures View() == Step(old(View()), BeginClearing(clear))
    {
      clears := clears[clear := Clearing];
    }

    method FinishClearing(clear: nat)
      requires clear < |clears| && clears[clear].Clearing?
      modifies this
      ensures View() == Step(old(View()), EndClear(clear))
    {
      clears := clears[clear := Cleared];
      cleared := false;
    }

    method Mark()
      modifies this
      ensures View() == Step(old(View()), MarkDirty)
    {
      dirtyRevision := dirtyRevision + 1;
    }
  }
}
