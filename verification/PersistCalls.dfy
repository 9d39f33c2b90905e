/** What becomes of the calls of `save`: which run each waits for, and that runs and calls come to an end. */
module PersistCalls {
  import opened Text
  import opened PersistContext

  /** The calls of `save` so far, in order: whether each was forced. */
  function Asked(actions: seq<Action>): seq<bool>
  {
    if actions == [] then []
    else Asked(actions[..|actions| - 1]) + if actions[|actions| - 1].CallSave? then [actions[|actions| - 1].force] else []
  }

  lemma StepRecords(s: State, action: Action)
    ensures var t := Step(s, action);
      && |t.calls| == |s.calls| + (if action.CallSave? then 1 else 0)
      && (forall i :: 0 <= i < |s.calls| ==> t.calls[i].force == s.calls[i].force && t.calls[i].issued == s.calls[i].issued)
      && (action.CallSave? ==> t.calls[|s.calls|].force == action.force && t.calls[|s.calls|].issued == |s.runs|)
  {
  }

  /** In every run: every call of `save` is on record, with what it asked for. */
  lemma {:induction false} EveryCallIsOnRecord(actions: seq<Action>)
    ensures var calls := Run(Init(), actions).calls;
      |calls| == |Asked(actions)| && forall i :: 0 <= i < |calls| ==> calls[i].force == Asked(actions)[i]
    decreases |actions|
  {
    hide Step;
    if actions != [] {
      EveryCallIsOnRecord(actions[..|actions| - 1]);
      StepRecords(Run(Init(), actions[..|actions| - 1]), actions[|actions| - 1]);
    }
  }

  /** A new call starts a run when none is in flight; otherwise it shares that one, unless it is forced: then it gets in line
      behind it. */
  lemma NewCallWaits(s: State, force: bool)
    ensures var t, n := Step(s, CallSave(force)), |s.runs|;
      && |t.calls| == |s.calls| + 1
      && (match s.inflight
          case None =>
            t.calls[|s.calls|].waiting == Shares(n) && t.inflight == Some(n) && t.runs == s.runs + [SaveRun(force, Collecting)]
          case Some(run) =>
            t.calls[|s.calls|].waiting == (if force then Behind(run) else Shares(run)) && t.inflight == s.inflight && t.runs == s.runs)
  {
  }

  /** A call in line, once the run before it is over: that run's failure is its own; after a success it starts a forced run of
      its own, or gets in line again behind the run that was quicker. */
  lemma WaitingCallGoesOn(s: State, call: nat)
    requires call < |s.calls| && s.calls[call].waiting.Behind? && IsReleased(s, s.calls[call].waiting.run)
    ensures var t, run, n := Step(s, Resume(call)), s.calls[call].waiting.run, |s.runs|;
      && |t.calls| == |s.calls|
      && (if s.runs[run].phase == Released(false)
          then t.calls[call].waiting == Rejected(run) && t.inflight == s.inflight && t.runs == s.runs
          else if s.inflight.None?
          then t.calls[call].waiting == Shares(n) && t.inflight == Some(n) && t.runs == s.runs + [SaveRun(true, Collecting)]
          else t.calls[call].waiting == Behind(s.inflight.value) && t.inflight == s.inflight && t.runs == s.runs)
  {
  }

  /** Nothing but its own turn changes what a call waits for. */
  lemma OthersKeepWaiting(s: State, action: Action, call: nat)
    requires call < |s.calls| && action != Resume(call)
    ensures call < |Step(s, action).calls| && Step(s, action).calls[call] == s.calls[call]
  {
  }

  /** With nothing in flight and no clear under way a save goes through: it writes, it is released as a success, everything
      noticed is marked as saved, and the way is free for the next. */
  lemma ASaveGoesThrough(s: State, force: bool)
    requires s.inflight.None? && !s.cleared
    ensures var writing := Step(Step(s, CallSave(force)), Check(false)); var done := Step(Step(writing, FinishWrite), Release);
      && InFlight(writing, Writing) && writing.inflight == Some(|s.runs|)
      && done.inflight == None && done.runs == s.runs + [SaveRun(force, Released(true))]
      && done.savedDirtyRevision == done.dirtyRevision == s.dirtyRevision
  {
    var writing := Step(Step(s, CallSave(force)), Check(false));
    assert writing.runs == s.runs + [SaveRun(force, Writing)];
    var written := Step(writing, FinishWrite);
    assert written.runs == s.runs + [SaveRun(force, Settled(true))];
  }

  /** A save that fails at any point is released as a failure and the way is free again. */
  lemma AFailureIsReleased(s: State)
    requires InFlight(s, Collecting) || InFlight(s, Writing)
    ensures var t := Step(Step(s, Fail), Release); var run := s.inflight.value;
      && t.inflight == None && t.runs == s.runs[run := SaveRun(s.runs[run].force, Released(false))]
      && t.savedDirtyRevision == s.savedDirtyRevision
  {
    var run := s.inflight.value;
    assert Step(s, Fail).runs == s.runs[run := SaveRun(s.runs[run].force, Settled(false))];
  }

  /** A run writes exactly when there is something new and no clear was called since the last one ended; what does not write is
      a success that saved nothing. */
  lemma CheckDecides(s: State, dedup: bool)
    requires InFlight(s, Collecting)
    ensures var t := Step(s, Check(dedup));
      && (InFlight(t, Writing) <==> !dedup && !s.cleared) && (InFlight(t, Settled(true)) <==> dedup || s.cleared)
      && t.savedDirtyRevision == s.savedDirtyRevision
  {
  }

  // ----- Clears -----

  /** With one clear at a time the flag is up exactly while one is under way. */
  predicate FlagTells(s: State)
  {
    s.cleared <==> exists i :: 0 <= i < |s.clears| && IsActive(s.clears[i])
  }

  lemma StepKeepsFlag(s: State, action: Action)
    requires OneActive(s) && FlagTells(s)
    ensures FlagTells(Step(s, action))
  {
    hide InFlight, Waits;
    var t := Step(s, action);
    match action {
      case CallClear =>
        assert IsActive(t.clears[|s.clears|]);
      case BeginClearing(clear) =>
        if t != s {
          assert IsActive(s.clears[clear]) && IsActive(t.clears[clear]);
        }
      case EndClear(clear) =>
        if t != s {
          assert IsActive(s.clears[clear]);
          assert forall i :: 0 <= i < |t.clears| && i != clear ==> t.clears[i] == s.clears[i];
        }
      case _ => assert t.clears == s.clears && t.cleared == s.cleared;
    }
  }

  lemma {:induction false} ClearedMeansClearing(actions: seq<Action>)
    requires OneClearAtATime(actions)
    ensures FlagTells(Run(Init(), actions))
    decreases |actions|
  {
    hide Step, Fenced, FlagTells, OneActive;
    if actions == [] {
      NoFlag();
    } else {
      var front := actions[..|actions| - 1];
      ClearedMeansClearing(front);
      FenceHolds(front);
      FencedIsOne(Run(Init(), front));
      StepKeepsFlag(Run(Init(), front), actions[|actions| - 1]);
    }
  }

  lemma NoFlag()
    ensures FlagTells(Init())
  {
  }

  lemma FencedIsOne(s: State)
    requires Fenced(s)
    ensures OneActive(s)
  {
  }

  /** A clear begins once the run it found in flight is released, however that ended, and ends. */
  lemma AClearGoesThrough(s: State, clear: nat)
    requires clear < |s.clears| && s.clears[clear].Pending?
    ensures var begun := Step(s, BeginClearing(clear)); var done := Step(begun, EndClear(clear));
      var free := s.clears[clear].run.None? || IsReleased(s, s.clears[clear].run.value);
      && begun.clears == (if free then s.clears[clear := Clearing] else s.clears)
      && (free ==> done.clears == s.clears[clear := Cleared] && !done.cleared)
      && begun.runs == s.runs && done.runs == s.runs
  {
  }

  /** It waits for the run in flight when it was called, if there was one. */
  lemma NewClearWaits(s: State)
    ensures var t := Step(s, CallClear); t.clears == s.clears + [Pending(s.inflight)] && t.cleared && t.runs == s.runs
  {
  }
}
