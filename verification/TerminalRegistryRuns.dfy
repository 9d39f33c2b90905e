/** What becomes of spawns, names, closes and disposals, told from the actions of a run. */
module TerminalRegistryRuns {
  import opened Text
  import opened TerminalRegistry

  /** Neither the owner nor the service has been disposed of. */
  predicate Undisposed(actions: seq<Action>, owner: nat)
  {
    DisposeService !in actions && DisposeOwner(owner) !in actions
  }

  function After(actions: seq<Action>, n: nat): Registry
    requires n <= |actions|
  {
    Run(NewRegistry(), actions[..n])
  }

  lemma AfterNext(actions: seq<Action>, n: nat)
    requires n < |actions|
    ensures After(actions, n + 1) == Step(After(actions, n), actions[n])
    ensures Sound(After(actions, n))
  {
    hide Step, Sound;
    assert actions[..n + 1][..n] == actions[..n];
    NewIsOk();
    RunKeeps(NewRegistry(), actions[..n]);
  }

  // ----- What the marks say -----

  /** A step marks only what it disposes of. */
  lemma StepMarks(r: Registry, action: Action)
    ensures Step(r, action).disposing == (r.disposing || action.DisposeService?)
    ensures Step(r, action).disposedOwners == r.disposedOwners + (if action.DisposeOwner? then {action.owner} else {})
  {
    hide MaySpawn, NameTaken, AllSettled, ClosesSettled, ClosesSucceeded, AnyFailure, PendingOf;
  }

  lemma {:induction false} MarksAreTheDisposals(actions: seq<Action>, owner: nat)
    ensures var r := Run(NewRegistry(), actions);
      !r.disposing && owner !in r.disposedOwners <==> Undisposed(actions, owner)
    decreases |actions|
  {
    hide Step;
    if actions != [] {
      var front, last := actions[..|actions| - 1], actions[|actions| - 1];
      MarksAreTheDisposals(front, owner);
      StepMarks(Run(NewRegistry(), front), last);
      assert actions == front + [last];
    }
  }

  // ----- Stages -----

  /** Where the answer of the backend leaves a spawn. */
  lemma AnswerDecides(r: Registry, i: nat, result: BackendResult, live: bool, aborted: bool)
    requires Sound(r) && i < |r.spawns| && r.spawns[i].stage == Opening
    ensures var t := Step(r, Return(i, result, live, aborted)); var owner := r.spawns[i].owner;
      && (i in t.sessions <==> result.Session? && live && !aborted && !r.disposing && owner !in r.disposedOwners)
      && (i in t.sessions ==> t.sessions == r.sessions[i := None])
      && |t.spawns| == |r.spawns|
      && t.spawns[i].stage == (if result.NoSession? then if result.cleanupFailed then BrokenSetup else Refused
                               else if i in t.sessions then Published else RollingBack)
  {
    hide NamesOk, ClosesOk, DisposalsOk, LeaksOk;
  }

  /** A spawn is published by its answer if and only if the backend has opened a session, the caller has not aborted, the
      owner is live, and neither the owner nor the service has been disposed of. */
  lemma PublishedByItsAnswer(actions: seq<Action>, n: nat, i: nat)
    requires n < |actions| && actions[n].Return? && actions[n].spawn == i
    requires i < |After(actions, n).spawns| && After(actions, n).spawns[i].stage == Opening
    ensures i in After(actions, n + 1).sessions
       <==> actions[n].result == Session && actions[n].live && !actions[n].aborted
            && Undisposed(actions[..n], After(actions, n).spawns[i].owner)
  {
    hide After, Step, Sound, Run;
    var r := After(actions, n);
    AfterNext(actions, n);
    assert r == Run(NewRegistry(), actions[..n]) by {
      AfterIs(actions, n);
    }
    MarksAreTheDisposals(actions[..n], r.spawns[i].owner);
    AnswerDecides(r, i, actions[n].result, actions[n].live, actions[n].aborted);
  }

  lemma AfterIs(actions: seq<Action>, n: nat)
    requires n <= |actions|
    ensures After(actions, n) == Run(NewRegistry(), actions[..n])
  {
  }

  /** The step is the success of a close of the session. */
  predicate Closes(r: Registry, action: Action, i: nat)
  {
    action.CloseDone? && action.ok && action.close < |r.closes| && r.closes[action.close] == CloseOp(i, InFlight)
  }

  lemma StepKeepsSession(r: Registry, action: Action, i: nat)
    requires Sound(r) && i in r.sessions
    ensures i in Step(r, action).sessions <==> !Closes(r, action, i)
  {
    hide NamesOk, DisposalsOk, LeaksOk, MaySpawn, AllSettled, ClosesSettled, ClosesSucceeded, CloseAll, AnyFailure, PendingOf;
    match action {
      case Proceed(d) =>
        if d < |r.disposals| && r.disposals[d].phase.AwaitSettled? {
          CloseAllKeepsSessions(r.(pending := r.pending - r.disposals[d].phase.found), r.disposals[d].owner, |r.spawns|);
        }
      case _ =>
    }
  }

  lemma {:induction false} CloseAllKeepsSessions(r: Registry, owner: Option<nat>, n: nat)
    ensures CloseAll(r, owner, n).0.sessions.Keys == r.sessions.Keys
  {
    if n > 0 {
      CloseAllKeepsSessions(r, owner, n - 1);
    }
  }

  /** And it stays published until a close of it succeeds, whatever else happens. */
  lemma {:induction false} PublishedUntilClosed(actions: seq<Action>, n: nat, m: nat, i: nat)
    requires n <= m <= |actions| && i in After(actions, n).sessions
    ensures i in After(actions, m).sessions <==> forall k :: n <= k < m ==> !Closes(After(actions, k), actions[k], i)
    decreases m
  {
    hide After, Step, Sound, Closes;
    if n < m {
      PublishedUntilClosed(actions, n, m - 1, i);
      AfterNext(actions, m - 1);
      if i in After(actions, m - 1).sessions {
        StepKeepsSession(After(actions, m - 1), actions[m - 1], i);
      } else {
        OnceGoneStaysGone(actions, n, m - 1, i);
        AfterNext(actions, m - 1);
        EndedStays(After(actions, m - 1), actions[m - 1], i);
      }
    }
  }

  lemma EndedStays(r: Registry, action: Action, i: nat)
    requires Sound(r) && i < |r.spawns| && r.spawns[i].stage == Ended
    ensures var t := Step(r, action); i < |t.spawns| && t.spawns[i].stage == Ended && i !in t.sessions
  {
    hide NamesOk, DisposalsOk, LeaksOk, MaySpawn, AllSettled, ClosesSettled, ClosesSucceeded, CloseAll, AnyFailure, PendingOf;
    match action {
      case Proceed(d) =>
        if d < |r.disposals| && r.disposals[d].phase.AwaitSettled? {
          CloseAllKeepsSessions(r.(pending := r.pending - r.disposals[d].phase.found), r.disposals[d].owner, |r.spawns|);
        }
      case _ =>
    }
  }

  /** A session that was there and is not any more has ended. */
  lemma {:induction false} OnceGoneStaysGone(actions: seq<Action>, n: nat, m: nat, i: nat)
    requires n <= m <= |actions| && i in After(actions, n).sessions && i !in After(actions, m).sessions
    ensures i < |After(actions, m).spawns| && After(actions, m).spawns[i].stage == Ended
    decreases m
  {
    hide After, Step, Sound, Closes;
    AfterNext(actions, m - 1);
    var r := After(actions, m - 1);
    if i in r.sessions {
      StepKeepsSession(r, actions[m - 1], i);
      ClosingEnds(r, actions[m - 1], i);
    } else {
      OnceGoneStaysGone(actions, n, m - 1, i);
      EndedStays(r, actions[m - 1], i);
    }
  }

  lemma ClosingEnds(r: Registry, action: Action, i: nat)
    requires Sound(r) && i in r.sessions && Closes(r, action, i)
    ensures i < |Step(r, action).spawns| && Step(r, action).spawns[i].stage == Ended
  {
  }

  // ----- Names -----

  /** A reserved name belongs to a spawn that has not settled, and what is pending has not settled or is a leak. */
  predicate Exact(r: Registry)
  {
    && (forall p :: p in r.reserved ==> exists i :: 0 <= i < |r.spawns| && Reserves(r.spawns[i], p))
    && (forall i :: i in r.pending ==> i < |r.spawns| && (!IsSettled(r.spawns[i].stage) || IsLeak(r.spawns[i].stage)))
  }

  predicate Reserves(spawn: Spawn, p: (nat, string))
  {
    spawn.owner == p.0 && spawn.name == Some(p.1) && !IsSettled(spawn.stage)
  }

  predicate IsLeak(stage: Stage)
  {
    stage.Leaked? || stage.BrokenSetup?
  }

  lemma SameSpawnsExact(r: Registry, t: Registry)
    requires Exact(r) && t.spawns == r.spawns && t.reserved <= r.reserved && t.pending <= r.pending
    ensures Exact(t)
  {
  }

  lemma BeginKeepsExact(r: Registry, owner: nat, name: Option<string>)
    requires Exact(r)
    ensures Exact(BeginSpawn(r, owner, name))
  {
    var t := BeginSpawn(r, owner, name);
    forall p | p in t.reserved
      ensures exists i :: 0 <= i < |t.spawns| && Reserves(t.spawns[i], p)
    {
      if p in r.reserved {
        var i :| 0 <= i < |r.spawns| && Reserves(r.spawns[i], p);
        assert Reserves(t.spawns[i], p);
      } else {
        assert Reserves(t.spawns[|r.spawns|], p);
      }
    }
  }

  lemma StageKeepsExact(r: Registry, t: Registry, i: nat, stage: Stage)
    requires Exact(r) && i < |r.spawns| && t.spawns == SetStage(r, i, stage).spawns && t.pending <= r.pending
    requires t.reserved <= r.reserved && (i in t.pending ==> !IsSettled(stage) || IsLeak(stage))
    requires IsSettled(stage) && r.spawns[i].name.Some? ==> (r.spawns[i].owner, r.spawns[i].name.value) !in t.reserved
    ensures Exact(t)
  {
    forall p | p in t.reserved
      ensures exists j :: 0 <= j < |t.spawns| && Reserves(t.spawns[j], p)
    {
      var j :| 0 <= j < |r.spawns| && Reserves(r.spawns[j], p);
      assert j != i || !IsSettled(stage);
      assert Reserves(t.spawns[j], p);
    }
  }

  lemma StepKeepsExact(r: Registry, action: Action)
    requires Sound(r) && Exact(r)
    ensures Exact(Step(r, action))
  {
    hide NamesOk, DisposalsOk, LeaksOk, MaySpawn, AllSettled, ClosesSettled, ClosesSucceeded, CloseAll, AnyFailure, PendingOf, Exact;
    hide IsSettled, ClosesOk;
    var t := Step(r, action);
    match action {
      case CallSpawn(owner, name, live) =>
        BeginKeepsExact(r, owner, name);
      case Return(i, result, live, aborted) =>
        if t != r {
          AnswerKeepsExact(r, i, result, live, aborted);
        }
      case RollbackDone(i, ok) =>
        if t != r {
          RollbackKeepsExact(r, i, ok);
        }
      case CloseDone(k, ok) =>
        if t != r {
          if ok {
            CloseKeepsExact(r, k);
          } else {
            SameSpawnsExact(r, t);
          }
        }
      case _ => SameSpawnsExact(r, t);
    }
  }

  lemma AnswerKeepsExact(r: Registry, i: nat, result: BackendResult, live: bool, aborted: bool)
    requires Sound(r) && Exact(r) && i < |r.spawns| && r.spawns[i].stage.Opening?
    ensures Exact(BackendReturned(r, i, result, live, aborted))
  {
    hide NamesOk, DisposalsOk, LeaksOk, ClosesOk, Exact;
    var t := BackendReturned(r, i, result, live, aborted);
    StageKeepsExact(r, t, i, t.spawns[i].stage);
  }

  lemma RollbackKeepsExact(r: Registry, i: nat, ok: bool)
    requires Sound(r) && Exact(r) && i < |r.spawns| && r.spawns[i].stage.RollingBack?
    ensures Exact(Settle(r, i, if ok then RolledBack else Leaked))
  {
    hide NamesOk, DisposalsOk, LeaksOk, ClosesOk, Exact;
    StageKeepsExact(r, Settle(r, i, if ok then RolledBack else Leaked), i, if ok then RolledBack else Leaked);
  }

  lemma CloseKeepsExact(r: Registry, k: nat)
    requires Sound(r) && Exact(r) && k < |r.closes| && r.closes[k].state.InFlight?
    ensures r.closes[k].session < |r.spawns| && Exact(SettleClose(r, k, true))
  {
    hide NamesOk, DisposalsOk, LeaksOk;
    var i, t := r.closes[k].session, SettleClose(r, k, true);
    forall p | p in t.reserved
      ensures exists j :: 0 <= j < |t.spawns| && Reserves(t.spawns[j], p)
    {
      var j :| 0 <= j < |r.spawns| && Reserves(r.spawns[j], p);
      assert j != i;
      assert Reserves(t.spawns[j], p);
    }
  }

  lemma {:induction false} RunKeepsExact(actions: seq<Action>)
    ensures Sound(Run(NewRegistry(), actions)) && Exact(Run(NewRegistry(), actions))
    decreases |actions|
  {
    hide Step, Sound, Exact;
    NewIsOk();
    RunKeeps(NewRegistry(), actions);
    if actions == [] {
      NewIsExact();
    } else {
      RunKeepsExact(actions[..|actions| - 1]);
      StepKeepsExact(Run(NewRegistry(), actions[..|actions| - 1]), actions[|actions| - 1]);
    }
  }

  lemma NewIsExact()
    ensures Exact(NewRegistry())
  {
  }

  /** The name is held: by a session, or by a spawn that is under way. */
  predicate IsHeld(r: Registry, owner: nat, name: string)
  {
    exists i :: 0 <= i < |r.spawns| && r.spawns[i].owner == owner && r.spawns[i].name == Some(name)
                && r.spawns[i].stage in {Opening, RollingBack, Published}
  }

  lemma TakenIsHeld(r: Registry, owner: nat, name: string)
    requires Sound(r) && Exact(r)
    ensures NameTaken(r, owner, name) <==> IsHeld(r, owner, name)
  {
    hide ClosesOk, DisposalsOk, LeaksOk;
    if (owner, name) in r.reserved {
      var i :| 0 <= i < |r.spawns| && Reserves(r.spawns[i], (owner, name));
      assert r.spawns[i].stage in {Opening, RollingBack, Published};
    }
    if i :| i in r.sessions && i < |r.spawns| && r.spawns[i].owner == owner && r.spawns[i].name == Some(name) {
      assert r.spawns[i].stage in {Opening, RollingBack, Published};
    }
  }

  /** When exactly a call is taken: the owner is live and neither it nor the service has been disposed of, and its name, if it
      gives one, is not empty and not held by that owner. What is taken begins to open. */
  lemma CallIsTaken(actions: seq<Action>, owner: nat, name: Option<string>, live: bool)
    ensures var r := Run(NewRegistry(), actions); var t := Step(r, CallSpawn(owner, name, live));
      if live && Undisposed(actions, owner) && (name.Some? ==> name.value != "" && !IsHeld(r, owner, name.value))
      then t.spawns == r.spawns + [Spawn(owner, name, Opening)] && t.sessions == r.sessions
      else t == r
  {
    hide Run, NameTaken, IsHeld, Sound, Exact;
    RunKeepsExact(actions);
    MarksAreTheDisposals(actions, owner);
    if name.Some? {
      TakenIsHeld(Run(NewRegistry(), actions), owner, name.value);
    }
  }

  // ----- Closing -----

  predicate IsClosing(r: Registry, i: nat)
  {
    exists k :: 0 <= k < |r.closes| && r.closes[k] == CloseOp(i, InFlight)
  }

  /** A kill begins a close exactly when the session is published and none is under way. */
  lemma KillBegins(r: Registry, i: nat)
    requires Sound(r)
    ensures Step(r, Kill(i)).closes
         == if i in r.sessions && !IsClosing(r, i) then r.closes + [CloseOp(i, InFlight)] else r.closes
  {
    hide NamesOk, DisposalsOk, LeaksOk;
  }

  /** A rollback ends the spawn: closed again, or a leak that stays on record. */
  lemma RollbackEnds(r: Registry, i: nat, ok: bool)
    requires Sound(r) && i < |r.spawns| && r.spawns[i].stage == RollingBack
    ensures var t := Step(r, RollbackDone(i, ok));
      && t.spawns == r.spawns[i := r.spawns[i].(stage := if ok then RolledBack else Leaked)]
      && t.sessions == r.sessions && t.closes == r.closes && t.disposals == r.disposals
      && t.pending == (if ok then r.pending - {i} else r.pending)
      && (r.spawns[i].name.Some? ==> (r.spawns[i].owner, r.spawns[i].name.value) !in t.reserved)
  {
  }

  /** A close that succeeds removes the session; after one that fails it is published as before and can be closed again. */
  lemma CloseEnds(r: Registry, k: nat, ok: bool)
    requires Sound(r) && k < |r.closes| && r.closes[k].state == InFlight
    ensures var t, i := Step(r, CloseDone(k, ok)), r.closes[k].session;
      && t.closes == r.closes[k := CloseOp(i, if ok then Succeeded else Failed)]
      && (if ok then i !in t.sessions && t.sessions == r.sessions - {i} else i in t.sessions && !IsClosing(t, i))
      && (ok ==> i < |t.spawns| && t.spawns[i].stage == Ended) && (!ok ==> t.spawns == r.spawns)
  {
    hide NamesOk, DisposalsOk, LeaksOk;
  }

  // ----- Disposing -----

  /** What a disposal waits for first: the spawns of the owner that have not settled, and its leaks that are on record. */
  lemma DisposalFinds(r: Registry, owner: Option<nat>)
    requires Sound(r) && Exact(r)
    ensures var t := Step(r, if owner.Some? then DisposeOwner(owner.value) else DisposeService);
      && |t.disposals| == |r.disposals| + 1 && t.disposals[|r.disposals|].owner == owner
      && t.disposals[|r.disposals|].phase.AwaitSettled?
      && (forall i :: i in t.disposals[|r.disposals|].phase.found
            <==> 0 <= i < |r.spawns| && (owner.None? || owner.value == r.spawns[i].owner)
                 && (r.spawns[i].stage in {Opening, RollingBack} || (IsLeak(r.spawns[i].stage) && i in r.pending)))
  {
    hide NamesOk, ClosesOk, DisposalsOk, LeaksOk;
  }

  /** Of the first `n` spawns, those covered and published are being closed in `t`; `closes` are their closes, begun now or
      shared. Nothing else is. */
  predicate ClosedUpTo(r: Registry, t: Registry, closes: set<nat>, owner: Option<nat>, n: nat)
  {
    && t.spawns == r.spawns && r.closes <= t.closes && t.sessions.Keys == r.sessions.Keys
    && (forall i :: i in r.sessions ==> SessionClosed(r, i, t.sessions[i], closes, owner, n))
    && (forall k :: k in closes ==> k < |t.closes| && IsCloseOf(r, t.closes[k].session, owner, n))
  }

  predicate SessionClosed(r: Registry, i: nat, close: Option<nat>, closes: set<nat>, owner: Option<nat>, n: nat)
    requires i in r.sessions
  {
    if i < n && Covers(r, owner, i)
    then close.Some? && close.value in closes && (r.sessions[i].Some? ==> close == r.sessions[i])
    else close == r.sessions[i]
  }

  predicate IsCloseOf(r: Registry, i: nat, owner: Option<nat>, n: nat)
  {
    i < n && i in r.sessions && Covers(r, owner, i)
  }

  lemma {:induction false} CloseAllCloses(r: Registry, owner: Option<nat>, n: nat)
    requires ClosesOk(r)
    ensures var (t, closes) := CloseAll(r, owner, n);
            ClosesOk(t) && ClosedUpTo(r, t, closes, owner, n)
  {
    hide ClosesOk, ClosedUpTo, BeginClose;
    if n > 0 {
      CloseAllCloses(r, owner, n - 1);
      var (before, closes) := CloseAll(r, owner, n - 1);
      var i := n - 1;
      if i !in before.sessions || !Covers(before, owner, i) {
        OneMorePassed(r, before, closes, owner, i);
      } else if before.sessions[i].Some? {
        OneMoreShared(r, before, closes, owner, i);
      } else {
        NewClose(before, i);
        OneMoreBegun(r, before, closes, owner, i);
      }
    } else {
      NothingClosed(r, owner);
    }
  }

  lemma NothingClosed(r: Registry, owner: Option<nat>)
    ensures ClosedUpTo(r, r, {}, owner, 0)
  {
  }

  lemma OneMorePassed(r: Registry, t: Registry, closes: set<nat>, owner: Option<nat>, i: nat)
    requires ClosedUpTo(r, t, closes, owner, i) && (i !in t.sessions || !Covers(t, owner, i))
    ensures ClosedUpTo(r, t, closes, owner, i + 1)
  {
  }

  lemma OneMoreShared(r: Registry, t: Registry, closes: set<nat>, owner: Option<nat>, i: nat)
    requires ClosedUpTo(r, t, closes, owner, i) && ClosesOk(t)
    requires i in t.sessions && Covers(t, owner, i) && t.sessions[i].Some?
    ensures ClosedUpTo(r, t, closes + {t.sessions[i].value}, owner, i + 1)
  {
  }

  lemma OneMoreBegun(r: Registry, t: Registry, closes: set<nat>, owner: Option<nat>, i: nat)
    requires ClosedUpTo(r, t, closes, owner, i)
    requires i in t.sessions && Covers(t, owner, i) && t.sessions[i].None?
    ensures ClosedUpTo(r, BeginClose(t, i), closes + {|t.closes|}, owner, i + 1)
  {
    hide Covers, SessionClosed;
    var after, all := BeginClose(t, i), closes + {|t.closes|};
    assert after.sessions.Keys == t.sessions.Keys;
    CoversSame(r, t, owner, i);
    forall j | j in r.sessions
      ensures SessionClosed(r, j, after.sessions[j], all, owner, i + 1)
    {
      SessionAfter(r, t, closes, owner, i, j);
    }
    forall k | k in all
      ensures k < |after.closes| && IsCloseOf(r, after.closes[k].session, owner, i + 1)
    {
      if k in closes {
        assert after.closes[k] == t.closes[k];
      }
    }
  }

  lemma CoversSame(r: Registry, t: Registry, owner: Option<nat>, i: nat)
    requires t.spawns == r.spawns
    ensures Covers(r, owner, i) == Covers(t, owner, i)
  {
  }

  lemma SessionAfter(r: Registry, t: Registry, closes: set<nat>, owner: Option<nat>, i: nat, j: nat)
    requires i in t.sessions && t.sessions[i].None? && j in r.sessions && j in t.sessions
    requires i in r.sessions && SessionClosed(r, i, t.sessions[i], closes, owner, i) && Covers(r, owner, i)
    requires SessionClosed(r, j, t.sessions[j], closes, owner, i)
    ensures SessionClosed(r, j, BeginClose(t, i).sessions[j], closes + {|t.closes|}, owner, i + 1)
  {
    hide Covers;
  }

  lemma NewClose(r: Registry, i: nat)
    requires ClosesOk(r) && i in r.sessions && r.sessions[i].None? && i < |r.spawns|
    ensures ClosesOk(BeginClose(r, i))
  {
    var t := BeginClose(r, i);
    assert forall k :: 0 <= k < |r.closes| ==> t.closes[k] == r.closes[k];
  }

  /** Once all it found has settled, a disposal closes every session of the owner there is then, sharing the closes that are
      under way; and it knows whether a cleanup it found has failed. */
  lemma DisposalCloses(r: Registry, d: nat)
    requires Sound(r) && d < |r.disposals| && r.disposals[d].phase.AwaitSettled?
    requires forall i :: i in r.disposals[d].phase.found ==> i < |r.spawns| && r.spawns[i].stage !in {Opening, RollingBack}
    ensures var t, owner, found := Step(r, Proceed(d)), r.disposals[d].owner, r.disposals[d].phase.found;
      && |t.disposals| == |r.disposals| && t.disposals[d].phase.AwaitClosed? && t.spawns == r.spawns
      && (t.disposals[d].phase.failed <==> exists i :: i in found && i < |r.spawns| && IsLeak(r.spawns[i].stage))
      && (forall i :: i in r.sessions && (owner.None? || owner.value == r.spawns[i].owner) ==>
            i in t.sessions && t.sessions[i].Some? && t.sessions[i].value in t.disposals[d].phase.closes
            && (r.sessions[i].Some? ==> t.sessions[i] == r.sessions[i]))
      && (forall k :: k in t.disposals[d].phase.closes ==>
            k < |t.closes| && t.closes[k].session in r.sessions
            && (owner.None? || owner.value == r.spawns[t.closes[k].session].owner))
  {
    hide NamesOk, DisposalsOk, LeaksOk, CloseAll, ClosesOk;
    var forgotten := r.(pending := r.pending - r.disposals[d].phase.found);
    SameCloses(r, forgotten);
    CloseAllCloses(forgotten, r.disposals[d].owner, |r.spawns|);
  }

  lemma SameCloses(a: Registry, b: Registry)
    requires ClosesOk(a) && b.closes == a.closes && b.sessions == a.sessions && b.spawns == a.spawns
    ensures ClosesOk(b)
  {
  }

  /** When all these closes have ended the disposal does, and it succeeds exactly when no cleanup has failed and every close
      has succeeded. */
  lemma DisposalSucceeds(r: Registry, d: nat)
    requires d < |r.disposals| && r.disposals[d].phase.AwaitClosed?
    requires forall k :: k in r.disposals[d].phase.closes ==> k < |r.closes| && r.closes[k].state != InFlight
    ensures var t := Step(r, End(d));
      && |t.disposals| == |r.disposals| && t.sessions == r.sessions && t.spawns == r.spawns && t.closes == r.closes
      && t.disposals[d].phase == Finished(!r.disposals[d].phase.failed
                                          && forall k :: k in r.disposals[d].phase.closes ==> r.closes[k].state == Succeeded)
  {
    hide Sound;
  }

  /** Until then a disposal waits: for every spawn it found that is still opening or being rolled back, and for every close it
      has begun or shares. */
  lemma DisposalWaits(r: Registry, d: nat)
    requires Sound(r) && d < |r.disposals|
    ensures match r.disposals[d].phase
            case AwaitSettled(found) =>
              (exists i :: i in found && i < |r.spawns| && r.spawns[i].stage in {Opening, RollingBack}) ==>
                Step(r, Proceed(d)) == r && Step(r, End(d)) == r
            case AwaitClosed(closes, _) =>
              (exists k :: k in closes && k < |r.closes| && r.closes[k].state == InFlight) ==>
                Step(r, Proceed(d)) == r && Step(r, End(d)) == r
            case Finished(_) => Step(r, Proceed(d)) == r && Step(r, End(d)) == r
  {
    hide NamesOk, ClosesOk, DisposalsOk, LeaksOk, CloseAll;
  }
}
