/** Terminal sessions of many owners: opening, closing and disposing overlap at will. Every section of code between two
    awaits is one step; sessions carry the number of the spawn that opened them. */
module TerminalRegistry {
  import opened Text

  /** What has become of a spawn. A session is open while it is rolled back, published, or leaked. */
  datatype Stage = Opening | Refused | BrokenSetup | RollingBack | RolledBack | Leaked | Published | Ended

  datatype Spawn = Spawn(owner: nat, name: Option<string>, stage: Stage)

  datatype CloseState = InFlight | Succeeded | Failed

  datatype CloseOp = CloseOp(session: nat, state: CloseState)

  /** A disposal of one owner, or of all: it waits for the pending spawns it found, then for the closes of the sessions. */
  datatype Phase = AwaitSettled(found: set<nat>) | AwaitClosed(closes: set<nat>, failed: bool) | Finished(ok: bool)

  datatype Disposal = Disposal(owner: Option<nat>, phase: Phase)

  datatype Registry = Registry(
    spawns: seq<Spawn>, sessions: map<nat, Option<nat>>, pending: set<nat>, reserved: set<(nat, string)>,
    closes: seq<CloseOp>, disposedOwners: set<nat>, disposing: bool, disposals: seq<Disposal>)

  function NewRegistry(): Registry
  {
    Registry([], map[], {}, {}, [], {}, false, [])
  }

  // ----- Spawning -----

  predicate NameTaken(r: Registry, owner: nat, name: string)
  {
    (owner, name) in r.reserved
    || exists i :: i in r.sessions && i < |r.spawns| && r.spawns[i].owner == owner && r.spawns[i].name == Some(name)
  }

  /** `live` is what the host says of the owner. */
  predicate MaySpawn(r: Registry, owner: nat, name: Option<string>, live: bool)
  {
    !r.disposing && live && owner !in r.disposedOwners
    && (name.Some? ==> name.value != "" && !NameTaken(r, owner, name.value))
  }

  function BeginSpawn(r: Registry, owner: nat, name: Option<string>): Registry
  {
    r.(spawns := r.spawns + [Spawn(owner, name, Opening)], pending := r.pending + {|r.spawns|},
       reserved := if name.Some? then r.reserved + {(owner, name.value)} else r.reserved)
  }

  function SetStage(r: Registry, i: nat, stage: Stage): Registry
    requires i < |r.spawns|
  {
    r.(spawns := r.spawns[i := r.spawns[i].(stage := stage)])
  }

  /** The `finally` of a spawn: a cleanup that failed stays on record, and the name is free again. */
  function Settle(r: Registry, i: nat, stage: Stage): Registry
    requires i < |r.spawns|
  {
    var kept := stage.Leaked? || stage.BrokenSetup?;
    var freed := if r.spawns[i].name.Some? then r.reserved - {(r.spawns[i].owner, r.spawns[i].name.value)} else r.reserved;
    SetStage(r, i, stage).(pending := if kept then r.pending else r.pending - {i}, reserved := freed)
  }

  datatype BackendResult = NoSession(cleanupFailed: bool) | Session

  /** The backend has answered. A session nobody may have any more is closed again. */
  function BackendReturned(r: Registry, i: nat, result: BackendResult, live: bool, aborted: bool): Registry
    requires i < |r.spawns|
  {
    if result.NoSession? then Settle(r, i, if result.cleanupFailed then BrokenSetup else Refused)
    else if aborted || r.disposing || !live || r.spawns[i].owner in r.disposedOwners then SetStage(r, i, RollingBack)
    else Settle(r, i, Published).(sessions := r.sessions[i := None])
  }

  // ----- Closing -----

  function BeginClose(r: Registry, i: nat): Registry
  {
    r.(closes := r.closes + [CloseOp(i, InFlight)], sessions := r.sessions[i := Some(|r.closes|)])
  }

  /** A close that succeeds removes the session; one that fails makes the next attempt possible. */
  function SettleClose(r: Registry, k: nat, ok: bool): Registry
    requires k < |r.closes| && r.closes[k].session < |r.spawns|
  {
    var i := r.closes[k].session;
    var settled := r.(closes := r.closes[k := r.closes[k].(state := if ok then Succeeded else Failed)]);
    if ok then SetStage(settled, i, Ended).(sessions := r.sessions - {i})
    else if i in r.sessions && r.sessions[i] == Some(k) then settled.(sessions := r.sessions[i := None])
    else settled
  }

  // ----- Disposing -----

  predicate Covers(r: Registry, owner: Option<nat>, i: nat)
  {
    i < |r.spawns| && (owner.None? || owner.value == r.spawns[i].owner)
  }

  function PendingOf(r: Registry, owner: Option<nat>): set<nat>
  {
    set i | i in r.pending && Covers(r, owner, i)
  }

  /** Marks the owner, or the service, and aborts what is pending. */
  function BeginDisposal(r: Registry, owner: Option<nat>): Registry
  {
    var marked := if owner.Some? then r.(disposedOwners := r.disposedOwners + {owner.value}) else r.(disposing := true);
    marked.(disposals := r.disposals + [Disposal(owner, AwaitSettled(PendingOf(r, owner)))])
  }

  predicate IsSettled(stage: Stage)
  {
    !stage.Opening? && !stage.RollingBack?
  }

  predicate AllSettled(r: Registry, found: set<nat>)
  {
    forall i :: i in found ==> i < |r.spawns| && IsSettled(r.spawns[i].stage)
  }

  predicate AnyFailure(r: Registry, found: set<nat>)
  {
    exists i :: i in found && i < |r.spawns| && (r.spawns[i].stage.Leaked? || r.spawns[i].stage.BrokenSetup?)
  }

  /** Closes the sessions among the first `n`; a close under way is shared. */
  function CloseAll(r: Registry, owner: Option<nat>, n: nat): (result: (Registry, set<nat>))
    ensures result.0 == r.(closes := result.0.closes, sessions := result.0.sessions)
  {
    if n == 0 then (r, {})
    else
      var (before, closes) := CloseAll(r, owner, n - 1);
      var i := n - 1;
      if i !in before.sessions || !Covers(before, owner, i) then (before, closes)
      else if before.sessions[i].Some? then (before, closes + {before.sessions[i].value})
      else (BeginClose(before, i), closes + {|before.closes|})
  }

  function SetPhase(r: Registry, d: nat, phase: Phase): Registry
    requires d < |r.disposals|
  {
    r.(disposals := r.disposals[d := r.disposals[d].(phase := phase)])
  }

  /** All that was found pending has settled; on to the sessions there are now. */
  function GoOn(r: Registry, d: nat): Registry
    requires d < |r.disposals| && r.disposals[d].phase.AwaitSettled?
  {
    var found, owner := r.disposals[d].phase.found, r.disposals[d].owner;
    var (closing, closes) := CloseAll(r.(pending := r.pending - found), owner, |r.spawns|);
    SetPhase(closing, d, AwaitClosed(closes, AnyFailure(r, found)))
  }

  predicate ClosesSettled(r: Registry, closes: set<nat>)
  {
    forall k :: k in closes ==> k < |r.closes| && !r.closes[k].state.InFlight?
  }

  predicate ClosesSucceeded(r: Registry, closes: set<nat>)
  {
    forall k :: k in closes ==> k < |r.closes| && r.closes[k].state.Succeeded?
  }

  function Conclude(r: Registry, d: nat): Registry
    requires d < |r.disposals| && r.disposals[d].phase.AwaitClosed?
  {
    var phase, owner := r.disposals[d].phase, r.disposals[d].owner;
    var done := SetPhase(r, d, Finished(!phase.failed && ClosesSucceeded(r, phase.closes)));
    if owner.Some? then done.(reserved := set p | p in r.reserved && p.0 != owner.value)
    else done.(reserved := {}, pending := {})
  }

  datatype Action =
    | CallSpawn(owner: nat, name: Option<string>, live: bool)
    | Return(spawn: nat, result: BackendResult, live: bool, aborted: bool)
    | RollbackDone(spawn: nat, ok: bool)
    | Kill(session: nat)
    | CloseDone(close: nat, ok: bool)
    | DisposeOwner(owner: nat)
    | DisposeService
    | Proceed(disposal: nat)
    | End(disposal: nat)

  function Step(r: Registry, action: Action): Registry
  {
    match action
    case CallSpawn(owner, name, live) => if MaySpawn(r, owner, name, live) then BeginSpawn(r, owner, name) else r
    case Return(i, result, live, aborted) =>
      if i < |r.spawns| && r.spawns[i].stage.Opening? then BackendReturned(r, i, result, live, aborted) else r
    case RollbackDone(i, ok) =>
      if i < |r.spawns| && r.spawns[i].stage.RollingBack? then Settle(r, i, if ok then RolledBack else Leaked) else r
    case Kill(i) => if i in r.sessions && r.sessions[i].None? then BeginClose(r, i) else r
    case CloseDone(k, ok) =>
      if k < |r.closes| && r.closes[k].state.InFlight? && r.closes[k].session < |r.spawns| then SettleClose(r, k, ok) else r
    case DisposeOwner(owner) => BeginDisposal(r, Some(owner))
    case DisposeService => BeginDisposal(r, None)
    case Proceed(d) =>
      if d < |r.disposals| && r.disposals[d].phase.AwaitSettled? && AllSettled(r, r.disposals[d].phase.found) then GoOn(r, d)
      else r
    case End(d) =>
      if d < |r.disposals| && r.disposals[d].phase.AwaitClosed? && ClosesSettled(r, r.disposals[d].phase.closes)
      then Conclude(r, d)
      else r
  }

  function Run(r: Registry, actions: seq<Action>): Registry
    decreases |actions|
  {
    if actions == [] then r else Step(Run(r, actions[..|actions| - 1]), actions[|actions| - 1])
  }

  // ----- Invariants -----

  /** Exactly the published spawns have a session, and what is not settled is pending. */
  predicate SpawnsOk(r: Registry)
  {
    && (forall i :: i in r.sessions ==> i < |r.spawns|)
    && (forall i :: 0 <= i < |r.spawns| ==>
          && (r.spawns[i].stage.Published? <==> i in r.sessions)
          && (!IsSettled(r.spawns[i].stage) ==> i in r.pending))
    && (forall i :: i in r.pending ==> i < |r.spawns|)
  }

  predicate Holding(stage: Stage)
  {
    stage.Published? || !IsSettled(stage)
  }

  /** No two spawns of an owner that hold a name hold the same one, and names of unsettled spawns are reserved. */
  predicate NamesOk(r: Registry)
  {
    && (forall i, j :: 0 <= i < j < |r.spawns| && Holding(r.spawns[i].stage) && Holding(r.spawns[j].stage)
                       && r.spawns[i].owner == r.spawns[j].owner && r.spawns[i].name.Some? ==>
          r.spawns[i].name != r.spawns[j].name)
    && (forall i :: 0 <= i < |r.spawns| && !IsSettled(r.spawns[i].stage) && r.spawns[i].name.Some? ==>
          (r.spawns[i].owner, r.spawns[i].name.value) in r.reserved)
  }

  /** The close on record is the only one in flight for its session. */
  predicate ClosesOk(r: Registry)
  {
    && (forall k :: 0 <= k < |r.closes| ==>
          && r.closes[k].session < |r.spawns|
          && (r.closes[k].state.InFlight? ==> r.closes[k].session in r.sessions && r.sessions[r.closes[k].session] == Some(k))
          && (r.closes[k].state.Succeeded? ==> r.closes[k].session !in r.sessions && r.spawns[r.closes[k].session].stage.Ended?))
    && (forall i :: i in r.sessions && r.sessions[i].Some? ==>
          r.sessions[i].value < |r.closes| && r.closes[r.sessions[i].value] == CloseOp(i, InFlight))
  }

  /** What a disposal knows at each stage of its own. */
  predicate DisposalOk(r: Registry, d: Disposal)
  {
    && (if d.owner.Some? then d.owner.value in r.disposedOwners else r.disposing)
    && match d.phase
       case AwaitSettled(found) =>
         && (forall i :: i in r.pending && Covers(r, d.owner, i) ==> i in found)
         && (forall i :: i in found ==> Covers(r, d.owner, i))
       case AwaitClosed(closes, failed) =>
         && Quiet(r, d.owner)
         && (forall k :: k in closes ==> k < |r.closes|)
         && (forall i :: i in r.sessions && Covers(r, d.owner, i) ==> BeingClosed(r, closes, i))
       case Finished(ok) =>
         && Quiet(r, d.owner)
         && (ok ==> forall i :: i in r.sessions ==> !Covers(r, d.owner, i))
  }

  /** Nothing of the owner is pending, or will be. */
  predicate Quiet(r: Registry, owner: Option<nat>)
  {
    forall i :: 0 <= i < |r.spawns| && Covers(r, owner, i) ==> IsSettled(r.spawns[i].stage) && i !in r.pending
  }

  predicate BeingClosed(r: Registry, closes: set<nat>, i: nat)
  {
    exists k :: k in closes && k < |r.closes| && r.closes[k].session == i && !r.closes[k].state.Succeeded?
  }

  predicate DisposalsOk(r: Registry)
  {
    forall d :: 0 <= d < |r.disposals| ==> DisposalOk(r, r.disposals[d])
  }

  predicate FailedFor(r: Registry, d: Disposal, i: nat)
  {
    Covers(r, d.owner, i)
    && match d.phase
       case AwaitSettled(_) => false
       case AwaitClosed(_, failed) => failed
       case Finished(ok) => !ok
  }

  /** A session that could not be closed again after its spawn failed stays on record until a disposal fails over it. */
  predicate LeaksOk(r: Registry)
  {
    forall i :: 0 <= i < |r.spawns| && (r.spawns[i].stage.Leaked? || r.spawns[i].stage.BrokenSetup?) ==>
      i in r.pending || exists d :: 0 <= d < |r.disposals| && FailedFor(r, r.disposals[d], i)
  }

  predicate Sound(r: Registry)
  {
    SpawnsOk(r) && NamesOk(r) && ClosesOk(r) && DisposalsOk(r) && LeaksOk(r)
  }

  // ----- Steps keep them -----

  lemma BeginSpawnKeeps(r: Registry, owner: nat, name: Option<string>, live: bool)
    requires Sound(r) && MaySpawn(r, owner, name, live)
    ensures Sound(BeginSpawn(r, owner, name))
  {
    var t := BeginSpawn(r, owner, name);
    assert forall i :: 0 <= i < |r.spawns| ==> t.spawns[i] == r.spawns[i];
    SpawnNames(r, owner, name, live);
    forall d | 0 <= d < |r.disposals|
      ensures DisposalOk(t, r.disposals[d])
    {
      SpawnDisposal(r, owner, name, live, r.disposals[d]);
    }
    SpawnLeaks(r, owner, name);
  }

  lemma SpawnNames(r: Registry, owner: nat, name: Option<string>, live: bool)
    requires SpawnsOk(r) && NamesOk(r) && MaySpawn(r, owner, name, live)
    ensures NamesOk(BeginSpawn(r, owner, name))
  {
    if name.Some? {
      forall i | 0 <= i < |r.spawns| && Holding(r.spawns[i].stage) && r.spawns[i].owner == owner
        ensures r.spawns[i].name != name
      {
        assert r.spawns[i].stage.Published? ==> i in r.sessions;
      }
    }
  }

  lemma SpawnDisposal(r: Registry, owner: nat, name: Option<string>, live: bool, d: Disposal)
    requires MaySpawn(r, owner, name, live) && SpawnsOk(r) && DisposalOk(r, d)
    ensures DisposalOk(BeginSpawn(r, owner, name), d)
  {
    var t := BeginSpawn(r, owner, name);
    assert !Covers(t, d.owner, |r.spawns|);
    assert forall i :: 0 <= i < |r.spawns| ==> Covers(t, d.owner, i) == Covers(r, d.owner, i);
    if d.phase.AwaitClosed? {
      forall i | i in t.sessions && Covers(t, d.owner, i)
        ensures BeingClosed(t, d.phase.closes, i)
      {
        assert BeingClosed(r, d.phase.closes, i);
      }
    }
  }

  lemma SpawnLeaks(r: Registry, owner: nat, name: Option<string>)
    requires LeaksOk(r)
    ensures LeaksOk(BeginSpawn(r, owner, name))
  {
    var t := BeginSpawn(r, owner, name);
    forall i | 0 <= i < |r.spawns| && (r.spawns[i].stage.Leaked? || r.spawns[i].stage.BrokenSetup?)
      ensures i in t.pending || exists d :: 0 <= d < |t.disposals| && FailedFor(t, t.disposals[d], i)
    {
      if d :| 0 <= d < |r.disposals| && FailedFor(r, r.disposals[d], i) {
        assert FailedFor(t, t.disposals[d], i);
      }
    }
  }

  /** Stages of unsettled spawns that get no session. */
  lemma SettleKeeps(r: Registry, i: nat, stage: Stage)
    requires Sound(r) && i < |r.spawns| && !IsSettled(r.spawns[i].stage) && IsSettled(stage)
    requires !stage.Published? && !stage.Ended?
    ensures Sound(Settle(r, i, stage))
  {
    var t := Settle(r, i, stage);
    assert forall j :: 0 <= j < |r.spawns| && j != i ==> t.spawns[j] == r.spawns[j];
    SettleNames(r, i, stage);
    assert ClosesOk(t);
    StageDisposals(r, t, i);
    StageLeaks(r, t, i);
  }

  lemma SettleNames(r: Registry, i: nat, stage: Stage)
    requires NamesOk(r) && i < |r.spawns| && !IsSettled(r.spawns[i].stage) && IsSettled(stage)
    ensures NamesOk(Settle(r, i, stage))
  {
    var t := Settle(r, i, stage);
    forall j | 0 <= j < |t.spawns| && !IsSettled(t.spawns[j].stage) && t.spawns[j].name.Some?
      ensures (t.spawns[j].owner, t.spawns[j].name.value) in t.reserved
    {
      assert Holding(r.spawns[i].stage) && Holding(r.spawns[j].stage) && i != j;
    }
  }

  /** One spawn changes its stage and perhaps leaves the pending ones. */
  predicate Restaged(r: Registry, t: Registry, i: nat)
  {
    && i < |r.spawns| == |t.spawns| && t.spawns[i] == r.spawns[i].(stage := t.spawns[i].stage)
    && (forall j :: 0 <= j < |r.spawns| && j != i ==> t.spawns[j] == r.spawns[j])
    && t.pending <= r.pending && (forall j :: j in r.pending && j != i ==> j in t.pending)
    && t.disposals == r.disposals && t.disposedOwners == r.disposedOwners && t.disposing == r.disposing
  }

  lemma RestagedCovers(r: Registry, t: Registry, i: nat, owner: Option<nat>)
    requires Restaged(r, t, i)
    ensures forall j :: Covers(t, owner, j) == Covers(r, owner, j)
  {
  }

  lemma StageDisposals(r: Registry, t: Registry, i: nat)
    requires SpawnsOk(r) && DisposalsOk(r) && Restaged(r, t, i) && t.sessions == r.sessions && t.closes == r.closes
    requires !IsSettled(r.spawns[i].stage)
    ensures DisposalsOk(t)
  {
    forall d | 0 <= d < |t.disposals|
      ensures DisposalOk(t, t.disposals[d])
    {
      var disposal := r.disposals[d];
      assert DisposalOk(r, disposal);
      RestagedCovers(r, t, i, disposal.owner);
      if !disposal.phase.AwaitSettled? {
        assert !Covers(r, disposal.owner, i);
      }
      if disposal.phase.AwaitClosed? {
        forall j | j in t.sessions && Covers(t, disposal.owner, j)
          ensures BeingClosed(t, disposal.phase.closes, j)
        {
          assert BeingClosed(r, disposal.phase.closes, j);
        }
      }
    }
  }

  lemma StageLeaks(r: Registry, t: Registry, i: nat)
    requires LeaksOk(r) && Restaged(r, t, i)
    requires (t.spawns[i].stage.Leaked? || t.spawns[i].stage.BrokenSetup?) ==> i in t.pending
    ensures LeaksOk(t)
  {
    forall j | 0 <= j < |t.spawns| && j != i && (t.spawns[j].stage.Leaked? || t.spawns[j].stage.BrokenSetup?)
      ensures j in t.pending || exists d :: 0 <= d < |t.disposals| && FailedFor(t, t.disposals[d], j)
    {
      if d :| 0 <= d < |r.disposals| && FailedFor(r, r.disposals[d], j) {
        RestagedCovers(r, t, i, r.disposals[d].owner);
        assert FailedFor(t, t.disposals[d], j);
      }
    }
  }

  lemma RollBackKeeps(r: Registry, i: nat)
    requires Sound(r) && i < |r.spawns| && r.spawns[i].stage.Opening?
    ensures Sound(SetStage(r, i, RollingBack))
  {
    var t := SetStage(r, i, RollingBack);
    assert forall j :: 0 <= j < |r.spawns| ==> Holding(t.spawns[j].stage) == Holding(r.spawns[j].stage);
    StageDisposals(r, t, i);
    StageLeaks(r, t, i);
  }

  lemma PublishKeeps(r: Registry, i: nat)
    requires Sound(r) && i < |r.spawns| && r.spawns[i].stage.Opening?
    requires !r.disposing && r.spawns[i].owner !in r.disposedOwners
    ensures Sound(Settle(r, i, Published).(sessions := r.sessions[i := None]))
  {
    hide NamesOk, LeaksOk, DisposalOk, ClosesOk;
    var settled := Settle(r, i, Published);
    var t := settled.(sessions := r.sessions[i := None]);
    PublishBooks(r, i);
    SettleNames(r, i, Published);
    StageLeaks(r, t, i);
    forall d | 0 <= d < |t.disposals|
      ensures DisposalOk(t, t.disposals[d])
    {
      PublishDisposal(r, i, r.disposals[d]);
    }
  }

  lemma PublishBooks(r: Registry, i: nat)
    requires SpawnsOk(r) && ClosesOk(r) && i < |r.spawns| && r.spawns[i].stage.Opening?
    ensures ClosesOk(Settle(r, i, Published).(sessions := r.sessions[i := None]))
    ensures NamesOk(Settle(r, i, Published)) ==> NamesOk(Settle(r, i, Published).(sessions := r.sessions[i := None]))
  {
  }

  lemma PublishDisposal(r: Registry, i: nat, d: Disposal)
    requires i < |r.spawns| && !r.disposing && r.spawns[i].owner !in r.disposedOwners && DisposalOk(r, d)
    ensures DisposalOk(Settle(r, i, Published).(sessions := r.sessions[i := None]), d)
  {
    var t := Settle(r, i, Published).(sessions := r.sessions[i := None]);
    assert !Covers(r, d.owner, i);
    RestagedCovers(r, t, i, d.owner);
    if d.phase.AwaitClosed? {
      forall j | j in t.sessions && Covers(t, d.owner, j)
        ensures BeingClosed(t, d.phase.closes, j)
      {
        assert BeingClosed(r, d.phase.closes, j);
      }
    }
  }

  // ----- Closing -----

  /** Closing changes neither spawns nor disposals. */
  lemma BeginCloseKeeps(r: Registry, i: nat)
    requires Sound(r) && i in r.sessions && r.sessions[i].None?
    ensures Sound(BeginClose(r, i))
  {
    var t := BeginClose(r, i);
    assert ClosesOk(t) by {
      assert forall k :: 0 <= k < |r.closes| ==> t.closes[k] == r.closes[k];
    }
    MoreClosesKeepDisposals(r, t);
    MoreClosesKeepLeaks(r, t);
  }

  predicate MoreCloses(r: Registry, t: Registry)
  {
    && t == r.(closes := t.closes, sessions := t.sessions) && r.closes <= t.closes && t.sessions.Keys == r.sessions.Keys
  }

  lemma MoreClosesKeepDisposals(r: Registry, t: Registry)
    requires DisposalsOk(r) && MoreCloses(r, t)
    ensures DisposalsOk(t)
  {
    forall d | 0 <= d < |t.disposals|
      ensures DisposalOk(t, t.disposals[d])
    {
      var disposal := r.disposals[d];
      assert DisposalOk(r, disposal);
      assert forall j :: Covers(t, disposal.owner, j) == Covers(r, disposal.owner, j);
      if disposal.phase.AwaitClosed? {
        forall j | j in t.sessions && Covers(t, disposal.owner, j)
          ensures BeingClosed(t, disposal.phase.closes, j)
        {
          StillBeingClosed(r, t, disposal.phase.closes, j);
        }
      }
    }
  }

  lemma StillBeingClosed(r: Registry, t: Registry, closes: set<nat>, j: nat)
    requires r.closes <= t.closes && BeingClosed(r, closes, j)
    ensures BeingClosed(t, closes, j)
  {
    var k :| k in closes && k < |r.closes| && r.closes[k].session == j && !r.closes[k].state.Succeeded?;
    assert t.closes[k] == r.closes[k];
  }

  lemma MoreClosesKeepLeaks(r: Registry, t: Registry)
    requires LeaksOk(r) && t.spawns == r.spawns && t.pending == r.pending && t.disposals == r.disposals
    ensures LeaksOk(t)
  {
    forall i | 0 <= i < |t.spawns| && (t.spawns[i].stage.Leaked? || t.spawns[i].stage.BrokenSetup?)
      ensures i in t.pending || exists d :: 0 <= d < |t.disposals| && FailedFor(t, t.disposals[d], i)
    {
      if d :| 0 <= d < |r.disposals| && FailedFor(r, r.disposals[d], i) {
        assert FailedFor(t, t.disposals[d], i);
      }
    }
  }

  lemma CloseSucceededKeeps(r: Registry, k: nat)
    requires Sound(r) && k < |r.closes| && r.closes[k].state.InFlight?
    ensures Sound(SettleClose(r, k, true))
  {
    var t, i := SettleClose(r, k, true), r.closes[k].session;
    assert forall j :: 0 <= j < |r.spawns| && j != i ==> t.spawns[j] == r.spawns[j];
    assert forall l :: 0 <= l < |r.closes| && l != k ==> t.closes[l] == r.closes[l];
    assert ClosesOk(t);
    StageLeaks(r, t, i);
    forall d | 0 <= d < |t.disposals|
      ensures DisposalOk(t, t.disposals[d])
    {
      SettledDisposal(r, t, k, i, r.disposals[d]);
    }
  }

  /** A settled close counts for the disposals that wait for it. */
  lemma SettledDisposal(r: Registry, t: Registry, k: nat, i: nat, d: Disposal)
    requires DisposalOk(r, d) && Restaged(r, t, i) && t.pending == r.pending && k < |r.closes| == |t.closes|
    requires IsSettled(r.spawns[i].stage) && IsSettled(t.spawns[i].stage) && r.closes[k].session == i
    requires forall l :: 0 <= l < |r.closes| && l != k ==> t.closes[l] == r.closes[l]
    requires t.closes[k].session == i && (t.closes[k].state.Succeeded? ==> i !in t.sessions)
    requires forall j :: j in t.sessions ==> j in r.sessions
    ensures DisposalOk(t, d)
  {
    RestagedCovers(r, t, i, d.owner);
    if d.phase.AwaitClosed? {
      forall j | j in t.sessions && Covers(t, d.owner, j)
        ensures BeingClosed(t, d.phase.closes, j)
      {
        assert BeingClosed(r, d.phase.closes, j);
        var l :| l in d.phase.closes && l < |r.closes| && r.closes[l].session == j && !r.closes[l].state.Succeeded?;
        assert t.closes[l].session == j && !t.closes[l].state.Succeeded?;
      }
    }
  }

  lemma CloseFailedKeeps(r: Registry, k: nat)
    requires Sound(r) && k < |r.closes| && r.closes[k].state.InFlight?
    ensures Sound(SettleClose(r, k, false))
  {
    var t, i := SettleClose(r, k, false), r.closes[k].session;
    assert r.sessions[i] == Some(k);
    assert forall l :: 0 <= l < |r.closes| && l != k ==> t.closes[l] == r.closes[l];
    assert ClosesOk(t);
    StageLeaks(r, t, i);
    forall d | 0 <= d < |t.disposals|
      ensures DisposalOk(t, t.disposals[d])
    {
      SettledDisposal(r, t, k, i, r.disposals[d]);
    }
  }

  // ----- Disposing -----

  lemma BeginDisposalKeeps(r: Registry, owner: Option<nat>)
    requires Sound(r)
    ensures Sound(BeginDisposal(r, owner))
  {
    var t := BeginDisposal(r, owner);
    forall d | 0 <= d < |t.disposals|
      ensures DisposalOk(t, t.disposals[d])
    {
      if d < |r.disposals| {
        var disposal := r.disposals[d];
        assert DisposalOk(r, disposal);
        assert forall j :: Covers(t, disposal.owner, j) == Covers(r, disposal.owner, j);
        if disposal.phase.AwaitClosed? {
          forall j | j in t.sessions && Covers(t, disposal.owner, j)
            ensures BeingClosed(t, disposal.phase.closes, j)
          {
            StillBeingClosed(r, t, disposal.phase.closes, j);
          }
        }
      } else {
        assert forall j :: Covers(t, owner, j) == Covers(r, owner, j);
      }
    }
    forall i | 0 <= i < |t.spawns| && (t.spawns[i].stage.Leaked? || t.spawns[i].stage.BrokenSetup?)
      ensures i in t.pending || exists d :: 0 <= d < |t.disposals| && FailedFor(t, t.disposals[d], i)
    {
      if d :| 0 <= d < |r.disposals| && FailedFor(r, r.disposals[d], i) {
        assert t.disposals[d] == r.disposals[d] && FailedFor(t, t.disposals[d], i);
      }
    }
  }

  lemma CloseOneKeeps(r: Registry, i: nat)
    requires SpawnsOk(r) && ClosesOk(r) && i in r.sessions && r.sessions[i].None?
    ensures SpawnsOk(BeginClose(r, i)) && ClosesOk(BeginClose(r, i)) && MoreCloses(r, BeginClose(r, i))
    ensures BeingClosed(BeginClose(r, i), {|r.closes|}, i)
  {
    var t := BeginClose(r, i);
    assert forall k :: 0 <= k < |r.closes| ==> t.closes[k] == r.closes[k];
    assert t.closes[|r.closes|] == CloseOp(i, InFlight);
  }

  lemma SharedClose(r: Registry, i: nat)
    requires ClosesOk(r) && i in r.sessions && r.sessions[i].Some?
    ensures r.sessions[i].value < |r.closes| && BeingClosed(r, {r.sessions[i].value}, i)
  {
    assert r.closes[r.sessions[i].value] == CloseOp(i, InFlight);
  }

  lemma {:induction false} CloseAllKeeps(r: Registry, owner: Option<nat>, n: nat)
    requires SpawnsOk(r) && ClosesOk(r) && n <= |r.spawns|
    ensures var (t, closes) := CloseAll(r, owner, n);
      && MoreCloses(r, t) && SpawnsOk(t) && ClosesOk(t)
      && (forall k :: k in closes ==> k < |t.closes|)
      && (forall i :: 0 <= i < n && i in t.sessions && Covers(t, owner, i) ==> BeingClosed(t, closes, i))
  {
    hide BeingClosed, ClosesOk, SpawnsOk, BeginClose;
    if n > 0 {
      CloseAllKeeps(r, owner, n - 1);
      var (before, closes) := CloseAll(r, owner, n - 1);
      var (t, all) := CloseAll(r, owner, n);
      var i := n - 1;
      if i in before.sessions && Covers(before, owner, i) {
        if before.sessions[i].None? {
          CloseOneKeeps(before, i);
          MoreWaiting(t, {|before.closes|}, all, i);
        } else {
          SharedClose(before, i);
          MoreWaiting(t, {before.sessions[i].value}, all, i);
        }
      }
      forall j | 0 <= j < n - 1 && j in t.sessions && Covers(t, owner, j)
        ensures BeingClosed(t, all, j)
      {
        StillBeingClosed(before, t, closes, j);
        MoreWaiting(t, closes, all, j);
      }
      if i in before.sessions && Covers(before, owner, i) && before.sessions[i].None? {
        NewCloseIsKnown(before, i);
      }
    }
  }

  lemma NewCloseIsKnown(r: Registry, i: nat)
    ensures |BeginClose(r, i).closes| == |r.closes| + 1
  {
  }

  lemma MoreWaiting(r: Registry, a: set<nat>, b: set<nat>, j: nat)
    requires a <= b && BeingClosed(r, a, j)
    ensures BeingClosed(r, b, j)
  {
  }

  lemma GoOnKeeps(r: Registry, d: nat)
    requires Sound(r) && d < |r.disposals| && r.disposals[d].phase.AwaitSettled? && AllSettled(r, r.disposals[d].phase.found)
    ensures Sound(GoOn(r, d))
  {
    var found, owner := r.disposals[d].phase.found, r.disposals[d].owner;
    var less := r.(pending := r.pending - found);
    assert DisposalOk(r, r.disposals[d]);
    assert SpawnsOk(less) && ClosesOk(less);
    CloseAllKeeps(less, owner, |r.spawns|);
    var (closing, closes) := CloseAll(less, owner, |r.spawns|);
    var t := GoOn(r, d);
    assert t == closing.(disposals := t.disposals);
    GoOnDisposals(r, d, closing, closes);
    GoOnLeaks(r, d, closing, closes);
  }

  lemma GoOnDisposals(r: Registry, d: nat, closing: Registry, closes: set<nat>)
    requires SpawnsOk(r) && DisposalsOk(r) && d < |r.disposals| && r.disposals[d].phase.AwaitSettled?
    requires AllSettled(r, r.disposals[d].phase.found)
    requires MoreCloses(r.(pending := r.pending - r.disposals[d].phase.found), closing)
    requires forall k :: k in closes ==> k < |closing.closes|
    requires forall i :: 0 <= i < |r.spawns| && i in closing.sessions && Covers(closing, r.disposals[d].owner, i) ==>
               BeingClosed(closing, closes, i)
    ensures DisposalsOk(SetPhase(closing, d, AwaitClosed(closes, AnyFailure(r, r.disposals[d].phase.found))))
  {
    var found, owner := r.disposals[d].phase.found, r.disposals[d].owner;
    var t := SetPhase(closing, d, AwaitClosed(closes, AnyFailure(r, found)));
    assert DisposalOk(r, r.disposals[d]);
    forall e | 0 <= e < |t.disposals|
      ensures DisposalOk(t, t.disposals[e])
    {
      var disposal := r.disposals[e];
      assert DisposalOk(r, disposal);
      assert forall j :: Covers(t, disposal.owner, j) == Covers(r, disposal.owner, j) == Covers(closing, disposal.owner, j);
      if e == d {
        forall i | i in t.sessions && Covers(t, owner, i)
          ensures BeingClosed(t, closes, i)
        {
          StillBeingClosed(closing, t, closes, i);
        }
      } else if disposal.phase.AwaitClosed? {
        forall j | j in t.sessions && Covers(t, disposal.owner, j)
          ensures BeingClosed(t, disposal.phase.closes, j)
        {
          StillBeingClosed(r, t, disposal.phase.closes, j);
        }
      }
    }
  }

  lemma GoOnLeaks(r: Registry, d: nat, closing: Registry, closes: set<nat>)
    requires LeaksOk(r) && SpawnsOk(r) && DisposalsOk(r) && d < |r.disposals| && r.disposals[d].phase.AwaitSettled?
    requires MoreCloses(r.(pending := r.pending - r.disposals[d].phase.found), closing)
    ensures LeaksOk(SetPhase(closing, d, AwaitClosed(closes, AnyFailure(r, r.disposals[d].phase.found))))
  {
    var found := r.disposals[d].phase.found;
    var t := SetPhase(closing, d, AwaitClosed(closes, AnyFailure(r, found)));
    forall i | 0 <= i < |t.spawns| && (t.spawns[i].stage.Leaked? || t.spawns[i].stage.BrokenSetup?)
      ensures i in t.pending || exists e :: 0 <= e < |t.disposals| && FailedFor(t, t.disposals[e], i)
    {
      if e :| 0 <= e < |r.disposals| && FailedFor(r, r.disposals[e], i) {
        assert e != d && FailedFor(t, t.disposals[e], i);
      } else if i in found {
        assert DisposalOk(r, r.disposals[d]);
        assert FailedFor(t, t.disposals[d], i);
      }
    }
  }

  lemma ConcludeKeeps(r: Registry, d: nat)
    requires Sound(r) && d < |r.disposals| && r.disposals[d].phase.AwaitClosed?
    ensures Sound(Conclude(r, d))
  {
    var t, owner, phase := Conclude(r, d), r.disposals[d].owner, r.disposals[d].phase;
    assert DisposalOk(r, r.disposals[d]);
    assert owner.None? ==> forall i :: i in r.pending ==> !Covers(r, owner, i);
    assert t.pending == r.pending;
    forall e | 0 <= e < |t.disposals|
      ensures DisposalOk(t, t.disposals[e])
    {
      var disposal := r.disposals[e];
      assert DisposalOk(r, disposal);
      assert forall j :: Covers(t, disposal.owner, j) == Covers(r, disposal.owner, j);
      if e == d {
        if ClosesSucceeded(r, phase.closes) {
          forall i | i in t.sessions
            ensures !Covers(t, owner, i)
          {
            assert Covers(r, owner, i) ==> BeingClosed(r, phase.closes, i);
          }
        }
      } else if disposal.phase.AwaitClosed? {
        forall j | j in t.sessions && Covers(t, disposal.owner, j)
          ensures BeingClosed(t, disposal.phase.closes, j)
        {
          StillBeingClosed(r, t, disposal.phase.closes, j);
        }
      }
    }
    forall i | 0 <= i < |t.spawns| && (t.spawns[i].stage.Leaked? || t.spawns[i].stage.BrokenSetup?)
      ensures i in t.pending || exists e :: 0 <= e < |t.disposals| && FailedFor(t, t.disposals[e], i)
    {
      if e :| 0 <= e < |r.disposals| && FailedFor(r, r.disposals[e], i) {
        assert FailedFor(t, t.disposals[e], i);
      }
    }
  }

  // ----- Every run -----

  lemma ReturnKeeps(r: Registry, i: nat, result: BackendResult, live: bool, aborted: bool)
    requires Sound(r) && i < |r.spawns| && r.spawns[i].stage.Opening?
    ensures Sound(BackendReturned(r, i, result, live, aborted))
  {
    hide Sound, Settle, SetStage;
    if result.NoSession? {
      SettleKeeps(r, i, if result.cleanupFailed then BrokenSetup else Refused);
    } else if aborted || r.disposing || !live || r.spawns[i].owner in r.disposedOwners {
      RollBackKeeps(r, i);
    } else {
      PublishKeeps(r, i);
    }
  }

  lemma StepKeeps(r: Registry, action: Action)
    requires Sound(r)
    ensures Sound(Step(r, action))
  {
    hide Sound, MaySpawn, BeginSpawn, BackendReturned, Settle, BeginClose, SettleClose, BeginDisposal, AllSettled, GoOn;
    hide ClosesSettled, Conclude;
    match action {
      case CallSpawn(owner, name, live) =>
        if MaySpawn(r, owner, name, live) {
          BeginSpawnKeeps(r, owner, name, live);
        }
      case Return(i, result, live, aborted) =>
        if i < |r.spawns| && r.spawns[i].stage.Opening? {
          ReturnKeeps(r, i, result, live, aborted);
        }
      case RollbackDone(i, ok) =>
        if i < |r.spawns| && r.spawns[i].stage.RollingBack? {
          SettleKeeps(r, i, if ok then RolledBack else Leaked);
        }
      case Kill(i) =>
        if i in r.sessions && r.sessions[i].None? {
          BeginCloseKeeps(r, i);
        }
      case CloseDone(k, ok) =>
        if k < |r.closes| && r.closes[k].state.InFlight? {
          if ok {
            CloseSucceededKeeps(r, k);
          } else {
            CloseFailedKeeps(r, k);
          }
        }
      case DisposeOwner(owner) => BeginDisposalKeeps(r, Some(owner));
      case DisposeService => BeginDisposalKeeps(r, None);
      case Proceed(d) =>
        if d < |r.disposals| && r.disposals[d].phase.AwaitSettled? && AllSettled(r, r.disposals[d].phase.found) {
          GoOnKeeps(r, d);
        }
      case End(d) =>
        if d < |r.disposals| && r.disposals[d].phase.AwaitClosed? {
          ConcludeKeeps(r, d);
        }
    }
  }

  lemma {:induction false} RunKeeps(r: Registry, actions: seq<Action>)
    requires Sound(r)
    ensures Sound(Run(r, actions))
    decreases |actions|
  {
    hide Sound, Step;
    if actions != [] {
      RunKeeps(r, actions[..|actions| - 1]);
      StepKeeps(Run(r, actions[..|actions| - 1]), actions[|actions| - 1]);
    }
  }

  lemma NewIsOk()
    ensures Sound(NewRegistry())
  {
  }

  predicate SameName(a: Spawn, b: Spawn)
  {
    a.owner == b.owner && a.name.Some? && a.name == b.name
  }

  /** In every run, at every moment: sessions that are published or being opened have different names for each owner, the
      published spawns are exactly those with a session, and no session is being closed twice at once. */
  lemma RegistryIsSafe(actions: seq<Action>, i: nat, j: nat, k: nat, l: nat)
    ensures var r := Run(NewRegistry(), actions);
      && (i < j < |r.spawns| && SameName(r.spawns[i], r.spawns[j]) ==> !Holding(r.spawns[i].stage) || !Holding(r.spawns[j].stage))
      && (i < |r.spawns| ==> (r.spawns[i].stage.Published? <==> i in r.sessions))
      && (k < l < |r.closes| && r.closes[k].state.InFlight? && r.closes[l].state.InFlight? ==>
            r.closes[k].session != r.closes[l].session)
  {
    hide Run, DisposalsOk, LeaksOk;
    NewIsOk();
    RunKeeps(NewRegistry(), actions);
  }

  /** A session that could be neither published nor closed again is never forgotten: it is on record, or a disposal that
      had to do with it has failed. */
  lemma LeaksAreReported(actions: seq<Action>, i: nat)
    requires i < |Run(NewRegistry(), actions).spawns|
    requires var stage := Run(NewRegistry(), actions).spawns[i].stage; stage.Leaked? || stage.BrokenSetup?
    ensures var r := Run(NewRegistry(), actions);
            i in r.pending || exists d :: 0 <= d < |r.disposals| && FailedFor(r, r.disposals[d], i)
  {
    hide Run, FailedFor;
    NewIsOk();
    RunKeeps(NewRegistry(), actions);
  }

  lemma FinishedStays(r: Registry, action: Action, d: nat, ok: bool)
    requires Sound(r) && d < |r.disposals| && r.disposals[d].phase == Finished(ok)
    ensures d < |Step(r, action).disposals| && Step(r, action).disposals[d] == r.disposals[d]
  {
    hide Sound, Settle, BeginClose, CloseAll, MaySpawn, AllSettled, ClosesSettled, SettleClose;
    if action.CloseDone? && action.close < |r.closes| && r.closes[action.close].session < |r.spawns| {
      SettleCloseFrame(r, action.close, action.ok);
    }
    if action.Return? && action.spawn < |r.spawns| {
      SettleFrame(r, action.spawn);
    }
    if action.RollbackDone? && action.spawn < |r.spawns| {
      SettleFrame(r, action.spawn);
    }
    if action.Kill? {
      BeginCloseFrame(r, action.session);
    }
  }

  lemma CloseTarget(r: Registry, k: nat)
    requires Sound(r) && k < |r.closes|
    ensures r.closes[k].session < |r.spawns|
    ensures r.closes[k].state.InFlight? ==> r.spawns[r.closes[k].session].stage.Published?
  {
  }

  lemma SettleCloseFrame(r: Registry, k: nat, ok: bool)
    requires k < |r.closes| && r.closes[k].session < |r.spawns|
    ensures SettleClose(r, k, ok).disposals == r.disposals
  {
  }

  lemma SettleFrame(r: Registry, i: nat)
    requires i < |r.spawns|
    ensures forall stage :: Settle(r, i, stage).disposals == r.disposals
  {
  }

  lemma BeginCloseFrame(r: Registry, i: nat)
    ensures BeginClose(r, i).disposals == r.disposals
  {
  }

  lemma {:induction false} RunKeepsFinished(r: Registry, actions: seq<Action>, d: nat, ok: bool)
    requires Sound(r) && d < |r.disposals| && r.disposals[d].phase == Finished(ok)
    ensures Sound(Run(r, actions)) && d < |Run(r, actions).disposals| && Run(r, actions).disposals[d] == r.disposals[d]
    decreases |actions|
  {
    hide Sound, Step;
    if actions != [] {
      RunKeepsFinished(r, actions[..|actions| - 1], d, ok);
      FinishedStays(Run(r, actions[..|actions| - 1]), actions[|actions| - 1], d, ok);
      StepKeeps(Run(r, actions[..|actions| - 1]), actions[|actions| - 1]);
    }
  }

  /** Once the disposal of an owner, or of the service, has succeeded, none of its sessions is published, then or at any
      later time, and every spawn of it has come to an end: refused, rolled back, closed, or a leak over which some other
      disposal failed. */
  lemma DisposedStaysEmpty(r: Registry, actions: seq<Action>, d: nat, i: nat)
    requires Sound(r) && d < |r.disposals| && r.disposals[d].phase == Finished(true)
    requires Covers(Run(r, actions), r.disposals[d].owner, i)
    ensures var t := Run(r, actions); var stage := t.spawns[i].stage;
      && i !in t.sessions
      && (stage.Refused? || stage.RolledBack? || stage.Ended?
          || exists e :: 0 <= e < |t.disposals| && e != d && FailedFor(t, t.disposals[e], i))
  {
    hide Run, NamesOk, ClosesOk;
    RunKeepsFinished(r, actions, d, true);
    var t := Run(r, actions);
    assert DisposalOk(t, t.disposals[d]);
    if t.spawns[i].stage.Leaked? || t.spawns[i].stage.BrokenSetup? {
      var e :| 0 <= e < |t.disposals| && FailedFor(t, t.disposals[e], i);
      assert e != d;
    }
  }
}
