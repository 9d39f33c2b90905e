/** The terminal service as an object; each method is the code between two awaits. */
module TerminalService {
  import opened Text
  import opened TerminalRegistry

  predicate Requested(requests: map<nat, (nat, Option<string>)>, spawns: seq<Spawn>)
  {
    forall i :: 0 <= i < |spawns| ==> i in requests && requests[i] == (spawns[i].owner, spawns[i].name)
  }

  ghost predicate FailuresOf(failures: set<nat>, spawns: seq<Spawn>)
  {
    forall i :: i in failures <==> 0 <= i < |spawns| && (spawns[i].stage.Leaked? || spawns[i].stage.BrokenSetup?)
  }

  lemma CallSpawnIsBeginSpawn(r: Registry, owner: nat, name: Option<string>, live: bool)
    ensures Step(r, CallSpawn(owner, name, live)) == if MaySpawn(r, owner, name, live) then BeginSpawn(r, owner, name) else r
  {
  }

  lemma TakenNames(r: Registry, requests: map<nat, (nat, Option<string>)>, owner: nat, name: string)
    requires SpawnsOk(r) && Requested(requests, r.spawns)
    ensures NameTaken(r, owner, name)
            <==> (owner, name) in r.reserved || exists i :: i in r.sessions && i in requests && requests[i] == (owner, Some(name))
  {
  }

  lemma PendingIsRequested(r: Registry, requests: map<nat, (nat, Option<string>)>)
    requires Sound(r) && Requested(requests, r.spawns)
    ensures forall i :: i in r.pending ==> i < |r.spawns| && i in requests && requests[i].0 == r.spawns[i].owner
  {
    hide NamesOk, ClosesOk, DisposalsOk, LeaksOk;
  }

  class SuccinixTerminalService {
    /** Owner and name of every id handed out. */
    var requests: map<nat, (nat, Option<string>)>
    var sessions: map<nat, Option<nat>>
    var pending: set<nat>
    var cleanupFailures: set<nat>
    var reserved: set<(nat, string)>
    var nextId: nat
    var nextClose: nat
    var disposedOwners: set<nat>
    var disposing: bool
    ghost var spawns: seq<Spawn>
    ghost var closes: seq<CloseOp>
    ghost var disposals: seq<Disposal>

    ghost function View(): Registry
      reads this
    {
      Registry(spawns, sessions, pending, reserved, closes, disposedOwners, disposing, disposals)
    }

    /** The real fields say what the history says. */
    ghost predicate Valid()
      reads this
    {
      && Sound(View()) && nextId == |spawns| && nextClose == |closes|
      && Requested(requests, spawns) && FailuresOf(cleanupFailures, spawns)
    }

    constructor ()
      ensures Valid() && View() == NewRegistry()
    {
      requests, sessions, pending, cleanupFailures, reserved := map[], map[], {}, {}, {};
      nextId, nextClose, disposedOwners, disposing := 0, 0, {}, false;
      spawns, closes, disposals := [], [], [];
      NewIsOk();
    }

    method MayHave(owner: nat, name: Option<string>, live: bool) returns (ok: bool)
      requires Valid()
      ensures ok == MaySpawn(View(), owner, name, live)
    {
      if disposing || !live || owner in disposedOwners {
        return false;
      }
      if name.None? {
        return true;
      }
      TakenNames(View(), requests, owner, name.value);
      return name.value != "" && (owner, name.value) !in reserved
             && !exists i :: i in sessions && i in requests && requests[i] == (owner, name);
    }

    /** Checks, reservation of the name, and the call of the backend. */
    method BeginSpawning(owner: nat, name: Option<string>, live: bool) returns (id: Option<nat>)
      requires Valid()
      modifies this
      ensures Valid() && View() == Step(old(View()), CallSpawn(owner, name, live))
      ensures id == if MaySpawn(old(View()), owner, name, live) then Some(|old(spawns)|) else None
    {
      hide Sound, MaySpawn, Step;
      CallSpawnIsBeginSpawn(View(), owner, name, live);
      var ok := MayHave(owner, name, live);
      if !ok {
        return None;
      }
      BeginSpawnKeeps(View(), owner, name, live);
      if name.Some? {
        reserved := reserved + {(owner, name.value)};
      }
      id := Some(nextId);
      requests := requests[nextId := (owner, name)];
      pending := pending + {nextId};
      spawns := spawns + [Spawn(owner, name, Opening)];
      nextId := nextId + 1;
    }

    /** The `finally` of a spawn. */
    method Release(i: nat, stage: Stage)
      requires i < |spawns| && Requested(requests, spawns) && FailuresOf(cleanupFailures, spawns) && IsSettled(stage)
      requires !IsSettled(spawns[i].stage)
      modifies this`spawns, this`pending, this`reserved, this`cleanupFailures
      ensures View() == Settle(old(View()), i, stage)
      ensures Requested(requests, spawns) && FailuresOf(cleanupFailures, spawns)
    {
      var owner, name := requests[i].0, requests[i].1;
      if stage.Leaked? || stage.BrokenSetup? {
        cleanupFailures := cleanupFailures + {i};
      } else {
        pending := pending - {i};
      }
      if name.Some? {
        reserved := reserved - {(owner, name.value)};
      }
      spawns := spawns[i := spawns[i].(stage := stage)];
    }

    /** After the backend's answer: publish, or begin to roll back. */
    method BackendAnswered(i: nat, result: BackendResult, live: bool, aborted: bool) returns (rollBack: bool)
      requires Valid() && i < |spawns| && spawns[i].stage.Opening?
      modifies this
      ensures Valid() && View() == Step(old(View()), Return(i, result, live, aborted))
      ensures rollBack == View().spawns[i].stage.RollingBack?
    {
      hide Sound;
      ReturnKeeps(View(), i, result, live, aborted);
      if result.NoSession? {
        Release(i, if result.cleanupFailed then BrokenSetup else Refused);
        return false;
      }
      if aborted || disposing || !live || requests[i].0 in disposedOwners {
        spawns := spawns[i := spawns[i].(stage := RollingBack)];
        return true;
      }
      Release(i, Published);
      sessions := sessions[i := None];
      return false;
    }

    method RollbackSettled(i: nat, ok: bool)
      requires Valid() && i < |spawns| && spawns[i].stage.RollingBack?
      modifies this
      ensures Valid() && View() == Step(old(View()), RollbackDone(i, ok))
    {
      hide Sound;
      StepKeeps(View(), RollbackDone(i, ok));
      Release(i, if ok then RolledBack else Leaked);
    }

    /** A close is begun unless one is under way; `None` tells the caller to wait for that one. */
    method KillSession(i: nat) returns (close: Option<nat>)
      requires Valid() && i in sessions
      modifies this
      ensures Valid() && View() == Step(old(View()), Kill(i))
      ensures close.Some? <==> old(sessions)[i].None?
    {
      hide Sound;
      StepKeeps(View(), Kill(i));
      if sessions[i].Some? {
        return None;
      }
      close := Some(nextClose);
      StartClose(i);
    }

    method StartClose(i: nat)
      requires nextClose == |closes|
      modifies this`closes, this`sessions, this`nextClose
      ensures View() == BeginClose(old(View()), i) && nextClose == |closes|
    {
      closes := closes + [CloseOp(i, InFlight)];
      sessions := sessions[i := Some(nextClose)];
      nextClose := nextClose + 1;
    }

    /** The close of session `i` has ended. */
    method CloseSettled(i: nat, k: nat, ok: bool)
      requires Valid() && k < |closes| && closes[k] == CloseOp(i, InFlight)
      modifies this
      ensures Valid() && View() == Step(old(View()), CloseDone(k, ok))
    {
      hide Sound;
      StepKeeps(View(), CloseDone(k, ok));
      CloseTarget(View(), k);
      closes := closes[k := closes[k].(state := if ok then Succeeded else Failed)];
      if ok {
        spawns := spawns[i := spawns[i].(stage := Ended)];
        sessions := sessions - {i};
      } else if i in sessions && sessions[i] == Some(k) {
        sessions := sessions[i := None];
      }
    }

    /** An owner, or the service, is marked, and what is pending is aborted and then waited for. */
    method StartDisposal(owner: Option<nat>) returns (found: set<nat>)
      requires Valid()
      modifies this
      ensures Valid() && View() == BeginDisposal(old(View()), owner) && found == PendingOf(old(View()), owner)
    {
      hide Sound;
      BeginDisposalKeeps(View(), owner);
      found := set i | i in pending && i in requests && (owner.None? || owner.value == requests[i].0);
      PendingIsRequested(View(), requests);
      assert found == PendingOf(View(), owner);
      if owner.Some? {
        disposedOwners := disposedOwners + {owner.value};
      } else {
        disposing := true;
      }
      disposals := disposals + [Disposal(owner, AwaitSettled(found))];
    }

    /** Everything found pending has settled: the sessions there are now are closed. */
    method CloseRecords(d: nat, owner: Option<nat>, found: set<nat>) returns (awaited: set<nat>, failed: bool)
      requires Valid() && d < |disposals| && disposals[d] == Disposal(owner, AwaitSettled(found)) && AllSettled(View(), found)
      modifies this
      ensures Valid() && View() == Step(old(View()), Proceed(d))
      ensures View().disposals[d].phase == AwaitClosed(awaited, failed)
    {
      hide Sound, CloseAll;
      StepKeeps(View(), Proceed(d));
      failed := exists i :: i in found && i in cleanupFailures;
      assert failed == AnyFailure(View(), found);
      pending := pending - found;
      awaited := CloseEach(owner);
      disposals := disposals[d := Disposal(owner, AwaitClosed(awaited, failed))];
    }

    method CloseEach(owner: Option<nat>) returns (awaited: set<nat>)
      requires nextId == |spawns| && nextClose == |closes| && Requested(requests, spawns)
      modifies this`closes, this`sessions, this`nextClose
      ensures (View(), awaited) == CloseAll(old(View()), owner, |spawns|) && nextClose == |closes|
    {
      awaited := {};
      var i := 0;
      while i < nextId
        invariant 0 <= i <= nextId && nextClose == |closes|
        invariant (View(), awaited) == CloseAll(old(View()), owner, i)
      {
        if i in sessions && (owner.None? || owner.value == requests[i].0) {
          if sessions[i].Some? {
            awaited := awaited + {sessions[i].value};
          } else {
            awaited := awaited + {nextClose};
            StartClose(i);
          }
        }
        i := i + 1;
      }
    }

    /** All closes have ended. */
    method FinishDisposal(d: nat, owner: Option<nat>, failed: bool, ghost awaited: set<nat>, allSucceeded: bool) returns (ok: bool)
      requires Valid() && d < |disposals| && disposals[d] == Disposal(owner, AwaitClosed(awaited, failed))
      requires ClosesSettled(View(), awaited) && allSucceeded == ClosesSucceeded(View(), awaited)
      modifies this
      ensures Valid() && View() == Step(old(View()), End(d)) && View().disposals[d].phase == Finished(ok)
    {
      hide Sound, ClosesSucceeded, ClosesSettled;
      StepKeeps(View(), End(d));
      ok := !failed && allSucceeded;
      disposals := disposals[d := Disposal(owner, Finished(ok))];
      if owner.Some? {
        reserved := set p | p in reserved && p.0 != owner.value;
      } else {
        reserved, pending := {}, {};
      }
    }
  }
}
