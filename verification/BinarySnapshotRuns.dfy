/** What saving, stopping and clearing do to the snapshots that can be restored. */
module BinarySnapshotRuns {
  import opened Text
  import opened BinarySnapshot

  // ----- Frames -----

  /** The two stores agree on one generation of one instance. */
  ghost predicate SameGeneration(instanceId: string, generation: nat, a: Store, b: Store)
  {
    && SameManifest(ManifestKey(instanceId, generation), a, b)
    && (forall i: nat :: SameChunk(ChunkKey(instanceId, generation, i), a, b))
  }

  predicate SameManifest(key: string, a: Store, b: Store)
  {
    (key in a.manifests <==> key in b.manifests) && (key in a.manifests ==> a.manifests[key] == b.manifests[key])
  }

  predicate SameChunk(key: string, a: Store, b: Store)
  {
    (key in a.chunks <==> key in b.chunks) && (key in a.chunks ==> a.chunks[key] == b.chunks[key])
  }

  lemma {:induction false} SameChunksReadTheSame(o: Options, generation: nat, a: Store, b: Store, byteSize: nat, n: nat)
    requires SameGeneration(o.instanceId, generation, a, b)
    ensures ReadChunks(o, a, generation, byteSize, n) == ReadChunks(o, b, generation, byteSize, n)
  {
    hide ChunkKey, ManifestKey;
    if n > 0 {
      SameChunksReadTheSame(o, generation, a, b, byteSize, n - 1);
      assert SameChunk(ChunkKey(o.instanceId, generation, n - 1), a, b);
    }
  }

  lemma SameGenerationLoadsTheSame(o: Options, generation: nat, a: Store, b: Store)
    requires SameGeneration(o.instanceId, generation, a, b)
    ensures Load(o, a, generation) == Load(o, b, generation)
  {
    hide ChunkKey, ManifestKey, ReadChunks;
    var key := ManifestKey(o.instanceId, generation);
    assert SameManifest(key, a, b);
    if key in a.manifests {
      SameChunksReadTheSame(o, generation, a, b, a.manifests[key].byteSize, a.manifests[key].chunkCount);
    }
  }

  /** An operation on the chunks or the manifest of one generation. */
  predicate OpOf(op: Op, instanceId: string, generation: nat, count: nat)
  {
    match op
    case PutChunk(key, _) => exists i :: 0 <= i < count && key == ChunkKey(instanceId, generation, i)
    case DeleteChunk(key) => exists i :: 0 <= i < count && key == ChunkKey(instanceId, generation, i)
    case PutManifest(key, _) => key == ManifestKey(instanceId, generation)
    case DeleteManifest(key) => key == ManifestKey(instanceId, generation)
    case _ => false
  }

  predicate OpsOf(ops: seq<Op>, instanceId: string, generation: nat, count: nat)
  {
    forall j :: 0 <= j < |ops| ==> OpOf(ops[j], instanceId, generation, count)
  }

  lemma OpLeavesOthersAlone(store: Store, op: Op, instanceId: string, generation: nat, count: nat, other: string, h: nat)
    requires OpOf(op, instanceId, generation, count) && (other != instanceId || h != generation)
    ensures SameGeneration(other, h, Apply(store, op), store) && Apply(store, op).pointers == store.pointers
  {
    hide ChunkKey, ManifestKey;
    KeysAreInjective(instanceId, other, generation, h, 0, 0);
    forall i: nat
      ensures SameChunk(ChunkKey(other, h, i), Apply(store, op), store)
    {
      forall j: nat
        ensures ChunkKey(instanceId, generation, j) != ChunkKey(other, h, i)
      {
        KeysAreInjective(instanceId, other, generation, h, j, i);
      }
    }
  }

  lemma {:induction false} OpsLeaveOthersAlone(store: Store, ops: seq<Op>, instanceId: string, generation: nat, count: nat,
                                               other: string, h: nat)
    requires OpsOf(ops, instanceId, generation, count) && (other != instanceId || h != generation)
    ensures SameGeneration(other, h, ApplyAll(store, ops), store) && ApplyAll(store, ops).pointers == store.pointers
    decreases |ops|
  {
    hide OpOf, Apply, SameGeneration, ChunkKey, ManifestKey;
    if ops == [] {
      Reflexive(other, h, store);
    } else {
      var front := ops[..|ops| - 1];
      OpsLeaveOthersAlone(store, front, instanceId, generation, count, other, h);
      OpLeavesOthersAlone(ApplyAll(store, front), ops[|ops| - 1], instanceId, generation, count, other, h);
      Transitive(other, h, ApplyAll(store, ops), ApplyAll(store, front), store);
    }
  }

  lemma Reflexive(instanceId: string, generation: nat, a: Store)
    ensures SameGeneration(instanceId, generation, a, a)
  {
  }

  lemma Transitive(instanceId: string, generation: nat, a: Store, b: Store, c: Store)
    requires SameGeneration(instanceId, generation, a, b) && SameGeneration(instanceId, generation, b, c)
    ensures SameGeneration(instanceId, generation, a, c)
  {
    hide ChunkKey, ManifestKey;
    forall i: nat
      ensures SameChunk(ChunkKey(instanceId, generation, i), a, c)
    {
      assert SameChunk(ChunkKey(instanceId, generation, i), a, b) && SameChunk(ChunkKey(instanceId, generation, i), b, c);
    }
  }

  lemma {:induction false} SameLoadsSameChoice(o: Options, a: Store, b: Store, imports: Snapshot -> bool, candidates: seq<nat>)
    requires candidates != [] && forall i :: 0 <= i < |candidates| ==> Load(o, a, candidates[i]) == Load(o, b, candidates[i])
    ensures FirstOf(o, a, imports, candidates) == FirstOf(o, b, imports, candidates)
    decreases |candidates|
  {
    hide Load;
    if |candidates| > 1 {
      SameLoadsSameChoice(o, a, b, imports, candidates[1..]);
    }
  }

  lemma SamePointedRestoresTheSame(o: Options, a: Store, b: Store, imports: Snapshot -> bool)
    requires a.pointers == b.pointers
    requires var p := PointerOf(o, a);
      && (p.current.Some? ==> SameGeneration(o.instanceId, p.current.value, a, b))
      && (p.lastKnownGood.Some? ==> SameGeneration(o.instanceId, p.lastKnownGood.value, a, b))
    ensures Restore(o, a, imports, None) == Restore(o, b, imports, None)
    ensures Verify(o, a, None) == Verify(o, b, None)
  {
    hide Load, FirstOf, SameGeneration;
    var p := PointerOf(o, a);
    if p.current.Some? {
      SameGenerationLoadsTheSame(o, p.current.value, a, b);
    }
    if p.lastKnownGood.Some? {
      SameGenerationLoadsTheSame(o, p.lastKnownGood.value, a, b);
    }
    var candidates := Candidates(p, None);
    if candidates != [] {
      SameLoadsSameChoice(o, a, b, imports, candidates);
    }
  }

  // ----- Saving -----

  /** The puts of a save, but for the pointer, are all of the new generation. */
  lemma SavePutsOnlyTheNewGeneration(o: Options, store: Store, data: seq<Byte>, details: string)
    requires ValidOptions(o)
    ensures var ops, m := SaveOps(o, store, data, details), ManifestFor(o, store, data, details);
      && |ops| == m.chunkCount + 2
      && OpsOf(ops[..|ops| - 1], o.instanceId, m.generation, m.chunkCount)
      && ops[|ops| - 1] == PutPointer(o.instanceId, Pointer(Some(m.generation), PointerOf(o, store).current))
  {
    hide ChunkKey, ManifestKey, Chunk, ChunkCount;
  }

  /** A stop before the pointer is written: no generation but the new one, of any instance, has changed, so restoring
      and verifying give what they gave before, whatever the import makes of it. */
  lemma StoppedSaveChangesNothing(o: Options, store: Store, data: seq<Byte>, details: string, k: nat,
                                  imports: Snapshot -> bool)
    requires ValidOptions(o) && k < |SaveOps(o, store, data, details)|
    ensures var after := ApplyAll(store, SaveOps(o, store, data, details)[..k]);
      && after.pointers == store.pointers
      && Restore(o, after, imports, None) == Restore(o, store, imports, None)
      && Verify(o, after, None) == Verify(o, store, None)
      && (forall other, h: nat :: other != o.instanceId || h != NextGeneration(PointerOf(o, store)) ==>
            SameGeneration(other, h, after, store))
  {
    hide ChunkKey, ManifestKey, Load, SaveOps, ChunkCount, ApplyAll, SameGeneration, OpOf;
    var ops, m := SaveOps(o, store, data, details), ManifestFor(o, store, data, details);
    SavePutsOnlyTheNewGeneration(o, store, data, details);
    var puts := ops[..k];
    assert forall j :: 0 <= j < k ==> puts[j] == ops[..|ops| - 1][j];
    var after := ApplyAll(store, puts);
    forall other, h: nat | other != o.instanceId || h != m.generation
      ensures SameGeneration(other, h, after, store)
    {
      OpsLeaveOthersAlone(store, puts, o.instanceId, m.generation, m.chunkCount, other, h);
    }
    OpsLeaveOthersAlone(store, puts, o.instanceId, m.generation, m.chunkCount, o.instanceId, m.generation + 1);
    SamePointedRestoresTheSame(o, after, store, imports);
  }

  lemma {:induction false} ChunksAreStored(o: Options, store: Store, generation: nat, data: seq<Byte>, n: nat)
    ensures var after := ApplyAll(store, ChunkPuts(o, generation, data, n));
      forall i :: 0 <= i < n ==>
        ChunkKey(o.instanceId, generation, i) in after.chunks
        && after.chunks[ChunkKey(o.instanceId, generation, i)] == Chunk(o, data, i)
  {
    hide ChunkKey, Chunk;
    if n > 0 {
      ChunksAreStored(o, store, generation, data, n - 1);
      var before := ChunkPuts(o, generation, data, n - 1);
      var last := PutChunk(ChunkKey(o.instanceId, generation, n - 1), Chunk(o, data, n - 1));
      assert ChunkPuts(o, generation, data, n) == before + [last];
      ApplyLast(store, before, last);
      forall i | 0 <= i < n - 1
        ensures ChunkKey(o.instanceId, generation, i) != ChunkKey(o.instanceId, generation, n - 1)
      {
        KeysAreInjective(o.instanceId, o.instanceId, generation, generation, i, n - 1);
      }
    }
  }

  /** What a save has written reads back as the bytes that were saved. */
  lemma SavedReadsBack(o: Options, store: Store, data: seq<Byte>, details: string)
    requires ValidOptions(o)
    ensures var ops, m := SaveOps(o, store, data, details), ManifestFor(o, store, data, details);
      var written := ApplyAll(store, ops[..|ops| - 1]);
      && ReadGeneration(o, written, m.generation, m) == Ok(data)
      && Load(o, written, m.generation) == Ok(Snapshot(data, m))
  {
    hide ChunkKey, Chunk, ChunkCount, ReadGeneration, ApplyAll;
    var ops, m := SaveOps(o, store, data, details), ManifestFor(o, store, data, details);
    var puts, last := ChunkPuts(o, m.generation, data, m.chunkCount), PutManifest(ManifestKey(o.instanceId, m.generation), m);
    assert ops[..|ops| - 1] == puts + [last];
    ApplyLast(store, puts, last);
    ChunksAreStored(o, store, m.generation, data, m.chunkCount);
    var written := ApplyAll(store, puts + [last]);
    assert StoredChunks(o, written, m.generation, m.chunkCount) == Chunks(o, data, m.chunkCount);
    ChunksSpellTheData(o, data);
    ReadsExactlyWhatIsSound(o, written, m.generation, m, data);
  }

  /** The verification before the pointer write always succeeds, so within the quota a save performs all its steps. */
  lemma SaveCompletes(o: Options, store: Store, data: seq<Byte>, details: string, headroom: Option<int>)
    requires ValidOptions(o)
    ensures Save(o, store, data, details, headroom)
         == if WithinQuota(o, store, |data|, headroom)
            then (ApplyAll(store, SaveOps(o, store, data, details)), Ok(ManifestFor(o, store, data, details)))
            else (store, Err(QuotaExceeded))
  {
    hide ReadGeneration, WithinQuota, ManifestFor, SaveOps;
    SavedReadsBack(o, store, data, details);
    var ops := SaveOps(o, store, data, details);
    SaveHasOps(o, store, data, details);
    ApplyLast(store, ops[..|ops| - 1], ops[|ops| - 1]);
    assert ops == ops[..|ops| - 1] + [ops[|ops| - 1]];
  }

  lemma SaveHasOps(o: Options, store: Store, data: seq<Byte>, details: string)
    requires ValidOptions(o)
    ensures SaveOps(o, store, data, details) != []
  {
  }

  // ----- Runs -----

  datatype Saved = Saved(data: seq<Byte>, details: string)

  /** What the store stands for: the exports its pointer names. */
  datatype Vault = Vault(current: Option<Saved>, previous: Option<Saved>)

  function Size(s: Option<Saved>): nat
  {
    if s.None? then 0 else |s.value.data|
  }

  predicate Carries(o: Options, store: Store, generation: Option<nat>, s: Option<Saved>)
  {
    && generation.Some? == s.Some?
    && (s.Some? ==>
          var loaded := Load(o, store, generation.value);
          loaded.Ok? && loaded.value.data == s.value.data && loaded.value.manifest.details == s.value.details)
  }

  /** Both pointed generations read back, and together they keep within the limit. */
  predicate Holds(o: Options, store: Store, v: Vault)
  {
    var p := PointerOf(o, store);
    && Carries(o, store, p.current, v.current) && Carries(o, store, p.lastKnownGood, v.previous)
    && (v.previous.Some? ==> v.current.Some? && p.lastKnownGood != p.current)
    && Size(v.current) + Size(v.previous) <= o.maxBytes
  }

  datatype Action =
    | SaveSnapshot(data: seq<Byte>, details: string, headroom: Option<int>, stop: Option<nat>)
    | ClearSnapshots

  /** A save that may be stopped behind some of its steps, or a whole clear. */
  function Perform(o: Options, store: Store, action: Action): Store
    requires ValidOptions(o)
  {
    match action
    case SaveSnapshot(data, details, headroom, stop) =>
      var ops := SaveOps(o, store, data, details);
      if stop.Some? && stop.value < |ops| && WithinQuota(o, store, |data|, headroom) then ApplyAll(store, ops[..stop.value])
      else Save(o, store, data, details, headroom).0
    case ClearSnapshots => ApplyAll(store, ClearOps(o, store))
  }

  function Run(o: Options, store: Store, actions: seq<Action>): Store
    requires ValidOptions(o)
    decreases |actions|
  {
    if actions == [] then store
    else Perform(o, Run(o, store, actions[..|actions| - 1]), actions[|actions| - 1])
  }

  predicate Fits(o: Options, v: Vault, size: nat, headroom: Option<int>)
  {
    var total := size + Size(v.current);
    total <= o.maxBytes && (headroom.Some? ==> total <= headroom.value)
  }

  /** The simple form: saving pushes the current export back one place, a stop or a full quota changes nothing. */
  function Effect(o: Options, v: Vault, action: Action): Vault
    requires ValidOptions(o)
  {
    match action
    case SaveSnapshot(data, details, headroom, stop) =>
      if !Fits(o, v, |data|, headroom) || (stop.Some? && stop.value < ChunkCount(o, |data|) + 2) then v
      else Vault(Some(Saved(data, details)), v.current)
    case ClearSnapshots => Vault(None, None)
  }

  function Kept(o: Options, v: Vault, actions: seq<Action>): Vault
    requires ValidOptions(o)
    decreases |actions|
  {
    if actions == [] then v else Effect(o, Kept(o, v, actions[..|actions| - 1]), actions[|actions| - 1])
  }

  lemma LoadedSize(o: Options, store: Store, generation: nat)
    requires Load(o, store, generation).Ok?
    ensures RecordedSize(o, store, Some(generation)) == |Load(o, store, generation).value.data|
  {
    var snapshot := Load(o, store, generation).value;
    LoadsExactlyWhatIsGenuine(o, store, generation, snapshot);
  }

  lemma QuotaOfVault(o: Options, store: Store, v: Vault, size: nat, headroom: Option<int>)
    requires Holds(o, store, v)
    ensures WithinQuota(o, store, size, headroom) == Fits(o, v, size, headroom)
  {
    hide Load;
    if v.current.Some? {
      LoadedSize(o, store, PointerOf(o, store).current.value);
    }
  }

  lemma StoppedSaveKeepsTheVault(o: Options, store: Store, v: Vault, data: seq<Byte>, details: string, k: nat)
    requires ValidOptions(o) && Holds(o, store, v) && k < |SaveOps(o, store, data, details)|
    ensures Holds(o, ApplyAll(store, SaveOps(o, store, data, details)[..k]), v)
  {
    hide Load, SaveOps, SameGeneration, ApplyAll;
    StoppedSaveChangesNothing(o, store, data, details, k, (s: Snapshot) => true);
    var p, after := PointerOf(o, store), ApplyAll(store, SaveOps(o, store, data, details)[..k]);
    if p.current.Some? {
      SameGenerationLoadsTheSame(o, p.current.value, after, store);
    }
    if p.lastKnownGood.Some? {
      SameGenerationLoadsTheSame(o, p.lastKnownGood.value, after, store);
    }
  }

  lemma PointerIsElsewhere(o: Options, store: Store, pointer: Pointer, generation: nat)
    ensures var after := Apply(store, PutPointer(o.instanceId, pointer));
            PointerOf(o, after) == pointer && Load(o, after, generation) == Load(o, store, generation)
  {
    hide ChunkKey, ManifestKey, Load;
    SameGenerationLoadsTheSame(o, generation, Apply(store, PutPointer(o.instanceId, pointer)), store);
  }

  /** From any store, spoiled or not: the new export reads back, and the generation that was current reads as before. */
  lemma SaveFromAnyStore(o: Options, store: Store, data: seq<Byte>, details: string)
    requires ValidOptions(o)
    ensures var m, p := ManifestFor(o, store, data, details), PointerOf(o, store);
      var after := ApplyAll(store, SaveOps(o, store, data, details));
      && PointerOf(o, after) == Pointer(Some(m.generation), p.current) && Some(m.generation) != p.current
      && Load(o, after, m.generation) == Ok(Snapshot(data, m))
      && (p.current.Some? ==> Load(o, after, p.current.value) == Load(o, store, p.current.value))
  {
    hide Load, SaveOps, SameGeneration, ApplyAll;
    var ops, m, p := SaveOps(o, store, data, details), ManifestFor(o, store, data, details), PointerOf(o, store);
    SavePutsOnlyTheNewGeneration(o, store, data, details);
    var written := ApplyAll(store, ops[..|ops| - 1]);
    SavedReadsBack(o, store, data, details);
    assert ops == ops[..|ops| - 1] + [ops[|ops| - 1]];
    ApplyLast(store, ops[..|ops| - 1], ops[|ops| - 1]);
    StoppedSaveChangesNothing(o, store, data, details, |ops| - 1, (s: Snapshot) => true);
    PointerIsElsewhere(o, written, ops[|ops| - 1].pointer, m.generation);
    if p.current.Some? {
      SameGenerationLoadsTheSame(o, p.current.value, written, store);
      PointerIsElsewhere(o, written, ops[|ops| - 1].pointer, p.current.value);
    }
  }

  lemma FullSavePushesTheVault(o: Options, store: Store, v: Vault, data: seq<Byte>, details: string)
    requires ValidOptions(o) && Holds(o, store, v) && |data| + Size(v.current) <= o.maxBytes
    ensures Holds(o, ApplyAll(store, SaveOps(o, store, data, details)), Vault(Some(Saved(data, details)), v.current))
  {
    hide Load, SaveOps, ApplyAll;
    SaveFromAnyStore(o, store, data, details);
  }

  /** After any save, from any store, the recorded sizes of the two pointed generations keep within the limit. */
  lemma SaveKeepsTheQuota(o: Options, store: Store, data: seq<Byte>, details: string, headroom: Option<int>)
    requires ValidOptions(o) && Save(o, store, data, details, headroom).1.Ok?
    ensures var after := Save(o, store, data, details, headroom).0; var p := PointerOf(o, after);
      && p == Pointer(Some(NextGeneration(PointerOf(o, store))), PointerOf(o, store).current)
      && RecordedSize(o, after, p.current) == |data|
      && RecordedSize(o, after, p.current) + RecordedSize(o, after, p.lastKnownGood) <= o.maxBytes
  {
    hide ChunkKey, ManifestKey, Load, SaveOps, SameGeneration, ApplyAll, ReadGeneration;
    SaveCompletes(o, store, data, details, headroom);
    SavePutsOnlyTheNewGeneration(o, store, data, details);
    SavedReadsBack(o, store, data, details);
    var ops, m := SaveOps(o, store, data, details), ManifestFor(o, store, data, details);
    var written := ApplyAll(store, ops[..|ops| - 1]);
    assert ops == ops[..|ops| - 1] + [ops[|ops| - 1]];
    ApplyLast(store, ops[..|ops| - 1], ops[|ops| - 1]);
    StoppedSaveChangesNothing(o, store, data, details, |ops| - 1, (s: Snapshot) => true);
    LoadedSize(o, written, m.generation);
    var p := PointerOf(o, store);
    if p.current.Some? {
      SameManifestSameSize(o, p.current.value, written, store);
    }
  }

  lemma SameManifestSameSize(o: Options, generation: nat, a: Store, b: Store)
    requires SameGeneration(o.instanceId, generation, a, b)
    ensures RecordedSize(o, a, Some(generation)) == RecordedSize(o, b, Some(generation))
  {
    hide ManifestKey, ChunkKey;
    assert SameManifest(ManifestKey(o.instanceId, generation), a, b);
  }

  lemma {:induction false} ClearedPointer(o: Options, store: Store)
    ensures Holds(o, ApplyAll(store, ClearOps(o, store)), Vault(None, None))
  {
    hide ChunkKey, ManifestKey, GenerationDeletes, ApplyAll;
    var ops := ClearOps(o, store);
    assert ops == ops[..|ops| - 1] + [DeletePointer(o.instanceId)];
    ApplyLast(store, ops[..|ops| - 1], DeletePointer(o.instanceId));
  }

  lemma PerformKeepsTheVault(o: Options, store: Store, v: Vault, action: Action)
    requires ValidOptions(o) && Holds(o, store, v)
    ensures Holds(o, Perform(o, store, action), Effect(o, v, action))
  {
    hide Load, SaveOps, ApplyAll, Holds, ClearOps, ChunkCount, WithinQuota;
    match action {
      case SaveSnapshot(data, details, headroom, stop) =>
        SaveCompletes(o, store, data, details, headroom);
        QuotaOfVault(o, store, v, |data|, headroom);
        SavePutsOnlyTheNewGeneration(o, store, data, details);
        if WithinQuota(o, store, |data|, headroom) {
          if stop.Some? && stop.value < |SaveOps(o, store, data, details)| {
            StoppedSaveKeepsTheVault(o, store, v, data, details, stop.value);
          } else {
            FullSavePushesTheVault(o, store, v, data, details);
          }
        }
      case ClearSnapshots =>
        ClearedPointer(o, store);
    }
  }

  /** After any run of saves, stopped anywhere, and of clears: the store holds exactly the last two completed exports. */
  lemma {:induction false} RunKeepsTheVault(o: Options, store: Store, v: Vault, actions: seq<Action>)
    requires ValidOptions(o) && Holds(o, store, v)
    ensures Holds(o, Run(o, store, actions), Kept(o, v, actions))
    decreases |actions|
  {
    hide Holds, Perform, Effect;
    if actions != [] {
      RunKeepsTheVault(o, store, v, actions[..|actions| - 1]);
      PerformKeepsTheVault(o, Run(o, store, actions[..|actions| - 1]), Kept(o, v, actions[..|actions| - 1]),
                           actions[|actions| - 1]);
    }
  }

  /** What a restore makes of it: the current export, or the previous one when the current cannot be imported. */
  lemma VaultIsRestored(o: Options, store: Store, v: Vault, imports: Snapshot -> bool)
    requires Holds(o, store, v)
    ensures var p := PointerOf(o, store);
      Restore(o, store, imports, None)
      == if v.current.None? then Ok(None)
         else if imports(Load(o, store, p.current.value).value) then Ok(Some(Load(o, store, p.current.value).value))
         else if v.previous.None? || !imports(Load(o, store, p.lastKnownGood.value).value) then Err(ImportFailed)
         else Ok(Some(Load(o, store, p.lastKnownGood.value).value))
  {
    hide Load;
    var candidates := Candidates(PointerOf(o, store), None);
    if |candidates| == 2 {
      assert candidates[1..] == [candidates[1]];
      assert FirstOf(o, store, imports, candidates[1..]) == Try(o, store, imports, candidates[1]);
    }
  }

  /** And what a verification makes of it: the manifest of the current export, with its details and its size. */
  lemma VaultIsVerified(o: Options, store: Store, v: Vault)
    requires Holds(o, store, v)
    ensures match v.current
            case None => Verify(o, store, None) == Ok(None)
            case Some(saved) =>
              var r := Verify(o, store, None);
              && r.Ok? && r.value.Some? && r.value.value.details == saved.details
              && r.value.value.byteSize == |saved.data| && r.value.value.digest == o.digest(saved.data)
  {
    hide Load;
    if v.current.Some? {
      var generation := PointerOf(o, store).current.value;
      LoadsExactlyWhatIsGenuine(o, store, generation, Load(o, store, generation).value);
    }
  }

  // ----- A stop while clearing -----

  predicate OnlyDeletes(ops: seq<Op>)
  {
    forall j :: 0 <= j < |ops| ==> ops[j].DeleteChunk? || ops[j].DeleteManifest?
  }

  lemma {:induction false} DeletesOnlyDelete(store: Store, ops: seq<Op>, chunk: string, manifest: string)
    requires OnlyDeletes(ops)
    ensures var after := ApplyAll(store, ops);
      && after.pointers == store.pointers
      && (chunk in after.chunks ==> chunk in store.chunks && DeleteChunk(chunk) !in ops)
      && (manifest in after.manifests ==>
            manifest in store.manifests && after.manifests[manifest] == store.manifests[manifest] && DeleteManifest(manifest) !in ops)
    decreases |ops|
  {
    if ops != [] {
      DeletesOnlyDelete(store, ops[..|ops| - 1], chunk, manifest);
      assert ops == ops[..|ops| - 1] + [ops[|ops| - 1]];
    }
  }

  lemma GenerationDeletesShape(o: Options, store: Store, generation: nat)
    ensures var ops := GenerationDeletes(o, store, generation);
      && OnlyDeletes(ops) && |ops| == ChunksRecorded(o, store, generation) + 1
      && OpsOf(ops, o.instanceId, generation, ChunksRecorded(o, store, generation))
      && ops[0] == if ChunksRecorded(o, store, generation) > 0 then DeleteChunk(ChunkKey(o.instanceId, generation, 0))
                   else DeleteManifest(ManifestKey(o.instanceId, generation))
  {
    hide ChunkKey, ManifestKey;
  }

  function ChunksRecorded(o: Options, store: Store, generation: nat): nat
  {
    var key := ManifestKey(o.instanceId, generation);
    if key in store.manifests then store.manifests[key].chunkCount else 0
  }

  /** The very first delete makes the generation unreadable. */
  lemma BegunDeletesSpoil(o: Options, store: Store, generation: nat, ops: seq<Op>)
    requires OnlyDeletes(ops) && ops != [] && ops[0] == GenerationDeletes(o, store, generation)[0]
    ensures Load(o, ApplyAll(store, ops), generation).Err?
  {
    hide ChunkKey, ManifestKey, GenerationDeletes, ApplyAll, ReadChunks;
    GenerationDeletesShape(o, store, generation);
    var chunk, key := ChunkKey(o.instanceId, generation, 0), ManifestKey(o.instanceId, generation);
    DeletesOnlyDelete(store, ops, chunk, key);
    var after := ApplyAll(store, ops);
    if key in after.manifests {
      var m := after.manifests[key];
      assert ops[0] in ops;
      ReadChunksGathers(o, after, generation, m.byteSize, m.chunkCount);
    }
  }

  lemma ClearOpsShape(o: Options, store: Store, a: seq<Op>, b: seq<Op>)
    requires var p := PointerOf(o, store);
      && p.current.Some? && a == GenerationDeletes(o, store, p.current.value)
      && b == if p.lastKnownGood.None? then []
              else GenerationDeletes(o, ApplyAll(store, a), p.lastKnownGood.value)
    ensures ClearOps(o, store) == a + b + [DeletePointer(o.instanceId)] && OnlyDeletes(a + b)
  {
    hide GenerationDeletes, ApplyAll;
    var p := PointerOf(o, store);
    GenerationDeletesShape(o, store, p.current.value);
    if p.lastKnownGood.Some? {
      GenerationDeletesShape(o, ApplyAll(store, a), p.lastKnownGood.value);
    }
  }

  predicate AlwaysImports(s: Snapshot)
  {
    true
  }

  lemma RestoreOfPair(o: Options, store: Store)
    requires PointerOf(o, store).current.Some?
    requires PointerOf(o, store).lastKnownGood != PointerOf(o, store).current
    requires Load(o, store, PointerOf(o, store).current.value).Err?
    ensures var p := PointerOf(o, store); var r := Restore(o, store, AlwaysImports, None);
      if p.lastKnownGood.None? || Load(o, store, p.lastKnownGood.value).Err? then r.Err?
      else r == Ok(Some(Load(o, store, p.lastKnownGood.value).value))
  {
    hide Load;
    var candidates := Candidates(PointerOf(o, store), None);
    if |candidates| == 2 {
      assert candidates[1..] == [candidates[1]];
      assert FirstOf(o, store, AlwaysImports, candidates[1..]) == Try(o, store, AlwaysImports, candidates[1]);
    }
  }

  /** Inside the first generation. */
  lemma StopInCurrent(o: Options, store: Store, v: Vault, ops: seq<Op>, a: seq<Op>, k: nat)
    requires Holds(o, store, v) && v.current.Some? && 1 <= k <= |a| <= |ops| && ops[..k] == a[..k]
    requires a == GenerationDeletes(o, store, PointerOf(o, store).current.value)
    ensures var after, p := ApplyAll(store, ops[..k]), PointerOf(o, store);
      && after.pointers == store.pointers && Load(o, after, p.current.value).Err?
      && (v.previous.Some? ==> Load(o, after, p.lastKnownGood.value) == Load(o, store, p.lastKnownGood.value))
  {
    hide GenerationDeletes, ApplyAll, Load, SameGeneration, OpOf, ChunkKey, ManifestKey;
    var p := PointerOf(o, store);
    GenerationDeletesShape(o, store, p.current.value);
    BegunDeletesSpoil(o, store, p.current.value, a[..k]);
    assert OpsOf(a[..k], o.instanceId, p.current.value, ChunksRecorded(o, store, p.current.value));
    DeletesOnlyDelete(store, a[..k], "", "");
    if v.previous.Some? {
      OpsLeaveOthersAlone(store, a[..k], o.instanceId, p.current.value, ChunksRecorded(o, store, p.current.value),
                          o.instanceId, p.lastKnownGood.value);
      SameGenerationLoadsTheSame(o, p.lastKnownGood.value, ApplyAll(store, a[..k]), store);
    }
  }

  /** Inside the second generation. */
  lemma StopInPrevious(o: Options, store: Store, a: seq<Op>, b: seq<Op>, k: nat)
    requires PointerOf(o, store).current.Some? && PointerOf(o, store).lastKnownGood.Some? && |a| < k <= |a| + |b|
    requires a == GenerationDeletes(o, store, PointerOf(o, store).current.value)
    requires b == GenerationDeletes(o, ApplyAll(store, a), PointerOf(o, store).lastKnownGood.value)
    ensures var after, p := ApplyAll(store, (a + b)[..k]), PointerOf(o, store);
      && after.pointers == store.pointers && Load(o, after, p.current.value).Err?
      && Load(o, after, p.lastKnownGood.value).Err?
  {
    hide GenerationDeletes, ApplyAll, Load, ChunkKey, ManifestKey;
    var p, rest := PointerOf(o, store), b[..k - |a|];
    assert (a + b)[..k] == a + rest;
    ApplyInTurn(store, a, rest);
    GenerationDeletesShape(o, store, p.current.value);
    GenerationDeletesShape(o, ApplyAll(store, a), p.lastKnownGood.value);
    BegunDeletesSpoil(o, ApplyAll(store, a), p.lastKnownGood.value, rest);
    assert OnlyDeletes(a + rest);
    BegunDeletesSpoil(o, store, p.current.value, a + rest);
    DeletesOnlyDelete(store, a + rest, "", "");
  }

  /** Clearing is not atomic: after the first delete the current export is lost while the pointer still names it, so a
      restore brings the previous one back, then fails, and only after the last step finds nothing. */
  lemma StoppedClear(o: Options, store: Store, v: Vault, k: nat)
    requires Holds(o, store, v) && v.current.Some? && k <= |ClearOps(o, store)|
    ensures var after, p := ApplyAll(store, ClearOps(o, store)[..k]), PointerOf(o, store);
      var first := ChunksRecorded(o, store, p.current.value) + 1;
      var r := Restore(o, after, AlwaysImports, None);
      if k == 0 then r == Restore(o, store, AlwaysImports, None)
      else if k == |ClearOps(o, store)| then r == Ok(None)
      else if k <= first && v.previous.Some? then r == Ok(Some(Load(o, store, p.lastKnownGood.value).value))
      else r.Err?
  {
    hide GenerationDeletes, ClearOps, Load, Restore, ChunksRecorded, OnlyDeletes, OpsOf;
    var ops, p := ClearOps(o, store), PointerOf(o, store);
    var a := GenerationDeletes(o, store, p.current.value);
    var b := if p.lastKnownGood.None? then [] else GenerationDeletes(o, ApplyAll(store, a), p.lastKnownGood.value);
    ClearOpsShape(o, store, a, b);
    GenerationDeletesShape(o, store, p.current.value);
    var after := ApplyAll(store, ops[..k]);
    if k == |ops| {
      assert ops[..k] == ops;
      ClearedPointer(o, store);
      VaultIsRestored(o, after, Vault(None, None), AlwaysImports);
    } else if 1 <= k <= |a| {
      assert ops[..k] == a[..k];
      StopInCurrent(o, store, v, ops, a, k);
      RestoreOfPair(o, after);
    } else if k > 0 {
      assert ops[..k] == (a + b)[..k];
      StopInPrevious(o, store, a, b, k);
      RestoreOfPair(o, after);
    }
  }

  /** Every stop inside a clear has spoiled the current generation. */
  lemma StoppedClearSpoils(o: Options, store: Store, v: Vault, k: nat)
    requires Holds(o, store, v) && v.current.Some? && 0 < k < |ClearOps(o, store)|
    ensures var stopped := ApplyAll(store, ClearOps(o, store)[..k]);
      stopped.pointers == store.pointers && Load(o, stopped, PointerOf(o, store).current.value).Err?
  {
    hide GenerationDeletes, ClearOps, Load, ChunksRecorded, OnlyDeletes, OpsOf;
    var ops, p := ClearOps(o, store), PointerOf(o, store);
    var a := GenerationDeletes(o, store, p.current.value);
    var b := if p.lastKnownGood.None? then [] else GenerationDeletes(o, ApplyAll(store, a), p.lastKnownGood.value);
    ClearOpsShape(o, store, a, b);
    GenerationDeletesShape(o, store, p.current.value);
    if k <= |a| {
      assert ops[..k] == a[..k];
      StopInCurrent(o, store, v, ops, a, k);
    } else {
      assert ops[..k] == (a + b)[..k];
      StopInPrevious(o, store, a, b, k);
    }
  }

  /** A save that completes after a clear was stopped: its export is restored, and nothing stands behind it any more, not
      even the previous export that the stopped clear may have left readable. */
  lemma SaveAfterStoppedClear(o: Options, store: Store, v: Vault, k: nat, data: seq<Byte>, details: string,
                              headroom: Option<int>, imports: Snapshot -> bool)
    requires ValidOptions(o) && Holds(o, store, v) && v.current.Some? && 0 < k < |ClearOps(o, store)|
    requires WithinQuota(o, ApplyAll(store, ClearOps(o, store)[..k]), |data|, headroom)
    ensures var (after, result) := Save(o, ApplyAll(store, ClearOps(o, store)[..k]), data, details, headroom);
      && result.Ok?
      && var r := Restore(o, after, imports, None); var snapshot := Snapshot(data, result.value);
         if imports(snapshot) then r == Ok(Some(snapshot)) else r.Err?
  {
    hide ClearOps, Load, ApplyAll, SaveOps, Save, WithinQuota, Holds;
    var stopped := ApplyAll(store, ClearOps(o, store)[..k]);
    CurrentIsNamed(o, store, v);
    StoppedClearSpoils(o, store, v, k);
    SaveCompletes(o, stopped, data, details, headroom);
    SaveFromAnyStore(o, stopped, data, details);
    var after := Save(o, stopped, data, details, headroom).0;
    var candidates := Candidates(PointerOf(o, after), None);
    assert |candidates| == 2 && candidates[1..] == [candidates[1]];
    assert FirstOf(o, after, imports, candidates[1..]) == Try(o, after, imports, candidates[1]);
  }

  lemma CurrentIsNamed(o: Options, store: Store, v: Vault)
    requires Holds(o, store, v) && v.current.Some?
    ensures PointerOf(o, store).current.Some?
  {
  }

  lemma NoOps(store: Store)
    ensures ApplyAll(store, []) == store
  {
  }

  // ----- The store object -----

  class BinarySnapshotStore {
    const options: Options
    var store: Store

    constructor (options: Options, store: Store)
      requires ValidOptions(options)
      ensures this.options == options && this.store == store
    {
      this.options := options;
      this.store := store;
    }

    method Do(op: Op)
      modifies this
      ensures store == Apply(old(store), op)
    {
      store := Apply(store, op);
    }

    method WriteChunks(generation: nat, data: seq<Byte>, count: nat)
      modifies this
      ensures store == ApplyAll(old(store), ChunkPuts(options, generation, data, count))
    {
      var i := 0;
      while i < count
        invariant 0 <= i <= count && store == ApplyAll(old(store), ChunkPuts(options, generation, data, i))
      {
        var key, bytes := ChunkKey(options.instanceId, generation, i), Chunk(options, data, i);
        assert ChunkPuts(options, generation, data, i + 1) == ChunkPuts(options, generation, data, i) + [PutChunk(key, bytes)];
        ApplyLast(old(store), ChunkPuts(options, generation, data, i), PutChunk(key, bytes));
        Do(PutChunk(key, bytes));
        i := i + 1;
      }
    }

    method SaveExport(data: seq<Byte>, details: string, headroom: Option<int>) returns (result: Result<Manifest, Failure>)
      requires ValidOptions(options)
      modifies this
      ensures (store, result) == Save(options, old(store), data, details, headroom)
    {
      hide ReadGeneration, ApplyAll, ChunkPuts, WithinQuota;
      if !WithinQuota(options, store, |data|, headroom) {
        return Err(QuotaExceeded);
      }
      var p := PointerOf(options, store);
      var m := ManifestFor(options, store, data, details);
      ghost var puts := ChunkPuts(options, m.generation, data, m.chunkCount);
      var key := ManifestKey(options.instanceId, m.generation);
      WriteChunks(m.generation, data, m.chunkCount);
      ApplyLast(old(store), puts, PutManifest(key, m));
      Do(PutManifest(key, m));
      assert SaveOps(options, old(store), data, details)[..|puts| + 1] == puts + [PutManifest(key, m)];
      var read := ReadGenerationInPlace(options, store, m.generation, m);
      if read.Err? {
        return Err(read.error);
      }
      Do(PutPointer(options.instanceId, Pointer(Some(m.generation), p.current)));
      return Ok(m);
    }

    method DeleteGeneration(generation: nat)
      modifies this
      ensures store == ApplyAll(old(store), GenerationDeletes(options, old(store), generation))
    {
      var key := ManifestKey(options.instanceId, generation);
      var count := if key in store.manifests then store.manifests[key].chunkCount else 0;
      ghost var ops := GenerationDeletes(options, store, generation);
      var i := 0;
      while i < count
        invariant 0 <= i <= count && store == ApplyAll(old(store), ops[..i])
      {
        assert ops[..i + 1] == ops[..i] + [ops[i]];
        ApplyLast(old(store), ops[..i], ops[i]);
        Do(DeleteChunk(ChunkKey(options.instanceId, generation, i)));
        i := i + 1;
      }
      assert ops == ops[..count] + [DeleteManifest(key)];
      ApplyLast(old(store), ops[..count], DeleteManifest(key));
      Do(DeleteManifest(key));
    }

    method Clear()
      modifies this
      ensures store == ApplyAll(old(store), ClearOps(options, old(store)))
    {
      hide GenerationDeletes, ApplyAll;
      var p := PointerOf(options, store);
      ghost var done: seq<Op> := [];
      NoOps(store);
      if p.current.Some? {
        done := GenerationDeletes(options, store, p.current.value);
        DeleteGeneration(p.current.value);
      }
      if p.lastKnownGood.Some? {
        ghost var more := GenerationDeletes(options, store, p.lastKnownGood.value);
        ApplyInTurn(old(store), done, more);
        DeleteGeneration(p.lastKnownGood.value);
        done := done + more;
      }
      assert ClearOps(options, old(store)) == done + [DeletePointer(options.instanceId)];
      ApplyLast(old(store), done, DeletePointer(options.instanceId));
      Do(DeletePointer(options.instanceId));
    }
  }
}
