/** Snapshots stored as numbered generations of chunks: every `put` and `delete` is one step. */
module BinarySnapshot {
  import opened Text

  type Byte = b: int | 0 <= b < 256

  const SNAPSHOT_FORMAT_VERSION := 2

  datatype Manifest = Manifest(formatVersion: nat, generation: nat, chunkCount: nat, byteSize: nat, digest: string, details: string)

  datatype Pointer = Pointer(current: Option<nat>, lastKnownGood: Option<nat>)

  datatype Store = Store(chunks: map<string, seq<Byte>>, manifests: map<string, Manifest>, pointers: map<string, Pointer>)

  /** The digest is any function of the bytes. */
  datatype Options = Options(instanceId: string, chunkBytes: nat, maxBytes: nat, digest: seq<Byte> -> string)

  predicate ValidOptions(o: Options)
  {
    o.chunkBytes >= 1
  }

  datatype Failure = QuotaExceeded | MissingManifest | MissingChunk | TooLong | BadSize | BadDigest | ImportFailed

  // ----- Keys -----

  function ManifestKey(instanceId: string, generation: nat): string
  {
    instanceId + ":" + Decimal(generation)
  }

  function ChunkKey(instanceId: string, generation: nat, index: nat): string
  {
    instanceId + ":" + Decimal(generation) + ":" + Decimal(index)
  }

  lemma LastColon(a: string, b: string, m: nat, n: nat)
    requires a + ":" + Decimal(m) == b + ":" + Decimal(n)
    ensures a == b && m == n
  {
    var s, x, y := a + ":" + Decimal(m), |a|, |b|;
    assert s[x] == ':' && s[y] == ':';
    assert forall i :: x < i < |s| ==> s[i] == Decimal(m)[i - x - 1] && IsDigit(s[i]);
    assert forall i :: y < i < |s| ==> s[i] == Decimal(n)[i - y - 1] && IsDigit(s[i]);
    assert x == y;
    assert s[..x] == a && s[..y] == b;
    assert s[x + 1..] == Decimal(m) && s[y + 1..] == Decimal(n);
    DecimalInjective(m, n);
  }

  /** Different generations and chunks, of any instances whatever their names, have different keys. */
  lemma KeysAreInjective(a: string, b: string, g: nat, h: nat, i: nat, j: nat)
    ensures ManifestKey(a, g) == ManifestKey(b, h) <==> a == b && g == h
    ensures ChunkKey(a, g, i) == ChunkKey(b, h, j) <==> a == b && g == h && i == j
  {
    if ManifestKey(a, g) == ManifestKey(b, h) {
      LastColon(a, b, g, h);
    }
    if ChunkKey(a, g, i) == ChunkKey(b, h, j) {
      LastColon(ManifestKey(a, g), ManifestKey(b, h), i, j);
      LastColon(a, b, g, h);
    }
  }

  // ----- Chunks -----

  function ChunkCount(o: Options, size: nat): nat
    requires ValidOptions(o)
  {
    (size + o.chunkBytes - 1) / o.chunkBytes
  }

  function Least(a: nat, b: nat): nat
  {
    if a < b then a else b
  }

  /** `data.slice(start, start + chunkBytes)` */
  function Chunk(o: Options, data: seq<Byte>, i: nat): seq<Byte>
  {
    var start, end := i * o.chunkBytes, (i + 1) * o.chunkBytes;
    data[Least(start, |data|)..Least(Least(end, |data|), |data|)]
  }

  function Chunks(o: Options, data: seq<Byte>, n: nat): seq<seq<Byte>>
  {
    seq(n, i requires 0 <= i < n => Chunk(o, data, i))
  }

  lemma CeilingBounds(o: Options, size: nat)
    requires ValidOptions(o)
    ensures ChunkCount(o, size) * o.chunkBytes >= size
    ensures ChunkCount(o, size) > 0 ==> (ChunkCount(o, size) - 1) * o.chunkBytes < size
  {
    var q, r := (size + o.chunkBytes - 1) / o.chunkBytes, (size + o.chunkBytes - 1) % o.chunkBytes;
    assert q * o.chunkBytes + r == size + o.chunkBytes - 1;
    assert (q - 1) * o.chunkBytes == q * o.chunkBytes - o.chunkBytes;
  }

  lemma {:induction false} ChunksSpellAPrefix(o: Options, data: seq<Byte>, n: nat)
    requires ValidOptions(o)
    ensures Concat(Chunks(o, data, n)) == data[..Least(n * o.chunkBytes, |data|)]
  {
    if n > 0 {
      ChunksSpellAPrefix(o, data, n - 1);
      assert Chunks(o, data, n) == Chunks(o, data, n - 1) + [Chunk(o, data, n - 1)];
      ConcatSnoc(Chunks(o, data, n - 1), Chunk(o, data, n - 1));
      assert (n - 1) * o.chunkBytes <= n * o.chunkBytes;
    }
  }

  /** Cutting into chunks and putting them together is the identity, for every length and every chunk size. */
  lemma ChunksSpellTheData(o: Options, data: seq<Byte>)
    requires ValidOptions(o)
    ensures Concat(Chunks(o, data, ChunkCount(o, |data|))) == data
  {
    CeilingBounds(o, |data|);
    ChunksSpellAPrefix(o, data, ChunkCount(o, |data|));
    assert data[..|data|] == data;
  }

  // ----- Reading a generation -----

  function ReadChunks(o: Options, store: Store, generation: nat, byteSize: nat, n: nat): (r: Result<seq<Byte>, Failure>)
    ensures r.Ok? ==> |r.value| <= byteSize
  {
    if n == 0 then Ok([])
    else
      match ReadChunks(o, store, generation, byteSize, n - 1)
      case Err(failure) => Err(failure)
      case Ok(before) =>
        var key := ChunkKey(o.instanceId, generation, n - 1);
        if key !in store.chunks then Err(MissingChunk)
        else if |before| + |store.chunks[key]| > byteSize then Err(TooLong)
        else Ok(before + store.chunks[key])
  }

  /** The whole export, if its size and digest are those of the manifest. */
  function ReadGeneration(o: Options, store: Store, generation: nat, manifest: Manifest): Result<seq<Byte>, Failure>
  {
    match ReadChunks(o, store, generation, manifest.byteSize, manifest.chunkCount)
    case Err(failure) => Err(failure)
    case Ok(data) =>
      if |data| != manifest.byteSize then Err(BadSize)
      else if o.digest(data) != manifest.digest then Err(BadDigest)
      else Ok(data)
  }

  /** All chunks are there, and together they have the size and the digest of the manifest. */
  predicate Sound(o: Options, store: Store, generation: nat, manifest: Manifest, data: seq<Byte>)
  {
    && (forall i :: 0 <= i < manifest.chunkCount ==> ChunkKey(o.instanceId, generation, i) in store.chunks)
    && data == Concat(StoredChunks(o, store, generation, manifest.chunkCount))
    && |data| == manifest.byteSize && o.digest(data) == manifest.digest
  }

  function StoredChunks(o: Options, store: Store, generation: nat, n: nat): seq<seq<Byte>>
    requires forall i :: 0 <= i < n ==> ChunkKey(o.instanceId, generation, i) in store.chunks
  {
    seq(n, i requires 0 <= i < n => store.chunks[ChunkKey(o.instanceId, generation, i)])
  }

  lemma {:induction false} ReadChunksGathers(o: Options, store: Store, generation: nat, byteSize: nat, n: nat)
    ensures var r := ReadChunks(o, store, generation, byteSize, n);
      if forall i :: 0 <= i < n ==> ChunkKey(o.instanceId, generation, i) in store.chunks
      then
        var all := Concat(StoredChunks(o, store, generation, n));
        if |all| <= byteSize then r == Ok(all) else r == Err(TooLong)
      else r.Err?
  {
    hide ChunkKey;
    if n > 0 {
      ReadChunksGathers(o, store, generation, byteSize, n - 1);
      if forall i :: 0 <= i < n ==> ChunkKey(o.instanceId, generation, i) in store.chunks {
        var key := ChunkKey(o.instanceId, generation, n - 1);
        assert StoredChunks(o, store, generation, n)
            == StoredChunks(o, store, generation, n - 1) + [store.chunks[key]];
        ConcatSnoc(StoredChunks(o, store, generation, n - 1), store.chunks[key]);
      }
    }
  }

  /** Whatever the storage holds, reading accepts exactly the bytes the manifest stands for. */
  lemma ReadsExactlyWhatIsSound(o: Options, store: Store, generation: nat, manifest: Manifest, data: seq<Byte>)
    ensures ReadGeneration(o, store, generation, manifest) == Ok(data) <==> Sound(o, store, generation, manifest, data)
  {
    hide ChunkKey, ReadChunks;
    ReadChunksGathers(o, store, generation, manifest.byteSize, manifest.chunkCount);
  }

  method ReadGenerationInPlace(o: Options, store: Store, generation: nat, manifest: Manifest)
    returns (result: Result<seq<Byte>, Failure>)
    ensures result == ReadGeneration(o, store, generation, manifest)
  {
    var out := new Byte[manifest.byteSize](_ => 0);
    var offset, index := 0, 0;
    while index < manifest.chunkCount
      invariant 0 <= index <= manifest.chunkCount && 0 <= offset <= out.Length
      invariant ReadChunks(o, store, generation, manifest.byteSize, index) == Ok(out[..offset])
    {
      var key := ChunkKey(o.instanceId, generation, index);
      if key !in store.chunks {
        ReadChunksFails(o, store, generation, manifest.byteSize, index + 1, manifest.chunkCount);
        return Err(MissingChunk);
      }
      var bytes := store.chunks[key];
      if offset + |bytes| > out.Length {
        ReadChunksFails(o, store, generation, manifest.byteSize, index + 1, manifest.chunkCount);
        return Err(TooLong);
      }
      ghost var before := out[..offset];
      var i := 0;
      while i < |bytes|
        invariant 0 <= i <= |bytes| && out[..offset] == before && out[offset..offset + i] == bytes[..i]
      {
        out[offset + i] := bytes[i];
        i := i + 1;
      }
      offset := offset + |bytes|;
      assert out[..offset] == before + bytes;
      index := index + 1;
    }
    if offset != manifest.byteSize {
      return Err(BadSize);
    }
    assert out[..offset] == out[..];
    if o.digest(out[..]) != manifest.digest {
      return Err(BadDigest);
    }
    return Ok(out[..]);
  }

  lemma {:induction false} ReadChunksFails(o: Options, store: Store, generation: nat, byteSize: nat, i: nat, n: nat)
    requires i <= n && ReadChunks(o, store, generation, byteSize, i).Err?
    ensures ReadChunks(o, store, generation, byteSize, n) == ReadChunks(o, store, generation, byteSize, i)
  {
    if i < n {
      ReadChunksFails(o, store, generation, byteSize, i, n - 1);
    }
  }

  // ----- Restoring -----

  datatype Snapshot = Snapshot(data: seq<Byte>, manifest: Manifest)

  function PointerOf(o: Options, store: Store): Pointer
  {
    if o.instanceId in store.pointers then store.pointers[o.instanceId] else Pointer(None, None)
  }

  function Load(o: Options, store: Store, generation: nat): Result<Snapshot, Failure>
  {
    var key := ManifestKey(o.instanceId, generation);
    if key !in store.manifests || store.manifests[key].formatVersion != SNAPSHOT_FORMAT_VERSION then Err(MissingManifest)
    else
      match ReadGeneration(o, store, generation, store.manifests[key])
      case Err(failure) => Err(failure)
      case Ok(data) => Ok(Snapshot(data, store.manifests[key]))
  }

  function Candidates(p: Pointer, requested: Option<nat>): seq<nat>
  {
    if requested.Some? then [requested.value]
    else if p.current.None? then if p.lastKnownGood.None? then [] else [p.lastKnownGood.value]
    else if p.lastKnownGood.None? || p.lastKnownGood == p.current then [p.current.value]
    else [p.current.value, p.lastKnownGood.value]
  }

  /** One candidate: verified first, then handed to the import. */
  function Try(o: Options, store: Store, imports: Snapshot -> bool, generation: nat): Result<Snapshot, Failure>
  {
    match Load(o, store, generation)
    case Err(failure) => Err(failure)
    case Ok(snapshot) => if imports(snapshot) then Ok(snapshot) else Err(ImportFailed)
  }

  /** The first candidate that works; otherwise the failure of the last one. */
  function FirstOf(o: Options, store: Store, imports: Snapshot -> bool, candidates: seq<nat>): Result<Snapshot, Failure>
    requires candidates != []
  {
    var first := Try(o, store, imports, candidates[0]);
    if first.Ok? || |candidates| == 1 then first else FirstOf(o, store, imports, candidates[1..])
  }

  function Restore(o: Options, store: Store, imports: Snapshot -> bool, requested: Option<nat>)
    : Result<Option<Snapshot>, Failure>
  {
    var candidates := Candidates(PointerOf(o, store), requested);
    if candidates == [] then Ok(None)
    else
      match FirstOf(o, store, imports, candidates)
      case Err(failure) => Err(failure)
      case Ok(snapshot) => Ok(Some(snapshot))
  }

  function Verify(o: Options, store: Store, requested: Option<nat>): Result<Option<Manifest>, Failure>
  {
    var p := PointerOf(o, store);
    var selected := if requested.Some? then requested else if p.current.Some? then p.current else p.lastKnownGood;
    if selected.None? then Ok(None)
    else
      match Load(o, store, selected.value)
      case Err(failure) => Err(failure)
      case Ok(snapshot) => Ok(Some(snapshot.manifest))
  }

  predicate Genuine(o: Options, store: Store, generation: nat, snapshot: Snapshot)
  {
    && ManifestKey(o.instanceId, generation) in store.manifests
    && store.manifests[ManifestKey(o.instanceId, generation)] == snapshot.manifest
    && snapshot.manifest.formatVersion == SNAPSHOT_FORMAT_VERSION
    && Sound(o, store, generation, snapshot.manifest, snapshot.data)
  }

  lemma LoadsExactlyWhatIsGenuine(o: Options, store: Store, generation: nat, snapshot: Snapshot)
    ensures Load(o, store, generation) == Ok(snapshot) <==> Genuine(o, store, generation, snapshot)
  {
    var key := ManifestKey(o.instanceId, generation);
    if key in store.manifests {
      ReadsExactlyWhatIsSound(o, store, generation, store.manifests[key], snapshot.data);
    }
  }

  /** Restoring from any storage: what it returns is genuine, it prefers the current generation, falls back to the last
      known good one, and fails only when neither is genuine and can be imported. */
  lemma RestoreReturnsTheBestGenuine(o: Options, store: Store, imports: Snapshot -> bool, snapshot: Snapshot)
    ensures var p := PointerOf(o, store);
      Restore(o, store, imports, None) == Ok(Some(snapshot))
      <==> imports(snapshot)
           && ((p.current.Some? && Genuine(o, store, p.current.value, snapshot))
               || (p.lastKnownGood.Some? && Genuine(o, store, p.lastKnownGood.value, snapshot)
                   && (p.current.Some? ==> !Try(o, store, imports, p.current.value).Ok?)))
  {
    hide Genuine, Load;
    var p := PointerOf(o, store);
    var candidates := Candidates(p, None);
    if |candidates| == 2 {
      assert candidates[1..] == [candidates[1]];
      assert FirstOf(o, store, imports, candidates[1..]) == Try(o, store, imports, candidates[1]);
    }
    if p.current.Some? {
      LoadsExactlyWhatIsGenuine(o, store, p.current.value, snapshot);
    }
    if p.lastKnownGood.Some? {
      LoadsExactlyWhatIsGenuine(o, store, p.lastKnownGood.value, snapshot);
    }
  }

  /** A generation that is asked for is the only candidate, whatever generation is current. */
  lemma RestoreOfRequested(o: Options, store: Store, imports: Snapshot -> bool, generation: nat, snapshot: Snapshot)
    ensures Restore(o, store, imports, Some(generation)) == Ok(Some(snapshot))
       <==> imports(snapshot) && Genuine(o, store, generation, snapshot)
    ensures Restore(o, store, imports, Some(generation)) != Ok(None)
  {
    hide Genuine, Load;
    LoadsExactlyWhatIsGenuine(o, store, generation, snapshot);
  }

  /** The generation a verification is about. */
  predicate IsJudged(o: Options, store: Store, requested: Option<nat>, generation: nat)
  {
    var p := PointerOf(o, store);
    || requested == Some(generation)
    || (requested == None && p.current == Some(generation))
    || (requested == None && p.current == None && p.lastKnownGood == Some(generation))
  }

  /** Verifying judges the requested generation, else the current one, and the last known good one only when no generation is
      current: a spoiled current generation is an error even beside a good older one. */
  lemma VerifyJudgesOne(o: Options, store: Store, requested: Option<nat>, generation: nat, manifest: Manifest)
    requires IsJudged(o, store, requested, generation)
    ensures Verify(o, store, requested) == Ok(Some(manifest))
       <==> exists data :: Genuine(o, store, generation, Snapshot(data, manifest))
    ensures Verify(o, store, requested) != Ok(None)
  {
    hide Genuine, Load;
    var loaded := Load(o, store, generation);
    if loaded.Ok? {
      LoadsExactlyWhatIsGenuine(o, store, generation, loaded.value);
      assert Genuine(o, store, generation, Snapshot(loaded.value.data, loaded.value.manifest));
    }
    if data :| Genuine(o, store, generation, Snapshot(data, manifest)) {
      LoadsExactlyWhatIsGenuine(o, store, generation, Snapshot(data, manifest));
    }
  }

  lemma VerifyOfNothing(o: Options, store: Store, requested: Option<nat>)
    ensures Verify(o, store, requested) == Ok(None) <==> forall generation :: !IsJudged(o, store, requested, generation)
  {
    hide Load;
    var p := PointerOf(o, store);
    if requested.Some? {
      assert IsJudged(o, store, requested, requested.value);
    } else if p.current.Some? {
      assert IsJudged(o, store, requested, p.current.value);
    } else if p.lastKnownGood.Some? {
      assert IsJudged(o, store, requested, p.lastKnownGood.value);
    }
  }

  /** Why a generation is refused when no chunk is missing. */
  lemma RefusalOfWhole(o: Options, store: Store, generation: nat, m: Manifest)
    requires forall i :: 0 <= i < m.chunkCount ==> ChunkKey(o.instanceId, generation, i) in store.chunks
    ensures var data := Concat(StoredChunks(o, store, generation, m.chunkCount));
      ReadGeneration(o, store, generation, m)
      == if |data| > m.byteSize then Err(TooLong)
         else if |data| < m.byteSize then Err(BadSize)
         else if o.digest(data) != m.digest then Err(BadDigest)
         else Ok(data)
  {
    hide ChunkKey, ReadChunks;
    ReadChunksGathers(o, store, generation, m.byteSize, m.chunkCount);
  }

  /** And when chunk `i` is the first one missing: too much before it is noticed before the gap. */
  lemma RefusalOfGap(o: Options, store: Store, generation: nat, m: Manifest, i: nat)
    requires i < m.chunkCount && ChunkKey(o.instanceId, generation, i) !in store.chunks
    requires forall j :: 0 <= j < i ==> ChunkKey(o.instanceId, generation, j) in store.chunks
    ensures ReadGeneration(o, store, generation, m)
         == Err(if |Concat(StoredChunks(o, store, generation, i))| > m.byteSize then TooLong else MissingChunk)
  {
    hide ChunkKey;
    ReadChunksGathers(o, store, generation, m.byteSize, i);
    ReadChunksFails(o, store, generation, m.byteSize, i + 1, m.chunkCount);
  }

  method RestoreLoop(o: Options, store: Store, imports: Snapshot -> bool, requested: Option<nat>)
    returns (result: Result<Option<Snapshot>, Failure>)
    ensures result == Restore(o, store, imports, requested)
  {
    var candidates := Candidates(PointerOf(o, store), requested);
    if |candidates| == 0 {
      return Ok(None);
    }
    var failure, i := MissingManifest, 0;
    while i < |candidates|
      invariant 0 <= i <= |candidates|
      invariant i < |candidates| ==>
                  FirstOf(o, store, imports, candidates) == FirstOf(o, store, imports, candidates[i..])
      invariant i == |candidates| ==> FirstOf(o, store, imports, candidates) == Err(failure)
    {
      assert candidates[i..][1..] == candidates[i + 1..];
      var selected := candidates[i];
      var key := ManifestKey(o.instanceId, selected);
      if key !in store.manifests || store.manifests[key].formatVersion != SNAPSHOT_FORMAT_VERSION {
        failure := MissingManifest;
      } else {
        var manifest := store.manifests[key];
        var read := ReadGenerationInPlace(o, store, selected, manifest);
        if read.Err? {
          failure := read.error;
        } else if imports(Snapshot(read.value, manifest)) {
          return Ok(Some(Snapshot(read.value, manifest)));
        } else {
          failure := ImportFailed;
        }
      }
      i := i + 1;
    }
    return Err(failure);
  }

  // ----- Saving -----

  datatype Op =
    | PutChunk(key: string, bytes: seq<Byte>)
    | PutManifest(key: string, manifest: Manifest)
    | PutPointer(key: string, pointer: Pointer)
    | DeleteChunk(key: string)
    | DeleteManifest(key: string)
    | DeletePointer(key: string)

  function Apply(store: Store, op: Op): Store
  {
    match op
    case PutChunk(key, bytes) => store.(chunks := store.chunks[key := bytes])
    case PutManifest(key, manifest) => store.(manifests := store.manifests[key := manifest])
    case PutPointer(key, pointer) => store.(pointers := store.pointers[key := pointer])
    case DeleteChunk(key) => store.(chunks := store.chunks - {key})
    case DeleteManifest(key) => store.(manifests := store.manifests - {key})
    case DeletePointer(key) => store.(pointers := store.pointers - {key})
  }

  function ApplyAll(store: Store, ops: seq<Op>): Store
  {
    if ops == [] then store else Apply(ApplyAll(store, ops[..|ops| - 1]), ops[|ops| - 1])
  }

  lemma {:induction false} ApplyInTurn(store: Store, a: seq<Op>, b: seq<Op>)
    ensures ApplyAll(store, a + b) == ApplyAll(ApplyAll(store, a), b)
    decreases |b|
  {
    if b == [] {
      assert a + b == a;
    } else {
      assert (a + b)[..|a + b| - 1] == a + b[..|b| - 1];
      ApplyInTurn(store, a, b[..|b| - 1]);
    }
  }

  lemma ApplyLast(store: Store, ops: seq<Op>, op: Op)
    ensures ApplyAll(store, ops + [op]) == Apply(ApplyAll(store, ops), op)
  {
    assert (ops + [op])[..|ops|] == ops;
  }

  function NextGeneration(p: Pointer): nat
  {
    var current := if p.current.Some? then p.current.value else 0;
    var good := if p.lastKnownGood.Some? then p.lastKnownGood.value else 0;
    (if current > good then current else good) + 1
  }

  function ManifestFor(o: Options, store: Store, data: seq<Byte>, details: string): Manifest
    requires ValidOptions(o)
  {
    Manifest(SNAPSHOT_FORMAT_VERSION, NextGeneration(PointerOf(o, store)), ChunkCount(o, |data|), |data|, o.digest(data), details)
  }

  function ChunkPuts(o: Options, generation: nat, data: seq<Byte>, n: nat): seq<Op>
  {
    seq(n, i requires 0 <= i < n => PutChunk(ChunkKey(o.instanceId, generation, i), Chunk(o, data, i)))
  }

  /** Chunks, then the manifest; the pointer is the last write, and follows only when the generation reads back. */
  function SaveOps(o: Options, store: Store, data: seq<Byte>, details: string): seq<Op>
    requires ValidOptions(o)
  {
    var m := ManifestFor(o, store, data, details);
    ChunkPuts(o, m.generation, data, m.chunkCount) + [PutManifest(ManifestKey(o.instanceId, m.generation), m)]
    + [PutPointer(o.instanceId, Pointer(Some(m.generation), PointerOf(o, store).current))]
  }

  function RecordedSize(o: Options, store: Store, generation: Option<nat>): nat
  {
    if generation.None? || ManifestKey(o.instanceId, generation.value) !in store.manifests then 0
    else store.manifests[ManifestKey(o.instanceId, generation.value)].byteSize
  }

  /** `headroom` is what the browser estimates to be left, when it does. */
  predicate WithinQuota(o: Options, store: Store, incoming: nat, headroom: Option<int>)
  {
    var total := incoming + RecordedSize(o, store, PointerOf(o, store).current);
    total <= o.maxBytes && (headroom.Some? ==> total <= headroom.value)
  }

  function Save(o: Options, store: Store, data: seq<Byte>, details: string, headroom: Option<int>)
    : (Store, Result<Manifest, Failure>)
    requires ValidOptions(o)
  {
    if !WithinQuota(o, store, |data|, headroom) then (store, Err(QuotaExceeded))
    else
      var m, ops := ManifestFor(o, store, data, details), SaveOps(o, store, data, details);
      var written := ApplyAll(store, ops[..|ops| - 1]);
      match ReadGeneration(o, written, m.generation, m)
      case Err(failure) => (written, Err(failure))
      case Ok(_) => (Apply(written, ops[|ops| - 1]), Ok(m))
  }

  // ----- Clearing -----

  function GenerationDeletes(o: Options, store: Store, generation: nat): seq<Op>
  {
    var key := ManifestKey(o.instanceId, generation);
    var count := if key in store.manifests then store.manifests[key].chunkCount else 0;
    seq(count, i requires 0 <= i < count => DeleteChunk(ChunkKey(o.instanceId, generation, i))) + [DeleteManifest(key)]
  }

  function ClearOps(o: Options, store: Store): seq<Op>
  {
    var p := PointerOf(o, store);
    var first := if p.current.Some? then GenerationDeletes(o, store, p.current.value) else [];
    first + (if p.lastKnownGood.Some? then GenerationDeletes(o, ApplyAll(store, first), p.lastKnownGood.value) else [])
    + [DeletePointer(o.instanceId)]
  }
}
