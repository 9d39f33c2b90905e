/** The log object: a cached manifest in front of the files. */
module SegmentedSessionLog {
  import opened Text
  import opened JsonLines
  import opened SessionSegments
  import opened SegmentedLogRuns

  lemma PublishAfter(disk: Disk, ops: seq<FsOp>, manifest: Manifest)
    ensures ApplyAll(disk, ops + [Publish(manifest)]) == Apply(ApplyAll(disk, ops), Publish(manifest))
  {
    ApplyInTurn(disk, ops, [Publish(manifest)]);
    ApplyOne(ApplyAll(disk, ops), Publish(manifest));
  }

  class SegmentedLogFile {
    const codec: Codec<Record>
    const limits: Limits
    var disk: Disk
    var manifestValue: Option<Manifest>

    /** The cached manifest is the stored one. */
    predicate Valid()
      reads this
    {
      manifestValue.Some? ==> disk.manifest == manifestValue
    }

    constructor (codec: Codec<Record>, limits: Limits, disk: Disk)
      requires limits.maxEvents >= 1 && limits.maxBytes >= 1
      ensures Valid() && this.codec == codec && this.limits == limits && this.disk == disk
    {
      this.codec := codec;
      this.limits := limits;
      this.disk := disk;
      this.manifestValue := None;
    }

    method ReadManifest() returns (manifest: Option<Manifest>)
      requires Valid()
      modifies this`manifestValue
      ensures Valid() && manifest == disk.manifest
    {
      if manifestValue.Some? {
        return manifestValue;
      }
      manifestValue := disk.manifest;
      return manifestValue;
    }

    method WriteAtomically(file: File, text: string)
      modifies this`disk
      ensures disk == ApplyAll(old(disk), AtomicWrite(file, text)) && disk.manifest == old(disk).manifest
    {
      var ops := AtomicWrite(file, text);
      assert ops[..1] == [ops[0]] && ops[..1][..0] == [];
      assert ApplyAll(disk, ops[..1]) == Apply(disk, ops[0]);
      disk := Apply(disk, WriteFile(Temporary(file), text));
      disk := Apply(disk, Rename(Temporary(file), file));
    }

    method CreateLog() returns (manifest: Manifest)
      requires Valid()
      modifies this
      ensures Valid() && (disk, manifest) == Create(old(disk))
    {
      var current := ReadManifest();
      if current.Some? {
        return current.value;
      }
      manifest := Manifest(0, []);
      disk := Apply(disk, Publish(manifest));
      manifestValue := Some(manifest);
    }

    /** The records of one segment, one after the other. */
    static method ScanSegment(r: Reading, found: seq<Record>, sequence: int) returns (s: Reading)
      requires r.failure.None?
      ensures s == ScanEvents(r, found, sequence)
    {
      var events, expected, j := r.events, r.expected, 0;
      while j < |found|
        invariant 0 <= j <= |found|
        invariant ScanEvents(r, found, sequence)
               == ScanEvents(r.(events := events, expected := expected), found[j..], sequence)
      {
        if expected.Some? && found[j].sequence != expected.value {
          return r.(events := events, expected := expected, failure := Some(NonContiguous));
        }
        assert found[j..][1..] == found[j + 1..];
        if found[j].sequence >= sequence {
          events := events + [found[j]];
        }
        expected := Some(found[j].sequence + 1);
        j := j + 1;
      }
      return r.(events := events, expected := expected);
    }

    /** One segment: read it, and write it again without its torn last line. */
    method ReadOne(r: Reading, i: nat, sequence: int) returns (next: Reading)
      requires i < |r.segments| && r.disk == disk && r.failure.None?
      modifies this`disk
      ensures next == ReadSegment(codec, r, i, sequence)
      ensures disk == next.disk && disk.manifest == old(disk).manifest
    {
      var d := r.segments[i];
      if d.lastSeq < sequence {
        return r;
      }
      if d.file !in disk.files {
        return r.(failure := Some(MissingSegment));
      }
      var parsed := ParseSegment(codec, disk.files[d.file]);
      if parsed.Corrupt? {
        return r.(failure := Some(Corrupted));
      }
      next := ScanSegment(r, parsed.events, sequence);
      if next.failure.Some? {
        return next;
      }
      if parsed.Torn? {
        var found := parsed.events;
        JoinedLines(codec, found);
        var text := Join(Encoded(codec, found), "\n") + (if |found| > 0 then "\n" else "");
        assert text == Lines(codec, found);
        WriteAtomically(d.file, text);
        var last := if |found| > 0 then found[|found| - 1].sequence else d.firstSeq - 1;
        var repaired := d.(eventCount := |found|, byteLength := ByteLength(text), lastSeq := last);
        next := next.(disk := disk, segments := next.segments[i := repaired], repaired := true);
      }
    }

    method ReadRecords(sequence: int) returns (result: Result<seq<Record>, Failure>)
      requires Valid()
      modifies this
      ensures Valid() && (disk, result) == ReadFrom(codec, old(disk), sequence)
    {
      if sequence < 0 {
        return Err(BadRange);
      }
      var current := ReadManifest();
      if current.None? {
        return Err(NoSession);
      }
      ghost var start := StartReading(disk, current.value);
      var n := |current.value.segments|;
      var r := StartReading(disk, current.value);
      var i := 0;
      while i < n
        invariant 0 <= i <= n == |r.segments| && disk.manifest == old(disk).manifest && Valid()
        invariant r.failure.None? && r.disk == disk && r == ReadSegments(codec, start, i, sequence)
      {
        r := ReadOne(r, i, sequence);
        assert r == ReadSegments(codec, start, i + 1, sequence);
        i := i + 1;
        if r.failure.Some? {
          FailureStays(codec, start, i, n, sequence);
          return Err(r.failure.value);
        }
      }
      if r.repaired {
        var next := Next(r.segments);
        var manifest := Manifest(next, r.segments);
        disk := Apply(disk, Publish(manifest));
        manifestValue := Some(manifest);
      }
      return Ok(r.events);
    }

    static method Next(segments: seq<Descriptor>) returns (next: int)
      ensures next == NextAfter(segments)
    {
      next := 0;
      var i := 0;
      while i < |segments|
        invariant 0 <= i <= |segments| && next == NextAfter(segments[..i])
      {
        assert segments[..i + 1][..i] == segments[..i];
        if segments[i].lastSeq + 1 > next {
          next := segments[i].lastSeq + 1;
        }
        i := i + 1;
      }
      assert segments[..|segments|] == segments;
    }

    /** The batch, distributed over the last and new segments. */
    method Distribute(start: Growing, events: seq<Record>) returns (g: Growing)
      ensures g == GrowAll(codec, limits, start, events)
    {
      hide PutRecord, WouldExceed;
      g := start;
      var i := 0;
      while i < |events|
        invariant 0 <= i <= |events| && g == GrowAll(codec, limits, start, events[..i])
      {
        assert events[..i + 1][..i] == events[..i];
        var event := events[i];
        if Rotates(codec, limits, g, event) {
          g := OpenSegment(g, event);
        }
        g := PutRecord(codec, g, event);
        i := i + 1;
      }
      assert events[..|events|] == events;
    }

    /** One atomic write per touched segment. */
    method WriteSegments(touched: seq<Touch>)
      modifies this`disk
      ensures disk == ApplyAll(old(disk), WriteTouched(touched)) && disk.manifest == old(disk).manifest
    {
      var i := 0;
      while i < |touched|
        invariant 0 <= i <= |touched| && disk == ApplyAll(old(disk), WriteTouched(touched[..i]))
        invariant disk.manifest == old(disk).manifest
      {
        assert touched[..i + 1][..i] == touched[..i];
        ApplyInTurn(old(disk), WriteTouched(touched[..i]), AtomicWrite(touched[i].file, touched[i].text));
        WriteAtomically(touched[i].file, touched[i].text);
        i := i + 1;
      }
      assert touched[..|touched|] == touched;
    }

    static method FollowsOn(events: seq<Record>, nextSeq: int) returns (continues: bool)
      ensures continues == Numbered(events, nextSeq)
    {
      var expected, i := nextSeq, 0;
      while i < |events|
        invariant 0 <= i <= |events| && expected == nextSeq + i
        invariant forall j :: 0 <= j < i ==> events[j].sequence == nextSeq + j
      {
        if events[i].sequence != expected {
          return false;
        }
        expected := expected + 1;
        i := i + 1;
      }
      return true;
    }

    method AppendRecords(events: seq<Record>) returns (result: Result<Manifest, Failure>)
      requires Valid()
      modifies this
      ensures Valid() && (disk, result) == Append(codec, limits, old(disk), events)
    {
      hide GrowAll, AppendOps, ApplyAll, ParseText, Numbered, LastText;
      var current := ReadManifest();
      if |events| == 0 {
        return if current.Some? then Ok(current.value) else Err(NoSession);
      }
      var manifest := if current.Some? then current.value else Manifest(0, []);
      var continues := FollowsOn(events, manifest.nextSeq);
      if !continues {
        return Err(OutOfSequence);
      }
      var text := LastText(disk, manifest);
      var parsed := ParseSegment(codec, text);
      if parsed.Corrupt? {
        return Err(Corrupted);
      }
      var start := Growing(manifest.segments, text, parsed.events, []);
      var g := Distribute(start, events);
      AppendIs(codec, limits, disk, events);
      result := Commit(g, manifest.nextSeq + |events|);
    }

    /** Segments first, the manifest last. */
    method Commit(g: Growing, nextSeq: int) returns (result: Result<Manifest, Failure>)
      modifies this
      ensures disk == ApplyAll(old(disk), AppendOps(g, nextSeq)) && manifestValue == disk.manifest
      ensures manifestValue == Some(Manifest(nextSeq, g.segments)) && result == Ok(Manifest(nextSeq, g.segments))
    {
      WriteSegments(g.touched);
      var next := Manifest(nextSeq, g.segments);
      PublishAfter(old(disk), WriteTouched(g.touched), next);
      disk := Apply(disk, Publish(next));
      manifestValue := Some(next);
      return Ok(next);
    }

    /** Best effort: the manifest no longer names them. */
    method RemoveOld(segments: seq<Descriptor>, kept: File)
      modifies this`disk
      ensures disk == ApplyAll(old(disk), RemoveSegments(segments, kept)) && disk.manifest == old(disk).manifest
    {
      var i := 0;
      while i < |segments|
        invariant 0 <= i <= |segments| && disk == ApplyAll(old(disk), RemoveSegments(segments[..i], kept))
        invariant disk.manifest == old(disk).manifest
      {
        assert segments[..i + 1][..i] == segments[..i];
        var file := segments[i].file;
        ApplyInTurn(old(disk), RemoveSegments(segments[..i], kept), if file == kept then [] else [Remove(file)]);
        if file != kept {
          ApplyOne(disk, Remove(file));
          disk := Apply(disk, Remove(file));
        }
        i := i + 1;
      }
      assert segments[..|segments|] == segments;
    }

    method CompactSegments(nonce: nat) returns (result: Result<Manifest, Failure>)
      requires Valid()
      modifies this
      ensures Valid() && (disk, result) == Compact(codec, old(disk), nonce)
    {
      var current := ReadManifest();
      if current.None? {
        return Err(NoSession);
      }
      var manifest := current.value;
      var read := ReadRecords(0);
      if read.Err? {
        return Err(read.error);
      }
      var events := read.value;
      JoinedLines(codec, events);
      var text := Join(Encoded(codec, events), "\n") + (if |events| > 0 then "\n" else "");
      assert text == Lines(codec, events);
      var next := CompactedManifest(codec, manifest, events, nonce);
      ghost var middle := disk;
      var first := [WriteFile(Compacted(nonce), text), Publish(next)];
      ApplyTwo(middle, first[0], first[1]);
      ApplyInTurn(middle, first, RemoveSegments(manifest.segments, Compacted(nonce)));
      disk := Apply(disk, WriteFile(Compacted(nonce), text));
      disk := Apply(disk, Publish(next));
      manifestValue := Some(next);
      RemoveOld(manifest.segments, Compacted(nonce));
      return Ok(next);
    }
  }
}
