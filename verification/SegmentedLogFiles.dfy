/** Which files a log needs and which it leaves behind. */
module SegmentedLogFiles {
  import opened Text
  import opened JsonLines
  import opened SessionSegments
  import opened SegmentedLog
  import opened SegmentedLogRuns

  // ----- A file that is gone -----

  function Without(disk: Disk, file: File): Disk
  {
    disk.(files := disk.files - {file})
  }

  lemma {:induction false} ScanIgnoresDisk(r: Reading, disk: Disk, found: seq<Record>, sequence: int)
    ensures ScanEvents(r.(disk := disk), found, sequence) == ScanEvents(r, found, sequence).(disk := disk)
    decreases |found|
  {
    if found != [] && !(r.expected.Some? && found[0].sequence != r.expected.value) {
      ScanIgnoresDisk(Accept(r, found[0], sequence), disk, found[1..], sequence);
      assert Accept(r.(disk := disk), found[0], sequence) == Accept(r, found[0], sequence).(disk := disk);
    }
  }

  /** Up to the segment that is gone, or past it when it is skipped, nothing is different. */
  lemma {:induction false} ReadsTheSame(c: Codec<Record>, disk: Disk, manifest: Manifest, contents: seq<seq<Record>>, i: nat,
                                        n: nat, sequence: int)
    requires i < |manifest.segments| == |contents| && n <= |contents|
    requires forall j :: 0 <= j < |contents| ==> ReadsAs(c, disk, manifest.segments[j], contents[j])
    requires forall j :: 0 <= j < |contents| && j != i ==> manifest.segments[j].file != manifest.segments[i].file
    requires n <= i || manifest.segments[i].lastSeq < sequence
    ensures var file := manifest.segments[i].file;
      ReadSegments(c, StartReading(Without(disk, file), manifest), n, sequence)
      == ReadSegments(c, StartReading(disk, manifest), n, sequence).(disk := Without(disk, file))
  {
    hide ParseText, ScanEvents, HasRead, ReadSegment, Kept;
    if n > 0 {
      var gone := Without(disk, manifest.segments[i].file);
      ReadsTheSame(c, disk, manifest, contents, i, n - 1, sequence);
      var r := ReadSegments(c, StartReading(disk, manifest), n - 1, sequence);
      SegmentsAreKept(c, disk, manifest, contents, n - 1, sequence);
      SegmentReadsTheSame(c, r, n - 1, gone, contents[n - 1], sequence);
    }
  }

  lemma SegmentsAreKept(c: Codec<Record>, disk: Disk, manifest: Manifest, contents: seq<seq<Record>>, n: nat, sequence: int)
    requires n <= |contents| == |manifest.segments|
    requires forall i :: 0 <= i < |contents| ==> ReadsAs(c, disk, manifest.segments[i], contents[i])
    ensures var r := ReadSegments(c, StartReading(disk, manifest), n, sequence); r.disk == disk && r.segments == manifest.segments
  {
    hide ReadSegments, Kept, From, Consecutive, ReadsAs;
    SegmentsRead(c, disk, manifest, contents, n, sequence);
  }

  lemma SegmentReadsTheSame(c: Codec<Record>, r: Reading, i: nat, gone: Disk, content: seq<Record>, sequence: int)
    requires i < |r.segments| && ReadsAs(c, r.disk, r.segments[i], content)
    requires r.segments[i].lastSeq < sequence || (r.segments[i].file in gone.files
                                                  && gone.files[r.segments[i].file] == r.disk.files[r.segments[i].file])
    ensures ReadSegment(c, r.(disk := gone), i, sequence) == ReadSegment(c, r, i, sequence).(disk := gone)
  {
    hide ParseText, ScanEvents;
    ScanIgnoresDisk(r, gone, content, sequence);
  }

  lemma StoredParts(c: Codec<Record>, disk: Disk, contents: seq<seq<Record>>, i: nat)
    requires Lawful(c) && disk.manifest.Some? && Represents(c, disk, contents) && i < |contents|
    ensures var segments := disk.manifest.value.segments;
      && |segments| == |contents|
      && (forall j :: 0 <= j < |contents| ==> ReadsAs(c, disk, segments[j], contents[j]))
      && (forall j :: 0 <= j < |contents| && j != i ==> segments[j].file != segments[i].file)
  {
    hide ReadsAs, FiledAt, Lines;
    var segments := disk.manifest.value.segments;
    forall j | 0 <= j < |contents|
      ensures ReadsAs(c, disk, segments[j], contents[j])
      ensures j != i ==> segments[j].file != segments[i].file
    {
      FiledReads(c, disk, segments[j], contents[j]);
      assert IndexedAt(segments[j], j) && IndexedAt(segments[i], i);
    }
  }

  /** A segment file that is gone is noticed exactly by the reads that need it: all others give what they gave before. */
  lemma MissingSegmentIsNoticed(c: Codec<Record>, disk: Disk, contents: seq<seq<Record>>, i: nat, sequence: nat)
    requires Lawful(c) && disk.manifest.Some? && Represents(c, disk, contents) && i < |contents|
    ensures |disk.manifest.value.segments| == |contents|
    ensures var d, log := disk.manifest.value.segments[i], Concat(contents);
      ReadFrom(c, Without(disk, d.file), sequence)
      == (Without(disk, d.file), if d.lastSeq < sequence then Ok(log[Clip(sequence, |log|)..]) else Err(MissingSegment))
  {
    hide Represents, ReadSegments, Concat, ParseText, ScanEvents, From, Consecutive;
    StoredParts(c, disk, contents, i);
    var manifest := disk.manifest.value;
    var d, n := manifest.segments[i], |contents|;
    SegmentsRead(c, disk, manifest, contents, n, sequence);
    ReadReturnsTheRest(c, disk, contents, sequence);
    if d.lastSeq < sequence {
      ReadsTheSame(c, disk, manifest, contents, i, n, sequence);
    } else {
      var gone := Without(disk, d.file);
      ReadsTheSame(c, disk, manifest, contents, i, i, sequence);
      if ReadSegments(c, StartReading(disk, manifest), i, sequence).failure.Some? {
        FailureStays(c, StartReading(disk, manifest), i, n, sequence);
      }
      SegmentsRead(c, disk, manifest, contents, i, sequence);
      FailsThere(c, gone, manifest, i, sequence);
      FailureStays(c, StartReading(gone, manifest), i + 1, n, sequence);
    }
  }

  lemma FailsThere(c: Codec<Record>, gone: Disk, manifest: Manifest, i: nat, sequence: int)
    requires i < |manifest.segments|
    requires var r := ReadSegments(c, StartReading(gone, manifest), i, sequence);
      r.failure.None? && r.disk == gone && r.segments == manifest.segments
    requires manifest.segments[i].lastSeq >= sequence && manifest.segments[i].file !in gone.files
    ensures var r, t := ReadSegments(c, StartReading(gone, manifest), i, sequence), ReadSegments(c, StartReading(gone, manifest), i + 1, sequence);
      t == r.(failure := Some(MissingSegment))
  {
    hide ParseText, ScanEvents;
  }

  // ----- Lines that are not as they should be -----

  /** An empty line anywhere but at an unfinished end means nothing. */
  lemma {:induction false} EmptyLinesAreSkipped(c: Codec<Record>, before: seq<string>, behind: seq<string>, ended: bool)
    requires behind != [] || ended
    ensures ParseLines(c, before + [""] + behind, ended) == ParseLines(c, before + behind, ended)
    decreases |before|
  {
    var lines, others := before + [""] + behind, before + behind;
    if before == [] {
      assert lines[1..] == behind && others == behind;
    } else {
      assert lines[1..] == before[1..] + [""] + behind && others[1..] == before[1..] + behind;
      EmptyLinesAreSkipped(c, before[1..], behind, ended);
    }
  }

  /** A torn segment that does not go on where the one before ended is an error, and it is not repaired. */
  lemma GapIsNotRepaired(c: Codec<Record>, r: Reading, i: nat, found: seq<Record>, sequence: int)
    requires i < |r.segments| && r.failure.None? && r.segments[i].lastSeq >= sequence && r.segments[i].file in r.disk.files
    requires ParseText(c, r.disk.files[r.segments[i].file]) == Torn(found)
    requires found != [] && r.expected.Some? && found[0].sequence != r.expected.value
    ensures ReadSegment(c, r, i, sequence) == r.(failure := Some(NonContiguous))
  {
    hide ParseText;
  }

  /** A stop may leave any beginning of the file that was being written. */
  lemma AWriteMayBeCut(disk: Disk, ops: seq<FsOp>, k: nat, partial: nat)
    requires k < |ops| && ops[k].WriteFile? && partial <= |ops[k].text|
    ensures var file, after := ops[k].file, Crash(disk, ops, k, partial);
      && file in after.files && after.files[file] == ops[k].text[..partial]
      && after.manifest == ApplyAll(disk, ops[..k]).manifest
  {
  }

  // ----- What a compaction leaves -----

  predicate IsOld(segments: seq<Descriptor>, file: File)
  {
    exists i :: 0 <= i < |segments| && segments[i].file == file
  }

  lemma {:induction false} RemovalsRemove(disk: Disk, segments: seq<Descriptor>, kept: File, file: File)
    ensures var after := ApplyAll(disk, RemoveSegments(segments, kept));
      && (file in after.files <==> file in disk.files && (file == kept || !IsOld(segments, file)))
      && (file in after.files ==> after.files[file] == disk.files[file])
    decreases |segments|
  {
    if segments != [] {
      var front, last := segments[..|segments| - 1], segments[|segments| - 1].file;
      RemovalsRemove(disk, front, kept, file);
      OldOn(segments, file);
      var more := if last == kept then [] else [Remove(last)];
      ApplyInTurn(disk, RemoveSegments(front, kept), more);
      if last != kept {
        ApplyOne(ApplyAll(disk, RemoveSegments(front, kept)), Remove(last));
      }
    }
  }

  lemma OldOn(segments: seq<Descriptor>, file: File)
    requires segments != []
    ensures IsOld(segments, file) <==> IsOld(segments[..|segments| - 1], file) || segments[|segments| - 1].file == file
  {
    var front := segments[..|segments| - 1];
    if IsOld(front, file) {
      var i :| 0 <= i < |front| && front[i].file == file;
      assert segments[i].file == file;
    }
    if i :| 0 <= i < |segments| && segments[i].file == file && i < |front| {
      assert front[i].file == file;
    }
  }

  /** After a compaction the new file is there, the old segment files are gone, and every other file is as it was. */
  lemma CompactionRemovesTheOldFiles(c: Codec<Record>, disk: Disk, stored: seq<seq<Record>>, nonce: nat, file: File)
    requires Lawful(c) && disk.manifest.Some? && Represents(c, disk, stored)
    ensures var after := Compact(c, disk, nonce).0;
      if file == Compacted(nonce) then file in after.files && after.files[file] == Lines(c, Concat(stored))
      else if IsOld(disk.manifest.value.segments, file) then file !in after.files
      else SameFile(after, disk, file)
  {
    var log, manifest, kept := Concat(stored), disk.manifest.value, Compacted(nonce);
    ReadReturnsTheRest(c, disk, stored, 0);
    assert log[0..] == log;
    hide ReadFrom, Represents, Concat, RemoveSegments, Lines, Lawful;
    var first := [WriteFile(kept, Lines(c, log)), Publish(CompactedManifest(c, manifest, log, nonce))];
    var rest := RemoveSegments(manifest.segments, kept);
    ApplyInTurn(disk, first, rest);
    ApplyTwo(disk, first[0], first[1]);
    RemovalsRemove(ApplyAll(disk, first), manifest.segments, kept, file);
  }
}
