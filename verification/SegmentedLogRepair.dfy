/** A last segment file cut short: what reading repairs, and what appending or compacting without reading breaks. */
module SegmentedLogRepair {
  import opened Text
  import opened JsonLines
  import opened SessionSegments
  import opened SegmentedLog
  import opened SegmentedLogRuns

  function LastFile(disk: Disk): File
    requires CurrentManifest(disk).segments != []
  {
    var segments := CurrentManifest(disk).segments;
    segments[|segments| - 1].file
  }

  /** The disk represents the log, but for its last file, which ends after `k` characters of its last record. */
  ghost predicate CutLog(c: Codec<Record>, disk: Disk, stored: seq<seq<Record>>, front: seq<Record>, e: Record, k: nat)
  {
    && disk.manifest.Some? && CurrentManifest(disk).segments != []
    && stored != [] && stored[|stored| - 1] == front + [e] && 0 < k <= |c.encode(e)|
    && LastFile(disk) in disk.files && disk.files[LastFile(disk)] == Lines(c, front) + c.encode(e)[..k]
    && Represents(c, disk.(files := disk.files[LastFile(disk) := Lines(c, front + [e])]), stored)
  }

  /** The contents without the last record. */
  function Shortened(stored: seq<seq<Record>>, front: seq<Record>): seq<seq<Record>>
    requires stored != []
  {
    stored[..|stored| - 1] + [front]
  }

  lemma ConcatShortened(stored: seq<seq<Record>>, front: seq<Record>, e: Record)
    requires stored != [] && stored[|stored| - 1] == front + [e]
    ensures Concat(stored) == Concat(Shortened(stored, front)) + [e]
  {
    hide Concat;
    var before := stored[..|stored| - 1];
    assert stored == before + [front + [e]];
    ConcatSnoc(before, front + [e]);
    ConcatSnoc(before, front);
    assert Concat(before) + (front + [e]) == Concat(before) + front + [e];
  }

  /** All files but the last are as they were. */
  lemma OthersAreFiled(c: Codec<Record>, disk: Disk, stored: seq<seq<Record>>, front: seq<Record>, e: Record, k: nat)
    requires CutLog(c, disk, stored, front, e, k)
    ensures disk.manifest.Some? && stored != []
    ensures var segments := disk.manifest.value.segments;
      && |segments| == |stored| && Indexed(segments) && Described(c, segments, stored)
      && Numbered(Concat(stored), 0) && disk.manifest.value.nextSeq == |Concat(stored)|
      && (forall i :: 0 <= i < |stored| - 1 ==> FiledAt(c, disk, segments[i], stored[i]))
      && Encodable(c, front) && c.valid(e)
  {
    hide Lines, Concat, Described, Numbered;
    var intact, segments := disk.(files := disk.files[LastFile(disk) := Lines(c, front + [e])]), disk.manifest.value.segments;
    var n := |stored| - 1;
    assert CurrentManifest(intact) == CurrentManifest(disk);
    assert FiledAt(c, intact, segments[n], stored[n]);
    assert IndexedAt(segments[n], n);
    forall i | 0 <= i < n
      ensures FiledAt(c, disk, segments[i], stored[i])
    {
      assert FiledAt(c, intact, segments[i], stored[i]) && IndexedAt(segments[i], i);
    }
    assert (front + [e])[|front|] == e;
    forall i | 0 <= i < |front|
      ensures c.valid(front[i])
    {
      assert (front + [e])[i] == front[i];
    }
  }

  lemma OutcomeOfShortened(c: Codec<Record>, segments: seq<Descriptor>, stored: seq<seq<Record>>, front: seq<Record>,
                           e: Record, sequence: nat)
    requires stored != [] && stored[|stored| - 1] == front + [e]
    requires Described(c, segments, stored) && Numbered(Concat(stored), 0) && sequence < |Concat(stored)|
    ensures var log := Concat(Shortened(stored, front)); var kept := Kept(segments, Shortened(stored, front), |stored|, sequence);
      Consecutive(kept) && From(kept, sequence) == log[Clip(sequence, |log|)..]
  {
    var short, n := Shortened(stored, front), |stored|;
    ConcatShortened(stored, front, e);
    hide From, DescribedAt, Concat, Consecutive, Kept, Numbered;
    var j := KeptIsTheEnd(c, segments, stored, short, n, sequence);
    assert short[j..n] == short[j..] && stored[..n] == stored;
    assert j < n;
    assert stored[..j] == short[..j];
    EndOf(short, j);
    ConcatOfNothing(stored);
    NumberedFront(Concat(short), e);
    ReadEnd(Concat(short), |Concat(stored[..j])|, sequence);
  }

  lemma EndOf(contents: seq<seq<Record>>, j: nat)
    requires j <= |contents|
    ensures |Concat(contents[..j])| <= |Concat(contents)|
    ensures Concat(contents[j..]) == Concat(contents)[|Concat(contents[..j])|..]
  {
    hide Concat;
    assert contents == contents[..j] + contents[j..];
    ConcatAppend(contents[..j], contents[j..]);
  }

  lemma NumberedFront(log: seq<Record>, e: Record)
    requires Numbered(log + [e], 0)
    ensures Numbered(log, 0)
  {
    assert forall i :: 0 <= i < |log| ==> (log + [e])[i] == log[i];
  }

  lemma {:induction false} NextAfterAll(c: Codec<Record>, segments: seq<Descriptor>, contents: seq<seq<Record>>)
    requires Described(c, segments, contents)
    ensures NextAfter(segments) == |Concat(contents)|
    decreases |segments|
  {
    hide DescribedAt;
    if segments != [] {
      var n := |segments| - 1;
      LastSeqAt(c, segments, contents, n);
      assert contents[..n + 1] == contents;
      assert forall i :: 0 <= i < n ==> contents[..n][..i] == contents[..i];
      NextAfterAll(c, segments[..n], contents[..n]);
      ConcatGrows(contents, n, n + 1);
    }
  }

  /** The disk after the repair. */
  function Repaired(c: Codec<Record>, disk: Disk, stored: seq<seq<Record>>, front: seq<Record>): Reading
    requires stored != [] && disk.manifest.Some? && |disk.manifest.value.segments| == |stored|
  {
    Repair(c, StartReading(disk, disk.manifest.value), |stored| - 1, front)
  }

  lemma FrontIsNumbered(stored: seq<seq<Record>>, front: seq<Record>, e: Record)
    requires stored != [] && stored[|stored| - 1] == front + [e] && Numbered(Concat(stored), 0) && front != []
    ensures front[|front| - 1].sequence == |Concat(stored[..|stored| - 1])| + |front| - 1
  {
    hide Concat;
    var before := stored[..|stored| - 1];
    ConcatSnoc(before, front + [e]);
    assert stored == before + [front + [e]];
    assert Concat(stored)[|Concat(before)| + |front| - 1] == front[|front| - 1];
  }

  lemma RepairedDescribed(c: Codec<Record>, disk: Disk, stored: seq<seq<Record>>, front: seq<Record>, e: Record)
    requires disk.manifest.Some? && stored != [] && stored[|stored| - 1] == front + [e]
    requires Described(c, disk.manifest.value.segments, stored) && Numbered(Concat(stored), 0)
    ensures Described(c, Repaired(c, disk, stored, front).segments, Shortened(stored, front))
  {
    hide Lines, ByteLength, Concat, ApplyAll, AtomicWrite, Numbered;
    var segments, short, n := disk.manifest.value.segments, Shortened(stored, front), |stored| - 1;
    var repaired := Repaired(c, disk, stored, front).segments;
    if front != [] {
      FrontIsNumbered(stored, front, e);
    }
    forall i | 0 <= i < |short|
      ensures DescribedAt(c, repaired[i], |Concat(short[..i])|, short[i])
    {
      assert short[..i] == stored[..i];
      assert DescribedAt(c, segments[i], |Concat(stored[..i])|, stored[i]);
    }
  }

  lemma RepairedFiled(c: Codec<Record>, disk: Disk, stored: seq<seq<Record>>, front: seq<Record>)
    requires disk.manifest.Some? && |disk.manifest.value.segments| == |stored| > 0
    requires Indexed(disk.manifest.value.segments) && Encodable(c, front)
    requires forall i :: 0 <= i < |stored| - 1 ==> FiledAt(c, disk, disk.manifest.value.segments[i], stored[i])
    ensures var r := Repaired(c, disk, stored, front);
            Indexed(r.segments) && Filed(c, r.disk, r.segments, Shortened(stored, front))
  {
    hide Lines, Encodable;
    var segments, short, n := disk.manifest.value.segments, Shortened(stored, front), |stored| - 1;
    var r := Repaired(c, disk, stored, front);
    assert IndexedAt(segments[n], n);
    AtomicWriteEffect(disk, segments[n].file, Lines(c, front));
    forall i | 0 <= i < |short|
      ensures FiledAt(c, r.disk, r.segments[i], short[i]) && IndexedAt(r.segments[i], i)
    {
      assert IndexedAt(segments[i], i);
      if i < n {
        assert FiledAt(c, disk, segments[i], stored[i]) && SameFile(r.disk, disk, segments[i].file);
      }
    }
  }

  lemma RepairedRepresents(c: Codec<Record>, disk: Disk, stored: seq<seq<Record>>, front: seq<Record>, e: Record, k: nat)
    requires CutLog(c, disk, stored, front, e, k) && |disk.manifest.value.segments| == |stored|
    ensures var r := Repaired(c, disk, stored, front);
      Represents(c, Apply(r.disk, Publish(Manifest(NextAfter(r.segments), r.segments))), Shortened(stored, front))
  {
    OthersAreFiled(c, disk, stored, front, e, k);
    RepairedDescribed(c, disk, stored, front, e);
    RepairedFiled(c, disk, stored, front);
    hide CutLog, Lines, Encodable, Described, Concat, Indexed, FiledAt, NextAfter, Repair;
    var short, r := Shortened(stored, front), Repaired(c, disk, stored, front);
    NextAfterAll(c, r.segments, short);
    ConcatShortened(stored, front, e);
    assert forall i :: 0 <= i < |Concat(short)| ==> Concat(short)[i] == Concat(stored)[i];
    assert Filed(c, Apply(r.disk, Publish(Manifest(NextAfter(r.segments), r.segments))), r.segments, short) by {
      FiledAnyManifest(c, r.disk, r.segments, short, Manifest(NextAfter(r.segments), r.segments));
    }
  }

  lemma FiledAnyManifest(c: Codec<Record>, disk: Disk, segments: seq<Descriptor>, contents: seq<seq<Record>>, manifest: Manifest)
    requires Filed(c, disk, segments, contents)
    ensures Filed(c, Apply(disk, Publish(manifest)), segments, contents)
  {
    hide Lines, Encodable;
    forall i | 0 <= i < |segments|
      ensures FiledAt(c, Apply(disk, Publish(manifest)), segments[i], contents[i])
    {
      assert FiledAt(c, disk, segments[i], contents[i]);
    }
  }

  /** Reading up to the cut file. */
  lemma ReadsUpToTheCut(c: Codec<Record>, disk: Disk, stored: seq<seq<Record>>, front: seq<Record>, e: Record, k: nat,
                        sequence: nat)
    requires Lawful(c) && CutLog(c, disk, stored, front, e, k) && |disk.manifest.value.segments| == |stored|
    ensures var n := |stored| - 1; var segments := disk.manifest.value.segments;
      HasRead(ReadSegments(c, StartReading(disk, disk.manifest.value), n, sequence), disk, segments, false,
              Kept(segments, stored, n, sequence), sequence)
  {
    hide CutLog, Lawful, FiledAt, ReadsAs, Described, Indexed, Numbered, Concat, HasRead, ReadSegments, Kept;
    OthersAreFiled(c, disk, stored, front, e, k);
    forall i | 0 <= i < |stored| - 1
      ensures ReadsAs(c, disk, disk.manifest.value.segments[i], stored[i])
    {
      FiledReads(c, disk, disk.manifest.value.segments[i], stored[i]);
    }
    SegmentsRead(c, disk, disk.manifest.value, stored, |stored| - 1, sequence);
  }

  lemma {:induction false} SameKept(segments: seq<Descriptor>, a: seq<seq<Record>>, others: seq<Descriptor>,
                                    b: seq<seq<Record>>, n: nat, sequence: int)
    requires n <= |a| == |segments| && n <= |b| == |others|
    requires forall i :: 0 <= i < n ==> a[i] == b[i] && segments[i] == others[i]
    ensures Kept(segments, a, n, sequence) == Kept(others, b, n, sequence)
  {
    if n > 0 {
      SameKept(segments, a, others, b, n - 1, sequence);
    }
  }

  /** The torn file is read and repaired on the way, wherever the reading goes afterwards. */
  lemma ReadsThroughTheTear(c: Codec<Record>, start: Reading, i: nat, before: seq<Record>, front: seq<Record>, sequence: int)
    requires i < |start.segments| && HasRead(ReadSegments(c, start, i, sequence), start.disk, start.segments, false, before, sequence)
    requires start.segments[i].file in start.disk.files && start.segments[i].lastSeq >= sequence
    requires ParseText(c, start.disk.files[start.segments[i].file]) == Torn(front)
    ensures var r, fixed := ReadSegments(c, start, i + 1, sequence), Repair(c, start, i, front);
      if Consecutive(before + front)
      then HasRead(r, fixed.disk, fixed.segments, true, before + front, sequence)
      else r.failure == Some(NonContiguous)
    ensures |Repair(c, start, i, front).segments| == |start.segments|
  {
    hide ScanEvents, ParseText, From, After;
    var r := ReadSegments(c, start, i, sequence);
    if Consecutive(before) {
      ScanReads(r, start.disk, start.segments, false, before, front, sequence);
    } else {
      NotConsecutive(before, front);
    }
  }

  /** The torn file is the last one. */
  lemma ReadEndsInTear(c: Codec<Record>, disk: Disk, n: nat, before: seq<Record>, front: seq<Record>, sequence: nat)
    requires disk.manifest.Some? && |disk.manifest.value.segments| == n + 1
    requires var start := StartReading(disk, disk.manifest.value);
      HasRead(ReadSegments(c, start, n, sequence), disk, start.segments, false, before, sequence)
    requires var d := disk.manifest.value.segments[n];
      d.file in disk.files && d.lastSeq >= sequence && ParseText(c, disk.files[d.file]) == Torn(front)
    requires Consecutive(before + front)
    ensures var fixed := Repair(c, StartReading(disk, disk.manifest.value), n, front);
      ReadFrom(c, disk, sequence)
      == (Apply(fixed.disk, Publish(Manifest(NextAfter(fixed.segments), fixed.segments))), Ok(From(before + front, sequence)))
  {
    hide ScanEvents, ParseText, From, Consecutive, Repair, NextAfter, ReadSegments;
    ReadsThroughTheTear(c, StartReading(disk, disk.manifest.value), n, before, front, sequence);
  }

  /** Reading a log whose last record is torn gives all the others, and leaves a log of just these behind. */
  lemma TornTailIsRepaired(c: Codec<Record>, disk: Disk, stored: seq<seq<Record>>, front: seq<Record>, e: Record, k: nat,
                           sequence: nat)
    requires Lawful(c) && CutLog(c, disk, stored, front, e, k) && k < |c.encode(e)|
    requires sequence < |Concat(stored)|
    ensures var (after, result) := ReadFrom(c, disk, sequence); var log := Concat(Shortened(stored, front));
      && Concat(stored) == log + [e]
      && result == Ok(log[Clip(sequence, |log|)..])
      && after.manifest.Some? && Represents(c, after, Shortened(stored, front))
  {
    hide Lawful, Represents, Described, Concat, Numbered, Indexed, HasRead, ReadSegments, ReadFrom, From, Consecutive, FiledAt, NextAfter, Lines, ParseText;
    OthersAreFiled(c, disk, stored, front, e, k);
    var segments, short, n := disk.manifest.value.segments, Shortened(stored, front), |stored| - 1;
    ConcatShortened(stored, front, e);
    LastIsKept(c, segments, stored, sequence);
    ReadsUpToTheCut(c, disk, stored, front, e, k, sequence);
    ParseCut(c, front, e, k);
    OutcomeOfShortened(c, segments, stored, front, e, sequence);
    SameKept(segments, stored, segments, short, n, sequence);
    RepairedRepresents(c, disk, stored, front, e, k);
    ReadEndsInTear(c, disk, n, Kept(segments, stored, n, sequence), front, sequence);
  }

  /** With only the last newline lost, every file reads as before. */
  lemma CutFilesRead(c: Codec<Record>, disk: Disk, stored: seq<seq<Record>>, front: seq<Record>, e: Record)
    requires Lawful(c) && CutLog(c, disk, stored, front, e, |c.encode(e)|)
    ensures |disk.manifest.value.segments| == |stored|
    ensures forall i :: 0 <= i < |stored| ==> ReadsAs(c, disk, disk.manifest.value.segments[i], stored[i])
  {
    OthersAreFiled(c, disk, stored, front, e, |c.encode(e)|);
    var segments := disk.manifest.value.segments;
    ParseCut(c, front, e, |c.encode(e)|);
    hide Lawful, Represents, FiledAt, Described, ParseText, Concat, Numbered, Indexed;
    forall i | 0 <= i < |stored|
      ensures ReadsAs(c, disk, segments[i], stored[i])
    {
      if i < |stored| - 1 {
        FiledReads(c, disk, segments[i], stored[i]);
      }
    }
  }

  /** A file that lost only its last newline reads as if whole, and stays as it is. */
  lemma LostNewlineIsUnseen(c: Codec<Record>, disk: Disk, stored: seq<seq<Record>>, front: seq<Record>, e: Record,
                            sequence: nat)
    requires Lawful(c) && CutLog(c, disk, stored, front, e, |c.encode(e)|)
    ensures ReadFrom(c, disk, sequence) == (disk, Ok(Concat(stored)[Clip(sequence, |Concat(stored)|)..]))
  {
    CutFilesRead(c, disk, stored, front, e);
    OthersAreFiled(c, disk, stored, front, e, |c.encode(e)|);
    hide Lawful, Represents, FiledAt, ReadsAs, ReadFrom, Described, Concat, Outcome, Numbered, CutLog;
    ReadReadable(c, disk, stored, sequence);
    OutcomeOfWhole(c, disk.manifest.value.segments, stored, sequence);
  }

  lemma OutcomeOfWhole(c: Codec<Record>, segments: seq<Descriptor>, contents: seq<seq<Record>>, sequence: nat)
    requires Described(c, segments, contents) && Numbered(Concat(contents), 0)
    ensures Outcome(segments, contents, sequence) == Ok(Concat(contents)[Clip(sequence, |Concat(contents)|)..])
  {
    hide Described, Concat, Outcome, Numbered;
    ExtendedByNothing(contents);
    assert Concat(contents) + [] == Concat(contents);
    OutcomeOfExtended(c, segments, contents, [], sequence);
  }

  lemma KeptStarts(kept: seq<Record>, front: seq<Record>)
    requires Consecutive(kept + front)
    ensures Consecutive(kept)
  {
    assert forall i :: 0 <= i < |kept| ==> (kept + front)[i] == kept[i];
  }

  lemma LastIsKept(c: Codec<Record>, segments: seq<Descriptor>, stored: seq<seq<Record>>, sequence: nat)
    requires Described(c, segments, stored) && stored != [] && sequence < |Concat(stored)|
    ensures segments[|stored| - 1].lastSeq >= sequence
  {
    LastSeqAt(c, segments, stored, |stored| - 1);
    assert stored[..|stored|] == stored;
  }

  // ----- Compacting a torn log -----

  /** Compaction keeps the next number of the manifest from before the repair, so the record that was lost leaves a gap:
      the numbers of the log no longer reach the next one. */
  lemma CompactOfTornLogLeavesAGap(c: Codec<Record>, disk: Disk, stored: seq<seq<Record>>, front: seq<Record>, e: Record,
                                   k: nat, nonce: nat)
    requires Lawful(c) && CutLog(c, disk, stored, front, e, k) && k < |c.encode(e)|
    ensures var (after, result) := Compact(c, disk, nonce); var log := Concat(Shortened(stored, front));
      && result.Ok? && after.manifest == Some(result.value)
      && Concat(stored) == log + [e] && result.value == CompactedManifest(c, disk.manifest.value, log, nonce)
      && result.value.nextSeq == |log| + 1
      && !Represents(c, after, Single(log))
  {
    OthersAreFiled(c, disk, stored, front, e, k);
    ConcatShortened(stored, front, e);
    TornTailIsRepaired(c, disk, stored, front, e, k, 0);
    hide ReadFrom, CutLog, Lawful, Filed, Described, Concat, Indexed;
    var log := Concat(Shortened(stored, front));
    assert log[0..] == log;
    RepresentsManifest(c, ReadFrom(c, disk, 0).0, disk.manifest.value, log, nonce);
    ConcatSingle(log);
  }

  // ----- Appending without reading first -----

  /** What appending starts from when the last file is cut. */
  lemma StartOnCut(c: Codec<Record>, disk: Disk, stored: seq<seq<Record>>, front: seq<Record>, e: Record, k: nat)
    requires Lawful(c) && CutLog(c, disk, stored, front, e, k)
    ensures StartGrowing(c, disk)
         == Some(Growing(disk.manifest.value.segments, Lines(c, front) + c.encode(e)[..k],
                         if k < |c.encode(e)| then front else front + [e], []))
  {
    OthersAreFiled(c, disk, stored, front, e, k);
    ParseCut(c, front, e, k);
    hide Lawful, Represents, ParseText;
  }

  function Intact(c: Codec<Record>, disk: Disk, front: seq<Record>, e: Record): Disk
    requires CurrentManifest(disk).segments != []
  {
    disk.(files := disk.files[LastFile(disk) := Lines(c, front + [e])])
  }

  /** The cut file is shorter, so what would exceed it would exceed the whole one too. */
  lemma IntactExceedsToo(c: Codec<Record>, limits: Limits, cut: Growing, intact: Growing, front: seq<Record>, e: Record,
                         k: nat, b: Record)
    requires cut.segments == intact.segments && k <= |c.encode(e)| && cut.text == Lines(c, front) + c.encode(e)[..k]
    requires intact.text == Lines(c, front + [e]) && intact.events == front + [e]
    requires cut.events == front || cut.events == front + [e]
    requires WouldExceed(c, limits, cut, b)
    ensures WouldExceed(c, limits, intact, b)
  {
    var rest := c.encode(e)[k..] + "\n";
    LinesAppend(c, front, [e]);
    LinesOne(c, e);
    hide Lines, ByteLength;
    assert c.encode(e)[..k] + c.encode(e)[k..] == c.encode(e);
    assert intact.text == cut.text + rest;
    ByteLengthConcat(cut.text, rest);
  }

  /** Once the first record goes to a new segment, the last file no longer matters. */
  lemma {:induction false} SameGrowth(c: Codec<Record>, limits: Limits, a: Growing, b: Growing, events: seq<Record>)
    requires a.segments == b.segments && a.touched == b.touched && events != []
    requires Rotates(c, limits, a, events[0]) && Rotates(c, limits, b, events[0])
    ensures GrowAll(c, limits, a, events) == GrowAll(c, limits, b, events)
    decreases |events|
  {
    hide WouldExceed, PutRecord;
    var front := events[..|events| - 1];
    if front == [] {
      assert OpenSegment(a, events[0]) == OpenSegment(b, events[0]);
      assert GrowAll(c, limits, a, []) == a && GrowAll(c, limits, b, []) == b;
    } else {
      SameGrowth(c, limits, a, b, front);
    }
  }

  /** What a batch leaves behind a cut file when its first record goes to a new segment. */
  ghost predicate Behind(c: Codec<Record>, disk: Disk, next: Disk, stored: seq<seq<Record>>, batch: seq<Record>,
                         segments: seq<Descriptor>, contents: seq<seq<Record>>)
  {
    && next.manifest == Some(Manifest(|Concat(contents)|, segments))
    && |segments| == |contents| >= |stored| && Described(c, segments, contents) && Indexed(segments)
    && Concat(contents) == Concat(stored) + batch
    && (forall i :: 0 <= i < |stored| ==> contents[i] == stored[i] && SameFile(next, disk, segments[i].file))
    && (forall i :: |stored| <= i < |contents| ==> FiledAt(c, next, segments[i], contents[i]))
  }

  lemma BehindFiles(c: Codec<Record>, disk: Disk, written: Disk, start: seq<Descriptor>, stored: seq<seq<Record>>,
                    g: Growing, contents: seq<seq<Record>>)
    requires |start| == |stored| && |g.segments| == |contents| && GrowsInto(c, g, contents)
    requires Continues(start, stored, g, contents) && FirstTouched(g) == |stored| && Written(written, disk, g.touched)
    ensures |contents| >= |stored| && g.segments[..|stored|] == start
    ensures forall i :: 0 <= i < |stored| ==> contents[i] == stored[i] && SameFile(written, disk, g.segments[i].file)
    ensures forall i :: |stored| <= i < |contents| ==> FiledAt(c, written, g.segments[i], contents[i])
  {
    TouchedAreWritable(c, g, contents);
    hide Lines, Encodable, Indexed;
    forall i | |stored| <= i < |contents|
      ensures FiledAt(c, written, g.segments[i], contents[i])
    {
      assert g.touched[i - |stored|] == TouchAt(c, g.segments, contents, i) && Encodable(c, contents[i]);
    }
  }

  lemma BehindPublished(c: Codec<Record>, disk: Disk, written: Disk, stored: seq<seq<Record>>, batch: seq<Record>,
                        g: Growing, contents: seq<seq<Record>>)
    requires disk.manifest.Some? && |disk.manifest.value.segments| == |stored|
    requires |g.segments| == |contents| && GrowsInto(c, g, contents) && FirstTouched(g) == |stored|
    requires Continues(disk.manifest.value.segments, stored, g, contents) && Written(written, disk, g.touched)
    requires Described(c, g.segments, contents) && Concat(contents) == Concat(stored) + batch
    ensures Behind(c, disk, written.(manifest := Some(Manifest(|Concat(contents)|, g.segments))), stored, batch, g.segments, contents)
    ensures g.segments[..|stored|] == disk.manifest.value.segments
  {
    BehindFiles(c, disk, written, disk.manifest.value.segments, stored, g, contents);
    hide Described, Concat, Lines, Encodable, Indexed, Written, TouchedEnd, Continues;
    forall i | |stored| <= i < |contents|
      ensures FiledAt(c, written.(manifest := Some(Manifest(|Concat(contents)|, g.segments))), g.segments[i], contents[i])
    {
      assert FiledAt(c, written, g.segments[i], contents[i]);
    }
  }

  lemma AppendPublishes(c: Codec<Record>, limits: Limits, disk: Disk, batch: seq<Record>, g: Growing)
    requires batch != [] && Numbered(batch, CurrentManifest(disk).nextSeq)
    requires StartGrowing(c, disk).Some? && g == GrowAll(c, limits, StartGrowing(c, disk).value, batch)
    ensures var manifest := Manifest(CurrentManifest(disk).nextSeq + |batch|, g.segments);
      Append(c, limits, disk, batch)
      == (ApplyAll(disk, WriteTouched(g.touched)).(manifest := Some(manifest)), Ok(manifest))
  {
    AppendIs(c, limits, disk, batch);
    hide StartGrowing, GrowAll, Append, Numbered, WriteTouched;
    PublishLast(disk, WriteTouched(g.touched), Manifest(CurrentManifest(disk).nextSeq + |batch|, g.segments));
  }

  lemma BehindWritten(c: Codec<Record>, limits: Limits, disk: Disk, stored: seq<seq<Record>>, batch: seq<Record>, g: Growing,
                      contents: seq<seq<Record>>)
    requires disk.manifest.Some? && |disk.manifest.value.segments| == |stored| && disk.manifest.value.nextSeq == |Concat(stored)|
    requires |g.segments| == |contents| && GrowsInto(c, g, contents) && FirstTouched(g) == |stored|
    requires Continues(disk.manifest.value.segments, stored, g, contents)
    requires Described(c, g.segments, contents) && Concat(contents) == Concat(stored) + batch
    requires batch != [] && Numbered(batch, |Concat(stored)|)
    requires StartGrowing(c, disk).Some? && g == GrowAll(c, limits, StartGrowing(c, disk).value, batch)
    ensures Behind(c, disk, Append(c, limits, disk, batch).0, stored, batch, g.segments, contents)
    ensures Append(c, limits, disk, batch).1.Ok? && g.segments[..|stored|] == disk.manifest.value.segments
  {
    hide Append, GrowAll, GrowsInto, StartGrowing, Described, Concat, Numbered, Written, Continues, Behind, ApplyAll, WriteTouched, FirstTouched;
    AppendPublishes(c, limits, disk, batch, g);
    TouchedAreWritable(c, g, contents);
    TouchedAreWritten(disk, g.touched);
    BehindPublished(c, disk, ApplyAll(disk, WriteTouched(g.touched)), stored, batch, g, contents);
  }

  lemma PublishLast(disk: Disk, ops: seq<FsOp>, manifest: Manifest)
    ensures ApplyAll(disk, ops + [Publish(manifest)]) == ApplyAll(disk, ops).(manifest := Some(manifest))
  {
    var all := ops + [Publish(manifest)];
    assert all[..|all| - 1] == ops;
  }

  lemma AppendBehindCut(c: Codec<Record>, limits: Limits, disk: Disk, stored: seq<seq<Record>>, front: seq<Record>,
                        e: Record, k: nat, batch: seq<Record>) returns (segments: seq<Descriptor>, contents: seq<seq<Record>>)
    requires Lawful(c) && CutLog(c, disk, stored, front, e, k)
    requires Encodable(c, batch) && batch != [] && Numbered(batch, |Concat(stored)|)
    requires StartGrowing(c, disk).Some? && WouldExceed(c, limits, StartGrowing(c, disk).value, batch[0])
    ensures Behind(c, disk, Append(c, limits, disk, batch).0, stored, batch, segments, contents)
    ensures Append(c, limits, disk, batch).1.Ok? && segments[..|stored|] == disk.manifest.value.segments
  {
    var intact := Intact(c, disk, front, e);
    StartOnCut(c, disk, stored, front, e, k);
    StartHolds(c, intact, stored);
    var a, b := StartGrowing(c, disk).value, StartGrowing(c, intact).value;
    IntactExceedsToo(c, limits, a, b, front, e, k, batch[0]);
    SameGrowth(c, limits, a, b, batch);
    var g;
    g, contents := AppendDistributes(c, limits, intact, stored, batch);
    segments := g.segments;
    OthersAreFiled(c, disk, stored, front, e, k);
    hide Described, Filed, FiledAt, Lawful, Lines, Concat, Indexed, Numbered, StartGrowing, GrowAll, GrowsInto, Continues, Encodable;
    BehindWritten(c, limits, disk, stored, batch, g, contents);
  }

  lemma SameFileReads(c: Codec<Record>, a: Disk, b: Disk, d: Descriptor, content: seq<Record>)
    requires ReadsAs(c, b, d, content) && SameFile(a, b, d.file)
    ensures ReadsAs(c, a, d, content)
  {
  }

  /** Behind a file that lost only its newline, a new segment is safe. */
  lemma BatchBehindLostNewline(c: Codec<Record>, limits: Limits, disk: Disk, stored: seq<seq<Record>>, front: seq<Record>,
                               e: Record, batch: seq<Record>)
    requires Lawful(c) && CutLog(c, disk, stored, front, e, |c.encode(e)|)
    requires Encodable(c, batch) && batch != [] && Numbered(batch, |Concat(stored)|)
    requires StartGrowing(c, disk).Some? && WouldExceed(c, limits, StartGrowing(c, disk).value, batch[0])
    ensures ReadFrom(c, Append(c, limits, disk, batch).0, 0).1 == Ok(Concat(stored) + batch)
  {
    var segments, contents := AppendBehindCut(c, limits, disk, stored, front, e, |c.encode(e)|, batch);
    CutFilesRead(c, disk, stored, front, e);
    OthersAreFiled(c, disk, stored, front, e, |c.encode(e)|);
    var next := Append(c, limits, disk, batch).0;
    hide CutLog, Append, StartGrowing, WouldExceed, FiledAt, ReadsAs, Described, Indexed, Concat, Outcome, ReadFrom, Lawful, Encodable, Numbered;
    forall i | 0 <= i < |contents|
      ensures ReadsAs(c, next, segments[i], contents[i])
    {
      if i < |stored| {
        assert segments[..|stored|][i] == segments[i];
        SameFileReads(c, next, disk, segments[i], contents[i]);
      } else {
        FiledReads(c, next, segments[i], contents[i]);
      }
    }
    ReadReadable(c, next, contents, 0);
    NumberedOn(Concat(stored), batch);
    OutcomeOfWhole(c, segments, contents, 0);
    assert Concat(contents)[0..] == Concat(contents);
  }

  /** Reading on over segments that are not skipped. */
  lemma {:induction false} SegmentsReadOn(c: Codec<Record>, start: Reading, i: nat, n: nat, disk: Disk,
                                          segments: seq<Descriptor>, repaired: bool, before: seq<Record>,
                                          contents: seq<seq<Record>>, sequence: int)
    requires i <= n <= |start.segments| == |segments| == |contents|
    requires HasRead(ReadSegments(c, start, i, sequence), disk, segments, repaired, before, sequence)
    requires forall j :: i <= j < n ==> ReadsAs(c, disk, segments[j], contents[j]) && segments[j].lastSeq >= sequence
    ensures HasRead(ReadSegments(c, start, n, sequence), disk, segments, repaired, before + Concat(contents[i..n]), sequence)
  {
    hide HasRead, ReadsAs, ReadSegment, Concat;
    if i == n {
      ConcatOfNothing(contents);
      assert contents[i..n] == contents[..0] && before + [] == before;
    } else {
      SegmentsReadOn(c, start, i, n - 1, disk, segments, repaired, before, contents, sequence);
      var sofar := before + Concat(contents[i..n - 1]);
      assert contents[i..n] == contents[i..n - 1] + [contents[n - 1]];
      ConcatSnoc(contents[i..n - 1], contents[n - 1]);
      assert before + Concat(contents[i..n]) == sofar + contents[n - 1];
      SegmentReads(c, ReadSegments(c, start, n - 1, sequence), n - 1, disk, segments, repaired, sofar, contents[n - 1], sequence);
    }
  }

  lemma NumberedOn(log: seq<Record>, batch: seq<Record>)
    requires Numbered(log, 0) && Numbered(batch, |log|)
    ensures Numbered(log + batch, 0)
  {
  }

  /** After a gap, whatever follows, reading fails. */
  lemma GapFails(before: seq<Record>, front: seq<Record>, batch: seq<Record>)
    requires front != [] && batch != [] && batch[0].sequence != front[|front| - 1].sequence + 1
    ensures !Consecutive(before + front + batch)
  {
    var all, at := before + front + batch, |before| + |front|;
    assert all[at] == batch[0] && all[at - 1] == front[|front| - 1];
  }

  lemma LastOfFront(stored: seq<seq<Record>>, front: seq<Record>, e: Record)
    requires stored != [] && stored[|stored| - 1] == front + [e] && front != [] && Numbered(Concat(stored), 0)
    ensures front[|front| - 1].sequence == |Concat(stored)| - 2
  {
    ConcatShortened(stored, front, e);
    var log, before := Concat(stored), stored[..|stored| - 1];
    ConcatSnoc(before, front);
    assert log[|log| - 2] == front[|front| - 1];
  }

  lemma BehindConcat(c: Codec<Record>, disk: Disk, next: Disk, stored: seq<seq<Record>>, batch: seq<Record>,
                     segments: seq<Descriptor>, contents: seq<seq<Record>>)
    requires Behind(c, disk, next, stored, batch, segments, contents)
    ensures Concat(contents[|stored|..]) == batch && contents[..|stored|] == stored
  {
    hide Concat, FiledAt, Described, Indexed;
    assert contents[..|stored|] == stored;
    EndOf(contents, |stored|);
  }

  lemma BehindReachesAt(c: Codec<Record>, segments: seq<Descriptor>, contents: seq<seq<Record>>, n: nat, j: nat)
    requires Described(c, segments, contents) && n <= j < |contents| && contents[n] != []
    ensures segments[j].lastSeq >= 0
  {
    hide Described, Concat;
    LastSeqAt(c, segments, contents, j);
    ConcatGrows(contents, n + 1, j + 1);
    assert contents[..n + 1] == contents[..n] + [contents[n]];
    ConcatSnoc(contents[..n], contents[n]);
  }

  /** Segments behind the repaired one read as before. */
  lemma BehindTheRepair(c: Codec<Record>, start: Reading, i: nat, front: seq<Record>, j: nat, content: seq<Record>)
    requires i < j < |start.segments| && Indexed(start.segments) && ReadsAs(c, start.disk, start.segments[j], content)
    ensures var fixed := Repair(c, start, i, front);
            fixed.segments[j] == start.segments[j] && ReadsAs(c, fixed.disk, fixed.segments[j], content)
  {
    hide ParseText, Lines, ByteLength;
    assert IndexedAt(start.segments[i], i) && IndexedAt(start.segments[j], j);
    AtomicWriteEffect(start.disk, start.segments[i].file, Lines(c, front));
    assert SameFile(Repair(c, start, i, front).disk, start.disk, start.segments[j].file);
  }

  lemma StartOf(disk: Disk, manifest: Manifest)
    ensures StartReading(disk, manifest).segments == manifest.segments && StartReading(disk, manifest).disk == disk
  {
  }

  lemma ReadFromFails(c: Codec<Record>, disk: Disk, failure: Failure)
    requires disk.manifest.Some?
    requires ReadSegments(c, StartReading(disk, disk.manifest.value), |disk.manifest.value.segments|, 0).failure == Some(failure)
    ensures ReadFrom(c, disk, 0).1 == Err(failure)
  {
    hide ReadSegments;
  }

  lemma TornInside(c: Codec<Record>, next: Disk, n: nat, front: seq<Record>, batch: seq<Record>, contents: seq<seq<Record>>)
    requires next.manifest.Some? && n < |next.manifest.value.segments| == |contents| && Indexed(next.manifest.value.segments)
    requires forall i :: 0 <= i < |contents| && i != n ==> ReadsAs(c, next, next.manifest.value.segments[i], contents[i])
    requires forall i :: n <= i < |contents| ==> next.manifest.value.segments[i].lastSeq >= 0
    requires next.manifest.value.segments[n].file in next.files
    requires ParseText(c, next.files[next.manifest.value.segments[n].file]) == Torn(front)
    requires Concat(contents[n + 1..]) == batch
    requires front != [] && batch != [] && batch[0].sequence != front[|front| - 1].sequence + 1
    ensures ReadFrom(c, next, 0).1 == Err(NonContiguous)
  {
    hide *;
    var segments, m := next.manifest.value.segments, |contents|;
    var start := StartReading(next, next.manifest.value);
    StartOf(next, next.manifest.value);
    SegmentsRead(c, next, next.manifest.value, contents, n, 0);
    var before := Kept(segments, contents, n, 0);
    ReadsThroughTheTear(c, start, n, before, front, 0);
    if Consecutive(before + front) {
      var fixed := Repair(c, start, n, front);
      forall j | n + 1 <= j < m
        ensures ReadsAs(c, fixed.disk, fixed.segments[j], contents[j]) && fixed.segments[j].lastSeq >= 0
      {
        BehindTheRepair(c, start, n, front, j, contents[j]);
      }
      SegmentsReadOn(c, start, n + 1, m, fixed.disk, fixed.segments, true, before + front, contents, 0);
      assert contents[n + 1..m] == contents[n + 1..];
      GapFails(before, front, batch);
      ReadFailed(c, start, m, fixed.disk, fixed.segments, before + front + batch);
    } else {
      FailureStays(c, start, n + 1, m, 0);
    }
    ReadFromFails(c, next, NonContiguous);
  }

  lemma ReadFailed(c: Codec<Record>, start: Reading, m: nat, disk: Disk, segments: seq<Descriptor>, events: seq<Record>)
    requires m <= |start.segments| && HasRead(ReadSegments(c, start, m, 0), disk, segments, true, events, 0)
    requires !Consecutive(events)
    ensures ReadSegments(c, start, m, 0).failure == Some(NonContiguous)
  {
  }

  lemma BehindReads(c: Codec<Record>, disk: Disk, next: Disk, stored: seq<seq<Record>>, batch: seq<Record>,
                    segments: seq<Descriptor>, contents: seq<seq<Record>>, i: nat)
    requires Lawful(c) && Behind(c, disk, next, stored, batch, segments, contents) && i < |contents|
    requires i < |stored| ==> FiledAt(c, disk, segments[i], stored[i])
    ensures ReadsAs(c, next, segments[i], contents[i])
  {
    hide ReadsAs, FiledAt, Described, Indexed, Concat, Lawful;
    if i < |stored| {
      FiledReads(c, disk, segments[i], stored[i]);
      SameFileReads(c, next, disk, segments[i], contents[i]);
    } else {
      FiledReads(c, next, segments[i], contents[i]);
    }
  }

  /** Behind a torn file, a new segment makes the log unreadable: the lost record leaves a gap. */
  lemma BatchBehindTornTail(c: Codec<Record>, limits: Limits, disk: Disk, stored: seq<seq<Record>>, front: seq<Record>,
                            e: Record, k: nat, batch: seq<Record>)
    requires Lawful(c) && CutLog(c, disk, stored, front, e, k) && k < |c.encode(e)|
    requires Encodable(c, batch) && batch != [] && Numbered(batch, |Concat(stored)|)
    requires StartGrowing(c, disk).Some? && WouldExceed(c, limits, StartGrowing(c, disk).value, batch[0])
    ensures ReadFrom(c, Append(c, limits, disk, batch).0, 0).1 == Err(NonContiguous)
  {
    var segments, contents := AppendBehindCut(c, limits, disk, stored, front, e, k, batch);
    var next, n := Append(c, limits, disk, batch).0, |stored| - 1;
    assert front != [] by {
      StartOnCut(c, disk, stored, front, e, k);
    }
    OthersAreFiled(c, disk, stored, front, e, k);
    LastOfFront(stored, front, e);
    ParseCut(c, front, e, k);
    assert batch[0].sequence == |Concat(stored)|;
    BehindConcat(c, disk, next, stored, batch, segments, contents);
    assert segments[n] == segments[..|stored|][n];
    assert SameFile(next, disk, segments[n].file);
    forall i | 0 <= i < |contents| && i != n
      ensures ReadsAs(c, next, segments[i], contents[i])
    {
      BehindReads(c, disk, next, stored, batch, segments, contents, i);
    }
    forall i | n <= i < |contents|
      ensures segments[i].lastSeq >= 0
    {
      BehindReachesAt(c, segments, contents, n, i);
    }
    hide *;
    TornInside(c, next, n, front, batch, contents);
  }

  // ----- Gluing -----

  lemma GluedIsMalformed(c: Codec<Record>, e: Record, k: nat, b: Record)
    requires Lawful(c) && c.valid(e) && c.valid(b) && 0 < k <= |c.encode(e)|
    ensures var glued := c.encode(e)[..k] + c.encode(b);
            glued != "" && '\n' !in glued && c.decode(glued) == Malformed
  {
    assert OneLine(c, b) && OneLine(c, e);
  }

  lemma GluedText(c: Codec<Record>, front: seq<Record>, start: string, share: seq<Record>)
    requires share != []
    ensures Lines(c, front) + start + Lines(c, share)
         == Lines(c, front) + (start + c.encode(share[0]) + "\n" + Lines(c, share[1..]))
  {
    hide Lines;
    assert share == [share[0]] + share[1..];
    LinesAppend(c, [share[0]], share[1..]);
    LinesOne(c, share[0]);
  }

  /** A record written right behind the start of another one spoils the whole file. */
  lemma ParseGlued(c: Codec<Record>, front: seq<Record>, e: Record, k: nat, share: seq<Record>)
    requires Lawful(c) && Encodable(c, front) && c.valid(e) && Encodable(c, share) && share != []
    requires 0 < k <= |c.encode(e)|
    ensures ParseText(c, Lines(c, front) + c.encode(e)[..k] + Lines(c, share)) == Corrupt
  {
    hide Lines, LinesOf, Split, ParseLines, Lawful;
    var glued, rest := c.encode(e)[..k] + c.encode(share[0]), share[1..];
    var tail := glued + "\n" + Lines(c, rest);
    GluedIsMalformed(c, e, k, share[0]);
    GluedText(c, front, c.encode(e)[..k], share);
    EncodableLines(c, front);
    LinesOfRecords(c, front, tail);
    SplitLines(c, front, tail);
    GluedLines(c, glued, rest);
    ParseEncoded(c, front, LinesOf(tail), true);
  }

  lemma GluedLines(c: Codec<Record>, glued: string, rest: seq<Record>)
    requires Lawful(c) && Encodable(c, rest) && '\n' !in glued && glued != "" && c.decode(glued) == Malformed
    ensures var tail := glued + "\n" + Lines(c, rest);
      && ParseLines(c, LinesOf(tail), true) == Corrupt
      && Split(tail, '\n')[|Split(tail, '\n')| - 1] == ""
  {
    hide Lines, Lawful;
    var tail := glued + "\n" + Lines(c, rest);
    SplitFirst(glued, Lines(c, rest), '\n');
    EncodableLines(c, rest);
    SplitLines(c, rest, "");
    assert Lines(c, rest) + "" == Lines(c, rest);
    assert LinesOf(tail)[0] == glued;
  }

  /** The batch grew behind the text the last file held, whatever that was. */
  ghost predicate Glued(c: Codec<Record>, start: Growing, g: Growing, share: seq<Record>)
    requires start.segments != []
  {
    var n := |start.segments| - 1;
    && share != [] && |g.segments| > n && |g.touched| == |g.segments| - n && Indexed(g.segments)
    && (forall i :: 0 <= i < n ==> g.segments[i] == start.segments[i])
    && g.segments[n].file == start.segments[n].file && g.segments[n].lastSeq >= 0
    && (forall j :: 0 <= j < |g.touched| ==> g.touched[j].index == n + j && g.touched[j].file == g.segments[n + j].file)
    && g.touched[0].text == start.text + Lines(c, share)
    && (|g.segments| == n + 1 ==> g.text == g.touched[0].text)
  }

  lemma PutText(c: Codec<Record>, text: string, share: seq<Record>, event: Record)
    ensures text + Lines(c, share) + c.encode(event) + "\n" == text + Lines(c, share + [event])
  {
    hide Lines;
    LinesAppend(c, share, [event]);
    LinesOne(c, event);
    assert text + Lines(c, share) + c.encode(event) + "\n" == text + (Lines(c, share) + (c.encode(event) + "\n"));
  }

  lemma GluesOn(c: Codec<Record>, limits: Limits, start: Growing, g: Growing, share: seq<Record>, event: Record)
    requires start.segments != [] && Glued(c, start, g, share) && event.sequence >= 0
    ensures Glued(c, start, GrowOne(c, limits, g, event),
                  if Rotates(c, limits, g, event) || |g.segments| > |start.segments| then share else share + [event])
  {
    hide Lines, ByteLength, WouldExceed;
    GrowsIndexed(c, limits, g, event);
    PutText(c, start.text, share, event);
    var n, last := |start.segments| - 1, |g.segments| - 1;
    assert IndexedAt(g.segments[last], last);
    assert g.touched[|g.touched| - 1].index == last;
  }

  lemma GluesFirst(c: Codec<Record>, limits: Limits, start: Growing, event: Record)
    requires start.segments != [] && start.touched == [] && Indexed(start.segments)
    requires !Rotates(c, limits, start, event) && event.sequence >= 0
    ensures Glued(c, start, GrowOne(c, limits, start, event), [event])
  {
    hide Lines, ByteLength, WouldExceed;
    GrowsIndexed(c, limits, start, event);
    LinesOne(c, event);
    assert start.text + c.encode(event) + "\n" == start.text + (c.encode(event) + "\n");
    assert IndexedAt(start.segments[|start.segments| - 1], |start.segments| - 1);
  }

  lemma {:induction false} GluesAll(c: Codec<Record>, limits: Limits, start: Growing, events: seq<Record>, from: nat)
    returns (share: seq<Record>)
    requires start.segments != [] && start.touched == [] && Indexed(start.segments)
    requires events != [] && !Rotates(c, limits, start, events[0]) && Numbered(events, from) && Encodable(c, events)
    ensures Glued(c, start, GrowAll(c, limits, start, events), share) && Encodable(c, share)
    decreases |events|
  {
    hide Lines, Rotates, GrowOne, Glued, Indexed;
    var front, last := events[..|events| - 1], events[|events| - 1];
    assert last.sequence >= 0 && c.valid(last);
    if front == [] {
      share := [last];
      assert GrowAll(c, limits, start, []) == start;
      GluesFirst(c, limits, start, last);
    } else {
      var before := GluesAll(c, limits, start, front, from);
      var g := GrowAll(c, limits, start, front);
      GluesOn(c, limits, start, g, before, last);
      share := if Rotates(c, limits, g, last) || |g.segments| > |start.segments| then before else before + [last];
    }
  }

  lemma GluedIsWritten(c: Codec<Record>, disk: Disk, start: Growing, g: Growing, share: seq<Record>, written: Disk)
    requires start.segments != [] && Glued(c, start, g, share) && written == ApplyAll(disk, WriteTouched(g.touched))
    ensures var n := |start.segments| - 1;
      && g.segments[n].file in written.files && written.files[g.segments[n].file] == start.text + Lines(c, share)
      && (forall i :: 0 <= i < n ==> SameFile(written, disk, g.segments[i].file))
  {
    hide Lines, WriteTouched, ApplyAll;
    var n := |start.segments| - 1;
    forall i | 0 <= i < |g.segments|
      ensures IndexedAt(g.segments[i], i)
    {
    }
    forall j | 0 <= j < |g.touched|
      ensures g.touched[j].file == g.segments[n + j].file && IndexedAt(g.segments[n + j], n + j)
    {
    }
    assert Writable(g.touched);
    TouchedAreWritten(disk, g.touched);
    assert g.touched[0].file == g.segments[n].file;
    forall i | 0 <= i < n
      ensures SameFile(written, disk, g.segments[i].file)
    {
      assert forall j :: 0 <= j < |g.touched| ==> g.touched[j].file != g.segments[i].file;
    }
  }

  lemma KeptInFront(c: Codec<Record>, segments: seq<Descriptor>, stored: seq<seq<Record>>, front: seq<Record>, e: Record)
    requires stored != [] && stored[|stored| - 1] == front + [e] && |segments| == |stored|
    requires Described(c, segments, stored) && Numbered(Concat(stored), 0)
    ensures Consecutive(Kept(segments, stored, |stored| - 1, 0))
  {
    hide Described, Numbered, Concat;
    ConcatShortened(stored, front, e);
    OutcomeOfShortened(c, segments, stored, front, e, 0);
    var short, n := Shortened(stored, front), |stored| - 1;
    SameKept(segments, stored, segments, short, n, 0);
    var before := Kept(segments, stored, n, 0);
    assert before + [] == before;
    KeptStarts(before, if segments[n].lastSeq < 0 then [] else front);
  }

  lemma CorruptInside(c: Codec<Record>, next: Disk, n: nat, before: seq<seq<Record>>)
    requires next.manifest.Some? && n < |next.manifest.value.segments| == |before|
    requires forall i :: 0 <= i < n ==> ReadsAs(c, next, next.manifest.value.segments[i], before[i])
    requires Consecutive(Kept(next.manifest.value.segments, before, n, 0))
    requires next.manifest.value.segments[n].lastSeq >= 0 && next.manifest.value.segments[n].file in next.files
    requires ParseText(c, next.files[next.manifest.value.segments[n].file]) == Corrupt
    ensures ReadFrom(c, next, 0).1 == Err(Corrupted)
  {
    hide ReadFrom, ReadsAs, ParseText, Kept, Consecutive;
    var segments, start := next.manifest.value.segments, StartReading(next, next.manifest.value);
    SegmentsRead(c, next, next.manifest.value, before, n, 0);
    assert ReadSegments(c, start, n + 1, 0) == ReadSegment(c, ReadSegments(c, start, n, 0), n, 0);
    FailureStays(c, start, n + 1, |segments|, 0);
    ReadFromFails(c, next, Corrupted);
  }

  /** Appended to the cut file, the batch spoils it: nothing of the log can be read any more. */
  lemma BatchGluedToCut(c: Codec<Record>, limits: Limits, disk: Disk, stored: seq<seq<Record>>, front: seq<Record>,
                        e: Record, k: nat, batch: seq<Record>)
    requires Lawful(c) && CutLog(c, disk, stored, front, e, k)
    requires Encodable(c, batch) && batch != [] && Numbered(batch, |Concat(stored)|)
    requires StartGrowing(c, disk).Some? && !WouldExceed(c, limits, StartGrowing(c, disk).value, batch[0])
    ensures Append(c, limits, disk, batch).1.Ok?
    ensures ReadFrom(c, Append(c, limits, disk, batch).0, 0).1 == Err(Corrupted)
  {
    hide Lawful, CutLog, Encodable, Numbered, WouldExceed, Append, ReadFrom, StartGrowing, Described, Concat, FiledAt, ReadsAs;
    hide GrowAll, Indexed, Lines, ParseText, ApplyAll, WriteTouched, Consecutive, Kept;
    CutWithin(c, disk, stored, front, e, k);
    OthersAreFiled(c, disk, stored, front, e, k);
    StartOnCut(c, disk, stored, front, e, k);
    var segments, start, n := disk.manifest.value.segments, StartGrowing(c, disk).value, |stored| - 1;
    var share := GluesAll(c, limits, start, batch, |Concat(stored)|);
    var g := GrowAll(c, limits, start, batch);
    var written, next := ApplyAll(disk, WriteTouched(g.touched)), Append(c, limits, disk, batch).0;
    GluedIsWritten(c, disk, start, g, share, written);
    AppendPublishes(c, limits, disk, batch, g);
    ParseGlued(c, front, e, k, share);
    KeptInFront(c, segments, stored, front, e);
    var before := seq(|g.segments|, i requires 0 <= i < |g.segments| => if i < |stored| then stored[i] else []);
    SameKept(segments, stored, g.segments, before, n, 0);
    forall i | 0 <= i < n
      ensures ReadsAs(c, next, g.segments[i], before[i])
    {
      FiledReads(c, disk, segments[i], stored[i]);
      SameFileReads(c, next, disk, segments[i], stored[i]);
    }
    CorruptInside(c, next, n, before);
  }

  /** Appending to a cut file without reading it first: afterwards the log can be read exactly when only the newline was
      lost and the batch began a new segment. */
  lemma AppendOntoCut(c: Codec<Record>, limits: Limits, disk: Disk, stored: seq<seq<Record>>, front: seq<Record>,
                      e: Record, k: nat, batch: seq<Record>)
    requires Lawful(c) && CutLog(c, disk, stored, front, e, k)
    requires Encodable(c, batch) && batch != [] && Numbered(batch, |Concat(stored)|)
    ensures StartGrowing(c, disk).Some?
    ensures var (next, result) := Append(c, limits, disk, batch);
      var rotates := WouldExceed(c, limits, StartGrowing(c, disk).value, batch[0]);
      && result.Ok?
      && ReadFrom(c, next, 0).1
         == if !rotates then Err(Corrupted)
            else if k < |c.encode(e)| then Err(NonContiguous)
            else Ok(Concat(stored) + batch)
  {
    hide *;
    StartOnCut(c, disk, stored, front, e, k);
    if !WouldExceed(c, limits, StartGrowing(c, disk).value, batch[0]) {
      BatchGluedToCut(c, limits, disk, stored, front, e, k, batch);
    } else {
      var _, _ := AppendBehindCut(c, limits, disk, stored, front, e, k, batch);
      CutWithin(c, disk, stored, front, e, k);
      if k < |c.encode(e)| {
        BatchBehindTornTail(c, limits, disk, stored, front, e, k, batch);
      } else {
        BatchBehindLostNewline(c, limits, disk, stored, front, e, batch);
      }
    }
  }

  lemma CutWithin(c: Codec<Record>, disk: Disk, stored: seq<seq<Record>>, front: seq<Record>, e: Record, k: nat)
    requires CutLog(c, disk, stored, front, e, k)
    ensures 0 < k <= |c.encode(e)| && stored != [] && stored[|stored| - 1] == front + [e]
  {
  }
}
