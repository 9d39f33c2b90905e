/** Runs of the segmented log, and what a stop in the middle of an operation leaves behind. */
module SegmentedLogRuns {
  import opened Text
  import opened JsonLines
  import opened SessionSegments
  import opened SegmentedLog

  // ----- Appending -----

  lemma StartHolds(c: Codec<Record>, disk: Disk, stored: seq<seq<Record>>)
    requires Lawful(c) && Filed(c, disk, CurrentManifest(disk).segments, stored)
    requires Indexed(CurrentManifest(disk).segments)
    ensures var segments := CurrentManifest(disk).segments;
      && StartGrowing(c, disk).Some?
      && StartGrowing(c, disk).value.segments == segments && StartGrowing(c, disk).value.touched == []
      && GrowsInto(c, StartGrowing(c, disk).value, stored)
  {
    hide Lines, ParseText, Described, Indexed, Encodable, Lawful;
    NoLines(c);
    var segments := CurrentManifest(disk).segments;
    if stored == [] {
      ParseWritten(c, []);
    } else {
      assert FiledAt(c, disk, segments[|stored| - 1], stored[|stored| - 1]);
      ParseWritten(c, stored[|stored| - 1]);
    }
    forall i | 0 <= i < |stored|
      ensures Encodable(c, stored[i])
    {
      assert FiledAt(c, disk, segments[i], stored[i]);
    }
  }

  lemma NoLines(c: Codec<Record>)
    ensures Lines(c, []) == "" && Encodable(c, [])
  {
  }

  lemma TouchedAreWritable(c: Codec<Record>, g: Growing, contents: seq<seq<Record>>)
    requires |g.segments| == |contents| && GrowsInto(c, g, contents)
    ensures Writable(g.touched)
    ensures forall i, j :: 0 <= i < FirstTouched(g) && 0 <= j < |g.touched| ==> g.segments[i].file != g.touched[j].file
    ensures forall i :: 0 <= i < |g.segments| ==> !g.segments[i].file.Temporary?
  {
    hide Lines, Encodable;
    var first := FirstTouched(g);
    forall i | 0 <= i < |g.segments|
      ensures IndexedAt(g.segments[i], i)
    {
    }
    forall j | 0 <= j < |g.touched|
      ensures g.touched[j].file == g.segments[first + j].file && IndexedAt(g.segments[first + j], first + j)
    {
      assert g.touched[j] == TouchAt(c, g.segments, contents, first + j);
    }
  }

  /** Once the touched files are written, every segment file holds its part. */
  lemma FiledWhenWritten(c: Codec<Record>, disk: Disk, after: Disk, start: seq<Descriptor>, stored: seq<seq<Record>>,
                         g: Growing, contents: seq<seq<Record>>)
    requires Filed(c, disk, start, stored) && |g.segments| == |contents| && GrowsInto(c, g, contents)
    requires Continues(start, stored, g, contents) && Written(after, disk, g.touched)
    ensures Filed(c, after, g.segments, contents)
  {
    hide Lines, Encodable;
    TouchedAreWritable(c, g, contents);
    var first := FirstTouched(g);
    forall i | 0 <= i < |g.segments|
      ensures g.segments[i].file in after.files && after.files[g.segments[i].file] == Lines(c, contents[i])
    {
      var file := g.segments[i].file;
      if i < first {
        assert SameFile(after, disk, file);
        assert file == start[i].file && file in disk.files;
      } else {
        assert g.touched[i - first] == TouchAt(c, g.segments, contents, i);
      }
    }
  }

  /** What became of the last old segment: `none` of the batch, or its share of it. */
  function Share(g: Growing, stored: seq<seq<Record>>, contents: seq<seq<Record>>, m: nat): seq<Record>
    requires |g.segments| == |contents|
  {
    var first := FirstTouched(g);
    if m == 0 || first < 0 || first >= |stored| || first >= |contents| || |contents[first]| < |stored[first]| then []
    else contents[first][|stored[first]|..]
  }

  lemma ShareIsPrefix(start: seq<Descriptor>, stored: seq<seq<Record>>, g: Growing, contents: seq<seq<Record>>,
                      events: seq<Record>, m: nat)
    requires |start| == |stored| && |g.segments| == |contents| && Continues(start, stored, g, contents)
    requires Concat(contents) == Concat(stored) + events
    ensures Share(g, stored, contents, m) <= events
    ensures stored == [] ==> Share(g, stored, contents, m) == []
  {
    hide Concat;
    var first, share := FirstTouched(g), Share(g, stored, contents, m);
    if m > 0 && first < |stored| {
      assert first == |stored| - 1;
      assert contents[first] == stored[first] + share;
      var grown := Extended(stored, share);
      assert grown == contents[..first + 1] by {
        assert stored[..first] == contents[..first];
      }
      ConcatExtended(stored, share);
      assert contents == contents[..first + 1] + contents[first + 1..];
      ConcatAppend(contents[..first + 1], contents[first + 1..]);
      var rest := Concat(contents[first + 1..]);
      assert Concat(stored) + events == Concat(stored) + share + rest;
      assert events == (Concat(stored) + events)[|Concat(stored)|..] == share + rest;
    }
  }

  lemma PartlyWrittenAt(c: Codec<Record>, disk: Disk, after: Disk, start: seq<Descriptor>, stored: seq<seq<Record>>,
                        g: Growing, contents: seq<seq<Record>>, m: nat, i: nat)
    requires |start| == |stored| && |g.segments| == |contents| && i < |start| && FiledAt(c, disk, start[i], stored[i])
    requires GrowsInto(c, g, contents) && Continues(start, stored, g, contents)
    requires m <= |g.touched| && Written(after, disk, g.touched[..m])
    requires forall j :: 0 <= j < |g.touched| && i < FirstTouched(g) ==> g.segments[i].file != g.touched[j].file
    requires !start[i].file.Temporary?
    ensures FiledAt(c, after, start[i], Extended(stored, Share(g, stored, contents, m))[i])
  {
    hide Lines, Encodable, Indexed;
    var first, share, file := FirstTouched(g), Share(g, stored, contents, m), start[i].file;
    var extended := Extended(stored, share);
    ExtendedByNothing(stored);
    if i < first || m == 0 {
      assert SameFile(after, disk, file);
      assert extended[i] == stored[i];
    } else {
      assert i == first == |stored| - 1;
      assert g.touched[0] == TouchAt(c, g.segments, contents, i) && g.touched[..m][0] == g.touched[0];
      assert extended[i] == contents[i];
    }
  }

  /** Before the manifest is published, the old segments hold what they held, and the last one perhaps its share. */
  lemma FiledWhenPartlyWritten(c: Codec<Record>, disk: Disk, after: Disk, start: seq<Descriptor>,
                               stored: seq<seq<Record>>, g: Growing, contents: seq<seq<Record>>, m: nat)
    requires Filed(c, disk, start, stored) && |g.segments| == |contents| && GrowsInto(c, g, contents)
    requires Continues(start, stored, g, contents) && m <= |g.touched| && Written(after, disk, g.touched[..m])
    ensures Filed(c, after, start, Extended(stored, Share(g, stored, contents, m)))
  {
    hide Lines, Encodable, FiledAt, Share, GrowsInto, Written;
    TouchedAreWritable(c, g, contents);
    forall i | 0 <= i < |start|
      ensures FiledAt(c, after, start[i], Extended(stored, Share(g, stored, contents, m))[i])
    {
      assert start[i].file == g.segments[i].file;
      PartlyWrittenAt(c, disk, after, start, stored, g, contents, m, i);
    }
  }

  /** How a batch is distributed over any readable segment files, whether or not the descriptors are up to date. */
  ghost predicate Distributes(c: Codec<Record>, limits: Limits, disk: Disk, stored: seq<seq<Record>>,
                              events: seq<Record>, g: Growing, contents: seq<seq<Record>>)
  {
    var now := CurrentManifest(disk);
    && StartGrowing(c, disk).Some? && g == GrowAll(c, limits, StartGrowing(c, disk).value, events)
    && |now.segments| == |stored| && |g.segments| == |contents|
    && GrowsInto(c, g, contents) && Continues(now.segments, stored, g, contents)
    && (Described(c, now.segments, stored) && Numbered(events, |Concat(stored)|) ==> Described(c, g.segments, contents))
    && Concat(contents) == Concat(stored) + events && (Whole(stored) ==> Whole(contents))
    && (FilledUp(c, limits, stored) ==> FilledUp(c, limits, contents))
    && FirstTouched(g)
       == (if events != [] && !Rotates(c, limits, StartGrowing(c, disk).value, events[0]) then |stored| - 1 else |stored|)
  }

  lemma AppendDistributes(c: Codec<Record>, limits: Limits, disk: Disk, stored: seq<seq<Record>>, events: seq<Record>)
    returns (g: Growing, contents: seq<seq<Record>>)
    requires Lawful(c) && Filed(c, disk, CurrentManifest(disk).segments, stored) && Indexed(CurrentManifest(disk).segments)
    requires Encodable(c, events)
    ensures Distributes(c, limits, disk, stored, events, g, contents)
  {
    StartHolds(c, disk, stored);
    hide GrowsInto, Continues, Described, Lawful, Numbered, Indexed, Whole, FilledUp, GrowAll, Concat, StartGrowing;
    var start := StartGrowing(c, disk).value;
    contents := GrowsAll(c, limits, start, stored, events);
    g := GrowAll(c, limits, start, events);
  }

  lemma AppendIs(c: Codec<Record>, limits: Limits, disk: Disk, events: seq<Record>)
    requires events != [] && Numbered(events, CurrentManifest(disk).nextSeq) && StartGrowing(c, disk).Some?
    ensures var g := GrowAll(c, limits, StartGrowing(c, disk).value, events);
      var manifest := Manifest(CurrentManifest(disk).nextSeq + |events|, g.segments);
      && AppendOps(g, manifest.nextSeq) == WriteTouched(g.touched) + [Publish(manifest)]
      && Append(c, limits, disk, events) == (ApplyAll(disk, AppendOps(g, manifest.nextSeq)), Ok(manifest))
  {
    hide StartGrowing, GrowAll, Numbered, WriteTouched, ApplyAll;
  }

  lemma AppendStores(c: Codec<Record>, limits: Limits, disk: Disk, stored: seq<seq<Record>>, events: seq<Record>,
                     g: Growing, contents: seq<seq<Record>>)
    requires Filed(c, disk, CurrentManifest(disk).segments, stored)
    requires Distributes(c, limits, disk, stored, events, g, contents)
    requires events != [] && Numbered(events, CurrentManifest(disk).nextSeq)
    ensures var (after, result) := Append(c, limits, disk, events);
      var manifest := Manifest(CurrentManifest(disk).nextSeq + |events|, g.segments);
      after.manifest == Some(manifest) && result == Ok(manifest) && Filed(c, after, g.segments, contents)
  {
    hide GrowsInto, Continues, Described, Filed, Numbered, GrowAll, Concat, StartGrowing, Append, Whole, AppendOps;
    AppendIs(c, limits, disk, events);
    TouchedAreWritable(c, g, contents);
    TouchedAreWritten(disk, g.touched);
    var ops := WriteTouched(g.touched);
    FiledWhenWritten(c, disk, ApplyAll(disk, ops), CurrentManifest(disk).segments, stored, g, contents);
    Published(c, disk, ops, Manifest(CurrentManifest(disk).nextSeq + |events|, g.segments), contents);
  }

  lemma Published(c: Codec<Record>, disk: Disk, ops: seq<FsOp>, manifest: Manifest, contents: seq<seq<Record>>)
    requires Filed(c, ApplyAll(disk, ops), manifest.segments, contents)
    ensures ApplyAll(disk, ops + [Publish(manifest)]) == ApplyAll(disk, ops).(manifest := Some(manifest))
    ensures Filed(c, ApplyAll(disk, ops + [Publish(manifest)]), manifest.segments, contents)
  {
    hide Encodable, Lines;
    var all := ops + [Publish(manifest)];
    assert all[..|all| - 1] == ops;
  }

  lemma RepresentedParts(c: Codec<Record>, disk: Disk, stored: seq<seq<Record>>)
    requires Represents(c, disk, stored)
    ensures var now := CurrentManifest(disk);
      && |now.segments| == |stored| && Filed(c, disk, now.segments, stored) && Indexed(now.segments)
      && Described(c, now.segments, stored) && Numbered(Concat(stored), 0) && now.nextSeq == |Concat(stored)|
  {
    hide FiledAt, Lines;
  }

  lemma RepresentedWhole(c: Codec<Record>, disk: Disk, manifest: Manifest, contents: seq<seq<Record>>)
    requires disk.manifest == Some(manifest) && Filed(c, disk, manifest.segments, contents) && Indexed(manifest.segments)
    requires Described(c, manifest.segments, contents) && Numbered(Concat(contents), 0) && manifest.nextSeq == |Concat(contents)|
    ensures Represents(c, disk, contents)
  {
  }

  lemma NumberedLog(log: seq<Record>, batch: seq<Record>)
    requires Numbered(log, 0) && Numbered(batch, |log|)
    ensures Numbered(log + batch, 0)
  {
  }

  lemma GrownParts(c: Codec<Record>, g: Growing, contents: seq<seq<Record>>)
    requires GrowsInto(c, g, contents)
    ensures Indexed(g.segments)
  {
  }

  lemma AcceptedBatch(c: Codec<Record>, limits: Limits, disk: Disk, stored: seq<seq<Record>>, events: seq<Record>)
    returns (contents: seq<seq<Record>>)
    requires Lawful(c) && Represents(c, disk, stored) && Encodable(c, events)
    requires events != [] && Numbered(events, |Concat(stored)|)
    ensures var (after, result) := Append(c, limits, disk, events);
      && Represents(c, after, contents) && after.manifest.Some? && result == Ok(after.manifest.value)
      && Concat(contents) == Concat(stored) + events
    ensures (Whole(stored) ==> Whole(contents)) && (FilledUp(c, limits, stored) ==> FilledUp(c, limits, contents))
  {
    hide Filed, Described, GrowAll, Lawful, Continues, Whole, FilledUp, StartGrowing, Append, Concat, Encodable, GrowsInto, Numbered;
    hide Represents, Indexed;
    RepresentedParts(c, disk, stored);
    var g;
    g, contents := AppendDistributes(c, limits, disk, stored, events);
    AppendStores(c, limits, disk, stored, events, g, contents);
    NumberedLog(Concat(stored), events);
    GrownParts(c, g, contents);
    RepresentedWhole(c, Append(c, limits, disk, events).0, Manifest(CurrentManifest(disk).nextSeq + |events|, g.segments), contents);
  }

  /** A represented log takes every batch that continues it and no other, and stays represented. */
  lemma AppendExtendsTheLog(c: Codec<Record>, limits: Limits, disk: Disk, stored: seq<seq<Record>>, events: seq<Record>)
    returns (contents: seq<seq<Record>>)
    requires Lawful(c) && Represents(c, disk, stored) && Encodable(c, events)
    ensures var (after, result) := Append(c, limits, disk, events); var log := Concat(stored);
      && Represents(c, after, contents)
      && if events == []
         then after == disk && contents == stored && result == (if disk.manifest.Some? then Ok(disk.manifest.value) else Err(NoSession))
         else if !Numbered(events, |log|) then after == disk && result == Err(OutOfSequence) && contents == stored
         else after.manifest.Some? && result == Ok(after.manifest.value) && Concat(contents) == log + events
    ensures (Whole(stored) ==> Whole(contents)) && (FilledUp(c, limits, stored) ==> FilledUp(c, limits, contents))
  {
    hide Filed, Described, Lawful, Concat, Numbered, Indexed, StartGrowing, GrowAll, Encodable, Represents, FilledUp;
    RepresentedParts(c, disk, stored);
    if events != [] && Numbered(events, |Concat(stored)|) {
      contents := AcceptedBatch(c, limits, disk, stored, events);
    } else {
      contents := stored;
    }
  }

  /** Rotation keeps its promise. */
  lemma AppendKeepsTheBounds(c: Codec<Record>, limits: Limits, disk: Disk, stored: seq<seq<Record>>, events: seq<Record>)
    requires Lawful(c) && Represents(c, disk, stored) && Encodable(c, events) && limits.maxEvents >= 1
    requires Bounded(limits, CurrentManifest(disk).segments)
    ensures Bounded(limits, CurrentManifest(Append(c, limits, disk, events).0).segments)
  {
    if events != [] && Numbered(events, |Concat(stored)|) {
      StartHolds(c, disk, stored);
      var g, contents := AppendDistributes(c, limits, disk, stored, events);
      AppendStores(c, limits, disk, stored, events, g, contents);
      hide Filed, Described, GrowAll, Lawful, Continues, Whole, FilledUp, StartGrowing, Append, Concat, Encodable, TouchedEnd, Bounded;
      GrowsBounded(c, limits, StartGrowing(c, disk).value, events);
    }
  }

  // ----- A stop while appending -----

  /** The operations of an accepted batch on a represented log. */
  function BatchOps(c: Codec<Record>, limits: Limits, disk: Disk, events: seq<Record>): seq<FsOp>
  {
    match StartGrowing(c, disk)
    case None => []
    case Some(start) => AppendOps(GrowAll(c, limits, start, events), CurrentManifest(disk).nextSeq + |events|)
  }

  /** After a stop the manifest is the old one, and the old segments hold the old log and the start `share` of the batch. */
  ghost predicate Interrupted(c: Codec<Record>, disk: Disk, after: Disk, stored: seq<seq<Record>>, events: seq<Record>,
                              share: seq<Record>)
  {
    && after.manifest == disk.manifest && share <= events && (stored == [] ==> share == [])
    && Filed(c, after, CurrentManifest(disk).segments, Extended(stored, share))
  }

  lemma CrashWhileWriting(c: Codec<Record>, disk: Disk, stored: seq<seq<Record>>, events: seq<Record>, g: Growing,
                          contents: seq<seq<Record>>, nextSeq: int, k: nat, partial: nat) returns (share: seq<Record>)
    requires Filed(c, disk, CurrentManifest(disk).segments, stored)
    requires |CurrentManifest(disk).segments| == |stored| && |g.segments| == |contents| && GrowsInto(c, g, contents)
    requires Continues(CurrentManifest(disk).segments, stored, g, contents)
    requires Concat(contents) == Concat(stored) + events && k < |AppendOps(g, nextSeq)|
    ensures Interrupted(c, disk, Crash(disk, AppendOps(g, nextSeq), k, partial), stored, events, share)
  {
    hide GrowsInto, Continues, Filed, Concat, WriteTouched, Crash, Written, Extended, Share, Writable;
    TouchedAreWritable(c, g, contents);
    WriteTouchedAt(g.touched, 0);
    var m := CrashDuringWrites(disk, g.touched, Publish(Manifest(nextSeq, g.segments)), k, partial);
    var after := Crash(disk, AppendOps(g, nextSeq), k, partial);
    share := Share(g, stored, contents, m);
    ShareIsPrefix(CurrentManifest(disk).segments, stored, g, contents, events, m);
    FiledWhenPartlyWritten(c, disk, after, CurrentManifest(disk).segments, stored, g, contents, m);
    WrittenKeepsManifest(after, disk, g.touched[..m]);
  }

  lemma BatchOpsAre(c: Codec<Record>, limits: Limits, disk: Disk, stored: seq<seq<Record>>, events: seq<Record>,
                    g: Growing, contents: seq<seq<Record>>)
    requires Distributes(c, limits, disk, stored, events, g, contents)
    ensures BatchOps(c, limits, disk, events) == AppendOps(g, CurrentManifest(disk).nextSeq + |events|)
  {
    hide StartGrowing, GrowAll, AppendOps, Continues, GrowsInto, Concat;
  }

  lemma DistributedParts(c: Codec<Record>, limits: Limits, disk: Disk, stored: seq<seq<Record>>, events: seq<Record>,
                         g: Growing, contents: seq<seq<Record>>)
    requires Distributes(c, limits, disk, stored, events, g, contents)
    ensures var now := CurrentManifest(disk);
      && |now.segments| == |stored| && |g.segments| == |contents| && GrowsInto(c, g, contents)
      && Continues(now.segments, stored, g, contents) && Concat(contents) == Concat(stored) + events
  {
    hide GrowsInto, Continues, Concat, Described;
  }

  lemma CrashWhileAppending(c: Codec<Record>, limits: Limits, disk: Disk, stored: seq<seq<Record>>, events: seq<Record>,
                            k: nat, partial: nat) returns (share: seq<Record>)
    requires Lawful(c) && Represents(c, disk, stored) && Encodable(c, events)
    requires k < |BatchOps(c, limits, disk, events)|
    ensures Interrupted(c, disk, Crash(disk, BatchOps(c, limits, disk, events), k, partial), stored, events, share)
  {
    hide *;
    RepresentedParts(c, disk, stored);
    var g, contents := AppendDistributes(c, limits, disk, stored, events);
    BatchOpsAre(c, limits, disk, stored, events, g, contents);
    DistributedParts(c, limits, disk, stored, events, g, contents);
    share := CrashWhileWriting(c, disk, stored, events, g, contents, CurrentManifest(disk).nextSeq + |events|, k, partial);
  }

  lemma WrittenKeepsManifest(after: Disk, disk: Disk, touched: seq<Touch>)
    requires Written(after, disk, touched)
    ensures after.manifest == disk.manifest
  {
  }

  /** A stop at any operation of an append leaves a log that reads back from any old number on as the old records and a
      prefix of the batch, and from behind them as nothing; one that did not exist still does not. After the last operation
      the batch is there as a whole. */
  lemma CrashedAppendReadsBack(c: Codec<Record>, limits: Limits, disk: Disk, stored: seq<seq<Record>>,
                               events: seq<Record>, k: nat, partial: nat) returns (share: seq<Record>)
    requires Lawful(c) && Represents(c, disk, stored) && Encodable(c, events)
    requires events != [] && Numbered(events, |Concat(stored)|)
    requires k <= |BatchOps(c, limits, disk, events)|
    ensures share <= events && (k == |BatchOps(c, limits, disk, events)| ==> share == events)
    ensures var after := Crash(disk, BatchOps(c, limits, disk, events), k, partial); var log := Concat(stored);
      forall s: nat :: ReadFrom(c, after, s)
        == (after, if k == |BatchOps(c, limits, disk, events)| then Ok((log + events)[Clip(s, |log + events|)..])
                   else if disk.manifest.None? then Err(NoSession)
                   else Ok(if s < |log| then (log + share)[s..] else []))
  {
    hide Described, Filed, GrowAll, StartGrowing, Crash, Lawful, Append, AppendOps, ReadSegments;
    var log := Concat(stored);
    var after := Crash(disk, BatchOps(c, limits, disk, events), k, partial);
    if k < |BatchOps(c, limits, disk, events)| {
      share := CrashWhileAppending(c, limits, disk, stored, events, k, partial);
      assert Numbered(log + share, 0);
      forall s: nat
        ensures disk.manifest.Some? ==> ReadFrom(c, after, s) == (after, Ok(if s < |log| then (log + share)[s..] else []))
      {
        if disk.manifest.Some? {
          ReadExtended(c, after, stored, share, s);
        }
      }
    } else {
      share := events;
      FinishedAppendReadsBack(c, limits, disk, stored, events, partial);
    }
  }

  lemma FinishedAppendReadsBack(c: Codec<Record>, limits: Limits, disk: Disk, stored: seq<seq<Record>>, events: seq<Record>,
                                partial: nat)
    requires Lawful(c) && Represents(c, disk, stored) && Encodable(c, events)
    requires events != [] && Numbered(events, |Concat(stored)|)
    ensures var ops := BatchOps(c, limits, disk, events); var after := Crash(disk, ops, |ops|, partial);
      var log := Concat(stored) + events;
      forall s: nat :: ReadFrom(c, after, s) == (after, Ok(log[Clip(s, |log|)..]))
  {
    hide Described, Filed, GrowAll, StartGrowing, Crash, Lawful, Append, AppendOps, ReadFrom;
    var ops := BatchOps(c, limits, disk, events);
    var after := Crash(disk, ops, |ops|, partial);
    var contents := AppendExtendsTheLog(c, limits, disk, stored, events);
    assert after == Append(c, limits, disk, events).0 by {
      StartHolds(c, disk, stored);
      AppendIs(c, limits, disk, events);
      WholeCrash(disk, ops, partial);
    }
    forall s: nat
      ensures ReadFrom(c, after, s) == (after, Ok((Concat(stored) + events)[Clip(s, |Concat(stored) + events|)..]))
    {
      ReadReturnsTheRest(c, after, contents, s);
    }
  }

  lemma WholeCrash(disk: Disk, ops: seq<FsOp>, partial: nat)
    ensures Crash(disk, ops, |ops|, partial) == ApplyAll(disk, ops)
  {
    assert ops[..|ops|] == ops;
  }

  predicate Reaches(segments: seq<Descriptor>)
  {
    forall i :: 0 <= i < |segments| ==> segments[i].lastSeq >= 0
  }

  lemma {:induction false} GrowsReaching(c: Codec<Record>, limits: Limits, start: Growing, events: seq<Record>, from: nat)
    requires Reaches(start.segments) && Numbered(events, from)
    ensures Reaches(GrowAll(c, limits, start, events).segments)
    decreases |events|
  {
    hide Lines, ByteLength, WouldExceed, SetTouched;
    if events != [] {
      GrowsReaching(c, limits, start, events[..|events| - 1], from);
    }
  }

  lemma {:induction false} AllKept(segments: seq<Descriptor>, contents: seq<seq<Record>>, n: nat)
    requires n <= |segments| == |contents| && Reaches(segments)
    ensures Kept(segments, contents, n, 0) == Concat(contents[..n])
  {
    if n > 0 {
      AllKept(segments, contents, n - 1);
      assert contents[..n] == contents[..n - 1] + [contents[n - 1]];
      ConcatSnoc(contents[..n - 1], contents[n - 1]);
    }
  }

  lemma WholeReaches(c: Codec<Record>, segments: seq<Descriptor>, stored: seq<seq<Record>>)
    requires Described(c, segments, stored) && Whole(stored)
    ensures Reaches(segments)
  {
    forall i | 0 <= i < |segments|
      ensures segments[i].lastSeq >= 0
    {
      assert DescribedAt(c, segments[i], |Concat(stored[..i])|, stored[i]) && stored[i] != [];
    }
  }

  /** A batch that is accepted is readable exactly when it continues what the files hold. */
  lemma AppendedReadsBack(c: Codec<Record>, limits: Limits, disk: Disk, stored: seq<seq<Record>>, batch: seq<Record>)
    requires Lawful(c) && Filed(c, disk, CurrentManifest(disk).segments, stored) && Indexed(CurrentManifest(disk).segments)
    requires Reaches(CurrentManifest(disk).segments) && CurrentManifest(disk).nextSeq >= 0
    requires Encodable(c, batch) && batch != [] && Numbered(batch, CurrentManifest(disk).nextSeq)
    ensures Append(c, limits, disk, batch).1.Ok?
    ensures var (next, _) := Append(c, limits, disk, batch); var log := Concat(stored) + batch;
            ReadFrom(c, next, 0).1 == if Consecutive(log) then Ok(From(log, 0)) else Err(NonContiguous)
  {
    var g, contents := AppendDistributes(c, limits, disk, stored, batch);
    AppendStores(c, limits, disk, stored, batch, g, contents);
    var next := Append(c, limits, disk, batch).0;
    hide Filed, Described, GrowAll, StartGrowing, Append, ReadFrom, Lawful, Continues, Encodable, GrowsInto, Concat, Reaches, Numbered, Kept, Consecutive, From, Whole, Indexed;
    StartSegments(c, disk);
    GrowsReaching(c, limits, StartGrowing(c, disk).value, batch, CurrentManifest(disk).nextSeq);
    AllKept(g.segments, contents, |contents|);
    assert contents[..|contents|] == contents;
    ReadStored(c, next, contents, 0);
  }

  lemma StartSegments(c: Codec<Record>, disk: Disk)
    requires StartGrowing(c, disk).Some?
    ensures StartGrowing(c, disk).value.segments == CurrentManifest(disk).segments
  {
    hide ParseText;
  }

  /** The manifest still names the old number after a stop, so the next batch is numbered like the records that did
      survive: the log can be read again afterwards exactly when none did. */
  lemma AppendAfterCrash(c: Codec<Record>, limits: Limits, disk: Disk, after: Disk, stored: seq<seq<Record>>,
                         events: seq<Record>, share: seq<Record>, batch: seq<Record>)
    requires Lawful(c) && Represents(c, disk, stored) && Whole(stored)
    requires Numbered(events, |Concat(stored)|) && Interrupted(c, disk, after, stored, events, share)
    requires Encodable(c, batch) && batch != [] && Numbered(batch, |Concat(stored)|)
    ensures Append(c, limits, after, batch).1.Ok?
    ensures var (next, _) := Append(c, limits, after, batch);
            ReadFrom(c, next, 0).1 == if share == [] then Ok(Concat(stored) + batch) else Err(NonContiguous)
  {
    WholeReaches(c, CurrentManifest(disk).segments, stored);
    hide Filed, Described, Append, ReadFrom, Lawful, Encodable, Concat, Reaches, From, Extended;
    AppendedReadsBack(c, limits, after, Extended(stored, share), batch);
    hide Consecutive, Numbered, Filed;
    if share == [] {
      ExtendedByNothing(stored);
      Continued(Concat(stored), batch);
    } else {
      ConcatExtended(stored, share);
      NumberedTwice(Concat(stored), events, share, batch);
    }
  }

  lemma Continued(log: seq<Record>, batch: seq<Record>)
    requires Numbered(log, 0) && Numbered(batch, |log|)
    ensures Consecutive(log + batch) && From(log + batch, 0) == log + batch
  {
    var all := log + batch;
    FromNumbered(all, 0, 0);
    assert all[0..] == all;
  }

  lemma NumberedTwice(log: seq<Record>, events: seq<Record>, share: seq<Record>, batch: seq<Record>)
    requires share <= events && share != [] && batch != [] && Numbered(events, |log|) && Numbered(batch, |log|)
    ensures !Consecutive(log + share + batch)
  {
    var n, all := |log|, log + share + batch;
    assert all[n + |share|] == batch[0] && all[n + |share| - 1] == share[|share| - 1] == events[|share| - 1];
  }

  // ----- Compacting -----

  /** The random name is not one of a current segment. */
  predicate FreshName(disk: Disk, nonce: nat)
  {
    forall i :: 0 <= i < |CurrentManifest(disk).segments| ==> CurrentManifest(disk).segments[i].file != Compacted(nonce)
  }

  /** The log as one segment. */
  function Single(log: seq<Record>): seq<seq<Record>>
  {
    if log == [] then [] else [log]
  }

  lemma ConcatSingle(log: seq<Record>)
    ensures Concat(Single(log)) == log && Whole(Single(log))
  {
    if log != [] {
      ConcatSnoc([], log);
      assert [] + [log] == [log];
      ConcatOfNothing([log]);
      assert [] + log == log;
    }
  }

  predicate RemovesOthers(ops: seq<FsOp>, kept: File)
  {
    forall i :: 0 <= i < |ops| ==> ops[i].Remove? && ops[i].file != kept
  }

  lemma {:induction false} RemovalsAreOthers(segments: seq<Descriptor>, kept: File)
    ensures RemovesOthers(RemoveSegments(segments, kept), kept)
    decreases |segments|
  {
    if segments != [] {
      RemovalsAreOthers(segments[..|segments| - 1], kept);
    }
  }

  lemma {:induction false} RemovalsKeep(disk: Disk, ops: seq<FsOp>, kept: File)
    requires RemovesOthers(ops, kept) && kept in disk.files
    ensures var after := ApplyAll(disk, ops);
            after.manifest == disk.manifest && kept in after.files && after.files[kept] == disk.files[kept]
    decreases |ops|
  {
    if ops != [] {
      RemovalsKeep(disk, ops[..|ops| - 1], kept);
    }
  }

  lemma SingleRepresents(c: Codec<Record>, disk: Disk, nextSeq: int, log: seq<Record>, nonce: nat)
    requires Encodable(c, log) && Numbered(log, 0) && nextSeq == |log|
    requires disk.manifest == Some(CompactedManifest(c, Manifest(nextSeq, []), log, nonce))
    requires Compacted(nonce) in disk.files && disk.files[Compacted(nonce)] == Lines(c, log)
    ensures Represents(c, disk, Single(log))
  {
    hide Lines;
    ConcatSingle(log);
    if log != [] {
      assert Single(log)[..0] == [];
      assert DescribedAt(c, disk.manifest.value.segments[0], 0, log);
    }
  }

  lemma {:induction false} EncodableConcat(c: Codec<Record>, stored: seq<seq<Record>>)
    requires forall i :: 0 <= i < |stored| ==> Encodable(c, stored[i])
    ensures Encodable(c, Concat(stored))
  {
    if stored != [] {
      forall i | 0 <= i < |stored[1..]|
        ensures Encodable(c, stored[1..][i])
      {
        assert stored[1..][i] == stored[i + 1];
      }
      EncodableConcat(c, stored[1..]);
      assert Encodable(c, stored[0]);
    }
  }

  /** The disk after the first `k >= 2` operations of a compaction. */
  lemma PartlyCompacted(c: Codec<Record>, disk: Disk, manifest: Manifest, log: seq<Record>, nonce: nat, k: nat)
    requires 2 <= k <= |CompactOps(c, manifest, log, nonce)|
    requires Encodable(c, log) && Numbered(log, 0) && manifest.nextSeq == |log|
    ensures Represents(c, ApplyAll(disk, CompactOps(c, manifest, log, nonce)[..k]), Single(log))
  {
    var ops, file := CompactOps(c, manifest, log, nonce), Compacted(nonce);
    var first := [WriteFile(file, Lines(c, log)), Publish(CompactedManifest(c, manifest, log, nonce))];
    RemovalsAreOthers(manifest.segments, file);
    var rest := RemoveSegments(manifest.segments, file)[..k - 2];
    assert ops[..k] == first + rest;
    ApplyInTurn(disk, first, rest);
    var middle := ApplyAll(disk, first);
    ApplyTwo(disk, first[0], first[1]);
    hide Lines;
    RemovalsKeep(middle, rest, file);
    SingleRepresents(c, ApplyAll(disk, ops[..k]), manifest.nextSeq, log, nonce);
  }

  lemma OtherFileIsUnseen(c: Codec<Record>, disk: Disk, stored: seq<seq<Record>>, nonce: nat, text: string)
    requires Represents(c, disk, stored) && FreshName(disk, nonce)
    ensures Represents(c, Apply(disk, WriteFile(Compacted(nonce), text)), stored)
  {
    hide Lines, Encodable, Described, Indexed, Numbered;
  }

  /** Compaction puts the whole log into one segment. */
  lemma CompactKeepsTheLog(c: Codec<Record>, disk: Disk, stored: seq<seq<Record>>, nonce: nat)
    requires Lawful(c) && disk.manifest.Some? && Represents(c, disk, stored)
    ensures var (after, result) := Compact(c, disk, nonce);
      after.manifest.Some? && result == Ok(after.manifest.value) && Represents(c, after, Single(Concat(stored)))
  {
    var log, manifest := Concat(stored), disk.manifest.value;
    ReadReturnsTheRest(c, disk, stored, 0);
    assert log[0..] == log;
    EncodableConcat(c, stored);
    hide ReadFrom, Represents, Encodable, Concat;
    var ops := CompactOps(c, manifest, log, nonce);
    assert ops[..|ops|] == ops;
    PartlyCompacted(c, disk, manifest, log, nonce, |ops|);
    RepresentsManifest(c, disk, manifest, log, nonce);
  }

  lemma RepresentsManifest(c: Codec<Record>, disk: Disk, manifest: Manifest, log: seq<Record>, nonce: nat)
    ensures var after := ApplyAll(disk, CompactOps(c, manifest, log, nonce));
            after.manifest == Some(CompactedManifest(c, manifest, log, nonce))
  {
    var ops, file := CompactOps(c, manifest, log, nonce), Compacted(nonce);
    var first := [WriteFile(file, Lines(c, log)), Publish(CompactedManifest(c, manifest, log, nonce))];
    RemovalsAreOthers(manifest.segments, file);
    ApplyInTurn(disk, first, RemoveSegments(manifest.segments, file));
    ApplyTwo(disk, first[0], first[1]);
    RemovalsKeep(ApplyAll(disk, first), RemoveSegments(manifest.segments, file), file);
  }

  /** A stop at any operation of a compaction leaves exactly the same log, in the old segments or in the new one. */
  lemma CrashedCompactKeepsTheLog(c: Codec<Record>, disk: Disk, stored: seq<seq<Record>>, nonce: nat, k: nat, partial: nat)
    returns (contents: seq<seq<Record>>)
    requires Lawful(c) && disk.manifest.Some? && Represents(c, disk, stored) && FreshName(disk, nonce)
    requires k <= |CompactOps(c, disk.manifest.value, Concat(stored), nonce)|
    ensures var after := Crash(disk, CompactOps(c, disk.manifest.value, Concat(stored), nonce), k, partial);
            Represents(c, after, contents)
    ensures Concat(contents) == Concat(stored)
  {
    var log, manifest := Concat(stored), disk.manifest.value;
    EncodableConcat(c, stored);
    var ops := CompactOps(c, manifest, log, nonce);
    if k >= 2 {
      contents := Single(log);
      ConcatSingle(log);
      PartlyCompacted(c, disk, manifest, log, nonce, k);
      RemovalsAreOthers(manifest.segments, Compacted(nonce));
      assert k < |ops| ==> ops[k].Remove? by {
        if k < |ops| {
          assert ops[k] == RemoveSegments(manifest.segments, Compacted(nonce))[k - 2];
        }
      }
    } else {
      contents := stored;
      if k == 1 {
        assert ops[..1] == [ops[0]] && ops[..1][..0] == [];
        OtherFileIsUnseen(c, disk, stored, nonce, Lines(c, log));
      } else if partial <= |Lines(c, log)| {
        OtherFileIsUnseen(c, disk, stored, nonce, Lines(c, log)[..partial]);
      }
    }
  }

  // ----- Runs -----

  datatype Command = CreateLog | AppendBatch(events: seq<Record>) | CompactLog(nonce: nat) | ReadLog(sequence: int)

  function Execute(c: Codec<Record>, limits: Limits, disk: Disk, command: Command): Disk
  {
    match command
    case CreateLog => Create(disk).0
    case AppendBatch(events) => Append(c, limits, disk, events).0
    case CompactLog(nonce) => Compact(c, disk, nonce).0
    case ReadLog(sequence) => ReadFrom(c, disk, sequence).0
  }

  function Run(c: Codec<Record>, limits: Limits, disk: Disk, commands: seq<Command>): Disk
    decreases |commands|
  {
    if commands == [] then disk
    else Execute(c, limits, Run(c, limits, disk, commands[..|commands| - 1]), commands[|commands| - 1])
  }

  /** Records are encodable. */
  ghost predicate Sendable(c: Codec<Record>, commands: seq<Command>)
  {
    forall i :: 0 <= i < |commands| && commands[i].AppendBatch? ==> Encodable(c, commands[i].events)
  }

  /** The simple form: a log takes the batches that continue it. */
  function Appended(log: seq<Record>, commands: seq<Command>): seq<Record>
    decreases |commands|
  {
    if commands == [] then log
    else
      var before := Appended(log, commands[..|commands| - 1]);
      match commands[|commands| - 1]
      case AppendBatch(events) => if Numbered(events, |before|) then before + events else before
      case _ => before
  }

  /** What the disk keeps between commands. */
  ghost predicate Keeps(c: Codec<Record>, limits: Limits, disk: Disk, contents: seq<seq<Record>>, log: seq<Record>)
  {
    && Represents(c, disk, contents) && Whole(contents) && Concat(contents) == log
    && Bounded(limits, CurrentManifest(disk).segments) && FilledUp(c, limits, contents)
  }

  lemma ExecuteKeeps(c: Codec<Record>, limits: Limits, disk: Disk, stored: seq<seq<Record>>, log: seq<Record>,
                     command: Command) returns (contents: seq<seq<Record>>)
    requires Lawful(c) && limits.maxEvents >= 1 && Keeps(c, limits, disk, stored, log)
    requires command.AppendBatch? ==> Encodable(c, command.events)
    ensures var next := if command.AppendBatch? && Numbered(command.events, |log|) then log + command.events else log;
            Keeps(c, limits, Execute(c, limits, disk, command), contents, next)
  {
    hide Represents, ReadFrom, Append, Compact, Bounded, Concat, Encodable, NoRoom;
    contents := stored;
    match command {
      case CreateLog =>
        CreateKeeps(c, limits, disk, stored);
      case AppendBatch(events) =>
        contents := AppendExtendsTheLog(c, limits, disk, stored, events);
        AppendKeepsTheBounds(c, limits, disk, stored, events);
        assert log + [] == log;
      case CompactLog(nonce) =>
        CompactStays(c, limits, disk, stored, nonce);
        if disk.manifest.Some? {
          CompactKeepsTheLog(c, disk, stored, nonce);
          ConcatSingle(log);
          contents := Single(log);
          assert FilledUp(c, limits, contents);
        }
      case ReadLog(sequence) =>
        ReadStays(c, disk, stored, sequence);
    }
  }

  lemma CreateKeeps(c: Codec<Record>, limits: Limits, disk: Disk, stored: seq<seq<Record>>)
    requires Represents(c, disk, stored)
    ensures Represents(c, Create(disk).0, stored)
    ensures CurrentManifest(Create(disk).0) == CurrentManifest(disk)
  {
    hide Lines, Encodable, Described;
  }

  lemma ReadStays(c: Codec<Record>, disk: Disk, stored: seq<seq<Record>>, sequence: int)
    requires Lawful(c) && Represents(c, disk, stored)
    ensures ReadFrom(c, disk, sequence).0 == disk
  {
    if disk.manifest.Some? && sequence >= 0 {
      ReadReturnsTheRest(c, disk, stored, sequence);
    }
  }

  lemma CompactStays(c: Codec<Record>, limits: Limits, disk: Disk, stored: seq<seq<Record>>, nonce: nat)
    requires Lawful(c) && Represents(c, disk, stored) && Bounded(limits, CurrentManifest(disk).segments)
    ensures Bounded(limits, CurrentManifest(Compact(c, disk, nonce).0).segments)
    ensures disk.manifest.None? ==> Compact(c, disk, nonce).0 == disk
  {
    if disk.manifest.Some? {
      var log := Concat(stored);
      ReadReturnsTheRest(c, disk, stored, 0);
      assert log[0..] == log;
      hide ReadFrom, Concat;
      RepresentsManifest(c, disk, disk.manifest.value, log, nonce);
    }
  }

  /** Whatever is created, appended, compacted and read, in any order: the files keep the log of the accepted batches,
      whole segments, and the promised sizes. */
  lemma {:induction false} RunKeepsTheLog(c: Codec<Record>, limits: Limits, disk: Disk, stored: seq<seq<Record>>,
                                          log: seq<Record>, commands: seq<Command>) returns (contents: seq<seq<Record>>)
    requires Lawful(c) && limits.maxEvents >= 1 && Keeps(c, limits, disk, stored, log) && Sendable(c, commands)
    ensures Keeps(c, limits, Run(c, limits, disk, commands), contents, Appended(log, commands))
    decreases |commands|
  {
    hide Keeps, Execute, Lawful;
    if commands == [] {
      contents := stored;
    } else {
      var front, last := commands[..|commands| - 1], commands[|commands| - 1];
      var middle := RunKeepsTheLog(c, limits, disk, stored, log, front);
      contents := ExecuteKeeps(c, limits, Run(c, limits, disk, front), middle, Appended(log, front), last);
    }
  }

  lemma NothingIsKept(c: Codec<Record>, limits: Limits, files: map<File, string>)
    ensures Keeps(c, limits, Disk(None, files), [], [])
  {
  }

  /** From nothing on, after any run: reading gives the rest of the accepted batches, and the next number is their count. */
  lemma RunReadsBack(c: Codec<Record>, limits: Limits, files: map<File, string>, commands: seq<Command>, sequence: nat)
    requires Lawful(c) && limits.maxEvents >= 1 && Sendable(c, commands)
    requires Run(c, limits, Disk(None, files), commands).manifest.Some?
    ensures var disk, log := Run(c, limits, Disk(None, files), commands), Appended([], commands);
      && ReadFrom(c, disk, sequence) == (disk, Ok(log[Clip(sequence, |log|)..]))
      && disk.manifest.value.nextSeq == |log|
      && Bounded(limits, disk.manifest.value.segments)
      && (forall i, j :: 0 <= i < j < |disk.manifest.value.segments| ==>
            disk.manifest.value.segments[i].file != disk.manifest.value.segments[j].file)
  {
    hide ReadFrom, Run, Appended;
    NothingIsKept(c, limits, files);
    var contents := RunKeepsTheLog(c, limits, Disk(None, files), [], [], commands);
    var disk := Run(c, limits, Disk(None, files), commands);
    ReadReturnsTheRest(c, disk, contents, sequence);
    assert forall i :: 0 <= i < |contents| ==> IndexedAt(disk.manifest.value.segments[i], i);
  }

  /** And no segment was begun while the one before had room: over any run from nothing on, each segment but the last holds as
      many records as it may, or so many bytes that the first record of the next would have been too much. */
  lemma RunFillsTheSegments(c: Codec<Record>, limits: Limits, files: map<File, string>, commands: seq<Command>, i: nat)
    requires Lawful(c) && limits.maxEvents >= 1 && Sendable(c, commands)
    requires 0 < i < |CurrentManifest(Run(c, limits, Disk(None, files), commands)).segments|
    ensures var segments, log := CurrentManifest(Run(c, limits, Disk(None, files), commands)).segments, Appended([], commands);
      && 0 <= segments[i].firstSeq < |log|
      && (segments[i - 1].eventCount >= limits.maxEvents
          || segments[i - 1].byteLength + ByteLength(c.encode(log[segments[i].firstSeq]) + "\n") > limits.maxBytes)
  {
    hide Run, Appended, Filed, ByteLength, Lines, Bounded;
    NothingIsKept(c, limits, files);
    var contents := RunKeepsTheLog(c, limits, Disk(None, files), [], [], commands);
    var segments := CurrentManifest(Run(c, limits, Disk(None, files), commands)).segments;
    assert DescribedAt(c, segments[i], |Concat(contents[..i])|, contents[i]);
    assert DescribedAt(c, segments[i - 1], |Concat(contents[..i - 1])|, contents[i - 1]);
    FirstOf(contents, i);
  }

  lemma FirstOf(contents: seq<seq<Record>>, i: nat)
    requires i < |contents| && contents[i] != []
    ensures |Concat(contents[..i])| < |Concat(contents)| && Concat(contents)[|Concat(contents[..i])|] == contents[i][0]
  {
    assert contents == contents[..i] + [contents[i]] + contents[i + 1..];
    ConcatAppend(contents[..i] + [contents[i]], contents[i + 1..]);
    ConcatSnoc(contents[..i], contents[i]);
  }
}
