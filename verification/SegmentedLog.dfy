/** The segment files behave as one growing log, also across stops and torn tails. */
module SegmentedLog {
  import opened Text
  import opened JsonLines
  import opened SessionSegments

  // ----- What is stored -----

  ghost predicate Encodable(c: Codec<Record>, events: seq<Record>)
  {
    forall i :: 0 <= i < |events| ==> c.valid(events[i])
  }

  /** Every segment file holds its part of the log. */
  ghost predicate Filed(c: Codec<Record>, disk: Disk, segments: seq<Descriptor>, contents: seq<seq<Record>>)
  {
    |segments| == |contents| && forall i :: 0 <= i < |segments| ==> FiledAt(c, disk, segments[i], contents[i])
  }

  ghost predicate FiledAt(c: Codec<Record>, disk: Disk, d: Descriptor, content: seq<Record>)
  {
    d.file in disk.files && disk.files[d.file] == Lines(c, content) && Encodable(c, content)
  }

  /** The descriptors tell the truth. */
  predicate Described(c: Codec<Record>, segments: seq<Descriptor>, contents: seq<seq<Record>>)
  {
    && |segments| == |contents|
    && (forall i :: 0 <= i < |segments| ==>
          DescribedAt(c, segments[i], |Concat(contents[..i])|, contents[i]))
  }

  predicate DescribedAt(c: Codec<Record>, d: Descriptor, start: nat, content: seq<Record>)
  {
    && d.firstSeq == start
    && d.lastSeq == start + |content| - 1
    && d.eventCount == |content|
    && d.byteLength == ByteLength(Lines(c, content))
  }

  /** Rotation keeps its promise for the segments it made; a compacted one may be of any size. */
  predicate Bounded(limits: Limits, segments: seq<Descriptor>)
  {
    forall i :: 0 <= i < |segments| && segments[i].file.Segment? ==>
      segments[i].eventCount <= limits.maxEvents
      && (segments[i].byteLength <= limits.maxBytes || segments[i].eventCount <= 1)
  }

  /** Rotation makes no segment too early: the first record of the next one would have been too much for it. */
  predicate FilledUp(c: Codec<Record>, limits: Limits, contents: seq<seq<Record>>)
  {
    forall i :: 0 < i < |contents| ==> contents[i] != [] && NoRoom(c, limits, contents[i - 1], contents[i][0])
  }

  predicate NoRoom(c: Codec<Record>, limits: Limits, content: seq<Record>, event: Record)
  {
    content != []
    && (|content| >= limits.maxEvents || ByteLength(Lines(c, content)) + ByteLength(c.encode(event) + "\n") > limits.maxBytes)
  }

  /** File names follow the positions, so no two segments share a file. */
  predicate Indexed(segments: seq<Descriptor>)
  {
    forall i :: 0 <= i < |segments| ==> IndexedAt(segments[i], i)
  }

  predicate IndexedAt(d: Descriptor, i: nat)
  {
    d.index == i && (d.file == Segment(i) || (i == 0 && d.file.Compacted?))
  }

  /** No segment is empty: only the repair of a torn tail can leave one behind. */
  predicate Whole(contents: seq<seq<Record>>)
  {
    forall i :: 0 <= i < |contents| ==> contents[i] != []
  }

  ghost predicate Represents(c: Codec<Record>, disk: Disk, contents: seq<seq<Record>>)
  {
    var manifest := CurrentManifest(disk);
    && Filed(c, disk, manifest.segments, contents)
    && Indexed(manifest.segments)
    && Described(c, manifest.segments, contents)
    && Numbered(Concat(contents), 0)
    && manifest.nextSeq == |Concat(contents)|
  }

  // ----- Parsing -----

  lemma EncodableLines(c: Codec<Record>, events: seq<Record>)
    requires Lawful(c) && Encodable(c, events)
    ensures forall i :: 0 <= i < |events| ==> OneLine(c, events[i])
  {
    forall i | 0 <= i < |events|
      ensures OneLine(c, events[i])
    {
      assert c.valid(events[i]);
    }
  }

  lemma {:induction false} ParseEncoded(c: Codec<Record>, events: seq<Record>, rest: seq<string>, ended: bool)
    requires Lawful(c) && Encodable(c, events)
    ensures ParseLines(c, Encoded(c, events) + rest, ended) == Prefixed(events, ParseLines(c, rest, ended))
  {
    if events == [] {
      assert Encoded(c, events) + rest == rest;
    } else {
      var e, more := events[0], events[1..];
      assert c.valid(e) && OneLine(c, e) && c.decode(c.encode(e)) == Event(e);
      var lines := Encoded(c, events) + rest;
      assert lines[0] == c.encode(e) && lines[1..] == Encoded(c, more) + rest;
      ParseEncoded(c, more, rest, ended);
      assert events == [e] + more;
      assert forall tail: seq<Record> :: [e] + (more + tail) == events + tail;
    }
  }

  lemma ParseWritten(c: Codec<Record>, events: seq<Record>)
    requires Lawful(c) && Encodable(c, events)
    ensures ParseText(c, Lines(c, events)) == Clean(events)
  {
    EncodableLines(c, events);
    LinesOfRecords(c, events, "");
    LinesOfTail("");
    ParseEncoded(c, events, [], Ended(Lines(c, events)));
    assert Lines(c, events) + "" == Lines(c, events);
  }

  /** A text cut inside its last record reads as torn, one cut just before the last newline as if whole. */
  lemma ParseCut(c: Codec<Record>, events: seq<Record>, e: Record, k: nat)
    requires Lawful(c) && Encodable(c, events) && c.valid(e) && 0 < k <= |c.encode(e)|
    ensures ParseText(c, Lines(c, events) + c.encode(e)[..k])
         == if k < |c.encode(e)| then Torn(events) else Clean(events + [e])
  {
    hide Lines, LinesOf, Split, Lawful;
    var tail := c.encode(e)[..k];
    CutTail(c, e, k);
    EncodableLines(c, events);
    LinesOfRecords(c, events, tail);
    LinesOfTail(tail);
    SplitLines(c, events, tail);
    SplitWhole(tail, '\n');
    ParseEncoded(c, events, [tail], false);
  }

  lemma CutTail(c: Codec<Record>, e: Record, k: nat)
    requires Lawful(c) && c.valid(e) && 0 < k <= |c.encode(e)|
    ensures var tail := c.encode(e)[..k];
      && '\n' !in tail && tail != ""
      && ParseLines(c, [tail], false) == if k < |c.encode(e)| then Torn([]) else Clean([e])
  {
    var tail := c.encode(e)[..k];
    assert OneLine(c, e);
    if k == |c.encode(e)| {
      assert tail == c.encode(e) && c.decode(tail) == Event(e);
      assert [tail][1..] == [];
    } else {
      assert c.decode(tail) == Malformed;
    }
  }

  // ----- Reading -----

  predicate Consecutive(events: seq<Record>)
  {
    forall i :: 0 < i < |events| ==> events[i].sequence == events[i - 1].sequence + 1
  }

  function From(events: seq<Record>, sequence: int): seq<Record>
  {
    if events == [] then []
    else
      var front, last := events[..|events| - 1], events[|events| - 1];
      From(front, sequence) + (if last.sequence >= sequence then [last] else [])
  }

  function After(events: seq<Record>): Option<int>
  {
    if events == [] then None else Some(events[|events| - 1].sequence + 1)
  }

  /** The loops over segments have read `events` so far. */
  predicate HasRead(r: Reading, disk: Disk, segments: seq<Descriptor>, repaired: bool, events: seq<Record>, sequence: int)
  {
    && r.disk == disk && r.segments == segments && r.repaired == repaired
    && if Consecutive(events)
       then r.failure == None && r.expected == After(events) && r.events == From(events, sequence)
       else r.failure == Some(NonContiguous)
  }

  lemma ConsecutiveOn(before: seq<Record>, e: Record, more: seq<Record>)
    requires Consecutive(before)
    ensures Consecutive(before + [e]) <==> before == [] || e.sequence == before[|before| - 1].sequence + 1
    ensures !Consecutive(before + [e]) ==> !Consecutive(before + ([e] + more))
  {
    var all := before + ([e] + more);
    if before != [] && e.sequence != before[|before| - 1].sequence + 1 {
      assert all[|before|] == e && all[|before| - 1] == before[|before| - 1];
      assert (before + [e])[|before|] == e && (before + [e])[|before| - 1] == before[|before| - 1];
    }
  }

  lemma FromOn(before: seq<Record>, e: Record, sequence: int)
    ensures From(before + [e], sequence) == From(before, sequence) + (if e.sequence >= sequence then [e] else [])
    ensures After(before + [e]) == Some(e.sequence + 1)
  {
    assert (before + [e])[..|before|] == before;
  }

  /** One record more: it is taken when it follows the one before, else the reading fails for good. */
  lemma RecordReads(r: Reading, disk: Disk, segments: seq<Descriptor>, repaired: bool, before: seq<Record>, e: Record,
                    more: seq<Record>, sequence: int)
    requires Consecutive(before) && HasRead(r, disk, segments, repaired, before, sequence)
    ensures if r.expected.Some? && e.sequence != r.expected.value
            then HasRead(r.(failure := Some(NonContiguous)), disk, segments, repaired, before + ([e] + more), sequence)
            else Consecutive(before + [e]) && HasRead(Accept(r, e, sequence), disk, segments, repaired, before + [e], sequence)
  {
    hide From, Consecutive;
    ConsecutiveOn(before, e, more);
    FromOn(before, e, sequence);
    assert From(before, sequence) + [] == From(before, sequence);
  }

  lemma {:induction false} ScanReads(r: Reading, disk: Disk, segments: seq<Descriptor>, repaired: bool,
                                     before: seq<Record>, found: seq<Record>, sequence: int)
    requires Consecutive(before) && HasRead(r, disk, segments, repaired, before, sequence)
    ensures HasRead(ScanEvents(r, found, sequence), disk, segments, repaired, before + found, sequence)
    decreases |found|
  {
    hide HasRead, Consecutive, Accept;
    if found == [] {
      assert before + found == before;
    } else {
      var e, more := found[0], found[1..];
      RecordReads(r, disk, segments, repaired, before, e, more, sequence);
      assert found == [e] + more;
      assert before + found == before + [e] + more;
      if !(r.expected.Some? && e.sequence != r.expected.value) {
        ScanReads(Accept(r, e, sequence), disk, segments, repaired, before + [e], more, sequence);
      }
    }
  }

  /** Records of the first `n` segments that are not skipped. */
  function Kept(segments: seq<Descriptor>, contents: seq<seq<Record>>, n: nat, sequence: int): seq<Record>
    requires n <= |segments| == |contents|
  {
    if n == 0 then []
    else
      Kept(segments, contents, n - 1, sequence) + (if segments[n - 1].lastSeq < sequence then [] else contents[n - 1])
  }

  predicate ReadsAs(c: Codec<Record>, disk: Disk, d: Descriptor, content: seq<Record>)
  {
    d.file in disk.files && ParseText(c, disk.files[d.file]) == Clean(content)
  }

  lemma FiledReads(c: Codec<Record>, disk: Disk, d: Descriptor, content: seq<Record>)
    requires Lawful(c) && FiledAt(c, disk, d, content)
    ensures ReadsAs(c, disk, d, content)
  {
    ParseWritten(c, content);
  }

  lemma SegmentReads(c: Codec<Record>, r: Reading, i: nat, disk: Disk, segments: seq<Descriptor>, repaired: bool,
                     before: seq<Record>, found: seq<Record>, sequence: int)
    requires i < |segments| && HasRead(r, disk, segments, repaired, before, sequence)
    requires ReadsAs(c, disk, segments[i], found) && segments[i].lastSeq >= sequence
    ensures |r.segments| == |segments|
    ensures HasRead(ReadSegment(c, r, i, sequence), disk, segments, repaired, before + found, sequence)
  {
    hide ScanEvents, ParseText, From, After;
    if Consecutive(before) {
      ScanReads(r, disk, segments, repaired, before, found, sequence);
    } else {
      NotConsecutive(before, found);
    }
  }

  lemma {:induction false} SegmentsRead(c: Codec<Record>, disk: Disk, manifest: Manifest, contents: seq<seq<Record>>,
                                        n: nat, sequence: int)
    requires n <= |contents| == |manifest.segments|
    requires forall i :: 0 <= i < n ==> ReadsAs(c, disk, manifest.segments[i], contents[i])
    ensures HasRead(ReadSegments(c, StartReading(disk, manifest), n, sequence), disk, manifest.segments, false,
                    Kept(manifest.segments, contents, n, sequence), sequence)
  {
    hide ScanEvents, ParseText, From;
    if n > 0 {
      SegmentsRead(c, disk, manifest, contents, n - 1, sequence);
      var before := ReadSegments(c, StartReading(disk, manifest), n - 1, sequence);
      var kept := Kept(manifest.segments, contents, n - 1, sequence);
      if manifest.segments[n - 1].lastSeq < sequence {
        assert kept + [] == kept;
      } else {
        hide HasRead, ReadSegment;
        SegmentReads(c, before, n - 1, disk, manifest.segments, false, kept, contents[n - 1], sequence);
      }
    } else {
      FromNothing(sequence);
    }
  }

  lemma FromNothing(sequence: int)
    ensures From([], sequence) == [] && Consecutive([])
  {
  }

  lemma NotConsecutive(a: seq<Record>, b: seq<Record>)
    requires !Consecutive(a)
    ensures !Consecutive(a + b)
  {
    var i :| 0 < i < |a| && a[i].sequence != a[i - 1].sequence + 1;
    assert (a + b)[i] == a[i] && (a + b)[i - 1] == a[i - 1];
  }

  function Outcome(segments: seq<Descriptor>, contents: seq<seq<Record>>, sequence: nat): Result<seq<Record>, Failure>
    requires |segments| == |contents|
  {
    var kept := Kept(segments, contents, |contents|, sequence);
    if Consecutive(kept) then Ok(From(kept, sequence)) else Err(NonContiguous)
  }

  /** Reading any readable segments gives the records that are not skipped, or tells that they do not follow each other. */
  lemma ReadReadable(c: Codec<Record>, disk: Disk, contents: seq<seq<Record>>, sequence: nat)
    requires disk.manifest.Some? && |disk.manifest.value.segments| == |contents|
    requires forall i :: 0 <= i < |contents| ==> ReadsAs(c, disk, disk.manifest.value.segments[i], contents[i])
    ensures ReadFrom(c, disk, sequence) == (disk, Outcome(disk.manifest.value.segments, contents, sequence))
  {
    hide ReadsAs;
    SegmentsRead(c, disk, disk.manifest.value, contents, |contents|, sequence);
  }

  lemma ReadStored(c: Codec<Record>, disk: Disk, contents: seq<seq<Record>>, sequence: nat)
    requires Lawful(c) && disk.manifest.Some? && Filed(c, disk, disk.manifest.value.segments, contents)
    ensures ReadFrom(c, disk, sequence) == (disk, Outcome(disk.manifest.value.segments, contents, sequence))
  {
    hide ReadsAs, FiledAt, ReadFrom, Outcome, Lawful;
    forall i | 0 <= i < |contents|
      ensures ReadsAs(c, disk, disk.manifest.value.segments[i], contents[i])
    {
      FiledReads(c, disk, disk.manifest.value.segments[i], contents[i]);
    }
    ReadReadable(c, disk, contents, sequence);
  }

  lemma LastSeqAt(c: Codec<Record>, segments: seq<Descriptor>, contents: seq<seq<Record>>, i: nat)
    requires Described(c, segments, contents) && i < |contents|
    ensures segments[i].lastSeq == |Concat(contents[..i + 1])| - 1
  {
    assert DescribedAt(c, segments[i], |Concat(contents[..i])|, contents[i]);
    assert contents[..i + 1] == contents[..i] + [contents[i]];
    ConcatSnoc(contents[..i], contents[i]);
  }

  lemma {:induction false} ConcatGrows(contents: seq<seq<Record>>, i: nat, j: nat)
    requires i <= j <= |contents|
    ensures |Concat(contents[..i])| <= |Concat(contents[..j])|
  {
    assert contents[..j] == contents[..i] + contents[i..j];
    ConcatAppend(contents[..i], contents[i..j]);
  }

  /** The segments that are not skipped are the last ones. */
  lemma {:induction false} KeptIsTheEnd(c: Codec<Record>, segments: seq<Descriptor>, described: seq<seq<Record>>,
                                        contents: seq<seq<Record>>, n: nat, sequence: int) returns (j: nat)
    requires |segments| == |contents| == |described| && Described(c, segments, described) && n <= |contents|
    ensures j <= n && Kept(segments, contents, n, sequence) == Concat(contents[j..n])
    ensures j > 0 ==> |Concat(described[..j])| <= sequence
    ensures j < n ==> sequence < |Concat(described[..j + 1])|
  {
    hide Described, Concat;
    ConcatOfNothing(contents);
    if n == 0 {
      j := 0;
      assert contents[0..0] == [];
    } else {
      j := KeptIsTheEnd(c, segments, described, contents, n - 1, sequence);
      LastSeqAt(c, segments, described, n - 1);
      if j < n - 1 {
        ConcatGrows(described, j + 1, n);
        assert contents[j..n] == contents[j..n - 1] + [contents[n - 1]];
        ConcatSnoc(contents[j..n - 1], contents[n - 1]);
      } else if segments[n - 1].lastSeq < sequence {
        j := n;
        assert contents[n..n] == [];
        assert contents[n - 1..n - 1] == [];
      } else {
        assert contents[j..n] == [contents[n - 1]] && contents[j..n - 1] == [];
        ConcatSnoc([], contents[n - 1]);
        assert [] + [contents[n - 1]] == [contents[n - 1]];
        assert [] + contents[n - 1] == contents[n - 1];
      }
    }
  }

  function Clip(sequence: nat, n: nat): nat
  {
    if sequence < n then sequence else n
  }

  lemma {:induction false} FromNumbered(log: seq<Record>, start: nat, sequence: nat)
    requires Numbered(log, 0) && start <= sequence && start <= |log|
    ensures From(log[start..], sequence) == log[Clip(sequence, |log|)..]
    decreases |log|
  {
    hide Numbered, From;
    var events := log[start..];
    if start < |log| {
      var front := log[..|log| - 1];
      NumberedLast(log);
      FromNumbered(front, start, sequence);
      FromLast(events, sequence);
      assert events[..|events| - 1] == front[start..];
      if sequence < |log| {
        assert log[sequence..] == front[Clip(sequence, |front|)..] + [log[|log| - 1]];
      }
    } else {
      FromNothing(sequence);
    }
  }

  lemma NumberedLast(log: seq<Record>)
    requires Numbered(log, 0) && log != []
    ensures Numbered(log[..|log| - 1], 0) && log[|log| - 1].sequence == |log| - 1
  {
  }

  lemma FromLast(events: seq<Record>, sequence: int)
    requires events != []
    ensures var last := events[|events| - 1];
            From(events, sequence) == From(events[..|events| - 1], sequence) + if last.sequence >= sequence then [last] else []
  {
  }

  /** The last segment file may already hold more than its descriptor tells. */
  function Extended(contents: seq<seq<Record>>, more: seq<Record>): seq<seq<Record>>
  {
    if contents == [] then [] else contents[..|contents| - 1] + [contents[|contents| - 1] + more]
  }

  lemma ConcatExtended(contents: seq<seq<Record>>, more: seq<Record>)
    requires contents != []
    ensures Concat(Extended(contents, more)) == Concat(contents) + more
  {
    var front, last := contents[..|contents| - 1], contents[|contents| - 1];
    ConcatSnoc(front, last + more);
    ConcatSnoc(front, last);
    assert contents == front + [last];
    assert Concat(front) + (last + more) == Concat(front) + last + more;
  }

  lemma ExtendedByNothing(contents: seq<seq<Record>>)
    ensures Extended(contents, []) == contents
  {
    if contents != [] {
      assert contents[|contents| - 1] + [] == contents[|contents| - 1];
    }
  }

  lemma OutcomeOfExtended(c: Codec<Record>, segments: seq<Descriptor>, contents: seq<seq<Record>>, more: seq<Record>,
                          sequence: nat)
    requires Described(c, segments, contents) && Numbered(Concat(contents) + more, 0)
    ensures Outcome(segments, Extended(contents, more), sequence)
         == Ok(if sequence < |Concat(contents)| then (Concat(contents) + more)[sequence..] else [])
  {
    hide From, DescribedAt, Concat, Consecutive, Numbered;
    var stored, n := Extended(contents, more), |contents|;
    var j := KeptIsTheEnd(c, segments, contents, stored, n, sequence);
    assert stored[j..n] == stored[j..] && contents[..n] == contents;
    if j < n {
      ConcatGrows(contents, j + 1, n);
      StoredEnd(contents, more, j);
      ConcatOfNothing(contents);
      ReadEnd(Concat(contents) + more, |Concat(contents[..j])|, sequence);
      assert sequence < |Concat(contents)|;
    } else {
      FromNothing(sequence);
      ConcatOfNothing(stored);
      assert stored[n..] == [];
    }
  }

  /** Reading from a number the manifest knows gives all that is stored from there on, reading behind it gives nothing. */
  lemma ReadExtended(c: Codec<Record>, disk: Disk, contents: seq<seq<Record>>, more: seq<Record>, sequence: nat)
    requires Lawful(c) && disk.manifest.Some?
    requires Filed(c, disk, disk.manifest.value.segments, Extended(contents, more))
    requires Described(c, disk.manifest.value.segments, contents)
    requires Numbered(Concat(contents) + more, 0)
    ensures ReadFrom(c, disk, sequence)
         == (disk, Ok(if sequence < |Concat(contents)| then (Concat(contents) + more)[sequence..] else []))
  {
    hide ReadFrom, Outcome, DescribedAt;
    ReadStored(c, disk, Extended(contents, more), sequence);
    OutcomeOfExtended(c, disk.manifest.value.segments, contents, more, sequence);
  }

  lemma ConcatOfNothing(contents: seq<seq<Record>>)
    ensures Concat(contents[..0]) == [] && Concat<Record>([]) == []
  {
  }

  lemma StoredEnd(contents: seq<seq<Record>>, more: seq<Record>, j: nat)
    requires j < |contents|
    ensures |Concat(contents[..j])| <= |Concat(contents)|
    ensures Concat(Extended(contents, more)[j..])
         == (Concat(contents) + more)[|Concat(contents[..j])|..]
  {
    hide Concat;
    var stored := Extended(contents, more);
    ConcatExtended(contents, more);
    assert stored == stored[..j] + stored[j..];
    ConcatAppend(stored[..j], stored[j..]);
    assert stored[..j] == contents[..j];
    ConcatGrows(contents, j, |contents|);
    assert contents[..|contents|] == contents;
  }

  lemma ReadEnd(log: seq<Record>, start: nat, sequence: nat)
    requires Numbered(log, 0) && start <= sequence && start <= |log|
    ensures Consecutive(log[start..]) && From(log[start..], sequence) == log[Clip(sequence, |log|)..]
  {
    FromNumbered(log, start, sequence);
  }

  /** A represented log reads back from any number on, and reading changes nothing. */
  lemma ReadReturnsTheRest(c: Codec<Record>, disk: Disk, contents: seq<seq<Record>>, sequence: nat)
    requires Lawful(c) && disk.manifest.Some? && Represents(c, disk, contents)
    ensures ReadFrom(c, disk, sequence)
         == (disk, Ok(Concat(contents)[Clip(sequence, |Concat(contents)|)..]))
  {
    ExtendedByNothing(contents);
    assert Concat(contents) + [] == Concat(contents);
    ReadExtended(c, disk, contents, [], sequence);
  }

  // ----- Appending -----

  function Grown(contents: seq<seq<Record>>, event: Record, rotated: bool): seq<seq<Record>>
    requires contents == [] ==> rotated
  {
    if rotated then contents + [[event]] else Extended(contents, [event])
  }

  /** The loop over a batch: last text and touched files agree with the contents. */
  ghost predicate GrowsInto(c: Codec<Record>, g: Growing, contents: seq<seq<Record>>)
  {
    && |g.segments| == |contents|
    && (forall i :: 0 <= i < |contents| ==> Encodable(c, contents[i]))
    && g.events == (if contents == [] then [] else contents[|contents| - 1])
    && g.text == Lines(c, g.events)
    && Indexed(g.segments)
    && TouchedEnd(c, g.touched, g.segments, contents)
  }

  function FirstTouched(g: Growing): int
  {
    |g.segments| - |g.touched|
  }

  /** The touched files are those of the last segments. */
  predicate TouchedEnd(c: Codec<Record>, touched: seq<Touch>, segments: seq<Descriptor>, contents: seq<seq<Record>>)
    requires |segments| == |contents|
  {
    && |touched| <= |segments|
    && (forall j :: 0 <= j < |touched| ==>
          touched[j] == TouchAt(c, segments, contents, |segments| - |touched| + j))
  }

  function TouchAt(c: Codec<Record>, segments: seq<Descriptor>, contents: seq<seq<Record>>, i: nat): Touch
    requires i < |segments| == |contents|
  {
    Touch(i, segments[i].file, Lines(c, contents[i]))
  }

  lemma GrowsText(c: Codec<Record>, g: Growing, event: Record)
    requires g.text == Lines(c, g.events)
    ensures g.text + c.encode(event) + "\n" == Lines(c, g.events + [event])
    ensures ByteLength(g.text + c.encode(event) + "\n") == ByteLength(g.text) + ByteLength(c.encode(event) + "\n")
  {
    hide Lines, ByteLength;
    ByteLengthConcat(g.text, c.encode(event) + "\n");
    assert g.text + (c.encode(event) + "\n") == g.text + c.encode(event) + "\n";
    LinesAppend(c, g.events, [event]);
    LinesOne(c, event);
  }

  lemma GrowsIndexed(c: Codec<Record>, limits: Limits, g: Growing, event: Record)
    requires Indexed(g.segments)
    ensures Indexed(GrowOne(c, limits, g, event).segments)
  {
    hide ByteLength, WouldExceed;
    assert forall i :: 0 <= i < |g.segments| ==> IndexedAt(g.segments[i], i);
  }

  /** One record more: only the last segment is new or changed, and it is touched. */
  lemma GrowsAtTheEnd(c: Codec<Record>, limits: Limits, g: Growing, contents: seq<seq<Record>>, event: Record)
    requires |g.segments| == |contents| && GrowsInto(c, g, contents)
    ensures var g', next := GrowOne(c, limits, g, event), Grown(contents, event, Rotates(c, limits, g, event));
      var n := |next| - 1;
      && |g'.segments| == |next| && (forall i :: 0 <= i < n ==> g'.segments[i] == g.segments[i] && next[i] == contents[i])
      && g'.events == next[n] && g'.text == Lines(c, next[n])
      && next[n] == (if n < |contents| then contents[n] else []) + [event]
      && IndexedAt(g'.segments[n], n) && (n < |contents| ==> g'.segments[n].file == g.segments[n].file)
      && g'.touched == SetTouched(g.touched, Touch(n, g'.segments[n].file, Lines(c, next[n])))
      && g'.segments[n].lastSeq == event.sequence
      && g'.segments[n].firstSeq == (if n < |contents| then g.segments[n].firstSeq else event.sequence)
      && g'.segments[n].eventCount == |next[n]| && g'.segments[n].byteLength == ByteLength(Lines(c, next[n]))
  {
    var n := |g.segments|;
    hide ByteLength, Encodable, WouldExceed, TouchedEnd;
    GrowsText(c, if Rotates(c, limits, g, event) then OpenSegment(g, event) else g, event);
    hide Lines;
    if n > 0 {
      assert IndexedAt(g.segments[n - 1], n - 1);
    }
  }

  lemma TouchLast(c: Codec<Record>, touched: seq<Touch>, segments: seq<Descriptor>, contents: seq<seq<Record>>,
                  grown: seq<Descriptor>, next: seq<seq<Record>>)
    requires |segments| == |contents| && TouchedEnd(c, touched, segments, contents)
    requires |grown| == |next| > 0 && |next| - 1 <= |contents| <= |next|
    requires forall i :: 0 <= i < |next| - 1 ==> grown[i] == segments[i] && next[i] == contents[i]
    ensures var touched' := SetTouched(touched, TouchAt(c, grown, next, |next| - 1));
      && TouchedEnd(c, touched', grown, next)
      && |touched'| == if touched != [] && |contents| == |next| then |touched| else |touched| + 1
  {
    hide Lines, SetTouched;
    var n, m := |next| - 1, |touched|;
    var touched' := SetTouched(touched, TouchAt(c, grown, next, n));
    if m > 0 {
      assert touched[m - 1] == TouchAt(c, segments, contents, |contents| - 1);
    }
    TouchedShape(touched, TouchAt(c, grown, next, n));
    forall j | 0 <= j < |touched'| - 1
      ensures touched'[j] == TouchAt(c, grown, next, |grown| - |touched'| + j)
    {
      var at := |contents| - m + j;
      assert touched'[j] == touched[j] == TouchAt(c, segments, contents, at);
      assert next[at] == contents[at] && grown[at] == segments[at];
    }
  }

  lemma TouchedShape(touched: seq<Touch>, touch: Touch)
    ensures var t := SetTouched(touched, touch);
      && |t| == (if touched != [] && touched[|touched| - 1].index == touch.index then |touched| else |touched| + 1)
      && t[|t| - 1] == touch && (forall j :: 0 <= j < |t| - 1 ==> t[j] == touched[j])
  {
  }

  lemma GrowsTouched(c: Codec<Record>, limits: Limits, g: Growing, contents: seq<seq<Record>>, event: Record)
    requires |g.segments| == |contents| && GrowsInto(c, g, contents)
    ensures var g', next := GrowOne(c, limits, g, event), Grown(contents, event, Rotates(c, limits, g, event));
      && |g'.segments| == |next| && TouchedEnd(c, g'.touched, g'.segments, next)
      && FirstTouched(g') == if g.touched == [] && !Rotates(c, limits, g, event) then |g.segments| - 1 else FirstTouched(g)
  {
    hide Lines, TouchedEnd, SetTouched, GrowOne, Encodable, Indexed, ByteLength, WouldExceed;
    GrowsAtTheEnd(c, limits, g, contents, event);
    var next, grown := Grown(contents, event, Rotates(c, limits, g, event)), GrowOne(c, limits, g, event);
    TouchLast(c, g.touched, g.segments, contents, grown.segments, next);
  }

  lemma LastStart(contents: seq<seq<Record>>)
    requires contents != []
    ensures |Concat(contents)| == |Concat(contents[..|contents| - 1])| + |contents[|contents| - 1]|
  {
    hide Concat;
    var n := |contents| - 1;
    assert contents == contents[..n] + [contents[n]];
    ConcatSnoc(contents[..n], contents[n]);
  }

  lemma GrowsDescribed(c: Codec<Record>, limits: Limits, g: Growing, contents: seq<seq<Record>>, event: Record)
    requires |g.segments| == |contents| && GrowsInto(c, g, contents)
    requires Described(c, g.segments, contents) && event.sequence == |Concat(contents)|
    ensures |GrowOne(c, limits, g, event).segments| == |Grown(contents, event, Rotates(c, limits, g, event))|
    ensures Described(c, GrowOne(c, limits, g, event).segments, Grown(contents, event, Rotates(c, limits, g, event)))
  {
    hide Lines, ByteLength, GrowOne, Concat, GrowsInto, WouldExceed, SetTouched, DescribedAt;
    GrowsAtTheEnd(c, limits, g, contents, event);
    var next, grown := Grown(contents, event, Rotates(c, limits, g, event)), GrowOne(c, limits, g, event);
    var n := |next| - 1;
    forall i | 0 <= i < n
      ensures DescribedAt(c, grown.segments[i], |Concat(next[..i])|, next[i])
    {
      assert next[..i] == contents[..i] && grown.segments[i] == g.segments[i];
      assert DescribedAt(c, g.segments[i], |Concat(contents[..i])|, contents[i]);
    }
    GrowsDescribedAtTheEnd(c, limits, g, contents, event);
  }

  lemma GrowsDescribedAtTheEnd(c: Codec<Record>, limits: Limits, g: Growing, contents: seq<seq<Record>>, event: Record)
    requires |g.segments| == |contents| && GrowsInto(c, g, contents)
    requires Described(c, g.segments, contents) && event.sequence == |Concat(contents)|
    ensures var g', next := GrowOne(c, limits, g, event), Grown(contents, event, Rotates(c, limits, g, event));
      var n := |next| - 1;
      |g'.segments| == |next| && DescribedAt(c, g'.segments[n], |Concat(next[..n])|, next[n])
  {
    hide Lines, ByteLength, GrowOne, Concat, GrowsInto, WouldExceed, SetTouched;
    GrowsAtTheEnd(c, limits, g, contents, event);
    var next := Grown(contents, event, Rotates(c, limits, g, event));
    var n := |next| - 1;
    assert next[..n] == contents[..n];
    if n < |contents| {
      LastStart(contents);
      assert DescribedAt(c, g.segments[n], |Concat(contents[..n])|, contents[n]);
    } else {
      assert contents[..n] == contents;
    }
  }

  /** What distributing a batch leaves alone: every segment in front of the first touched one, and what the last old
      segment held before. */
  ghost predicate Continues(start: seq<Descriptor>, before: seq<seq<Record>>, g: Growing, contents: seq<seq<Record>>)
    requires |start| == |before| && |g.segments| == |contents|
  {
    var first := FirstTouched(g);
    && 0 <= first <= |before| <= |contents| && first >= |before| - 1
    && (forall i :: 0 <= i < first ==> g.segments[i] == start[i] && contents[i] == before[i])
    && (first < |before| ==> g.segments[first].file == start[first].file && before[first] <= contents[first])
  }

  lemma GrowsOn(c: Codec<Record>, limits: Limits, g: Growing, contents: seq<seq<Record>>, event: Record)
    requires |g.segments| == |contents| && GrowsInto(c, g, contents) && c.valid(event)
    ensures |GrowOne(c, limits, g, event).segments| == |Grown(contents, event, Rotates(c, limits, g, event))|
    ensures GrowsInto(c, GrowOne(c, limits, g, event), Grown(contents, event, Rotates(c, limits, g, event)))
  {
    hide Lines, ByteLength, WouldExceed, TouchedEnd, GrowOne, Indexed;
    GrowsAtTheEnd(c, limits, g, contents, event);
    GrowsTouched(c, limits, g, contents, event);
    GrowsIndexed(c, limits, g, event);
    var next := Grown(contents, event, Rotates(c, limits, g, event));
    forall i | 0 <= i < |next| - 1
      ensures Encodable(c, next[i])
    {
      assert next[i] == contents[i];
    }
  }

  lemma ConcatGrown(contents: seq<seq<Record>>, event: Record, rotated: bool)
    requires contents == [] ==> rotated
    ensures Concat(Grown(contents, event, rotated)) == Concat(contents) + [event]
  {
    if rotated {
      ConcatSnoc(contents, [event]);
    } else {
      ConcatExtended(contents, [event]);
    }
  }

  lemma GrowsBehind(c: Codec<Record>, limits: Limits, start: seq<Descriptor>, before: seq<seq<Record>>, g: Growing,
                    contents: seq<seq<Record>>, event: Record)
    requires |start| == |before| && |g.segments| == |contents| && Continues(start, before, g, contents)
    requires var g' := GrowOne(c, limits, g, event);
             FirstTouched(g') == if g.touched == [] && !Rotates(c, limits, g, event) then |g.segments| - 1 else FirstTouched(g)
    ensures Continues(start, before, GrowOne(c, limits, g, event), Grown(contents, event, Rotates(c, limits, g, event)))
  {
    hide Lines, ByteLength, WouldExceed;
    var first := FirstTouched(GrowOne(c, limits, g, event));
    var next := Grown(contents, event, Rotates(c, limits, g, event));
    assert forall i :: 0 <= i < first ==> next[i] == contents[i];
  }

  lemma GrowsFilled(c: Codec<Record>, limits: Limits, g: Growing, contents: seq<seq<Record>>, event: Record)
    requires |g.segments| == |contents| && GrowsInto(c, g, contents) && FilledUp(c, limits, contents)
    ensures FilledUp(c, limits, Grown(contents, event, Rotates(c, limits, g, event)))
  {
    hide ByteLength, Lines, Encodable, Indexed, TouchedEnd;
    var next := Grown(contents, event, Rotates(c, limits, g, event));
    forall i | 0 < i < |next|
      ensures next[i] != [] && NoRoom(c, limits, next[i - 1], next[i][0])
    {
      assert next[i - 1] == contents[i - 1];
    }
  }

  lemma {:induction false} GrowsAll(c: Codec<Record>, limits: Limits, start: Growing, before: seq<seq<Record>>,
                                    events: seq<Record>) returns (contents: seq<seq<Record>>)
    requires |start.segments| == |before| && GrowsInto(c, start, before) && start.touched == []
    requires Encodable(c, events)
    ensures var g := GrowAll(c, limits, start, events);
      && |g.segments| == |contents| && GrowsInto(c, g, contents) && Continues(start.segments, before, g, contents)
      && (Described(c, start.segments, before) && Numbered(events, |Concat(before)|) ==> Described(c, g.segments, contents))
    ensures Concat(contents) == Concat(before) + events && (Whole(before) ==> Whole(contents))
    ensures FilledUp(c, limits, before) ==> FilledUp(c, limits, contents)
    ensures events != [] ==> GrowAll(c, limits, start, events).touched != []
    ensures FirstTouched(GrowAll(c, limits, start, events))
         == if events != [] && !Rotates(c, limits, start, events[0]) then |before| - 1 else |before|
    decreases |events|
  {
    hide GrowsInto, Continues, Concat, Described, GrowOne, FilledUp;
    if events == [] {
      contents := before;
      assert Concat(before) + events == Concat(before);
      StartContinues(c, start, before);
    } else {
      var front, last := events[..|events| - 1], events[|events| - 1];
      var middle := GrowsAll(c, limits, start, before, front);
      var g := GrowAll(c, limits, start, front);
      contents := Grown(middle, last, Rotates(c, limits, g, last));
      assert c.valid(last);
      GrowsOn(c, limits, g, middle, last);
      ConcatGrown(middle, last, Rotates(c, limits, g, last));
      GrowsTouched(c, limits, g, middle, last);
      GrowsBehind(c, limits, start.segments, before, g, middle, last);
      if Described(c, start.segments, before) && Numbered(events, |Concat(before)|) {
        GrowsDescribed(c, limits, g, middle, last);
      }
      if FilledUp(c, limits, before) {
        GrowsFilled(c, limits, g, middle, last);
      }
      assert Concat(before) + front + [last] == Concat(before) + events;
    }
  }

  lemma StartContinues(c: Codec<Record>, start: Growing, before: seq<seq<Record>>)
    requires GrowsInto(c, start, before) && start.touched == []
    ensures |start.segments| == |before| && Continues(start.segments, before, start, before)
  {
  }

  lemma GrowsBoundedOn(c: Codec<Record>, limits: Limits, g: Growing, event: Record)
    requires limits.maxEvents >= 1 && Bounded(limits, g.segments) && g.text == Lines(c, g.events)
    ensures Bounded(limits, GrowOne(c, limits, g, event).segments)
    ensures GrowOne(c, limits, g, event).text == Lines(c, GrowOne(c, limits, g, event).events)
  {
    hide ByteLength;
    GrowsText(c, if Rotates(c, limits, g, event) then OpenSegment(g, event) else g, event);
    hide Lines;
  }

  lemma {:induction false} GrowsBounded(c: Codec<Record>, limits: Limits, start: Growing, events: seq<Record>)
    requires limits.maxEvents >= 1 && Bounded(limits, start.segments) && start.text == Lines(c, start.events)
    ensures Bounded(limits, GrowAll(c, limits, start, events).segments)
    ensures GrowAll(c, limits, start, events).text == Lines(c, GrowAll(c, limits, start, events).events)
    decreases |events|
  {
    hide Lines, GrowOne, Bounded;
    if events != [] {
      var front := events[..|events| - 1];
      GrowsBounded(c, limits, start, front);
      GrowsBoundedOn(c, limits, GrowAll(c, limits, start, front), events[|events| - 1]);
    }
  }

  // ----- Writing -----

  predicate SameFile(a: Disk, b: Disk, f: File)
  {
    (f in a.files <==> f in b.files) && (f in a.files ==> a.files[f] == b.files[f])
  }

  lemma AtomicWriteEffect(disk: Disk, file: File, text: string)
    requires !file.Temporary?
    ensures var after := ApplyAll(disk, AtomicWrite(file, text));
      && after.manifest == disk.manifest && file in after.files && after.files[file] == text
      && (forall f: File :: !f.Temporary? && f != file ==> SameFile(after, disk, f))
  {
    var ops := AtomicWrite(file, text);
    assert ops[..1] == [ops[0]] && ops[..1][..0] == [];
    assert ApplyAll(disk, ops[..1]) == Apply(disk, ops[0]);
  }

  predicate Writable(touched: seq<Touch>)
  {
    && (forall i :: 0 <= i < |touched| ==> !touched[i].file.Temporary?)
    && (forall i, j :: 0 <= i < j < |touched| ==> touched[i].file != touched[j].file)
  }

  /** Files written by the first touches. */
  ghost predicate Written(after: Disk, disk: Disk, touched: seq<Touch>)
  {
    && after.manifest == disk.manifest
    && (forall i :: 0 <= i < |touched| ==> touched[i].file in after.files && after.files[touched[i].file] == touched[i].text)
    && (forall f: File :: !f.Temporary? && (forall i :: 0 <= i < |touched| ==> touched[i].file != f) ==>
          SameFile(after, disk, f))
  }

  lemma {:induction false} TouchedAreWritten(disk: Disk, touched: seq<Touch>)
    requires Writable(touched)
    ensures Written(ApplyAll(disk, WriteTouched(touched)), disk, touched)
    decreases |touched|
  {
    if touched != [] {
      var front, last := touched[..|touched| - 1], touched[|touched| - 1];
      TouchedAreWritten(disk, front);
      var middle := ApplyAll(disk, WriteTouched(front));
      ApplyInTurn(disk, WriteTouched(front), AtomicWrite(last.file, last.text));
      AtomicWriteEffect(middle, last.file, last.text);
      var after := ApplyAll(disk, WriteTouched(touched));
      forall i | 0 <= i < |touched|
        ensures touched[i].file in after.files && after.files[touched[i].file] == touched[i].text
      {
        if i < |front| {
          assert front[i] == touched[i] && SameFile(after, middle, touched[i].file);
        }
      }
      forall f: File | !f.Temporary? && forall i :: 0 <= i < |touched| ==> touched[i].file != f
        ensures SameFile(after, disk, f)
      {
        assert touched[|touched| - 1].file != f;
        assert forall i :: 0 <= i < |front| ==> front[i] == touched[i];
        assert SameFile(after, middle, f) && SameFile(middle, disk, f);
      }
    }
  }

  lemma {:induction false} WriteTouchedAt(touched: seq<Touch>, m: nat)
    requires m <= |touched|
    ensures |WriteTouched(touched)| == 2 * |touched|
    ensures WriteTouched(touched)[..2 * m] == WriteTouched(touched[..m])
    ensures m < |touched| ==> WriteTouched(touched)[2 * m..2 * m + 2] == AtomicWrite(touched[m].file, touched[m].text)
    decreases |touched|
  {
    if touched != [] {
      var front, last := touched[..|touched| - 1], touched[|touched| - 1];
      if m == |touched| {
        WriteTouchedAt(front, m - 1);
        assert touched[..m] == touched;
      } else {
        WriteTouchedAt(front, m);
        assert front[..m] == touched[..m];
      }
    }
  }

  /** A stop during the writes leaves some touched files new and the others as they were. */
  lemma CrashDuringWrites(disk: Disk, touched: seq<Touch>, publish: FsOp, k: nat, partial: nat) returns (m: nat)
    requires Writable(touched) && k <= 2 * |touched| && publish.Publish?
    ensures m <= |touched| && m == k / 2 && |WriteTouched(touched)| == 2 * |touched|
    ensures Written(Crash(disk, WriteTouched(touched) + [publish], k, partial), disk, touched[..m])
  {
    hide Written, WriteTouched;
    m := k / 2;
    WriteTouchedAt(touched, m);
    TouchedAreWritten(disk, touched[..m]);
    var ops := WriteTouched(touched) + [publish];
    var done := ApplyAll(disk, WriteTouched(touched[..m]));
    assert ops[..2 * m] == WriteTouched(touched[..m]);
    if m < |touched| {
      var pair := AtomicWrite(touched[m].file, touched[m].text);
      assert ops[2 * m] == WriteTouched(touched)[2 * m..2 * m + 2][0] == pair[0];
      assert ops[2 * m + 1] == WriteTouched(touched)[2 * m..2 * m + 2][1] == pair[1];
      if k == 2 * m + 1 {
        assert ops[..k][..2 * m] == ops[..2 * m];
        TemporaryIsUnseen(done, disk, touched[..m], touched[m].file, touched[m].text);
      } else if partial <= |touched[m].text| {
        TemporaryIsUnseen(done, disk, touched[..m], touched[m].file, touched[m].text[..partial]);
      }
    }
  }

  lemma TemporaryIsUnseen(after: Disk, disk: Disk, touched: seq<Touch>, file: File, text: string)
    requires Writable(touched) && Written(after, disk, touched)
    ensures Written(Apply(after, WriteFile(Temporary(file), text)), disk, touched)
  {
    var next := Apply(after, WriteFile(Temporary(file), text));
    forall f: File | !f.Temporary?
      ensures SameFile(next, after, f)
    {
    }
    forall f: File | !f.Temporary? && (forall i :: 0 <= i < |touched| ==> touched[i].file != f)
      ensures SameFile(next, disk, f)
    {
      assert SameFile(after, disk, f) && SameFile(next, after, f);
    }
  }
}
