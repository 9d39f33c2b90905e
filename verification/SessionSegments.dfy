/** The session log kept as a manifest and rotated segment files. A file written under a temporary name and then renamed
    is two steps, as is everything else between which the machine may stop. */
module SessionSegments {
  import opened Text
  import opened JsonLines

  datatype Record = Record(sequence: int, body: string)

  /** Names of files. The random part of a temporary name plays no role: the file is renamed before the next one. */
  datatype File = Segment(index: nat) | Compacted(nonce: nat) | Temporary(target: File)

  datatype Descriptor =
    Descriptor(index: nat, file: File, firstSeq: int, lastSeq: int, eventCount: nat, byteLength: nat)

  datatype Manifest = Manifest(nextSeq: int, segments: seq<Descriptor>)

  datatype Disk = Disk(manifest: Option<Manifest>, files: map<File, string>)

  datatype Limits = Limits(maxEvents: nat, maxBytes: nat)

  datatype Failure = NoSession | MissingSegment | Corrupted | NonContiguous | OutOfSequence | BadRange

  // ----- File operations -----

  /** `Publish` is the rename of the written manifest over the old one. */
  datatype FsOp = WriteFile(file: File, text: string) | Rename(from: File, to: File) | Publish(manifest: Manifest) | Remove(file: File)

  function Apply(disk: Disk, op: FsOp): Disk
  {
    match op
    case WriteFile(file, text) => disk.(files := disk.files[file := text])
    case Rename(from, to) => if from in disk.files then disk.(files := (disk.files - {from})[to := disk.files[from]]) else disk
    case Publish(manifest) => disk.(manifest := Some(manifest))
    case Remove(file) => disk.(files := disk.files - {file})
  }

  function ApplyAll(disk: Disk, ops: seq<FsOp>): Disk
  {
    if ops == [] then disk else Apply(ApplyAll(disk, ops[..|ops| - 1]), ops[|ops| - 1])
  }

  lemma {:induction false} ApplyInTurn(disk: Disk, a: seq<FsOp>, b: seq<FsOp>)
    ensures ApplyAll(disk, a + b) == ApplyAll(ApplyAll(disk, a), b)
    decreases |b|
  {
    if b == [] {
      assert a + b == a;
    } else {
      assert (a + b)[..|a + b| - 1] == a + b[..|b| - 1];
      ApplyInTurn(disk, a, b[..|b| - 1]);
    }
  }

  lemma ApplyTwo(disk: Disk, a: FsOp, b: FsOp)
    ensures ApplyAll(disk, [a, b]) == Apply(Apply(disk, a), b)
  {
    var ops := [a, b];
    assert ops[..1] == [a] && [a][..0] == [];
    assert ApplyAll(disk, ops[..1]) == Apply(ApplyAll(disk, [a][..0]), a);
  }

  lemma ApplyOne(disk: Disk, op: FsOp)
    ensures ApplyAll(disk, [op]) == Apply(disk, op)
  {
    assert [op][..0] == [];
    assert ApplyAll(disk, [op][..0]) == disk;
  }

  /** The disk after a stop behind `k` operations. A write cut short leaves the first `partial` characters, or nothing
      at all when `partial` is beyond the text. */
  function Crash(disk: Disk, ops: seq<FsOp>, k: nat, partial: nat): Disk
    requires k <= |ops|
  {
    var done := ApplyAll(disk, ops[..k]);
    if k < |ops| && ops[k].WriteFile? && partial <= |ops[k].text|
    then Apply(done, WriteFile(ops[k].file, ops[k].text[..partial]))
    else done
  }

  function AtomicWrite(file: File, text: string): seq<FsOp>
  {
    [WriteFile(Temporary(file), text), Rename(Temporary(file), file)]
  }

  // ----- Reading -----

  datatype Parse = Clean(events: seq<Record>) | Torn(events: seq<Record>) | Corrupt

  function Prefixed(events: seq<Record>, rest: Parse): Parse
  {
    match rest
    case Clean(more) => Clean(events + more)
    case Torn(more) => Torn(events + more)
    case Corrupt => Corrupt
  }

  /** Only the last line, and only without its newline, may be broken. */
  function ParseLines(c: Codec<Record>, lines: seq<string>, ended: bool): Parse
  {
    if lines == [] then Clean([])
    else if lines[0] == "" then ParseLines(c, lines[1..], ended)
    else
      match c.decode(lines[0])
      case Event(e) => Prefixed([e], ParseLines(c, lines[1..], ended))
      case _ => if |lines| == 1 && !ended then Torn([]) else Corrupt
  }

  predicate Ended(text: string)
  {
    var lines := Split(text, '\n');
    lines[|lines| - 1] == ""
  }

  function ParseText(c: Codec<Record>, text: string): Parse
  {
    ParseLines(c, LinesOf(text), Ended(text))
  }

  method ParseSegment(c: Codec<Record>, text: string) returns (parsed: Parse)
    ensures parsed == ParseText(c, text)
  {
    var lines := Split(text, '\n');
    var hasTail := lines[|lines| - 1] == "";
    if hasTail {
      lines := lines[..|lines| - 1];
    }
    assert lines == LinesOf(text) && hasTail == Ended(text);
    var events: seq<Record> := [];
    var i := 0;
    while i < |lines|
      invariant 0 <= i <= |lines|
      invariant ParseLines(c, lines, hasTail) == Prefixed(events, ParseLines(c, lines[i..], hasTail))
    {
      assert lines[i..][1..] == lines[i + 1..];
      if lines[i] != "" {
        match c.decode(lines[i]) {
          case Event(e) =>
            assert forall rest :: Prefixed(events, Prefixed([e], rest)) == Prefixed(events + [e], rest) by {
              assert forall more: seq<Record> :: events + ([e] + more) == events + [e] + more;
            }
            events := events + [e];
          case _ =>
            assert |lines[i..]| == 1 <==> i == |lines| - 1;
            return if i == |lines| - 1 && !hasTail then Torn(events) else Corrupt;
        }
      }
      i := i + 1;
    }
    return Clean(events);
  }

  datatype Reading = Reading(disk: Disk, segments: seq<Descriptor>, events: seq<Record>, expected: Option<int>,
                             repaired: bool, failure: Option<Failure>)

  /** The records of one segment: each must follow the one before, those from `sequence` on are kept. */
  function ScanEvents(r: Reading, found: seq<Record>, sequence: int): (s: Reading)
    ensures s.segments == r.segments && s.disk == r.disk && s.repaired == r.repaired
    decreases |found|
  {
    if found == [] then r
    else if r.expected.Some? && found[0].sequence != r.expected.value then r.(failure := Some(NonContiguous))
    else ScanEvents(Accept(r, found[0], sequence), found[1..], sequence)
  }

  function Accept(r: Reading, e: Record, sequence: int): Reading
  {
    r.(events := if e.sequence >= sequence then r.events + [e] else r.events, expected := Some(e.sequence + 1))
  }

  /** A torn segment is written again without its broken last line. */
  function Repair(c: Codec<Record>, r: Reading, i: nat, found: seq<Record>): Reading
    requires i < |r.segments|
  {
    var d, text := r.segments[i], Lines(c, found);
    var last := if found == [] then d.firstSeq - 1 else found[|found| - 1].sequence;
    r.(disk := ApplyAll(r.disk, AtomicWrite(d.file, text)),
       segments := r.segments[i := d.(eventCount := |found|, byteLength := ByteLength(text), lastSeq := last)],
       repaired := true)
  }

  function ReadSegment(c: Codec<Record>, r: Reading, i: nat, sequence: int): Reading
    requires i < |r.segments|
  {
    var d := r.segments[i];
    if r.failure.Some? || d.lastSeq < sequence then r
    else if d.file !in r.disk.files then r.(failure := Some(MissingSegment))
    else
      match ParseText(c, r.disk.files[d.file])
      case Corrupt => r.(failure := Some(Corrupted))
      case Clean(found) => ScanEvents(r, found, sequence)
      case Torn(found) =>
        var scanned := ScanEvents(r, found, sequence);
        if scanned.failure.Some? then scanned else Repair(c, scanned, i, found)
  }

  function ReadSegments(c: Codec<Record>, start: Reading, n: nat, sequence: int): (r: Reading)
    requires n <= |start.segments|
    ensures |r.segments| == |start.segments|
  {
    if n == 0 then start else ReadSegment(c, ReadSegments(c, start, n - 1, sequence), n - 1, sequence)
  }

  lemma {:induction false} FailureStays(c: Codec<Record>, start: Reading, i: nat, n: nat, sequence: int)
    requires i <= n <= |start.segments| && ReadSegments(c, start, i, sequence).failure.Some?
    ensures ReadSegments(c, start, n, sequence) == ReadSegments(c, start, i, sequence)
  {
    if i < n {
      FailureStays(c, start, i, n - 1, sequence);
    }
  }

  function StartReading(disk: Disk, manifest: Manifest): Reading
  {
    Reading(disk, manifest.segments, [], None, false, None)
  }

  /** One past the last sequence number any descriptor names. */
  function NextAfter(segments: seq<Descriptor>): int
  {
    if segments == [] then 0
    else
      var before, last := NextAfter(segments[..|segments| - 1]), segments[|segments| - 1].lastSeq + 1;
      if last > before then last else before
  }

  function ReadFrom(c: Codec<Record>, disk: Disk, sequence: int): (Disk, Result<seq<Record>, Failure>)
  {
    if sequence < 0 then (disk, Err(BadRange))
    else if disk.manifest.None? then (disk, Err(NoSession))
    else
      var manifest := disk.manifest.value;
      var r := ReadSegments(c, StartReading(disk, manifest), |manifest.segments|, sequence);
      if r.failure.Some? then (r.disk, Err(r.failure.value))
      else if r.repaired then (Apply(r.disk, Publish(Manifest(NextAfter(r.segments), r.segments))), Ok(r.events))
      else (r.disk, Ok(r.events))
  }

  // ----- Appending -----

  datatype Touch = Touch(index: nat, file: File, text: string)

  /** State of the loop that distributes a batch: text and records of the last segment, and the files to be written. */
  datatype Growing = Growing(segments: seq<Descriptor>, text: string, events: seq<Record>, touched: seq<Touch>)

  predicate WouldExceed(c: Codec<Record>, limits: Limits, g: Growing, event: Record)
  {
    && g.segments != [] && |g.events| > 0
    && (|g.events| >= limits.maxEvents || ByteLength(g.text) + ByteLength(c.encode(event) + "\n") > limits.maxBytes)
  }

  /** `touched.set(...)`: the map is keyed by the segment, and only the last segment is ever written again. */
  function SetTouched(touched: seq<Touch>, touch: Touch): seq<Touch>
  {
    if touched != [] && touched[|touched| - 1].index == touch.index then touched[..|touched| - 1] + [touch]
    else touched + [touch]
  }

  predicate Rotates(c: Codec<Record>, limits: Limits, g: Growing, event: Record)
  {
    g.segments == [] || WouldExceed(c, limits, g, event)
  }

  /** A new, still empty segment for the record. */
  function OpenSegment(g: Growing, event: Record): Growing
  {
    var n := |g.segments|;
    g.(segments := g.segments + [Descriptor(n, Segment(n), event.sequence, event.sequence, 0, 0)], text := "", events := [])
  }

  function PutRecord(c: Codec<Record>, g: Growing, event: Record): Growing
    requires g.segments != []
  {
    var n := |g.segments| - 1;
    var text, events := g.text + c.encode(event) + "\n", g.events + [event];
    var d := g.segments[n].(lastSeq := event.sequence, eventCount := |events|, byteLength := ByteLength(text));
    Growing(g.segments[..n] + [d], text, events, SetTouched(g.touched, Touch(d.index, d.file, text)))
  }

  function GrowOne(c: Codec<Record>, limits: Limits, g: Growing, event: Record): Growing
  {
    PutRecord(c, if Rotates(c, limits, g, event) then OpenSegment(g, event) else g, event)
  }

  function GrowAll(c: Codec<Record>, limits: Limits, g: Growing, events: seq<Record>): Growing
  {
    if events == [] then g
    else GrowOne(c, limits, GrowAll(c, limits, g, events[..|events| - 1]), events[|events| - 1])
  }

  function LastText(disk: Disk, manifest: Manifest): string
  {
    if manifest.segments == [] then ""
    else
      var file := manifest.segments[|manifest.segments| - 1].file;
      if file in disk.files then disk.files[file] else ""
  }

  function WriteTouched(touched: seq<Touch>): seq<FsOp>
  {
    if touched == [] then []
    else
      var last := touched[|touched| - 1];
      WriteTouched(touched[..|touched| - 1]) + AtomicWrite(last.file, last.text)
  }

  /** Record `i` carries the number `from + i`. */
  predicate Numbered(events: seq<Record>, from: int)
  {
    forall i :: 0 <= i < |events| ==> events[i].sequence == from + i
  }

  function CurrentManifest(disk: Disk): Manifest
  {
    if disk.manifest.Some? then disk.manifest.value else Manifest(0, [])
  }

  /** Where the loop starts: what the last segment file holds now. */
  function StartGrowing(c: Codec<Record>, disk: Disk): Option<Growing>
  {
    var manifest := CurrentManifest(disk);
    match ParseText(c, LastText(disk, manifest))
    case Corrupt => None
    case Clean(events) => Some(Growing(manifest.segments, LastText(disk, manifest), events, []))
    case Torn(events) => Some(Growing(manifest.segments, LastText(disk, manifest), events, []))
  }

  function AppendOps(g: Growing, nextSeq: int): seq<FsOp>
  {
    WriteTouched(g.touched) + [Publish(Manifest(nextSeq, g.segments))]
  }

  function Append(c: Codec<Record>, limits: Limits, disk: Disk, events: seq<Record>): (Disk, Result<Manifest, Failure>)
  {
    var manifest := CurrentManifest(disk);
    if events == [] then (disk, if disk.manifest.Some? then Ok(manifest) else Err(NoSession))
    else if !Numbered(events, manifest.nextSeq) then (disk, Err(OutOfSequence))
    else
      match StartGrowing(c, disk)
      case None => (disk, Err(Corrupted))
      case Some(start) =>
        var g := GrowAll(c, limits, start, events);
        var nextSeq := manifest.nextSeq + |events|;
        (ApplyAll(disk, AppendOps(g, nextSeq)), Ok(Manifest(nextSeq, g.segments)))
  }

  // ----- Creating and compacting -----

  function Create(disk: Disk): (Disk, Manifest)
  {
    if disk.manifest.Some? then (disk, disk.manifest.value)
    else (Apply(disk, Publish(Manifest(0, []))), Manifest(0, []))
  }

  function RemoveSegments(segments: seq<Descriptor>, kept: File): seq<FsOp>
  {
    if segments == [] then []
    else
      var last := segments[|segments| - 1].file;
      RemoveSegments(segments[..|segments| - 1], kept) + (if last == kept then [] else [Remove(last)])
  }

  function CompactedManifest(c: Codec<Record>, manifest: Manifest, events: seq<Record>, nonce: nat): Manifest
  {
    if events == [] then manifest.(segments := [])
    else
      manifest.(segments := [Descriptor(0, Compacted(nonce), events[0].sequence, events[|events| - 1].sequence,
                                        |events|, ByteLength(Lines(c, events)))])
  }

  /** The new file is complete before the manifest names it, and the old ones go afterwards. */
  function CompactOps(c: Codec<Record>, manifest: Manifest, events: seq<Record>, nonce: nat): seq<FsOp>
  {
    [WriteFile(Compacted(nonce), Lines(c, events)), Publish(CompactedManifest(c, manifest, events, nonce))]
    + RemoveSegments(manifest.segments, Compacted(nonce))
  }

  /** The manifest compaction builds on is the one from before the read. */
  function Compact(c: Codec<Record>, disk: Disk, nonce: nat): (Disk, Result<Manifest, Failure>)
  {
    if disk.manifest.None? then (disk, Err(NoSession))
    else
      var manifest := disk.manifest.value;
      match ReadFrom(c, disk, 0)
      case (after, Err(failure)) => (after, Err(failure))
      case (after, Ok(events)) =>
        (ApplyAll(after, CompactOps(c, manifest, events, nonce)), Ok(CompactedManifest(c, manifest, events, nonce)))
  }
}
