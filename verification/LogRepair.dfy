/** What a session log reads back as after a cut, a repair and an append. */
module LogRepair {
  import opened Text
  import opened JsonLines
  import opened PersistenceJsonl

  /** The file a healthy log is stored as. */
  function Serialize(c: LogCodec, meta: Header, events: seq<SessionEvent>): string
  {
    c.encodeHeader(meta) + "\n" + Lines(c.events, events)
  }

  ghost predicate Healthy(c: LogCodec, meta: Header, events: seq<SessionEvent>)
  {
    LawfulLog(c) && IsSessionHeader(meta) && meta.version == SESSION_FORMAT_VERSION && Storable(events) && Contiguous(events, 0)
  }

  // ----- Reading -----

  lemma StorableLines(c: LogCodec, events: seq<SessionEvent>)
    requires LawfulLog(c) && Storable(events)
    ensures forall i :: 0 <= i < |events| ==> OneLine(c.events, events[i])
  {
    forall i | 0 <= i < |events|
      ensures OneLine(c.events, events[i])
    {
      assert IsEventRecord(events[i]);
    }
  }

  /** Lines of any text behind a header line and some records. */
  lemma LinesOfText(c: LogCodec, meta: Header, events: seq<SessionEvent>, rest: string)
    requires LawfulLog(c) && IsSessionHeader(meta) && Storable(events)
    ensures LinesOf(Serialize(c, meta, events) + rest)
         == [c.encodeHeader(meta)] + Encoded(c.events, events) + LinesOf(rest)
  {
    hide Split, Lines, Lawful, Storable;
    var header := c.encodeHeader(meta);
    var body := Lines(c.events, events) + rest;
    assert Serialize(c, meta, events) + rest == header + "\n" + body;
    SplitFirst(header, body, '\n');
    StorableLines(c, events);
    SplitLines(c.events, events, rest);
    var before, last := [header] + Encoded(c.events, events), Split(rest, '\n');
    assert Split(Serialize(c, meta, events) + rest, '\n') == before + last;
    assert (before + last)[..|before + last| - 1] == before + last[..|last| - 1];
    assert (before + last)[|before + last| - 1] == last[|last| - 1];
  }

  lemma ScanOne(c: LogCodec, e: SessionEvent, rest: seq<string>, before: seq<SessionEvent>, length: nat)
    requires LawfulLog(c) && IsEventRecord(e) && Interpretable(e) && e.sequence == |before|
    ensures ScanLines(c.events, [c.events.encode(e)] + rest, before, length)
         == ScanLines(c.events, rest, before + [e], length + |c.events.encode(e)| + 1)
  {
    assert c.events.decode(c.events.encode(e)) == Event(e);
    var lines := [c.events.encode(e)] + rest;
    assert lines[0] == c.events.encode(e) && lines[1..] == rest;
  }

  lemma {:induction false} ScanEncoded(c: LogCodec, events: seq<SessionEvent>, rest: seq<string>,
                                       before: seq<SessionEvent>, length: nat)
    requires LawfulLog(c) && Storable(events) && Contiguous(events, |before|)
    ensures ScanLines(c.events, Encoded(c.events, events) + rest, before, length)
         == ScanLines(c.events, rest, before + events, length + |Lines(c.events, events)|)
    decreases |events|
  {
    hide ScanLines, LawfulLog;
    if events == [] {
      assert Encoded(c.events, events) + rest == rest;
      assert before + events == before;
    } else {
      var e, more := events[0], events[1..];
      var line := c.events.encode(e);
      ScanOne(c, e, Encoded(c.events, more) + rest, before, length);
      assert Encoded(c.events, events) + rest == [line] + (Encoded(c.events, more) + rest);
      ScanEncoded(c, more, rest, before + [e], length + |line| + 1);
      assert events == [e] + more;
      LinesAppend(c.events, [e], more);
      LinesOne(c.events, e);
      assert before + [e] + more == before + events;
    }
  }

  /** What any text behind a healthy log reads as. */
  lemma ParseBehindLog(c: LogCodec, meta: Header, events: seq<SessionEvent>, rest: string)
    requires Healthy(c, meta, events)
    ensures Parse(c, Serialize(c, meta, events) + rest, meta.id)
         == match ScanLines(c.events, LinesOf(rest), events, |Serialize(c, meta, events)|)
            case Err(error) => Err(error)
            case Ok(scan) => Ok(StoredLog(meta, scan.events, scan.validLength, scan.torn))
  {
    hide ScanLines, Lines, LinesOf;
    LinesOfText(c, meta, events, rest);
    var header := c.encodeHeader(meta);
    var lines := LinesOf(Serialize(c, meta, events) + rest);
    assert lines[0] == header && lines[1..] == Encoded(c.events, events) + LinesOf(rest);
    ScanEncoded(c, events, LinesOf(rest), [], |header| + 1);
    assert [] + events == events;
  }

  /** A log reads back as what was stored. */
  lemma LogReadsBack(c: LogCodec, meta: Header, events: seq<SessionEvent>)
    requires Healthy(c, meta, events)
    ensures var whole := Serialize(c, meta, events);
            Parse(c, whole, meta.id) == Ok(StoredLog(meta, events, |whole|, false))
  {
    ParseBehindLog(c, meta, events, "");
    LinesOfTail("");
    assert Serialize(c, meta, events) + "" == Serialize(c, meta, events);
  }

  // ----- Cuts -----

  /** The log cut at a position behind its header line: some whole records and the start of the next one. */
  lemma {:induction false} CutPosition(c: LogCodec, meta: Header, events: seq<SessionEvent>, n: nat) returns (j: nat, k: nat)
    requires |c.encodeHeader(meta)| < n <= |Serialize(c, meta, events)|
    ensures j <= |events| && (j == |events| ==> k == 0) && (j < |events| ==> k <= |c.events.encode(events[j])|)
    ensures Serialize(c, meta, events)[..n]
         == Serialize(c, meta, events[..j]) + (if j < |events| then c.events.encode(events[j])[..k] else "")
    ensures k == 0 <==> Serialize(c, meta, events)[n - 1] == '\n' && n == |Serialize(c, meta, events[..j])|
    decreases |events|
  {
    var whole := Serialize(c, meta, events);
    if n == |whole| {
      j, k := |events|, 0;
      assert events[..j] == events && whole[..n] == whole;
      LastIsNewline(c, meta, events);
    } else if events == [] {
      assert false;
    } else {
      var front, e := events[..|events| - 1], events[|events| - 1];
      var start := Serialize(c, meta, front);
      assert whole == start + (c.events.encode(e) + "\n");
      if n < |start| {
        j, k := CutPosition(c, meta, front, n);
        assert front[..j] == events[..j];
        assert whole[..n] == start[..n] && whole[n - 1] == start[n - 1];
      } else {
        j, k := |front|, n - |start|;
        assert events[..j] == front;
        assert whole[..n] == start + c.events.encode(e)[..k];
        if k == 0 {
          LastIsNewline(c, meta, front);
          assert whole[n - 1] == start[n - 1];
        }
      }
    }
  }

  lemma LastIsNewline(c: LogCodec, meta: Header, events: seq<SessionEvent>)
    ensures var whole := Serialize(c, meta, events); |whole| > 0 && whole[|whole| - 1] == '\n'
  {
    if events != [] {
      var l := Lines(c.events, events);
      assert l[|l| - 1] == '\n';
    }
  }

  /** The events of which the cut log still holds a whole record. */
  function Survivors(c: LogCodec, events: seq<SessionEvent>, j: nat, k: nat): seq<SessionEvent>
    requires j <= |events|
  {
    if j < |events| && k == |c.events.encode(events[j])| then events[..j + 1] else events[..j]
  }

  /** The start of the log that a cut after `j` records and `k` characters leaves. */
  function CutLog(c: LogCodec, meta: Header, events: seq<SessionEvent>, j: nat, k: nat): string
    requires j < |events| && k <= |c.events.encode(events[j])|
  {
    Serialize(c, meta, events[..j]) + c.events.encode(events[j])[..k]
  }

  lemma ParseCutLog(c: LogCodec, meta: Header, events: seq<SessionEvent>, j: nat, k: nat)
    requires Healthy(c, meta, events) && j < |events| && k <= |c.events.encode(events[j])|
    ensures Parse(c, CutLog(c, meta, events, j, k), meta.id)
         == Ok(StoredLog(meta, Survivors(c, events, j, k),
                         |Serialize(c, meta, events[..j])| + (if k == |c.events.encode(events[j])| then k + 1 else 0),
                         0 < k < |c.events.encode(events[j])|))
  {
    hide Lines, Parse, Lawful;
    var record, length := c.events.encode(events[j]), |Serialize(c, meta, events[..j])|;
    var tail := record[..k];
    ParseBehindLog(c, meta, events[..j], tail);
    StorableLines(c, events);
    assert OneLine(c.events, events[j]);
    LinesOfTail(tail);
    if k == |record| {
      assert tail == record && [record] == [record] + [];
      ScanOne(c, events[j], [], events[..j], length);
      assert events[..j] + [events[j]] == events[..j + 1];
    } else if k > 0 {
      PrefixIsMalformed(c, events[j], k);
      ScanMalformed(c.events, [tail], events[..j], length);
    }
  }

  lemma PrefixIsMalformed(c: LogCodec, e: SessionEvent, k: nat)
    requires LawfulLog(c) && IsEventRecord(e) && k < |c.events.encode(e)|
    ensures c.events.decode(c.events.encode(e)[..k]) == Malformed
  {
  }

  // ----- Repair -----

  /** `rawText.slice(0, validLength)` followed by the closers. */
  function RepairedText(c: LogCodec, text: string, stored: StoredLog, closers: seq<SessionEvent>): string
  {
    (if stored.validLength <= |text| then text[..stored.validLength] else text) + Lines(c.events, closers)
  }

  /** The text a committed preparation leaves behind. */
  function CommittedText(c: LogCodec, text: string, stored: StoredLog, closers: seq<SessionEvent>): string
  {
    if stored.torn || closers != [] then RepairedText(c, text, stored, closers) else text
  }

  /** Two logs side by side. */
  lemma SerializeAppend(c: LogCodec, meta: Header, a: seq<SessionEvent>, b: seq<SessionEvent>)
    ensures Serialize(c, meta, a + b) == Serialize(c, meta, a) + Lines(c.events, b)
  {
    hide Lines;
    LinesAppend(c.events, a, b);
    assert c.encodeHeader(meta) + "\n" + (Lines(c.events, a) + Lines(c.events, b))
        == c.encodeHeader(meta) + "\n" + Lines(c.events, a) + Lines(c.events, b);
  }

  lemma LinesOfGlued(c: LogCodec, start: string, more: seq<SessionEvent>)
    requires LawfulLog(c) && more != [] && Storable(more) && '\n' !in start
    ensures LinesOf(start + Lines(c.events, more)) == [start + c.events.encode(more[0])] + Encoded(c.events, more[1..])
  {
    hide Lines, Split, Lawful;
    StorableLines(c, more);
    assert OneLine(c.events, more[0]);
    var glued, rest := start + c.events.encode(more[0]), Lines(c.events, more[1..]);
    assert more == [more[0]] + more[1..];
    LinesAppend(c.events, [more[0]], more[1..]);
    LinesOne(c.events, more[0]);
    assert start + Lines(c.events, more) == glued + "\n" + rest;
    SplitFirst(glued, rest, '\n');
    assert forall i :: 0 <= i < |more[1..]| ==> more[1..][i] == more[i + 1];
    SplitLines(c.events, more[1..], "");
    SplitWhole("", '\n');
    assert rest + "" == rest;
    var after := [glued] + Encoded(c.events, more[1..]);
    assert Split(start + Lines(c.events, more), '\n') == after + [""];
    assert (after + [""])[..|after|] == after;
  }

  lemma GluedLineIsMalformed(c: LogCodec, e: SessionEvent, f: SessionEvent, k: nat)
    requires LawfulLog(c) && IsEventRecord(e) && IsEventRecord(f) && 0 < k <= |c.events.encode(e)|
    ensures c.events.decode(c.events.encode(e)[..k] + c.events.encode(f)) == Malformed
    ensures '\n' !in c.events.encode(e)[..k]
  {
    assert OneLine(c.events, e);
  }

  lemma ScanMalformed(c: Codec<SessionEvent>, lines: seq<string>, before: seq<SessionEvent>, length: nat)
    requires lines != [] && c.decode(lines[0]) == Malformed
    ensures ScanLines(c, lines, before, length)
         == if |lines| == 1 then Ok(Scan(before, length, true)) else Err(MalformedEvent)
  {
  }

  /** A record glued behind the start or the whole of another one is not read as what it was: the log is rejected,
      or ends before the two. */
  lemma GluedRecordsAreLost(c: LogCodec, meta: Header, events: seq<SessionEvent>, j: nat, k: nat, more: seq<SessionEvent>)
    requires Healthy(c, meta, events) && j < |events| && 0 < k <= |c.events.encode(events[j])|
    requires more != [] && Storable(more)
    ensures Parse(c, CutLog(c, meta, events, j, k) + Lines(c.events, more), meta.id)
         == if |more| == 1 then Ok(StoredLog(meta, events[..j], |Serialize(c, meta, events[..j])|, true))
            else Err(MalformedEvent)
  {
    hide Parse, Lines, LinesOf, LawfulLog, ScanLines;
    var start := c.events.encode(events[j])[..k];
    GluedLineIsMalformed(c, events[j], more[0], k);
    ParseBehindLog(c, meta, events[..j], start + Lines(c.events, more));
    LinesOfGlued(c, start, more);
    var lines := LinesOf(start + Lines(c.events, more));
    assert lines[0] == start + c.events.encode(more[0]) && |lines| == |more|;
    ScanMalformed(c.events, lines, events[..j], |Serialize(c, meta, events[..j])|);
    assert CutLog(c, meta, events, j, k) + Lines(c.events, more)
        == Serialize(c, meta, events[..j]) + (start + Lines(c.events, more));
  }

  /** Repairing a cut log. The committed text reads back as the surviving events followed by their closers exactly
      when it is not the case that the cut fell between a record and its newline and closers were due. */
  lemma RepairAfterRecordCut(c: LogCodec, meta: Header, events: seq<SessionEvent>, j: nat, k: nat, now: SafeInteger)
    requires Healthy(c, meta, events) && j < |events| && k <= |c.events.encode(events[j])|
    requires SyntheticClosers(Survivors(c, events, j, k), now).Some? && |events| <= MAX_ARRAY_LENGTH
    ensures Parse(c, CutLog(c, meta, events, j, k), meta.id).Ok?
    ensures Parse(c, CutLog(c, meta, events, j, k), meta.id).value.events == Survivors(c, events, j, k)
    ensures var text := CutLog(c, meta, events, j, k);
            var stored := Parse(c, text, meta.id).value;
            var closers := SyntheticClosers(stored.events, now).value;
            var again := Parse(c, CommittedText(c, text, stored, closers), meta.id);
            && (again.Ok? && again.value.events == Survivors(c, events, j, k) + closers && !again.value.torn
                <==> !(k == |c.events.encode(events[j])| && closers != []))
  {
    hide Parse, Lines, SyntheticClosers, Lawful;
    ParseCutLog(c, meta, events, j, k);
    var text := CutLog(c, meta, events, j, k);
    var stored := Parse(c, text, meta.id).value;
    var survivors := Survivors(c, events, j, k);
    var closers := SyntheticClosers(survivors, now).value;
    ClosersBalanceTheLog(survivors, now);
    if k < |c.events.encode(events[j])| {
      var start := Serialize(c, meta, survivors);
      assert text[..|start|] == start;
      if k == 0 {
        assert text == start;
      }
      SerializeAppend(c, meta, survivors, closers);
      assert closers == [] ==> survivors + closers == survivors;
      LogReadsBack(c, meta, survivors + closers);
    } else if closers == [] {
      assert survivors + closers == survivors;
    } else {
      StorableLines(c, events);
      assert OneLine(c.events, events[j]);
      GluedRecordsAreLost(c, meta, events, j, k, closers);
      assert RepairedText(c, text, stored, closers) == text + Lines(c.events, closers);
      assert |survivors| == j + 1;
    }
  }

  /** The same for a log that was not cut: its repair always reads back. */
  lemma RepairOfHealthyLog(c: LogCodec, meta: Header, events: seq<SessionEvent>, now: SafeInteger)
    requires Healthy(c, meta, events) && SyntheticClosers(events, now).Some? && |events| <= MAX_ARRAY_LENGTH
    ensures Parse(c, Serialize(c, meta, events), meta.id).Ok?
    ensures Parse(c, Serialize(c, meta, events), meta.id).value.events == events
    ensures var text := Serialize(c, meta, events);
            var stored := Parse(c, text, meta.id).value;
            var closers := SyntheticClosers(stored.events, now).value;
            Parse(c, CommittedText(c, text, stored, closers), meta.id)
               == Ok(StoredLog(meta, events + closers, |Serialize(c, meta, events + closers)|, false))
  {
    LogReadsBack(c, meta, events);
    var closers := SyntheticClosers(events, now).value;
    ClosersBalanceTheLog(events, now);
    SerializeAppend(c, meta, events, closers);
    LogReadsBack(c, meta, events + closers);
    var text := Serialize(c, meta, events);
    assert text[..|text|] == text;
    if closers == [] {
      assert events + closers == events;
    }
  }

  /** Every cut behind the header line, at once. The log survives repair unless the cut fell directly in front of a
      newline while something was open. */
  lemma RepairAfterAnyCut(c: LogCodec, meta: Header, events: seq<SessionEvent>, n: nat, now: SafeInteger)
    requires Healthy(c, meta, events) && |events| <= MAX_ARRAY_LENGTH
    requires |c.encodeHeader(meta)| < n <= |Serialize(c, meta, events)|
    ensures var whole := Serialize(c, meta, events);
            var text := whole[..n];
            var parsed := Parse(c, text, meta.id);
            && parsed.Ok? && parsed.value.meta == meta && parsed.value.events <= events
            && (SyntheticClosers(parsed.value.events, now).Some? ==>
                  var closers := SyntheticClosers(parsed.value.events, now).value;
                  var again := Parse(c, CommittedText(c, text, parsed.value, closers), meta.id);
                  (again.Ok? && again.value.events == parsed.value.events + closers && !again.value.torn
                   <==> !(n < |whole| && whole[n] == '\n' && closers != [])))
  {
    var whole := Serialize(c, meta, events);
    var j, k := CutPosition(c, meta, events, n);
    if j == |events| {
      assert events[..j] == events;
      assert whole[..n] == whole + "" == whole;
      LogReadsBack(c, meta, events);
      if SyntheticClosers(events, now).Some? {
        RepairOfHealthyLog(c, meta, events, now);
      }
    } else {
      ParseCutLog(c, meta, events, j, k);
      assert whole[..n] == CutLog(c, meta, events, j, k);
      CharacterAtCut(c, meta, events, j, k);
      if SyntheticClosers(Survivors(c, events, j, k), now).Some? {
        RepairAfterRecordCut(c, meta, events, j, k, now);
      }
    }
  }

  lemma CharacterAtCut(c: LogCodec, meta: Header, events: seq<SessionEvent>, j: nat, k: nat)
    requires Healthy(c, meta, events) && j < |events| && k <= |c.events.encode(events[j])|
    ensures var whole, n := Serialize(c, meta, events), |CutLog(c, meta, events, j, k)|;
            n < |whole| && (whole[n] == '\n' <==> k == |c.events.encode(events[j])|)
  {
    hide Lines;
    var record := c.events.encode(events[j]);
    var start := Serialize(c, meta, events[..j]);
    assert events == events[..j] + events[j..] && events[j..] == [events[j]] + events[j + 1..];
    SerializeAppend(c, meta, events[..j], events[j..]);
    LinesAppend(c.events, [events[j]], events[j + 1..]);
    LinesOne(c.events, events[j]);
    var whole := Serialize(c, meta, events);
    assert whole == start + (record + "\n" + Lines(c.events, events[j + 1..]));
    assert whole[|start| + k] == (record + "\n")[k];
    StorableLines(c, events);
    assert OneLine(c.events, events[j]);
  }

  // ----- The stored artifact -----

  datatype AppendError = SequenceMismatch(at: nat) | Unreadable(error: LogError)

  function FirstMismatch(batch: seq<SessionEvent>, expected: int, at: nat): Option<nat>
    requires at <= |batch|
    decreases |batch| - at
  {
    if at == |batch| then None
    else if batch[at].sequence != expected + at then Some(at)
    else FirstMismatch(batch, expected, at + 1)
  }

  /** The text after appending a batch that continues the numbering: a log without events is written anew. */
  function AppendedText(c: LogCodec, text: string, stored: StoredLog, batch: seq<SessionEvent>): string
  {
    if stored.events == [] then Serialize(c, stored.meta, batch) else text + Lines(c.events, batch)
  }

  /** Appending to a cut log keeps the batch exactly when the log ended with a newline or held no event. */
  lemma AppendAfterRecordCut(c: LogCodec, meta: Header, events: seq<SessionEvent>, j: nat, k: nat, batch: seq<SessionEvent>)
    requires Healthy(c, meta, events) && j < |events| && k <= |c.events.encode(events[j])|
    requires batch != [] && Storable(batch) && Contiguous(batch, |Survivors(c, events, j, k)|)
    ensures Parse(c, CutLog(c, meta, events, j, k), meta.id).Ok?
    ensures var text := CutLog(c, meta, events, j, k);
            var stored := Parse(c, text, meta.id).value;
            var again := Parse(c, AppendedText(c, text, stored, batch), meta.id);
            again.Ok? && again.value.events == Survivors(c, events, j, k) + batch
            <==> k == 0 || Survivors(c, events, j, k) == []
  {
    hide Parse, Lines, Lawful;
    ParseCutLog(c, meta, events, j, k);
    var survivors := Survivors(c, events, j, k);
    if survivors == [] {
      LogReadsBack(c, meta, batch);
      assert survivors + batch == batch;
    } else if k == 0 {
      SerializeAppend(c, meta, survivors, batch);
      LogReadsBack(c, meta, survivors + batch);
      StorableLines(c, events);
      assert OneLine(c.events, events[j]);
      assert CutLog(c, meta, events, j, k) == Serialize(c, meta, survivors);
    } else {
      GluedRecordsAreLost(c, meta, events, j, k, batch);
      assert |survivors + batch| > j;
    }
  }

  class Artifact {
    var text: string

    constructor (text: string)
      ensures this.text == text
    {
      this.text := text;
    }

    /** `prepareEntry` with commit: repairs the file and returns the events it hands out. */
    method PrepareEntry(c: LogCodec, id: string, now: SafeInteger) returns (result: Result<Option<seq<SessionEvent>>, LogError>)
      modifies this
      ensures Parse(c, old(text), id).Err? ==> result == Err(Parse(c, old(text), id).error) && text == old(text)
      ensures Parse(c, old(text), id).Ok? ==>
                var stored := Parse(c, old(text), id).value;
                match SyntheticClosers(stored.events, now)
                case None => result == Ok(None) && text == old(text)
                case Some(closers) =>
                  result == Ok(Some(stored.events + closers)) && text == CommittedText(c, old(text), stored, closers)
    {
      var parsed := ParseStoredLog(c, text, id);
      if parsed.Err? {
        return Err(parsed.error);
      }
      var stored := parsed.value;
      var built := BuildSyntheticClosers(stored.events, now);
      if built.None? {
        return Ok(None);
      }
      var closers := built.value;
      if stored.torn || |closers| > 0 {
        var kept := if stored.validLength <= |text| then text[..stored.validLength] else text;
        JoinedLines(c.events, closers);
        var added := Join(Encoded(c.events, closers), "\n");
        assert kept + (added + (if closers == [] then "" else "\n")) == kept + added + (if |closers| > 0 then "\n" else "");
        text := kept + added + (if |closers| > 0 then "\n" else "");
      }
      return Ok(Some(stored.events + closers));
    }

    /** `append` on the single-file store. */
    method Append(c: LogCodec, id: string, batch: seq<SessionEvent>) returns (result: Result<(), AppendError>)
      modifies this
      ensures var parsed := Parse(c, old(text), id);
              if batch == [] then result == Ok(()) && text == old(text)
              else if parsed.Err? then result == Err(Unreadable(parsed.error)) && text == old(text)
              else
                match FirstMismatch(batch, |parsed.value.events|, 0)
                case Some(at) => result == Err(SequenceMismatch(at)) && text == old(text)
                case None => result == Ok(()) && text == AppendedText(c, old(text), parsed.value, batch)
    {
      if |batch| == 0 {
        return Ok(());
      }
      var parsed := ParseStoredLog(c, text, id);
      if parsed.Err? {
        return Err(Unreadable(parsed.error));
      }
      var current := parsed.value;
      var expected := |current.events|;
      var index := 0;
      while index < |batch|
        invariant 0 <= index <= |batch|
        invariant FirstMismatch(batch, expected, 0) == FirstMismatch(batch, expected, index)
      {
        if batch[index].sequence != expected + index {
          return Err(SequenceMismatch(index));
        }
        index := index + 1;
      }
      JoinedLines(c.events, batch);
      var added := Join(Encoded(c.events, batch), "\n") + "\n";
      text := if |current.events| == 0 then c.encodeHeader(current.meta) + "\n" + added else text + added;
      return Ok(());
    }
  }
}
