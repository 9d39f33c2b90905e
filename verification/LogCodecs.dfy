/** The laws asked of the encoding of a session log can be met: an encoding that meets them. */
module LogCodecs {
  import opened Text
  import opened JsonLines
  import opened PersistenceJsonl

  // ----- Fields -----

  /** Every piece followed by the separator. */
  function Terminated(pieces: seq<string>, sep: char): string
  {
    if pieces == [] then "" else pieces[0] + [sep] + Terminated(pieces[1..], sep)
  }

  predicate Free(pieces: seq<string>, sep: char)
  {
    forall i :: 0 <= i < |pieces| ==> sep !in pieces[i]
  }

  lemma {:induction false} TerminatedSplits(pieces: seq<string>, sep: char)
    requires Free(pieces, sep)
    ensures Split(Terminated(pieces, sep), sep) == pieces + [""]
  {
    if pieces != [] {
      TerminatedSplits(pieces[1..], sep);
      SplitFirst(pieces[0], Terminated(pieces[1..], sep), sep);
      assert pieces[0] + [sep] + Terminated(pieces[1..], sep) == Terminated(pieces, sep);
      assert [pieces[0]] + (pieces[1..] + [""]) == pieces + [""];
    }
  }

  lemma TerminatedIsInjective(a: seq<string>, b: seq<string>, sep: char)
    requires Free(a, sep) && Free(b, sep) && Terminated(a, sep) == Terminated(b, sep)
    ensures a == b
  {
    TerminatedSplits(a, sep);
    TerminatedSplits(b, sep);
    assert (a + [""])[..|a|] == a && (b + [""])[..|b|] == b;
  }

  lemma {:induction false} TerminatedIsPlain(pieces: seq<string>, sep: char)
    requires forall i :: 0 <= i < |pieces| ==> IsPlain(pieces[i])
    ensures forall c :: c in Terminated(pieces, sep) ==> IsPlainCharacter(c) || c == sep
  {
    if pieces != [] {
      TerminatedIsPlain(pieces[1..], sep);
    }
  }

  predicate IsPlainCharacter(c: char)
  {
    IsDigit(c) || c == '-' || c == '+' || c == ','
  }

  predicate IsPlain(s: string)
  {
    forall c :: c in s ==> IsPlainCharacter(c)
  }

  function Number(n: int): string
  {
    if n < 0 then "-" + Decimal(-n) else Decimal(n)
  }

  lemma NumberIsInjective(a: int, b: int)
    ensures IsPlain(Number(a)) && (Number(a) == Number(b) ==> a == b)
  {
    assert a < 0 ==> Number(a)[1..] == Decimal(-a);
    assert b < 0 ==> Number(b)[1..] == Decimal(-b);
    if Number(a) == Number(b) {
      assert a < 0 <==> Number(a)[0] == '-';
      if a < 0 {
        DecimalInjective(-a, -b);
      } else {
        DecimalInjective(a, b);
      }
    }
  }

  function Decimals(s: string): seq<string>
  {
    seq(|s|, i requires 0 <= i < |s| => Decimal(s[i] as int))
  }

  function Characters(s: string): string
  {
    Terminated(Decimals(s), ',')
  }

  lemma CharactersAreInjective(a: string, b: string)
    ensures IsPlain(Characters(a)) && (Characters(a) == Characters(b) ==> a == b)
  {
    TerminatedIsPlain(Decimals(a), ',');
    if Characters(a) == Characters(b) {
      TerminatedIsInjective(Decimals(a), Decimals(b), ',');
      assert |a| == |Decimals(a)| == |Decimals(b)| == |b|;
      forall i | 0 <= i < |a|
        ensures a[i] == b[i]
      {
        assert Decimals(a)[i] == Decimals(b)[i];
        DecimalInjective(a[i] as int, b[i] as int);
      }
    }
  }

  function MaybeNumber(n: Option<SafeInteger>): string
  {
    if n.None? then "" else "+" + Number(n.value)
  }

  lemma MaybeNumberIsInjective(a: Option<SafeInteger>, b: Option<SafeInteger>)
    ensures IsPlain(MaybeNumber(a)) && (MaybeNumber(a) == MaybeNumber(b) ==> a == b)
  {
    if a.Some? {
      assert MaybeNumber(a)[1..] == Number(a.value);
      NumberIsInjective(a.value, if b.Some? then b.value else 0);
    }
    assert b.Some? ==> MaybeNumber(b)[1..] == Number(b.value);
  }

  function MaybeCharacters(s: Option<string>): string
  {
    if s.None? then "" else "+" + Characters(s.value)
  }

  lemma MaybeCharactersAreInjective(a: Option<string>, b: Option<string>)
    ensures IsPlain(MaybeCharacters(a)) && (MaybeCharacters(a) == MaybeCharacters(b) ==> a == b)
  {
    if a.Some? {
      assert MaybeCharacters(a)[1..] == Characters(a.value);
      CharactersAreInjective(a.value, if b.Some? then b.value else "");
    }
    assert b.Some? ==> MaybeCharacters(b)[1..] == Characters(b.value);
  }

  // ----- Kinds by name -----

  function KindNamed(name: string): Kind
  {
    if name == "turn/start" then TurnStart
    else if name == "turn/end" then TurnEnd
    else if name == "step/start" then StepStart
    else if name == "step/end" then StepEnd
    else if name == "tool/call" then ToolCall
    else if name == "tool/result" then ToolResult
    else if name == "user/message" then UserMessage
    else if name == "assistant/chunk" then AssistantChunk
    else if name == "assistant/message" then AssistantMessage
    else if name == "todo/write" then TodoWrite
    else if name == "request/header" then RequestHeader
    else if name == "request/context" then RequestContext
    else if name == "session/end-seed" then EndSeed
    else if name == "agent/inbox/spliced" then InboxSpliced
    else Unknown(name)
  }

  lemma NameTellsTheKind(kind: Kind)
    requires IsNamed(kind)
    ensures KindNamed(TypeName(kind)) == kind
  {
    var name := TypeName(kind);
    assert kind.Unknown? ==> forall known :: known in KNOWN_KINDS ==> TypeName(known) != name;
    match kind {
      case Unknown(_) =>
        assert TypeName(TurnStart) != name && TypeName(TurnEnd) != name && TypeName(StepStart) != name;
        assert TypeName(StepEnd) != name && TypeName(ToolCall) != name && TypeName(ToolResult) != name;
        assert TypeName(UserMessage) != name && TypeName(AssistantChunk) != name && TypeName(AssistantMessage) != name;
        assert TypeName(TodoWrite) != name && TypeName(RequestHeader) != name && TypeName(RequestContext) != name;
        assert TypeName(EndSeed) != name && TypeName(InboxSpliced) != name;
      case _ =>
    }
  }

  // ----- Events and headers -----

  function PayloadFields(data: Payload): seq<string>
  {
    match data
    case NullData => []
    case Data(turn, step, callId, toolCallId, rest) =>
      [MaybeNumber(turn), MaybeNumber(step), MaybeCharacters(callId), MaybeCharacters(toolCallId), Characters(rest)]
  }

  function EventFields(e: SessionEvent): seq<string>
  {
    [Characters(TypeName(e.kind)), Number(e.sequence), Number(e.time), if e.ignorable then "1" else "0"] + PayloadFields(e.data)
  }

  lemma PayloadIsInjective(a: Payload, b: Payload)
    ensures forall i :: 0 <= i < |PayloadFields(a)| ==> IsPlain(PayloadFields(a)[i])
    ensures PayloadFields(a) == PayloadFields(b) ==> a == b
  {
    hide MaybeNumber, MaybeCharacters, Characters;
    if a.Data? {
      var other := if b.Data? then b else a;
      MaybeNumberIsInjective(a.turn, other.turn);
      MaybeNumberIsInjective(a.step, other.step);
      MaybeCharactersAreInjective(a.callId, other.callId);
      MaybeCharactersAreInjective(a.toolCallId, other.toolCallId);
      CharactersAreInjective(a.rest, other.rest);
      assert PayloadFields(a)[0] == MaybeNumber(a.turn) && PayloadFields(a)[1] == MaybeNumber(a.step);
      assert PayloadFields(a)[2] == MaybeCharacters(a.callId) && PayloadFields(a)[3] == MaybeCharacters(a.toolCallId);
      assert PayloadFields(a)[4] == Characters(a.rest);
    }
  }

  lemma EventIsInjective(a: SessionEvent, b: SessionEvent)
    requires IsNamed(a.kind) && IsNamed(b.kind)
    ensures forall i :: 0 <= i < |EventFields(a)| ==> IsPlain(EventFields(a)[i])
    ensures EventFields(a) == EventFields(b) ==> a == b
  {
    hide Characters, Number, PayloadFields, TypeName, IsNamed;
    CharactersAreInjective(TypeName(a.kind), TypeName(b.kind));
    NumberIsInjective(a.sequence, b.sequence);
    NumberIsInjective(a.time, b.time);
    PayloadIsInjective(a.data, b.data);
    NameTellsTheKind(a.kind);
    NameTellsTheKind(b.kind);
    var fields, others := EventFields(a), EventFields(b);
    assert fields[4..] == PayloadFields(a.data) && others[4..] == PayloadFields(b.data);
    assert fields[0] == Characters(TypeName(a.kind)) && others[0] == Characters(TypeName(b.kind));
    assert fields[1] == Number(a.sequence) && others[1] == Number(b.sequence);
    assert fields[2] == Number(a.time) && others[2] == Number(b.time);
    assert fields[3] == (if a.ignorable then "1" else "0") && others[3] == if b.ignorable then "1" else "0";
    forall i | 0 <= i < |fields|
      ensures IsPlain(fields[i])
    {
      assert i >= 4 ==> fields[i] == PayloadFields(a.data)[i - 4];
    }
  }

  function HeaderFields(h: Header): seq<string>
  {
    [Number(h.version), Characters(h.id)]
  }

  function Enclosed(fields: seq<string>): string
  {
    "{" + Terminated(fields, ';') + "}"
  }

  lemma EnclosedIsInjective(a: seq<string>, b: seq<string>)
    requires (forall i :: 0 <= i < |a| ==> IsPlain(a[i])) && forall i :: 0 <= i < |b| ==> IsPlain(b[i])
    requires Enclosed(a) == Enclosed(b)
    ensures a == b
  {
    assert Enclosed(a)[1..|Enclosed(a)| - 1] == Terminated(a, ';');
    assert Enclosed(b)[1..|Enclosed(b)| - 1] == Terminated(b, ';');
    TerminatedIsInjective(a, b, ';');
  }

  /** Braces stand at the two ends and nowhere else, and there is no newline. */
  lemma BracesAtTheEnds(fields: seq<string>)
    requires forall i :: 0 <= i < |fields| ==> IsPlain(fields[i])
    ensures var s := Enclosed(fields);
      && |s| >= 2 && s[|s| - 1] == '}' && '\n' !in s
      && (forall i :: 0 < i < |s| ==> s[i] != '{') && (forall i :: 0 <= i < |s| - 1 ==> s[i] != '}')
  {
    TerminatedIsPlain(fields, ';');
    var body := Terminated(fields, ';');
    assert forall i :: 0 <= i < |body| ==> IsPlainCharacter(body[i]) || body[i] == ';';
    assert forall i :: 0 < i < |Enclosed(fields)| - 1 ==> Enclosed(fields)[i] == body[i - 1];
  }

  // ----- The encoding -----

  function EncodeEvent(e: SessionEvent): string
  {
    Enclosed(EventFields(e))
  }

  ghost function DecodeEvent(s: string): Parsed<SessionEvent>
  {
    if e :| IsEventRecord(e) && EncodeEvent(e) == s then Event(e) else Malformed
  }

  function EncodeHeader(h: Header): string
  {
    Enclosed(HeaderFields(h))
  }

  ghost function DecodeHeader(s: string): Option<Header>
  {
    if h :| IsSessionHeader(h) && EncodeHeader(h) == s then Some(h) else None
  }

  ghost function BracketCodec(): LogCodec
  {
    LogCodec(Codec(IsEventRecord, EncodeEvent, DecodeEvent), EncodeHeader, DecodeHeader)
  }

  lemma FieldsArePlain(e: SessionEvent)
    requires IsEventRecord(e)
    ensures forall i :: 0 <= i < |EventFields(e)| ==> IsPlain(EventFields(e)[i])
  {
    EventIsInjective(e, e);
  }

  lemma EventReadsBack(e: SessionEvent)
    requires IsEventRecord(e)
    ensures DecodeEvent(EncodeEvent(e)) == Event(e)
    ensures EncodeEvent(e) != "" && '\n' !in EncodeEvent(e)
  {
    hide EventFields, Enclosed, IsEventRecord;
    FieldsArePlain(e);
    BracesAtTheEnds(EventFields(e));
    forall f | IsEventRecord(f) && EncodeEvent(f) == EncodeEvent(e)
      ensures f == e
    {
      FieldsArePlain(f);
      EnclosedIsInjective(EventFields(e), EventFields(f));
      BothNamed(e, f);
      EventIsInjective(e, f);
    }
  }

  lemma BothNamed(a: SessionEvent, b: SessionEvent)
    requires IsEventRecord(a) && IsEventRecord(b)
    ensures IsNamed(a.kind) && IsNamed(b.kind)
  {
  }

  lemma PrefixIsMalformed(e: SessionEvent, k: nat)
    requires IsEventRecord(e) && k < |EncodeEvent(e)|
    ensures DecodeEvent(EncodeEvent(e)[..k]) == Malformed
  {
    hide EventFields, Enclosed, IsEventRecord;
    FieldsArePlain(e);
    BracesAtTheEnds(EventFields(e));
    forall f | IsEventRecord(f)
      ensures EncodeEvent(f) != EncodeEvent(e)[..k]
    {
      FieldsArePlain(f);
      BracesAtTheEnds(EventFields(f));
      var s := EncodeEvent(f);
      assert s[|s| - 1] == '}';
    }
  }

  lemma PairIsMalformed(e: SessionEvent, f: SessionEvent, k: nat)
    requires IsEventRecord(e) && IsEventRecord(f) && 0 < k <= |EncodeEvent(e)|
    ensures DecodeEvent(EncodeEvent(e)[..k] + EncodeEvent(f)) == Malformed
  {
    hide EventFields, IsEventRecord;
    var both := EncodeEvent(e)[..k] + EncodeEvent(f);
    assert both[k] == EncodeEvent(f)[0] == '{';
    forall g | IsEventRecord(g)
      ensures EncodeEvent(g) != both
    {
      FieldsArePlain(g);
      BracesAtTheEnds(EventFields(g));
    }
  }

  lemma HeaderReadsBack(h: Header)
    requires IsSessionHeader(h)
    ensures DecodeHeader(EncodeHeader(h)) == Some(h) && EncodeHeader(h) != "" && '\n' !in EncodeHeader(h)
  {
    hide Enclosed, Characters, Number;
    NumberIsInjective(h.version, h.version);
    CharactersAreInjective(h.id, h.id);
    BracesAtTheEnds(HeaderFields(h));
    forall other | EncodeHeader(other) == EncodeHeader(h)
      ensures other == h
    {
      NumberIsInjective(other.version, h.version);
      CharactersAreInjective(other.id, h.id);
      EnclosedIsInjective(HeaderFields(other), HeaderFields(h));
      assert HeaderFields(other)[0] == HeaderFields(h)[0] && HeaderFields(other)[1] == HeaderFields(h)[1];
    }
  }

  /** So what is proved of lawful codecs is not said of nothing. */
  lemma BracketCodecIsLawful()
    ensures LawfulLog(BracketCodec())
  {
    hide EncodeEvent, DecodeEvent, EncodeHeader, DecodeHeader, IsEventRecord, IsSessionHeader;
    var c := BracketCodec().events;
    forall e | c.valid(e)
      ensures c.decode(c.encode(e)) == Event(e) && OneLine(c, e)
    {
      EventReadsBack(e);
    }
    forall e, k: nat | c.valid(e) && k < |c.encode(e)|
      ensures c.decode(c.encode(e)[..k]) == Malformed
    {
      PrefixIsMalformed(e, k);
    }
    forall e, f, k: nat | c.valid(e) && c.valid(f) && 0 < k <= |c.encode(e)|
      ensures c.decode(c.encode(e)[..k] + c.encode(f)) == Malformed
    {
      PairIsMalformed(e, f, k);
    }
    forall h | IsSessionHeader(h)
      ensures DecodeHeader(EncodeHeader(h)) == Some(h) && EncodeHeader(h) != "" && '\n' !in EncodeHeader(h)
    {
      HeaderReadsBack(h);
    }
  }
}
