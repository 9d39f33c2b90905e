/** The single-file session log: parsing, torn tails, synthetic closing events, and repair. */
module PersistenceJsonl {
  import opened Text
  import opened JsonLines

  const SESSION_FORMAT_VERSION := 0
  const MAX_SAFE_INTEGER := 0x1F_FFFF_FFFF_FFFF

  /** An array of the language holds no more. */
  const MAX_ARRAY_LENGTH := 0xFFFF_FFFF

  predicate IsSafeInteger(n: int)
  {
    -MAX_SAFE_INTEGER <= n <= MAX_SAFE_INTEGER
  }

  type SafeInteger = n: int | IsSafeInteger(n)

  /** The event types the reader knows, and any other by its name. */
  datatype Kind =
    | TurnStart | TurnEnd | StepStart | StepEnd | ToolCall | ToolResult
    | UserMessage | AssistantChunk | AssistantMessage | TodoWrite
    | RequestHeader | RequestContext | EndSeed | InboxSpliced
    | Unknown(name: string)

  predicate IsKnown(kind: Kind)
  {
    !kind.Unknown?
  }

  function TypeName(kind: Kind): string
  {
    match kind
    case TurnStart => "turn/start"
    case TurnEnd => "turn/end"
    case StepStart => "step/start"
    case StepEnd => "step/end"
    case ToolCall => "tool/call"
    case ToolResult => "tool/result"
    case UserMessage => "user/message"
    case AssistantChunk => "assistant/chunk"
    case AssistantMessage => "assistant/message"
    case TodoWrite => "todo/write"
    case RequestHeader => "request/header"
    case RequestContext => "request/context"
    case EndSeed => "session/end-seed"
    case InboxSpliced => "agent/inbox/spliced"
    case Unknown(name) => name
  }

  const KNOWN_KINDS: set<Kind> :=
    {TurnStart, TurnEnd, StepStart, StepEnd, ToolCall, ToolResult, UserMessage, AssistantChunk, AssistantMessage, TodoWrite,
     RequestHeader, RequestContext, EndSeed, InboxSpliced}

  /** A kind stands for its name: one with a name the reader knows is not unknown. */
  predicate IsNamed(kind: Kind)
  {
    kind.Unknown? ==> kind.name != "" && forall known :: known in KNOWN_KINDS ==> TypeName(known) != kind.name
  }

  /** The parts of an event's data that repair looks at: `turn` and `step` when they are safe integers, `callId` and
      the message's `toolCallId` when they are strings, and everything else. */
  datatype Payload =
    | NullData
    | Data(turn: Option<SafeInteger>, step: Option<SafeInteger>, callId: Option<string>, toolCallId: Option<string>, rest: string)

  datatype SessionEvent = SessionEvent(kind: Kind, sequence: int, time: int, data: Payload, ignorable: bool)

  datatype Header = Header(version: int, id: string)

  datatype LogError =
    | EmptyLog
    | UnreadableHeader
    | InvalidHeader
    | IdentityMismatch
    | UnsupportedVersion
    | MalformedEvent
    | InvalidEvent
    | SequenceGap
    | UnknownEventType

  datatype StoredLog = StoredLog(meta: Header, events: seq<SessionEvent>, validLength: nat, torn: bool)

  /** Encoders and decoders of the header line and of the event lines. */
  datatype LogCodec = LogCodec(events: Codec<SessionEvent>, encodeHeader: Header -> string,
                               decodeHeader: string -> Option<Header>)

  predicate IsEventRecord(e: SessionEvent)
  {
    IsNamed(e.kind) && IsSafeInteger(e.sequence) && e.sequence >= 0 && IsSafeInteger(e.time)
  }

  predicate IsSessionHeader(h: Header)
  {
    IsSafeInteger(h.version) && h.version >= 0 && h.id != ""
  }

  ghost predicate LawfulLog(c: LogCodec)
  {
    && Lawful(c.events)
    && (forall e :: IsEventRecord(e) ==> c.events.valid(e))
    && (forall h {:trigger c.encodeHeader(h)} :: IsSessionHeader(h) ==>
          c.decodeHeader(c.encodeHeader(h)) == Some(h) && '\n' !in c.encodeHeader(h) && c.encodeHeader(h) != "")
  }

  predicate Interpretable(e: SessionEvent)
  {
    IsKnown(e.kind) || e.ignorable
  }

  // ----- Parsing -----

  datatype Scan = Scan(events: seq<SessionEvent>, validLength: nat, torn: bool)

  /** Scans the remaining event lines. Only the last line may be malformed. */
  function ScanLines(c: Codec<SessionEvent>, lines: seq<string>, events: seq<SessionEvent>, validLength: nat)
    : Result<Scan, LogError>
    decreases |lines|
  {
    if lines == [] then Ok(Scan(events, validLength, false))
    else
      match c.decode(lines[0])
      case Malformed => if |lines| == 1 then Ok(Scan(events, validLength, true)) else Err(MalformedEvent)
      case NotAnEvent => Err(InvalidEvent)
      case Event(e) =>
        if !IsEventRecord(e) then Err(InvalidEvent)
        else if e.sequence != |events| then Err(SequenceGap)
        else if !Interpretable(e) then Err(UnknownEventType)
        else ScanLines(c, lines[1..], events + [e], validLength + |lines[0]| + 1)
  }

  function Parse(c: LogCodec, text: string, id: string): Result<StoredLog, LogError>
  {
    var lines := LinesOf(text);
    if lines == [] then Err(EmptyLog)
    else
      match c.decodeHeader(lines[0])
      case None => Err(UnreadableHeader)
      case Some(meta) =>
        if !IsSessionHeader(meta) then Err(InvalidHeader)
        else if meta.id != id then Err(IdentityMismatch)
        else if meta.version != SESSION_FORMAT_VERSION then Err(UnsupportedVersion)
        else
          match ScanLines(c.events, lines[1..], [], |lines[0]| + 1)
          case Err(error) => Err(error)
          case Ok(scan) => Ok(StoredLog(meta, scan.events, scan.validLength, scan.torn))
  }

  method ParseStoredLog(c: LogCodec, text: string, id: string) returns (result: Result<StoredLog, LogError>)
    ensures result == Parse(c, text, id)
  {
    hide IsSessionHeader, IsEventRecord, Split;
    var lines := Split(text, '\n');
    if lines[|lines| - 1] == "" {
      lines := lines[..|lines| - 1];
    }
    if |lines| == 0 {
      return Err(EmptyLog);
    }
    var header := c.decodeHeader(lines[0]);
    if header.None? {
      return Err(UnreadableHeader);
    }
    var meta := header.value;
    if !IsSessionHeader(meta) {
      return Err(InvalidHeader);
    }
    if meta.id != id {
      return Err(IdentityMismatch);
    }
    if meta.version != SESSION_FORMAT_VERSION {
      return Err(UnsupportedVersion);
    }
    var events: seq<SessionEvent> := [];
    var validLength: nat := |lines[0]| + 1;
    var torn := false;
    var index := 1;
    ghost var whole := ScanLines(c.events, lines[1..], [], validLength);
    while index < |lines|
      invariant 1 <= index <= |lines|
      invariant whole == ScanLines(c.events, lines[index..], events, validLength)
    {
      var line := lines[index];
      assert lines[index..][0] == line && lines[index..][1..] == lines[index + 1..];
      var parsed := c.events.decode(line);
      if parsed.Malformed? {
        if index == |lines| - 1 {
          return Ok(StoredLog(meta, events, validLength, true));
        }
        return Err(MalformedEvent);
      }
      if parsed.NotAnEvent? || !IsEventRecord(parsed.event) {
        return Err(InvalidEvent);
      }
      var event := parsed.event;
      if event.sequence != |events| {
        return Err(SequenceGap);
      }
      if !IsKnown(event.kind) && !event.ignorable {
        return Err(UnknownEventType);
      }
      events := events + [event];
      validLength := validLength + |line + "\n"|;
      index := index + 1;
    }
    return Ok(StoredLog(meta, events, validLength, torn));
  }

  // ----- Interrupted state -----

  datatype OpenStep = OpenStep(turn: SafeInteger, step: SafeInteger)
  datatype OpenCall = OpenCall(callId: string, turn: SafeInteger, step: SafeInteger)

  /** Turns, steps and tool calls that were started and not ended, oldest first. */
  datatype Interrupted = Interrupted(turns: seq<SafeInteger>, steps: seq<OpenStep>, toolCalls: seq<OpenCall>)

  const NOTHING_OPEN := Interrupted([], [], [])

  /** Index of the last entry that satisfies the predicate, or -1. */
  function FindLastIndex<T>(entries: seq<T>, predicateOf: T -> bool): (index: int)
    ensures -1 <= index < |entries|
  {
    if entries == [] then -1
    else if predicateOf(entries[|entries| - 1]) then |entries| - 1
    else FindLastIndex(entries[..|entries| - 1], predicateOf)
  }

  function RemoveAt<T>(entries: seq<T>, index: int): seq<T>
    requires -1 <= index < |entries|
  {
    if index < 0 then entries else entries[..index] + entries[index + 1..]
  }

  function IsTurn(turn: SafeInteger): SafeInteger -> bool
  {
    (t: SafeInteger) => t == turn
  }

  function IsStep(turn: SafeInteger, step: SafeInteger): OpenStep -> bool
  {
    (s: OpenStep) => s.turn == turn && s.step == step
  }

  function IsCall(callId: string): OpenCall -> bool
  {
    (call: OpenCall) => call.callId == callId
  }

  predicate ReadsData(kind: Kind)
  {
    kind.TurnStart? || kind.TurnEnd? || kind.StepStart? || kind.StepEnd? || kind.ToolCall? || kind.ToolResult?
  }

  /** Effect of one event; `None` stands for the type error of reading a field of `null`. */
  function Track(open: Interrupted, e: SessionEvent): Option<Interrupted>
  {
    if e.data.NullData? then if ReadsData(e.kind) then None else Some(open)
    else
      var d := e.data;
      Some(
        if e.kind == TurnStart && d.turn.Some? then open.(turns := open.turns + [d.turn.value])
        else if e.kind == TurnEnd && d.turn.Some? then
          open.(turns := RemoveAt(open.turns, FindLastIndex(open.turns, IsTurn(d.turn.value))))
        else if e.kind == StepStart && d.turn.Some? && d.step.Some? then
          open.(steps := open.steps + [OpenStep(d.turn.value, d.step.value)])
        else if e.kind == StepEnd && d.turn.Some? && d.step.Some? then
          open.(steps := RemoveAt(open.steps,
                  FindLastIndex(open.steps, IsStep(d.turn.value, d.step.value))))
        else if e.kind == ToolCall && d.callId.Some? then
          open.(toolCalls := open.toolCalls + [OpenCall(d.callId.value, OrZero(d.turn), OrZero(d.step))])
        else if e.kind == ToolResult && d.toolCallId.Some? then
          open.(toolCalls := RemoveAt(open.toolCalls,
                  FindLastIndex(open.toolCalls, IsCall(d.toolCallId.value))))
        else open)
  }

  function OrZero(n: Option<SafeInteger>): SafeInteger
  {
    if n.Some? then n.value else 0
  }

  function TrackAll(open: Interrupted, events: seq<SessionEvent>): Option<Interrupted>
  {
    if events == [] then Some(open)
    else
      match TrackAll(open, events[..|events| - 1])
      case None => None
      case Some(o) => Track(o, events[|events| - 1])
  }

  method InterruptedState(events: seq<SessionEvent>) returns (result: Option<Interrupted>)
    ensures result == TrackAll(NOTHING_OPEN, events)
  {
    var turns: seq<SafeInteger>, steps: seq<OpenStep>, toolCalls: seq<OpenCall> := [], [], [];
    var i := 0;
    while i < |events|
      invariant 0 <= i <= |events|
      invariant TrackAll(NOTHING_OPEN, events[..i]) == Some(Interrupted(turns, steps, toolCalls))
    {
      var event := events[i];
      assert events[..i + 1][..i] == events[..i];
      var data := event.data;
      i := i + 1;
      if data.NullData? {
        if ReadsData(event.kind) {
          TypeErrorIsFinal(events, i);
          return None;
        }
        continue;
      }
      if event.kind == TurnStart && data.turn.Some? {
        turns := turns + [data.turn.value];
      } else if event.kind == TurnEnd && data.turn.Some? {
        turns := RemoveAt(turns, FindLastIndex(turns, IsTurn(data.turn.value)));
      } else if event.kind == StepStart && data.turn.Some? && data.step.Some? {
        steps := steps + [OpenStep(data.turn.value, data.step.value)];
      } else if event.kind == StepEnd && data.turn.Some? && data.step.Some? {
        steps := RemoveAt(steps,
          FindLastIndex(steps, IsStep(data.turn.value, data.step.value)));
      } else if event.kind == ToolCall && data.callId.Some? {
        toolCalls := toolCalls + [OpenCall(data.callId.value, OrZero(data.turn), OrZero(data.step))];
      } else if event.kind == ToolResult && data.toolCallId.Some? {
        toolCalls := RemoveAt(toolCalls,
          FindLastIndex(toolCalls, IsCall(data.toolCallId.value)));
      }
    }
    assert events[..i] == events;
    return Some(Interrupted(turns, steps, toolCalls));
  }

  lemma {:induction false} TypeErrorIsFinal(events: seq<SessionEvent>, i: nat)
    requires i <= |events| && TrackAll(NOTHING_OPEN, events[..i]) == None
    ensures TrackAll(NOTHING_OPEN, events) == None
    decreases |events| - i
  {
    if i < |events| {
      assert events[..i + 1][..i] == events[..i];
      TypeErrorIsFinal(events, i + 1);
    } else {
      assert events[..i] == events;
    }
  }

  // ----- Synthetic closers -----

  const OUTCOME_UNKNOWN := "TOOL_OUTCOME_UNKNOWN"
  const INTERRUPTED_REASON := "interrupted"

  function CallCloser(call: OpenCall, sequence: int, now: SafeInteger): SessionEvent
  {
    SessionEvent(ToolResult, sequence, now,
                 Data(Some(call.turn), Some(call.step), None, Some(call.callId), OUTCOME_UNKNOWN), false)
  }

  function StepCloser(open: OpenStep, sequence: int, now: SafeInteger): SessionEvent
  {
    SessionEvent(StepEnd, sequence, now, Data(Some(open.turn), Some(open.step), None, None, ""), false)
  }

  function TurnCloser(turn: SafeInteger, sequence: int, now: SafeInteger): SessionEvent
  {
    SessionEvent(TurnEnd, sequence, now, Data(Some(turn), None, None, None, INTERRUPTED_REASON), false)
  }

  function CloseCall(now: SafeInteger): (OpenCall, int) -> SessionEvent
  {
    (call: OpenCall, n: int) => CallCloser(call, n, now)
  }

  function CloseStep(now: SafeInteger): (OpenStep, int) -> SessionEvent
  {
    (s: OpenStep, n: int) => StepCloser(s, n, now)
  }

  function CloseTurn(now: SafeInteger): (SafeInteger, int) -> SessionEvent
  {
    (t: SafeInteger, n: int) => TurnCloser(t, n, now)
  }

  /** One closer for every entry, newest first, with consecutive numbers. */
  function CloseReversed<T>(entries: seq<T>, sequence: int, closer: (T, int) -> SessionEvent): seq<SessionEvent>
  {
    if entries == [] then []
    else [closer(entries[|entries| - 1], sequence)] + CloseReversed(entries[..|entries| - 1], sequence + 1, closer)
  }

  function Closers(open: Interrupted, sequence: int, now: SafeInteger): seq<SessionEvent>
  {
    CloseReversed(open.toolCalls, sequence, CloseCall(now))
    + CloseReversed(open.steps, sequence + |open.toolCalls|, CloseStep(now))
    + CloseReversed(open.turns, sequence + |open.toolCalls| + |open.steps|, CloseTurn(now))
  }

  /** `None` when the scan of the events fails. */
  function SyntheticClosers(events: seq<SessionEvent>, now: SafeInteger): Option<seq<SessionEvent>>
  {
    match TrackAll(NOTHING_OPEN, events)
    case None => None
    case Some(open) => Some(Closers(open, |events|, now))
  }

  method BuildReversed<T>(entries: seq<T>, sequence: int, closer: (T, int) -> SessionEvent)
    returns (closers: seq<SessionEvent>, next: int)
    ensures closers == CloseReversed(entries, sequence, closer) && next == sequence + |entries|
  {
    closers, next := [], sequence;
    var left := |entries|;
    assert entries[..left] == entries;
    while left > 0
      invariant 0 <= left <= |entries| && next == sequence + |entries| - left
      invariant CloseReversed(entries, sequence, closer) == closers + CloseReversed(entries[..left], next, closer)
    {
      assert entries[..left][..left - 1] == entries[..left - 1];
      left := left - 1;
      closers, next := closers + [closer(entries[left], next)], next + 1;
    }
  }

  method BuildClosers(open: Interrupted, sequence: int, now: SafeInteger) returns (closers: seq<SessionEvent>)
    ensures closers == Closers(open, sequence, now)
  {
    var calls, n := BuildReversed(open.toolCalls, sequence, CloseCall(now));
    var steps, m := BuildReversed(open.steps, n, CloseStep(now));
    var turns, _ := BuildReversed(open.turns, m, CloseTurn(now));
    closers := calls + steps + turns;
  }

  method BuildSyntheticClosers(events: seq<SessionEvent>, now: SafeInteger) returns (result: Option<seq<SessionEvent>>)
    ensures result == SyntheticClosers(events, now)
  {
    var state := InterruptedState(events);
    if state.None? {
      return None;
    }
    var closers := BuildClosers(state.value, |events|, now);
    return Some(closers);
  }

  predicate IsBalanced(events: seq<SessionEvent>)
  {
    TrackAll(NOTHING_OPEN, events) == Some(NOTHING_OPEN)
  }

  lemma {:induction false} TrackAppend(open: Interrupted, a: seq<SessionEvent>, b: seq<SessionEvent>)
    requires TrackAll(open, a).Some?
    ensures TrackAll(open, a + b) == TrackAll(TrackAll(open, a).value, b)
  {
    if b == [] {
      assert a + b == a;
    } else {
      TrackAppend(open, a, b[..|b| - 1]);
      assert (a + b)[..|a + b| - 1] == a + b[..|b| - 1];
    }
  }

  lemma TrackFirst(open: Interrupted, e: SessionEvent, rest: seq<SessionEvent>)
    requires Track(open, e).Some?
    ensures TrackAll(open, [e] + rest) == TrackAll(Track(open, e).value, rest)
  {
    assert [e][..0] == [];
    assert TrackAll(open, [e]) == Track(open, e);
    TrackAppend(open, [e], rest);
  }

  lemma LastMatchIsRemoved<T>(entries: seq<T>, predicateOf: T -> bool)
    requires entries != [] && predicateOf(entries[|entries| - 1])
    ensures RemoveAt(entries, FindLastIndex(entries, predicateOf)) == entries[..|entries| - 1]
  {
  }

  lemma {:induction false} CallsClose(turns: seq<SafeInteger>, steps: seq<OpenStep>, calls: seq<OpenCall>, sequence: int, now: SafeInteger)
    ensures TrackAll(Interrupted(turns, steps, calls),
                     CloseReversed(calls, sequence, CloseCall(now)))
         == Some(Interrupted(turns, steps, []))
    decreases |calls|
  {
    if calls != [] {
      var last := calls[|calls| - 1];
      var e := CallCloser(last, sequence, now);
      var open := Interrupted(turns, steps, calls);
      LastMatchIsRemoved(calls, IsCall(last.callId));
      assert Track(open, e) == Some(Interrupted(turns, steps, calls[..|calls| - 1]));
      CallsClose(turns, steps, calls[..|calls| - 1], sequence + 1, now);
      TrackFirst(open, e, CloseReversed(calls[..|calls| - 1], sequence + 1, CloseCall(now)));
    }
  }

  lemma {:induction false} StepsClose(turns: seq<SafeInteger>, steps: seq<OpenStep>, sequence: int, now: SafeInteger)
    ensures TrackAll(Interrupted(turns, steps, []),
                     CloseReversed(steps, sequence, CloseStep(now)))
         == Some(Interrupted(turns, [], []))
    decreases |steps|
  {
    if steps != [] {
      var last := steps[|steps| - 1];
      var e := StepCloser(last, sequence, now);
      var open := Interrupted(turns, steps, []);
      LastMatchIsRemoved(steps, IsStep(last.turn, last.step));
      assert Track(open, e) == Some(Interrupted(turns, steps[..|steps| - 1], []));
      StepsClose(turns, steps[..|steps| - 1], sequence + 1, now);
      TrackFirst(open, e, CloseReversed(steps[..|steps| - 1], sequence + 1, CloseStep(now)));
    }
  }

  lemma {:induction false} TurnsClose(turns: seq<SafeInteger>, sequence: int, now: SafeInteger)
    ensures TrackAll(Interrupted(turns, [], []),
                     CloseReversed(turns, sequence, CloseTurn(now)))
         == Some(NOTHING_OPEN)
    decreases |turns|
  {
    if turns != [] {
      var last := turns[|turns| - 1];
      var e := TurnCloser(last, sequence, now);
      var open := Interrupted(turns, [], []);
      LastMatchIsRemoved(turns, IsTurn(last));
      assert Track(open, e) == Some(Interrupted(turns[..|turns| - 1], [], []));
      TurnsClose(turns[..|turns| - 1], sequence + 1, now);
      TrackFirst(open, e, CloseReversed(turns[..|turns| - 1], sequence + 1, CloseTurn(now)));
    }
  }

  /** Numbers run on, and every closer is an event this reader accepts. */
  ghost predicate Contiguous(events: seq<SessionEvent>, from: int)
  {
    forall i :: 0 <= i < |events| ==> events[i].sequence == from + i
  }

  ghost predicate Storable(events: seq<SessionEvent>)
  {
    forall i :: 0 <= i < |events| ==> IsEventRecord(events[i]) && Interpretable(events[i])
  }

  lemma {:induction false} ReversedAreContiguous<T(!new)>(entries: seq<T>, sequence: int, closer: (T, int) -> SessionEvent)
    requires sequence >= 0
    requires forall t: T, n :: closer(t, n).sequence == n && IsKnown(closer(t, n).kind) && IsSafeInteger(closer(t, n).time)
    ensures |CloseReversed(entries, sequence, closer)| == |entries|
    ensures Contiguous(CloseReversed(entries, sequence, closer), sequence)
    ensures sequence + |entries| <= MAX_SAFE_INTEGER ==> Storable(CloseReversed(entries, sequence, closer))
    decreases |entries|
  {
    if entries != [] {
      ReversedAreContiguous(entries[..|entries| - 1], sequence + 1, closer);
    }
  }

  function OpenCount(open: Interrupted): nat
  {
    |open.turns| + |open.steps| + |open.toolCalls|
  }

  /** Every event opens at most one thing. */
  lemma {:induction false} OpenIsBounded(events: seq<SessionEvent>)
    requires TrackAll(NOTHING_OPEN, events).Some?
    ensures OpenCount(TrackAll(NOTHING_OPEN, events).value) <= |events|
  {
    if events != [] {
      OpenIsBounded(events[..|events| - 1]);
    }
  }

  /** A log followed by its synthetic closers is balanced and needs no further closers; the closers continue its
      numbering, and there is one for every open turn, step and call. Those of any log that fits an array can be stored. */
  lemma ClosersBalanceTheLog(events: seq<SessionEvent>, now: SafeInteger)
    requires SyntheticClosers(events, now).Some?
    ensures var closers := SyntheticClosers(events, now).value;
            && IsBalanced(events + closers)
            && SyntheticClosers(events + closers, now) == Some([])
            && Contiguous(closers, |events|) && (|events| <= MAX_ARRAY_LENGTH ==> Storable(closers))
            && |closers| == OpenCount(TrackAll(NOTHING_OPEN, events).value)
            && (closers == [] <==> IsBalanced(events))
  {
    var open := TrackAll(NOTHING_OPEN, events).value;
    var closers := Closers(open, |events|, now);
    OpenIsBounded(events);
    ClosersCloseEverything(open, |events|, now);
    ClosersAreNumbered(open, |events|, now);
    TrackAppend(NOTHING_OPEN, events, closers);
    assert Closers(NOTHING_OPEN, |events + closers|, now) == [];
    if closers == [] {
      assert events + closers == events;
    }
  }

  lemma TrackThree(o: Interrupted, a: seq<SessionEvent>, o1: Interrupted, b: seq<SessionEvent>, o2: Interrupted,
                   c: seq<SessionEvent>, o3: Interrupted)
    requires TrackAll(o, a) == Some(o1) && TrackAll(o1, b) == Some(o2) && TrackAll(o2, c) == Some(o3)
    ensures TrackAll(o, a + b + c) == Some(o3)
  {
    TrackAppend(o, a, b);
    TrackAppend(o, a + b, c);
  }

  lemma ClosersCloseEverything(open: Interrupted, n: nat, now: SafeInteger)
    ensures TrackAll(open, Closers(open, n, now)) == Some(NOTHING_OPEN)
  {
    hide TrackAll, CloseReversed;
    var m := n + |open.toolCalls|;
    var k := m + |open.steps|;
    CallsClose(open.turns, open.steps, open.toolCalls, n, now);
    StepsClose(open.turns, open.steps, m, now);
    TurnsClose(open.turns, k, now);
    TrackThree(open, CloseReversed(open.toolCalls, n, CloseCall(now)), open.(toolCalls := []),
               CloseReversed(open.steps, m, CloseStep(now)), Interrupted(open.turns, [], []),
               CloseReversed(open.turns, k, CloseTurn(now)), NOTHING_OPEN);
  }

  lemma ClosersAreNumbered(open: Interrupted, n: nat, now: SafeInteger)
    ensures Contiguous(Closers(open, n, now), n)
    ensures n + OpenCount(open) <= MAX_SAFE_INTEGER ==> Storable(Closers(open, n, now))
    ensures |Closers(open, n, now)| == OpenCount(open)
  {
    var m := n + |open.toolCalls|;
    var k := m + |open.steps|;
    ReversedAreContiguous(open.toolCalls, n, CloseCall(now));
    ReversedAreContiguous(open.steps, m, CloseStep(now));
    ReversedAreContiguous(open.turns, k, CloseTurn(now));
    ThreeRunsAreContiguous(CloseReversed(open.toolCalls, n, CloseCall(now)),
                           CloseReversed(open.steps, m, CloseStep(now)),
                           CloseReversed(open.turns, k, CloseTurn(now)), n);
  }

  lemma ThreeRunsAreContiguous(a: seq<SessionEvent>, b: seq<SessionEvent>, c: seq<SessionEvent>, from: int)
    requires Contiguous(a, from) && Contiguous(b, from + |a|) && Contiguous(c, from + |a| + |b|)
    ensures Contiguous(a + b + c, from)
    ensures Storable(a) && Storable(b) && Storable(c) ==> Storable(a + b + c)
  {
  }
}
