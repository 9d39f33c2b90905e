/** What an interrupted log leaves open, told from its events alone. */
module LogBalance {
  import opened Text
  import opened PersistenceJsonl

  /** What an event can start or end. A call is known by its id alone. */
  datatype Thing = TheTurn(turn: SafeInteger) | TheStep(turn: SafeInteger, step: SafeInteger) | TheCall(callId: string)

  function Started(e: SessionEvent): Option<Thing>
  {
    match e
    case SessionEvent(TurnStart, _, _, Data(Some(turn), _, _, _, _), _) => Some(TheTurn(turn))
    case SessionEvent(StepStart, _, _, Data(Some(turn), Some(step), _, _, _), _) => Some(TheStep(turn, step))
    case SessionEvent(ToolCall, _, _, Data(_, _, Some(callId), _, _), _) => Some(TheCall(callId))
    case _ => None
  }

  function Ended(e: SessionEvent): Option<Thing>
  {
    match e
    case SessionEvent(TurnEnd, _, _, Data(Some(turn), _, _, _, _), _) => Some(TheTurn(turn))
    case SessionEvent(StepEnd, _, _, Data(Some(turn), Some(step), _, _, _), _) => Some(TheStep(turn, step))
    case SessionEvent(ToolResult, _, _, Data(_, _, _, Some(toolCallId), _), _) => Some(TheCall(toolCallId))
    case _ => None
  }

  /** The data of an event that starts or ends something is `null`. */
  predicate IsUnreadable(e: SessionEvent)
  {
    e.data.NullData? && e.kind in {TurnStart, TurnEnd, StepStart, StepEnd, ToolCall, ToolResult}
  }

  function Change(e: SessionEvent, x: Thing): int
  {
    (if Started(e) == Some(x) then 1 else 0) - (if Ended(e) == Some(x) then 1 else 0)
  }

  /** Starts minus ends. */
  function Net(events: seq<SessionEvent>, x: Thing): int
  {
    if events == [] then 0 else Net(events[..|events| - 1], x) + Change(events[|events| - 1], x)
  }

  lemma {:induction false} NetAppend(a: seq<SessionEvent>, b: seq<SessionEvent>, x: Thing)
    ensures Net(a + b, x) == Net(a, x) + Net(b, x)
    decreases |b|
  {
    if b == [] {
      assert a + b == a;
    } else {
      assert (a + b)[..|a + b| - 1] == a + b[..|b| - 1];
      NetAppend(a, b[..|b| - 1], x);
    }
  }

  /** The ends from `i` on are taken from the net before it. */
  lemma NetSplit(events: seq<SessionEvent>, i: nat, j: nat, x: Thing)
    requires i <= j <= |events|
    ensures Net(events[i..], x) == Net(events[i..j], x) + Net(events[j..], x)
  {
    assert events[i..] == events[i..j] + events[j..];
    NetAppend(events[i..j], events[j..], x);
  }

  lemma NetOne(e: SessionEvent, x: Thing)
    ensures Net([e], x) == Change(e, x)
  {
    assert [e][..0] == [];
  }

  lemma NetNext(events: seq<SessionEvent>, i: nat, x: Thing)
    requires i < |events|
    ensures Net(events[i..], x) == Change(events[i], x) + Net(events[i + 1..], x)
  {
    NetSplit(events, i, i + 1, x);
    assert events[i..i + 1] == [events[i]];
    NetOne(events[i], x);
  }

  // ----- How often a thing is open -----

  function CallIds(calls: seq<OpenCall>): (ids: seq<string>)
    ensures |ids| == |calls| && forall i :: 0 <= i < |calls| ==> ids[i] == calls[i].callId
  {
    seq(|calls|, i requires 0 <= i < |calls| => calls[i].callId)
  }

  function TimesOpen(open: Interrupted, x: Thing): nat
  {
    match x
    case TheTurn(turn) => multiset(open.turns)[turn]
    case TheStep(turn, step) => multiset(open.steps)[OpenStep(turn, step)]
    case TheCall(callId) => multiset(CallIds(open.toolCalls))[callId]
  }

  /** `n` is the most starts over ends that any part of the log up to its end has, the empty part included. */
  ghost predicate IsMostNet(events: seq<SessionEvent>, x: Thing, n: int)
  {
    && (forall k :: 0 <= k <= |events| ==> Net(events[k..], x) <= n)
    && (exists k :: 0 <= k <= |events| && Net(events[k..], x) == n)
  }

  lemma MostNetNext(events: seq<SessionEvent>, e: SessionEvent, x: Thing, n: nat)
    requires IsMostNet(events, x, n)
    ensures IsMostNet(events + [e], x, Shifted(n, Change(e, x)))
  {
    hide Change;
    var all, m := events + [e], Shifted(n, Change(e, x));
    forall k | 0 <= k <= |events|
      ensures Net(all[k..], x) == Net(events[k..], x) + Change(e, x)
    {
      assert all[k..] == events[k..] + [e];
      NetAppend(events[k..], [e], x);
      NetOne(e, x);
    }
    assert all[|all|..] == [] && Net(all[|all|..], x) == 0;
    var k :| 0 <= k <= |events| && Net(events[k..], x) == n;
    assert Net(all[k..], x) == m || Net(all[|all|..], x) == m;
  }

  lemma {:induction false} FoundOrNone<T>(entries: seq<T>, predicateOf: T -> bool)
    ensures var i := FindLastIndex(entries, predicateOf);
            if i < 0 then forall k :: 0 <= k < |entries| ==> !predicateOf(entries[k]) else predicateOf(entries[i])
  {
    if entries != [] && !predicateOf(entries[|entries| - 1]) {
      FoundOrNone(entries[..|entries| - 1], predicateOf);
    }
  }

  /** Taking out the last entry equal to `x`: one less of it, if there was one. */
  lemma LastIsTakenOut<T(!new)>(entries: seq<T>, isX: T -> bool, x: T)
    requires forall t :: isX(t) <==> t == x
    ensures multiset(RemoveAt(entries, FindLastIndex(entries, isX))) == multiset(entries) - multiset{x}
  {
    hide FindLastIndex;
    FoundOrNone(entries, isX);
    var i := FindLastIndex(entries, isX);
    if i >= 0 {
      OneIsTakenOut(entries, i);
    } else {
      assert forall k :: 0 <= k < |entries| ==> entries[k] != x;
      assert x !in multiset(entries);
    }
  }

  lemma OneIsTakenOut<T>(entries: seq<T>, i: nat)
    requires i < |entries|
    ensures multiset(entries[..i] + entries[i + 1..]) == multiset(entries) - multiset{entries[i]}
  {
    assert entries == entries[..i] + [entries[i]] + entries[i + 1..];
  }

  lemma {:induction false} FoundById(calls: seq<OpenCall>, callId: string)
    ensures FindLastIndex(calls, IsCall(callId)) == FindLastIndex(CallIds(calls), (id: string) => id == callId)
  {
    if calls != [] && calls[|calls| - 1].callId != callId {
      FoundById(calls[..|calls| - 1], callId);
      assert CallIds(calls)[..|calls| - 1] == CallIds(calls[..|calls| - 1]);
    }
  }

  lemma CallIsTakenOut(calls: seq<OpenCall>, callId: string)
    ensures multiset(CallIds(RemoveAt(calls, FindLastIndex(calls, IsCall(callId))))) == multiset(CallIds(calls)) - multiset{callId}
  {
    var i := FindLastIndex(calls, IsCall(callId));
    FoundById(calls, callId);
    LastIsTakenOut(CallIds(calls), (id: string) => id == callId, callId);
    assert CallIds(RemoveAt(calls, i)) == RemoveAt(CallIds(calls), i);
  }

  lemma TurnIsTakenOut(turns: seq<SafeInteger>, turn: SafeInteger)
    ensures multiset(RemoveAt(turns, FindLastIndex(turns, IsTurn(turn)))) == multiset(turns) - multiset{turn}
  {
    LastIsTakenOut(turns, IsTurn(turn), turn);
  }

  lemma StepIsTakenOut(steps: seq<OpenStep>, turn: SafeInteger, step: SafeInteger)
    ensures multiset(RemoveAt(steps, FindLastIndex(steps, IsStep(turn, step)))) == multiset(steps) - multiset{OpenStep(turn, step)}
  {
    LastIsTakenOut(steps, IsStep(turn, step), OpenStep(turn, step));
  }

  lemma TurnsChange(open: Interrupted, e: SessionEvent, turn: SafeInteger)
    requires Track(open, e).Some?
    ensures TimesOpen(Track(open, e).value, TheTurn(turn)) == Shifted(TimesOpen(open, TheTurn(turn)), Change(e, TheTurn(turn)))
  {
    hide RemoveAt, FindLastIndex, CallIds, IsTurn, IsStep, IsCall;
    if e.kind == TurnEnd && e.data.Data? && e.data.turn.Some? {
      TurnIsTakenOut(open.turns, e.data.turn.value);
    }
  }

  lemma StepsChange(open: Interrupted, e: SessionEvent, turn: SafeInteger, step: SafeInteger)
    requires Track(open, e).Some?
    ensures var x := TheStep(turn, step); TimesOpen(Track(open, e).value, x) == Shifted(TimesOpen(open, x), Change(e, x))
  {
    hide RemoveAt, FindLastIndex, CallIds, IsTurn, IsStep, IsCall;
    if e.kind == StepEnd && e.data.Data? && e.data.turn.Some? && e.data.step.Some? {
      StepIsTakenOut(open.steps, e.data.turn.value, e.data.step.value);
    }
  }

  lemma CallsTracked(open: Interrupted, e: SessionEvent)
    requires Track(open, e).Some?
    ensures Track(open, e).value.toolCalls
         == if e.kind == ToolResult && e.data.Data? && e.data.toolCallId.Some?
            then RemoveAt(open.toolCalls, FindLastIndex(open.toolCalls, IsCall(e.data.toolCallId.value)))
            else if e.kind == ToolCall && e.data.Data? && e.data.callId.Some?
            then open.toolCalls + [OpenCall(e.data.callId.value, OrZero(e.data.turn), OrZero(e.data.step))]
            else open.toolCalls
  {
  }

  lemma CallsChange(open: Interrupted, e: SessionEvent, callId: string)
    requires Track(open, e).Some?
    ensures TimesOpen(Track(open, e).value, TheCall(callId)) == Shifted(TimesOpen(open, TheCall(callId)), Change(e, TheCall(callId)))
  {
    hide RemoveAt, FindLastIndex, CallIds, IsTurn, IsStep, IsCall, Track, Change;
    CallsTracked(open, e);
    ChangeOfCall(e, callId);
    if e.kind == ToolResult && e.data.Data? && e.data.toolCallId.Some? {
      CallIsTakenOut(open.toolCalls, e.data.toolCallId.value);
    } else if e.kind == ToolCall && e.data.Data? && e.data.callId.Some? {
      OneMoreCallId(open.toolCalls, OpenCall(e.data.callId.value, OrZero(e.data.turn), OrZero(e.data.step)));
    }
  }

  lemma ChangeOfCall(e: SessionEvent, callId: string)
    ensures Change(e, TheCall(callId))
         == if e.kind == ToolResult && e.data.Data? && e.data.toolCallId == Some(callId) then -1
            else if e.kind == ToolCall && e.data.Data? && e.data.callId == Some(callId) then 1
            else 0
  {
  }

  lemma OneMoreCallId(calls: seq<OpenCall>, call: OpenCall)
    ensures CallIds(calls + [call]) == CallIds(calls) + [call.callId]
  {
  }

  function Shifted(n: nat, change: int): nat
  {
    if n + change > 0 then n + change else 0
  }

  /** One event changes how often a thing is open by what it starts and ends, but not below nothing. */
  lemma TrackChanges(open: Interrupted, e: SessionEvent, x: Thing)
    requires Track(open, e).Some?
    ensures TimesOpen(Track(open, e).value, x) == Shifted(TimesOpen(open, x), Change(e, x))
  {
    hide *;
    match x {
      case TheTurn(turn) => TurnsChange(open, e, turn);
      case TheStep(turn, step) => StepsChange(open, e, turn, step);
      case TheCall(callId) => CallsChange(open, e, callId);
    }
  }

  lemma TrackFails(open: Interrupted, e: SessionEvent)
    ensures Track(open, e).None? <==> IsUnreadable(e)
  {
  }

  /** How often a turn, a step or a call is open in a log is the most starts over ends that any part of the log up to its
      end has. The scan fails exactly when it meets an event it cannot read. */
  lemma {:induction false} OpenIsMostNet(events: seq<SessionEvent>, x: Thing)
    ensures TrackAll(NOTHING_OPEN, events).None? <==> exists i :: 0 <= i < |events| && IsUnreadable(events[i])
    ensures TrackAll(NOTHING_OPEN, events).Some? ==> IsMostNet(events, x, TimesOpen(TrackAll(NOTHING_OPEN, events).value, x))
  {
    hide Track, TimesOpen, IsMostNet, IsUnreadable;
    if events == [] {
      NothingIsMostNet(x);
    } else {
      var front, last := events[..|events| - 1], events[|events| - 1];
      assert events == front + [last];
      OpenIsMostNet(front, x);
      var before := TrackAll(NOTHING_OPEN, front);
      if before.Some? {
        TrackFails(before.value, last);
      }
      if before.Some? && !IsUnreadable(last) {
        TrackChanges(before.value, last, x);
        MostNetNext(front, last, x, TimesOpen(before.value, x));
      }
    }
  }

  lemma NothingIsMostNet(x: Thing)
    ensures TimesOpen(NOTHING_OPEN, x) == 0 && IsMostNet([], x, 0)
  {
    assert Net([][0..], x) == 0;
  }

  // ----- Which entries are open -----

  /** Event `k` starts something whose ends have at no point since caught up with its starts from there. */
  predicate StillOpen(events: seq<SessionEvent>, k: nat)
    requires k < |events|
  {
    Started(events[k]).Some? && forall j :: k < j <= |events| ==> Net(events[k..j], Started(events[k]).value) > 0
  }

  predicate Holds(events: seq<SessionEvent>, k: nat, x: Thing)
    requires k < |events|
  {
    StillOpen(events, k) && Started(events[k]) == Some(x)
  }

  function TurnOf(e: SessionEvent): Option<SafeInteger>
  {
    match Started(e)
    case Some(TheTurn(turn)) => Some(turn)
    case _ => None
  }

  function StepOf(e: SessionEvent): Option<OpenStep>
  {
    match Started(e)
    case Some(TheStep(turn, step)) => Some(OpenStep(turn, step))
    case _ => None
  }

  /** A call keeps the turn and the step it gives, and zero for what it does not give. */
  function CallOf(e: SessionEvent): Option<OpenCall>
  {
    match Started(e)
    case Some(TheCall(callId)) =>
      Some(OpenCall(callId, if e.data.turn.Some? then e.data.turn.value else 0,
                    if e.data.step.Some? then e.data.step.value else 0))
    case _ => None
  }

  /** The entries of those of the first `n` events that are still open, in order. */
  function Entries<T>(events: seq<SessionEvent>, n: nat, entryOf: SessionEvent -> Option<T>): seq<T>
    requires n <= |events|
  {
    if n == 0 then []
    else if StillOpen(events, n - 1) && entryOf(events[n - 1]).Some?
    then Entries(events, n - 1, entryOf) + [entryOf(events[n - 1]).value]
    else Entries(events, n - 1, entryOf)
  }

  /** After one more event, an event is open if it was and its net has not come down to nothing. */
  lemma StillOpenNext(events: seq<SessionEvent>, e: SessionEvent, k: nat)
    requires k < |events|
    ensures (events + [e])[k] == events[k]
    ensures StillOpen(events + [e], k)
       <==> StillOpen(events, k) && Net(events[k..], Started(events[k]).value) + Change(e, Started(events[k]).value) > 0
  {
    hide Net, Change;
    var all := events + [e];
    if Started(events[k]).Some? {
      var x := Started(events[k]).value;
      assert forall j :: k < j <= |events| ==> all[k..j] == events[k..j];
      assert events[k..|events|] == events[k..];
      assert all[k..|all|] == events[k..] + [e];
      NetAppend(events[k..], [e], x);
      NetOne(e, x);
      if StillOpen(events, k) && Net(events[k..], x) + Change(e, x) > 0 {
        forall j | k < j <= |all|
          ensures Net(all[k..j], x) > 0
        {
          assert j == |all| || all[k..j] == events[k..j];
        }
      }
      if StillOpen(all, k) {
        forall j | k < j <= |events|
          ensures Net(events[k..j], x) > 0
        {
          assert Net(all[k..j], x) > 0;
        }
      }
    }
  }

  lemma LastIsOpen(events: seq<SessionEvent>, e: SessionEvent)
    ensures StillOpen(events + [e], |events|) <==> Started(e).Some?
  {
    var all := events + [e];
    assert all[|events|..|all|] == [e];
    if Started(e).Some? {
      NetOne(e, Started(e).value);
    }
  }

  /** Behind the last start that is still open nothing is left over. */
  lemma {:induction false} NothingOpenNothingNet(events: seq<SessionEvent>, n: nat, x: Thing)
    requires n <= |events| && forall k :: n <= k < |events| ==> !Holds(events, k, x)
    ensures forall k :: n <= k <= |events| ==> Net(events[k..], x) <= 0
    decreases |events| - n
  {
    hide Net;
    if n == |events| {
      NetOfNothing(events, x);
    } else {
      NothingOpenNothingNet(events, n + 1, x);
      if Net(events[n..], x) > 0 {
        FirstAheadHolds(events, n, x);
      }
    }
  }

  lemma FirstAheadHolds(events: seq<SessionEvent>, n: nat, x: Thing)
    requires n < |events| && Net(events[n..], x) > 0 && forall j :: n < j <= |events| ==> Net(events[j..], x) <= 0
    ensures Holds(events, n, x)
  {
    hide Net;
    NetNext(events, n, x);
    forall j | n < j <= |events|
      ensures Net(events[n..j], x) > 0
    {
      NetSplit(events, n, j, x);
    }
  }

  lemma NetOfNothing(events: seq<SessionEvent>, x: Thing)
    ensures Net(events[|events|..], x) == 0
  {
  }

  lemma HolderIsAhead(events: seq<SessionEvent>, k: nat, j: nat, x: Thing)
    requires k < j <= |events| && Holds(events, k, x)
    ensures Net(events[k..], x) > Net(events[j..], x)
  {
    hide Net;
    NetSplit(events, k, j, x);
  }

  lemma HolderHasNet(events: seq<SessionEvent>, k: nat, x: Thing)
    requires k < |events| && Holds(events, k, x)
    ensures Net(events[k..], x) > 0
  {
    hide Net;
    assert events[k..|events|] == events[k..];
  }

  /** An event that ends nothing these entries stand for leaves them alone. */
  lemma {:induction false} EntriesStay<T>(events: seq<SessionEvent>, e: SessionEvent, n: nat, entryOf: SessionEvent -> Option<T>)
    requires n <= |events|
    requires forall k :: 0 <= k < n && StillOpen(events, k) && entryOf(events[k]).Some? ==> StillOpen(events + [e], k)
    ensures Entries(events + [e], n, entryOf) == Entries(events, n, entryOf)
  {
    hide StillOpen;
    if n > 0 {
      EntriesStay(events, e, n - 1, entryOf);
      StillOpenNext(events, e, n - 1);
    }
  }

  /** The entries stand for the thing `x`, and `isX` tells which. */
  ghost predicate Tells<T>(events: seq<SessionEvent>, entryOf: SessionEvent -> Option<T>, isX: T -> bool, x: Thing)
  {
    forall k :: 0 <= k < |events| ==>
      if entryOf(events[k]).Some? then isX(entryOf(events[k]).value) <==> Started(events[k]) == Some(x)
      else Started(events[k]) != Some(x)
  }

  /** An end takes out the last entry of what it ends. */
  lemma {:induction false} EndTakesOut<T>(events: seq<SessionEvent>, e: SessionEvent, n: nat, entryOf: SessionEvent -> Option<T>,
                                          isX: T -> bool, x: Thing)
    requires n <= |events| && Ended(e) == Some(x) && Started(e) == None && Tells(events, entryOf, isX, x)
    requires forall k :: n <= k < |events| ==> !Holds(events, k, x)
    ensures var before := Entries(events, n, entryOf);
            Entries(events + [e], n, entryOf) == RemoveAt(before, FindLastIndex(before, isX))
  {
    hide StillOpen, Net;
    if n > 0 {
      var k, after := n - 1, events + [e];
      StillOpenNext(events, e, k);
      if Holds(events, k, x) {
        NothingOpenNothingNet(events, n, x);
        NetNext(events, k, x);
        forall j | 0 <= j < k && StillOpen(events, j) && entryOf(events[j]).Some?
          ensures StillOpen(after, j)
        {
          StillOpenNext(events, e, j);
          if Started(events[j]) == Some(x) {
            HolderIsAhead(events, j, k, x);
            HolderHasNet(events, k, x);
          } else {
            OtherKeepsNet(events, e, j, x);
          }
        }
        EntriesStay(events, e, k, entryOf);
      } else {
        EndTakesOut(events, e, k, entryOf, isX, x);
        if StillOpen(events, k) {
          OtherKeepsNet(events, e, k, x);
          OneMoreBehind(Entries(events, k, entryOf), isX, if entryOf(events[k]).Some? then [entryOf(events[k]).value] else []);
        }
      }
    }
  }

  lemma OtherKeepsNet(events: seq<SessionEvent>, e: SessionEvent, k: nat, x: Thing)
    requires k < |events| && StillOpen(events, k) && Started(events[k]) != Some(x) && Ended(e) == Some(x) && Started(e) == None
    ensures Net(events[k..], Started(events[k]).value) + Change(e, Started(events[k]).value) > 0
  {
    hide Net;
    HolderHasNet(events, k, Started(events[k]).value);
  }

  lemma OneMoreBehind<T>(entries: seq<T>, isX: T -> bool, more: seq<T>)
    requires |more| <= 1 && forall k :: 0 <= k < |more| ==> !isX(more[k])
    ensures RemoveAt(entries + more, FindLastIndex(entries + more, isX))
         == RemoveAt(entries, FindLastIndex(entries, isX)) + more
  {
    if more == [] {
      assert entries + more == entries;
    } else {
      assert (entries + more)[..|entries|] == entries;
    }
  }

  lemma NotStartedStay<T>(events: seq<SessionEvent>, e: SessionEvent, entryOf: SessionEvent -> Option<T>)
    requires Ended(e) == None && (entryOf(e).Some? ==> Started(e).Some?)
    ensures Entries(events + [e], |events| + 1, entryOf)
         == Entries(events, |events|, entryOf) + (if entryOf(e).Some? then [entryOf(e).value] else [])
  {
    hide StillOpen, Net, Started, Ended, Holds;
    forall k | 0 <= k < |events| && StillOpen(events, k)
      ensures StillOpen(events + [e], k)
    {
      NotEndedStaysOpen(events, e, k);
    }
    EntriesStay(events, e, |events|, entryOf);
    LastIsOpen(events, e);
  }

  lemma NotEndedStaysOpen(events: seq<SessionEvent>, e: SessionEvent, k: nat)
    requires k < |events| && StillOpen(events, k) && Ended(e) == None
    ensures StillOpen(events + [e], k)
  {
    hide Net;
    HolderHasNet(events, k, Started(events[k]).value);
    StillOpenNext(events, e, k);
  }

  lemma EndOfOthersStay<T>(events: seq<SessionEvent>, e: SessionEvent, entryOf: SessionEvent -> Option<T>)
    requires Started(e) == None && Ended(e).Some?
    requires forall k :: 0 <= k < |events| && entryOf(events[k]).Some? ==> Started(events[k]) != Ended(e)
    ensures Entries(events + [e], |events| + 1, entryOf) == Entries(events, |events|, entryOf)
  {
    hide StillOpen, Net;
    forall k | 0 <= k < |events| && StillOpen(events, k) && entryOf(events[k]).Some?
      ensures StillOpen(events + [e], k)
    {
      OtherKeepsNet(events, e, k, Ended(e).value);
      StillOpenNext(events, e, k);
    }
    EntriesStay(events, e, |events|, entryOf);
    LastIsOpen(events, e);
  }

  lemma EndOfOne<T>(events: seq<SessionEvent>, e: SessionEvent, entryOf: SessionEvent -> Option<T>, isX: T -> bool)
    requires Started(e) == None && Ended(e).Some? && Tells(events, entryOf, isX, Ended(e).value)
    ensures var before := Entries(events, |events|, entryOf);
            Entries(events + [e], |events| + 1, entryOf) == RemoveAt(before, FindLastIndex(before, isX))
  {
    hide StillOpen, Net;
    EndTakesOut(events, e, |events|, entryOf, isX, Ended(e).value);
    LastIsOpen(events, e);
  }

  function OpenIn(events: seq<SessionEvent>): Interrupted
  {
    Interrupted(Entries(events, |events|, TurnOf), Entries(events, |events|, StepOf), Entries(events, |events|, CallOf))
  }

  lemma TurnsNext(events: seq<SessionEvent>, e: SessionEvent)
    requires !IsUnreadable(e) && Track(OpenIn(events), e).Some?
    ensures OpenIn(events + [e]).turns == Track(OpenIn(events), e).value.turns
  {
    hide Entries, RemoveAt, FindLastIndex;
    if Ended(e).None? {
      NotStartedStay(events, e, TurnOf);
    } else if Ended(e).value.TheTurn? {
      EndOfOne(events, e, TurnOf, IsTurn(Ended(e).value.turn));
    } else {
      EndOfOthersStay(events, e, TurnOf);
    }
  }

  lemma StepsNext(events: seq<SessionEvent>, e: SessionEvent)
    requires !IsUnreadable(e) && Track(OpenIn(events), e).Some?
    ensures OpenIn(events + [e]).steps == Track(OpenIn(events), e).value.steps
  {
    hide Entries, RemoveAt, FindLastIndex;
    if Ended(e).None? {
      NotStartedStay(events, e, StepOf);
    } else if Ended(e).value.TheStep? {
      EndOfOne(events, e, StepOf, IsStep(Ended(e).value.turn, Ended(e).value.step));
    } else {
      EndOfOthersStay(events, e, StepOf);
    }
  }

  lemma CallsNext(events: seq<SessionEvent>, e: SessionEvent)
    requires !IsUnreadable(e) && Track(OpenIn(events), e).Some?
    ensures OpenIn(events + [e]).toolCalls == Track(OpenIn(events), e).value.toolCalls
  {
    hide Entries, RemoveAt, FindLastIndex;
    if Ended(e).None? {
      NotStartedStay(events, e, CallOf);
    } else if Ended(e).value.TheCall? {
      EndOfOne(events, e, CallOf, IsCall(Ended(e).value.callId));
    } else {
      EndOfOthersStay(events, e, CallOf);
    }
  }

  /** Repair finds open exactly what was started and whose ends have at no point caught up with its starts: the entries of
      those events in their order. */
  lemma {:induction false} FindsWhatIsStillOpen(events: seq<SessionEvent>)
    ensures TrackAll(NOTHING_OPEN, events)
         == if exists i :: 0 <= i < |events| && IsUnreadable(events[i]) then None else Some(OpenIn(events))
  {
    hide Track, OpenIn, IsUnreadable;
    if events == [] {
      NothingIsOpenIn();
    } else {
      var front, last := events[..|events| - 1], events[|events| - 1];
      assert events == front + [last];
      FindsWhatIsStillOpen(front);
      if TrackAll(NOTHING_OPEN, front).Some? {
        TrackFails(OpenIn(front), last);
        if !IsUnreadable(last) {
          TurnsNext(front, last);
          StepsNext(front, last);
          CallsNext(front, last);
        }
      }
    }
  }

  lemma NothingIsOpenIn()
    ensures OpenIn([]) == NOTHING_OPEN
  {
  }

  // ----- Balance -----

  /** Balanced: every event can be read, and no part of the log up to its end starts anything more often than it ends it. */
  lemma BalancedExactly(events: seq<SessionEvent>)
    ensures IsBalanced(events)
       <==> (forall i :: 0 <= i < |events| ==> !IsUnreadable(events[i]))
            && (forall k, x :: 0 <= k <= |events| ==> Net(events[k..], x) <= 0)
  {
    hide Net, IsUnreadable, TimesOpen, IsMostNet;
    var found := TrackAll(NOTHING_OPEN, events);
    FindsWhatIsStillOpen(events);
    if IsBalanced(events) {
      forall k, x | 0 <= k <= |events|
        ensures Net(events[k..], x) <= 0
      {
        BalancedHasNoNet(events, k, x);
      }
    } else if found.Some? {
      var x := OneThing(found.value);
      OpenHasNet(events, x);
    }
  }

  lemma BalancedHasNoNet(events: seq<SessionEvent>, k: nat, x: Thing)
    requires IsBalanced(events) && k <= |events|
    ensures Net(events[k..], x) <= 0
  {
    NothingIsMostNet(x);
    OpenIsMostNet(events, x);
  }

  lemma OpenHasNet(events: seq<SessionEvent>, x: Thing)
    requires TrackAll(NOTHING_OPEN, events).Some? && TimesOpen(TrackAll(NOTHING_OPEN, events).value, x) > 0
    ensures exists k :: 0 <= k <= |events| && Net(events[k..], x) > 0
  {
    hide TimesOpen, Net;
    OpenIsMostNet(events, x);
  }

  function OneThing(open: Interrupted): (x: Thing)
    requires open != NOTHING_OPEN
    ensures TimesOpen(open, x) > 0
  {
    if open.turns != [] then TheTurn(open.turns[0])
    else if open.steps != [] then assert open.steps[0] in multiset(open.steps); TheStep(open.steps[0].turn, open.steps[0].step)
    else assert CallIds(open.toolCalls)[0] in multiset(CallIds(open.toolCalls)); TheCall(open.toolCalls[0].callId)
  }

  // ----- Closers -----

  lemma NetFirst(e: SessionEvent, rest: seq<SessionEvent>, x: Thing)
    ensures Net([e] + rest, x) == Change(e, x) + Net(rest, x)
  {
    NetOne(e, x);
    NetAppend([e], rest, x);
  }

  lemma {:induction false} CallsNet(calls: seq<OpenCall>, n: int, now: SafeInteger, x: Thing)
    ensures Net(CloseReversed(calls, n, CloseCall(now)), x) + (if x.TheCall? then multiset(CallIds(calls))[x.callId] else 0) == 0
  {
    if calls != [] {
      var front, last := calls[..|calls| - 1], calls[|calls| - 1];
      assert CallIds(calls) == CallIds(front) + [last.callId];
      CallsNet(front, n + 1, now, x);
      NetFirst(CallCloser(last, n, now), CloseReversed(front, n + 1, CloseCall(now)), x);
    }
  }

  lemma {:induction false} StepsNet(steps: seq<OpenStep>, n: int, now: SafeInteger, x: Thing)
    ensures Net(CloseReversed(steps, n, CloseStep(now)), x)
            + (if x.TheStep? then multiset(steps)[OpenStep(x.turn, x.step)] else 0) == 0
  {
    if steps != [] {
      var front, last := steps[..|steps| - 1], steps[|steps| - 1];
      assert steps == front + [last];
      StepsNet(front, n + 1, now, x);
      NetFirst(StepCloser(last, n, now), CloseReversed(front, n + 1, CloseStep(now)), x);
    }
  }

  lemma {:induction false} TurnsNet(turns: seq<SafeInteger>, n: int, now: SafeInteger, x: Thing)
    ensures Net(CloseReversed(turns, n, CloseTurn(now)), x) + (if x.TheTurn? then multiset(turns)[x.turn] else 0) == 0
  {
    if turns != [] {
      var front, last := turns[..|turns| - 1], turns[|turns| - 1];
      assert turns == front + [last];
      TurnsNet(front, n + 1, now, x);
      NetFirst(TurnCloser(last, n, now), CloseReversed(front, n + 1, CloseTurn(now)), x);
    }
  }

  /** The closers end each turn, step and call exactly as often as it is open. */
  lemma ClosersEndWhatIsOpen(events: seq<SessionEvent>, now: SafeInteger, x: Thing)
    requires SyntheticClosers(events, now).Some?
    ensures IsMostNet(events, x, -Net(SyntheticClosers(events, now).value, x))
  {
    hide IsMostNet, CloseReversed, Net, CallIds;
    var open, n := TrackAll(NOTHING_OPEN, events).value, |events|;
    var m := n + |open.toolCalls|;
    var k := m + |open.steps|;
    OpenIsMostNet(events, x);
    CallsNet(open.toolCalls, n, now, x);
    StepsNet(open.steps, m, now, x);
    TurnsNet(open.turns, k, now, x);
    NetAppend(CloseReversed(open.toolCalls, n, CloseCall(now)), CloseReversed(open.steps, m, CloseStep(now)), x);
    NetAppend(CloseReversed(open.toolCalls, n, CloseCall(now)) + CloseReversed(open.steps, m, CloseStep(now)),
              CloseReversed(open.turns, k, CloseTurn(now)), x);
  }

  /** The closer of the entry: a result of unknown outcome, an end of the step, an end of the turn as interrupted. */
  predicate ClosesCall(e: SessionEvent, call: OpenCall)
  {
    e.kind == ToolResult && e.data == Data(Some(call.turn), Some(call.step), None, Some(call.callId), "TOOL_OUTCOME_UNKNOWN")
  }

  predicate ClosesStep(e: SessionEvent, step: OpenStep)
  {
    e.kind == StepEnd && e.data == Data(Some(step.turn), Some(step.step), None, None, "")
  }

  predicate ClosesTurn(e: SessionEvent, turn: SafeInteger)
  {
    e.kind == TurnEnd && e.data == Data(Some(turn), None, None, None, "interrupted")
  }

  lemma {:induction false} ReversedAt<T>(entries: seq<T>, n: int, closer: (T, int) -> SessionEvent, i: nat)
    requires i < |entries|
    ensures |CloseReversed(entries, n, closer)| == |entries|
    ensures CloseReversed(entries, n, closer)[i] == closer(entries[|entries| - 1 - i], n + i)
  {
    if i > 0 {
      ReversedAt(entries[..|entries| - 1], n + 1, closer, i - 1);
    } else {
      ReversedLength(entries, n, closer);
    }
  }

  lemma {:induction false} ReversedLength<T>(entries: seq<T>, n: int, closer: (T, int) -> SessionEvent)
    ensures |CloseReversed(entries, n, closer)| == |entries|
  {
    if entries != [] {
      ReversedLength(entries[..|entries| - 1], n + 1, closer);
    }
  }

  /** Closer by closer: first the calls that are still open, then the steps, then the turns, each newest first, with the
      numbers behind the log and the time of the repair. There are none exactly when the log holds an unreadable event. */
  lemma ClosersAreWritten(events: seq<SessionEvent>, now: SafeInteger, i: nat)
    ensures SyntheticClosers(events, now).None? <==> exists j :: 0 <= j < |events| && IsUnreadable(events[j])
    ensures SyntheticClosers(events, now).Some? ==>
              var closers, calls, steps, turns :=
                SyntheticClosers(events, now).value, OpenIn(events).toolCalls, OpenIn(events).steps, OpenIn(events).turns;
              && |closers| == |calls| + |steps| + |turns|
              && (i < |closers| ==> closers[i].sequence == |events| + i && closers[i].time == now && !closers[i].ignorable)
              && (i < |calls| ==> ClosesCall(closers[i], calls[|calls| - 1 - i]))
              && (i < |steps| ==> ClosesStep(closers[|calls| + i], steps[|steps| - 1 - i]))
              && (i < |turns| ==> ClosesTurn(closers[|calls| + |steps| + i], turns[|turns| - 1 - i]))
  {
    hide IsUnreadable, OpenIn, Closers, ClosesCall, ClosesStep, ClosesTurn;
    FindsWhatIsStillOpen(events);
    if SyntheticClosers(events, now).Some? {
      ClosersOf(OpenIn(events), |events|, now, i);
    }
  }

  lemma ClosersOf(open: Interrupted, n: nat, now: SafeInteger, i: nat)
    ensures var closers, calls, steps, turns := Closers(open, n, now), open.toolCalls, open.steps, open.turns;
      && |closers| == |calls| + |steps| + |turns|
      && (i < |closers| ==> closers[i].sequence == n + i && closers[i].time == now && !closers[i].ignorable)
      && (i < |calls| ==> ClosesCall(closers[i], calls[|calls| - 1 - i]))
      && (i < |steps| ==> ClosesStep(closers[|calls| + i], steps[|steps| - 1 - i]))
      && (i < |turns| ==> ClosesTurn(closers[|calls| + |steps| + i], turns[|turns| - 1 - i]))
  {
    hide CloseReversed, Storable;
    var m := n + |open.toolCalls|;
    ReversedAll(open.toolCalls, n, CloseCall(now));
    ReversedAll(open.steps, m, CloseStep(now));
    ReversedAll(open.turns, m + |open.steps|, CloseTurn(now));
    ClosersAreNumbered(open, n, now);
  }

  lemma ReversedAll<T>(entries: seq<T>, n: int, closer: (T, int) -> SessionEvent)
    ensures |CloseReversed(entries, n, closer)| == |entries|
    ensures forall i :: 0 <= i < |entries| ==>
              CloseReversed(entries, n, closer)[i] == closer(entries[|entries| - 1 - i], n + i)
  {
    ReversedLength(entries, n, closer);
    forall i | 0 <= i < |entries|
      ensures CloseReversed(entries, n, closer)[i] == closer(entries[|entries| - 1 - i], n + i)
    {
      ReversedAt(entries, n, closer, i);
    }
  }
}
