/** Whole runs of the hub: the order of all input, batches beside commands, submissions left behind. */
module TerminalHubRuns {
  import opened Text
  import opened TerminalHub

  // ----- The order of all input -----

  /** What was heard, what is in line and what is held, in this order, is what was taken, in the order it came in. */
  predicate InOrder(h: Hub)
  {
    h.log.heard + Tag(Lined, h.submitted) + Tag(Held, h.input) == h.log.accepted
  }

  /** The listeners were given something ahead of what had come in before it. */
  predicate OutOfOrder(h: Hub)
  {
    exists k :: 0 <= k < |h.log.heard| && k < |h.log.accepted| && h.log.heard[k] != h.log.accepted[k]
  }

  /** Submissions are in line, and the step gives the listeners other input. */
  predicate Overtakes(h: Hub, action: Action)
  {
    match action
    case Input(data) => GoesDirect(h, data) && h.submitted != []
    case FinishBatch(i) => IsPhase(h, i, Active) && h.input != [] && h.submitted != []
    case _ => false
  }

  lemma {:induction false} SubmissionsInOrder(h: Hub, pieces: seq<string>)
    requires InOrder(h) && h.input == []
    ensures InOrder(EnqueueSubmissions(h, pieces).0) && EnqueueSubmissions(h, pieces).0.input == []
    decreases |pieces|
  {
    hide ByteLength;
    if pieces != [] {
      var front, piece := pieces[..|pieces| - 1], pieces[|pieces| - 1];
      SubmissionsInOrder(h, front);
      var e := EnqueueSubmissions(h, front).0;
      var line := h.log.heard + Tag(Lined, e.submitted);
      assert Tag(Lined, e.submitted + [piece]) == Tag(Lined, e.submitted) + Tag(Lined, [piece]);
      assert line + Tag(Held, []) == line;
    }
  }

  lemma InputInOrder(h: Hub, data: string)
    requires Counted(h) && Conserved(h) && InOrder(h)
    ensures Overtakes(h, Input(data)) ==> OutOfOrder(AcceptInput(h, data).0)
    ensures !Overtakes(h, Input(data)) ==> InOrder(AcceptInput(h, data).0)
  {
    hide ByteLength, HasLineEnd, EnqueueSubmissions, Submissions, On, ShownTexts;
    var line := h.log.heard + Tag(Lined, h.submitted);
    assert line + Tag(Held, []) == line;
    if GoesDirect(h, data) {
      var t := AcceptInput(h, data).0;
      if h.submitted == [] {
        assert line == h.log.heard;
        assert h.log.heard + Tag(Direct, [data]) + Tag(Lined, []) + Tag(Held, []) == h.log.heard + Tag(Direct, [data]);
      } else {
        assert t.log.heard[|h.log.heard|] == Piece(Direct, data);
        assert t.log.accepted[|h.log.heard|] == Piece(Lined, h.submitted[0]);
      }
    } else if data != "" && h.batchActive {
      assert Tag(Held, h.input + [data]) == Tag(Held, h.input) + Tag(Held, [data]);
      assert line + (Tag(Held, h.input) + Tag(Held, [data])) == line + Tag(Held, h.input) + Tag(Held, [data]);
    } else if data != "" {
      SubmissionsInOrder(h, Submissions(data));
    }
  }

  lemma FlushInOrder(h: Hub)
    requires InOrder(h)
    ensures InOrder(RunFlush(h))
  {
    hide HasLineEnd, ByteLength;
    if h.submitted != [] {
      var first := Tag(Lined, [h.submitted[0]]);
      assert Tag(Lined, h.submitted) == first + Tag(Lined, h.submitted[1..]);
      assert h.log.heard + (first + Tag(Lined, h.submitted[1..])) == h.log.heard + first + Tag(Lined, h.submitted[1..]);
    }
  }

  lemma EndInOrder(h: Hub, i: nat)
    requires InOrder(h) && i < |h.batches|
    ensures h.input != [] && h.submitted != [] ==> OutOfOrder(EndBatch(h, i))
    ensures h.input == [] || h.submitted == [] ==> InOrder(EndBatch(h, i))
  {
    hide EndBatch;
    EndIsQuiet(h, i);
    var t := EndBatch(h, i);
    if h.input == [] || h.submitted == [] {
      assert t.log.heard + Tag(Lined, h.submitted) == h.log.heard + Tag(Lined, h.submitted) + Tag(Held, h.input);
      assert t.log.heard + Tag(Lined, h.submitted) + Tag(Held, []) == t.log.heard + Tag(Lined, h.submitted);
    } else {
      assert t.log.heard[|h.log.heard|] == Piece(Held, h.input[0]);
      assert t.log.accepted[|h.log.heard|] == Piece(Lined, h.submitted[0]);
    }
  }

  lemma FlushExtends(h: Hub)
    ensures var t := RunFlush(h); h.log.heard <= t.log.heard && t.log.accepted == h.log.accepted && t.disposed == h.disposed
  {
    hide HasLineEnd, ByteLength, Tag;
  }

  lemma InputExtends(h: Hub, data: string)
    requires Counted(h) && Conserved(h)
    ensures var t := AcceptInput(h, data).0;
      h.log.heard <= t.log.heard && h.log.accepted <= t.log.accepted && t.disposed == h.disposed
  {
    hide AcceptInput, Counted, Conserved, Tag, HasLineEnd, Submissions;
    InputIsQuiet(h, data);
    var _ := InputIsTaken(h, data);
  }

  /** The logs only grow. */
  lemma StepExtends(h: Hub, action: Action)
    requires Counted(h) && Conserved(h)
    ensures h.log.heard <= Step(h, action).log.heard && h.log.accepted <= Step(h, action).log.accepted
    ensures h.disposed ==> Step(h, action).disposed
  {
    hide WriteOutput, AcceptInput, RunFlush, FinishInteractive, EndBatch, Settled, Counted, Conserved, Tag, ShownOn, Bytes;
    match action {
      case Output(text, prompt) =>
        OutputIsQuiet(h, text, prompt);
        FinishIsQuiet(h);
      case Flush => FlushExtends(h);
      case Input(data) => InputExtends(h, data);
      case FailBatch(i) =>
        if IsPhase(h, i, WaitingIdle) {
          EndIsQuiet(h, i);
        }
      case FinishBatch(i) =>
        if IsPhase(h, i, Active) {
          EndIsQuiet(h, i);
        }
      case DisposeHub => FinishIsQuiet(Dropped(h));
      case _ =>
    }
  }

  lemma StepInOrder(h: Hub, action: Action)
    requires Counted(h) && Conserved(h) && Serial(h) && InOrder(h) && !Step(h, action).disposed
    ensures Overtakes(h, action) ==> OutOfOrder(Step(h, action))
    ensures !Overtakes(h, action) ==> InOrder(Step(h, action))
  {
    hide WriteOutput, ByteLength, AcceptInput, RunFlush, HasLineEnd, FinishInteractive, EndBatch, Settled, Counted, OutOfOrder, Serial;
    hide GoesDirect, On, ShownTexts;
    match action {
      case Output(text, prompt) =>
        OutputIsQuiet(h, text, prompt);
        FinishIsQuiet(h);
      case Input(data) => InputInOrder(h, data);
      case Flush => FlushInOrder(h);
      case FailBatch(i) =>
        if IsPhase(h, i, WaitingIdle) {
          NoneActive(h, i);
          EndInOrder(h, i);
        }
      case FinishBatch(i) =>
        if IsPhase(h, i, Active) {
          EndInOrder(h, i);
        }
      case DisposeHub => FinishIsQuiet(Dropped(h));
      case _ =>
    }
  }

  lemma NoneActive(h: Hub, i: nat)
    requires Serial(h) && i < |h.batches| && !h.batches[i].phase.Active? && !h.batches[i].phase.Done?
    requires !h.batches[i].phase.Queued?
    ensures !h.batchActive
  {
    forall j | 0 <= j < |h.batches| && j != i
      ensures !h.batches[j].phase.Active?
    {
    }
  }

  lemma InOrderIsNotOutOfOrder(h: Hub)
    requires InOrder(h)
    ensures !OutOfOrder(h)
  {
  }

  lemma OutOfOrderStays(h: Hub, t: Hub)
    requires OutOfOrder(h) && h.log.heard <= t.log.heard && h.log.accepted <= t.log.accepted
    ensures OutOfOrder(t)
  {
    var k :| 0 <= k < |h.log.heard| && k < |h.log.accepted| && h.log.heard[k] != h.log.accepted[k];
    assert t.log.heard[k] == h.log.heard[k] && t.log.accepted[k] == h.log.accepted[k];
  }

  predicate OvertakesAt(maxBytes: nat, actions: seq<Action>, k: nat)
    requires k < |actions|
  {
    Overtakes(After(maxBytes, actions, k), actions[k])
  }

  lemma {:induction false} OrderIsDecided(maxBytes: nat, actions: seq<Action>, n: nat)
    requires n <= |actions| && !After(maxBytes, actions, n).disposed
    ensures var h := After(maxBytes, actions, n);
            if forall k :: 0 <= k < n ==> !OvertakesAt(maxBytes, actions, k) then InOrder(h) else OutOfOrder(h)
  {
    hide Step, InOrder, OutOfOrder, Overtakes, Counted, Conserved, Serial;
    if n == 0 {
      NewInOrder(maxBytes);
    } else {
      var h, action := After(maxBytes, actions, n - 1), actions[n - 1];
      HubConservesAndSerializes(maxBytes, actions, n - 1);
      StepExtends(h, action);
      OrderIsDecided(maxBytes, actions, n - 1);
      if forall k :: 0 <= k < n - 1 ==> !OvertakesAt(maxBytes, actions, k) {
        StepInOrder(h, action);
        assert OvertakesAt(maxBytes, actions, n - 1) == Overtakes(h, action);
      } else {
        OutOfOrderStays(h, Step(h, action));
      }
    }
  }

  lemma NewInOrder(maxBytes: nat)
    ensures InOrder(NewHub(maxBytes))
  {
  }

  /** The listeners hear the input of all ways in the order it came in exactly as long as no step gives them other input
      while submissions are in line: neither input that comes in between and goes straight to the shell, nor input that
      was held back during a batch. */
  lemma OrderIsKeptUnlessOvertaken(maxBytes: nat, actions: seq<Action>, n: nat)
    requires n <= |actions| && !After(maxBytes, actions, n).disposed
    ensures InOrder(After(maxBytes, actions, n)) <==> forall k :: 0 <= k < n ==> !OvertakesAt(maxBytes, actions, k)
  {
    hide InOrder, OutOfOrder, After, OvertakesAt;
    OrderIsDecided(maxBytes, actions, n);
    if InOrder(After(maxBytes, actions, n)) {
      InOrderIsNotOutOfOrder(After(maxBytes, actions, n));
    }
  }

  // ----- Where batch and shell meet -----

  /** The listeners were given a line end. */
  predicate Hears(h: Hub, t: Hub)
  {
    exists k :: |h.log.heard| <= k < |t.log.heard| && HasLineEnd(t.log.heard[k].text)
  }

  /** The output ends in the prompt, or the hub goes away. */
  predicate Prompts(h: Hub, action: Action)
  {
    match action
    case Output(text, prompt) => text != "" && prompt
    case DisposeHub => !h.disposed
    case _ => false
  }

  lemma {:induction false} DeliveredLineStarts(h: Hub, way: Way, pieces: seq<string>)
    ensures var d := DeliverPieces(h, way, pieces); d.running <==> h.running || Hears(h, d)
    decreases |pieces|
  {
    hide HasLineEnd, Tag;
    DeliverIsQuiet(h, way, pieces);
    if pieces != [] {
      var front, last := pieces[..|pieces| - 1], pieces[|pieces| - 1];
      DeliveredLineStarts(h, way, front);
      DeliverIsQuiet(h, way, front);
      var d, e := DeliverPieces(h, way, pieces), DeliverPieces(h, way, front);
      TagOne(way, last);
      assert d.log.heard == e.log.heard + [Piece(way, last)];
      if Hears(h, e) {
        var k :| |h.log.heard| <= k < |e.log.heard| && HasLineEnd(e.log.heard[k].text);
        assert d.log.heard[k] == e.log.heard[k];
      }
      if HasLineEnd(last) {
        assert d.log.heard[|e.log.heard|].text == last;
      }
    }
  }

  lemma HearsOne(h: Hub, t: Hub, way: Way, text: string)
    requires t.log.heard == h.log.heard + Tag(way, [text])
    ensures Hears(h, t) <==> HasLineEnd(text)
  {
    hide HasLineEnd;
    assert t.log.heard[|h.log.heard|].text == text;
  }

  lemma EndStarts(h: Hub, i: nat)
    requires i < |h.batches|
    ensures EndBatch(h, i).running <==> h.running || Hears(h, EndBatch(h, i))
  {
    hide HasLineEnd, Tag, DeliverPieces;
    DeliveredLineStarts(h.(batchActive := false, input := [], inputBytes := 0), Held, h.input);
  }

  /** A command runs from a line the listeners were given until the next prompt. */
  lemma StepRuns(h: Hub, action: Action)
    requires Counted(h) && Conserved(h)
    ensures Step(h, action).running <==> Hears(h, Step(h, action)) || (h.running && !Prompts(h, action))
  {
    hide WriteOutput, ByteLength, AcceptInput, HasLineEnd, FinishInteractive, EndBatch, Settled, Counted, Conserved, Tag;
    match action {
      case Output(text, prompt) =>
        OutputIsQuiet(h, text, prompt);
        FinishIsQuiet(h);
      case Input(data) =>
        InputIsQuiet(h, data);
        if GoesDirect(h, data) {
          HearsOne(h, Step(h, action), Direct, data);
        }
      case Flush =>
        if Flushes(h) {
          HearsOne(h, Step(h, action), Lined, h.submitted[0]);
        }
      case FailBatch(i) =>
        if IsPhase(h, i, WaitingIdle) {
          EndStarts(h, i);
        }
      case FinishBatch(i) =>
        if IsPhase(h, i, Active) {
          EndStarts(h, i);
        }
      case DisposeHub => FinishIsQuiet(Dropped(h));
      case _ =>
    }
  }

  /** While a batch runs the listeners are given nothing. */
  lemma NothingIsHeardDuringABatch(h: Hub, action: Action)
    requires Counted(h) && Conserved(h) && Serial(h) && h.batchActive && Step(h, action).batchActive
    ensures Step(h, action).log.heard == h.log.heard
  {
    hide WriteOutput, ByteLength, AcceptInput, HasLineEnd, FinishInteractive, EndBatch, Settled, Counted, Conserved, Tag, Serial;
    match action {
      case Output(text, prompt) =>
        OutputIsQuiet(h, text, prompt);
        FinishIsQuiet(h);
      case Input(data) => InputIsQuiet(h, data);
      case FailBatch(i) =>
        if IsPhase(h, i, WaitingIdle) {
          EndIsQuiet(h, i);
        }
      case FinishBatch(i) =>
        if IsPhase(h, i, Active) {
          EndIsQuiet(h, i);
        }
      case DisposeHub => FinishIsQuiet(Dropped(h));
      case _ =>
    }
  }

  /** A batch gets beside a command only by beginning while one runs. */
  lemma OverlapBeginsWithTheBatch(h: Hub, action: Action)
    requires Counted(h) && Conserved(h) && Serial(h) && !(h.batchActive && h.running)
    ensures Step(h, action).batchActive && Step(h, action).running
            <==> action.ActivateBatch? && IsPhase(h, action.batch, Ready) && h.running
  {
    hide ByteLength, AcceptInput, HasLineEnd, FinishInteractive, EndBatch, Settled, Counted, Conserved, Tag, Serial, Prompts;
    StepRuns(h, action);
    if action.ActivateBatch? && IsPhase(h, action.batch, Ready) {
      NoneActive(h, action.batch);
      BeginningIsQuiet(h, action.batch);
    } else if !h.batchActive {
      FlagStaysDown(h, action);
    } else if Step(h, action).batchActive {
      NothingIsHeardDuringABatch(h, action);
    }
  }

  lemma BeginningIsQuiet(h: Hub, i: nat)
    ensures Step(h, ActivateBatch(i)).log == h.log && Step(h, ActivateBatch(i)).running == h.running
    ensures IsPhase(h, i, Ready) ==> Step(h, ActivateBatch(i)).batchActive
  {
  }

  lemma FlagStaysDown(h: Hub, action: Action)
    requires Counted(h) && Conserved(h) && !h.batchActive && !(action.ActivateBatch? && IsPhase(h, action.batch, Ready))
    ensures !Step(h, action).batchActive
  {
    hide WriteOutput, ByteLength, AcceptInput, HasLineEnd, FinishInteractive, EndBatch, Settled, Counted, Conserved, Tag;
    match action {
      case Output(text, prompt) =>
        OutputIsQuiet(h, text, prompt);
        FinishIsQuiet(h);
      case Input(data) => InputIsQuiet(h, data);
      case FailBatch(i) =>
        if IsPhase(h, i, WaitingIdle) {
          EndIsQuiet(h, i);
        }
      case FinishBatch(i) =>
        if IsPhase(h, i, Active) {
          EndIsQuiet(h, i);
        }
      case DisposeHub => FinishIsQuiet(Dropped(h));
      case _ =>
    }
  }

  // ----- The same, over whole runs -----

  predicate HearsAt(maxBytes: nat, actions: seq<Action>, k: nat)
    requires k < |actions|
  {
    Hears(After(maxBytes, actions, k), After(maxBytes, actions, k + 1))
  }

  predicate PromptsAt(maxBytes: nat, actions: seq<Action>, k: nat)
    requires k < |actions|
  {
    Prompts(After(maxBytes, actions, k), actions[k])
  }

  /** Call `i` need not wait any longer: the shell is idle, or has just become so. */
  predicate BecomesReady(maxBytes: nat, actions: seq<Action>, k: nat, i: nat)
    requires k < |actions|
  {
    !IsPhase(After(maxBytes, actions, k), i, Ready) && IsPhase(After(maxBytes, actions, k + 1), i, Ready)
  }

  predicate BeginsAt(maxBytes: nat, actions: seq<Action>, k: nat, i: nat)
    requires k < |actions|
  {
    actions[k] == ActivateBatch(i) && IsPhase(After(maxBytes, actions, k), i, Ready)
  }

  lemma {:induction false} RunsSinceTheLastLine(maxBytes: nat, actions: seq<Action>, n: nat)
    requires n <= |actions|
    ensures After(maxBytes, actions, n).running
       <==> exists l :: 0 <= l < n && HearsAt(maxBytes, actions, l)
                        && forall p :: l < p < n ==> !PromptsAt(maxBytes, actions, p)
  {
    hide Step, Hears, Prompts, Counted, Conserved, Serial;
    if n > 0 {
      RunsSinceTheLastLine(maxBytes, actions, n - 1);
      HubConservesAndSerializes(maxBytes, actions, n - 1);
      StepRuns(After(maxBytes, actions, n - 1), actions[n - 1]);
      if HearsAt(maxBytes, actions, n - 1) {
      } else if After(maxBytes, actions, n - 1).running && !PromptsAt(maxBytes, actions, n - 1) {
        var l :| 0 <= l < n - 1 && HearsAt(maxBytes, actions, l)
                 && forall p :: l < p < n - 1 ==> !PromptsAt(maxBytes, actions, p);
      }
    }
  }

  /** Nothing runs at the moment a call becomes ready. */
  lemma ReadyMeansIdle(h: Hub, action: Action, i: nat)
    requires Counted(h) && Conserved(h) && !IsPhase(h, i, Ready) && IsPhase(Step(h, action), i, Ready)
    ensures !Step(h, action).running
  {
    hide WriteOutput, ByteLength, AcceptInput, HasLineEnd, FinishInteractive, EndBatch, Settled, Counted, Conserved, Tag;
    match action {
      case Output(text, prompt) =>
        OutputIsQuiet(h, text, prompt);
        FinishIsQuiet(h);
      case Input(data) => InputIsQuiet(h, data);
      case FailBatch(j) =>
        if IsPhase(h, j, WaitingIdle) {
          EndIsQuiet(h, j);
        }
      case FinishBatch(j) =>
        if IsPhase(h, j, Active) {
          EndIsQuiet(h, j);
        }
      case DisposeHub => FinishIsQuiet(Dropped(h));
      case _ =>
    }
  }

  lemma {:induction false} ReadySince(maxBytes: nat, actions: seq<Action>, n: nat, i: nat) returns (r: nat)
    requires n <= |actions| && IsPhase(After(maxBytes, actions, n), i, Ready)
    ensures r < n && BecomesReady(maxBytes, actions, r, i)
  {
    hide Step;
    if IsPhase(After(maxBytes, actions, n - 1), i, Ready) {
      r := ReadySince(maxBytes, actions, n - 1, i);
    } else {
      r := n - 1;
    }
  }

  lemma BecomesActive(h: Hub, action: Action, i: nat)
    requires Counted(h) && Conserved(h) && !IsPhase(h, i, Active) && IsPhase(Step(h, action), i, Active)
    ensures action == ActivateBatch(i) && IsPhase(h, i, Ready)
  {
    hide WriteOutput, ByteLength, AcceptInput, HasLineEnd, FinishInteractive, EndBatch, Settled, Counted, Conserved, Tag;
    match action {
      case Output(text, prompt) =>
        OutputIsQuiet(h, text, prompt);
        FinishIsQuiet(h);
      case Input(data) => InputIsQuiet(h, data);
      case FailBatch(j) =>
        if IsPhase(h, j, WaitingIdle) {
          EndIsQuiet(h, j);
        }
      case FinishBatch(j) =>
        if IsPhase(h, j, Active) {
          EndIsQuiet(h, j);
        }
      case DisposeHub => FinishIsQuiet(Dropped(h));
      case _ =>
    }
  }

  lemma ActiveMeansFlag(h: Hub, i: nat)
    requires Serial(h) && IsPhase(h, i, Active)
    ensures h.batchActive
  {
  }

  /** A running batch has begun once, and since then nothing was heard. */
  lemma {:induction false} ActiveSince(maxBytes: nat, actions: seq<Action>, n: nat, i: nat) returns (a: nat)
    requires n <= |actions| && IsPhase(After(maxBytes, actions, n), i, Active)
    ensures a < n && BeginsAt(maxBytes, actions, a, i)
    ensures forall l :: a <= l < n ==> !HearsAt(maxBytes, actions, l)
  {
    hide Step, Counted, Conserved, Serial;
    var h, t := After(maxBytes, actions, n - 1), After(maxBytes, actions, n);
    HubConservesAndSerializes(maxBytes, actions, n - 1);
    HubConservesAndSerializes(maxBytes, actions, n);
    if IsPhase(h, i, Active) {
      a := ActiveSince(maxBytes, actions, n - 1, i);
      ActiveMeansFlag(h, i);
      ActiveMeansFlag(t, i);
      NothingIsHeardDuringABatch(h, actions[n - 1]);
    } else {
      BecomesActive(h, actions[n - 1], i);
      BeginningIsQuiet(h, i);
      a := n - 1;
    }
  }

  /** When exactly a batch runs beside a command: a line was heard after its call had become ready and before it began, and
      the prompt has not been back since. */
  lemma BatchOverlapsACommand(maxBytes: nat, actions: seq<Action>, n: nat, i: nat)
    requires n <= |actions| && IsPhase(After(maxBytes, actions, n), i, Active)
    ensures After(maxBytes, actions, n).running
       <==> exists r, l, a :: 0 <= r < l < a < n
              && BecomesReady(maxBytes, actions, r, i) && HearsAt(maxBytes, actions, l) && BeginsAt(maxBytes, actions, a, i)
              && forall p :: l < p < n ==> !PromptsAt(maxBytes, actions, p)
  {
    hide After, HearsAt, PromptsAt, BecomesReady, BeginsAt;
    RunsSinceTheLastLine(maxBytes, actions, n);
    if After(maxBytes, actions, n).running {
      var r, l, a := LineCameBetween(maxBytes, actions, n, i);
    }
  }

  lemma LineCameBetween(maxBytes: nat, actions: seq<Action>, n: nat, i: nat) returns (r: nat, l: nat, a: nat)
    requires n <= |actions| && IsPhase(After(maxBytes, actions, n), i, Active) && After(maxBytes, actions, n).running
    ensures r < l < a < n
    ensures BecomesReady(maxBytes, actions, r, i) && HearsAt(maxBytes, actions, l) && BeginsAt(maxBytes, actions, a, i)
    ensures forall p :: l < p < n ==> !PromptsAt(maxBytes, actions, p)
  {
    hide After, Step, HearsAt, PromptsAt, BecomesReady;
    RunsSinceTheLastLine(maxBytes, actions, n);
    l :| 0 <= l < n && HearsAt(maxBytes, actions, l) && forall p :: l < p < n ==> !PromptsAt(maxBytes, actions, p);
    a := ActiveSince(maxBytes, actions, n, i);
    r := ReadySince(maxBytes, actions, a, i);
    IdleWhenReady(maxBytes, actions, r, i);
    RunsSinceTheLastLine(maxBytes, actions, r + 1);
  }

  lemma IdleWhenReady(maxBytes: nat, actions: seq<Action>, r: nat, i: nat)
    requires r < |actions| && BecomesReady(maxBytes, actions, r, i)
    ensures !After(maxBytes, actions, r + 1).running
  {
    hide Step, Counted, Conserved, Serial;
    HubConservesAndSerializes(maxBytes, actions, r);
    ReadyMeansIdle(After(maxBytes, actions, r), actions[r], i);
  }

  // ----- Runs in which they do -----

  lemma LineOfTwo(c: char, end: char)
    requires IsLineEnd(end) && !IsLineEnd(c)
    ensures HasLineEnd([c, end]) && Submissions([c, end]) == [[c, end]]
  {
    var data := [c, end];
    assert IsLineEnd(data[1]);
    assert data[1..] == [end] && FirstLineEnd(data[1..]) == 0;
    assert FirstLineEnd(data) == 1 && FirstLength(data) == 2;
    assert data[..2] == data && data[2..] == "";
  }

  lemma EnqueueOne(h: Hub, piece: string)
    ensures EnqueueSubmissions(h, [piece]) == if ByteLength(piece) > Room(h) then (h, false) else (EnqueueSubmission(h, piece), true)
  {
    assert [piece][..0] == [];
    assert EnqueueSubmissions(h, [piece][..0]) == (h, true);
  }

  /** A line typed into an idle shell, and one typed into a busy one. */
  lemma TypedLine(h: Hub, c: char)
    requires !h.batchActive && !IsLineEnd(c)
    ensures !h.running ==>
              Step(h, Input([c, '\n'])) == DeliverPiece(Take(h, Direct, [[c, '\n']]), Direct, [c, '\n']).(running := true)
    ensures h.running && ByteLength([c, '\n']) <= Room(h) ==> Step(h, Input([c, '\n'])) == EnqueueSubmission(h, [c, '\n'])
  {
    hide ByteLength, Tag;
    LineOfTwo(c, '\n');
    EnqueueOne(h, [c, '\n']);
  }

  lemma PromptComes(h: Hub, device: nat)
    requires h.running && h.device == Some(device) && !h.disposed
    ensures var t := Step(h, Output("$", true));
      && t.batchActive == h.batchActive && !t.running && t.device == h.device && !t.disposed
      && t.submitted == h.submitted && t.submittedBytes == h.submittedBytes && t.input == h.input
      && t.inputBytes == h.inputBytes && (h.submitted != [] ==> t.flushQueued)
      && t.maxBytes == h.maxBytes
      && |t.batches| == |h.batches| && (forall i :: 0 <= i < |h.batches| ==> t.batches[i] == Wake(h.batches[i]))
  {
  }

  lemma FlushGoesOut(h: Hub)
    requires Flushes(h)
    ensures var t := Step(h, Flush);
      t == h.(flushQueued := false, submitted := h.submitted[1..], submittedBytes := h.submittedBytes - ByteLength(h.submitted[0]),
              running := HasLineEnd(h.submitted[0]), log := t.log)
  {
    hide ByteLength, HasLineEnd, Tag;
  }

  /** A queued submission is faster than the batch: both have waited for the prompt. */
  function QueuedLineFirst(): seq<Action>
  {
    [AttachDevice(0), CallBatch, Input("a\n"), EnterBatch(0), Input("b\n"), Output("$", true), Flush, ActivateBatch(0)]
  }

  lemma TwoBytes(c: char)
    requires c as int < 0x80
    ensures ByteLength([c, '\n']) == 2
  {
    assert [c, '\n'][1..] == ['\n'] && ['\n'][1..] == "";
  }

  lemma QueuedLineMeetsTheBatch(maxBytes: nat)
    requires maxBytes >= 2
    ensures var h := After(maxBytes, QueuedLineFirst(), 8); h.batchActive && h.running && IsPhase(h, 0, Active)
  {
    hide ByteLength, HasLineEnd, EnqueueSubmissions, Submissions, Tag, Step;
    var s := QueuedLineFirst();
    var start := ReadyToType(maxBytes);
    var typed := Step(start, Input("a\n"));
    TypedLine(start, 'a');
    var waiting := Step(typed, EnterBatch(0));
    CallWaits(typed);
    TypedLine(waiting, 'b');
    TwoBytes('b');
    LineOfTwo('b', '\n');
    var queued := Step(waiting, Input("b\n"));
    PromptComes(queued, 0);
    var idle := Step(queued, Output("$", true));
    FlushGoesOut(idle);
    CallBegins(Step(idle, Flush));
    assert After(maxBytes, s, 1) == Step(NewHub(maxBytes), AttachDevice(0));
    assert After(maxBytes, s, 3) == typed;
    assert After(maxBytes, s, 5) == queued;
    assert After(maxBytes, s, 7) == Step(idle, Flush);
  }

  /** A device is attached and one batch has been called. */
  lemma ReadyToType(maxBytes: nat) returns (h: Hub)
    ensures h == Step(Step(NewHub(maxBytes), AttachDevice(0)), CallBatch)
    ensures h == NewHub(maxBytes).(device := Some(0), batches := [Batch(Resolved, Queued)], batchTail := Then(Resolved, 0))
  {
    h := Step(Step(NewHub(maxBytes), AttachDevice(0)), CallBatch);
    assert [] + ShownOn(0, []) == [];
  }

  lemma CallWaits(h: Hub)
    requires h.batches == [Batch(Resolved, Queued)]
    ensures Step(h, EnterBatch(0)) == h.(batches := [Batch(Resolved, if h.running then WaitingIdle else Ready)])
  {
  }

  lemma CallBegins(h: Hub)
    requires h.batches == [Batch(Resolved, Ready)]
    ensures Step(h, ActivateBatch(0)) == h.(batches := [Batch(Resolved, Active)], batchActive := true)
  {
  }

  /** A line that comes in just then goes straight to the shell. */
  function NewLineFirst(): seq<Action>
  {
    [AttachDevice(0), CallBatch, EnterBatch(0), Input("a\n"), ActivateBatch(0)]
  }

  lemma NewLineMeetsTheBatch(maxBytes: nat)
    ensures var h := After(maxBytes, NewLineFirst(), 5); h.batchActive && h.running && IsPhase(h, 0, Active)
  {
    hide Step, HasLineEnd, Tag;
    var s := NewLineFirst();
    var start := ReadyToType(maxBytes);
    CallWaits(start);
    var ready := Step(start, EnterBatch(0));
    TypedLine(ready, 'a');
    CallBegins(Step(ready, Input("a\n")));
    assert After(maxBytes, s, 1) == Step(NewHub(maxBytes), AttachDevice(0));
    assert After(maxBytes, s, 2) == start;
    assert After(maxBytes, s, 4) == Step(ready, Input("a\n"));
  }

  // ----- Submissions in line -----

  /** A submission in line will be looked at again. */
  predicate InMotion(h: Hub)
  {
    h.submitted != [] && !h.disposed ==> h.running || h.batchActive || h.flushQueued
  }

  lemma BusyLine(h: Hub, data: string)
    requires Counted(h) && Conserved(h) && InMotion(h)
    ensures InMotion(AcceptInput(h, data).0)
  {
    hide Counted, Conserved, ByteLength, HasLineEnd, Submissions, EnqueueSubmissions, Tag;
    SubmissionsAreCounted(h, Submissions(data));
  }

  /** A flush of a submission without a line end in front of others: it starts no command, so no prompt will come back for
      the rest. */
  predicate Strands(h: Hub, action: Action)
  {
    action.Flush? && Flushes(h) && !HasLineEnd(h.submitted[0]) && |h.submitted| > 1
  }

  /** A step keeps the line in motion if and only if it is not such a flush. */
  lemma StepKeepsTheLineMoving(h: Hub, action: Action)
    requires Counted(h) && Conserved(h) && InMotion(h)
    ensures InMotion(Step(h, action)) <==> !Strands(h, action)
  {
    hide ByteLength, AcceptInput, EndBatch, HasLineEnd, Counted, Conserved, Settled, Tag;
    match action {
      case Input(data) => BusyLine(h, data);
      case FailBatch(i) =>
        if IsPhase(h, i, WaitingIdle) {
          EndMoves(h, i);
        }
      case FinishBatch(i) =>
        if IsPhase(h, i, Active) {
          EndMoves(h, i);
        }
      case Flush =>
        if Flushes(h) {
          FlushGoesOut(h);
        }
      case _ =>
    }
  }

  lemma EndMoves(h: Hub, i: nat)
    requires i < |h.batches|
    ensures InMotion(EndBatch(h, i))
  {
    hide DeliverPieces;
    DeliverIsQuiet(h.(batchActive := false, input := [], inputBytes := 0), Held, h.input);
  }

  /** A paste that ends in the middle of a line, in front of one more line. */
  function PasteInTheMiddle(): seq<Action>
  {
    [AttachDevice(0), CallBatch, Input("a\n"), Input("b\nc"), Input("d\n"), Output("$", true), Flush, Output("$", true), Flush]
  }

  /** The line is left behind: "c" was handed over and "d\n" waits for a prompt that will not come. */
  lemma UnfinishedLineStopsTheOthers(maxBytes: nat)
    requires maxBytes >= 5
    ensures var h := After(maxBytes, PasteInTheMiddle(), 9); h.submitted == ["d\n"] && !InMotion(h)
  {
    hide ByteLength, HasLineEnd, EnqueueSubmissions, Submissions, Tag, Step;
    var s := PasteInTheMiddle();
    var start := ReadyToType(maxBytes);
    TypedLine(start, 'a');
    var typed := Step(start, Input("a\n"));
    PastedLines(typed);
    var pasted := Step(typed, Input("b\nc"));
    TypedLine(pasted, 'd');
    TwoBytes('d');
    var queued := Step(pasted, Input("d\n"));
    PromptComes(queued, 0);
    var idle := Step(queued, Output("$", true));
    LineOfTwo('b', '\n');
    FlushGoesOut(idle);
    var busy := Step(idle, Flush);
    PromptComes(busy, 0);
    var again := Step(busy, Output("$", true));
    NoLineEnd('c');
    FlushGoesOut(again);
    assert After(maxBytes, s, 1) == Step(NewHub(maxBytes), AttachDevice(0));
    assert After(maxBytes, s, 3) == typed;
    assert After(maxBytes, s, 5) == queued;
    assert After(maxBytes, s, 7) == busy;
    assert After(maxBytes, s, 9) == Step(again, Flush);
  }

  lemma NoLineEnd(c: char)
    requires !IsLineEnd(c)
    ensures !HasLineEnd([c])
  {
  }

  lemma PastedLines(h: Hub)
    requires !h.batchActive && h.running && h.submitted == [] && Room(h) >= 3
    ensures var t := Step(h, Input("b\nc"));
      t == h.(submitted := ["b\n", "c"], submittedBytes := h.submittedBytes + 3, log := t.log)
  {
    hide Tag, ByteLength, HasLineEnd;
    var data := "b\nc";
    SplitPaste();
    TwoBytes('b');
    assert ByteLength("c") == 1 by {
      OneByte('c');
    }
    EnqueueTwo(h, "b\n", "c");
  }

  lemma OneByte(c: char)
    requires c as int < 0x80
    ensures ByteLength([c]) == 1
  {
    assert [c][1..] == "";
  }

  lemma SplitPaste()
    ensures Submissions("b\nc") == ["b\n", "c"] && HasLineEnd("b\nc")
  {
    var data := "b\nc";
    assert IsLineEnd(data[1]);
    assert data[1..] == "\nc" && FirstLineEnd(data[1..]) == 0;
    assert FirstLength(data) == 2 && data[..2] == "b\n" && data[2..] == "c";
    assert "c"[1..] == "" && FirstLineEnd("c") == 1 && FirstLength("c") == 1;
    assert "c"[..1] == "c" && Submissions("c"[1..]) == [];
  }

  lemma EnqueueTwo(h: Hub, a: string, b: string)
    requires h.submitted == [] && ByteLength(a) + ByteLength(b) <= Room(h)
    ensures var t := EnqueueSubmissions(h, [a, b]);
      t.0 == h.(submitted := [a, b], submittedBytes := h.submittedBytes + ByteLength(a) + ByteLength(b), log := t.0.log)
  {
    hide ByteLength, Tag;
    assert [a, b][..1] == [a];
    EnqueueOne(h, a);
  }

  // ----- Calls get their turn -----

  /** No call waits for a shell that is idle. */
  predicate NoneWaitsInVain(h: Hub)
  {
    forall i :: 0 <= i < |h.batches| && h.batches[i].phase.WaitingIdle? ==> h.running
  }

  lemma StepWaits(h: Hub, action: Action)
    requires Counted(h) && Conserved(h) && NoneWaitsInVain(h)
    ensures NoneWaitsInVain(Step(h, action))
  {
    hide WriteOutput, ByteLength, AcceptInput, HasLineEnd, FinishInteractive, EndBatch, Settled, Counted, Conserved, Tag;
    match action {
      case Output(text, prompt) =>
        OutputIsQuiet(h, text, prompt);
        FinishIsQuiet(h);
      case Input(data) => InputIsQuiet(h, data);
      case FailBatch(j) =>
        if IsPhase(h, j, WaitingIdle) {
          EndStarts(h, j);
          EndIsQuiet(h, j);
        }
      case FinishBatch(j) =>
        if IsPhase(h, j, Active) {
          EndStarts(h, j);
          EndIsQuiet(h, j);
        }
      case DisposeHub => FinishIsQuiet(Dropped(h));
      case _ =>
    }
  }

  /** In every run: a call waits for the prompt only while a command runs. */
  lemma {:induction false} CallsWaitForACommand(maxBytes: nat, actions: seq<Action>, n: nat)
    requires n <= |actions|
    ensures NoneWaitsInVain(After(maxBytes, actions, n))
  {
    hide Step, Counted, Conserved, Serial;
    if n > 0 {
      CallsWaitForACommand(maxBytes, actions, n - 1);
      HubConservesAndSerializes(maxBytes, actions, n - 1);
      StepWaits(After(maxBytes, actions, n - 1), actions[n - 1]);
    }
  }

  /** When the prompt comes back every call that waited for it is ready, and what is in line is going to be looked at. */
  lemma PromptWakes(h: Hub, text: string, i: nat)
    requires IsPhase(h, i, WaitingIdle) && h.running && text != ""
    ensures var t := Step(h, Output(text, true));
      IsPhase(t, i, Ready) && !t.running && (t.submitted != [] && !t.disposed ==> t.flushQueued)
  {
    hide ByteLength, ShownOn;
  }

  /** A call that fails while it waits is done like any other: the next one need not wait for it any more. */
  lemma AFailedCallIsDone(h: Hub, i: nat)
    requires IsPhase(h, i, WaitingIdle)
    ensures var t := Step(h, FailBatch(i));
      && t.batches == h.batches[i := h.batches[i].(phase := Done)] && !t.batchActive && t.input == []
      && t.log.heard == h.log.heard + Tag(Held, h.input)
  {
    hide Tag, EndBatch;
    EndIsQuiet(h, i);
  }

  lemma HeldInputWaits(h: Hub, data: string)
    requires h.batchActive && data != "" && AcceptInput(h, data).1
    ensures var t := Step(h, Input(data));
      t.input == h.input + [data] && t.batches == h.batches && t.batchActive && t.log.heard == h.log.heard
  {
    hide ByteLength, Tag;
  }

  /** In every run, a call all of whose predecessors are done goes through whenever the shell is idle: it enters, it is the
      one that runs, and when it ends, input held back meanwhile is given to the listeners in order and the flag is down. */
  lemma ACallGoesThrough(maxBytes: nat, actions: seq<Action>, n: nat, i: nat)
    requires n <= |actions| && IsPhase(After(maxBytes, actions, n), i, Queued) && !After(maxBytes, actions, n).running
    requires forall j :: 0 <= j < i ==> After(maxBytes, actions, n).batches[j].phase.Done?
    ensures var h := After(maxBytes, actions, n); var entered := Step(h, EnterBatch(i));
      var active := Step(entered, ActivateBatch(i));
      && IsPhase(entered, i, Ready) && IsPhase(active, i, Active) && active.batchActive
      && (forall data :: data != "" && AcceptInput(active, data).1 ==>
            var ended := Step(Step(active, Input(data)), FinishBatch(i));
            && IsPhase(ended, i, Done) && !ended.batchActive && ended.input == []
            && ended.log.heard == h.log.heard + Tag(Held, h.input + [data]))
  {
    hide ByteLength, Tag, Counted, Conserved, EndBatch, AcceptInput, Serial, Settled;
    var h := After(maxBytes, actions, n);
    HubConservesAndSerializes(maxBytes, actions, n);
    NextMayEnter(h, i);
    var active := Step(Step(h, EnterBatch(i)), ActivateBatch(i));
    assert IsPhase(active, i, Active) && active.batchActive;
    forall data | data != "" && AcceptInput(active, data).1
      ensures var ended := Step(Step(active, Input(data)), FinishBatch(i));
        && IsPhase(ended, i, Done) && !ended.batchActive && ended.input == []
        && ended.log.heard == h.log.heard + Tag(Held, h.input + [data])
    {
      HeldInputWaits(active, data);
      EndIsQuiet(Step(active, Input(data)), i);
    }
  }

  lemma NextMayEnter(h: Hub, i: nat)
    requires Serial(h) && IsPhase(h, i, Queued) && forall j :: 0 <= j < i ==> h.batches[j].phase.Done?
    ensures Settled(h.batches[i].previous, h.batches)
  {
    hide TailOf;
    SettledIsAllDone(h.batches, i);
  }

  // ----- The attached device -----

  lemma StepDevice(h: Hub, action: Action)
    requires Counted(h) && Conserved(h)
    ensures var t := Step(h, action);
      && t.disposed == (h.disposed || action == DisposeHub)
      && t.device == match action
                     case AttachDevice(device) => if h.disposed then h.device else Some(device)
                     case DetachDevice(which) => if which == None || which == h.device then None else h.device
                     case DisposeHub => if h.disposed then h.device else None
                     case _ => h.device
  {
    hide WriteOutput, ByteLength, EnqueueSubmissions, Submissions, HasLineEnd, FinishInteractive, EndBatch, Settled, Counted, Conserved;
    hide Tag;
    match action {
      case Output(text, prompt) =>
        OutputIsQuiet(h, text, prompt);
        FinishIsQuiet(h);
      case Input(data) => SubmissionsAreCounted(h, Submissions(data));
      case FailBatch(i) =>
        if IsPhase(h, i, WaitingIdle) {
          EndIsQuiet(h, i);
        }
      case FinishBatch(i) =>
        if IsPhase(h, i, Active) {
          EndIsQuiet(h, i);
        }
      case DisposeHub => FinishIsQuiet(Dropped(h));
      case _ =>
    }
  }

  /** The device was attached by action `k`, and no other has been since, nor has it been detached. */
  predicate AttachedSince(actions: seq<Action>, n: nat, k: nat, device: nat)
    requires k < n <= |actions|
  {
    actions[k] == AttachDevice(device) && forall j :: k < j < n ==> Keeps(actions[j], device)
  }

  predicate Keeps(action: Action, device: nat)
  {
    match action
    case AttachDevice(other) => other == device
    case DetachDevice(which) => which != None && which != Some(device)
    case _ => true
  }

  predicate IsAttached(actions: seq<Action>, n: nat, device: nat)
    requires n <= |actions|
  {
    DisposeHub !in actions[..n] && exists k :: 0 <= k < n && AttachedSince(actions, n, k, device)
  }

  lemma AttachedNext(actions: seq<Action>, n: nat, device: nat)
    requires n < |actions|
    ensures DisposeHub in actions[..n + 1] <==> DisposeHub in actions[..n] || actions[n] == DisposeHub
    ensures IsAttached(actions, n + 1, device)
       <==> actions[n] != DisposeHub && DisposeHub !in actions[..n]
            && (actions[n] == AttachDevice(device) || (IsAttached(actions, n, device) && Keeps(actions[n], device)))
  {
    hide Keeps;
    assert actions[..n + 1] == actions[..n] + [actions[n]];
    if IsAttached(actions, n, device) && Keeps(actions[n], device) {
      var k :| 0 <= k < n && AttachedSince(actions, n, k, device);
      assert AttachedSince(actions, n + 1, k, device);
    }
    if actions[n] == AttachDevice(device) {
      assert AttachedSince(actions, n + 1, n, device);
    }
    if IsAttached(actions, n + 1, device) && actions[n] != AttachDevice(device) {
      var k :| 0 <= k < n + 1 && AttachedSince(actions, n + 1, k, device);
      assert AttachedSince(actions, n, k, device);
    }
  }

  /** Which device is attached is told by the actions so far: the last one attached, unless it was detached since, by name or
      whichever it was, or the hub is gone. */
  lemma {:induction false} DeviceIsToldByTheActions(maxBytes: nat, actions: seq<Action>, n: nat, device: nat)
    requires n <= |actions|
    ensures After(maxBytes, actions, n).disposed <==> DisposeHub in actions[..n]
    ensures After(maxBytes, actions, n).device == Some(device) <==> IsAttached(actions, n, device)
  {
    hide Step, Counted, Conserved, Serial, IsAttached;
    if n > 0 {
      DeviceIsToldByTheActions(maxBytes, actions, n - 1, device);
      HubConservesAndSerializes(maxBytes, actions, n - 1);
      AttachedNext(actions, n - 1, device);
      var h := After(maxBytes, actions, n - 1);
      StepDevice(h, actions[n - 1]);
      if h.device.Some? {
        GoneHasNoDevice(maxBytes, actions, n - 1);
      }
    } else {
      NoneAttached(actions, device);
    }
  }

  lemma NoneAttached(actions: seq<Action>, device: nat)
    ensures !IsAttached(actions, 0, device)
  {
  }

  lemma {:induction false} GoneHasNoDevice(maxBytes: nat, actions: seq<Action>, n: nat)
    requires n <= |actions|
    ensures After(maxBytes, actions, n).disposed ==> After(maxBytes, actions, n).device == None
  {
    hide Step, Counted, Conserved, Serial;
    if n > 0 {
      GoneHasNoDevice(maxBytes, actions, n - 1);
      HubConservesAndSerializes(maxBytes, actions, n - 1);
      StepDevice(After(maxBytes, actions, n - 1), actions[n - 1]);
    }
  }
}
