/** The hub as an object with its queues and counters. */
module TerminalHubObject {
  import opened Text
  import opened TerminalHub

  class HubObject {
    const maxBytes: nat
    var device: Option<nat>
    var output: seq<string>
    var input: seq<string>
    var submitted: seq<string>
    var outputBytes: int
    var inputBytes: int
    var submittedBytes: int
    var disposed: bool
    var batchActive: bool
    var running: bool
    var flushQueued: bool
    var batchTail: Tail
    var batches: seq<Batch>
    ghost var log: Log

    ghost function View(): Hub
      reads this
    {
      Hub(maxBytes, device, output, input, submitted, outputBytes, inputBytes, submittedBytes, disposed, batchActive,
          running, flushQueued, batchTail, batches, log)
    }

    constructor (maxBytes: nat)
      ensures View() == NewHub(maxBytes)
    {
      this.maxBytes := maxBytes;
      device, output, input, submitted := None, [], [], [];
      outputBytes, inputBytes, submittedBytes := 0, 0, 0;
      disposed, batchActive, running, flushQueued := false, false, false, false;
      batchTail, batches, log := Resolved, [], Log([], [], [], []);
    }

    /** What was held back goes to the new device, oldest first. */
    method FlushOutput(next: nat)
      modifies this`output, this`outputBytes, this`log
      ensures output == [] && outputBytes == old(outputBytes) - Bytes(old(output))
      ensures log == old(log).(shown := old(log).shown + ShownOn(next, old(output)))
    {
      ghost var all, i := output, 0;
      assert log.shown + ShownOn(next, all[..0]) == log.shown;
      while |output| > 0
        invariant 0 <= i <= |all| && output == all[i..]
        invariant log == old(log).(shown := old(log).shown + ShownOn(next, all[..i]))
        invariant outputBytes - Bytes(output) == old(outputBytes) - Bytes(all)
        decreases |output|
      {
        var data := output[0];
        assert output == [data] + output[1..];
        BytesAppend([data], output[1..]);
        BytesOne(data);
        assert ShownOn(next, all[..i]) + ShownOn(next, [data]) == ShownOn(next, all[..i + 1]);
        log := log.(shown := log.shown + ShownOn(next, [data]));
        output := output[1..];
        outputBytes := outputBytes - ByteLength(data);
        i := i + 1;
      }
      assert all[..i] == all;
      BytesOfNothing();
    }

    method AttachDevice(next: nat)
      modifies this
      ensures View() == Attach(old(View()), next)
    {
      if disposed || device == Some(next) {
        return;
      }
      device := None;
      FlushOutput(next);
      device := Some(next);
    }

    method DetachDevice(which: Option<nat>)
      modifies this`device
      ensures View() == Detach(old(View()), which)
    {
      if which.None? || device == which {
        device := None;
      }
    }

    method Write(data: string, prompt: bool) returns (ok: bool)
      modifies this
      ensures (View(), ok) == WriteOutput(old(View()), data, prompt)
    {
      if data == "" {
        return true;
      }
      if prompt {
        FinishCommand();
      }
      if device.Some? {
        log := log.(written := log.written + [data], shown := log.shown + ShownOn(device.value, [data]));
        return true;
      }
      var dataBytes := ByteLength(data);
      if dataBytes + outputBytes > maxBytes {
        return false;
      }
      output := output + [data];
      outputBytes := outputBytes + dataBytes;
      log := log.(written := log.written + [data]);
      return true;
    }

    method FinishCommand()
      modifies this
      ensures View() == FinishInteractive(old(View()))
    {
      if !running {
        return;
      }
      running := false;
      batches := seq(|batches|, i requires 0 <= i < |batches| reads this => Wake(batches[i]));
      Schedule();
    }

    method Schedule()
      modifies this`flushQueued
      ensures View() == ScheduleFlush(old(View()))
    {
      if flushQueued || disposed || |submitted| == 0 {
        return;
      }
      flushQueued := true;
    }

    ghost method Take(way: Way, texts: seq<string>)
      modifies this`log
      ensures View() == TerminalHub.Take(old(View()), way, texts)
    {
      log := log.(accepted := log.accepted + Tag(way, texts));
    }

    method Deliver(ghost way: Way, data: string)
      modifies this`running, this`log
      ensures View() == DeliverPiece(old(View()), way, data)
    {
      if !running && HasLineEnd(data) {
        running := true;
      }
      log := log.(heard := log.heard + Tag(way, [data]));
    }

    method ReceiveInput(data: string) returns (ok: bool)
      modifies this
      ensures (View(), ok) == AcceptInput(old(View()), data)
    {
      hide HasLineEnd, ByteLength, EnqueueSubmissions, Submissions;
      if data == "" {
        return true;
      }
      if batchActive {
        var dataBytes := ByteLength(data);
        if dataBytes > maxBytes - inputBytes - submittedBytes {
          return false;
        }
        input := input + [data];
        inputBytes := inputBytes + dataBytes;
        Take(Held, [data]);
        return true;
      }
      if running && Submission(data) {
        var pieces := SplitCommandSubmissions(data);
        ok := EnqueueAll(pieces);
        return;
      }
      Take(Direct, [data]);
      Deliver(Direct, data);
      return true;
    }

    /** One submission after the other, up to the first that does not fit. */
    method EnqueueAll(pieces: seq<string>) returns (ok: bool)
      modifies this
      ensures (View(), ok) == EnqueueSubmissions(old(View()), pieces)
    {
      hide ByteLength, Tag;
      var i := 0;
      while i < |pieces|
        invariant 0 <= i <= |pieces| && (View(), true) == EnqueueSubmissions(old(View()), pieces[..i])
      {
        assert pieces[..i + 1][..i] == pieces[..i];
        var bytes := ByteLength(pieces[i]);
        if bytes > maxBytes - inputBytes - submittedBytes {
          RefusedStays(old(View()), pieces, i + 1);
          return false;
        }
        submitted := submitted + [pieces[i]];
        submittedBytes := submittedBytes + bytes;
        Take(Lined, [pieces[i]]);
        i := i + 1;
      }
      assert pieces[..|pieces|] == pieces;
      return true;
    }

    lemma {:induction false} RefusedStays(h: Hub, pieces: seq<string>, i: nat)
      requires i <= |pieces| && !EnqueueSubmissions(h, pieces[..i]).1
      ensures EnqueueSubmissions(h, pieces) == EnqueueSubmissions(h, pieces[..i])
      decreases |pieces|
    {
      if i == |pieces| {
        assert pieces[..i] == pieces;
      } else {
        assert pieces[..|pieces| - 1][..i] == pieces[..i];
        RefusedStays(h, pieces[..|pieces| - 1], i);
      }
    }

    /** The flush that was scheduled: one submission, if the shell is free. */
    method FlushSubmission()
      requires flushQueued
      modifies this
      ensures View() == RunFlush(old(View()))
    {
      flushQueued := false;
      if disposed || batchActive || running || |submitted| == 0 {
        return;
      }
      var piece := submitted[0];
      submitted := submitted[1..];
      submittedBytes := submittedBytes - ByteLength(piece);
      Deliver(Lined, piece);
    }

    /** What came in during the batch. */
    method FlushBatchInput()
      modifies this
      ensures View() == FlushInput(old(View()))
    {
      var queued := input;
      input, inputBytes := [], 0;
      ghost var start := View();
      var i := 0;
      while i < |queued|
        invariant 0 <= i <= |queued| && View() == DeliverPieces(start, Held, queued[..i])
      {
        assert queued[..i + 1][..i] == queued[..i];
        Deliver(Held, queued[i]);
        i := i + 1;
      }
      assert queued[..|queued|] == queued;
    }

    /** A call gets in line behind what the tail waits for, and becomes the tail. */
    method CallRunBatch() returns (previous: Tail, i: nat)
      modifies this`batchTail, this`batches
      ensures View() == Step(old(View()), CallBatch) && i == |old(batches)| && batches[i] == Batch(previous, Queued)
    {
      previous, i := batchTail, |batches|;
      batchTail := Then(batchTail, i);
      batches := batches + [Batch(previous, Queued)];
    }

    /** Its turn has come: it waits for the shell to be idle, unless it is. */
    method WaitForIdle(i: nat) returns (idle: bool)
      requires IsPhase(View(), i, Queued) && Settled(batches[i].previous, batches)
      modifies this`batches
      ensures View() == Step(old(View()), EnterBatch(i)) && idle == !running
    {
      idle := !running;
      batches := batches[i := batches[i].(phase := if running then WaitingIdle else Ready)];
    }

    method StartBatch(i: nat)
      requires IsPhase(View(), i, Ready)
      modifies this
      ensures View() == Step(old(View()), ActivateBatch(i))
    {
      batchActive := true;
      batches := batches[i := batches[i].(phase := Active)];
    }

    /** The `finally` of a batch: flag down, then the input, then the submissions, then the gate. */
    method LeaveBatch(i: nat)
      requires i < |batches|
      modifies this
      ensures View() == EndBatch(old(View()), i)
    {
      hide DeliverPieces;
      batchActive := false;
      DeliverIsQuiet(View().(input := [], inputBytes := 0), Held, input);
      FlushBatchInput();
      Schedule();
      batches := batches[i := batches[i].(phase := Done)];
    }

    method DropEverything()
      modifies this
      ensures View() == Dropped(old(View()))
    {
      disposed, device, flushQueued := true, None, false;
      EmptyQueues();
    }

    method EmptyQueues()
      modifies this`output, this`input, this`submitted, this`outputBytes, this`inputBytes, this`submittedBytes
      ensures output == [] && input == [] && submitted == []
      ensures outputBytes == 0 && inputBytes == 0 && submittedBytes == 0
    {
      output, input, submitted := [], [], [];
      outputBytes, inputBytes, submittedBytes := 0, 0, 0;
    }

    method DisposeAll()
      modifies this
      ensures View() == Dispose(old(View()))
    {
      hide FinishInteractive;
      if !disposed {
        DropEverything();
        FinishCommand();
      }
    }
  }
}
