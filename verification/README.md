# Succinix control plane, modelled in Dafny

Succinix drives an execution world inside a browser tab. Its control plane is a handful of state machines and encodings
that sit between the page, a host process in the container, and storage that may stop at any moment. This project models
them and proves what they keep.

`dafny verify dfyconfig.toml` checks everything.

## What is modelled

- **Text cores** (`Text`, `Tokenize`, `ShellGrammar`, `ProcessOutput`, `Editors`, `EditorColumns`): the shell tokenizer and the quoting
  printer against a grammar of every text, the bounded UTF-8 output tail, the line buffer of the editors seen as one text, and how lines are cut to the
  screen.
- **Process projection** (`ProcessWorld`): public PIDs over any run of projections, prunes and forgets.
- **Terminal transport** (`TransportProtocol`, `TerminalTransport`, `TerminalTransportRuns`, `TerminalControls`,
  `TerminalLife`): frame file names, the browser half of the mailbox as an object, and its runs with failures, fences, nonce
  renewals and overlapping polls.
- **Terminal hub** (`TerminalHub`, `TerminalHubRuns`, `TerminalHubObject`): device, queues, shell and the promise chain of
  batch calls. An `await` is a point where any other step may come in between.
- **Terminal registry** (`TerminalRegistry`, `TerminalRegistryRuns`, `TerminalService`): spawn, kill and disposal of owner-scoped sessions, with
  the code between two awaits as one step.
- **File RPC v2** (`RpcIds`, `RpcChannel`, `RpcHost`, `RpcProtocol`, `RpcAcceptance`, `RpcProgress`, `RpcTwins`,
  `RpcMailbox`): the page's channel, any number of hosts over time, and the shared slot, ack, result and epoch files as one transition system.
- **Session logs** (`JsonLines`, `PersistenceJsonl`, `LogBalance`, `LogCodecs`, `LogRepair`; `SessionSegments`, `SegmentedLog`,
  `SegmentedLogRuns`, `SegmentedLogFiles`, `SegmentedLogRepair`, `SegmentedSessionLog`): the single-file log with its repair and synthetic closing events, and the
  segmented log under a manifest. JSON is an encode and decode pair; an encoded record holds no raw newline (section 7 of
  RFC 8259) and no strict beginning of one decodes. File operations are atomic steps and a crash may fall between any two.
- **Snapshots** (`BinarySnapshot`, `BinarySnapshotRuns`, `SnapshotTree`, `RestoreStaging`, `SnapshotFilters`,
  `PersistContext`, `PersistCalls`): generations of chunks under a pointer, pruning and staged restore with rollback, the filters of
  listing and export, and the single-flight save.

Objects whose fields the source updates in place are classes here. Each method is proved equal to one step of a
specification function, and the runs of those functions carry the theorems.

## Where a promise holds only under a condition

Each of these is stated as the exact condition, or with the run that breaks it.

- The tokenizer reads back what the printer wrote exactly for lists of `Faithful` arguments: not empty, and no backslash
  that its quote would swallow (`Tokenize.RoundTripExactly`).
- After a crash in the middle of an append the log is readable, but the manifest still has the old next number. The next
  batch keeps it readable exactly when nothing of the interrupted batch survived (`SegmentedLogRuns.AppendAfterCrash`).
- A record cut exactly in front of its newline still parses and is not repaired. Repair of the single-file log then works
  exactly when nothing was open (`LogRepair.RepairAfterAnyCut`); an append onto such a segment works exactly when it
  starts a new one (`SegmentedLogRepair.AppendOntoCut`).
- `compact` takes the manifest before reading repairs it. On a torn log this leaves a gap in front of the next number
  (`SegmentedLogRepair.CompactOfTornLogLeavesAGap`).
- Clearing binary snapshots is not atomic; every stage it can be stopped at is described
  (`BinarySnapshotRuns.StoppedClear`), and what the next completed save makes of it
  (`BinarySnapshotRuns.SaveAfterStoppedClear`).
- The export has another filter than the listing. A saved snapshot can be restored exactly when the two agree on all files
  and empty directories (`RestoreStaging.SavedSnapshotPassesTheStage`), and a rollback brings a file back exactly when the
  export does not drop it or the failed restore left it alone (`RestoreStaging.RollbackRestoresTheFiles`). With the default
  filters they differ on a file such as `/src/result-1.json` (`SnapshotFilters.FiltersDifferOn`).
- A listed empty directory survives pruning exactly when every directory between it and the root is itself listed or
  holds a file of the snapshot (`SnapshotTree.EmptyDirSurvives`).
- One more clear is safe exactly when no clear is under way (`PersistContext.OneMoreClearIsSafe`); otherwise a save can come
  to write while a clear deletes. A save marks changes noticed while it was writing as saved
  (`PersistContext.CompletedSaveMarksAllChanges`).
- A failed input flush queues its whole batch again. Input is exactly once exactly when no write fails in a batch of which
  text has been written already (`TerminalTransportRuns.InputIsExactlyOnceUnlessRepeated`).
- A batch may run beside an interactive command, exactly when a line was heard between its call becoming ready and its
  beginning and no prompt has come since (`TerminalHubRuns.BatchOverlapsACommand`). Input held back by a batch and input that
  goes straight to the shell overtake submissions in line (`TerminalHubRuns.OrderIsKeptUnlessOvertaken`). A flushed
  submission without a line end strands the others (`TerminalHubRuns.StepKeepsTheLineMoving`).
- The fence between two hosts is taken down by the resume and by a preparation without pause that finds no prepared epoch,
  and by nothing else (`RpcProtocol.FenceHoldsOverRuns`). Two live hosts of one epoch can always be led to run one request
  (`RpcTwins.TwinsCanAlwaysMeet`).
- vi's `a` leaves the buffer exactly at the end of a line (`Editors.AppendModeLeavesBounds`), and a vertical move ends inside
  a surrogate pair exactly when the column, cut to the target line, parts one (`Editors.MovesEndBetweenCodePoints`).

## Model

| member | source | states |
|---|---|---|
| `Tokenize.Tokenize` | src/engine/tokenize.ts:16-72 | The loop over quotes, escapes and blanks computes the recursive reading, with the error for an open quote |
| `Tokenize.TokensAreNotEmpty` | src/engine/tokenize.ts:58-62 | No token is empty, and a word already begun is the beginning of the first token |
| `Tokenize.HasUnsupportedHereDocument` | src/engine/tokenize.ts:92-113 | The loop computes the recursive search for an unquoted `<<` |
| `ShellGrammar.EveryTextIsWritten` | src/engine/tokenize.ts:16-72 | Every text is written in the grammar: plain, escaped and blank characters, quoted parts closed or left open, a last backslash |
| `ShellGrammar.ReadsWhatIsWritten` | src/engine/tokenize.ts:16-72 | However a text is written, the tokenizer reads the words that were meant, and fails if and only if a quote is left open |
| `ShellGrammar.FindsExactlyTheMarks` | src/engine/tokenize.ts:92-113 | A here-document is found if and only if two `<` stand side by side that are neither quoted nor escaped |
| `Tokenize.RoundTripExactly` | src/services/world-client.ts:15-17 | Tokenizing the joined printed arguments gives the list back if and only if every argument is faithful |
| `Tokenize.TrailingBackslashIsNotReadBack` | src/services/world-client.ts:15-17 | No list that has an argument ending in a backslash is read back |
| `Tokenize.PrintedArgumentsHoldNoHereDocument` | src/services/world-client.ts:15-24 | Printed arguments are never taken for a here-document, whatever they contain |
| `ProcessOutput.DecodeEncode` | src/engine/host-procs.ts:243-250 | Strict UTF-8 decoding undoes encoding (section 3 of RFC 3629) |
| `ProcessOutput.DecodedIsEncoded` | src/engine/host-procs.ts:243-250 | And only encodings are decoded: no overlong form, no stray byte |
| `ProcessOutput.TailIsLongestFittingSuffix` | src/engine/host-procs.ts:242-251 | The tail is a suffix on a code point boundary that fits, and no longer suffix fits |
| `ProcessOutput.CutThenSkipIsTail` | src/engine/host-procs.ts:245-250 | Skipping continuation bytes from the byte cut lands exactly on the first character of that tail |
| `ProcessOutput.Utf8Tail` | src/engine/host-procs.ts:242-251 | The byte loop returns that tail of every text and limit |
| `ProcessOutput.TailOfTailIsTail` | src/engine/host-procs.ts:239 | Cutting after every chunk loses nothing that one cut at the end would keep |
| `ProcessOutput.ProcEntry.AppendProcessOutput` | src/engine/host-procs.ts:236-240 | After any sequence of chunks the kept output is the tail of all of them joined |
| `Editors.SplitKeysLoop` | src/engine/host/editors.ts:271 | The scanner splits off one key after the other |
| `Editors.KeysSpellTheInput` | src/engine/host/editors.ts:271 | The keys joined are the input, and none is empty |
| `Editors.ArrowIsOneKey` | src/engine/host/editors.ts:271 | An arrow sequence is always one key, whatever follows |
| `Editors.SplitsIntoKeys` | src/engine/host/editors.ts:271 | Every key is an arrow, a sequence up to its first tilde, or one code point, and escape is a key of its own only when neither goes on from it |
| `Editors.KeysAreSplitOnly` | src/engine/host/editors.ts:271 | Any list of such keys is what its joined text is split into: there is no other split |
| `Editors.EveryKeyHasItsEffect` | src/engine/host/editors.ts:160-172 | A key that begins with a printable unit, delete aside, goes in as it is, enter adds a line, an erasing key adds nothing, and every other key does nothing |
| `Editors.BufferState.Edit` | src/engine/host/editors.ts:160-172 | The in-place edit is the specified one |
| `Editors.EditInserts` | src/engine/host/editors.ts:161-165 | Enter and printable keys insert exactly their text at the cursor offset of the joined text and leave the cursor behind it |
| `Editors.EditErases` | src/engine/host/editors.ts:166-170 | Backspace removes exactly what lies between the new and the old cursor offset: a code point, or the newline; nothing at the start |
| `Editors.BackspaceRemovesOneCodePoint` | src/engine/host/editors.ts:225-229 | Backspace removes one whole code point if and only if the cursor is between code points and no lone low surrogate precedes it |
| `Editors.RemoveCharErases` | src/engine/host/editors.ts:181 | `x` removes the next code point from the joined text and keeps the cursor offset |
| `Editors.RemoveCharRemovesOneCodePoint` | src/engine/host/editors.ts:231-235 | `x` removes one whole code point if and only if the cursor is between code points and not on a lone high surrogate in front of another unit |
| `Editors.BufferState.Move` | src/engine/host/editors.ts:174-180 | The in-place move is the specified one |
| `Editors.MoveKeyStaysInBounds` | src/engine/host/editors.ts:174-180 | Every move ends in bounds, even from a column behind the end of the line |
| `Editors.MovesEndBetweenCodePoints` | src/engine/host/editors.ts:174-180 | In well-formed text left and right always end between code points; up and down do if and only if the column, cut to the target line, parts no surrogate pair |
| `Editors.ErasingInsideAPair` | src/engine/host/editors.ts:166-181 | Inside a pair backspace takes the first half and `x` the second, and the other half stays behind alone |
| `Editors.ErasingAfterAMove` | src/engine/host/editors.ts:160-181 | After a move backspace and `x` keep the text well formed if and only if the move ended between code points |
| `Editors.LeftAndRightAreInverse` | src/engine/host/editors.ts:175-176 | On well-formed text, between code points, left undoes right and right undoes left |
| `Editors.VerticalMoveCanSplitAPair` | src/engine/host/editors.ts:177-179 | The simplest move into a pair: down into a line that starts with one |
| `Editors.EditKeepsBoundary` | src/engine/host/editors.ts:160-172 | Editing well-formed text from a boundary keeps the text well formed and the cursor on a boundary |
| `Editors.AppendModeLeavesBounds` | src/engine/host/editors.ts:97 | vi's `a` keeps the cursor in bounds if and only if it was not at the end of its line; there the first backspace removes nothing |
| `Editors.BufferState.Search` | src/engine/host/editors.ts:182-190 | The search loop finds what the specification finds |
| `Editors.MoveToMatchFindsTheNext` | src/engine/host/editors.ts:182-194 | The jump goes to the first match behind the cursor, else to the first of the buffer, and nowhere only when there is none |
| `EditorColumns.StringWidth` | src/engine/host/editors.ts:237-251 | The loop sums the column widths of the code points |
| `EditorColumns.PairsAreRead` | src/engine/host/editors.ts:237-251 | Two units are one code point if and only if they are its UTF-16 pair (section 2.1 of RFC 2781) |
| `EditorColumns.WidthIsSplit` | src/engine/host/editors.ts:237-251 | Widths add up at every cut that parts no surrogate pair |
| `EditorColumns.TruncateColumns` | src/engine/host/editors.ts:253-265 | The loop computes the specified cut |
| `EditorColumns.FittingIsLongest` | src/engine/host/editors.ts:258-263 | What is taken ends between code points, fits, and no longer beginning fits |
| `EditorColumns.TruncatedLineFits` | src/engine/host/editors.ts:253-265 | The result never takes more columns than there are; a line that fits is unchanged, any other keeps its longest beginning that leaves room for the dots |
| `ProcessWorld.LookupInvertsResolve` | src/engine/host/process-world.ts:170-172 | A key has a public PID if and only if that PID resolves to the key |
| `ProcessWorld.ProjectionIsExact` | src/engine/host/process-world.ts:129-167 | After a projection exactly the keys just seen remain of that instance and kind, survivors keep their PIDs, other keys are untouched |
| `ProcessWorld.VisibleAfter` | src/engine/host/process-world.ts:91-180 | What has a public PID after each action: exactly the listed processes above 1 that are not the shell, the listed services, a service asked for; nothing of other instances and kinds changes |
| `ProcessWorld.PublicPidsAreNeverReused` | src/engine/host/process-world.ts:182-205 | Over any run the two maps stay inverse and no public PID is given to two keys, at any two moments |
| `ProcessWorld.PublicPidIsStable` | src/engine/host/process-world.ts:104-109 | A key seen by every projection of its instance and kind keeps its PID |
| `ProcessWorld.LifoProcessProjection.AllocatePublicPid` | src/engine/host/process-world.ts:182-185 | A new PID is free and above every earlier one |
| `ProcessWorld.LifoProcessProjection.Project` | src/engine/host/process-world.ts:91-131 | Both maps and the reported PIDs are those of the specified projection of processes |
| `ProcessWorld.LifoProcessProjection.ProjectServices` | src/engine/host/process-world.ts:143-168 | The same for services |
| `ProcessWorld.LifoProcessProjection.ForgetInstance` | src/engine/host/process-world.ts:174-180 | Removes exactly the keys of the instance |
| `ProcessWorld.LifoProcessProjection.PruneKind` | src/engine/host/process-world.ts:198-205 | Removes exactly the keys of that instance and kind that were not seen |
| `TransportProtocol.FrameFileRoundTrip` | src/terminal/transport-protocol.ts:97-107 | A frame file is read back under its own direction if and only if its number has at most twelve digits, and never under the other |
| `TransportProtocol.FrameFilesAreDistinct` | src/terminal/transport-protocol.ts:97-100 | Different frames have different file names |
| `TransportProtocol.NamesAreWritten` | src/terminal/transport-protocol.ts:97-100 | `in-` or `out-`, the number padded to twelve digits, `.json` |
| `TransportProtocol.NamesAreRead` | src/terminal/transport-protocol.ts:102-107 | A name is read as `n` if and only if it is the prefix, one to twelve digits of value `n` above zero, and the extension |
| `TerminalTransport.SplitByBytes` | src/terminal/transport.ts:388-401 | The loop computes the greedy split |
| `TerminalTransport.PiecesSpellTheValue` | src/terminal/transport.ts:388-401 | The pieces joined are the value, each is within the limit or a single character, and none is empty unless the value is |
| `TerminalTransport.PackIsGreedy` | src/terminal/transport.ts:393-398 | No piece could also have taken the first character of the next |
| `TerminalTransport.TakeFrames` | src/terminal/transport.ts:290-301 | The inner loop takes the longest beginning of the queue that is within the frame limit, at least one frame |
| `TerminalTransport.RpcTerminalClient.EnqueueFrame` | src/terminal/transport.ts:236-253 | Accepts or refuses as specified; a refused frame changes nothing |
| `TerminalTransport.RpcTerminalClient.PushFrame` | src/terminal/transport.ts:255-267 | Repeated control frames are merged, and at most 64 of them wait |
| `TerminalTransport.RpcTerminalClient.FinishWrite` | src/terminal/transport.ts:303-313 | One write of the batch: numbered and sent, or the whole batch back in the queue |
| `TerminalTransport.RpcTerminalClient.BeginDispose` | src/terminal/transport.ts:182-188 | While the session is open, or still opening, the queue is replaced by one dispose frame |
| `TerminalTransport.RpcTerminalClient.Write` | src/terminal/transport.ts:129-143 | Output goes to the sinks, or is held within the limit, or is refused |
| `TerminalTransport.RpcTerminalClient.PollFrame` | src/terminal/transport.ts:325-338 | What one turn of the poll loop does with one frame file |
| `TerminalTransportRuns.InputStaysBounded` | src/terminal/transport.ts:236-317 | Through any failures, requeues, fences, renewals and disposal the byte counter is exact, and queued plus in-flight input is at most the buffer plus one frame limit |
| `TerminalTransportRuns.InputIsExactlyOnceUnlessRepeated` | src/terminal/transport.ts:280-317 | Sent data followed by queued data is the accepted text if and only if no write failed in a batch of which text had been written already |
| `TerminalTransportRuns.InputNumbersGrow` | src/terminal/transport.ts:304-307 | Input frame numbers grow strictly, over epochs too, and have no gap without failed writes |
| `TerminalTransportRuns.OutputIsExactlyOnceInOrder` | src/terminal/transport.ts:319-344 | Whatever polls read, in whatever overlap: the data handed on in an epoch is that of frames 1 to `outputSeq`, once and in order |
| `TerminalTransportRuns.RefusalLosesNothing` | src/terminal/transport.ts:331-337 | A frame that is not taken changes nothing; a taken one advances the number by one |
| `TerminalTransportRuns.OutputReachesTheSinkInOrder` | src/terminal/transport.ts:129-160 | Shown output followed by held output is all output taken, over all epochs, until disposal |
| `TerminalControls.LatestSizeSurvives` | src/terminal/transport.ts:175-180 | Over all runs until a fence or the disposal: through merging, failed and repeated writes the latest size on the wire is the last one that was taken |
| `TerminalControls.StepKeepsLatest` | src/terminal/transport.ts:236-267 | A control frame asked for becomes the latest of its kind if and only if the client is neither gone nor fenced, its queue is within the limit, and one of its kind waits last or fewer than 64 frames without data wait |
| `TerminalLife.LifeIsToldByTheActions` | src/terminal/transport.ts:111-234 | Over all runs: gone, fenced, opening, running and the nonce are told by the actions so far: by the last disposal, fence, renewal and opening that had an effect |
| `TerminalLife.InputIsTakenExactly` | src/terminal/transport.ts:236-288 | Over all runs: input is taken if and only if there is any, the client is neither gone nor fenced and it fits behind what waits; a batch begins if and only if something waits, none is under way and the client runs |
| `TerminalLife.AttemptsAreNumbered` | src/terminal/transport.ts:303-309 | Every attempt at a write uses up a number, failed or not |
| `TerminalLife.VerdictIsTold` | src/terminal/transport.ts:324-338 | Over all runs: a frame file is dropped if it is unreadable, foreign or not new, waits behind a gap, and is refused if and only if nobody listens and it does not fit beside what is held |
| `TerminalLife.ListenersAreToldByTheActions` | src/terminal/transport.ts:150-160 | How many listen is the most subscriptions over ends of any last part of the run, and nobody after disposal |
| `TerminalHub.SplitCommandSubmissions` | src/engine/terminal-hub.ts:263-273 | The loop over line ends computes the recursive split |
| `TerminalHub.SubmissionsSpellTheData` | src/engine/terminal-hub.ts:263-273 | The submissions joined are the data |
| `TerminalHub.SubmissionsEndTheirLines` | src/engine/terminal-hub.ts:266-271 | No submission is empty, and all but perhaps the last end with a line end |
| `TerminalHub.SplitsIntoSubmissions` | src/engine/terminal-hub.ts:263-273 | Every submission is a line with its end, a carriage return never parted from its line feed, or the unfinished rest |
| `TerminalHub.SubmissionsAreSplitOnly` | src/engine/terminal-hub.ts:263-273 | Any list of such submissions is what its joined text is split into |
| `TerminalHub.HubConservesAndSerializes` | src/engine/terminal-hub.ts:48-234 | In every run: the counters are the byte sums within the limit; until disposal what the devices were given and what is held is the output taken, and on each way, direct, held back, in line, what the listeners were given and what waits is the input taken; a batch call that has begun found all earlier ones done |
| `TerminalHub.SettledIsAllDone` | src/engine/terminal-hub.ts:100-105 | The promise a call awaits is settled if and only if the gates of all earlier calls are open |
| `TerminalHub.InputIsTaken` | src/engine/terminal-hub.ts:157-192 | What counts as taken: the whole of the data on its way, or, when it is refused, a beginning of its submissions |
| `TerminalHub.OutputIsTaken` | src/engine/terminal-hub.ts:75-91 | Output is taken if and only if a device is attached, which is given it at once, or it fits behind what is held |
| `TerminalHub.HeldInputFits` | src/engine/terminal-hub.ts:157-172 | During a batch input is held back whole if and only if it fits beside what waits |
| `TerminalHub.LinedInputFits` | src/engine/terminal-hub.ts:183-192 | While a command runs the longest beginning of the submissions that fits is lined up |
| `TerminalHub.OtherInputGoesStraight` | src/engine/terminal-hub.ts:157-172 | All other input goes straight to the shell and is always taken |
| `TerminalHubRuns.OrderIsKeptUnlessOvertaken` | src/engine/terminal-hub.ts:107-212 | Over all runs until disposal the input of all ways together is heard in the order it came in if and only if no step gives the listeners other input while submissions are in line |
| `TerminalHubRuns.NothingIsHeardDuringABatch` | src/engine/terminal-hub.ts:157-172 | While a batch runs no listener is given any input |
| `TerminalHubRuns.StepRuns` | src/engine/terminal-hub.ts:194-238 | The shell is busy after a step if and only if a line end was handed over in it, or it was busy and no prompt came |
| `TerminalHubRuns.OverlapBeginsWithTheBatch` | src/engine/terminal-hub.ts:107-109 | A step brings a batch and a command together if and only if it begins a ready batch while the shell is busy |
| `TerminalHubRuns.BatchOverlapsACommand` | src/engine/terminal-hub.ts:99-116 | Over all runs a running batch has a command beside it if and only if a line was heard after its call had become ready and before it began, and no prompt has come since |
| `TerminalHubRuns.QueuedLineMeetsTheBatch` | src/engine/terminal-hub.ts:214-234 | A run from the start in which a queued submission is faster than the batch |
| `TerminalHubRuns.NewLineMeetsTheBatch` | src/engine/terminal-hub.ts:157-172 | A run from the start in which new input is |
| `TerminalHubRuns.StepKeepsTheLineMoving` | src/engine/terminal-hub.ts:206-234 | A step leaves queued submissions stranded if and only if it flushes one without a line end in front of others |
| `TerminalHubRuns.UnfinishedLineStopsTheOthers` | src/engine/terminal-hub.ts:206-234 | A run from the start that strands a line |
| `TerminalHubRuns.CallsWaitForACommand` | src/engine/terminal-hub.ts:99-109 | In every run a batch call waits for the prompt only while a command runs |
| `TerminalHubRuns.ACallGoesThrough` | src/engine/terminal-hub.ts:99-116 | In every run a call whose predecessors are done goes through when the shell is idle, and the input held back meanwhile is then heard in order |
| `TerminalHubRuns.DeviceIsToldByTheActions` | src/engine/terminal-hub.ts:48-73 | In every run the device is the last one attached, unless it was detached since or the hub is gone |
| `TerminalHubObject.HubObject.FlushOutput` | src/engine/terminal-hub.ts:55-60 | What was held back goes to the device, oldest first |
| `TerminalHubObject.HubObject.Write` | src/engine/terminal-hub.ts:75-91 | Shown, held within the limit, or refused |
| `TerminalHubObject.HubObject.ReceiveInput` | src/engine/terminal-hub.ts:157-172 | Delivered, queued for after the batch, or queued as submissions |
| `TerminalHubObject.HubObject.EnqueueAll` | src/engine/terminal-hub.ts:183-192 | Submissions are queued up to the first that does not fit |
| `TerminalHubObject.HubObject.FlushSubmission` | src/engine/terminal-hub.ts:206-212 | At most one submission is delivered, and only to an idle shell outside a batch |
| `TerminalHubObject.HubObject.CallRunBatch` | src/engine/terminal-hub.ts:101-104 | A call awaits what the tail awaited, and the tail then awaits its gate |
| `TerminalHubObject.HubObject.WaitForIdle` | src/engine/terminal-hub.ts:107 | A call whose turn has come is ready at once only if the shell is idle |
| `TerminalHubObject.HubObject.LeaveBatch` | src/engine/terminal-hub.ts:110-115 | Flag, held input, submissions, gate, in that order |
| `TerminalRegistry.RegistryIsSafe` | src/plugin/terminal-service.ts:72-335 | In every run: sessions of one owner that are published or being opened have different names, the published spawns are exactly the registered sessions, and no session has two closes in flight |
| `TerminalRegistry.LeaksAreReported` | src/plugin/terminal-service.ts:106-130 | A backend session that was neither published nor closed stays on record until a disposal that covers it has failed |
| `TerminalRegistry.DisposedStaysEmpty` | src/plugin/terminal-service.ts:284-335 | After a disposal has succeeded no session it covers is published, then or later, and every covered spawn ended refused, rolled back, closed, or as a leak reported by another disposal |
| `TerminalRegistryRuns.PublishedByItsAnswer` | src/plugin/terminal-service.ts:86-117 | Over all runs: a spawn is published by its answer if and only if the answer is a session, the caller has not aborted, the owner is live, and neither it nor the service has been disposed of earlier |
| `TerminalRegistryRuns.PublishedUntilClosed` | src/plugin/terminal-service.ts:105-113 | And it is still published at a later moment if and only if no close of it has succeeded in between |
| `TerminalRegistryRuns.CallIsTaken` | src/plugin/terminal-service.ts:72-86 | Over all runs: a call is taken if and only if the owner is live and not disposed of, and its name is not empty and not held by that owner |
| `TerminalRegistryRuns.KillBegins` | src/plugin/terminal-service.ts:162-170 | A kill begins a close if and only if the session is published and none is under way |
| `TerminalRegistryRuns.CloseEnds` | src/plugin/terminal-service.ts:322-335 | A close that succeeds removes the session; one that fails leaves it published and free to be closed again |
| `TerminalRegistryRuns.DisposalFinds` | src/plugin/terminal-service.ts:255-264 | A disposal waits for exactly the unsettled spawns it covers and the leaks on record |
| `TerminalRegistryRuns.DisposalWaits` | src/plugin/terminal-service.ts:255-335 | As long as one of them, or one of its closes, is under way it does not go on |
| `TerminalRegistryRuns.DisposalCloses` | src/plugin/terminal-service.ts:284-335 | Then every covered session is being closed, and only those |
| `TerminalRegistryRuns.DisposalSucceeds` | src/plugin/terminal-service.ts:284-320 | It succeeds if and only if no cleanup has failed and every close has succeeded |
| `TerminalService.SuccinixTerminalService.MayHave` | src/plugin/terminal-service.ts:73-79 | The checks and the name reservation agree with the registry: published or reserved names are taken |
| `TerminalService.SuccinixTerminalService.BeginSpawning` | src/plugin/terminal-service.ts:72-86 | Name and spawn are reserved before the backend is called, or the call is refused unchanged |
| `TerminalService.SuccinixTerminalService.BackendAnswered` | src/plugin/terminal-service.ts:94-117 | After the answer the session is published, or its rollback begins, or the setup has failed: `TerminalRegistryRuns.PublishedByItsAnswer` says which |
| `TerminalService.SuccinixTerminalService.KillSession` | src/plugin/terminal-service.ts:162-170 | A close begins, unless one is under way |
| `TerminalService.SuccinixTerminalService.CloseRecords` | src/plugin/terminal-service.ts:261-294 | All sessions there are now are closed, sharing closes under way |
| `TerminalService.SuccinixTerminalService.FinishDisposal` | src/plugin/terminal-service.ts:297-335 | The disposal succeeds if and only if no cleanup and no close failed |
| `RpcIds.RemembersTheLastInserted` | src/engine/rpc-v2.ts:98-119 | Exactly the last `limit` ids that were new when added are remembered, in any order of adds |
| `RpcIds.BoundedProcessedIds.Has` | src/engine/rpc-v2.ts:106-108 | Answers membership in the remembered ids |
| `RpcIds.BoundedProcessedIds.Add` | src/engine/rpc-v2.ts:110-119 | The eviction loop keeps the last `limit` ids; adding a known one changes nothing |
| `RpcChannel.PumpBegins` | src/engine/client.ts:266-274 | In a sound channel the pump begins exactly the next delivery, and its nonce check never fires |
| `RpcMailbox.TerminalClient.PumpDeliveries` | src/engine/client.ts:266-271 | Priority first, one at a time, none while paused |
| `RpcMailbox.TerminalClient.PrepareHostEpoch` | src/engine/client.ts:110-127 | New nonce and prefix and an empty queue, once per prepared epoch |
| `RpcProgress.EpochStartsAfresh` | src/engine/client.ts:110-127 | A new epoch has a nonce and a prefix never drawn before, numbers from the start and empty queues whose calls are rejected; a prepared one is kept |
| `RpcMailbox.TerminalClient.JudgeAcknowledgement` | src/engine/client.ts:301-312 | The judgement does what the specified one does; `RpcAcceptance.AcceptedMeansHanded` and `RpcProgress.AwaitingDeliveryGoesOn` say what that is |
| `RpcProtocol.DeliveriesAreExclusive` | src/engine/client.ts:266-322 | At most one delivery is active, nothing is written twice, nothing dropped at a rotation is written, and nothing unfinished is overwritten |
| `RpcAcceptance.AcceptedMeansHanded` | src/engine/client.ts:301-312 | Over every run: an accepted request was handed to a host of its epoch, no delivery ends with a bad acknowledgement, and what lies under an id in `acks` carries the nonce and instance of that request |
| `RpcAcceptance.RunIsHonest` | src/engine/client.ts:266-322 | Over every run: every acknowledgement is one a host gave to the request it was handed, and what was read of it is kept |
| `RpcProgress.AwaitingDeliveryGoesOn` | src/engine/client.ts:301-312 | A waiting delivery of the current epoch that has read its acknowledgement is accepted at the next judgement; without one it times out or waits on; of an older epoch it ends as restarted |
| `RpcProgress.ForeignAcknowledgementIsRefused` | src/engine/client.ts:301-312 | An acknowledgement with another id, nonce or instance would end the delivery as bad |
| `RpcProgress.AcceptedDeliveryEnds` | src/engine/client.ts:313-322 | And its next step removes the acknowledgement and ends it as accepted |
| `RpcProgress.SettledCallsStay` | src/engine/client.ts:324-384 | What a call has come to stays, whatever happens |
| `RpcProgress.ShutdownIsAskedFor` | src/engine/client.ts:150-161 | A shutdown behind a pause or a prepared epoch comes to nothing; otherwise it is an exit of this epoch that passes the ordinary calls in line |
| `RpcProgress.ACommandGoesThrough` | src/engine/client.ts:266-384 | From every reachable quiet state with a live host of the epoch a call resolves with the reply of the handler to its own request, priority commands even beside a running one |
| `RpcProtocol.ExecResolvesWithItsOwnReply` | src/engine/client.ts:324-384 | An exec resolves only with a reply of its id, nonce and instance; a command result means a host of that epoch was handed the request |
| `RpcProtocol.AcceptedShutdownFences` | src/engine/client.ts:150-161 | An accepted shutdown leaves the channel paused and, unless an epoch was prepared already, in a new epoch with empty queues |
| `RpcProtocol.NothingCrossesTheFence` | src/engine/client.ts:137-161 | From there to the resume nothing is written into the slot, whatever happens, unless the epoch is prepared again without pause |
| `RpcProtocol.FenceStaysUp` | src/engine/client.ts:110-143 | A step leaves the fence up if and only if it is neither the resume nor a preparation without pause that finds no prepared epoch |
| `RpcProtocol.FenceHoldsExactly` | src/engine/client.ts:110-143 | A request can go out right after a step if and only if the step takes the fence down |
| `RpcProtocol.FenceHoldsOverRuns` | src/engine/client.ts:110-161 | Over all runs behind the fence: at no moment could a request have gone out if and only if every step left the fence alone |
| `RpcProtocol.SecondTakeLiftsTheFence` | src/engine/client.ts:129-135 | A second take of the epoch takes the fence down |
| `RpcHost.BeginKeeps` | src/engine/host/main.ts:191-201 | The bounded dedup set never forgets the request that is in the slot |
| `RpcProgress.OneOrdinaryCommandAtATime` | src/engine/host/main.ts:147-263 | Over every run no host has two ordinary commands begun and not ended |
| `RpcProgress.NewRequestIsBegun` | src/engine/host/main.ts:185-263 | A new request of the epoch in the slot is handed over at the next poll: any when the host is free, a ping, interrupt or exit also when only its priority loop is |
| `RpcProgress.OthersWait` | src/engine/host/main.ts:234-263 | While busy an ordinary request of the epoch stays in the slot, and so does any while the priority loop is busy too |
| `RpcProtocol.AtMostOncePerHost` | src/engine/host/main.ts:147-263 | Over every interleaving of page, hosts and handlers a host is handed each request at most once, and only requests of its own epoch that the page made |
| `RpcProtocol.AtMostOnceAnywhere` | src/engine/host/main.ts:185-189 | If hosts have different epochs, a request runs at most once anywhere |
| `RpcProtocol.TwinHostsRunARequestTwice` | src/engine/host/main.ts:88-98 | A run in which two hosts of one epoch both run a request |
| `RpcTwins.TwinsCanAlwaysMeet` | src/engine/host/main.ts:88-98 | The condition is needed: from every reachable state with two live hosts of the current epoch the run can go on so that both are handed one request |
| `RpcMailbox.HostLoop.Tick` | src/engine/host/main.ts:147-228 | One tick does what the specified poll does to host and files |
| `RpcMailbox.HostLoop.TickPriority` | src/engine/host/main.ts:234-263 | One priority tick does what the specified poll does to host and files |
| `RpcProgress.AnswersAreStampedOnce` | src/engine/host/rpc.ts:47-59 | The first answer of a request carries the epoch noted at its beginning, a later one none |
| `PersistenceJsonl.ParseStoredLog` | src/plugin/persistence-jsonl.ts:165-225 | The loop over lines computes the specified parse, with every error and the valid length |
| `PersistenceJsonl.InterruptedState` | src/plugin/persistence-jsonl.ts:233-266 | The loop finds what the specified scan finds, which `LogBalance.FindsWhatIsStillOpen` tells from the events alone |
| `PersistenceJsonl.BuildSyntheticClosers` | src/plugin/persistence-jsonl.ts:268-307 | The loops build the specified closers |
| `PersistenceJsonl.ClosersBalanceTheLog` | src/plugin/persistence-jsonl.ts:268-312 | A log followed by its closers needs none; the closers continue its numbering and can be stored |
| `LogBalance.OpenIsMostNet` | src/plugin/persistence-jsonl.ts:233-266 | How often a turn, step or call is open is the most starts over ends of any part of the log up to its end; the scan fails if and only if the data of such an event is `null` |
| `LogBalance.FindsWhatIsStillOpen` | src/plugin/persistence-jsonl.ts:233-266 | What is found open are exactly the entries of the starts whose ends have at no point since caught up with them, in their order |
| `LogBalance.BalancedExactly` | src/plugin/persistence-jsonl.ts:309-312 | A log is balanced if and only if it can be read and no part of it up to its end starts anything more often than it ends it |
| `LogBalance.ClosersEndWhatIsOpen` | src/plugin/persistence-jsonl.ts:268-307 | The closers end each turn, step and call as often as it is open |
| `LogBalance.ClosersAreWritten` | src/plugin/persistence-jsonl.ts:268-307 | Closer by closer: calls, then steps, then turns, each newest first, with their numbers, time and contents |
| `LogCodecs.BracketCodecIsLawful` | src/plugin/persistence-jsonl.ts:81-135 | The laws asked of the encoding can be met: an encoding of events and headers that meets them |
| `LogRepair.LogReadsBack` | src/plugin/persistence-jsonl.ts:121-225 | A serialized log parses to exactly its events, whole and untorn |
| `LogRepair.ParseBehindLog` | src/plugin/persistence-jsonl.ts:179-216 | Any text behind a healthy log is read as if it stood alone, after its events |
| `LogRepair.GluedRecordsAreLost` | src/plugin/persistence-jsonl.ts:184-197 | Records glued to a cut one are lost, or make the log malformed |
| `LogRepair.RepairAfterRecordCut` | src/plugin/persistence-service.ts:328-339 | For a log cut in any record: the survivors are read, and the repaired text reads back as survivors and closers if and only if the cut was not directly in front of the newline with closers due |
| `LogRepair.RepairAfterAnyCut` | src/plugin/persistence-service.ts:328-339 | The same for a cut at any position behind the header line |
| `LogRepair.RepairOfHealthyLog` | src/plugin/persistence-service.ts:328-343 | The repair of an uncut log reads back as events and closers |
| `LogRepair.AppendAfterRecordCut` | src/plugin/persistence-service.ts:163-178 | Appending to a cut log keeps the batch if and only if the log ended with a newline or had no events |
| `LogRepair.Artifact.PrepareEntry` | src/plugin/persistence-service.ts:305-346 | Hands out the events and closers, and commits the repaired text |
| `LogRepair.Artifact.Append` | src/plugin/persistence-service.ts:139-180 | Refuses a batch with the first wrong number, else writes the text specified |
| `SessionSegments.ParseSegment` | src/persist/session-segments.ts:93-113 | The loop over lines computes the specified parse: events, torn tail, or corruption |
| `SegmentedLog.ParseCut` | src/persist/session-segments.ts:105-111 | A text cut inside its last record reads as torn without it; cut in front of the newline it reads as whole |
| `SegmentedLog.ReadReturnsTheRest` | src/persist/session-segments.ts:242-274 | Reading a represented log from any number gives the rest of the log and changes nothing |
| `SegmentedLogRuns.AppendExtendsTheLog` | src/persist/session-segments.ts:179-229 | A batch is accepted if and only if it continues the log, and then the log is extended by exactly it; an empty one changes nothing and tells whether there is a log |
| `SegmentedLogRuns.AppendKeepsTheBounds` | src/persist/session-segments.ts:198-208 | Segments hold at most `maxEvents` events, and at most `maxBytes` bytes unless they hold one event |
| `SegmentedLogRuns.CrashedAppendReadsBack` | src/persist/session-segments.ts:183-225 | A stop at any operation: reading from an old number gives the old events and a beginning of the batch, from behind them nothing, and a log that did not exist still does not; after the last operation the whole batch is there |
| `SegmentedLogRuns.AppendAfterCrash` | src/persist/session-segments.ts:187-191 | The next batch after such a stop keeps the log readable if and only if nothing of the interrupted batch survived |
| `SegmentedLogRuns.CompactKeepsTheLog` | src/persist/session-segments.ts:276-300 | Compaction puts exactly the same log into one segment |
| `SegmentedLogRuns.CrashedCompactKeepsTheLog` | src/persist/session-segments.ts:286-298 | A stop at any operation of compaction leaves exactly the same log |
| `SegmentedLogRuns.RunKeepsTheLog` | src/persist/session-segments.ts:161-301 | Every run of create, append, compact and read keeps files, manifest and sizes in step with the log of accepted batches |
| `SegmentedLogRuns.RunReadsBack` | src/persist/session-segments.ts:161-301 | From nothing on: reading gives the rest of the accepted batches, the next number is their count, and segment files are distinct |
| `SegmentedLogRuns.RunFillsTheSegments` | src/persist/session-segments.ts:187-208 | Over any run each segment but the last holds as many records as it may, or so many bytes that the first record of the next would have been too much |
| `SegmentedLogFiles.MissingSegmentIsNoticed` | src/persist/session-segments.ts:242-257 | A segment file that is gone is noticed by exactly the reads that need it |
| `SegmentedLogFiles.EmptyLinesAreSkipped` | src/persist/session-segments.ts:98-100 | An empty line anywhere but at an unfinished end means nothing |
| `SegmentedLogFiles.CompactionRemovesTheOldFiles` | src/persist/session-segments.ts:286-300 | After a compaction the new file is there, the old segment files are gone, every other file is as it was |
| `SegmentedLogRepair.TornTailIsRepaired` | src/persist/session-segments.ts:258-273 | Reading a log torn in its last record gives the others and leaves a sound log of just these |
| `SegmentedLogRepair.LostNewlineIsUnseen` | src/persist/session-segments.ts:105-108 | A log that lost only its last newline reads as whole and is not repaired |
| `SegmentedLogRepair.CompactOfTornLogLeavesAGap` | src/persist/session-segments.ts:278-287 | Compacting a torn log leaves a next number one behind the gap, so the log is no longer sound |
| `SegmentedLogRepair.AppendOntoCut` | src/persist/session-segments.ts:192-218 | Appending to a cut log unread leaves it readable if and only if only the newline was lost and the batch started a new segment; which error otherwise |
| `SegmentedSessionLog.SegmentedLogFile.AppendRecords` | src/persist/session-segments.ts:179-229 | Files, manifest and result are those of the specified append |
| `SegmentedSessionLog.SegmentedLogFile.Distribute` | src/persist/session-segments.ts:192-215 | The batch loop grows and rotates segments as specified |
| `SegmentedSessionLog.SegmentedLogFile.WriteSegments` | src/persist/session-segments.ts:216-218 | One atomic write per touched segment |
| `SegmentedSessionLog.SegmentedLogFile.ReadRecords` | src/persist/session-segments.ts:242-274 | Result and repairs are those of the specified read |
| `SegmentedSessionLog.SegmentedLogFile.ReadOne` | src/persist/session-segments.ts:249-266 | One segment: parsed, checked, and written again without a torn line |
| `SegmentedSessionLog.SegmentedLogFile.CompactSegments` | src/persist/session-segments.ts:276-300 | Files, manifest and result are those of the specified compaction |
| `BinarySnapshot.KeysAreInjective` | src/persist/binary-v2.ts:100-102 | Keys are equal if and only if instance, generation and chunk are, whatever the instance is called |
| `BinarySnapshot.ChunksSpellTheData` | src/persist/binary-v2.ts:208-219 | Cutting into chunks and joining them is the identity for every length and chunk size |
| `BinarySnapshot.ReadsExactlyWhatIsSound` | src/persist/binary-v2.ts:165-178 | Whatever the storage holds, exactly bytes that come from all the chunks and have the size and digest of the manifest are accepted |
| `BinarySnapshot.ReadGenerationInPlace` | src/persist/binary-v2.ts:165-178 | The loop that fills the buffer computes the specified reading |
| `BinarySnapshot.RestoreLoop` | src/persist/binary-v2.ts:225-244 | The loop over candidates computes the specified restore |
| `BinarySnapshot.RestoreReturnsTheBestGenuine` | src/persist/binary-v2.ts:225-244 | Restore returns a snapshot if and only if it imports and is the genuine current one, or the genuine last known good one while the current cannot be used |
| `BinarySnapshot.RestoreOfRequested` | src/persist/binary-v2.ts:225-244 | A generation asked for is the only candidate |
| `BinarySnapshot.VerifyJudgesOne` | src/persist/binary-v2.ts:245-253 | Verify is about the requested generation, else the current one, else the last known good one, and gives its manifest if and only if it is genuine |
| `BinarySnapshot.RefusalOfGap` | src/persist/binary-v2.ts:165-178 | Which error a missing chunk comes to |
| `BinarySnapshot.RefusalOfWhole` | src/persist/binary-v2.ts:165-178 | Which error other damage comes to |
| `BinarySnapshotRuns.SavePutsOnlyTheNewGeneration` | src/persist/binary-v2.ts:201-222 | All writes of a save but the last are of the new generation; the last is the pointer |
| `BinarySnapshotRuns.StoppedSaveChangesNothing` | src/persist/binary-v2.ts:215-222 | A stop anywhere before the pointer write: restore and verify give what they gave before, from any storage, and no other generation changed |
| `BinarySnapshotRuns.SavedReadsBack` | src/persist/binary-v2.ts:215-221 | What a save has written reads back as the bytes saved |
| `BinarySnapshotRuns.SaveCompletes` | src/persist/binary-v2.ts:194-224 | A save within the quota always completes, any other changes nothing |
| `BinarySnapshotRuns.SaveKeepsTheQuota` | src/persist/binary-v2.ts:180-192 | After a save the two pointed generations total at most `maxBytes` |
| `BinarySnapshotRuns.RunKeepsTheVault` | src/persist/binary-v2.ts:194-269 | After any run of saves, stopped anywhere, and of clears the storage holds exactly the last two completed exports |
| `BinarySnapshotRuns.VaultIsRestored` | src/persist/binary-v2.ts:225-244 | From there restore gives the current export, else the previous, else an error, else nothing |
| `BinarySnapshotRuns.VaultIsVerified` | src/persist/binary-v2.ts:245-253 | And verify gives the manifest of the current export, with its details, size and digest |
| `BinarySnapshotRuns.StoppedClear` | src/persist/binary-v2.ts:260-269 | What a restore finds after a clear is stopped at each of its operations |
| `BinarySnapshotRuns.SaveAfterStoppedClear` | src/persist/binary-v2.ts:194-269 | A save that completes after a clear was stopped is restored, and nothing stands behind it any more |
| `BinarySnapshotRuns.BinarySnapshotStore.SaveExport` | src/persist/binary-v2.ts:195-224 | Storage and result are those of the specified save |
| `BinarySnapshotRuns.BinarySnapshotStore.Clear` | src/persist/binary-v2.ts:260-269 | The deletes of the specified clear, in its order |
| `PersistContext.AtMostOneSaveRuns` | src/persist/context.ts:234-243 | In every reachable state at most one save is at work; other callers share it, and a forced call is served only by a forced run that began after it, or rejected with the one it waited for |
| `PersistContext.SavesAndClearsDoNotOverlap` | src/persist/context.ts:323-345 | With one clear at a time no save writes while a clear deletes |
| `PersistContext.OneMoreClearIsSafe` | src/persist/context.ts:323-345 | One more clear is safe, however the run goes on without further ones, if and only if no clear is under way when it is called |
| `PersistContext.ClearBesideAnother` | src/persist/context.ts:323-345 | How a second clear beside the first lets a save write while it deletes, from any reachable state |
| `PersistContext.CompletedSaveMarksAllChanges` | src/persist/context.ts:190 | A save marks every change noticed by its end as saved, whatever else went on; this is right if and only if none was noticed while it wrote |
| `PersistCalls.EveryCallIsOnRecord` | src/persist/context.ts:234-243 | In every run each call of `save` is on record with what it asked for |
| `PersistCalls.ASaveGoesThrough` | src/persist/context.ts:153-197 | With nothing in flight and no clear under way a save writes, is released, and marks everything noticed as saved |
| `PersistCalls.ClearedMeansClearing` | src/persist/context.ts:323-345 | With one clear at a time the flag that keeps saves from writing is up if and only if a clear is under way |
| `PersistContext.Persist.EnterSave` | src/persist/context.ts:234-242 | Start, share, or wait in line |
| `PersistContext.Persist.CheckRun` | src/persist/context.ts:159-171 | Nothing new, cleared meanwhile, or on to the write |
| `SnapshotTree.Visit` | src/persist/snapshot-tree.ts:19-32 | The walk lists exactly the visible files, directories and empty directories below, in any order of entries; below a directory that cannot be read nothing is visible |
| `SnapshotTree.ListTree` | src/persist/snapshot-tree.ts:11-35 | The same from the root |
| `SnapshotTree.SnapshotTarget.Prune` | src/persist/snapshot-tree.ts:37-60 | Succeeds if and only if every visible file outside the inventory is one whose deletion does not fail; the tree is then the pruned one, and otherwise only such files are gone |
| `SnapshotTree.PruneKeepsTheInventory` | src/persist/snapshot-tree.ts:44-59 | No file of the inventory is deleted, not even through a directory above it |
| `SnapshotTree.PruneLeavesNothingElse` | src/persist/snapshot-tree.ts:54-59 | No other visible file is left |
| `SnapshotTree.EmptyDirSurvives` | src/persist/snapshot-tree.ts:45-52 | A listed empty directory survives if and only if every directory between it and the root is listed or holds a file of the inventory |
| `SnapshotTree.NestedEmptyDirIsLost` | src/persist/snapshot-tree.ts:45-52 | The simplest one that is lost |
| `SnapshotTree.UnreadFilesAreLost` | src/persist/snapshot-tree.ts:21 | What could not be read when the inventory was taken is deleted by it once it can be |
| `RestoreStaging.StageShowsTheExport` | src/persist/restore-staging.ts:59-73 | The stage lists exactly the files and the empty directories of the export |
| `RestoreStaging.RestoreEndsWithTheManifest` | src/persist/restore-staging.ts:85-90 | After mount and prune every file of the manifest is there with the content of the export, and no other visible file is; generated paths excepted |
| `RestoreStaging.RollbackRestoresTheFiles` | src/persist/restore-staging.ts:91-95 | Whatever the failed restore did, the rollback leaves no file that was not there; a file that was is there again with its content if and only if the export does not drop it or the failed restore left it alone |
| `RestoreStaging.RollbackRestoresTheDirectories` | src/persist/restore-staging.ts:91-95 | Likewise the directories, when no deletion of one fails |
| `RestoreStaging.SavedSnapshotPassesTheStage` | src/persist/restore-staging.ts:59-83 | A snapshot recorded by a save passes the comparison if and only if listing and export agree on every file and empty directory that is not generated |
| `RestoreStaging.Restorer.Stage` | src/persist/restore-staging.ts:58-83 | Succeeds if and only if the stage can be made and files and empty directories of the export match the manifest, and touches nothing outside the stage |
| `RestoreStaging.Restorer.Rollback` | src/persist/restore-staging.ts:91-95 | Succeeds if and only if the mount back does and no new file fails, and then comes to exactly that |
| `RestoreStaging.Restorer.RemoveStage` | src/persist/restore-staging.ts:46-48 | The stage goes, and nothing else |
| `RestoreStaging.Restorer.ImportVerified` | src/persist/restore-staging.ts:50-103 | Succeeds if and only if the inventory is there and below the root, staging succeeds and matches, the mount succeeds and no stale file fails; which error comes otherwise; success ends with the manifest, a failure before the mount with the files from before, a rolled back one with those the export did not drop or the restore left alone |
| `SnapshotFilters.ExcludedIsDropped` | src/persist/exclusions.ts:23-32 | With the default filters everything the listing skips is dropped by the export |
| `SnapshotFilters.FiltersDifferOn` | src/persist/exclusions.ts:20-32 | A listed path is dropped all the same if and only if a part of it is named by the patterns only: a reply name below the root or of another form, or the runtime assets in another place |
| `SnapshotFilters.ReplyNames` | src/persist/exclusions.ts:20-21 | The globs name every `result-*.json` and `ack-*.json`, the listing skips those whose middle is a request id |
| `SnapshotFilters.FilesSurviveASnapshot` | src/persist/exclusions.ts:20-32 | Listing and export agree on all files if and only if no listed file has such a part |
| `SnapshotFilters.SnapshotWithReplyIsRefused` | src/persist/context.ts:77-91 | A workspace with `/src/result-1.json`: what a save records of it can never be restored |
| `SnapshotFilters.RollbackLosesTheReply` | src/persist/context.ts:77-91 | A failed restore that has deleted that file does not bring it back |
| `SnapshotFilters.TheReplyIsGone` | src/persist/context.ts:77-91 | Such a rollback, which reports success |

## Left out

- Process output with lone surrogates; registration, classification and expiry of the process table.
- TerminalTransport: device listeners that throw, the backpressure callbacks, heartbeat and poll timers (any step may come at any time), and reading a frame file that fails half way.
- A mailbox file system without `rename`: files are then written twice, not atomically.
- TerminalHub: devices and listeners that throw, or that write to the hub while they are being called; the backpressure flag, focus, clear and resize; the recognition of the prompt in the output is a parameter of each write.
- TerminalService: sends, reads, signals and the table of backends; whether an owner is live and whether a caller aborted are parameters of the steps.
- TerminalService.SuccinixTerminalService.StartDisposal: the list of owner cleanups is not kept; a disposal may start for any owner at any time.
- RpcProtocol: timeouts are steps that may happen at any time; reading and deleting the slot in `removeIfSame`, and sweeping the files of an old epoch, are one step each.
- RpcProtocol: random nonces and prefixes are numbers never drawn before, and a nonce and its prefix are drawn together. Ids are pairs of a prefix and a number; numeric request ids of other clients and the pattern of valid ids are not part of this model.
- RpcProtocol: malformed slot contents are one kind of content that any host refuses; the repetition of read-only commands by `exec` is two execs.
- PersistenceJsonl: details of events that are not numbers where numbers are expected, header fields besides version and id, the lossless-JSON check of event data, revisions and raw artifacts. Closers are claimed storable for logs that fit an array.
- LogRepair: reserving, caching and serializing prepared sessions in the persistence service, and its use of the segmented store.
- SegmentedLog: session headers, creation times, revisions and the debounced flush; the manifest is an abstract value that is never torn, as its writes are atomic.
- SegmentedLog: file system calls that fail while the process goes on. The source has then already changed its in-memory manifest.
- SegmentedLog: `readFrom` is not queued behind the other operations in the source; here it does not run beside an append or a compaction.
- SegmentedLogRuns.CrashedCompactKeepsTheLog: the random part of the replacement's name is taken to be new.
- BinarySnapshot: the digest is a function about which nothing is assumed, the browser's storage estimate a parameter, the legacy database left out.
- PersistContext: the text snapshot in IndexedDB and the signature that recognizes unchanged content, which is a parameter of the check.
- SnapshotTree: paths are sequences of names, inventories sets; symbolic links and deletion of a directory that fails half way are not part of this model.
- RestoreStaging: mount and export of the container are relations between trees; the snapshot's bytes are the tree they stand for. While a restore or a save is under way every directory can be read and nobody else changes the workspace.
- SnapshotFilters: instance scopes and extra prefixes. A pattern that ends in any depth is taken to name its directory as well, and an export to leave out all that lies below what is named.
- Command execution, shell and terminal interiors, boot and user interface, and all timing.
