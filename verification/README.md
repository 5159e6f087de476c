# Verified models of the desktop app

Ensemblr's desktop app keeps a number of small protocols beside its interface: readers and
waiters over a child process's output, projections of a live agent turn, a compute queue, the
replay and readiness machinery of its demo windows, the copy of the renderer's `localStorage`
that survives a change of origin. This project models them in Dafny and proves what they keep
over every input and every run.

One module per file:

| module | models |
|---|---|
| `JsonlReader` | the LF-only reader of a capture's output, over text cut into chunks anywhere |
| `FrameWaiters` | a capture session's waiters, settled by a matching frame or by a timeout |
| `BlockAttributes` | escaping, printing and scanning the attribute runs of prompt blocks |
| `AgentActivity` | the live tool-call projection: calls, updates, results, tombstones, resets |
| `ActivitySnapshot` | joining that projection mid-session from a seeded snapshot |
| `ActivityScan` | rebuilding it by a newest-first scan of the persisted events |
| `QueuePreview` | the compute-queue preview's cancel and start-now |
| `GrantOrder` | the order in which main grants the compute queue's slots |
| `RunCompression` | run-length compression of captured event sequences |
| `SignatureClassifier` | the hand-kept table that says what an event means to the renderer |
| `CaptureTally` | the analyser's counts over all captured lines |
| `DemoReplay` | a demo window's scenario and the intervals that replay it |
| `Readiness` | the watcher that says when a demo window may be photographed |
| `Transcript` | numbering, stamping and grouping a staged conversation |
| `StorageSeed` | replaying the mirrored storage into an empty document |
| `StorageMirror` | main's handling of seeds and snapshots, and a move of origin over launches |
| `ModelTier` | the cost tier read off a model's name |
| `BroadcastChannels` | the demo bridge's subscription registry, with its shared listener sets |
| `BootLatch` | launch work held back until the first paint |
| `BranchNames` | composing and renaming branches, and the two shapes of a base ref |
| `Common` | the option type and minimum the others share |

Code that changes things in place is a class or a method with its loops, specified by a function
of the old state; what the source promises is then proved of that function, over all runs.
`dafny verify dfyconfig.toml` checks everything.

Where the code and its own comments disagree, the model follows the code and says how far the
comment holds:

- The last event of a transcript lands 4,000 ms before the frozen clock; its constant documents
  2,600 ms (`Transcript.LastStamp`).
- The classifier's comment promises the longest configured prefix and its code takes the first;
  the two agree on the shipped table, and on exactly the tables `FirstIsLongestExactly` names.
- The preview says that jobs behind a cancelled or started one move up a place "the way main would
  report it". In main's round-robin order they do exactly under the conditions of
  `GrantOrder.CancelMovesUpExactly` and `GrantOrder.StartMovesUpExactly`; `CancelCanOvertake` and
  `StartCanHoldBack` are queues in which they do not.
- A path attribute is documented to come back as the original path; it does exactly when it does
  not spell out the quote entity (`BlockAttributes.PathRoundTrip`).
- A seed that was rolled back is documented to be retried on the next launch; it is exactly when
  the page's storage is empty at the end of that session and none of its pushes carried the seed
  back (`StorageMirror.OfferedAgainExactly`, `StorageMirror.RolledBackThenLost`).
- A scenario with gestures is documented to wait through four settle polls; a window does exactly
  when the scenario its watcher started with had gestures (`Readiness.WaitsThroughExactly`), so one
  swapped in under a watcher that started without any does not (`Readiness.SwapSkipsSettling`).
- The newest-first scan of a session is documented to stop where older events cannot affect its live
  calls. It agrees with the full replay after every event exactly on the histories
  `ActivityScan.ScanIsFullReplay` names; `TurnOpenedOverCalls` and `CallOutsideTurn` are two
  families of others.
- The plain name of a ref is documented to be the bare branch name; taking it again changes it
  exactly as `BranchNames.BareTwiceExactly` says.
- Renaming keeps the prefix a branch was composed with exactly when its slug brought none of its
  own (`BranchNames.RenameExactly`).

## Model

| member | source | states |
|---|---|---|
| `JsonlReader.ReadJsonlStream` | apps/desktop/scripts/capture-pi-fixtures.ts:395-420 | the lines emitted depend on the concatenated text alone, however it was cut into chunks: every LF-ended piece and a non-empty unfinished one, each less one trailing CR |
| `JsonlReader.DrainLines` | apps/desktop/scripts/capture-pi-fixtures.ts:406-414 | the inner loop stops, emits every finished piece of the buffer in order, and leaves a buffer without an LF |
| `JsonlReader.PiecesCharacterised` | apps/desktop/scripts/capture-pi-fixtures.ts:395-420 | the reference splitter is the only list of LF-free pieces that rejoins to the text |
| `JsonlReader.PiecesOfAppend` | apps/desktop/scripts/capture-pi-fixtures.ts:406-414 | more text only ever extends the unfinished last piece, which is why the buffer is all the reader has to keep |
| `JsonlReader.ReadBackExactly` | apps/desktop/scripts/capture-pi-fixtures.ts:486-489 | lines written one per LF come back as themselves if and only if none holds an LF or ends in a CR |
| `JsonlReader.CrLfReadBackExactly` | apps/desktop/scripts/capture-pi-fixtures.ts:408-414 | lines written with CR and LF behind each come back if and only if none holds an LF: one CR is taken off and no more |
| `FrameWaiters.Session.WaitFor` | apps/desktop/scripts/capture-pi-fixtures.ts:475-502 | a waiter is appended behind those already waiting |
| `FrameWaiters.Session.TimeOut` | apps/desktop/scripts/capture-pi-fixtures.ts:475-502 | a timeout rejects its own waiter if it still waits, and otherwise touches nothing |
| `FrameWaiters.Session.Record` | apps/desktop/scripts/capture-pi-fixtures.ts:514-542 | the loop that splices while it walks, stepping its index back, leaves the stable filter of the waiters and resolves the matching ones; stderr and unparsable lines reach nobody |
| `FrameWaiters.SettlesOnce` | apps/desktop/scripts/capture-pi-fixtures.ts:475-542 | over every interleaving of registrations, frames and timeouts, the calls made on a waiter are those of the first event after its registration that concerned it: at most one, and none exactly while it waits |
| `FrameWaiters.NeverAgain` | apps/desktop/scripts/capture-pi-fixtures.ts:475-542 | a settled waiter is never called again, whatever follows |
| `FrameWaiters.WaitingRun` | apps/desktop/scripts/capture-pi-fixtures.ts:475-542 | a waiter resolved got the first matching frame; one rejected saw no match before its timeout |
| `FrameWaiters.ResolvedInRegistrationOrder` | apps/desktop/scripts/capture-pi-fixtures.ts:534-541 | in every reachable session one frame resolves its waiters in the order they registered |
| `BlockAttributes.UnescapeIsDecode` | apps/desktop/src/shared/block-attributes.ts:47-53 | on every string, escaped or not, the four passes with the ampersand last are one simultaneous left-to-right decode |
| `BlockAttributes.EscapeIsEncode` | apps/desktop/src/shared/block-attributes.ts:28-34 | the four passes with the ampersand first replace every character exactly once |
| `BlockAttributes.UnescapeEscape` | apps/desktop/src/shared/block-attributes.ts:28-53 | unescape undoes escape for every string |
| `BlockAttributes.EscapedIsInert` | apps/desktop/src/shared/block-attributes.ts:20-34 | no quote, less-than or greater-than survives escaping |
| `BlockAttributes.MatchExactly` | apps/desktop/src/shared/block-attributes.ts:18 | the attribute regex matches at the head in at most one way: exactly the printed pair the text starts with |
| `BlockAttributes.ReadBlockAttributes` | apps/desktop/src/shared/block-attributes.ts:76-84 | the match loop collects the leftmost non-overlapping matches, the last write of a name winning |
| `BlockAttributes.ScanFindsFirst` | apps/desktop/src/shared/block-attributes.ts:80-82 | the scan finds the first place where the regex matches and goes on behind that match |
| `BlockAttributes.ScanFindsNothing` | apps/desktop/src/shared/block-attributes.ts:80-82 | and finds nothing where it matches nowhere |
| `BlockAttributes.PrintedPairs` | apps/desktop/src/shared/block-attributes.ts:61-69 | the run is the pairs with a single space between each and the next; an attribute without a value adds nothing |
| `BlockAttributes.ScanListsValued` | apps/desktop/src/shared/block-attributes.ts:61-84 | the scan of a printed run lists every attribute with a value, and nothing else, in the order given |
| `BlockAttributes.RoundTrip` | apps/desktop/src/shared/block-attributes.ts:61-84 | reading a printed run back gives exactly the names that were given a value, each with the last one, if and only if every attribute with a value has a name the regex reads |
| `BlockAttributes.BlockTakesWholeRun` | apps/desktop/src/shared/block-attributes.ts:55-69 | an outer scan up to the next greater-than takes the printed run, all of it and no more |
| `BlockAttributes.PathRoundTrip` | apps/desktop/src/shared/prompt-scaffolding.ts:142-155 | a path escaped and read back is itself if and only if it does not spell out the quote entity |
| `AgentActivity.CreateAgentActivityState` | apps/desktop/src/shared/agent-activity.ts:19-27 | a seeded state shows each id at its first place with its last value, and knows nothing finished |
| `AgentActivity.SeededInOrder` | apps/desktop/src/shared/agent-activity.ts:19-27 | a seeded state shows the ids in order of first appearance |
| `AgentActivity.SeededWithLast` | apps/desktop/src/shared/agent-activity.ts:19-27 | and each id with the last value given for it |
| `AgentActivity.DedupedDistinct` | apps/desktop/src/shared/agent-activity.ts:19-27 | the ids a seeded state shows are unique |
| `AgentActivity.DedupedIdentity` | apps/desktop/src/shared/agent-activity.ts:19-27 | seeding from calls that are already unique changes nothing |
| `AgentActivity.ReduceMessagePayload` | apps/desktop/src/shared/agent-activity.ts:73-102 | the two passes over a message's parts apply all its results before any of its calls |
| `AgentActivity.MessageIsItsOps` | apps/desktop/src/shared/agent-activity.ts:73-102 | a message is exactly its results, then its calls; one that ends the response settles instead of calling |
| `AgentActivity.PartsRead` | apps/desktop/src/shared/agent-activity.ts:87-100 | a message resolves and starts exactly the ids its parts name |
| `AgentActivity.OneCall` | apps/desktop/src/shared/agent-activity.ts:73-177 | one payload: a result finishes its call, a start shows it and keeps what an update presented, an update shows it with what it presents, a finished call is left alone |
| `AgentActivity.ApplyMovesOneEntry` | apps/desktop/src/shared/agent-activity.ts:110-177 | one start, update or result moves the entry of the id it names, as that entry's own life says, and no other |
| `AgentActivity.Noninterference` | apps/desktop/src/shared/agent-activity.ts:110-177 | after any interleaving each id's entry is the one its own changes give in their own order |
| `AgentActivity.InterleavingIrrelevant` | apps/desktop/src/shared/agent-activity.ts:73-177 | two runs of messages that name each call by the same changes in the same order end with the same entry for every id, or both throw, however they interleave the calls |
| `AgentActivity.ThrowsExactly` | apps/desktop/src/shared/agent-activity.ts:137-141 | a run of changes throws if and only if some id's own history starts it without an input |
| `AgentActivity.StepThrowsExactly` | apps/desktop/src/shared/agent-activity.ts:137-141 | one event throws if and only if it starts, without an input, an id neither shown nor finished by then |
| `AgentActivity.RunIsChanges` | apps/desktop/src/shared/agent-activity.ts:35-102 | a run of envelopes that neither settle nor reset is exactly the list of changes its messages make |
| `AgentActivity.ShownInOrderOfFirstStart` | apps/desktop/src/shared/agent-activity.ts:73-177 | over any run of calls, updates, results and messages not ending a response: visible is everything ever started, in order of first start, minus everything resolved, a result before its own call included |
| `AgentActivity.VisibleIsStartedMinusResolved` | apps/desktop/src/shared/agent-activity.ts:73-177 | over any such run the visible ids are (initial and started) minus resolved, as sets, whatever the interleaving |
| `AgentActivity.ShowsLatest` | apps/desktop/src/shared/agent-activity.ts:126-136 | over any such run a call still running, seeded or started in it, shows the name and input of its latest start or update and the presentation of its latest update |
| `AgentActivity.EveryStep` | apps/desktop/src/shared/agent-activity.ts:35-65 | visible ids stay unique and apart from the tombstones; tombstones are dropped only by a reset, which leaves nothing; idle, closed, errored, shutdown, an unrecoverable error and an ending message leave no call visible; streaming never changes what is visible |
| `AgentActivity.SettlingFinishes` | apps/desktop/src/shared/agent-activity.ts:179-195 | a settling event tombstones exactly the calls it clears, beside those its own message resolved; an event that neither settles, resets nor is a message changes nothing |
| `AgentActivity.SettledNeverReturns` | apps/desktop/src/shared/agent-activity.ts:179-195 | a call visible before a settling event is never visible again before a reset, whatever arrives late |
| `AgentActivity.EveryRun` | apps/desktop/src/shared/agent-activity.ts:35-65 | every run keeps visible ids unique and apart from the tombstones |
| `AgentActivity.NeverResurrected` | apps/desktop/src/shared/agent-activity.ts:164-195 | a finished call never becomes visible again before a reset |
| `ActivitySnapshot.StepShadow` | apps/desktop/src/shared/agent-activity.ts:19-65 | after one event full and seeded projections agree if and only if it calls no id finished on the full side alone, and then the seeded one goes on shadowing |
| `ActivitySnapshot.SeededExactly` | apps/desktop/src/shared/agent-activity.ts:19-65 | a seeded projection stays indistinguishable over a run if and only if no event of it calls an id it does not know to be finished |
| `ActivitySnapshot.SnapshotSimulates` | apps/desktop/src/shared/agent-activity.ts:19-65 | seeding from what any history left visible and folding any suffix shows the same calls after every event as the whole history, if the suffix calls nothing the history had finished |
| `ActivityScan.ReadCurrentTools` | apps/desktop/src/main/agent-runtime/session/session-activity-snapshot.ts:139-169 | the newest-first scan answers what its boundary rule says: nothing for a turn already over, the replayed turn otherwise, hidden and unreadable rows skipped |
| `ActivityScan.ScanIsFullReplay` | apps/desktop/src/main/agent-runtime/session/session-activity-snapshot.ts:110-169 | the scan answers after every event what folding the whole branch shows, if and only if no turn opens over a showing call and, between the end of a turn and the next beginning, only finished calls are named |
| `ActivityScan.OneMoreEvent` | apps/desktop/src/main/agent-runtime/session/session-activity-snapshot.ts:110-169 | the same for one event, on a history agreed with so far |
| `ActivityScan.BracketedIsOrderly` | apps/desktop/src/main/agent-runtime/session/session-activity-snapshot.ts:110-134 | histories whose calls lie inside turns that do not nest meet that condition, whatever the fold makes of them |
| `ActivityScan.TurnOpenedOverCalls` | apps/desktop/src/main/agent-runtime/session/session-activity-snapshot.ts:126-162 | a turn opened while calls are showing loses them from the scan and not from the full replay, for every history |
| `ActivityScan.CallOutsideTurn` | apps/desktop/src/main/agent-runtime/session/session-activity-snapshot.ts:110-162 | a first call after an end shows in the full replay and not in the scan, for every history |
| `QueuePreview.StableSortCharacterised` | apps/desktop/playground/compute-queue-preview.tsx:139-142 | the sort's result is the only ascending list that keeps tied jobs in their order |
| `QueuePreview.LineWithout` | apps/desktop/playground/compute-queue-preview.tsx:138-142 | filtering before the sort takes the job out of the waiting line and moves nobody else in it |
| `QueuePreview.RenumberedLine` | apps/desktop/playground/compute-queue-preview.tsx:143-148 | renumbering makes the positions exactly 1 to n and leaves the line as it was |
| `QueuePreview.CancelKeepsLine` | apps/desktop/playground/compute-queue-preview.tsx:134-154 | from any positions, tied or missing, a cancel leaves dense positions and everybody else's order |
| `QueuePreview.CancelTouchesPositions` | apps/desktop/playground/compute-queue-preview.tsx:143-153 | a cancel changes nothing of anybody else but the positions of the queued, and sets the slots in use to the jobs left running |
| `QueuePreview.CancelClosedForm` | apps/desktop/playground/compute-queue-preview.tsx:127-154 | on a dense queue, filter, sort and renumber equal the closed form: positions behind the cancelled one drop by one, the rest stay |
| `QueuePreview.CancelsAreOneCancel` | apps/desktop/playground/compute-queue-preview.tsx:134-154 | a row of cancels is one cancel of all of them |
| `QueuePreview.CancelsCommute` | apps/desktop/playground/compute-queue-preview.tsx:134-154 | cancels commute from tied or missing positions too: only which jobs were cancelled matters |
| `QueuePreview.StartConserves` | apps/desktop/playground/compute-queue-preview.tsx:163-180 | start-now loses and gains nobody |
| `QueuePreview.StartRuns` | apps/desktop/playground/compute-queue-preview.tsx:163-180 | the started job runs, holds no place, started now and is otherwise as it was; it takes a slot; everybody else is as a cancel of it leaves them |
| `QueuePreview.RunningAfterStart` | apps/desktop/playground/compute-queue-preview.tsx:163-180 | the running jobs are those there were and the started one |
| `QueuePreview.StartOfNobody` | apps/desktop/playground/compute-queue-preview.tsx:167-170 | a job that is gone or not queued cannot be started: nothing changes |
| `QueuePreview.StartWellFormed` | apps/desktop/playground/compute-queue-preview.tsx:163-180 | start-now keeps positions dense and the slots in use equal to the running count |
| `QueuePreview.StartThenStop` | apps/desktop/playground/compute-queue-preview.tsx:134-180 | starting a job and stopping it again equals cancelling it outright |
| `QueuePreview.StartAndCancelCommute` | apps/desktop/playground/compute-queue-preview.tsx:134-180 | starting one job and cancelling another commute |
| `QueuePreview.EveryRun` | apps/desktop/playground/compute-queue-preview.tsx:134-180 | every run of cancels and starts keeps a well-formed queue well formed |
| `GrantOrder.ComputeGrantOrder` | apps/desktop/src/main/compute-queue/grant-order.ts:19-53 | the lanes and cursors produce the ids of the order the queue promises, starting with the job that has the turn |
| `GrantOrder.FirstHasTheTurn` | apps/desktop/src/main/compute-queue/grant-order.ts:9-18 | the first job is of a workspace never granted, or else of the one granted longest ago, and a tie goes to the earliest job waiting |
| `GrantOrder.EachHasTheTurn` | apps/desktop/src/main/compute-queue/grant-order.ts:9-18 | and so is every later one, of what still waits under the ticks as they then are |
| `GrantOrder.PickNextLane` | apps/desktop/src/main/compute-queue/grant-order.ts:62-85 | the workspace chosen was never granted or was granted longest ago among those with jobs left, its head the earliest on a tie; none is chosen exactly when every lane is exhausted |
| `GrantOrder.PromiseUnique` | apps/desktop/src/main/compute-queue/grant-order.ts:19-53 | the promise fixes the whole list of ids, so two implementations meeting it agree |
| `GrantOrder.OrderUnique` | apps/desktop/src/main/compute-queue/grant-order.ts:19-53 | what waits and when each workspace was last served determine the order |
| `GrantOrder.GrantsEveryoneOnce` | apps/desktop/src/main/compute-queue/grant-order.ts:19-53 | every waiting job is granted exactly once, and nothing else |
| `GrantOrder.FirstInFirstOut` | apps/desktop/src/main/compute-queue/grant-order.ts:19-53 | within a workspace the order is the order of enqueueing |
| `GrantOrder.RoundRobin` | apps/desktop/src/main/compute-queue/grant-order.ts:19-53 | between two grants to one workspace every other workspace still waiting gets one |
| `GrantOrder.GrantingKeepsPromise` | apps/desktop/src/main/compute-queue/compute-queue-service.ts:320-327 | granting the head, as the slot loop does, and recomputing gives exactly the rest of the order |
| `GrantOrder.CancelMovesUpExactly` | apps/desktop/playground/compute-queue-preview.tsx:127-129 | in main's order a cancel moves those behind it up one place and nobody else if and only if all who are granted between the job's turn and the next of its workspace precede that next one when the turn comes |
| `GrantOrder.CancelLastMovesUp` | apps/desktop/playground/compute-queue-preview.tsx:127-129 | so it does whenever the cancelled job is the last its workspace has waiting |
| `GrantOrder.CancelCanOvertake` | apps/desktop/playground/compute-queue-preview.tsx:127-129 | a queue in which a cancel lets one job overtake another instead |
| `GrantOrder.StartMovesUpExactly` | apps/desktop/playground/compute-queue-preview.tsx:156-158 | in main's order starting a job at once, its workspace taking the newest tick, leaves the others in their order if and only if the condition read along the order holds: nobody granted since, between its turn and its workspace's next; or, when a sibling is ahead of it, everybody else granted by the sibling's turn and the rest moving up as for a cancel |
| `GrantOrder.StartCanHoldBack` | apps/desktop/playground/compute-queue-preview.tsx:156-158 | a queue in which starting one job holds back another that stood ahead of it |
| `RunCompression.CompressSequence` | apps/desktop/scripts/analyze-pi-fixtures.ts:275-288 | expanding the runs gives the input back, no run is empty and neighbouring runs differ; both loops stop |
| `RunCompression.CountsSum` | apps/desktop/scripts/analyze-pi-fixtures.ts:275-288 | the counts sum to the length of what the runs expand to |
| `RunCompression.ChangesExact` | apps/desktop/scripts/analyze-pi-fixtures.ts:275-288 | there is exactly one run more than there are changes in the sequence |
| `RunCompression.Minimal` | apps/desktop/scripts/analyze-pi-fixtures.ts:275-288 | no other decomposition into constant runs has fewer runs |
| `RunCompression.CanonicalUnique` | apps/desktop/scripts/analyze-pi-fixtures.ts:275-288 | the compressed form is the only one with positive counts and differing neighbours |
| `SignatureClassifier.FirstMatchIsFirst` | apps/desktop/scripts/analyze-pi-fixtures.ts:296-309 | the entry found matches and none before it does; none is found only if none matches |
| `SignatureClassifier.FirstIsLongestExactly` | apps/desktop/scripts/analyze-pi-fixtures.ts:290-309 | for a table of distinct prefixes, first match is longest match on every signature if and only if no entry precedes one that continues it |
| `SignatureClassifier.ShippedFirstIsLongest` | apps/desktop/scripts/analyze-pi-fixtures.ts:41-156 | on the shipped table the first match is the longest for every signature |
| `SignatureClassifier.DialogsAreTimeline` | apps/desktop/scripts/analyze-pi-fixtures.ts:41-156 | an extension request is a timeline item if and only if its method is one of the four dialogs, and noise otherwise |
| `SignatureClassifier.ClassifiedExactly` | apps/desktop/scripts/analyze-pi-fixtures.ts:296-309 | a signature has the impact of the first entry that matches it, and is unclassified if and only if none does |
| `CaptureTally.Analyser.CountLine` | apps/desktop/scripts/analyze-pi-fixtures.ts:234-268 | a line is counted once: as stderr, as unparsable, or under its frame's signature with its fields |
| `CaptureTally.Analyser.CountFixture` | apps/desktop/scripts/analyze-pi-fixtures.ts:230-272 | a fixture's ordering is recorded under its scenario as its lines are counted |
| `CaptureTally.Analyser.CountAll` | apps/desktop/scripts/analyze-pi-fixtures.ts:220-272 | the nested loops compute the tally of all fixtures |
| `CaptureTally.Conservation` | apps/desktop/scripts/analyze-pi-fixtures.ts:220-272 | total lines equal stderr plus unparsed plus the sum of the signature counts |
| `CaptureTally.EverythingCounted` | apps/desktop/scripts/analyze-pi-fixtures.ts:230-272 | each signature's count is its number of frames, each field's the number of those carrying it |
| `CaptureTally.OwnCounters` | apps/desktop/scripts/analyze-pi-fixtures.ts:234-250 | every line but a blank one is in the total, and each scenario's stderr and unparsable counts are its own lines of that kind |
| `CaptureTally.AlwaysMeansAlways` | apps/desktop/scripts/analyze-pi-fixtures.ts:365-369 | a field is reported always if and only if every frame of its signature carries it |
| `CaptureTally.OrderingsKept` | apps/desktop/scripts/analyze-pi-fixtures.ts:230-272 | each scenario's ordering is its own frames in order |
| `CaptureTally.OrderingsHoldCounts` | apps/desktop/scripts/analyze-pi-fixtures.ts:230-272 | together the orderings hold exactly the counted frames |
| `DemoReplay.DemoRuntime.ApplyScenario` | apps/desktop/demo/demo-runtime.ts:96-114 | applying stops the replay in progress, shows the new scenario's cut and replays it if live |
| `DemoReplay.DemoRuntime.TimerFires` | apps/desktop/demo/playhead.ts:60-74 | one tick shows and broadcasts the next event of the scenario its interval was set up for, or stops the interval at the end |
| `DemoReplay.EveryRun` | apps/desktop/demo/demo-runtime.ts:96-123 | after start and any interleaving of applies and ticks, stale ones included: a still shows its cut, a live window has shown and broadcast since its apply exactly the first min(ticks, n) events, and at most one interval runs |
| `DemoReplay.ShownIsPrefix` | apps/desktop/demo/playhead.ts:39-52 | what is on screen is a prefix of the scenario most recently applied |
| `DemoReplay.StillShowsItsCut` | apps/desktop/demo/playhead.ts:39-52 | over any run a still shows as many events as were asked for, or all there are |
| `DemoReplay.StaleTimerInert` | apps/desktop/demo/demo-runtime.ts:102-104 | only the newest interval of a live window can still change anything |
| `DemoReplay.SecondStartRepeats` | apps/desktop/demo/demo-runtime.ts:119-123 | a second live start leaks an interval: over any interleaving of the two, each event is on screen once for each interval that has reached it |
| `Readiness.Watcher.ApplyNextInteraction` | apps/desktop/demo/demo-runtime.ts:159-183 | at most one gesture is performed per call; an unmatched one stays pending |
| `Readiness.Watcher.IntervalFires` | apps/desktop/demo/demo-shell.tsx:50-67 | one poll, with its early returns |
| `Readiness.ReadyExactly` | apps/desktop/demo/demo-shell.tsx:37-67 | over any run, scenario swaps included, the window is ready if and only if more polls in a row than it settles for were quiet; until then gestures were performed once each, in order |
| `Readiness.BecomesReady` | apps/desktop/demo/demo-shell.tsx:50-66 | the poll that makes it ready has every gesture performed and ends exactly settlePolls + 1 quiet polls |
| `Readiness.ReachedInExactly` | apps/desktop/demo/demo-shell.tsx:37-67 | undisturbed, readiness comes after exactly gestures left + settlePolls + 1 polls from zeroed idle polls, and not one earlier |
| `Readiness.MeasureFalls` | apps/desktop/demo/demo-shell.tsx:50-66 | the pair (gestures left, settle polls left) falls on every poll not held up; a held-up one resets only its second part |
| `Readiness.MissingTargetNeverReady` | apps/desktop/demo/demo-runtime.ts:155-166 | a gesture whose target never mounts keeps the window from ever being ready |
| `Readiness.WaitsThroughExactly` | apps/desktop/demo/demo-shell.tsx:41-43 | over any run the window waits through four quiet polls before the ready one if and only if the scenario the watcher started with had gestures, whatever is on screen by then |
| `Readiness.SwapSkipsSettling` | apps/desktop/demo/demo-shell.tsx:41-43 | gestures swapped in under a watcher that started without any: one quiet poll is enough |
| `Transcript.BuildTranscript` | apps/desktop/demo/transcript.ts:167-188 | ordinals are dense from 1, stamps 1,400 ms apart, each turn index the number of prompts so far; it throws exactly when the first stamp is no valid time |
| `Transcript.SharesTurnExactly` | apps/desktop/demo/transcript.ts:181-186 | two events share a turn if and only if no prompt lies after the earlier one up to and including the later |
| `Transcript.StampsClimb` | apps/desktop/demo/transcript.ts:177-186 | stamps and ordinals strictly increase, and every stamp lies before the frozen clock by more than the trailing gap |
| `Transcript.LastStamp` | apps/desktop/demo/transcript.ts:20-26 | in every transcript with an event exactly the last lands 4,000 ms before the frozen clock, not the documented 2,600 |
| `StorageSeed.Document.SeedRendererStorage` | apps/desktop/src/preload/seed-renderer-storage.ts:37-72 | storage and tag after a replay in which any read, request, write or clear may throw; the tag is seeded if and only if there was an empty document to fill and no write threw |
| `StorageSeed.AllOrNothingExactly` | apps/desktop/src/preload/seed-renderer-storage.ts:26-31 | the storage ends untouched or as exactly the mirror if and only if it is not the case that a write after the first throws and the clear throws too |
| `StorageSeed.TagTellsStorage` | apps/desktop/src/preload/seed-renderer-storage.ts:8-14 | each outcome tag says what the storage holds |
| `StorageSeed.TagsExactly` | apps/desktop/src/preload/seed-renderer-storage.ts:44-71 | each outcome is given if and only if: the document was populated; nothing was offered; no write threw; a write threw and was cleared away; or a read, the request or the clear threw |
| `StorageSeed.SeededEntryByEntry` | apps/desktop/src/preload/seed-renderer-storage.ts:56-67 | a seeded document holds every entry of the seed with its value, and no other key |
| `StorageSeed.EmptyOrComplete` | apps/desktop/src/preload/seed-renderer-storage.ts:26-31 | over any launches an empty start is followed only by empty or by exactly one launch's whole seed |
| `StorageMirror.MainProcess.RendererStorageSeed` | apps/desktop/src/main/ipc/handlers/renderer-storage.ts:191-218 | which origin is offered the mirror, and what main remembers having handed out |
| `StorageMirror.MainProcess.MirrorRendererStorage` | apps/desktop/src/main/ipc/handlers/renderer-storage.ts:51-149 | which snapshots replace the mirror, with the reason each other is refused for |
| `StorageMirror.MirrorNeverEmptied` | apps/desktop/src/main/ipc/handlers/renderer-storage.ts:123-149 | over any run, whatever is sent, a populated mirror is never emptied and no seeded marker is lost |
| `StorageMirror.StoredExactly` | apps/desktop/src/main/ipc/handlers/renderer-storage.ts:51-149 | which snapshots are stored, and that storing one makes it the mirror, its origin the author, and that origin marked if and only if the window held a seed |
| `StorageMirror.HeldSeedsWereHanded` | apps/desktop/src/main/ipc/handlers/renderer-storage.ts:37-44 | a seed main holds against a window was offered to that window since the last restart |
| `StorageMirror.MarkedOnlyWhenProved` | apps/desktop/src/main/ipc/handlers/renderer-storage.ts:70-85 | an origin is marked seeded only after a snapshot from it held every key of a non-empty seed handed to the same window in the same launch |
| `StorageMirror.OfferedAgainExactly` | apps/desktop/src/preload/seed-renderer-storage.ts:20-35 | after a launch on a new origin, however its seed went, the same mirror is offered again if and only if the page left its storage empty and no push carried the seed back; a push that did marks the origin |
| `StorageMirror.RolledBackThenLost` | apps/desktop/src/preload/seed-renderer-storage.ts:21-24 | the retry after a rollback is not certain: any write that does not bring back the seeded keys makes the next launch ask for no seed and replace the mirror |
| `StorageMirror.NothingLostInTheMove` | apps/desktop/src/preload/seed-renderer-storage.ts:20-35 | over any number of launches, if failed replays can be cleared and the page's first write comes after the seed has arrived, main's copy misses no seeded key but those the page's own writes have dropped |
| `ModelTier.SplitFindsRuns` | apps/desktop/src/shared/agent-model-tier.ts:42-47 | splitting on separator runs yields exactly the maximal alphanumeric runs of the name |
| `ModelTier.FrontierExactly` | apps/desktop/src/shared/agent-model-tier.ts:56-68 | a model is frontier if and only if a family name stands as a whole word, in any case, in its id or its display name |
| `ModelTier.LowerKeeps` | apps/desktop/src/shared/agent-model-tier.ts:42-47 | a name without capitals is its own lower case |
| `ModelTier.CaseIrrelevant` | apps/desktop/src/shared/agent-model-tier.ts:42-68 | the tier does not depend on the case a name is written in |
| `BroadcastChannels.DemoBroadcastChannels.Subscribe` | apps/desktop/demo/demo-bridge.ts:80-87 | a listener joins its channel's set, or a new one; the closure returned holds the set |
| `BroadcastChannels.DemoBroadcastChannels.Unsubscribe` | apps/desktop/demo/demo-bridge.ts:85 | the closure deletes from the set it holds, whether or not a channel still maps to it |
| `BroadcastChannels.DemoBroadcastChannels.Emit` | apps/desktop/demo/demo-bridge.ts:94-98 | a payload goes to the listeners of its channel's current set, in order |
| `BroadcastChannels.DemoBroadcastChannels.Clear` | apps/desktop/demo/demo-bridge.ts:101-103 | clearing unmaps every channel and leaves the sets as they are |
| `BroadcastChannels.HeapRefinesLists` | apps/desktop/demo/demo-bridge.ts:72-104 | over every run, the shared sets deliver exactly what a heap-free list per channel says, where an unsubscribe counts only if nothing was cleared since its subscription |
| `BroadcastChannels.ReachesExactly` | apps/desktop/demo/demo-bridge.ts:72-104 | over every run a payload reaches a listener if and only if the last event that concerned it on the channel was a subscription |
| `BroadcastChannels.NewcomerLast` | apps/desktop/demo/demo-bridge.ts:80-98 | a newcomer is reached last and nobody else's turn changes |
| `BroadcastChannels.StaleUnsubscribeInert` | apps/desktop/demo/demo-bridge.ts:80-103 | an unsubscribe taken before a clear removes no listener registered after it, on any channel |
| `BroadcastChannels.DeliveredOnce` | apps/desktop/demo/demo-bridge.ts:80-98 | a payload reaches each listener once, however often it subscribed |
| `BroadcastChannels.OneUnsubscribeIsEnough` | apps/desktop/demo/demo-bridge.ts:80-87 | any one unexpired closure takes its listener off the channel, other subscriptions notwithstanding |
| `BootLatch.BootWork.WhenFirstWindowPainted` | apps/desktop/src/main/main.ts:1941-1947 | a task waits before the paint and runs at once after it |
| `BootLatch.BootWork.ReleaseDeferredBootWork` | apps/desktop/src/main/main.ts:1921-1929 | the first release runs the waiting tasks in order, tasks they register in the middle of it; later ones do nothing |
| `BootLatch.EveryRun` | apps/desktop/src/main/main.ts:1913-1947 | nothing starts before the first release; it starts the waiting tasks in order up to the first that throws and drops the rest; later registrations start at once |
| `BootLatch.TimingIrrelevant` | apps/desktop/src/main/main.ts:1916-1920 | when no task throws, every task registered, nested ones included, starts exactly once and in the same order wherever the release falls |
| `BootLatch.NothingDroppedExactly` | apps/desktop/src/main/main.ts:1916-1920 | the release drops no waiting task's work if and only if none but the last throws |
| `BranchNames.RenameExactly` | apps/desktop/src/shared/branch-name.ts:17-37 | renaming a composed branch equals composing it afresh under the same prefix if and only if nothing but slashes stands before the old slug's last slash |
| `BranchNames.SecondRenameWins` | apps/desktop/src/shared/branch-name.ts:30-37 | of two renames in a row only the second shows, under the same condition on the first slug |
| `BranchNames.JoinedByOneSlash` | apps/desktop/src/shared/branch-name.ts:8-20 | whatever slashes the prefix ends in, one stands before the slug, and none if the prefix is nothing else |
| `BranchNames.QualifiedIsStable` | apps/desktop/src/shared/branch-ref.ts:16-36 | qualifying a ref twice is qualifying it once, and the plain name can be read back off it |
| `BranchNames.PlainNameRead` | apps/desktop/src/shared/branch-ref.ts:16-36 | a plain name and its qualified form both stand for it, and it is qualified with the remote |
| `BranchNames.PathNameRead` | apps/desktop/src/shared/branch-ref.ts:1-22 | so does its form under the remote's ref path |
| `BranchNames.BareTwiceExactly` | apps/desktop/src/shared/branch-ref.ts:16-22 | taking the plain name twice is taking it once if and only if what the trimmed ref holds behind its qualifier, if it has one, starts with neither white space nor a qualifier |
| `BranchNames.BareTwiceDiffers` | apps/desktop/src/shared/branch-ref.ts:16-22 | a doubly qualified ref is one for which they differ |

## Left out

- UTF-8 decoding: chunks arrive as decoded text, and what the decoder still owes at the end is a
  parameter without an LF.
- JSON parsing and printing, file reads and writes, SQLite, child processes, IPC channels,
  Electron and React: what they deliver are parameters, and a failure is one of the listed outcomes.
- A captured wrapper line that is not JSON aborts the analyser with an exception; `CaptureTally`
  models only the frame inside it failing to parse.
- The wall clock and the scheduling of promises and timers: ticks, polls, frames, timeouts and
  registrations are atomic steps in any order.
- `FrameWaiters.Session.WaitFor`: does not model the object identity of waiters or the disarming
  of their timeouts; a waiter is known by its registration number and a late timeout finds nothing.
- `FrameWaiters.Session.Record`: does not model the handler of extension UI requests, which sees a frame
  and may answer it before the waiters do, nor the line appended to the fixture.
- `CaptureTally.Analyser.CountLine`: does not model how a line is parsed or its signature built; a line
  is given as what it turned out to be.
- `JsonlReader.ReadJsonlStream`: does not model the `onLine` callbacks running between chunks; the
  lines are collected in order.
- `JsonlReader.DrainLines`, `JsonlReader.FlushTail`, `GrantOrder.GrantNext` and
  `BootLatch.BootWork.RunSpliced` are parts of one function in the source, split for the proof.
- The rendered `name ×N` text of a run, `${branchId}-turn-${n}` and ISO timestamps: pairs, pairs and
  milliseconds.
- A tool call's `input` and `presentation`, a job's untouched fields, a demo scenario's other fields:
  opaque tokens compared by equality.
- `BlockAttributes.ReadBlockAttributes`: does not model the insertion order of the returned map.
- `GrantOrder.ComputeGrantOrder`: does not model the engine's own sort; any ascending arrangement of
  distinct sequence numbers is the same list.
- `QueuePreview.EveryRun`: does not bound the slots in use by the slot limit, which start-now exceeds
  on purpose.
- `SignatureClassifier.DialogsAreTimeline`: does not model how a signature is built from a frame.
- `CaptureTally.Analyser.CountFields`: the examples and type names it keeps for the report are computed
  as in the source, and only the counts are proved about.
- `Readiness.Watcher.IntervalFires`: does not model the animation frame between the last poll and the
  attribute, nor what a gesture does to the page beyond which targets are found.
- `StorageMirror.MainProcess.MirrorRendererStorage`: does not measure the size limit of a snapshot or
  throw on a failing write to the database; too large is one of the payloads.
- `StorageMirror.NothingLostInTheMove`: does not model other windows writing to the mirror in between, which
  the any-run lemmas of the handlers cover.
- `GrantOrder.GrantingKeepsPromise`: does not cover the jobs `pump` grants out of turn, which
  `GrantOrder.StartMovesUpExactly` does one at a time.
- `ModelTier.FrontierExactly`: characters outside ASCII lower as far as `[a-z0-9]` can tell; what they
  lower to among themselves is not modelled.
- `BroadcastChannels.DemoBroadcastChannels.Emit`: does not model listeners that subscribe or
  unsubscribe while a payload is being delivered.
- `seedTurnModes` and `seedBoardStatuses`, which write storage keys per scenario.
- `toToolApprovalInputPreview`, which keeps the first eight scalar fields of a tool's input.
- The packaging filter and the ELF and Mach-O header checks of `forge.config.ts`.
- Background tasks, context usage and the agent-control modules: not part of this model.
