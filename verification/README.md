# TrustedRouter Rust SDK: verified core

A Dafny model of the stateful and parsing cores of the TrustedRouter Rust SDK, with
proofs over every input, every run or every reachable state:

- the telemetry reporter: bounded event buffer, per-minute counter windows with the
  256-key fold ladder, batch selection, retirement after a POST, backoff, pause, server
  policy, disabling, and the background worker;
- the retry and failover engine together with the recorder that must mirror it, and the
  client header the recorder writes;
- receipted streams: framing, strict event decoding, the acceptance automaton, the hash
  preimage and incremental capture;
- route folding and the routes telemetry excludes;
- the four stream validators.

`dafny verify dfyconfig.toml` checks the whole project.

## Layout

Operations the SDK performs by updating state are classes and methods in the same shape
(`Reporter.State`, `Engine.RequestRecorder`, `Engine.Execute`, `ReceiptCapture.Capture`,
the loops of `ReceiptDigest`, `Routing` and `StreamValidators`). Each method's contract
equates its new state with a function of the old one. The theorems are proved about those
functions: `ReporterSpec`, `RecorderSpec` and `EngineSpec` hold the functions;
`ReporterRuns`, `ReporterTheorems`, `ReporterReplies`, `ReporterCensus`, `ReporterDrain`,
`RecorderRuns` and `EngineTheorems` hold what is true of all runs. `ReporterSteps`,
`EngineAnswers`, `ReportTheorems`, `StreamReports`, `LadderTheorems`, `FrameDecoding`,
`DigestRefusals` and `WireSizes` say what the functions compute without naming them: in
numbers, from the environment's answers or from the bytes as written. `LadderWitnesses` and
`ReporterWitnesses` hold sequences of calls and runs that show where a stronger claim fails;
every increment in them is a report a recorder emits (`CallReports`), and every run starts
from a new reporter with production settings.

A reporter run (`ReporterRuns`) is any sequence of the steps record, check gate, begin
flush, respond, send failed, abandoned flush, no HTTP client, close, worker poll and worker
done. The flush lock admits one flush at a time; other steps may come between its look at
the gate and its selection, and between its selection and its reply.
A `World` carries, beside the reporter's state, a history of what happened for one counter
field chosen at will. The invariant `GoodWorld` holds of every reachable world
(`ReachableGood`), so a theorem that asks for `GoodWorld` covers every reachable one.

An engine run is an arbitrary function from attempt numbers to what the environment
answers: a response, a failure, a request that cannot be assembled, or cancellation at
either await.

## Assumptions

- Step times never decrease. The code reads the clock before it takes the state lock, so
  two threads could apply times out of order; the window order would then not be
  guaranteed. A flush selects with the time it looked at the gate with; here its selection
  has a time of its own, no earlier.
- Sequence numbers wrap around, as in a build without overflow checks.
- The JSON sizes of rows, events and the envelope are parameters (`Windows.Sizes`); a
  batch's size is their sum with its separating commas. The envelope is a function of the
  sequence number and the drop count; the send time in it is taken to have a fixed length.
- Instants are natural numbers: nanoseconds in the reporter and the engine's sleeps,
  milliseconds in the recorder.
- The JSON parser, the receipt probe and SHA-256 are parameters or left abstract; a digest
  is represented by its preimage.

## Where the code falls short of a stated promise

- "Folding keeps counts exact" does not hold: refolding clamps the moved row to ten
  million (`LadderWitnesses.FoldingCanLoseCounts`). `FoldLadder.LosslessIffExact` and
  `FoldLadder.MergeAllExactly` give the exact condition.
- The last rung of the ladder may merge across `level` and every other key field
  (`LadderWitnesses.LastRungCrossesLevels`); `FoldLadder.LastResortExactly` and
  `FoldLadder.ClassGainsIff` say exactly when.
- A recorder finished before its first attempt stays silent for good
  (`RecorderRuns.EarlyFinishStaysSilent`, `RecorderRuns.SinkCalledOnce`).
- A call that overwrites the only moved attempt leaves `failover_used` set
  (`RecorderRuns.FailoverBitCanOutliveMark`, `RecorderRuns.FailoverBitKeptIff`); the engine never makes such a call
  (`EngineTheorems.RecorderMirrorsEngine`).
- Route folding removes one layer of escapes, so it is not idempotent
  (`RouteTheorems.FoldingDecodesOneLayer`, `RouteTheorems.RefoldingStableIff`).
- A 413 counts everything sent as dropped, including items evicted or pruned (and counted)
  while the batch was in flight (`ReporterWitnesses.OversizeCanCountTwice`).
  `ReporterReplies.OversizeCountedOnceIff` says exactly when it counts each item once. The
  drop balance of `ReporterTheorems.AccountingExact` is about counted drops and holds anyway.
- A 202 retires a row that grew past ten million whole, though the wire carried ten million
  (`ReporterWitnesses.AcceptCanRetireUnsent`, `ReporterReplies.RetiredIsReportedIff`).
- A backoff imposed by the worker, when it cannot build its client, does not stop another
  flush that has already looked at the gate (`ReporterWitnesses.BackoffCanBeOvertaken`,
  `ReporterTheorems.BackoffHeldIff`).

## Model

| member | source | states |
|---|---|---|
| `ReporterTheorems.CountsConserved` | crates/trusted-router/src/telemetry/reporter.rs:348-781 | In every state reachable by any interleaving of records, flushes, replies, failures, cancellations, worker steps and closing, and for every counter field: what was merged equals open + closed + retired by a 202 + discarded (pruned or 413) + cleared by disabling + given up by a ladder clamp. |
| `ReporterTheorems.MergedIsRecorded` | crates/trusted-router/src/telemetry/reporter.rs:1094-1117 | The left side of conservation is exactly the sum of the increments recorded along the run while the reporter was neither disabled nor closed. |
| `ReporterTheorems.LosslessRunIff` | crates/trusted-router/src/telemetry/reporter.rs:402-463 | Along any run the "given up by a clamp" term never shrinks, and it stays put iff every record taken meets the ladder's guard on the window it finds: exactly then conservation is lossless. |
| `ReporterTheorems.RoomyRunIsExact` | crates/trusted-router/src/telemetry/reporter.rs:402-463 | Ten million counts a minute are enough room for that guard. |
| `ReporterTheorems.AcceptRetiresWhatWasSent` | crates/trusted-router/src/telemetry/reporter.rs:580-617 | In every reachable state with a batch in flight, a 202 leaves the open window alone, retires only rows identical to rows in the batch, leaves no row under a sent reference, and removes exactly the sent events: nothing that arrived during the POST leaves with it. |
| `ReporterTheorems.BufferKeepsNewest` | crates/trusted-router/src/telemetry/reporter.rs:467-497 | In every reachable state at most 1000 events are buffered, ids strictly increase, the buffered successes are a suffix of all successes ever buffered and the buffered failures a suffix of all failures. |
| `ReporterTheorems.AccountingExact` | crates/trusted-router/src/telemetry/reporter.rs:348-394 | In every reachable state the byte totals are the sums over the contents, retained bytes respect the cap, closed windows are oldest-first, and counted drops = acknowledged + pending + forgotten by disabling + beyond the counter, the last only past 2^64 - 1 drops; the drops reported in flight never exceed the pending ones, so the subtraction on a 202 never saturates. |
| `ReporterTheorems.SelectionPrunes` | crates/trusted-router/src/telemetry/reporter.rs:515-525 | From any reachable state, a selection leaves no closed window older than 24 hours. |
| `ReporterTheorems.DisabledForever` | crates/trusted-router/src/telemetry/reporter.rs:631-639 | Once disabled, every run keeps the reporter disabled with empty buffer, empty windows and no pending drops. |
| `ReporterTheorems.BackoffIsExponential` | crates/trusted-router/src/telemetry/reporter.rs:619-629 | In every reachable state the next delay is min(60 s * 2^n, 600 s) where n is the number of failures since the last 202. |
| `ReporterTheorems.BackoffBounds` | crates/trusted-router/src/telemetry/reporter.rs:619-629 | Every step that imposes a backoff, with or without a Retry-After, sets it between 60 s and 600 s from now. |
| `ReporterTheorems.GateRespected` | crates/trusted-router/src/telemetry/reporter.rs:785-802 | In every reachable state a flush about to select has looked at the gate, on an enabled reporter with a key; its pause is still over, and its backoff is iff none was imposed since it looked. |
| `ReporterTheorems.BackoffHeldIff` | crates/trusted-router/src/telemetry/reporter.rs:785-802 | Whatever steps come between a flush's look at the gate and its selection, the pause it saw still holds, and the backoff does iff none of them was the worker giving up for want of a client. |
| `ReporterWitnesses.BackoffCanBeOvertaken` | crates/trusted-router/src/telemetry/reporter.rs:872-876 | With production settings, from a new reporter: it is closed while its worker is awake, the final flush looks at the gate, the worker gives up for want of a client, and the final flush selects a minute before that backoff ends. |
| `ReporterReplies.OversizeCountedOnceIff` | crates/trusted-router/src/telemetry/reporter.rs:772-778 | In every reachable state a 413 counts at least the items it removes, and exactly those iff every event and row sent is still held. |
| `ReporterWitnesses.OversizeCanCountTwice` | crates/trusted-router/src/telemetry/reporter.rs:772-778 | With production settings, from a new reporter with a running worker: a call is recorded, its window is sent a second before it is a day old, expires and is counted while in flight, and the 413 counts its two rows again: four drops for two rows lost. |
| `ReporterReplies.RetiredIsReportedIff` | crates/trusted-router/src/telemetry/wire.rs:351-372 | At the end of every run of records that count at least one request each, the counts a 202 retires are at least what the wire said of those rows, and exactly that iff none of them had grown past ten million. |
| `ReporterReplies.ReportedBalance` | crates/trusted-router/src/telemetry/wire.rs:351-372 | For any rows, what the wire says plus what clamping to ten million cuts off equals the counts plus the one request made up for each row that counts none. |
| `ReporterReplies.ReportsAreProper` | crates/trusted-router/src/telemetry.rs:1220-1275 | Every row of a recorder's report counts at least one request. |
| `ReporterWitnesses.AcceptCanRetireUnsent` | crates/trusted-router/src/telemetry/wire.rs:351-372 | With production settings, from a new reporter: after any n > 10,000,000 calls in a minute and the worker's flush, a 202 retires 2n requests where the wire carried twice ten million. |
| `ReporterWitnesses.CallIsReported` | crates/trusted-router/src/telemetry.rs:1220-1275 | The increments those runs record are the counters a recorder hands over for a call. |
| `ReporterCensus.EveryDropIsCounted` | crates/trusted-router/src/telemetry/reporter.rs:348-497 | At the end of every run of a new reporter: events buffered = events held + removed by a 202 + removed by a 413 + evicted + cleared by disabling, and drops counted = events evicted + samples that fitted no event + rows pruned + items named by 413s. |
| `ReporterCensus.StepBalances` | crates/trusted-router/src/telemetry/reporter.rs:331-881 | Each single step keeps both balances. |
| `ReporterSteps.ReplyExactly` | crates/trusted-router/src/telemetry/reporter.rs:739-781 | In every reachable state a reply disables the reporter iff it says "off" or its status is 400, 401, 403, 404 or 410; else a 202 removes exactly the batch, acknowledges its drops, resets the backoff and takes the policy where it lowers the rate, lengthens the interval up to 600 s or pauses for at most a day; a 413 removes the batch and counts every item sent; any other reply changes only the backoff, to the longer of min(60 s * 2^n, 600 s) and a Retry-After of at most 600 s. |
| `ReporterSteps.FailureExactly` | crates/trusted-router/src/telemetry/reporter.rs:619-629 | A failed send and a missing client impose exactly that backoff and change nothing else. |
| `ReporterSteps.RecordExactly` | crates/trusted-router/src/telemetry/reporter.rs:1094-1117 | In every reachable state a record is merged into the rows of its own minute; a new minute closes the old rows behind the older windows, less those over 24 hours or beyond the cap; a kept event joins the buffer with its time and size, from 1000 on in place of the oldest success; the worker starts with its first flush an interval away, and 50 events or an estimated 60 KiB ask for an urgent one. |
| `ReporterSteps.SelectExactly` | crates/trusted-router/src/telemetry/reporter.rs:515-578 | In every reachable state a selection closes and prunes all rows, takes the next 64-bit sequence number iff anything waits, and puts in flight the first events and rows, at most 100, 200 and 65,536 bytes, maximal under events-first trimming, with aligned ids and references; none iff nothing waits or not even an empty batch fits. |
| `ReporterSteps.GateOpensIff` | crates/trusted-router/src/telemetry/reporter.rs:785-796 | A flush passes the gate iff the reporter is enabled, has a key and is past pause and backoff; looking changes nothing else. |
| `ReporterSteps.PollExactly` | crates/trusted-router/src/telemetry/reporter.rs:842-862 | The worker begins a flush iff the reporter is open, enabled, past pause and backoff, and a regular flush is due or an urgent one asked for and allowed, which it then consumes. |
| `ReporterSteps.LeavingExactly` | crates/trusted-router/src/telemetry/reporter.rs:785-985 | A flush dropped at its await leaves everything but its batch in flight as it was; closing changes the closed flag alone. |
| `ReporterSteps.ShutForever` | crates/trusted-router/src/telemetry/reporter.rs:976-1117 | Once closed, no run counts or buffers anything again. |
| `ReporterSteps.StartExactly` | crates/trusted-router/src/telemetry/reporter.rs:185-200 | A new reporter is empty, with the rate in [0, 1] nearest to the one configured (0.01 if not finite) and the interval up to 600 s (30 s if zero). |
| `WireSizes.WindowBytesSpelled` | crates/trusted-router/src/telemetry/reporter.rs:348-367 | The bytes accounted for a closed window are the length of its serialised rows as a JSON array. |
| `WireSizes.BodyBytesSpelled` | crates/trusted-router/src/telemetry/reporter.rs:546-562 | The bytes a batch is measured by are the length of its body: the envelope around two comma-separated lists, each item serialised at its age in whole milliseconds up to a day. |
| `ReporterTheorems.PauseHonoured` | crates/trusted-router/src/telemetry/reporter.rs:507-509 | A pause once in force is respected by every later selection, whatever run comes between. |
| `ReporterTheorems.PolicyOnlyReduces` | crates/trusted-router/src/telemetry/reporter.rs:643-662 | Along any run the sample rate never rises, the pause never moves earlier and the flush interval never shrinks. |
| `ReporterTheorems.WorkerFlushesSpaced` | crates/trusted-router/src/telemetry/reporter.rs:842-881 | In every reachable state consecutive worker flushes, urgent ones included, are at least the flush interval in force at the end of the earlier one apart. |
| `ReporterTheorems.ReachableGood` | crates/trusted-router/src/telemetry/reporter.rs:302-330 | Every reachable state satisfies the joint invariant of buffer, windows, conservation, drop balance, timers, batch in flight and worker pace. |
| `ReporterRuns.StepKeepsGood` | crates/trusted-router/src/telemetry/reporter.rs:331-881 | Each single step, of any kind and at any time, keeps that invariant. |
| `ReporterRuns.RunKeepsGood` | crates/trusted-router/src/telemetry/reporter.rs:331-881 | So does every finite run. |
| `ReporterTheorems.IsStartGood` | crates/trusted-router/src/telemetry/reporter.rs:897-945 | A newly built reporter satisfies the invariant, whatever rate and interval it was configured with. |
| `ReporterRuns.BackoffKeepsTimers` | crates/trusted-router/src/telemetry/reporter.rs:619-629 | One more failure doubles the delay up to the cap, and the imposed delay stays within one and ten minutes. |
| `ReporterSpec.NormaliseSampleRate` | crates/trusted-router/src/telemetry/reporter.rs:185-191 | The configured rate is brought into [0, 1]. |
| `ReporterSpec.NormaliseFlushInterval` | crates/trusted-router/src/telemetry/reporter.rs:193-200 | The configured interval ends up positive and at most 600 s, which the interval never shrinking relies on. |
| `ReporterDrain.AcknowledgedFlushesDrain` | crates/trusted-router/src/telemetry/reporter.rs:515-617 | If every waiting item fits a batch alone, at any age, 64-bit sequence number and 64-bit drop count a batch can carry, as many acknowledged flushes as there are items, at any times and with no new records, leave nothing waiting. |
| `ReporterDrain.SpelledSizesFit` | crates/trusted-router/src/telemetry/reporter.rs:546-562 | That hypothesis is met by lengths that spell their numbers in decimal, with 1 KiB around the items and items of up to 60 KiB. |
| `ReporterDrain.RoundShrinks` | crates/trusted-router/src/telemetry/reporter.rs:515-617 | Each select-and-acknowledge round strictly reduces the number of waiting items. |
| `ReporterDrain.SelectsSomething` | crates/trusted-router/src/telemetry/reporter.rs:515-578 | Then a selection is never empty while anything waits. |
| `ReporterDrain.AcknowledgeShrinks` | crates/trusted-router/src/telemetry/reporter.rs:757-770 | A 202 for a non-empty prefix batch strictly reduces what waits. |
| `FoldLadder.MergeAllExactly` | crates/trusted-router/src/telemetry/reporter.rs:402-463 | For any increments: keys stay unique and at most 256, every field total accounts for every increment up to the exact loss, and the loss is zero iff every merge met the `Exact` guard. |
| `LadderTheorems.FiledExactly` | crates/trusted-router/src/telemetry/reporter.rs:417-463 | Row by row, for any valid window: an increment goes to its own row if there is one or fewer than 256 are kept; else to the row with error class "unknown", made of the first row that differs in error class alone if it is missing; else likewise with the endpoint folded too; else to the first row; a folded row becomes the last one and no other row changes. |
| `FoldLadder.MergeOneExactly` | crates/trusted-router/src/telemetry/reporter.rs:417-463 | One merge raises the total of the class it lands in, and no other, by the increment less the loss. |
| `FoldLadder.ExactWithinMaxCount` | crates/trusted-router/src/telemetry/reporter.rs:402-463 | While a field stays within ten million in the window, any sequence of merges is exact. |
| `FoldLadder.ClassTotalsKept` | crates/trusted-router/src/telemetry/reporter.rs:252-285 | If merges are exact and the last rung never fires, the total for every value of the eight unfolded key fields is preserved. |
| `FoldLadder.ClassGainsIff` | crates/trusted-router/src/telemetry/reporter.rs:417-446 | For one non-zero increment its class gains exactly the increment iff the merge is exact and the last rung does not fire. |
| `FoldLadder.LastResortExactly` | crates/trusted-router/src/telemetry/reporter.rs:443-445 | The last rung fires iff the window is full and holds no row of the increment's class. |
| `LadderWitnesses.LastRungCrossesLevels` | crates/trusted-router/src/telemetry/reporter.rs:443-445 | In a window filled by 128 kinds of failing calls, the attempt row of a succeeding call lands in a request-level row: that class gains both rows of the call and its own class gains nothing. |
| `FoldLadder.LosslessIffExact` | crates/trusted-router/src/telemetry/wire.rs:425-446 | A merge loses nothing of a field iff a condition on window and increment holds that can be checked before merging. |
| `LadderWitnesses.FoldingCanLoseCounts` | crates/trusted-router/src/telemetry/reporter.rs:405-406 | For every n > 10,000,000: after n calls of one kind and 127 of other kinds, one call more changes the total by 2 - 2(n - 10,000,000): both rows it folds are clamped to ten million. |
| `LadderWitnesses.TheseAreReports` | crates/trusted-router/src/telemetry.rs:1220-1275 | All of those increments are counters a recorder hands over for a call. |
| `CallReports.OneReport` | crates/trusted-router/src/telemetry.rs:1184-1278 | A recordable call of one attempt, through begin, answer and finish, reports exactly once, with one request row and one attempt row of one request each under the keys of its answer. |
| `Counters.MergedField` | crates/trusted-router/src/telemetry/wire.rs:425-446 | Every field of a merged row is the old value plus the increment clamped to 10,000,000, saturating at 2^64 - 1. |
| `Counters.MergeHistogram` | crates/trusted-router/src/telemetry/wire.rs:413-421 | The in-place histogram merge computes the bucket-wise saturating sum. |
| `Counters.MergeCounterIncrement` | crates/trusted-router/src/telemetry/wire.rs:425-446 | The in-place merge computes the merged row. |
| `EventBuffer.VictimIsOldestOfItsKind` | crates/trusted-router/src/telemetry/reporter.rs:467-479 | Eviction takes the oldest event of its kind, and a failure only if no success is buffered. |
| `EventBuffer.AppendValid` | crates/trusted-router/src/telemetry/reporter.rs:481-497 | Appending, with eviction when full, keeps ids sorted and the buffer closed upwards within each kind. |
| `EventBuffer.RetainValid` | crates/trusted-router/src/telemetry/reporter.rs:580-587 | So does retiring a batch by id, whatever was evicted or appended while it was in flight. |
| `EventBuffer.BufferedAreSuffixes` | crates/trusted-router/src/telemetry/reporter.rs:467-497 | Such a buffer holds a suffix of the log of each kind. |
| `Windows.PruneExactly` | crates/trusted-router/src/telemetry/reporter.rs:376-394 | After pruning nothing is over 24 hours old and the bytes fit; the last window dropped was too old or broke the byte cap. |
| `Windows.RetirementConserves` | crates/trusted-router/src/telemetry/reporter.rs:588-616 | Retiring by reference splits every field total and the row count exactly into kept and retired. |
| `Windows.RetireValid` | crates/trusted-router/src/telemetry/reporter.rs:588-616 | Retiring keeps windows ordered, non-empty, unique in their keys and correctly sized, and never grows the bytes. |
| `Windows.RetiredExactly` | crates/trusted-router/src/telemetry/reporter.rs:588-616 | A row is retired iff it is a closed row under a sent reference. |
| `Retirement.StripStep` | crates/trusted-router/src/telemetry/reporter.rs:588-601 | Taking one more reference out of the windows in place equals stripping by the set enlarged by it. |
| `Retirement.FinishRetirement` | crates/trusted-router/src/telemetry/reporter.rs:602-616 | Stripping in place, resizing the touched windows and dropping the empty ones equals retirement by set. |
| `Batch.TrimExactly` | crates/trusted-router/src/telemetry/reporter.rs:559-577 | The trimming loop returns (e, c) iff that is the maximal fitting prefix pair under events-first trimming, and gives up iff not even the empty batch fits. |
| `Batch.ProgressIff` | crates/trusted-router/src/telemetry/reporter.rs:559-577 | The trimmed batch is non-empty iff one row fits alone or, without rows, one event does. |
| `Batch.SelectedWithinLimits` | crates/trusted-router/src/telemetry/reporter.rs:515-578 | A selected batch is a prefix of the buffer and of the closed rows in window order, within 100 events, 200 rows and 65,536 bytes, and maximal. |
| `Reporter.State.constructor` | crates/trusted-router/src/telemetry/reporter.rs:897-945 | The new state is the initial state of the specification. |
| `Reporter.State.RollWindow` | crates/trusted-router/src/telemetry/reporter.rs:336-346 | The in-place update equals the specified roll-over. |
| `Reporter.State.CloseCurrentWindow` | crates/trusted-router/src/telemetry/reporter.rs:348-367 | Closing freezes the open rows into a sized window and prunes, as specified. |
| `Reporter.State.PruneWindows` | crates/trusted-router/src/telemetry/reporter.rs:376-394 | The two pruning loops drop exactly the specified prefix, with bytes and drops adjusted. |
| `Reporter.State.Refold` | crates/trusted-router/src/telemetry/reporter.rs:402-409 | The remove-and-push of one row equals `Refolded`, and the new key is returned. |
| `Reporter.State.CounterTarget` | crates/trusted-router/src/telemetry/reporter.rs:417-446 | The sequence of scans picks the specified rung, leaves the prepared window and returns its target. |
| `Reporter.State.MergeCounters` | crates/trusted-router/src/telemetry/reporter.rs:448-463 | The loop over increments computes `MergeAll`. |
| `Reporter.State.DropBufferedEvent` | crates/trusted-router/src/telemetry/reporter.rs:467-479 | Removes the specified victim and subtracts its bytes. |
| `Reporter.State.AppendEvent` | crates/trusted-router/src/telemetry/reporter.rs:481-497 | Makes room and appends under the next id, as specified. |
| `Reporter.State.StartWorker` | crates/trusted-router/src/telemetry/reporter.rs:950-962 | Starts the worker once, with its next flush one interval away. |
| `Reporter.State.OnRequest` | crates/trusted-router/src/telemetry/reporter.rs:1094-1117 | One record equals the specified step: roll, merge, sample, wake. |
| `Reporter.State.SelectBatch` | crates/trusted-router/src/telemetry/reporter.rs:515-578 | Settling, building and trimming in place select exactly the specified batch and change only what settling changes. |
| `Reporter.TakeClosedRows` | crates/trusted-router/src/telemetry/reporter.rs:534-545 | The nested loop collects the first 200 closed rows in window order with aligned references. |
| `Reporter.TrimBatch` | crates/trusted-router/src/telemetry/reporter.rs:559-577 | The popping loop computes the specified trim with ids and references aligned. |
| `Reporter.State.StripRef` | crates/trusted-router/src/telemetry/reporter.rs:589-600 | Finds the window and the row of one reference and takes the row out, touching nothing else. |
| `Reporter.State.StripSent` | crates/trusted-router/src/telemetry/reporter.rs:588-601 | The reference loop strips the windows by the set of references. |
| `Reporter.State.RemoveSelected` | crates/trusted-router/src/telemetry/reporter.rs:580-617 | The three in-place passes equal retirement by identity. |
| `Reporter.State.SetBackoff` | crates/trusted-router/src/telemetry/reporter.rs:619-629 | Equals the specified backoff. |
| `Reporter.State.Disable` | crates/trusted-router/src/telemetry/reporter.rs:631-639 | Clears every buffer. |
| `Reporter.State.ApplyPolicy` | crates/trusted-router/src/telemetry/reporter.rs:643-662 | Equals the specified policy update. |
| `Reporter.State.HandleResponse` | crates/trusted-router/src/telemetry/reporter.rs:739-781 | The status dispatch equals the specified reply step. |
| `Reporter.State.Poll` | crates/trusted-router/src/telemetry/reporter.rs:842-862 | One worker poll starts a flush exactly when specified. |
| `Reporter.State.FlushDone` | crates/trusted-router/src/telemetry/reporter.rs:877-879 | The end of a worker flush resets both due times. |
| `EngineTheorems.AttemptsBounded` | crates/trusted-router/src/transport/engine.rs:174-264 | For every environment at least one and at most max_retries + 1 attempts are made, exactly one if the request is not replay-safe, and attempt k uses candidate min(failover-marked failures before k, len - 1). |
| `EngineAnswers.RetriesExactly` | crates/trusted-router/src/transport/engine.rs:244-264 | For every environment attempt k is followed by another iff the request is replay-safe, k < max_retries, nothing was cancelled at it, and it met a transport failure, or an answer outside 200-299 with x-should-retry true, or with none and status 429 or at least 500. |
| `EngineAnswers.EndsExactly` | crates/trusted-router/src/transport/engine.rs:174-264 | The call ends with an open response of status s iff its last attempt was answered with that 2xx, and cancelled iff it was dropped while sending, reading a failure or sleeping; else it is refused. |
| `EngineAnswers.MovesExactly` | crates/trusted-router/src/transport/engine.rs:81-105 | The first attempt uses the first candidate; after attempt k the call moves exactly one on iff it persists there after a transport failure or an unvetoed 502, 503 or 504 and a further candidate exists. |
| `EngineAnswers.SleepsExactly` | crates/trusted-router/src/transport/policy.rs:132-162 | One sleep after each attempt the call persists at, of exactly the longer of what the server asked for (milliseconds before seconds or date, at most 60 s) and the draw within min(500 ms * 2^k, 30 s). |
| `EngineTheorems.MovesJustified` | crates/trusted-router/src/transport/engine.rs:81-105 | A move goes exactly one candidate on and follows a retryable transport failure or an unvetoed 502, 503 or 504. |
| `EngineTheorems.SleepBounded` | crates/trusted-router/src/transport/engine.rs:244-264 | Each sleep lies between the clamped server hint and 60 s; all sleeps together are at most 60 s * max_retries. |
| `EngineTheorems.RecorderMirrorsEngine` | crates/trusted-router/src/transport/engine.rs:149-265 | For every environment, including cancellation at any await: one record per attempt that was assembled, record k has index k and the host of the candidate used, is marked moved iff the cursor advanced there, and failover_used holds iff some record is marked. |
| `EngineTheorems.RecordsTellAnswers` | crates/trusted-router/src/telemetry.rs:1002-1162 | For every environment each record tells the answer its attempt got: status, error class and source, retry hint, request id, time to first byte, timeout phase, duration and outcome; only the attempt at which the call was cancelled is aborted instead. |
| `EngineTheorems.MovesReachCursor` | crates/trusted-router/src/transport/engine.rs:81-105 | The attempts marked as moved number exactly the index of the candidate the call ended on. |
| `EngineTheorems.CountersTellTheWalk` | crates/trusted-router/src/telemetry.rs:1220-1275 | The counters of a call that reported: one row per stored attempt, failover counts of those rows adding up to the index of the candidate it ended on, and a request row marked as failed over iff that is not the first. |
| `EngineTheorems.OpenedCallsReport` | crates/trusted-router/src/telemetry.rs:1281-1347 | A call that opens a response, followed through any events, failures and ends of its stream or of its buffered body to the drop of its recorder, reports exactly once iff it may be recorded; its counters hold one row per attempt, with failover counts adding up to the candidate it ended on. |
| `ReportTheorems.FailedCallTold` | crates/trusted-router/src/telemetry.rs:1184-1278 | The report of a refused or cancelled call, from the environment: every attempt as answered; the request row with the host, outcome and status class of the last attempt, the error class of the first failure, the bucket of the total time, and first-attempt success iff attempt 0 answered below 400 with its body whole and was not cancelled; exhausted iff retries ran out. |
| `StreamReports.OpenedCallTold` | crates/trusted-router/src/telemetry.rs:1184-1347 | The same for a recordable call that opened a response, through any events, failures and ends of its stream or body to the drop: the last record is the response, the last failure before the finish (stalled, broken or timed out), or aborted; first-attempt success iff attempt 0 was answered well and moved on from, or opened and finished without a failure. |
| `EngineTheorems.FailedCallsReport` | crates/trusted-router/src/telemetry.rs:1184-1288 | A refused or cancelled call has reported once iff it is recordable and stored an attempt, with exactly the stored attempts; an opened stream has not reported yet. |
| `Engine.Execute` | crates/trusted-router/src/transport/engine.rs:149-265 | The loop over cursor, attempt counter and recorder object computes the specified walk. |
| `Engine.Attempt` | crates/trusted-router/src/transport/engine.rs:318-363 | One pass of the loop equals one specified step. |
| `Engine.CandidateCursor.Advance` | crates/trusted-router/src/transport/engine.rs:98-105 | The cursor moves by one and says so unless it is on the last candidate. |
| `RetryPolicy.DelayBounds` | crates/trusted-router/src/transport/policy.rs:132-145 | Whatever the hint and the draw, a delay is at most 60 s, at least the clamped hint, and without a hint at most the exponential ceiling. |
| `RetryPolicy.ParseRetryAfter` | crates/trusted-router/src/transport/policy.rs:147-162 | No hint, from either header and of any size, exceeds 60 s. |
| `RetryPolicy.FailoverWithinRetry` | crates/trusted-router/src/transport/policy.rs:46-106 | Moving implies retrying and an unvetoed 502-504; an explicit "false" forbids both and "true" forces a retry. |
| `RecorderRuns.EveryOrderWellKept` | crates/trusted-router/src/telemetry.rs:926-1162 | For every order of recorder and stream calls, record k carries index k, times stay clamped and the sink has been called at most once. |
| `RecorderRuns.SinkCalledOnce` | crates/trusted-router/src/telemetry.rs:1184-1347 | For every order of calls ended by a drop the sink is called at most once, and exactly once iff the call is recordable, an attempt is stored and nothing finished it before its first attempt. |
| `RecorderRuns.EarlyFinishStaysSilent` | crates/trusted-router/src/telemetry.rs:1184-1191 | The last condition is needed: a call order with a stored attempt that never reports. |
| `ReportTheorems.ReportRows` | crates/trusted-router/src/telemetry.rs:1184-1278 | Every report, whatever the recorder held: the request row counts one request and all attempts, carries the last attempt, the first error class, the failover bit, first-attempt success, and one duration each in the buckets doubling from 100 ms; attempt row k carries attempt k; status classes and timeout floors by their numeric bounds. |
| `RecorderRuns.AttemptTotals` | crates/trusted-router/src/telemetry.rs:1249-1275 | The attempt rows count each attempt once and each move once. |
| `RecorderRuns.FailoverBitKeptIff` | crates/trusted-router/src/telemetry.rs:981-1123 | A call keeps failover_used in agreement with the attempts' marks iff it does not overwrite the only marked attempt. |
| `RecorderRuns.FailoverBitCanOutliveMark` | crates/trusted-router/src/telemetry.rs:1069-1123 | The order begin, failure, moved, failure: the bit is set and no attempt is marked. |
| `Engine.BuildCounters` | crates/trusted-router/src/telemetry.rs:1220-1275 | The loop builds the request row and one row per attempt. |
| `Engine.RequestRecorder.BeginAttempt` | crates/trusted-router/src/telemetry.rs:926-934 | Equals the specified update. |
| `Engine.RequestRecorder.StoreAttempt` | crates/trusted-router/src/telemetry.rs:981-987 | Overwrites the record of an index already stored, else appends. |
| `Engine.RequestRecorder.OnResponse` | crates/trusted-router/src/telemetry.rs:1002-1046 | Equals the specified update. |
| `Engine.RequestRecorder.OnResponseBodyComplete` | crates/trusted-router/src/telemetry.rs:1052-1060 | Equals the specified update. |
| `Engine.RequestRecorder.OnTransportError` | crates/trusted-router/src/telemetry.rs:1069-1113 | Equals the specified update. |
| `Engine.RequestRecorder.OnMoved` | crates/trusted-router/src/telemetry.rs:1118-1123 | Equals the specified update. |
| `Engine.RequestRecorder.OnFirstEvent` | crates/trusted-router/src/telemetry.rs:1127-1133 | Equals the specified update. |
| `Engine.RequestRecorder.OnAborted` | crates/trusted-router/src/telemetry.rs:1137-1162 | Equals the specified update. |
| `Engine.RequestRecorder.Finish` | crates/trusted-router/src/telemetry.rs:1184-1278 | Emits at most one report, as specified. |
| `Engine.RequestRecorder.Drop` | crates/trusted-router/src/telemetry.rs:1281-1288 | Dropping an unfinished recorder aborts and finishes it. |
| `Engine.StreamRecorder.OnEvent` | crates/trusted-router/src/telemetry.rs:1321-1330 | Equals the specified stream step. |
| `Engine.StreamRecorder.OnWireFailure` | crates/trusted-router/src/telemetry.rs:1332-1343 | Equals the specified stream step. |
| `Engine.StreamRecorder.OnComplete` | crates/trusted-router/src/telemetry.rs:1345-1347 | Equals the specified stream step. |
| `ClientHeader.HeaderExistsIff` | crates/trusted-router/src/telemetry.rs:942-979 | In every reachable recorder state a header exists iff the attempt index is at most 99 and the host is not custom: neither the value grammar nor the 160-byte guard ever suppresses one. |
| `ClientHeader.HeaderTells` | crates/trusted-router/src/telemetry.rs:942-979 | Read back, a header gives the attempt index and the streaming flag; a retry's also the previous attempt's outcome, error class, host and milliseconds, the milliseconds since the call began, and the failover flag, each under its own key. |
| `ClientHeader.HeaderRoundTrip` | crates/trusted-router/src/telemetry.rs:833-859 | Splitting a header on ";" and "=" recovers every key and value. |
| `ClientHeader.HeaderInjective` | crates/trusted-router/src/telemetry.rs:942-979 | Equal headers mean equal index, streaming flag and, after a retry, equal facts about the previous attempt, equal times and equal failover bit. |
| `SseFraming.FindsFirst` | crates/trusted-router/src/receipts.rs:1450-1454 | The search returns the first occurrence of a non-empty needle, and nothing iff there is none. |
| `SseFraming.FrameLengthExactly` | crates/trusted-router/src/receipts.rs:1064-1073 | The two delimiter searches find n iff the first n bytes are the shortest prefix ending in a blank line, LF or CRLF. |
| `SseFraming.FrameExactly` | crates/trusted-router/src/receipts.rs:1064-1073 | The frame found is the one frame the rest starts with. |
| `SseFraming.PartitionUnique` | crates/trusted-router/src/receipts.rs:1064-1073 | A stream has at most one partition into frames, and scanning finds it. |
| `SseFraming.PartitionsIff` | crates/trusted-router/src/receipts.rs:1064-1073 | Frames partition a stream iff they are the scanned frames and nothing is left over. |
| `SseFraming.FramesGrow` | crates/trusted-router/src/receipts.rs:1064-1073 | Appending bytes keeps every complete frame and continues from the incomplete tail. |
| `SseFraming.NextTakesFrame` | crates/trusted-router/src/receipts.rs:1064-1073 | The offset search takes the first frame of what is left and advances past it. |
| `SseFraming.DecodeSseEvent` | crates/trusted-router/src/receipts.rs:1075-1121 | The line loop computes the strict decoding. |
| `FrameDecoding.DecodesIff` | crates/trusted-router/src/receipts.rs:1075-1121 | A frame decodes to (name, payload, done) iff it is its lines and a blank LF or CRLF line, one line being "data:", at most one space and the payload, at most one other "event:", at most one space and the name, with no further line; done iff the payload is "[DONE]". |
| `FrameDecoding.RefusesIff` | crates/trusted-router/src/receipts.rs:1075-1121 | A frame is refused as incomplete iff no blank line ends it, with the complaint of its first repeated or unsupported line, or for a name without data. |
| `SseFraming.DecodedIsLineFree` | crates/trusted-router/src/receipts.rs:1075-1121 | Decoded names and payloads hold no LF. |
| `ReceiptDigest.StreamDigest` | crates/trusted-router/src/receipts.rs:972-1058 | The offset loop computes the automaton over the decoded frames. |
| `ReceiptDigest.AcceptsExactly` | crates/trusted-router/src/receipts.rs:972-1058 | A stream is accepted with a preimage and a count iff it partitions exactly into frames that decode to data events (unnamed for sse-data-v1), then the expected receipt, then [DONE] and nothing else, with that preimage and number of data events. |
| `DigestRefusals.RefusedIff` | crates/trusted-router/src/receipts.rs:972-1058 | A stream is refused with a given error iff its first frame out of place deserves it, or, with none, bytes are left over, the receipt or the [DONE] is missing. |
| `ReceiptDigest.AcceptedByFrames` | crates/trusted-router/src/receipts.rs:972-1058 | The partition in question is always the scanned one. |
| `ReceiptDigest.PreimageInjective` | crates/trusted-router/src/receipts.rs:1023-1045 | Two sequences of hashable events with the same preimage are equal. |
| `ReceiptDigest.PreimageUniquelyDecodable` | crates/trusted-router/src/receipts.rs:1023-1045 | Two accepted streams of one domain with equal preimages have the same number of events with the same names and payloads. |
| `ReceiptCapture.Capture.RefreshReceipt` | crates/trusted-router/src/receipts.rs:1210-1223 | Searching the whole wire again leaves the last receipt among its complete frames, or the one held. |
| `ReceiptCapture.Capture.Push` | crates/trusted-router/src/receipts.rs:1232-1243 | A chunk extends the wire and keeps the invariant that the receipt held is the last one of the wire. |
| `ReceiptCapture.Rescan` | crates/trusted-router/src/receipts.rs:1210-1223 | Rescanning a grown wire without forgetting the receipt held finds the last receipt of the grown wire. |
| `ReceiptCapture.ChunkingIndependent` | crates/trusted-router/src/receipts.rs:1210-1243 | For any split into chunks the capture holds the concatenation and the last receipt among its complete frames. |
| `ReceiptCapture.CapturedIff` | crates/trusted-router/src/receipts.rs:1210-1243 | However the wire is chunked, the capture holds a receipt iff the last complete frame that carries one carries it. |
| `ReceiptCapture.AcceptedReceiptIsCaptured` | crates/trusted-router/src/receipts.rs:972-1243 | If the digest accepts the wire against a receipt, the capture of that wire, in any chunks, holds that receipt. |
| `Routing.PercentDecodeAscii` | crates/trusted-router/src/transport/routing.rs:167-186 | The index loop removes one layer of escapes. |
| `Routing.FoldRoute` | crates/trusted-router/src/transport/routing.rs:107-121 | The collapsing and popping loops compute the normal form of the decoded path. |
| `Routing.DecodeReads` | crates/trusted-router/src/transport/routing.rs:167-186 | Decoding yields t iff t reads the path from the left, each "%" with two digits of 0-9, a-f, A-F as the character of that code, and every other character, stray percent signs included, as itself. |
| `Routing.DecodeSpelled` | crates/trusted-router/src/transport/routing.rs:167-186 | Decoding inverts every escaping of any characters below 256, as "%" and the digits of the code in either hexadecimal case, that escapes each literal percent sign. |
| `Routing.CollapseIsNormal` | crates/trusted-router/src/transport/routing.rs:107-121 | Collapsing character by character yields the segment-wise normal form and at most one slash more. |
| `RouteTheorems.SameRouteIff` | crates/trusted-router/src/transport/routing.rs:107-121 | Two paths fold to the same route iff, read once, both or neither are rooted and they have the same parts between slashes up to the case of ASCII letters. |
| `RouteTheorems.SpellingInvariant` | crates/trusted-router/src/transport/routing.rs:107-186 | Escaping, case, repeated and trailing slashes never change the route. |
| `RouteTheorems.RouteShape` | crates/trusted-router/src/transport/routing.rs:107-121 | A route has the rooting and, up to case, the parts of its path, no "//", no character A-Z and, except for the root itself, no trailing slash. |
| `RouteTheorems.NormalFormIdempotent` | crates/trusted-router/src/transport/routing.rs:107-121 | Folding decoded text is idempotent. |
| `RouteTheorems.RefoldingStableIff` | crates/trusted-router/src/transport/routing.rs:107-186 | Folding a folded route again leaves it unchanged iff it spells no escape. |
| `RouteTheorems.FoldingDecodesOneLayer` | crates/trusted-router/src/transport/routing.rs:167-186 | "%2561" folds differently the second time. |
| `RouteTheorems.ExcludedIff` | crates/trusted-router/src/telemetry.rs:518-523 | The textual exclusion test holds of a route iff the excluded names occur as consecutive whole segments, each after a slash. |
| `RouteTheorems.TrackedIff` | crates/trusted-router/src/telemetry.rs:518-523 | A path, cut at its first ? or # and read once, is tracked iff no part after a slash is "attestation" and no three such in a row are the authorize route, in any case: no spelling of an excluded route is tracked and no other route is lost. |
| `RouteTheorems.RelativeIff` | crates/trusted-router/src/transport/routing.rs:143-159 | The base-relative route exists iff the origins agree and the base's segments are a prefix of the response's, and it spells exactly the remaining ones. |
| `StreamValidators.ParsedMirrorsRaw` | crates/trusted-router/src/sse.rs:271-430 | For every input, each parsed validator yields its raw twin's output read through the parser with the [DONE] event removed. |
| `StreamValidators.RawExactly` | crates/trusted-router/src/sse.rs:351-430 | Every event that passes (parsed, not [DONE] and, in a Responses stream, not named response.completed, response.failed, response.incomplete or error) is passed on unchanged, the first other item ends the output, and an input without one ends in the "ended before" error. |
| `StreamValidators.ParsedExactly` | crates/trusted-router/src/sse.rs:271-349 | The parsed output is each passing event's data, in a Responses stream under its own name, its type or "message", then what the first other item makes of it. |
| `StreamValidators.ReachesEndIff` | crates/trusted-router/src/sse.rs:271-430 | A stream reaches its end iff some item is [DONE] or, in a Responses stream, bears one of the four terminal names, and every item before passes. |
| `StreamValidators.EndsCleanlyIff` | crates/trusted-router/src/sse.rs:271-430 | The raw output ends without an error, and so does the parsed one, iff a terminal was reached before any fault; nothing after a terminal or a fault is ever looked at. |
| `StreamValidators.ValidateChatStream` | crates/trusted-router/src/sse.rs:271-298 | The loop computes the parsed chat output, and completes the recorder iff the end was reached. |
| `StreamValidators.ValidateResponsesStream` | crates/trusted-router/src/sse.rs:300-349 | The same for the parsed Responses output. |
| `StreamValidators.ValidateRawChatStream` | crates/trusted-router/src/sse.rs:351-379 | The same for the raw chat output. |
| `StreamValidators.ValidateRawResponsesStream` | crates/trusted-router/src/sse.rs:381-430 | The same for the raw Responses output. |

## Left out

- HTTP, TLS, Tokio, threads and timers: environment steps that answer with a status, a failure or a time.
- The sampling draw and the wire shape of events: a record's sample (none, unfit, kept) is an input of the step.
- Rounding of decimal seconds in server policy and Retry-After: the numbers arrive as integers.
- Threads that apply stale clock readings.
- Header text parsing (`retry-after` dates, `x-should-retry` spellings) and `request_replay_safe`: inputs of the model; each is settled by reading one branch.
- `classify_chain`, `host_enum` and `endpoint_enum`: classes, hosts and endpoints are inputs.
- Base64, JWS, Ed25519 and the claim checks of `verify_receipt_with`, and all of `attestation.rs`.
- `parse_json_event`: a parameter of the validators; its checks are independent gates.
- `parse_sse` and its idle deadline, `text_delta` and the text stream.
- `plane_urls`, `semantic_request_route` and other URL joining; only folding and comparison of paths are modelled.
- SDK identity, User-Agent and version grammars, telemetry enablement.
- `client.rs`, `blocking.rs`, the FFI crate, OAuth, tools and the serde types: thin wrappers and records.
- RouteTheorems.RelativeIff: only for rooted paths, which every parsed URL has.
