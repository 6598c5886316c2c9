# A verified model of the customs-declaration service

A shipment's documents are uploaded, read by a paid extractor, reviewed by a person and merged into one customs
declaration with its XML. This project models the parts of that service where a mistake is expensive and a reading
of one function does not show it: who may run an extraction, what may stay stored when the evidence changes, what
numbers and dates mean, how item values relate to the header, what may happen to a printed description, when a
declaration is ready, and what the limiters and vendor memories remember. Each module states those promises for every
input, every run or every reachable state and proves them. Where a promise is false of the code, the code is kept,
one lemma shows a concrete run or input, and another says exactly when the promise holds.

Paths below are relative to the repository.

## The modules

| module | what it covers |
|---|---|
| `ExtractionQueue`, `ExtractionExclusion` | claims, messages, workers and their failures as one step relation; no orphaned claim; one extraction per document |
| `ExtractionService`, `SynchronousExtraction`, `Heartbeat`, `WorkerDispatch` | the code that takes those steps; the same exclusion without a queue; the visibility heartbeat; the dispatch loop |
| `JobLockTable` | the reference-counted dictionary of job locks, for any number of threads and jobs |
| `JobLifecycle`, `ReviewOverlay` | one job's documents, reviewer entries and artefacts, with every locked section as one step and the readiness gate outside the lock |
| `JobRuns` | that job together with the queue protocol that extracts its documents: whole runs |
| `Messages`, `Validator`, `Verdict` | validation messages, the gates, and the verdict on a declaration |
| `Decimals`, `DecimalText`, `DecimalRoundTrip`, `DecimalSeparators`, `DecimalDecoration`, `DecimalMarks`, `DecimalCurrency`, `DecimalBlanks` | exact decimals and their rounding; printing and parsing numeric text |
| `Valuation` | costs shared out over the items, item and header CIF, `Value_item` |
| `Dates` | parsing document dates, printing the two canonical forms |
| `Text`, `Segmentation`, `Attribution`, `AttributionSteps`, `AttributionRollback`, `AttributionTables` | cutting a description cell into runs; moving misplaced names between rows; what one row and one answer change; when that is rolled back; tables |
| `Limiters` | the login throttle and the two-window limiters |
| `VendorProfile`, `VendorUpsert` | remembered origins as a function of history; the two-attempt upsert |
| `Options`, `Documents` | shared data types |

Code that only computes is modelled by functions; code that changes state, or loops, by classes and methods whose
postconditions tie the new state to those functions. Concurrency is a step relation over whole-database states: a
commit is one step, a row or advisory lock is mutual exclusion until the commit. `Doc.epoch`, `Message.epoch`,
`Entry.against`, `Donation.origin`, `Limiter.log` and the like are auxiliary: they record history and decide nothing.

## What the code relies on

The queue and job theorems are stated over `Faults`, one flag for each thing the code relies on but does not enforce,
so each theorem says which flags matter:

* `lockTimeout`: `job_lock_timeout_seconds` is above zero;
* `unsaved`: the database fails a worker before its run's status is stored, or something is raised outside the `try` of
  `run_extraction`, after the extractor has returned;
* `producerCrash`: a producer dies, or its database fails it, between its commit and its send or release;
* `retention`: the queue drops a message that has outlived its retention period;
* `phantomSend`: a send fails after enqueueing;
* `lostBeat`: a live worker's message becomes visible again;
* `lateCrash`, `deleteFails`: a worker dies between its result and its delete, or the delete fails;
* `reattachRace`: a claim lands between a re-attach's read and its write;

and `maxReceives`, the number of deliveries before the dead-letter queue takes a message. Without a queue, a
`Deployment` says whether a claim may slip into a re-attach, and how many server processes there are.

## What the proofs found

* `_attach_document` reads FAILED and later writes UPLOADED with no guard. A claim taken in between is reset, and two
  extractions of one document may run (`ReattachRaceDuplicates`, `ReattachStartsSecondRun`). Written late enough, the
  same statement brings a rejected document back behind a stored XML (`StaleWriteDisagrees`). Stored artefacts agree
  with the evidence exactly in the deployments in which no document can be extracted twice at once (`AgreeExactly`).
* A busy job lock, a failed commit, and any error after the extractor has returned leave the document EXTRACTING while
  its message is deleted (`UnsavedRunOrphans`). So do a dead producer and a message that outlives its retention
  (`DeadProducerOrphans`, `DiscardedMessageOrphans`); no other modelled fault does (`NoOrphanExactly`).
* The startup sweep takes every EXTRACTING claim for a dead process's. With two server processes and no queue, as
  `easycustoms-api.service` starts them, a restart of one lets a second extraction begin beside the other's
  (`RestartStartsSecondRun`).
* The readiness gate of `finalize` and `critical_review` runs before the lock, so a document extracted in between is
  declared although its role is unconfirmed (`GateOutrun`). The stored artefacts still agree with the evidence.
  `DeclaresConfirmedExactly` says when only confirmed documents are declared.
* A numeral that `trim` prints with three decimals behind one to three digits is read back a thousand times too large
  on a European page (`TrimMisread`); that is the only case (`TrimRoundTripExactly`).
* The currency words "us$" and "u.s." are recognised only in front of a word character, so in front of a blank they
  stay in the text (`CurrencyRecognisedExactly`). A number behind "us$" is read all the same, except that a negative one
  loses its sign where a rule rewrites its separators (`DollarUsRead`, `DollarLosesSign`); one behind "u.s." is read only
  if it has a decimal comma (`DottedUsRead`).
* A caller refused at login who waits exactly the returned number of seconds is refused again unless less than a second
  was left (`ThrottleWaitExactly`); at the two-window limiters, unless at most a second or whole seconds were left, and
  one more stamp on the edge of a window makes the wait too short (`LimiterWaitExactly`).
* An annotation label of several words can be cut in two, leaving its tail in the goods description
  (`LabelLeftInDescription`); `LabelCoveredExactly` and, for a bare label, `BareLabelCoveredExactly` say when a label is
  covered.
* `description_attribution` reports an unresolved cell as "left exactly as printed" although a run proven the row's own
  has replaced it, a leading run was removed, an entry of a resolver that failed later was applied, or another row's
  text was put in its place (`ReportedRowLoses`, `ReportedRowReplaced`). `ReportedFinal` says exactly when the row keeps
  what it printed.
* A run given away by a row with no run of its own stays in that row too, and the duplicate rolls the whole document
  back (`GivenAwayTwice`); `RollsBackExactly`, `GiverRollsBack` and `OwnersNeverRollBack` say when. Rolling back clears a
  printed original that a row already carried, and turns a missing description into an empty one
  (`RollbackClearsPrinted`).
* A date whose year has fewer than four digits prints to a text that no longer parses (`NumericParses`,
  `WordedRoundTrip`), so one printed form cannot be made from the other (`FormsAgreeExactly`).

## Model

| member | source | states |
|---|---|---|
| ExtractionQueue.NoOrphanedClaim | backend/app/services.py:835-876 | in every run whose outcomes are stored, whose producers get to their send or release and whose messages do not outlive their retention, an EXTRACTING document has a producer between claim and send or a live message naming it |
| ExtractionQueue.NoOrphanExactly | backend/app/services.py:835-893 | that holds in all runs exactly if none of those four faults is possible; no other modelled fault can orphan a claim |
| ExtractionQueue.UnsavedRunOrphans | backend/worker.py:220-239 | with a lock timeout, a failing database or an error outside the `try`, a run ends with a claimed document and no message |
| ExtractionQueue.UnreadClaimOrphans | backend/worker.py:195-240 | so does a database that fails the worker before it has claimed |
| ExtractionQueue.DiscardedMessageOrphans | backend/scripts/provision_sqs.py:70-82 | a message dropped at the end of its retention orphans its claim |
| ExtractionQueue.DeadProducerOrphans | backend/app/queueing.py:90-111 | a producer dying between commit and send orphans its claim |
| ExtractionExclusion.OneAttemptPerClaim | backend/worker.py:207-217 | every message is of the standing claim or an earlier one; at most one message of a document may still start or continue an attempt, and it carries the standing claim |
| ExtractionExclusion.AtMostOneRunAlways | backend/worker.py:84-84 | at most one worker runs a document, also when a FAILED document is re-claimed before its old message is deleted |
| ExtractionExclusion.AtMostOneRunExactly | backend/worker.py:195-240 | that holds in all runs exactly in the deployments `SingleAttempt` describes |
| ExtractionExclusion.RedeliveredOnlyIfFree | backend/worker.py:118-156 | a message is delivered again only when no worker has it: the one before has died |
| ExtractionExclusion.WritesFound | backend/app/services.py:582-592 | in such deployments the end of a run and the release after a failed send find EXTRACTING, and a re-attach a document nobody has claimed since |
| ExtractionExclusion.PhantomSendDuplicates | backend/app/queueing.py:103-111 | a send that fails after enqueueing leads to two runs |
| ExtractionExclusion.LostBeatDuplicates | backend/worker.py:142-152 | a lost heartbeat leads to two runs |
| ExtractionExclusion.UndeletedMessageDuplicates | backend/worker.py:238-239 | an undeleted message of a failed run leads to two runs after a retry |
| ExtractionExclusion.ReattachRaceDuplicates | backend/app/services.py:582-598 | a re-attach that read FAILED before a claim leads to two runs |
| ExtractionService.Service.GuardedClaim | backend/app/services.py:654-659 | the guarded UPDATE changes the document exactly if its status is among the given ones |
| ExtractionService.Service.ClaimForQueuedExtraction | backend/app/services.py:849-876 | claims UPLOADED or FAILED documents and returns the status to restore, or changes nothing |
| ExtractionService.Service.ReleaseQueuedClaim | backend/app/services.py:879-893 | puts the prior status back |
| ExtractionService.Service.EnqueueExtraction | backend/app/queueing.py:81-115 | every outcome is a path of protocol steps; a refused send leaves the document as retriable as before |
| ExtractionService.Service.RunExtraction | backend/app/services.py:654-790 | runs exactly if the claim succeeds, and then commits one outcome or, when nothing is saved, none |
| ExtractionService.Service.ProcessMessage | backend/worker.py:169-240 | one delivery of a message this build understands is a path of protocol steps, runs exactly if the claim succeeds, and deletes the message whatever happens; a malformed one is deleted and changes no document, one of another version is left alone |
| ExtractionService.Service.RecoverInterruptedExtractions | backend/app/services.py:803-832 | the startup sweep returns exactly the EXTRACTING documents to UPLOADED |
| ExtractionService.DeliveryGoes | backend/worker.py:169-240 | the state after one delivery is reached by receive, look, claim, outcome and delete |
| SynchronousExtraction.OneRunPerDocumentExactly | backend/app/services.py:654-677 | without a queue the guarded UPDATE alone keeps runs of one document apart, exactly if there is one server process and no claim slips into a re-attach |
| SynchronousExtraction.ExclusiveAlways | backend/app/services.py:803-832 | in such a deployment every live run finds its claim standing and every re-attach a document nobody has claimed since |
| SynchronousExtraction.ReattachStartsSecondRun | backend/app/services.py:582-598 | a concrete history with two runs of one document |
| SynchronousExtraction.RestartStartsSecondRun | backend/app/main.py:463-475 | with two processes, the sweep at the start of one resets a live claim of the other |
| Heartbeat.Heartbeat.Run | backend/worker.py:136-152 | beats take effect until the first failure or the stop, and a failure sets `lost` |
| Heartbeat.CoverageExactly | backend/worker.py:118-156 | a message is invisible at every instant of a run exactly if no gap between extensions exceeds the extension |
| Heartbeat.CoveredWhile | backend/worker.py:118-156 | up to an instant at which the worker is still at work, likewise, and the last extension must not have run out |
| Heartbeat.MarginCovers | backend/app/config.py:237-247 | extensions less than `every + 60` apart with `extend >= every + 60` leave no instant uncovered |
| Heartbeat.VisibleOnlyAfterLostBeat | backend/worker.py:136-152 | with that margin the message of a live worker is visible only after a beat that raised or came too late |
| WorkerDispatch.Dispatcher.Step | backend/worker.py:277-299 | the loop never has more than `worker_concurrency` deliveries in flight and hands every received message to one task |
| JobLockTable.LockTable.Arrive | backend/app/services.py:121-123 | entry takes the lock the table names, or a new one, and counts the thread; nothing else changes |
| JobLockTable.LockTable.Depart | backend/app/services.py:127-134 | exit uncounts the thread and drops the entry with the last one |
| JobLockTable.LockTableSafe | backend/app/services.py:111-134 | in every run threads of a job hold the table's own lock object, the count is the number of threads, at most one is inside, and the tables are empty when all have left |
| JobLockTable.WaitsOnlyForItsJob | backend/app/services.py:111-134 | a queued thread can only be held up by a thread of its own job |
| JobLockTable.ArrivalServed | backend/app/services.py:121-134 | whatever has happened, an arriving thread is inside at most two steps after its arrival, and may give up before |
| JobLockTable.Drains | backend/app/services.py:121-134 | no deadlock: from any state all threads can leave, and both dictionaries are empty then |
| JobLockTable.ConsistentStep | backend/app/services.py:121-134 | every single step of any thread keeps all four parts of that invariant |
| JobRuns.AlwaysConsistent | backend/app/services.py:945-1199 | in every run of a job and its queue in which no document can be extracted twice at once, review, declaration and every stored XML come from exactly the current inputs, XML_READY means a declaration without blockers whose XML is the newest, and no reviewer entry outlives its evidence |
| JobRuns.AgreeExactly | backend/app/services.py:1289-1321 | artefacts agree with the evidence in all runs for all rules exactly in those deployments |
| JobRuns.StaleWriteDisagrees | backend/app/services.py:582-592 | read FAILED, claim, extract, reject, finalize, late write: the rejected document is back behind the stored XML |
| JobRuns.SecondRunDisagrees | backend/app/services.py:747-754 | of two runs of one document the second fails after the first one's extraction was rejected, with the same result |
| JobRuns.CoupledStep | backend/app/services.py:654-659 | every protocol step does to the job's documents what it does to the protocol's |
| JobLifecycle.Step | backend/app/services.py:773-1418 | every single step, structural change, review, item mutation, regime selection, finalize outcome or brand/model/size edit, keeps artefacts and reviewer entries in agreement with the evidence, if its status writes find documents that have not moved on |
| JobRuns.GateOutrun | backend/app/services.py:1048-1054 | a run reaches XML_READY with an unconfirmed document among the XML's evidence |
| JobRuns.LockNeedsGate | backend/app/services.py:1027-1054 | in any run a review, or a finalize, may take its lock exactly after its caller has passed the gate, once for each time |
| JobRuns.RequestFollows | backend/app/services.py:1027-1418 | a gate, review, finalize, mutation, selection or edit may follow any run in which the job allows it |
| JobRuns.DeclaresConfirmedExactly | backend/app/services.py:907-942 | in any run, a review and an XML are built from confirmed documents only, exactly if whatever was left unconfirmed between their caller's gate and lock, by a role mismatch or a status write on a document with an extraction, was extracted in its role, decided on or removed before the lock |
| JobRuns.OnlyMismatchUnsettles | backend/app/services.py:755-759 | where no document can be extracted twice at once, only a role mismatch leaves a document unconfirmed |
| JobLifecycle.UnconfirmedSince | backend/app/services.py:907-942 | the same bookkeeping for one document over any stretch of events |
| JobRuns.BlockedKeepsOlderXml | backend/app/services.py:1168-1198 | a VALIDATION_BLOCKED job may hold the XML of an earlier finalize |
| JobLifecycle.SelectionsSurvive | backend/app/services.py:1298-1321 | an invoice change folds every explicit HS selection, the last for an item name, into the history; other changes keep the selections |
| JobLifecycle.JobService.RequireExtracted | backend/app/services.py:907-942 | accepts exactly if every document is EXTRACTED or ROLE_REJECTED, and names the first reason otherwise |
| JobLifecycle.JobService.InvalidateDerived | backend/app/services.py:1289-1295 | deletes review, declaration, XML and workbooks and nothing else |
| JobLifecycle.JobService.ResetExtractionDerivedState | backend/app/services.py:1298-1321 | for an invoice all entries of items, pins and selections go, for shipment evidence its totals and pins; explicit selections, the last for a name, join the history |
| JobLifecycle.JobService.FinishRun | backend/app/services.py:755-789 | the locked end of an extraction is the `FinishExtraction` step |
| JobLifecycle.JobService.ResolveDocumentRole | backend/app/services.py:945-983 | a role decision is the `ResolveRole` step, or an error that changes nothing |
| JobLifecycle.JobService.RemoveDocument | backend/app/services.py:986-1024 | a removal is the `Remove` step, or refused while extracting |
| JobLifecycle.JobService.CriticalReview | backend/app/services.py:1027-1040 | gate and review are the two steps in that order |
| JobLifecycle.JobService.MutateItems | backend/app/services.py:1395-1418 | accepted exactly in a reviewable status with every document answered for; enters the value in its own channel, against the evidence it was made on, discards the derived artefacts and reviews again; an error changes nothing |
| JobLifecycle.JobService.ReviewRegimeSelections | backend/app/services.py:1616-1653 | a selection is the `SelectRegime` step; an unchanged one changes nothing |
| JobLifecycle.JobService.EditItemBms | backend/app/services.py:1353-1382 | the edit changes the export columns of the overlay, of the declaration and of one rebuilt workbook, and nothing else that is derived |
| JobLifecycle.JobService.FinalizeJob | backend/app/services.py:1048-1198 | gate and finalize in that order, for any engine: an error changes nothing; a declaration stores the current inputs, the rate and one XML and one workbook more exactly if it is ready or built in warn mode, and is XML_READY exactly if ready; a stale review is redone |
| JobLifecycle.JobService.Conclude | backend/app/services.py:1117-1198 | declaration, rate and status are set, and XMLs and workbooks grow by exactly one if the declaration is ready or built in warn mode and are unchanged otherwise |
| ReviewOverlay.FoldKeeps | backend/app/review/item_mutations.py:813-828 | an explicit selection with a name and a code reaches the history unless a later one has the same name |
| ReviewOverlay.FoldInvents | backend/app/review/item_mutations.py:816-824 | nothing else reaches the history |
| Messages.Dedupe | backend/app/declaration/validator.py:228-236 | keeps exactly the first message of every key, in order |
| Messages.DedupeKeeps | backend/app/declaration/validator.py:228-236 | no key twice, no message invented, no key and no code lost |
| Messages.DedupeSpelled | backend/app/declaration/validator.py:228-236 | two messages are the same exactly if code, item and text are: no two such stay, and one of each does |
| Validator.ValidateItem | backend/app/declaration/validator.py:190-203 | each item code is added exactly if the item fails it |
| Validator.BubbleUp | backend/app/declaration/validator.py:207-208 | blocking item messages become errors, the others warnings in order |
| Validator.ValidateItems | backend/app/declaration/validator.py:186-208 | codes for exactly the failing items, all quiet messages, and exact sums of weights and packages |
| Validator.Escalate | backend/app/declaration/validator.py:62-65 | mixed currencies and duplicate invoices become errors and leave the warnings; every other warning stays, in order |
| Verdict.CollectErrors | backend/app/declaration/validator.py:53-219 | the collected codes are exactly those whose gate fails: regime, parties, banking, items and totals |
| Verdict.FailsForCause | backend/app/declaration/validator.py:53-219 | code by code, what calls for it: each gate over the fields, items and reference tables themselves, with blocking messages of the engines and the two warnings that block |
| Verdict.ValidateTotals | backend/app/declaration/validator.py:210-219 | totals block exactly if an authorised total above zero is missed by more than 0.05 |
| Verdict.NothingFailsSound | backend/app/declaration/validator.py:186-219 | if no gate fails there are items, each with an 11-digit HS code, an origin, a positive supplementary quantity and net below a positive gross, and the totals reconcile |
| Verdict.Declaration.Validate | backend/app/declaration/validator.py:221-225 | blocking codes are exactly the failing gates, no message repeats, ready exactly if none blocks; what remains a warning is exactly what was one, but for the two codes that block, the header's notes and the quiet messages of the items |
| Verdict.Declaration.BlockReviewed | backend/app/pipeline.py:543-590 | the weight-unit, gross, packages, reference and field-40 gates, exactly |
| Verdict.Declaration.BlockGuesses | backend/app/pipeline.py:601-612 | a guessed HS code nobody confirmed blocks |
| Verdict.Declaration.BlockIncomplete | backend/app/pipeline.py:614-627 | an incomplete manual row blocks |
| Verdict.Declaration.Conclude | backend/app/pipeline.py:503-628 | ready exactly if nothing blocks; every code blocks exactly if something calls for it (`FailsForCause`); ready means sound, and that the items add up to the reviewed gross and packages unless those round to 0 |
| Verdict.SoundReconciles | backend/app/declaration/builder.py:164-188 | the formatted header totals are within a rounding of the reviewed ones, so reconciling with the one reconciles with the other |
| Verdict.HeaderShows | backend/app/declaration/builder.py:164-188 | the header shows the gross to four places, a whole count of packages as it is and any other to two |
| Verdict.Declaration.Decide | backend/app/services.py:1117-1120 | an XML is built exactly if ready, or in warn mode with items and none of the nine hard blockers; never with a hard blocker; `xml_built_with_blockers` exactly if built with a non-empty list |
| Decimals.HalfUpNearest | backend/app/numbers.py:172-177 | half-up rounding takes a nearest multiple of the unit, ties away from zero |
| Decimals.QuantizeClose | backend/app/numbers.py:172-192 | rounding moves a value by at most half a unit of the last place, and not at all if nothing is dropped |
| Decimals.QuantizeDownBelow | backend/app/numbers.py:180-188 | rounding down never enlarges a magnitude |
| DecimalRoundTrip.ThousandsRoundTrip | backend/app/numbers.py:199-201 | `parse_decimal(fmt_thousands2(v))` is `q2(v)`, sign and exponent included, under every hint |
| DecimalRoundTrip.GroupOf | backend/app/numbers.py:199-201 | printed thousands are well grouped and carry the digits |
| DecimalRoundTrip.PointForm | backend/app/numbers.py:69-110 | what any numeral with a decimal point parses to, for every hint, the European misreading included |
| DecimalRoundTrip.EuropeanWhole | backend/app/numbers.py:72-73 | under EU a point-grouped numeral is a whole number |
| DecimalRoundTrip.EuropeanDecimal | backend/app/numbers.py:74-82 | under EU a point-grouped numeral with a comma and one to six decimals has that value |
| DecimalRoundTrip.TrimRoundTripExactly | backend/app/numbers.py:204-209 | `parse_decimal(trim(v))` gives sign and value of v back, under EU exactly if `trim` leaves no three decimals behind at most three digits |
| DecimalRoundTrip.TrimMin1RoundTripExactly | backend/app/numbers.py:212-215 | likewise for `trim_min1` |
| DecimalRoundTrip.TrimMisread | backend/app/numbers.py:72-73 | 1.064 printed by `trim` is not read back on a European page |
| DecimalRoundTrip.DecorationKeepsNumerals | backend/app/numbers.py:49-53 | no decoration rule touches a bare numeral |
| DecimalRoundTrip.SeparatorsKeepWritten | backend/app/numbers.py:83-99 | the separator rules leave a plain decimal as it is |
| DecimalSeparators.DecimalComma | backend/app/numbers.py:83-85 | "1.234,56" has a decimal comma under every hint |
| DecimalSeparators.PlainComma | backend/app/numbers.py:83-85 | so has "7023,17", a number without thousands separators |
| DecimalSeparators.PointThousands | backend/app/numbers.py:94-95 | "1.600.000" is a whole number under every hint |
| DecimalSeparators.MisreadDecimalMark | backend/app/numbers.py:89-99 | in "1.600.00" and "1,600,00" the last mark is the decimal one, under every hint |
| DecimalDecoration.BracketsNegate | backend/app/numbers.py:40-42 | "(1,200)" is the negative of "1,200" |
| DecimalDecoration.RupeesOnlyDropped | backend/app/numbers.py:51-51 | "1,234/-" and "1,234/=" are "1,234" |
| DecimalDecoration.DrCrDropped | backend/app/numbers.py:52-52 | "1,234 Dr" and "1,234 CR" are "1,234" |
| DecimalDecoration.CurrencyDropped | backend/app/numbers.py:49-49 | a currency word of letters, in any case, with a dot or blanks behind it, disappears |
| DecimalDecoration.CurrencyRecognisedExactly | backend/app/numbers.py:49-49 | in front of a blank a currency word is dropped exactly if it is not "us$" or "u.s." |
| DecimalCurrency.DollarUsRead | backend/app/numbers.py:49-110 | under every hint, a numeral behind "us$" is read as it stands, except that a negative one loses its sign exactly if a separator rule rewrites it |
| DecimalCurrency.DollarLosesSign | backend/app/numbers.py:70-73 | "us$ -1.600" on a European page is read as 1600, for every point-grouped number |
| DecimalCurrency.DottedUsRead | backend/app/numbers.py:49-110 | under every hint, a numeral behind "u.s." is read exactly if it has the form with one decimal comma, and then as without a hint |
| DecimalMarks.HashesDropped | backend/app/numbers.py:21-22 | "#7023,17#" is 7023.17 under every hint |
| DecimalMarks.SymbolDropped | backend/app/numbers.py:50-50 | a currency symbol on either side is dropped |
| DecimalMarks.WordsDropped | backend/app/numbers.py:49-49 | the eight lettered currency words |
| DecimalBlanks.BlanksExactly | backend/app/numbers.py:56-67 | any two or more numerals with white space between them are one number exactly if the first is one to three digits and every other three, the last perhaps with a point or comma and one or two more; then, under every hint, it is the number those digits spell, and otherwise the token is refused |
| DecimalBlanks.JammedExactly | backend/app/numbers.py:56-67 | so for two numerals, spelled out |
| DecimalBlanks.JammedRefused | backend/app/numbers.py:59-61 | "35,00 700,00" is no number |
| DecimalBlanks.SpacedThousandsRead | backend/app/numbers.py:59-60 | "1 234,56" is 1234.56 |
| DecimalBlanks.CurrencyInFront | backend/app/numbers.py:20-22 | "USD 1 234,56": a currency word in front of such a token changes nothing |
| Valuation.AllocateCost | backend/app/rules/freight.py:188-204 | the shares add up to a total in cents, to within half a cent of any other, and only the first largest share carries the residual, whatever the division rounds to |
| Valuation.ShareClose | backend/app/rules/freight.py:188-198 | a share is within half a cent and the error of the division of the total times the item's part in all shares |
| Valuation.ResidualRestores | backend/app/rules/freight.py:199-202 | adding the rounded residual to one share restores the total |
| Valuation.CifExact | backend/app/declaration/builder.py:69-86 | an item's and the header's CIF are exactly the sums of their three rounded parts |
| Valuation.CifBound | backend/app/declaration/builder.py:69-86 | item CIF values add up to the header's within 0.015 for each of the N items and once more |
| Valuation.AlphasAddUp | backend/app/declaration/builder.py:87-87 | the alpha coefficients add up to 1 within that bound divided by the CIF |
| Valuation.BuildItems | backend/app/declaration/builder.py:69-88 | each item's goods and freight are within half a cent of the line's own amount times the rate, its insurance of the line's insurance; cost and CIF are their sums; the text's first part parses to that freight and its third to that insurance |
| Valuation.Valuate | backend/app/pipeline.py:519-532 | the valuation steps together: every line gets its share of each cost, items and header are valued as in `BuildItems` from their own amounts, shared costs add up to their totals, and the item CIFs to the header's within the bound |
| Valuation.ValueItemAddsUp | backend/app/declaration/builder.py:83-88 | the parts of `Value_item`, parsed and added up, are the item's total cost, for costs without a sign |
| Dates.NumericParses | backend/app/dates.py:100-103 | a printed DD/MM/YYYY date reads back exactly if its year has four digits, and is no date otherwise |
| Dates.WordedRoundTrip | backend/app/dates.py:94-97 | likewise for DD-MMM-YYYY |
| Dates.FormattingSettles | backend/app/dates.py:94-103 | formatting a formatted text changes nothing, for every text |
| Dates.FormsAgreeExactly | backend/app/dates.py:94-103 | one printed form can be made from the other exactly if the text is no date or its year has four digits |
| Dates.CompositeExactly | backend/app/dates.py:35-44 | a tag of six or eight digits, any blanks, commas, colons and dashes behind it, and an interpretation: the tag date stands exactly if the interpretation is no date or the same one |
| Dates.Calendar | backend/app/dates.py:87-91 | which days exist: months of 31, 30 and 28 days and the Gregorian leap years |
| Dates.PrintedForms | backend/app/dates.py:94-97 | the printed form spells the month with the three letters of its English name |
| Dates.CompactParses | backend/app/dates.py:52-53 | YYYYMMDD reads back for every date with a four-digit year |
| Dates.IsoParses | backend/app/dates.py:56-58 | so does YYYY-MM-DD, with dashes, slashes or points |
| Dates.DayFirstParses | backend/app/dates.py:61-63 | so does DD-MM-YYYY, day first |
| Dates.MonthFirstParses | backend/app/dates.py:71-74 | so does "FEB 24, 2026" |
| Dates.YearFirstParses | backend/app/dates.py:76-79 | so does "2026 FEB 24" |
| Dates.NumericExactly | backend/app/dates.py:55-63 | of the texts of digits, a mark, digits, the mark and digits, exactly those are dates whose year has four digits in front or behind, whose month and day have one or two, and whose day exists |
| Dates.InsideExactly | backend/app/dates.py:66-70 | digits, a word, digits: a date exactly if the word has three to nine letters and names a month, the year four digits and the day one or two, in either order |
| Dates.FirstExactly | backend/app/dates.py:71-74 | a word, digits, digits, likewise |
| Dates.WordDateExactly | backend/app/dates.py:83-91 | the first three letters name the month |
| Segmentation.UnglueOnlyAddsSpaces | backend/app/extraction/description_segments.py:96-112 | `unglue` keeps every visible character in order, for any matchers |
| Segmentation.UnglueExactly | backend/app/extraction/description_segments.py:86-113 | a space goes before a welded label, behind a welded colon and, in a text annotated by then, before welded digits, and nowhere else |
| Segmentation.CleanStarts | backend/app/extraction/description_segments.py:209-209 | collapsing blanks keeps words apart and whole |
| Segmentation.CooClauseLen | backend/app/extraction/description_segments.py:123-149 | a clause is found exactly if an origin label is followed by the name of a country of one to three words, or without a country list by a single word; it ends with the last word of the longest such name |
| Segmentation.ReadAt | backend/app/extraction/description_segments.py:174-195 | what a run makes of the text at its position: a clause is a value up to the end of its country, and of any other text the token before the next blank is a value, filler or the end of the run |
| Segmentation.RunEnd | backend/app/extraction/description_segments.py:152-196 | a run ends where its last value ends |
| Segmentation.SegmentDescription | backend/app/extraction/description_segments.py:199-240 | segments are ordered, disjoint, exact stripped slices that leave out only white space; an annotation opens exactly where no other covers the index, a label, an origin with its country or a code with its quantity stands there, and a value follows or the label closes it; it ends with the last value read from there, or with the label if there is none; no two names are adjacent; all visible characters of the cell are kept; the segments are a function of the text, which has single blanks only |
| Segmentation.RunExactly | backend/app/extraction/description_segments.py:216-227 | one run: it opens and ends as those three anchors and the values read from there say |
| Segmentation.ClauseNamesCountry | backend/app/extraction/description_segments.py:131-149 | a clause has a length exactly if a country is named |
| Segmentation.RunEndIsLastValue | backend/app/extraction/description_segments.py:163-171 | of the values among the tokens that a run looks at before its first stop, none ends behind the run, and one ends with it; without any the run ends where it began to look |
| Segmentation.LabelCoveredExactly | backend/app/extraction/description_segments.py:168-171 | a label that opens a run is covered by it exactly if the run reads no value at all, or one that ends at or behind the label's end before its first stop |
| Segmentation.BareLabelCoveredExactly | backend/app/extraction/description_segments.py:165-196 | a bare label is covered exactly if none of its tokens before the first unreadable one is a value, or all are readable and the last is a value |
| Segmentation.LabelLeftInDescription | backend/app/extraction/description_segments.py:163-171 | matchers exist for which "LOT / EXP:" leaves part of itself in the description |
| Attribution.CutCells | backend/app/extraction/description_attribution.py:74-80 | every cell is cut as the segmenter does |
| Attribution.Pass.HarvestName | backend/app/extraction/description_attribution.py:218-244 | takes exactly the one unused value-less name on the row's page or a neighbouring one of which a part code identifies the row's model, once, and none if there are none or several |
| Attribution.Pass.UniqueCandidate | backend/app/extraction/description_attribution.py:325-331 | exactly the one other row on the same or a neighbouring page, in either direction, whose model a part code of the run identifies; none if there are none or several |
| Attribution.Pass.PlaceStray | backend/app/extraction/description_attribution.py:323-345 | a run is given to that row exactly if the row has no name and the order of the page is kept, and to nobody otherwise |
| Attribution.Pass.PlanLead | backend/app/extraction/description_attribution.py:286-295 | a leading continuation is cut off, exactly if the cell has a name run |
| Attribution.Pass.PlanStrays | backend/app/extraction/description_attribution.py:316-350 | runs that name another row leave for it, the run proven the row's own replaces the description, and the row is reported exactly if a stray found no row |
| Attribution.Pass.PlanRow | backend/app/extraction/description_attribution.py:284-350 | a row changes plans, donations, used names and reports as the row rule says, in source order |
| Attribution.Pass.PlanRows | backend/app/extraction/description_attribution.py:284-350 | the plans after the pass are a function of the table |
| Attribution.Pass.MovesOf | backend/app/extraction/description_attribution.py:455-475 | accepts exactly if every move goes to a nameless row in page order, and lists those moves |
| Attribution.Pass.ApplyEntry | backend/app/extraction/description_attribution.py:442-486 | a resolver's entry is applied whole or discarded whole, exactly by its six checks |
| Attribution.Pass.Escalate | backend/app/extraction/description_attribution.py:352-363 | only rows asked about change; what was applied before an exception stays, and they stay reported |
| Attribution.Pass.WriteRows | backend/app/extraction/description_attribution.py:377-387 | donations win over plans, and a row that receives text keeps its printed original |
| Attribution.Pass.Apply | backend/app/extraction/description_attribution.py:376-400 | rows are rolled back exactly if the normalised result is not a sub-multiset of what was printed |
| Attribution.AttributeRows | backend/app/extraction/description_attribution.py:247-400 | for any resolver answer the outcome, the final texts and the reports are functions of the table and the answer; the result is a character sub-multiset of what was printed, every changed description is a stripped slice of a cell or a value-less name, a named row only ever gets a slice of its own cell, and a rollback restores the table exactly if every row had a description and none carried a printed original |
| Attribution.FinalSound | backend/app/extraction/description_attribution.py:376-387 | that holds for every row of any justified plan |
| Attribution.OriginalsPrinted | backend/app/extraction/description_attribution.py:403-413 | the originals themselves always pass the reconstruction check |
| Attribution.ReportedKeeps | backend/app/extraction/description_attribution.py:348-369 | a plan for a cell with several names keeps every visible character exactly if no run of it is proven its own and it does not open with another row's |
| Attribution.ReportedFinal | backend/app/extraction/description_attribution.py:302-369 | a reported row keeps every visible character of its cell exactly if the last text given to it has them all, or it was given none, no run of it is proven its own, it does not open with another row's, and no entry was applied to it before the resolver failed |
| Attribution.FinalGift | backend/app/extraction/description_attribution.py:323-350 | the donation a row ends with is the last run or resolver's move given to it, seen from the table and the answer |
| AttributionSteps.RowStepDoes | backend/app/extraction/description_attribution.py:284-350 | one row, from the cells, pages and codes alone: what is cut off its front, which value-less line it takes, which runs leave for which row, which run it keeps, and when it is reported |
| AttributionSteps.EntryStepDoes | backend/app/extraction/description_attribution.py:442-486 | one entry of the answer likewise: applied exactly if every run is assigned once, one to the row itself without contradiction and the others to nameless rows in order; then every named row gets the last run moved to it |
| AttributionSteps.FitsExactly | backend/app/extraction/description_attribution.py:442-475 | the six checks of an entry, spelled out |
| AttributionSteps.RowsDone | backend/app/extraction/description_attribution.py:284-350 | the pass does that for the rows one after the other |
| AttributionSteps.EscalatedDoes | backend/app/extraction/description_attribution.py:352-363 | and for the entries; the rows asked about stay reported exactly if the resolver failed |
| AttributionSteps.WritesExactly | backend/app/extraction/description_attribution.py:377-387 | a text given wins over a plan, a plan over what stands there; a row given a text keeps what was printed in it |
| AttributionSteps.EndsExactly | backend/app/extraction/description_attribution.py:371-400 | the pass is cut short exactly by a deadline while somebody has to be asked; else it is untouched if nothing was decided, rolled back if some letter or digit is shown more often than it was printed in cells and value-less lines, and applied otherwise |
| AttributionSteps.NormalCounts | backend/app/extraction/description_attribution.py:403-413 | what is compared of a text is how often it shows every letter, in either case, and every digit |
| AttributionTables.ReportedRowLoses | backend/app/extraction/description_attribution.py:348-369 | a table whose only row is reported as left as printed and loses a name |
| AttributionTables.ReportedRowReplaced | backend/app/extraction/description_attribution.py:302-369 | a table in which a row of codes is reported as left as printed, with no resolver, and ends with another row's text |
| AttributionTables.GivenAwayTwice | backend/app/extraction/description_attribution.py:342-346 | a table that ends rolled back: a name is given away by a row without a run of its own |
| AttributionTables.MovesAcrossPages | backend/app/extraction/description_attribution.py:325-345 | tables whose nameless row, on the page of the giving row or the one before or behind it, ends with the name |
| AttributionTables.NamedCut | backend/app/extraction/description_segments.py:199-240 | the cells of these tables are what the segmenter makes of their texts |
| AttributionTables.RollbackClearsPrinted | backend/app/extraction/description_attribution.py:391-395 | run on that table, the pass clears a printed original that the first row carried |
| AttributionRollback.RollsBackExactly | backend/app/extraction/description_attribution.py:389-395 | a pass is rolled back exactly if some character occurs more often in the texts that changed rows receive than in the cells they give up and the value-less lines |
| AttributionRollback.OwnersNeverRollBack | backend/app/extraction/description_attribution.py:284-395 | if every row that gives a run away has a run of its own, and a resolver's answer deals with a row once and only with rows that gave nothing away, the pass is never rolled back |
| AttributionRollback.GiverRollsBack | backend/app/extraction/description_attribution.py:342-346 | if a row without a run of its own gives a run away that shows a letter or digit printed nowhere else, the pass over the rows is rolled back |
| AttributionRollback.UnfreedRollsBack | backend/app/extraction/description_attribution.py:389-395 | for any plans: if some row ends with more of a character than it printed, and nothing frees one, the pass is rolled back |
| AttributionRollback.ApartFits | backend/app/extraction/description_attribution.py:403-413 | rows that draw on texts apart from one another keep no more than was printed |
| Limiters.AcceptedBounded | backend/app/auth.py:504-523 | in every serialised run each half-open hour and day holds at most the allowed number of a client's accepted requests, for any limits |
| Limiters.DeployedBounds | backend/app/auth.py:633-650 | that is 3 and 10 for signups, 5 and 20 for password resets |
| Limiters.LetInExactly | backend/app/auth.py:504-523 | a request is let in exactly if, in the last hour and in the last day, the client has fewer than the allowed number of accepted requests or the oldest of them stands on the edge |
| Limiters.DeployedExactly | backend/app/auth.py:633-650 | for the deployed limits, in numbers |
| Limiters.NoWaitMeansRoom | backend/app/auth.py:515-523 | a caller who need not wait has room in the half-open window, even if its oldest stamp sits on the edge |
| Limiters.PrunedDecidesAlike | backend/app/auth.py:542-547 | a store pruned at the longest window decides every later request of every client like the full log |
| Limiters.PrunedThrottlesAlike | backend/app/auth.py:392-397 | likewise for the login throttle: the two cut-offs are complements |
| Limiters.ThrottleWaitExactly | backend/app/auth.py:369-375 | for the failures a throttle keeps: a refused caller faces exactly ten, the wait is the floor of the time left, at least a second, and waiting exactly that long succeeds exactly if less than a second was left |
| Limiters.ThrottleExactly | backend/app/auth.py:350-375 | ten failures within the last 300 seconds, and no fewer, lock a client out, for the whole seconds left of the oldest, at least one |
| Limiters.LimiterWaitExactly | backend/app/auth.py:489-523 | for the requests a limiter accepted: the wait is the floor of the longer window's time as the code sees it, at least a second, and waiting exactly that long succeeds exactly if the true time left is not longer; the two agree unless one more stamp stands on an edge, and where they agree it succeeds exactly if at most a second or whole seconds were left |
| Limiters.Limiter.RetryAfterNow | backend/app/auth.py:489-523 | answers from the pruned store what the whole history answers |
| Limiters.Limiter.Record | backend/app/auth.py:526-551 | keeps the bounds, and the store the pruned log |
| Limiters.Request | backend/app/auth.py:618-676 | a checked request is recorded exactly if it need not wait |
| Limiters.Throttle.RetryAfterNow | backend/app/auth.py:350-375 | answers from the pruned store what all failures since the last success answer |
| Limiters.Throttle.RecordFailure | backend/app/auth.py:378-399 | no closed 300 s window holds more than 10 failures of a client since its last success |
| Limiters.Throttle.ClearFailures | backend/app/auth.py:402-412 | forgets this client's failures and nobody else's |
| VendorProfile.Profile.ApplyCooObservation | backend/app/extraction/field_profiles.py:144-164 | default, source and counter after one observation, case by case |
| VendorProfile.Profile.CooDefault | backend/app/extraction/field_profiles.py:72-94 | proposes a confirmed code always, an observed one from two documents on, and nothing else |
| VendorProfile.Profile.Replay | backend/app/extraction/field_profiles.py:144-164 | the entry is a function of the history |
| VendorProfile.ReviewerForever | backend/app/extraction/field_profiles.py:147-156 | once a reviewer has confirmed, the source is REVIEWER for good and the default the code confirmed last |
| VendorProfile.ConfirmedCounts | backend/app/extraction/field_profiles.py:147-156 | a confirmed entry counts every observation of its code since the reviewer has stood by it |
| VendorProfile.ObservedProposal | backend/app/extraction/field_profiles.py:157-164 | an unreviewed proposal is what the last `coo_docs`, at least two, observations all say |
| VendorProfile.ThreeAgreeing | backend/app/extraction/field_profiles.py:157-164 | three agreeing jobs in a row are always proposed |
| VendorProfile.TwoAgreeingExactly | backend/app/extraction/field_profiles.py:157-164 | two are, exactly if no other code was held before them |
| VendorProfile.Observed | backend/app/extraction/field_profiles.py:111-116 | records a code exactly if four fifths of the items print an origin of their own and four fifths of those print this one |
| VendorProfile.RecordableUnique | backend/app/extraction/field_profiles.py:111-116 | such a code is the only one, a majority, and covers 64% of all items |
| VendorUpsert.NothingLost | backend/app/extraction/layout_memory.py:80-107 | for any interleaving the second attempt finds the row, nobody loses twice, and the row is what the completed recordings make it, each counted once |
| VendorUpsert.RivalsCount | backend/app/extraction/layout_memory.py:80-107 | two writers that find no row: one inserts, the other is refused and records on its second attempt, or fails and leaves nothing |
| VendorUpsert.LayoutCountsAll | backend/app/extraction/layout_memory.py:84-96 | `docs` is the number of completed recordings and `confirmed_rows` their maximum |
| VendorUpsert.ProfileFollowsHistory | backend/app/extraction/field_profiles.py:117-141 | a vendor's entry is the state machine's over the completed observations in commit order |
| VendorUpsert.RowIsSummary | backend/app/extraction/layout_memory.py:89-96 | a row counts all recordings, keeps their maximum, the last mapping and the first hint |
| VendorUpsert.OrderIndependent | backend/app/extraction/layout_memory.py:90-94 | counter and maximum do not depend on the order |
| VendorUpsert.LayoutStore.RecordLayout | backend/app/extraction/layout_memory.py:61-97 | a layout of fewer than three rows leaves the store alone; any other changes its own key only: last mapping, larger count of rows, first hint, one document more |

## Left out

- DecimalText.ParseDecimal: digits, letters, white space and word boundaries are those of ASCII (plus the Unicode blanks), and the 28-digit decimal context is not modelled.
- Valuation.AlphasAddUp: the coefficients before they are printed to 15 places, as exact quotients.
- Valuation.CifBound: line totals that add up to the goods total are a premise, because the invoice rules that ensure it are not part of this model.
- Valuation.ValueItemAddsUp: a national cost that is negative prints with a sign of its own, which the reading does not cover.
- Valuation.AllocateCost: the shares are given; choosing between gross weight and value as their basis is not modelled.
- Verdict.Declaration.Validate: the header's own warnings are an input; their wording and that of every message is shortened to what tells two messages apart.
- JobRuns.AlwaysConsistent: one job and its documents; the rules engine is an arbitrary function of the inputs, the stored rate and the request; an extraction's stored warnings, which the packing rules read, count as part of the extraction.
- JobLifecycle.JobService.MutateItems: the item mutations differ in the overlay channel they write; the model has one mutation for each channel that an evidence change resets, and their field validation is left out.
- ExtractionService.Service.ProcessMessage: what `parse_message` makes of a body is an input.
- ExtractionQueue.NoOrphanExactly: about documents claimed by a producer for the queue, not about a request that extracts supplied values itself.
- ExtractionExclusion.AtMostOneRunExactly: supplied extraction values (`allow_fixture_uploads`), which run inside the upload request even with a queue, are not modelled.
- JobRuns.AgreeExactly: stated for the queue; without one, `SynchronousExtraction.ExclusiveAlways` gives the same freshness of status writes.
- ExtractionQueue.NoOrphanedClaim: a removed document is allowed at any moment, more often than `remove_document` permits.
- Heartbeat.CoverageExactly: the instants at which extensions take effect are given; network delay is part of them.
- Segmentation.SegmentDescription: the regular expressions are arbitrary matchers within their length bounds, the country oracle is arbitrary.
- Attribution.AttributeRows: part codes, model matching and "is only a code" are arbitrary; the wording of notes and how value-less lines are found on a page are left out.
- Attribution.Pass.ApplyEntry: segment indices that are no integers are not modelled.
- AttributionRollback.OwnersNeverRollBack: sufficient, not necessary; `RollsBackExactly` is the exact condition over the final texts.
- AttributionTables.NamedCut: one label word and the letter-and-digit shapes of codes stand for the vocabulary.
- Attribution.Pass.HarvestName: the quantity echoes only change the wording of a note and are left out.
- Limiters.Request: requests are serialised; two that interleave between check and record are not modelled.
- VendorProfile.Observed: the share 0.8 is exactly four fifths.
- Dates.InsideExactly: one blank between the parts; letters are those of ASCII.
- `count_from_number_range`, `detect_numeric_locale` and `fmt2` are sums, votes and a single format over the same text; they would add only easy members.
- OCR, the language model, SQS, S3, SQL, HTTP routes, sessions, cookies, logging, PDF and image handling are outside; their effects are events or parameters.
- `rules` other than cost sharing, `review` other than the reset of the overlay, `xml`, `reference` and the table parser are not part of this model.
- Metering, banking rules, unit tables, settings checks, account listings and database migrations would add only easy members.
- Tokens, hashes and signatures are library work.
