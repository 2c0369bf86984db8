# Verified models of rivect's config, index and planning cores

Dafny models of five parts of the repository, with proofs. Each module follows
one part of the Rust program: code that changes state step by step is a class or
a method proved against a specification, and what the program promises is proved
about that specification.

- **Config publication** (`Publication`, `PublicationMachine`, `ConfigCommand`,
  `PublicationProgram`, `PublicationVerdicts`). A journal of intents, an in-place write checked against
  the staged file's identity, a receipt, and boot recovery. The machine
  interleaves the carrier's steps with crashes and with foreign programs that
  overwrite, replace, delete or tear files and may reuse `(dev, ino)` numbers.
- **Index owner** (`IndexOwner`, `IndexOwnerProofs`, `IndexOwnerRuns`,
  `IndexOwnerFlags`, `IndexRuntime`). The dispatch thread and the index thread, two channels of
  capacity one, the cancel flag, the reserved generation and the deferred
  request id, in every interleaving, with crashes.
- **Incremental index** (`ProjectIndex`, `ProjectIndexRuns`,
  `ProjectIndexRows`). One cut, the rows
  its seal carries over, and sequences of cuts against a full derivation.
- **Config documents** (`KeyAddress`, `KeyCuts`, `PointerAddress`,
  `ConfigSchema`, `ConfigRendering`, `ConfigEdit`, `ConfigEditProofs`,
  `ConfigEditValid`, `ConfigEditSlots`, `PurposeMoves`, `ConfigDocument`,
  `ConfigLayers`, `ConfigResolution`, `EditDistance`). Addresses, the schema
  against a reference writer, targeted edits against the whole-document check,
  what an edit resolves to, purpose renames, layers, and the root-key hint.
- **Plan order and pattern rewriting** (`PlanOrder`, `Expando`).

`dafny verify dfyconfig.toml` checks everything.

## What the proofs found

The statements below differ from a comment or from what a reader would expect of
the code. Each is a lemma with a concrete run or input, beside the exact
condition under which the expected property holds.

- Two index generations can read fresh together: a crash between a reservation
  and its seal leaves a row in between, and the seal supersedes only the row
  directly before it. An older fresh row survives while fewer than eight newer
  ones are stored (`TwoFreshAfterACrash`, `SealLeavesOneFresh`,
  `TwoFreshNeedAGap`). The comment on the seal says this never happens.
- A stale mark that lands on the reservation in flight is overwritten by that
  run's seal, while its answer can still arrive
  (`MarkIsOverwrittenExactlyInFlight`).
- When the index thread has returned, a start keeps the reservation it could not
  hand over (`DeadOwnerKeepsTheReservation`, `SendHoldsExactlyOverDeadOwner`,
  `HeldGenerationMeansDeadOwner`).
- An accepted `project.init` can stay without its response: the index thread
  returns on a closed wake channel with the run still queued
  (`UnansweredRequest`, `AnswerableExact`).
- The file-set test ignores names inside the narrowing, and a cut stopped by its
  limit records every document, so a narrowed cut can carry rows a full
  derivation would not give (`AppearedInsideNarrowing` and `NarrowedCutExact`,
  `LimitedCutIsCarried` and `IncrementalExact`).
- `DependencyCycle` names the first listed part that reaches a cycle, which need
  not lie on one (`NamedPartOffCycle`, `NamedPartExact`, `NamedPartOnCycle`).
- A group that says `inherit` is returned as `inherit`, although the comment says
  it resolves through to the outer layer (`GroupInheritIsReturned`,
  `NothingInherits`).
- Another carrier's pending row is answered as served without a look at the bytes
  (`ForeignPendingRowDisagrees`, `ServedNamesTheDisk`).
- An admission whose sight and staging are not one observation can journal one
  command twice (`SplitAdmissionCanClash`, `StagingKeepsSingleflight`).
- A refused edit without a retained document replaces the absent document by an
  empty default (`RetainedSet`).

## Model

| member | source | states |
|---|---|---|
| `PlanOrder.ValidateExact` | src/actions.rs:1857-1901 | A part list is refused before placement exactly when it is empty, too large, holds an illegal, oversized or repeated identifier, or names an unknown dependency |
| `PlanOrder.RefusalExact` | src/actions.rs:1857-1901 | Validation answers a refusal exactly when it is the first fault of the list in the order of the tests: which kind, which part, and for an unknown dependency which one |
| `PlanOrder.FaultUnique` | src/actions.rs:1857-1901 | A list has at most one first fault |
| `PlanOrder.OrderExact` | src/actions.rs:1902-1924 | Ordering succeeds exactly on valid acyclic lists, its only result is the list sorted by (round, caller position), and `DependencyCycle` is the answer exactly on valid cyclic lists |
| `PlanOrder.RoundUnique` | src/actions.rs:1904-1916 | The equations for the round of a part (maximum over its dependencies, one more for a dependency listed at or after it) have one solution |
| `PlanOrder.NamedPartExact` | src/actions.rs:1904-1920 | A cycle refusal names a part exactly when the list is valid and that part is the first in caller order with a dependency path onto a cycle |
| `PlanOrder.PlacedReachesNoCycle` | src/actions.rs:1904-1916 | A part that some pass placed has no dependency path onto a cycle |
| `PlanOrder.NamedPartOnCycle` | src/actions.rs:1917-1920 | The named part lies on a cycle exactly when some part on a cycle is listed before every other part that reaches one |
| `PlanOrder.NamedPartOffCycle` | src/actions.rs:1917-1920 | A two-part list whose refusal names a part that lies on no cycle |
| `PlanOrder.DependenciesFirst` | src/actions.rs:1902-1924 | Every part follows all of its dependencies |
| `PlanOrder.OrderIsPermutation` | src/actions.rs:1902-1924 | The result holds every identifier exactly once and nothing else |
| `PlanOrder.TopologicalUnchanged` | src/actions.rs:1902-1924 | A list already in dependency order comes back as it is |
| `PlanOrder.OrderIdempotent` | src/actions.rs:1902-1924 | Ordering the reordered parts again changes nothing |
| `PlanOrder.CheckParts` | src/actions.rs:1857-1901 | The validation loops with their `ids` set answer the first refusal of the specification |
| `PlanOrder.VisitParts` | src/actions.rs:1904-1916 | One pass over the list pushes exactly the parts that are ready in caller order |
| `PlanOrder.DependencyOrder` | src/actions.rs:1857-1924 | The nested loops over `placed` and `order` compute the specified ordering in at most as many passes as there are parts |
| `EditDistance.Achieved` | src/config.rs:2733-2748 | An edit script of the computed length exists |
| `EditDistance.NoneShorter` | src/config.rs:2733-2748 | No insert, delete or substitute script between the two keys is shorter |
| `EditDistance.DistanceExact` | src/config.rs:2733-2748 | The recurrence is the length of a shortest script, and nothing else is |
| `EditDistance.DistanceIsMetric` | src/config.rs:2733-2748 | Zero exactly on equal keys, symmetric, and subject to the triangle inequality |
| `EditDistance.Compute` | src/config.rs:2733-2748 | The two rows overwritten and swapped in place end with the shortest script length |
| `EditDistance.NearestOf` | src/config.rs:2721-2729 | The earliest of the closest roots is answered exactly when one lies within three edits |
| `EditDistance.NearestRoot` | src/config.rs:2721-2729 | The hint over the nine legal roots |
| `EditDistance.NearestDetermined` | src/config.rs:2721-2729 | The hint's specification admits one answer |
| `IndexOwnerProofs.RunsKeepInv` | src/commands.rs:394-557 | Every interleaving of dispatch and owner steps, crashes included, keeps the protocol invariant |
| `IndexOwnerProofs.DispatchKeeps` | src/commands.rs:4267-4304 | Every dispatch step keeps it: starts, hand-over, cancellation, pump, blocking receive, teardown |
| `IndexOwnerProofs.OwnerKeeps` | src/commands.rs:394-425 | Every owner step keeps it: take, finish, panic, send, wake, hang-up |
| `IndexOwnerProofs.OneRunInFlight` | src/commands.rs:394-485 | While the owner lives, queued, executing and answered runs number one if busy and none otherwise, a generation is held exactly then, a deferred id implies busy, and no bounded send can block |
| `IndexOwnerProofs.ResponsesFollowRequests` | src/commands.rs:4481-4624 | Accepted `project.init` requests are answered in order, under their own id, with the generation of their own run, at most once each and with at most the last one waiting; repairs get no response |
| `IndexOwnerRuns.PumpDelivers` | src/commands.rs:4481-4521 | The pump that takes a waiting answer answers every request accepted so far |
| `IndexOwnerRuns.AnswerableExact` | src/commands.rs:394-425 | In every reachable state a waiting request can still be answered by this process exactly when there is no teardown, and its answer is in the channel or an owner is left to produce it |
| `IndexOwnerRuns.UnansweredRequest` | src/commands.rs:418-423 | A run, for any request id, whose accepted request is never answered: the wake channel closes while its run is queued |
| `IndexOwnerProofs.RefusedStartChangesNothing` | src/commands.rs:4274-4303 | A start refused because a run is in flight changes no generation, task slot, flag or row |
| `IndexOwnerProofs.CancelIsolated` | src/commands.rs:4305-4314 | A run executes under a raised flag only after its own task was observed cancelled, or after teardown began |
| `IndexOwnerFlags.RunsKeepFlagged` | src/commands.rs:4305-4314 | Every run keeps, for the run in flight, the equivalence of the raised flag and an observation against its own task |
| `IndexOwnerFlags.FlagMeansObserved` | src/commands.rs:4305-4314 | In every reachable state with a run in flight and no teardown the flag is up exactly when that run's own task was observed cancelled or unreadable since it started |
| `IndexOwnerFlags.ReadRaisesTheFlag` | src/commands.rs:4553-4557 | Every dispatch turn that reads the task of the run in flight, and takes no answer, raises the flag exactly on a doomed read, records it against that run, and leaves a raised flag up |
| `IndexOwnerFlags.FlagHoldsUntilTheNextStart` | src/commands.rs:502-504 | Nothing but the next start or the end of the process lowers a raised flag |
| `IndexOwnerFlags.StartExact` | src/commands.rs:4267-4304 | A start is prepared exactly for a live task, with no run in flight and root and store at hand; then a new generation reads interrupted, and otherwise nothing of table, generation, task and flag changes |
| `IndexOwnerFlags.WhoWaits` | src/commands.rs:4481-4624 | A run handed over holds the dispatch thread exactly for an in-process caller and for a request routed synchronously; a repair never does |
| `IndexOwnerFlags.SealReports` | src/commands.rs:4395-4458 | The sealed run reads fresh exactly for the complete graph of a live task, and otherwise stale by partial coverage, by a refused worker, or as an isolated run, each exactly when that is what it missed; a failed seal changes no row |
| `IndexOwnerFlags.ReceiveIsThePump` | src/commands.rs:4601-4624 | A blocking receive that returns with an answer is the pump that takes it |
| `IndexOwnerFlags.SealLeavesTheRest` | src/state.rs:5777-5863 | Any other row survives a seal exactly within retention, and only the row that was current and fresh changes |
| `IndexOwnerFlags.WatchReports` | src/state.rs:5989-6006 | A watch mark makes the newest generation report that watch's own cause and leaves every other row |
| `IndexOwnerFlags.CrashReportsInterrupted` | src/state.rs:9340-9352 | After a crash the generation in flight reads interrupted and no other row reads differently |
| `IndexOwnerProofs.FreshIsEarned` | src/commands.rs:4395-4458 | No generation is reserved or sealed twice, and one reads fresh only by the stored seal of its own run's complete graph under a task read as not cancelled |
| `IndexOwnerRuns.AnswerArrives` | src/commands.rs:394-425 | The owner of an unanswered run is never stuck and answers, or ends, within four of its own steps |
| `IndexOwnerRuns.TeardownEnds` | src/commands.rs:541-557 | From every reachable state teardown drives the owner to its end within four owner steps, so the join returns, and tearing down twice equals once |
| `IndexOwnerRuns.SealLeavesOneFresh` | src/state.rs:5777-5863 | After a fresh seal of the newest generation no other row reads fresh exactly when every other fresh row within retention is the one the seal supersedes |
| `IndexOwnerRuns.TwoFreshNeedAGap` | src/state/sql/mod.rs:1142-1157 | Two rows read fresh together only across a reservation whose seal never reached the table |
| `IndexOwnerRuns.TwoFreshAfterACrash` | src/state.rs:5751-5862 | A run with a crash between reservation and seal after which two generations both read fresh |
| `IndexOwnerRuns.MarkIsOverwrittenExactlyInFlight` | src/state.rs:5989-6006 | In every reachable idle state a watch mark can be overwritten by a later fresh seal exactly when it hit the run in flight, that run's answer is not yet known to be anything but a complete graph, and the answer waits in the channel or has an owner to send it |
| `IndexOwnerRuns.HeldGenerationMeansDeadOwner` | src/commands.rs:4274-4303 | An idle runtime that is not busy holds a generation only after its owner thread returned |
| `IndexOwnerRuns.SendHoldsExactlyOverDeadOwner` | src/commands.rs:4299-4303 | A hand-over leaves its reservation held without a run exactly when the owner thread has returned |
| `IndexOwnerRuns.DeadOwnerKeepsTheReservation` | src/commands.rs:4274-4303 | A run in which that happens: the wake channel closes, and the next start keeps a reservation it could not hand over |
| `IndexRuntime.GenerationTable.LatestIndexGeneration` | src/state.rs:5938-5945 | The table scan finds the newest number |
| `IndexRuntime.GenerationTable.ReserveIndexGeneration` | src/state.rs:5751-5762 | A reservation adds one interrupted row under the next number |
| `IndexRuntime.GenerationTable.SealIndexGeneration` | src/state.rs:5777-5863 | A stored seal writes the row, supersedes the previous one and prunes; a failed one changes nothing |
| `IndexRuntime.GenerationTable.MarkIndexGenerationStale` | src/state.rs:5989-6006 | The newest row, and no other, is marked |
| `IndexRuntime.Runtime.EnsureOwner` | src/commands.rs:429-453 | The owner and its two channels are created once |
| `IndexRuntime.Runtime.Start` | src/commands.rs:458-477 | `try_send` hands over a run exactly when not busy and the queue is open and empty |
| `IndexRuntime.Runtime.TakeAnswer` | src/commands.rs:481-485 | Taking an answer clears busy and the channel slot and nothing else |
| `IndexRuntime.Runtime.StartIndexRun` | src/commands.rs:4267-4304 | The fields after a start are the machine's start, clear and send steps |
| `IndexRuntime.Runtime.PrepareIndexRun` | src/commands.rs:4320-4387 | Preparation reserves the generation and records the task |
| `IndexRuntime.Runtime.ObserveIndexCancellation` | src/commands.rs:4553-4557 | The flag is raised on a doomed read while a run is in flight, as `ReadRaisesTheFlag` and `FlagMeansObserved` say of every run |
| `IndexRuntime.Runtime.SealIndexAnswer` | src/commands.rs:4562-4579 | The seal consumes generation and task, and a deferred id is answered once |
| `IndexRuntime.Runtime.PumpIndex` | src/commands.rs:4481-4521 | The non-blocking pump is the machine's pump step and answers the deferred id exactly when a run was sealed |
| `IndexRuntime.Runtime.ReceiveAnswer` | src/commands.rs:4601-4624 | The blocking receive is the machine's receive step and answers the deferred id exactly when it sealed a run on a request's behalf |
| `IndexRuntime.Runtime.ProjectInit` | src/commands.rs:4823-4867 | A `project.init` is accepted, and its id deferred, exactly when its run was handed over |
| `IndexRuntime.Runtime.BeginShutdown` | src/commands.rs:541-557 | Teardown raises the flag and closes both channels |
| `IndexRuntime.Runtime.Join` | src/commands.rs:541-557 | The join leaves no owner |
| `IndexRuntime.Runtime.ServeReceive` | src/commands.rs:394-425 | The owner loop's receive |
| `IndexRuntime.Runtime.ServeAnswer` | src/commands.rs:394-425 | The owner loop's finished run, its number kept |
| `IndexRuntime.Runtime.ServePing` | src/commands.rs:394-425 | The owner loop's wake, after which it waits again or returns |
| `IndexRuntime.Runtime.ServeSend` | src/commands.rs:394-425 | The owner loop's bounded send, which ends the owner when nobody listens |
| `Publication.AttributeSymmetric` | src/config.rs:5097-5106 | Attribution is symmetric up to its cause and blind to how an identity reads back from the journal |
| `Publication.CompleteOne` | src/state.rs:6395-6425 | A receipt flips exactly the pending row its key names, and is refused when there is none |
| `Publication.StagingKeepsSingleflight` | src/config.rs:4963-5014 | Appending keeps the journal free of two pending rows for one intent and file exactly when no pending row matches the observed file |
| `Publication.AtomicAdmissionIsSingleflight` | src/config.rs:4963-5014 | An admission whose sight and staging are one observation never journals a command twice |
| `Publication.CompletionKeepsSingleflight` | src/state.rs:6395-6425 | Receipts keep that property |
| `PublicationMachine.OccupantIsOrigin` | src/config.rs:5097-5106 | An occupant attributed as the same file is the very object the staging observed, even where numbers were reused |
| `PublicationMachine.RowsGrow` | src/state.rs:6329-6425 | Rows are only appended and only ever gain their receipt, and only by the step that completes them |
| `PublicationMachine.AppliedRowsWereHeld` | src/config.rs:5027-5045 | Over every run with crashes, failures and foreign writers, a row that reads applied had its intended bytes in the very file object its staging observed, at some moment since staging |
| `PublicationMachine.AppliedRowsHaveTokens` | src/config.rs:5097-5106 | Over every run with crashes and foreign writers, no row whose staging found no reuse token is ever receipted |
| `PublicationMachine.AdmissionsAreNumbered` | src/state/sql/mod.rs:328-334 | Over every run with crashes and failed appends the rows of a target are numbered from one without gaps, whoever admits them |
| `PublicationMachine.AtomicRunsAreSingleflight` | src/config.rs:4963-5014 | Over every run of atomic admissions, across owners, spellings, replaced files and missing tokens, no two pending rows of one intent can mean one file |
| `PublicationMachine.SplitAdmissionCanClash` | src/config.rs:4963-5014 | A run, for any owner and target, in which a rename between sight and staging journals one command twice |
| `PublicationProgram.TaskStore.NextPublicationSeq` | src/state/sql/mod.rs:332-334 | The next admission number of a target is above all of its rows |
| `PublicationProgram.TaskStore.AppendPublication` | src/state.rs:6329-6358 | One pending row is appended, with the observed digest and identity, or nothing changes |
| `PublicationProgram.TaskStore.CompletePublication` | src/state.rs:6395-6425 | The update loop is the specified receipt, or a conflict that changes nothing |
| `PublicationProgram.Volume.WriteOnce` | src/executor.rs:2083-2110 | Only the staged file under an equal token is written, whatever the size or readability of its old bytes; the three outcomes leave the edit, the old bytes, or unknown bytes of the edit's length |
| `PublicationProgram.ConfigRuntime.AdmitPublication` | src/config.rs:4963-5014 | The scan order pending, applied, unverifiable, fresh |
| `PublicationProgram.ConfigRuntime.PublishIntent` | src/config.rs:5027-5045 | The write and then the receipt, with a failed receipt told apart from a failed write |
| `PublicationProgram.ConfigRuntime.ResolvePendingPublication` | src/config.rs:5063-5079 | A foreign pending row is answered as it is; an own one is receipted when its bytes hold and rewritten otherwise |
| `PublicationProgram.ConfigRuntime.AdmitConfigEdit` | src/commands.rs:2630-2742 | A config command as one journal, disk and view transition, whose ending `FreshEnding`, `PendingEnding` and `StillEnding` give for every decision |
| `PublicationProgram.ConfigRuntime.RecoverPublications` | src/config.rs:5271-5284 | Recovery never writes the target, receipts a prefix of the recoverable rows up to the first store failure, and reports every verdict |
| `PublicationProgram.RecoveryIsExact` | src/config.rs:5222-5284 | Recovery receipts exactly the pending rows whose own staged file, under a token on both sides, holds the intended bytes; a second recovery without writes between receipts nothing |
| `PublicationVerdicts.ReportsExact` | src/config.rs:5271-5284 | Recovery reports each pending row it went past, in journal order and with its own verdict, and no other |
| `PublicationVerdicts.RecoveryGoesThrough` | src/config.rs:5271-5284 | Recovery goes through the whole journal exactly unless the store refused the receipt of a recoverable row, and then stops there |
| `PublicationVerdicts.VerdictNamesTheCut` | src/config.rs:5222-5261 | For a file whose identity has a token the verdict names the point a write was cut at: exactly new when it landed, old when it never began, and conflicting or torn by whether the torn bytes parse |
| `PublicationVerdicts.VerdictNamesTheChange` | src/config.rs:5222-5261 | Whatever foreign programs did since the staging, each verdict holds of exactly its change: the target is gone, cannot be told, is another file with the same bytes, or holds old, parsing or unparsing bytes |
| `PublicationVerdicts.CommandIsARun` | src/commands.rs:2630-2742 | A command nothing interrupts is one run of the protocol machine, to the same journal and disk, so what holds over all runs holds of it |
| `PublicationVerdicts.RecoveryIsARun` | src/config.rs:5271-5284 | So is the recovery of one pending row |
| `ConfigCommand.Decide` | src/config.rs:4963-5014 | The first matching row answers an admission, in the program's order of evidence |
| `ConfigCommand.AdmissionExact` | src/config.rs:4963-5014 | Pending, applied, refused and fresh, each exactly by whether some pending row may speak of this file, whether its bytes are there, and whether an applied row for them confirms it or merely may speak of it |
| `ConfigCommand.FreshEnding` | src/config.rs:5027-5045 | For any faults a fresh command over an observed target ends served exactly when its row was appended, the target has a token, the edit fits, the write landed and the receipt was recorded, unreceipted exactly when only the receipt was lost, and unlanded otherwise; the row it leaves is stated |
| `ConfigCommand.FreshConverges` | src/commands.rs:2630-2742 | Without faults the first command for an edit converges exactly where the target has a reuse token and the edit fits |
| `PublicationVerdicts.FirstCommandOverFile` | src/config.rs:4963-5045 | Told by the file itself: it converges exactly over a readable file with a token, when old and new bytes fit, and leaves a file it cannot read alone |
| `ConfigCommand.PendingEnding` | src/config.rs:5063-5079 | The three ends of a command over a pending row of its own carrier, each exactly by the bytes already there, the write and the receipt |
| `ConfigCommand.StillEnding` | src/commands.rs:2630-2742 | An applied row, a refusal, another carrier's row, an unreadable journal and an unseen target change nothing, and what each answers |
| `ConfigCommand.ViewAgreesAfterEveryCommand` | src/commands.rs:2592-2742 | With one carrier, a retained document and no foreign writes, the retained document, the served digest and the disk agree after a command exactly unless an uncertain write left other bytes |
| `ConfigCommand.SessionAgrees` | src/commands.rs:2630-2742 | They agree after every sequence of commands with any failures but an uncertain write |
| `ConfigCommand.CommandIsJournaled` | src/config.rs:4963-5045 | With or without reuse tokens, a command over a target it can observe leaves a row a retry finds exactly unless admission refused it, however its write or receipt failed; over any other target it appends none |
| `ConfigCommand.RetryExact` | src/config.rs:5063-5079 | A fault-free identical retry adds no row, and ends on an applied row with the bytes on disk exactly when it finds an applied row, or a pending one whose file it may write and an edit that fits or is already there |
| `ConfigCommand.RetryConverges` | src/config.rs:5063-5079 | So with reuse tokens on the target and the journal every retry of an edit under the ceiling converges |
| `ConfigCommand.ForeignPendingRowDisagrees` | src/commands.rs:2727-2742 | Another carrier's pending row is served without a look at the bytes, so the served digest names bytes the disk does not hold |
| `ConfigCommand.ServedNamesTheDisk` | src/config.rs:5063-5079 | After a served answer the disk holds the edit exactly unless the answering row is another carrier's pending one over other bytes |
| `ProjectIndex.ReadSources` | src/context.rs:1092-1129 | The enumeration loop sorts candidates into sources, failures and unsupported files |
| `ProjectIndex.DeriveSources` | src/context.rs:1169-1184 | The derivation loop skips outside the narrowing and stops at the edge limit |
| `ProjectIndex.CutProject` | src/context.rs:1082-1211 | One cut computes the specified graph, whose narrowing `NarrowingKeptExact` and whose reasons `ReasonsExact` give exactly |
| `ProjectIndex.DerivedEdges` | src/context.rs:1169-1184 | Stopped by its limit or not, a derivation holds an edge exactly when a source it reached states it |
| `ProjectIndexRuns.NarrowingKeptExact` | src/context.rs:1134-1211 | A cut keeps its narrowing exactly when the watch reported no moved file set, the walk and every candidate were read, there was a previous file set, and the two sets agree outside it; any failure makes it full |
| `ProjectIndexRows.LimitExact` | src/context.rs:1169-1184 | The limit stops a cut exactly when the sources inside its narrowing state more edges than it allows, and never more are derived |
| `ProjectIndexRows.ReasonsExact` | src/context.rs:1174-1197 | Each reason is given exactly for what was missed and with its count, the unresolved names are those the reached sources left open, and the cut reads complete exactly when nothing was |
| `ProjectIndexRows.InsertionKeepsTheGreatest` | src/state.rs:5777-5863 | Rows inserted one after another in edge order leave the greatest row of every key |
| `ProjectIndexRows.SealIsInsertion` | src/state.rs:5777-5863 | Inserting the carried rows and then the derived ones leaves exactly the rows a seal is specified to leave |
| `ProjectIndexRuns.CutEdges` | src/context.rs:1082-1211 | A cut records every document and derives exactly the edges of the documents it reached: its narrowing, or all when it widened, unless its limit stopped it |
| `ProjectIndexRuns.InsertedSplits` | src/state.rs:5777-5863 | Row insertion by key works subject by subject |
| `ProjectIndexRuns.NarrowedCutExact` | src/context.rs:1226-1243 | A kept narrowing yields a full derivation's rows for every derivation exactly when nothing is carried or file set, package roots and carried bytes held still |
| `ProjectIndexRuns.KeptNarrowingAligned` | src/context.rs:1226-1243 | A narrowing the program's own test kept is aligned with the previous tree, given that the caller named every changed document and the watch reported names that appeared or vanished inside it |
| `ProjectIndexRuns.NothingBeforeMeansFull` | src/commands.rs:4348-4373 | A first cut, and any cut after a lost one, is full |
| `ProjectIndexRuns.IncrementalRows` | src/context.rs:1134-1211 | Over every sequence of cuts from an empty store, lost and limited ones included, told of the changes since the previous cut, the newest generation holds the rows of a full derivation of its tree less those of the documents a limit left out and no later cut reached |
| `ProjectIndexRuns.IncrementalExact` | src/context.rs:1174-1197 | So it is a full derivation exactly when every such document states no edge |
| `ProjectIndexRuns.IncrementalIsFull` | src/context.rs:1134-1211 | Where no cut met its limit every sealed generation is a full derivation of its tree, by the program's own widening test |
| `ProjectIndexRuns.AppearedInsideNarrowing` | src/context.rs:1231-1242 | A document that appears inside the narrowing: the narrowing is kept and the rows differ from a full derivation |
| `ProjectIndexRuns.LimitedCutIsCarried` | src/context.rs:1174-1197 | A cut stopped by its limit records all documents, so the next narrowed cut reports complete over rows never derived |
| `Expando.RunRewritten` | src/context.rs:2174-2193 | Every character of a maximal dollar run is rewritten exactly when `A`-`Z` or `_` follows the run or it is three long |
| `Expando.RewritingIsStable` | src/context.rs:2174-2193 | Length and every other character stay, and a second rewriting changes nothing, whatever the sigil |
| `Expando.ExpandoRewrite` | src/context.rs:2174-2193 | The counting loop writes exactly the specified text |
| `PointerAddress.EscapeRoundTrip` | src/config.rs:293-323 | Unescaping an escaped token gives it back, and an escaped token holds no slash |
| `PointerAddress.UnescapeExact` | src/config.rs:308-323 | The decoder accepts exactly the well-formed tokens, and escaping its result gives the token back |
| `PointerAddress.OnePassIsTwoSubstitutions` | src/config.rs:308-323 | The one-pass decoder equals the two substitutions of section 4 of RFC 6901 |
| `PointerAddress.PartsExact` | src/config.rs:249-289 | An address splits into a triple exactly when it is that triple's address and the triple is valid for its owner |
| `PointerAddress.AcceptedExact` | src/config.rs:263-289 | Which texts are addresses: three tokens, the last two well-formed, under `learning` neither empty nor opening with an escaped slash, under `config` both opening with one |
| `PointerAddress.AddressInjective` | src/config.rs:249-256 | Two valid triples never share an address |
| `PointerAddress.ReencodingRedundant` | src/config.rs:284-286 | Three decodable segments always re-encode to the address, so that check never decides |
| `PointerAddress.PointerEscape` | src/config.rs:293-303 | The escaping loop |
| `PointerAddress.PointerUnescape` | src/config.rs:308-323 | The decoding loop |
| `PointerAddress.BlockerAddressParts` | src/config.rs:263-289 | The split, decode, owner and re-encode steps answer a triple exactly for that valid triple's address |
| `KeyAddress.SegmentsRoundTrip` | src/config.rs:961-992 | Reading inverts the printer that quotes segments holding a dot, for all quote-free segments |
| `KeyCuts.RawSegmentsExact` | src/config.rs:961-992 | Any key, quotes anywhere, is spelled back by its raw segments, which are cut at exactly the dots outside quotes |
| `KeyCuts.CutIsRead` | src/config.rs:961-992 | There is one way to cut a key so |
| `KeyCuts.StrippedExact` | src/config.rs:961-992 | One pair of enclosing quotes is taken off a segment, and nothing else |
| `KeyAddress.ReadSegments` | src/config.rs:961-992 | The scanning loop with its quote flag: nothing exactly on an odd number of quotes |
| `KeyAddress.TargetExact` | src/config.rs:2488-2518 | A key addresses a slot exactly when its segments spell that slot's path and none is empty |
| `KeyAddress.OnlyOneSpells` | src/config.rs:2759-2776 | No two slots spell the same path |
| `KeyAddress.SlotsAreAddressable` | src/config.rs:2488-2518 | Every slot with quote-free non-empty names is addressed by its printed path |
| `KeyAddress.ReadableIsEditable` | src/config.rs:2033-2042 | Every readable key is an edit target |
| `KeyAddress.ReadableExact` | src/config.rs:2033-2042 | A key is readable exactly when it edits a slot of the carrier table |
| `KeyAddress.KeyRefusalExact` | src/config.rs:2488-2518 | A key is refused for an open quote, then for an empty segment, then for spelling no slot, each exactly |
| `KeyAddress.CarrierTable` | src/config.rs:850-868 | Walking the carrier table captures exactly the six carriers' shapes |
| `ConfigSchema.DocumentOf` | src/config.rs:2101-2245 | A document that reads is coherent; what it reads as, and which documents read, `RenderedIsValid`, `CoherentExact` and `RowsAreStrict` say |
| `ConfigSchema.ItemsRoundTrip` | src/config.rs:2981-3046 | What a surface writes into a slot reads back as the value it was given |
| `ConfigRendering.ConnectionItemReads` | src/config.rs:3549-3618 | A connection of any kind with any choice of credential reference, region and profile reads back exactly when its endpoint is admitted |
| `ConfigRendering.OneConnectionExact` | src/config.rs:2101-2245 | A document of one connection of any kind is valid exactly under its kind's rule: a local one names no credential, a subscription an admitted one, an api key an admitted one or a keyless name |
| `ConfigRendering.PurposeItemReads` | src/config.rs:4106-4150 | A purpose row with any choice of its six fields reads back |
| `ConfigRendering.RenderedReads` | src/config.rs:2101-2245 | Every typed view, with its foreign sections, reads back from the document it is written as exactly when version, endpoints, credentials and foreign sections are admitted |
| `ConfigRendering.RenderedIsValid` | src/config.rs:2101-2245 | And that document is valid exactly when the view is coherent as well |
| `ConfigRendering.ReferencesExact` | src/config.rs:2253-2292 | The reference check holds exactly when every connection named anywhere, by a pin, a pool or a chain, is declared and every group bound to is there |
| `ConfigRendering.CoherentExact` | src/config.rs:2101-2245 | The whole-document rules hold exactly when there is a connection and a default, every connection meets its kind's rule and names a declared profile, and every reference resolves |
| `ConfigRendering.RowsAreStrict` | src/config.rs:4106-4150 | A row that reads holds exactly the keys its reading is written with: no unknown key is skipped |
| `ConfigRendering.NamesExact` | src/config.rs:4166-4183 | A name list is read from exactly its list of strings |
| `ConfigRendering.EntryExact` | src/config.rs:4288-4383 | A chain entry is read from exactly its two strings, with or without its mode |
| `ConfigRendering.ModelExact` | src/config.rs:4196-4250 | A model assignment reads as a value exactly when the table holds what that value is written with, and an unrestricted one no pool |
| `ConfigRendering.EffortExact` | src/config.rs:4252-4286 | Likewise an effort |
| `ConfigRendering.FallbackExact` | src/config.rs:4288-4383 | And a fallback, whose chain may be absent |
| `ConfigSchema.ChainRoundTrip` | src/config.rs:3023-3046 | Fallback chains of any length read back |
| `ConfigEdit.MergedIsItem` | src/config.rs:2890-2979 | Taking a table over key by key ends with the new table |
| `ConfigEdit.SetTouchesOnlyItsPath` | src/config.rs:1834-1911 | An accepted assignment is found at its path and every path that diverges from it reads as before |
| `ConfigEdit.RemoveTouchesOnlyItsPath` | src/config.rs:1913-1942 | A reset leaves nothing at its path and every diverging path as before |
| `ConfigEditProofs.PurposeSet` | src/config.rs:1834-1911 | Setting a purpose slot is the matching change of the typed view and no other |
| `ConfigEditProofs.ConnectionSet` | src/config.rs:1834-1911 | So is setting a region or profile of a declared connection |
| `ConfigEditValid.SetSections` | src/config.rs:1834-1911 | Over all fourteen targets an assignment reads back as the typed view with that slot assigned |
| `ConfigEditValid.ResetSections` | src/config.rs:1913-1942 | Over every override a reset reads back as the typed view without it |
| `ConfigEditValid.CoherenceIsLocal` | src/config.rs:2253-2292 | The whole-document rules hold after an assignment exactly when the assigned slot's own references resolve |
| `ConfigEditValid.ClearingKeepsCoherence` | src/config.rs:1913-1942 | Removing an override breaks no whole-document rule |
| `ConfigEditValid.SlotSeen` | src/config.rs:3298-3477 | The targeted check sees exactly the references of its slot |
| `ConfigEditValid.TargetedCheckIsExact` | src/config.rs:3298-3477 | On a valid document the targeted check accepts an edit exactly when the whole edited document is valid, and then the view changes by that edit alone |
| `ConfigEditValid.SetIsExact` | src/config.rs:1834-1911 | On a valid document `set` is accepted exactly when the key addresses a slot the value fits and every name it carries resolves |
| `ConfigEditValid.ResetIsExact` | src/config.rs:1913-1942 | On a valid document `reset` is accepted for exactly the overrides of declared rows |
| `ConfigEditSlots.EachSlotTakesOneKind` | src/config.rs:1834-1911 | Every slot takes one kind of value, all of that kind and no other |
| `ConfigEditSlots.SetRefusalExact` | src/config.rs:1834-1911 | Why a `set` on a valid document is refused: its key, the kind of its value, an undeclared connection, or a name that does not resolve, each exactly, and never for the document's shape |
| `ConfigEditSlots.ResetRefusalExact` | src/config.rs:1913-1942 | And a `reset`: its key, a slot no document can be without, or an undeclared connection |
| `ConfigEditSlots.OverrideExact` | src/config.rs:2477-2486 | A slot that is set may be reset exactly when the document is valid without it |
| `ConfigEditSlots.SetAtExact` | src/config.rs:1834-1911 | The walk of an edit fails exactly at a step of its path that is there and is no table |
| `ConfigEditSlots.NothingRetained` | src/config.rs:1834-1911 | Without a retained document every well-addressed, well-typed edit is refused for that alone |
| `ConfigEditValid.SessionRefines` | src/config.rs:1948-1961 | Through any session of edits, refused ones included, the document stays valid and reads as the typed machine's view |
| `ConfigDocument.Config.CommitEdit` | src/config.rs:1948-1961 | A refused edit restores the document and the view exactly |
| `ConfigDocument.Config.Set` | src/config.rs:1834-1911 | `set` in place is the specified edit; a refusal leaves document and view as they were |
| `ConfigDocument.Config.Reset` | src/config.rs:1913-1942 | `reset` in place likewise |
| `ConfigDocument.Config.Validate` | src/config.rs:1578-1593 | Validation accepts exactly readable documents and never changes the document |
| `ConfigDocument.Config.RefreshViewIfValid` | src/config.rs:1969-1987 | The view follows a valid document and stays over an invalid one |
| `ConfigDocument.Carrier.RetainedSet` | src/commands.rs:2604-2612 | A refused edit keeps a retained document as it was; without one the absent document becomes an empty default |
| `ConfigDocument.Config.MovePurposeTable` | src/config.rs:1735-1755 | The row moves as one item; a target already there keeps its own |
| `ConfigDocument.Config.RebindPurpose` | src/config.rs:1635-1683 | One rename: nothing to move, refused with nothing changed, or the two rows changed and no other part of the document |
| `ConfigDocument.Config.PlannedPurposeMoves` | src/config.rs:1696-1708 | The proof on a copy answers the planned moves and leaves this document alone |
| `ConfigDocument.Config.MovePurposeBindings` | src/config.rs:1717-1728 | Applying moves one by one is the specified fold, and the edit to write back is the last one |
| `ConfigDocument.Config.CutOverBase` | src/state/learning.rs:2407-2419 | A refusal on either side leaves the document alone; otherwise it becomes the proven copy's |
| `ConfigDocument.MergePurposes` | src/config.rs:1818-1832 | Two sources merge exactly when every shared name is bound alike, and nothing held is overwritten |
| `ConfigDocument.ReleaseKeepsValid` | src/config.rs:1635-1683 | A release keeps a valid document valid: every binding is found unchanged at its folded name and no other part of the view moves |
| `ConfigDocument.RoleRulesExact` | src/config.rs:1557-1562 | The rules of a release that move rows are its role rules, in order |
| `PurposeMoves.PlanIsAppliedAsProven` | src/config.rs:1696-1728 | Moves that passed on the copy pass on the document, give the copy's rows, and edit exactly when a move was planned |
| `PurposeMoves.RowsAreCarried` | src/config.rs:1635-1683 | Every row sits at its folded name with the meaning it had, and nothing else is there |
| `PurposeMoves.MergesOnlyEquals` | src/config.rs:1818-1832 | Two bindings end under one name only when they were equal |
| `PurposeMoves.RulesMissUnreadable` | src/config.rs:1635-1683 | A row the schema cannot read keeps its name and its raw item through every accepted release |
| `PurposeMoves.UnnamedRowsKeepTheirItem` | src/config.rs:1735-1755 | A row no rule names keeps its raw item, or its absence |
| `PurposeMoves.ItemsTravel` | src/config.rs:1735-1755 | Every row of the outcome is one raw item of the document, carried whole to its folded name |
| `PurposeMoves.StayingRowsKeepTheirItem` | src/config.rs:1735-1755 | A row no rule takes away keeps its own raw item, whatever moves onto its name |
| `PurposeMoves.PlannedExact` | src/config.rs:1696-1708 | A release is refused exactly when, on the rows as they were, a rule with a row to move would touch an unreadable row or join two bindings |
| `ConfigLayers.LayersStack` | src/config.rs:4646-4679 | Layering is associative, has the empty layer as its unit, and is idempotent |
| `ConfigLayers.AcceptedAdditions` | src/config.rs:4501-4537 | A base is accepted over a valid document exactly when what it adds resolves against the user's names |
| `ConfigLayers.EffectiveResolves` | src/config.rs:1766-1813 | On an accepted view every purpose name resolves exactly when the view has defaults, and every connection the answer names is declared; to what, the `ConfigResolution` rows say |
| `ConfigResolution.SetPurposeResolves` | src/config.rs:1766-1813 | After an accepted `set` of a purpose's model, effort or fallback the purpose resolves under every base to that value from its own row, unless it says `inherit`, and a row already there resolves as before in its other slots |
| `ConfigResolution.ResetPurposeResolves` | src/config.rs:1766-1813 | After the matching `reset` a model resolves to its group's or to the composed default's, effort and fallback to the composed default's, each with its source |
| `ConfigResolution.SetGroupResolves` | src/config.rs:1766-1813 | After an accepted `set` of a group's model every unpinned purpose bound to the group resolves to it, from the group |
| `ConfigResolution.SetDefaultResolves` | src/config.rs:1766-1813 | After an accepted `set` of a default every purpose neither layer binds resolves to it, or to the base's where it defers |
| `ConfigResolution.DeferringIsAbsent` | src/config.rs:1766-1813 | A model or effort that says `inherit` resolves as if it were not there |
| `ConfigResolution.BaseRowResolves` | src/config.rs:4646-4679 | A purpose only the base binds resolves by the base's row |
| `ConfigResolution.FlagsCompose` | src/config.rs:4562-4582 | After an accepted `set` of a flag the composed view holds it under every base, and after its `reset` the base's own value |
| `ConfigResolution.EffectiveExact` | src/config.rs:4501-4537 | A base over a document is accepted exactly when the document is valid and the base's references resolve against it, and over none when they resolve by themselves |
| `ConfigLayers.SettledResolves` | src/config.rs:4562-4582 | A purpose the user settles resolves on the composed view as on the user's document |
| `ConfigLayers.SettledExact` | src/config.rs:4562-4679 | A purpose resolves alike under every accepted base exactly when the user's document settles its row, model and effort |
| `ConfigLayers.NothingInherits` | src/config.rs:1780-1790 | No purpose resolves to `inherit` exactly when the defaults do not say it and no unpinned row's group does |
| `ConfigLayers.GroupInheritIsReturned` | src/config.rs:1780-1790 | An accepted view whose defaults pin a model and whose group's `inherit` is returned unresolved |

## Left out

- The wire protocol, login, sharing, MCP calls, the economy and status projections: shape checks settled by one branch each.
- Process spawning, the sandbox helper and wall-clock deadlines: an index run is an arbitrary answer, refusal or panic, and a candidate whose deadline passed is unreadable.
- Search legs, the ignore walk and tree-sitter: they rest on libraries that are not part of this model; `derive_edges` is an uninterpreted function of the source, the indexed file set and the package roots.
- `package_roots` is an input of a cut, not computed.
- SHA-256, SQLite and the file system: a digest stands for bytes, a statement takes effect as a whole or fails, and an object on disk keeps its identity until it is gone.
- Bytes are a digest, whether they parse and whether they fit the one-mebibyte ceiling that reads and managed writes share; file modes, fsync and short writes appear only as readability and the three outcomes of a write.
- TOML comments, decor and inline-table layout (`set_field`, `set_trailing_preserving`): documents are plain item trees, and standard and inline tables are one kind.
- The grammars of hooks, MCP servers, endpoints and credential references, and the connections that may omit a credential, are predicates a proof knows nothing about.
- Which refusal a document with several faults reports, and the order of a table's keys: refusals of the schema are told apart from acceptance only. Plan parts and edits keep their exact refusals.
- Integer widths: the version, sequence and generation numbers are unbounded.
- The two atomics of the cancel flag and the channels are sequentially consistent: each shared access is one step.
- A watch repair is its own event between two pumps, and whether the batch a refused start claimed is kept is not stated.
- A runtime started again after its teardown.
- The journal's order by target, sequence and owner is the order of its rows; of several matching rows the first in that order answers.
- Index rows and generations of a sequence of cuts are values rather than a table updated in place; the generation states are updated in place by `IndexRuntime.GenerationTable`.
- A stored edge's key is five fields and the remaining columns one number, so two edges of one key are ordered by it.
- The document walk of an edit (`ensure_table_like`, the reset loop) is a recursion over the item tree: mutable references into a document are not modelled, so `ConfigDocument.Config` replaces its document as a whole.
- IndexOwnerProofs.OneRunInFlight: is stated while the owner thread lives; after it returned, the run it held is lost and `DeadOwnerKeepsTheReservation` shows what remains.
- ProjectIndexRuns.IncrementalRows: asks that an attempt with a narrowing either reports a moved file set or was told the truth: package roots held, every changed document is named, and none inside the narrowing appeared or vanished; `NarrowedCutExact` and `AppearedInsideNarrowing` show for one cut that this cannot be dropped.
- Hints in refusal texts other than the root-key hint.
- The deferral mark `dispatch_step` takes is the phase between accepting a `project.init` and routing its answer, and which pump turn the loop takes next is left open.
- Plan rows, fork state, the plan gate and question answering.
