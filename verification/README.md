# A verified model of the configurator

The configurator selects modules, orders their steps, executes the plan until the machine is as desired,
records receipts, adopts files it replaces and can roll them back. This project models the parts whose
correctness is not visible in any one function and proves what they promise:

- `Text`, `Sorting`, `Topology`: text order, stable sorting, and the priority-queue topological sort.
- `Plans`, `Planner`, `PlannerTheorems`, `PlanContents`, `Removal`: module selection, cycle detection, the
  two-level step graph, the least order, what a plan holds, and removal plans.
- `Json`, `JsonTheorems`, `JsonGrammar`, `JsonValue`, `Digest`, `DigestTheorems`, `DigestFields`: the JSON
  decoder and printer, proved against the grammar of RFC 8259 (sections 2 to 7), the executor's comparison,
  and the canonical text a plan's digest is made of.
- `Executor`, `ExecutorTheorems`: observe, observe again, mutate, observe; ports that may do anything.
- `ReceiptStore`, `ReceiptTheorems`, `ReceiptReading`, `ReceiptRuns`: publishing receipts on a disk whose
  directory entries are volatile until their directory is synced, with any number of publishers and with
  crashes, and reading them back.
- `Adoption`, `AdoptionTheorems`, `AdoptionRuns`: one-time backups and their records, and the publisher
  that adopts before it replaces, under interleaving and crashes.
- `Rollback`, `RollbackTheorems`: plan every inverse first, then run them.
- `Cosmic`, `CosmicTheorems`, `CosmicActive`, `Utf8`: the byte scanner and rewriter of COSMIC system
  actions, and a description of its active fields and of UTF-8 that does not use the scanner.
- `Marker`, `MarkerText`, `Porcelain`: the marked block in shell files, and the two readers of `git status -z`.
- `Catalog`, `CatalogTheorems`, `CatalogPins`, `MergeValues`: layered catalogs and lists of named values.
- `Check`, `CheckTheorems`, `CheckFindings`, `CheckInventories`: from inventories and one snapshot to a
  canonical report.

Methods follow the loops of the source and are proved against specification functions; lemmas say what
those functions mean. `PlanContents`, `JsonGrammar`, `DigestFields`, `ReceiptReading`, `CosmicActive`, `Utf8`,
`MarkerText`, `CatalogPins` and `CheckFindings` say it without those functions, in the words of the inputs
and with literal names, characters and bytes, so that a wrong definition is caught there. The two
file protocols exist twice: as a state machine whose steps are single file operations, over which the
invariants are proved for every interleaving and crash, and as code whose contract is that it issues exactly
the steps of that machine.

## What the proofs found

- The first Publish of a receipt store renames `current.json` before the entry of the new `receipts`
  directory in the state root is synced. A crash in between may keep the index and lose the receipts. The
  crash-safe index described in docs/receipts.md is what every run keeps exactly when the state directory
  and the receipts directory are durable at its start (`ReceiptRuns.SafeForeverExactlyWhen`), which they
  are after the first success except that nothing syncs the state directory's own entry.
- A failed Publish loses the previous index when undoing it fails and removing the new one works
  (`ReceiptRuns.FailedPublishExactly`).
- An adoption record may be lost with its unsynced directory (`AdoptionRuns.RecordIsLostExactlyWhen`); the
  backup is then durable without a record and every later adoption refuses, for ever
  (`AdoptionRuns.AdoptedThenRefused`). The original is not lost.
- A publisher that finds no target adopts nothing; one that comes later replaces the published file of
  another without a backup (`AdoptionRuns.UnadoptedIsOverwritten`).
- A rollback restores a backup without comparing it with the digest from before, so adopted files end at
  that digest exactly when their backups had it (`RollbackTheorems.AdoptedFilesGetTheirDigests`).
- Order across a transitive module requirement fails through a module without steps
  (`PlannerTheorems.EmptyModuleBreaksChain`).
- A missing payload is `null` in the digest but no JSON value to the executor's comparison.
- Text behind the marked block is joined to the line in front of it; if that makes up a marker, the file is
  refused from then on (`Marker.FixedPointExactlyWhen`, `Marker.TornMarkerIsFused`).
- The two porcelain readers take different records of a stream exactly when a record that mixes U with R
  or C is directly followed by another status record (`Porcelain.ReadersAgreeExactlyWhen`).
- `ReplaceCompleteDefinitions` can never report a duplicate in its result.
- A check after a failed observation shows no drift when only the fingerprint was to be checked.
- A name inventoried twice is checked against its first entry only; no drift means that all items match
  exactly when the first entries ask for what the others ask for (`CheckInventories.ItemsMatchExactlyWhen`).

## Model

| member | source | states |
|---|---|---|
| Planner.BuildPlan | internal/planner/plan.go:126-137 | Whatever order the maps are walked in, the result is the plan or the error that the set of definitions and the selection determine; a repeated module or step ID is reported first. |
| Planner.CopyDefinitions | internal/planner/plan.go:141-155 | Returns maps that describe exactly the given modules, steps without an owner getting their module, or an ID that really occurs twice. |
| Planner.ValidateSelections | internal/planner/plan.go:157-167 | The first unknown name, only before with before without, or nothing when all are known. |
| Planner.SelectModules | internal/planner/plan.go:169-204 | The selected set is the chosen one, or the first unmet dependency in name order; the closure loop adds nothing and stops. |
| Planner.ModuleCycle | internal/planner/plan.go:206-229 | Empty exactly when draining the module graph reaches every selected module; otherwise the sorted names never reached. |
| Planner.OrderSteps | internal/planner/plan.go:231-269 | The drained order of the combined step graph, the first missing step dependency, or the cycle, independent of map order. |
| Planner.StepGraph | internal/planner/plan.go:238-243 | The edges drawn are every step of a directly required selected module to every step of the module that requires it, each counted once. |
| Planner.AddDependencies | internal/planner/plan.go:244-253 | Adds the in-plan step dependencies, skips those outside an only-selection, and stops on the first that is missing, in step ID order. |
| Topology.Drain | internal/planner/plan.go:254-262 | The in-place priority queue emits the specification order Drained and leaves positive degrees exactly at the names never emitted. |
| Topology.EmitLeast | internal/planner/plan.go:258-261 | One emission takes the least ready name, releases its successors once each and keeps the degree counts equal to the unemitted predecessors. |
| Topology.DrainedIsSound | internal/planner/plan.go:257-262 | Each name is emitted once and after every predecessor it has among the nodes. |
| Topology.StuckIsDeadlocked | internal/planner/plan.go:262-267 | In what is never emitted every name has a predecessor that is never emitted either. |
| Topology.StuckIsLargest | internal/planner/plan.go:262-267 | Any set in which each name waits for a member is contained in what is never emitted. |
| Topology.SucceedsExactlyWhenAcyclic | internal/planner/plan.go:254-268 | Everything is emitted exactly when the graph restricted to the nodes has no cycle. |
| Topology.DrainedIsLeast | internal/planner/plan.go:257-261 | The emitted order is lexicographically at most any other topological order under the rank. |
| Topology.LeastOrderIsUnique | internal/planner/plan.go:257-261 | A topological order that is at most every other one is the emitted order. |
| PlannerTheorems.PlanIsLeastOrder | internal/planner/plan.go:231-274 | The plan holds exactly the selected steps in the lexicographically least topological order, the only order as small. |
| PlannerTheorems.PlanRespectsModules | internal/planner/plan.go:238-243 | Every step of a directly required selected module comes before every step of the module that requires it. |
| PlannerTheorems.PlanRespectsSteps | internal/planner/plan.go:244-253 | Every dependency a step names comes before it when it is in the plan. |
| PlannerTheorems.CycleIsLargestDeadlock | internal/planner/plan.go:224-228 | The reported nodes are exactly the largest set in which each has a predecessor in the set, of modules or else of steps. |
| PlannerTheorems.PlanIgnoresDefinitionOrder | internal/planner/plan.go:126-155 | Shuffling the modules and the steps inside them leaves the result unchanged. |
| PlannerTheorems.ChainIsOrdered | internal/planner/plan.go:238-243 | Order reaches along a chain of requirements when every module inside the chain has a step. |
| PlannerTheorems.EmptyModuleBreaksChain | internal/planner/plan.go:238-243 | A module without steps inside a chain breaks it: a concrete plan puts a step before the one it transitively requires. |
| PlanContents.PlanHoldsExactly | internal/planner/plan.go:169-204 | A step is in a plan exactly when it is a step of a module that an only-selection names or, without one, that is enabled or added and not excluded; no step is there twice. |
| PlanContents.PlanHoldsGivenSteps | internal/planner/plan.go:126-204 | The same of the modules as they are given, a step without an owner getting the name of its module. |
| PlanContents.SelectionFailsExactlyWhen | internal/planner/plan.go:157-204 | Planning stops at an unknown name exactly when one is given, and at a missing module exactly when, all names being known, a selected module requires one neither selected nor, with an only-selection, enabled. |
| PlanContents.EdgesArePrecedences | internal/planner/plan.go:238-253 | Between steps of the plan there is an edge exactly when the later step names the earlier or its module directly requires the other module. |
| PlanContents.PlanExistsExactlyWhen | internal/planner/plan.go:126-268 | There is a plan exactly when all names exist, what the selected modules and steps require may be met, and neither selected modules nor their steps wait for each other in a circle. |
| PlanContents.LessAtFirstDifference | internal/planner/plan.go:271-274 | Text is less exactly when it is a proper beginning of the other or smaller at the first difference. |
| PlanContents.ModulesAreRanked | internal/planner/plan.go:271-274 | The named modules come first in their fixed order, then all others by name, and verify last. |
| PlanContents.NeighboursAreInOrder | internal/planner/plan.go:257-274 | Two neighbours of a plan that need not be in this order stand in the order of module rank, then of step ID. |
| PlanContents.UnknownIsReported | internal/planner/plan.go:157-167 | The unknown name reported is the first of its list, and the lists before it hold none. |
| PlanContents.MissingModuleIsReported | internal/planner/plan.go:186-203 | The missing module reported is the first unmet requirement of the first selected module, by rank, that has any. |
| PlanContents.MissingStepIsReported | internal/planner/plan.go:244-253 | The missing step reported is the first unmet dependency of the first step, by ID, that has any. |
| Removal.BuildRemovalPlan | internal/planner/removal.go:13-46 | Fails exactly on an empty or unowned module name or a selected step without an inverse (the last such one is named); otherwise the inverses of the selected steps in reverse. |
| Removal.BackwardMembers | internal/planner/removal.go:31-35 | The removal covers the selected steps and no other. |
| Removal.BackwardReverses | internal/planner/removal.go:31-44 | Of two selected steps the later one in the plan is removed first. |
| Removal.DependentsAreRemovedFirst | internal/planner/removal.go:31-44 | In the removal of a built plan every dependent goes before the selected steps it depends on. |
| Digest.Normalize | internal/planner/digest.go:22-41 | Writes the canonical text of the plan, or nothing exactly when some payload is not one JSON value. |
| Digest.CanonicalJson | internal/planner/digest.go:244-265 | The printed form of the one decoded value, or none. |
| Digest.Marshal | internal/planner/digest.go:244-265 | Printing writes members in name order, whatever order the map yields them in. |
| Digest.Buffer.StringSet | internal/planner/digest.go:199-229 | Appends the strings sorted and each once. |
| Digest.Buffer.Selection | internal/planner/digest.go:76-96 | Appends the three selection lists as sets, in field order. |
| Digest.Buffer.Step | internal/planner/digest.go:112-176 | Appends the step text: every field, the inverse only when there is one; stops when a payload does not decode. |
| Digest.Buffer.WriteInverse | internal/planner/digest.go:178-197 | Appends the text of an inverse or stops on its payload. |
| Digest.Buffer.Steps | internal/planner/digest.go:98-110 | Appends the steps in their order between brackets. |
| DigestTheorems.PlanTextDecodes | internal/planner/digest.go:22-41 | The canonical text is JSON: it decodes to the value of the plan and leaves only the final newline. |
| DigestTheorems.PlanValueIsInjective | internal/planner/digest.go:112-265 | Plans with one value have the same selection and dependency sets, the same steps in order, equal payload values (a missing payload being null) and the same inverses. |
| DigestTheorems.TextDeterminesPlan | internal/planner/digest.go:22-265 | Two plans whose payloads decode get the same canonical text exactly when they are equivalent. |
| DigestFields.TextSaysPlan | internal/planner/digest.go:22-265 | The text decodes to an object that says, under each literal name, what the plan has there, and nothing else: sets sorted and without repeats, payloads as the values they are texts of. |
| DigestFields.PlanTextInOrder | internal/planner/digest.go:22-96 | The bytes of plan and selection: the literal names in their order, and one newline at the end. |
| DigestFields.StepTextInOrder | internal/planner/digest.go:112-176 | The bytes of a step: ten literal names in their order, and the inverse only if there is one. |
| DigestFields.InverseTextInOrder | internal/planner/digest.go:178-197 | The bytes of an inverse: operation, then value. |
| DigestFields.EscapedCharIsSafe | internal/planner/digest.go:67-74 | Which characters are written as they are, in two characters or in six; none written is a control character, special in HTML or a line separator. |
| JsonTheorems.QuoteRoundTrip | internal/planner/digest.go:67-74 | A written string reads back as itself, with every escape the encoder uses, whatever follows it. |
| JsonTheorems.PrintRenders | internal/planner/digest.go:244-265 | The encoding of any well-formed value within the nesting limit decodes to that value. |
| JsonTheorems.ParsedIsGood | internal/executor/jsonvalue.go:72-89 | Every decoded value is well formed and nests no deeper than allowed. |
| JsonTheorems.CanonicalRoundTrip | internal/planner/digest.go:244-265 | Canonical text means the value it was made from, and making it canonical again changes nothing. |
| JsonTheorems.PrintIsInjective | internal/planner/digest.go:244-265 | Different values have different encodings. |
| JsonGrammar.DecodesExactlyWhen | internal/executor/jsonvalue.go:72-89 | A text decodes to a value exactly when it is a text of the grammar of RFC 8259 for that value, nested at most 10000 deep, with any of the four blanks wherever the grammar has them. |
| JsonGrammar.TreeIsRead | internal/executor/jsonvalue.go:72-89 | Every text of the grammar, spaced in any way and followed by anything that ends it, is read to its end and means its value. |
| JsonGrammar.StringIsRead | internal/executor/jsonvalue.go:72-89 | Strings: plain characters, the eight short escapes, code units in either case, pairs of surrogates as one character, lone ones as the replacement character. |
| JsonGrammar.NumeralIsScanned | internal/executor/jsonvalue.go:72-89 | Numbers: minus, integer without leading zeros, fraction, exponent, kept as written. |
| JsonGrammar.EqualExactlyWhenOneValue | internal/executor/jsonvalue.go:52-89 | Two payloads are equal exactly when both are texts of one value, and refused exactly when one of them is no text of any. |
| JsonGrammar.EmptyExactlyWhen | internal/executor/jsonvalue.go:76-81 | The failure is Empty exactly when there is nothing but blanks. |
| JsonGrammar.BlanksAroundChangeNothing | internal/executor/jsonvalue.go:54-89 | Blanks put in front of and behind an accepted text leave its value. |
| JsonValue.EqualExactlyWhenCanonicalTextsAre | internal/executor/jsonvalue.go:57-89 | The executor finds two payloads equal exactly when both decode and their canonical texts are the same, and different exactly when both decode to different canonical texts. |
| Executor.Executor.Take | internal/executor/executor.go:127-167 | One turn of the loop, ports included, is the specified turn: calls, new world, outcome and error. |
| Executor.Executor.Finish | internal/executor/executor.go:161-176 | Projecting, or mutating and confirming, makes the specified calls and outcome. |
| Executor.Executor.Execute | internal/executor/executor.go:121-181 | A run over a plan is the specified run: world, calls in order, outcomes, NoChange, error. |
| ExecutorTheorems.TurnIsOrderly | internal/executor/executor.go:127-178 | With ports that do anything: a mutation comes third, once, only after two mismatching observations and never in a dry run; satisfied and applied mean the last thing seen equals what is desired; each call is handed the step with nothing changed but what was last observed and, from the mutation on, satisfied replaced by apply. |
| ExecutorTheorems.StageTellsHowFar | internal/executor/executor.go:127-178 | The stage and class an error names fit the calls made and what they answered. |
| ExecutorTheorems.RunIsReported | internal/executor/executor.go:121-206 | A run reports a prefix of its steps; it fails exactly when the last entry, and only that, failed; NoChange holds exactly when all entries are satisfied or blocked. |
| ExecutorTheorems.CallsAreOrderly | internal/executor/executor.go:121-206 | With distinct IDs each reported step made only the calls its verdict allows, handed the whole step as above, so it was mutated at most once, and no step after the failed one was called for. |
| ExecutorTheorems.DryRunNeverMutates | internal/executor/executor.go:163-167 | A dry run makes observations only and, with a passive observer, leaves the world as it was. |
| ExecutorTheorems.DryRunForetells | internal/executor/executor.go:121-181 | When the real run succeeds the dry run succeeds too, entry by entry the same but for projected in place of applied and what would be observed afterwards, with the same NoChange. |
| ExecutorTheorems.RunSettles | internal/executor/executor.go:168-178 | Every step a run reported without failing is left as desired, even if the run failed later. |
| ExecutorTheorems.RunConverges | internal/executor/executor.go:121-181 | After a run without error every step that is not blocked is as desired; the next run mutates nothing, marks them satisfied and returns NoChange. |
| ExecutorTheorems.SettledRunIsQuiet | internal/executor/executor.go:141-158 | Where every step is as desired a run of either kind only observes. |
| ExecutorTheorems.FixtureIsWellBehaved | internal/acceptance/exercise.go:43-57 | The in-memory fixture observes passively, ignores plan notes and mutates only the step it is asked to. |
| ExecutorTheorems.ExerciseConverges | internal/acceptance/exercise.go:65-111 | For a plan whose unblocked steps can be compared and start out different, the exercise sees a dry run that changes nothing, a first run that changes something unless all is blocked, and a second that changes nothing. |
| ReceiptStore.Store.Publish | internal/receipt/store.go:124-149 | Whatever fails, the file operations issued are those of the protocol in its order, and success is reported exactly at its end; an invalid receipt touches nothing. |
| ReceiptStore.Store.PublishReceipt | internal/receipt/store.go:361-380 | Stages, links without replacing, unlinks and syncs; it ends ready for the index or failed. |
| ReceiptStore.Store.UpdateCurrent | internal/receipt/store.go:382-412 | Reads the previous index, stages and renames the new one, syncs, and on a failed sync rolls back. |
| ReceiptStore.Store.RollbackCurrent | internal/receipt/store.go:430-442 | Restores the previous index from a staged copy, or removes the index, and ends failed. |
| ReceiptStore.Store.WriteTemp | internal/receipt/store.go:444-487 | A staged file holds the data and is synced before its name is used. |
| ReceiptStore.Store.Read | internal/receipt/store.go:217-273 | Found exactly when every listed file is a receipt and one, and only one, has the run ID, whatever the order of the listing. |
| ReceiptTheorems.AdvanceIsSane | internal/receipt/store.go:333-487 | One operation of any publisher keeps the disk sound and only grows it. |
| ReceiptTheorems.AdvanceIsReady | internal/receipt/store.go:333-487 | Each operation leaves its publisher with what the next one needs, such as a durable receipt before the rename of the index. |
| ReceiptTheorems.DurableStoreIsSafe | internal/receipt/store.go:124-211 | From durable state and receipts directories, at every prefix of every interleaving with crashes that lose unsynced entries arbitrarily: current.json on disk names a durable receipt with the recorded digest and run ID, the directories stay durable, and so does every durable receipt. |
| ReceiptTheorems.DiskGrowsBetweenCrashes | internal/receipt/store.go:333-487 | In any run without a crash, of any publishers, directories stay and linked receipts stay as they were. |
| ReceiptTheorems.LinkedReceiptsNeverChange | internal/receipt/store.go:361-380 | In any run, crashes included, a linked receipt is what it was unless some crash has lost it altogether; nothing changes it and nothing takes its place while it is there. |
| ReceiptTheorems.CurrentIsFoundOrMissing | internal/receipt/store.go:156-211 | In a safe store the reader finds the indexed receipt or no index, never a mismatch. |
| ReceiptTheorems.DurableIndexSurvives | internal/receipt/store.go:156-211 | Once the directories are durable every crash leaves a sound disk, and a settled index reads the same after it. |
| ReceiptTheorems.PublishedIsCurrent | internal/receipt/store.go:124-211 | A successful Publish, run alone, is what Current returns, also after any crash that does not lose the whole state directory. |
| ReceiptReading.CurrentExactlyWhen | internal/receipt/store.go:156-211 | Current returns a receipt exactly when it is stored under its name and the index names it with its run ID and the digest of its bytes. |
| ReceiptReading.ChangedReceiptIsRefused | internal/receipt/store.go:185-210 | Anything else under the indexed name, a changed receipt or one with another run ID, is refused. |
| ReceiptReading.MissingExactlyWhen | internal/receipt/store.go:156-190 | Current finds none exactly when there is no index, or a well-formed one whose receipt is not there. |
| ReceiptReading.RunIdExactlyWhen | internal/receipt/store.go:37-37 | The pattern of stored run IDs, character by character: up to 256, the first a letter or digit. |
| ReceiptRuns.SafeForeverExactlyWhen | internal/receipt/store.go:333-359 | A safe store is safe in every run that may follow, crashes included, exactly when its state directory and its receipts directory are durable at the start. |
| ReceiptRuns.FreshPublishOrphans | internal/receipt/store.go:124-149 | Otherwise: while the receipts directory may be lost, a fresh Publish stopped between the rename and the sync of the root can be caught by a crash that keeps current.json and loses what it names. |
| ReceiptRuns.FailedPublishExactly | internal/receipt/store.go:382-442 | What Current finds after a failed Publish, run alone, for every combination of working and failing operations: what it found before while the index was not renamed or could be restored; else nothing if the index could be removed; else the receipt that failed. |
| Adoption.Store.Adopt | internal/adopt/adopt.go:140-186 | The operations issued are those of the protocol in its order; it returns the record it adopted with, and a backup conflict means a backup without a record. |
| Adoption.Store.CreateBackup | internal/adopt/adopt.go:356-434 | Opens the inspected file, creates the backup exclusively, copies, syncs file and directory; a file created by somebody else first is told apart. |
| Adoption.Store.PublishRecord | internal/adopt/adopt.go:489-550 | Stages, syncs and links the record without replacing; an existing record is loaded and returned. |
| Adoption.Store.Publish | internal/platform/cachyos/desktop_runtime.go:237-262 | Adopts an existing target before replacing it; the operations are those of the protocol in its order. |
| Adoption.Store.ReplaceAtomically | internal/platform/cachyos/desktop_runtime.go:297-339 | Writes and syncs a candidate, renames it over the target and syncs the directory. |
| AdoptionTheorems.RunIsSafe | internal/adopt/adopt.go:140-186 | The invariant holds after any interleaving of adopters and publishers with any crashes: one owner of an unfinished backup, and every linked record vouches for a durable backup. |
| AdoptionTheorems.OneRecordForAll | internal/adopt/adopt.go:489-550 | At most one record is ever linked, every successful caller gets it, and it gives the digest of the backup on disk. |
| AdoptionTheorems.BackupNeverChanges | internal/adopt/adopt.go:356-434 | A durable backup that is nobody's work in hand is never changed again, crashes included, and no other record is linked. |
| AdoptionTheorems.OriginalIsNeverLost | internal/platform/cachyos/desktop_runtime.go:237-262 | From an existing target without a backup, after any calls and crashes the target is whole and is the original unless the backup durably is. |
| AdoptionTheorems.PublishReplacesTarget | internal/platform/cachyos/desktop_runtime.go:237-262 | A Publish that succeeds alone leaves its file as the durable target and has adopted what was there; a failed one leaves the old or the new file. |
| AdoptionRuns.StrandedBackupRefuses | internal/adopt/adopt.go:161-166 | A durable backup without a record stops every later Adopt and every Publish of the target, in any interleaving with any crashes: no record is returned or linked, the backup stays, the target is nothing it could not have been before. |
| AdoptionRuns.StrandedForeverExactlyWhen | internal/adopt/adopt.go:161-166 | With nothing under way such a backup stays without a record for ever exactly when it is durable; otherwise a crash may lose it and the next Adopt succeeds. |
| AdoptionRuns.RecordIsLostExactlyWhen | internal/adopt/adopt.go:448-550 | A crash can take a record away exactly while it, or the directory of records, is not durable. |
| AdoptionRuns.AdoptedThenRefused | internal/adopt/adopt.go:140-186 | Under a new state root: after an Adopt that has returned its record a crash may lose it, and from then on, whatever happens, no call gets a record and the target stays. |
| AdoptionRuns.RecordCountsExactlyWhen | internal/adopt/adopt.go:275-354 | A record is loaded exactly if it is there, names a receipt and gives the digest of the backup on disk; there is none exactly if it or its directory is absent. |
| AdoptionRuns.DamagedBackupRefuses | internal/adopt/adopt.go:275-354 | With a backup gone or changed no Adopt gets a record and no Publish touches the target, whatever works or fails. |
| AdoptionRuns.TargetIsOldOrPublished | internal/platform/cachyos/desktop_runtime.go:237-262 | From any target or none, in any run and after any crash, the target can only be what it could be at the start or the whole, synced file of some Publish. |
| AdoptionRuns.UnadoptedIsOverwritten | internal/platform/cachyos/desktop_runtime.go:237-262 | Two publishers that find no target: the durable file of the first that succeeded is replaced by the other without a backup. |
| Rollback.CheckSha256 | internal/app/rollback_preconditions.go:171-182 | True exactly for 64 lower-case hexadecimal digits. |
| Rollback.RollbackCommand.PlanInverses | internal/app/command_operations.go:204-222 | The inverses of all files in order, each planned against the files as they are, or the first refusal. |
| Rollback.RollbackCommand.ExecuteInverses | internal/app/command_operations.go:227-234 | Runs the inverses that do something, in order, and stops at the first that fails. |
| Rollback.RollbackCommand.RollbackReceipt | internal/app/command_operations.go:189-240 | Files, published receipts, inverses run and result are those specified; the lock is never left held. |
| RollbackTheorems.SortFilesSorts | internal/app/command_operations.go:202-203 | The files are taken in path order, each as often as it was recorded. |
| RollbackTheorems.PlannedExactlyWhen | internal/app/rollback_preconditions.go:103-167 | A file can be rolled back exactly when it can be observed, path and digests are sound, its recorded ownership is one of four, adopted or created with a backup needs backup and digest, package-owned has neither, and the live file has the recorded digest or was created and is gone. |
| RollbackTheorems.ConflictNamesItsReason | internal/app/rollback_preconditions.go:103-167 | A refusal names the file and a reason that holds of it. |
| RollbackTheorems.PackageBeforeStateBlocksRollback | internal/app/rollback_preconditions.go:145-148 | A receipt with a package-owned file that records a digest from before, or a backup, cannot be rolled back: no file is touched, nothing is published. |
| RollbackTheorems.PlanAllPlansEach | internal/app/command_operations.go:204-222 | Planning succeeds exactly when every file can be rolled back and gives each, by recorded ownership and backup, its inverse: restore the backup, restore from the package, remove, or nothing. |
| RollbackTheorems.NothingRunsUnlessAllIsPlanned | internal/app/command_operations.go:204-226 | If one file is refused or the new receipt has no identity of its own, no file is touched and nothing is published. |
| RollbackTheorems.InversesRunInOrder | internal/app/command_operations.go:227-234 | The inverses before a failed one are achieved; it, those after it and all other paths are as they were. |
| RollbackTheorems.RollbackRestores | internal/app/command_operations.go:189-240 | The first k files in path order are restored, by recorded ownership (adopted files hold their backup, created ones are gone, package-owned ones hold what is shipped), and nothing else is changed; k is all of them exactly when no Execute failed, only then is a receipt published, and its NoChange holds exactly when no inverse ran. |
| RollbackTheorems.SortedPathsStayApart | internal/app/command_operations.go:202-203 | Distinct paths and backups outside them stay so after sorting, so the restoration applies to the receipt as recorded. |
| RollbackTheorems.SuccessRestoresAll | internal/app/command_operations.go:189-240 | A rollback that succeeds has restored every recorded file from the files as they were, and changed no other: adopted and backed-up files hold their backups, created files are gone, package-owned files hold what their package ships. |
| RollbackTheorems.PublishedReceiptIs | internal/app/command_operations.go:289-316 | The receipt of a successful rollback repeats the old one but for identity and times, says rollback, success and of which receipt, and has NoChange exactly when nothing was executed. |
| RollbackTheorems.AdoptedFilesGetTheirDigests | internal/app/rollback_preconditions.go:127-143 | After a rollback that succeeds all adopted files have their recorded digests from before exactly when each recorded backup had that digest before the call. |
| RollbackTheorems.ChangedBackupIsRestored | internal/app/rollback_preconditions.go:127-143 | It does happen: with a backup changed meanwhile the rollback reports success and the adopted file ends at another digest. |
| RollbackTheorems.SecondRollback | internal/app/rollback_preconditions.go:115-143 | Rolled back once more, created files are found gone and left alone; an adopted file is refused when the restored content differs from the recorded after-state. |
| Cosmic.SkipHorizontalSpace | internal/platform/cachyos/vicinae.go:634-639 | The loop stops where the specification does: after the last space, tab or carriage return. |
| Cosmic.SkipCosmicString | internal/platform/cachyos/vicinae.go:641-655 | Finds the position after the closing quote, escapes skipped, or that there is none. |
| Cosmic.ParseQuotedValue | internal/platform/cachyos/vicinae.go:657-667 | Finds the closing quote of a value without escapes, or refuses. |
| Cosmic.ScanAt | internal/platform/cachyos/vicinae.go:575-617 | What the scanner does at one position. |
| Cosmic.ParseLine | internal/platform/cachyos/vicinae.go:573-618 | The fields of a line in order, or the line refused. |
| Cosmic.ParseFields | internal/platform/cachyos/vicinae.go:549-571 | The fields of all lines in order, or the first line refused. |
| Cosmic.RewriteSystemActions | internal/platform/cachyos/vicinae.go:497-523 | The rewritten bytes or the error for bad encoding, a refused line, no field, several fields or another value. |
| Cosmic.LineFieldsLieInside | internal/platform/cachyos/vicinae.go:573-618 | Each field found lies inside its line, behind a quote, with its value between its offsets. |
| CosmicTheorems.AsciiBlockSplits | internal/platform/cachyos/vicinae.go:498-500 | Text around an ASCII block is valid UTF-8 exactly when both sides are. |
| CosmicTheorems.LineInPrefix | internal/platform/cachyos/vicinae.go:573-618 | Scanning a line depends on nothing behind its end. |
| CosmicTheorems.LineMoves | internal/platform/cachyos/vicinae.go:573-618 | Scanning shifted bytes gives the same fields, shifted. |
| CosmicTheorems.FieldsMove | internal/platform/cachyos/vicinae.go:549-571 | Scanning from a later line on depends only on the bytes from there, up to the shift. |
| CosmicTheorems.StepBeforeValue | internal/platform/cachyos/vicinae.go:575-617 | What the scanner does in front of a value does not depend on the value or on the length of the line. |
| CosmicTheorems.LineWithOtherValue | internal/platform/cachyos/vicinae.go:573-618 | Putting another plain value into the one field of a line leaves that one field, with the new value. |
| CosmicTheorems.FieldsWithOtherValue | internal/platform/cachyos/vicinae.go:549-571 | The same for all lines of a file. |
| CosmicTheorems.FieldIsBetweenQuotes | internal/platform/cachyos/vicinae.go:657-667 | The field found stands between quotes and its value has no quote, backslash or newline. |
| CosmicTheorems.RewriteChangesOneValue | internal/platform/cachyos/vicinae.go:497-523 | An accepted input keeps every byte outside the one value, stays UTF-8, and read again has exactly one Launcher field with the desired value. |
| CosmicTheorems.RewriteIsIdempotent | internal/platform/cachyos/vicinae.go:494-523 | Rewriting what was rewritten changes nothing. |
| CosmicActive.LineExactly | internal/platform/cachyos/vicinae.go:573-667 | A line is refused exactly when a string in it stays open or an active Launcher with a colon has no proper value; else its fields are exactly those active ones, in order. Strings, escapes, comments and identifier bytes are given byte by byte. |
| CosmicActive.FieldsExactly | internal/platform/cachyos/vicinae.go:549-571 | The same for a file and its lines. |
| CosmicActive.RewriteExactlyWhen | internal/platform/cachyos/vicinae.go:497-523 | Which files are accepted, what becomes of them, and which error each other file gets, in bytes: exactly one active field, with the stock or the desired value. |
| CosmicActive.CommentLineIsInert | internal/platform/cachyos/vicinae.go:577-580 | A comment line in front of any file changes neither whether it is accepted nor what becomes of the rest. |
| Utf8.Utf8ExactlyWhen | internal/platform/cachyos/vicinae.go:498-500 | The check passes exactly the bytes that encode Unicode scalar values by RFC 3629, section 3. |
| Marker.FoundOnce | internal/platform/cachyos/devtools.go:182-186 | A marker on a line of its own in text that has no other is found there and counted once. |
| Marker.BlockIsFound | internal/platform/cachyos/devtools.go:182-193 | In what was written for marker-free text the block is found and the rest is that text. |
| Marker.WrittenIsReadBack | internal/platform/cachyos/devtools.go:177-199 | Upserting into what was written for a marker-free rest gives what would be written for that rest directly. |
| Marker.UpsertAbsorbs | internal/platform/cachyos/devtools.go:177-199 | For marker-free text and body a later upsert absorbs an earlier one. |
| Marker.TextBeforeSurvives | internal/platform/cachyos/devtools.go:190-198 | The text in front of the block survives up to trailing newlines, unless all the text outside is blank. |
| Marker.FusedMarkerIsRefused | internal/platform/cachyos/devtools.go:182-193 | When joining the text around the block makes up a marker, the next upsert refuses the file. |
| Marker.FixedPointExactlyWhen | internal/platform/cachyos/devtools.go:177-199 | For every accepted file the output is a fixed point exactly when the joined text outside the block has no marker; otherwise it is refused from then on. |
| Marker.TornMarkerIsFused | internal/platform/cachyos/devtools.go:182-193 | It does happen: either marker torn apart by a block, anywhere, is put together when the block is taken out; the file is read and upserted without error, and every upsert after that refuses it. |
| Marker.BlockLastIsFixed | internal/platform/cachyos/devtools.go:190-199 | With nothing but newlines behind the block the output is a fixed point. |
| Marker.LinesAreFused | internal/platform/cachyos/devtools.go:190-193 | Text behind the block is joined to the line in front of it. |
| MarkerText.RefusedExactlyWhen | internal/platform/cachyos/devtools.go:182-189 | A file is refused as duplicate exactly when a marker stands in it twice, and accepted exactly when it has neither marker or each once, the opening one first. |
| MarkerText.OutsideExactlyWhen | internal/platform/cachyos/devtools.go:186-193 | What is taken as outside: all of the text, or what stands in front of the block and behind it without the newlines next to it. |
| MarkerText.UpsertWrites | internal/platform/cachyos/devtools.go:194-198 | What is written for it, character by character: the text without its last newlines, an empty line, and the block with the body stripped of white space; the block alone where all is white space. |
| Porcelain.Cut | internal/gitx/checkout.go:228-233 | Splits off the bytes before the first NUL; what is left is shorter. |
| Porcelain.ParseStatusPorcelain | internal/gitx/checkout.go:280-324 | The counts are the tally of the status records, an old path being skipped after a renamed or copied one; the loop ends on any bytes. |
| Porcelain.CountOne | internal/gitx/checkout.go:300-321 | Adds one entry and one count to the class of the two letters. |
| Porcelain.ClassIsByLetters | internal/gitx/checkout.go:300-321 | Which letters give which of the nine classes. |
| Porcelain.EntriesAreTheSum | internal/gitx/checkout.go:300-321 | Entries is the number of records and the sum of the nine classes, on any bytes. |
| Porcelain.ParseStatusPaths | internal/gitx/checkout.go:190-214 | The set of new paths and of old paths behind R or C; the loop ends on any bytes. |
| Porcelain.ParseNulPaths | internal/gitx/checkout.go:216-226 | The set of nonempty records. |
| Porcelain.ReadersUndoThePrinter | internal/gitx/checkout.go:190-324 | On any printed list of git status entries one reader takes each entry once and the other finds exactly the new and old paths. |
| Porcelain.ReadersAgreeOnRecord | internal/gitx/checkout.go:200-317 | The readers agree on whether an old path follows exactly when the letters do not mix U with R or C. |
| Porcelain.ReadersAgreeExactlyWhen | internal/gitx/checkout.go:190-324 | On any bytes both readers take the same records at the same places of the stream exactly when no record that mixes U with R or C is directly followed by another status record. |
| Porcelain.PlacesHoldRecords | internal/gitx/checkout.go:190-324 | The records at those places are the ones each reader takes. |
| Porcelain.EqualRecordsAtOtherPlaces | internal/gitx/checkout.go:190-324 | Why places: reading different parts of a stream the two can come upon equal records by chance. |
| Porcelain.ReadersDisagree | internal/gitx/checkout.go:190-324 | One such stream: the record after the mixed one is an entry to one reader and a path to the other. |
| Porcelain.PathsOverlap | internal/gitx/checkout.go:235-244 | True exactly when some pair overlaps. |
| Porcelain.OverlapIsByComponents | internal/gitx/checkout.go:246-250 | Two paths overlap exactly when the components of one begin with those of the other. |
| Catalog.MergeTable | internal/catalog/merge.go:116-264 | One stated map laid over the inherited one: complete entries replace, faulty ones are reported in name order, a nil map is an issue and an empty one deletes nothing. |
| Catalog.MergePins | internal/catalog/merge.go:87-110 | Merges the five sources of a stated pins object and reports their issues in turn. |
| Catalog.MergeDocument | internal/catalog/merge.go:20-76 | One document over what is merged, and its issues. |
| Catalog.MergeDocuments | internal/catalog/merge.go:13-85 | The merge of all documents in order, or all issues of all documents, sorted. |
| Catalog.LoadRoles | internal/catalog/repository.go:84-101 | The role layers in declared order, or the first role that is repeated, unknown or no role layer. |
| Catalog.Resolve | internal/catalog/repository.go:65-119 | The policy or the first error, in the order the source checks. |
| CatalogTheorems.LastIsLast | internal/catalog/merge.go:54-66 | A list field is omitted exactly when no layer states it, and otherwise the one of the last layer that does. |
| CatalogTheorems.OverlayIsLastWriter | internal/catalog/merge.go:46-53 | A map is nil exactly when no layer states it; each key has the value of the last layer with that key. |
| CatalogTheorems.MergeIsLastWriterWins | internal/catalog/merge.go:13-267 | Every field of the merged catalog, version and kind included, is the last stated one or the overlay of the stated maps, for all layers and sources. |
| CatalogTheorems.SoundLayerIsComplete | internal/catalog/merge.go:116-264 | In a layer without issues the version is 1, the kind known, and every pin it states is kept. |
| CatalogTheorems.StatedKeepsEveryKey | internal/catalog/merge.go:116-264 | A map without issues loses no key on the way. |
| CatalogTheorems.MergeFailsExactlyWhen | internal/catalog/merge.go:78-84 | A merge is refused exactly when one of its layers, by itself, is at fault. |
| CatalogTheorems.IssuesAreCanonical | internal/catalog/merge.go:293-300 | The reported issues are all there are, in an order that does not depend on how they were found. |
| CatalogTheorems.RoleLayersFollowTheHost | internal/catalog/repository.go:84-101 | Roles load exactly when they are declared once each and are sound role layers, in the declared order. |
| CatalogTheorems.HostHasTheLastWord | internal/catalog/repository.go:65-119 | A policy is global, roles in declared order, host; the host's keys win, and roles and risk authority are the host's alone. |
| CatalogPins.MergedPinsAreLastStated | internal/catalog/merge.go:87-264 | A pin of the merged catalog is, field by field, what the last document with its name states, for all six kinds of pins. |
| CatalogPins.DocumentIsSoundExactlyWhen | internal/catalog/merge.go:20-264 | A document gives no issue exactly when its version is 1, its kind known, no map nil and no entry lacks a field, or, of a checkout, has an empty one. |
| CatalogPins.ResolvesExactlyWhen | internal/catalog/repository.go:65-140 | A host resolves exactly when it exists, it and its layers are sound and of their kinds, roles are named once each, only the host states roles or risk, and the merged catalog is valid. |
| MergeValues.FindRepeated | internal/catalog/merge_values.go:114-145 | The first ID that repeats an earlier one. |
| MergeValues.RepeatedIsDuplicate | internal/catalog/merge_values.go:114-145 | There is none exactly when the IDs are distinct, and the one reported does occur twice. |
| MergeValues.RepeatedIsFirst | internal/catalog/merge_values.go:114-145 | The ID reported is the one that repeats where all before it are distinct. |
| MergeValues.ReplaceCompleteDefinitions | internal/catalog/merge_values.go:86-112 | Succeeds exactly when both inputs have distinct IDs, names the first repeated input ID otherwise, and its check of the result never fires. |
| MergeValues.ReplacedIsOverlay | internal/catalog/merge_values.go:86-112 | The list form of the overlay: replaced IDs keep their place, others their value, behind them come exactly the new ones in their order, none is there twice. |
| MergeValues.ApplyListPatch | internal/catalog/merge_values.go:47-83 | Replace, then remove, then add, or the first duplicate of the inputs or of the result. |
| MergeValues.InputsAreSoundExactlyWhen | internal/catalog/merge_values.go:47-60 | The inputs of a patch are sound exactly when base, replacement, removed and added IDs are each distinct. |
| MergeValues.PatchedInOrder | internal/catalog/merge_values.go:62-83 | The result is what is kept of the base, or of its replacement, in its order, then the added values in theirs. |
| MergeValues.PatchFailsExactlyWhen | internal/catalog/merge_values.go:47-83 | With sound inputs a patch fails exactly when it adds an ID that is there and not removed; otherwise the result holds what was kept and what was added. |
| Check.IndexBy | internal/app/check.go:809-883 | Index and duplicates together tell what was observed exactly once under a name. |
| Check.SortedUnique | internal/app/check.go:995-1009 | The members of the list in order, each once. |
| Check.Evaluate | internal/app/check.go:488-605 | The findings of one kind of inventory, name by name in order. |
| Check.EvaluateFiles | internal/app/check.go:471-486 | The findings of the managed files in the order they are listed. |
| Check.EvaluateUnits | internal/app/check.go:607-618 | One finding for each failed unit observed. |
| Check.EvaluatePacnew | internal/app/check.go:643-654 | One warning for each path observed. |
| Check.Finalize | internal/app/check.go:793-803 | Findings sorted by key, warnings sorted and each once, drift exactly when there is a finding. |
| Check.EvaluateCheck | internal/app/check.go:403-469 | The report of a request and a snapshot. |
| Check.ReportUnavailable | internal/app/check.go:677-713 | The report when there is no snapshot. |
| Check.RunCheck | internal/app/check.go:385-398 | The report of the snapshot, or the fail-closed one without an observer or after its failure. |
| CheckTheorems.FileIsFineExactlyWhen | internal/app/check.go:410-454 | A managed file gives no finding exactly when it was observed once, safely, owned, with the desired hash and any recorded after-hash. |
| CheckTheorems.KindIsFineExactlyWhen | internal/app/check.go:488-641 | For any inventory, names repeated or not, a kind gives no finding exactly when for each name the first entry is satisfied by what was observed once under it. |
| CheckTheorems.NoDriftExactlyWhen | internal/app/check.go:456-654 | For any request: a report shows no drift exactly when every managed file matches, the first entry under every inventoried name is satisfied and no unit failed. |
| CheckTheorems.FailClosedExactlyWhen | internal/app/check.go:677-713 | After a failed observation the report drifts unless nothing but the fingerprint was to be checked. |
| CheckTheorems.KeyDetermines | internal/app/check.go:805-807 | On fields without NUL the sort key determines the finding. |
| CheckTheorems.ReportIgnoresOrder | internal/app/check.go:793-1009 | With names inventoried once and no NUL in names, paths and backups, the report does not depend on the order of any list. |
| CheckFindings.FileFindingIs | internal/app/check.go:410-486 | Which finding, code and category a managed file gives, in terms of what was observed, recorded and desired; at most one. |
| CheckFindings.FileReported | internal/app/check.go:471-486 | The report holds exactly the findings of the managed files. |
| CheckFindings.ValidatorReported | internal/app/check.go:488-505 | When a validator is reported unknown and when failed. |
| CheckFindings.PackageReported | internal/app/check.go:507-534 | When a package is reported unknown, missing or in another version. |
| CheckFindings.ServiceReported | internal/app/check.go:536-562 | When a service is reported unknown or not in the required state. |
| CheckFindings.BootReported | internal/app/check.go:564-605 | When a boot configuration is reported unknown or drifted. |
| CheckFindings.PamReported | internal/app/check.go:564-605 | The same for PAM. |
| CheckFindings.UnitReported | internal/app/check.go:607-618 | A failed unit is reported exactly when observed, one without a name as unknown. |
| CheckFindings.IntegrityReported | internal/app/check.go:620-641 | When a package manager check is reported unknown or at fault. |
| CheckFindings.ReportedByKind | internal/app/check.go:456-469 | A finding is in the report exactly when it is one of its kind; kinds do not mix. |
| CheckFindings.WarningIs | internal/app/check.go:643-675 | Which warnings a report holds, and that they stand in order. |
| CheckFindings.FindingsStandInOrder | internal/app/check.go:793-807 | A report lists its findings by kind, then path, subject, category, code and backup: no later one is less than an earlier one in the first field in which they differ. |
| CheckFindings.UnavailableReported | internal/app/check.go:677-713 | After a failed observation: everything to be checked is reported unknown, or, where nothing was, the observer. |
| CheckInventories.PackagesMatchExactlyWhen | internal/app/check.go:507-534 | That no finding about packages means every item was met, for every observation, holds exactly when each entry has no version or the version of the first entry with its name. |
| CheckInventories.ServicesMatchExactlyWhen | internal/app/check.go:536-562 | The same for services: exactly when the first entry under a name requires the states the others require. |
| CheckInventories.ConfigsMatchExactlyWhen | internal/app/check.go:564-605 | The same for boot and PAM configurations: exactly when entries under one name desire one hash, or a first entry desires none and is never in order. |
| CheckInventories.NoDriftMeansItemsMatch | internal/app/check.go:456-641 | With no drift, validators passed, package manager integrity passed or was clean, files match and no unit failed; packages, services and configurations are as inventoried where first entries ask for what the others ask for. |
| CheckInventories.ItemsMatchExactlyWhen | internal/app/check.go:456-641 | For a request that can be without drift: no drift always means that every inventoried item was observed as it should be, exactly when first entries ask for what the others ask for. |
| CheckInventories.SecondEntryIsNotChecked | internal/app/check.go:968-975 | One inventory for which it does not: a package named twice is checked against its first entry only. |
| Sorting.SortBySorts | internal/app/check.go:793-795 | Stable sorting by a consistent order puts in order and loses nothing. |
| Sorting.SortIgnoresOrder | internal/app/check.go:793-795 | Where the order tells all elements apart the result does not depend on the order they came in. |

## Left out

- System calls, file modes, ownership, `openat2`, locks across processes and command execution: operations
  of a modelled disk succeed or fail; a failed one has changed nothing, except a copy that broke off.
- Temporary file names: each staged file has a name of its own that nobody else uses.
- SHA-256: taken as injective; in `Rollback` it is any function from content to text.
- Text that is not valid UTF-8 in the planner, digest, marker and catalog: Go strings are sequences of
  Unicode scalar values there; the COSMIC scanner works on bytes.
- Clones are values: aliasing of slices and maps is not modelled.
- Executor.Executor.Execute: contexts and cancellation are not modelled; the ports decide what they do.
- Executor.Executor.Take: the wrapped causes of errors are kept as messages, without the error chains.
- ReceiptStore.Store.Publish: of the receipt schema only that the run ID is not empty; the receipt's name is
  any name, so two receipts may collide on it. Files that are not receipts and unsafe modes read as unsound.
- Adoption.Store.Adopt: one target file; its mode and owner and those of the backup are not compared, and
  writers other than adopters and publishers are not modelled. The state root and its directory of records
  are one entry. In the code the calls run one at a time; interleavings are those of the state machine.
- Rollback.RollbackCommand.RollbackReceipt: Execute removes, copies the backup or restores what the package
  ships, and changes nothing when it fails; the source only declares this port. Files with one path keep
  their recorded order, which `sort.Slice` does not promise. Rolling back to a tag is not modelled.
- RollbackTheorems.SuccessRestoresAll: for receipts whose paths are distinct and whose backups are no
  recorded paths.
- Catalog.MergeTable: the six mergers of the source are one generic method over how an entry is read.
- Catalog.Resolve: validation of the merged catalog against its assets is a parameter; decoding documents is
  not modelled.
- Check.Evaluate: statuses, file states, alternative hash fields, names, backups and requirement flags come
  normalised; the spellings the source accepts for them are not modelled. Six evaluators are one method.
- Porcelain.ParseStatusPorcelain: a byte is any character.
- Network groups, host names, profile suggestions, request builders, sensitive-text filters, git worktree
  commands, command-line parsing and rendering: plumbing or easy members.
