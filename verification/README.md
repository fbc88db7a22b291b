# Models and proofs for the hard parts of the workbench

These Dafny modules model six parts of the repository and prove what they keep over all inputs, all runs and all interleavings.

## What is modelled

**The execution lifecycle.** `ExecutionDomain` has the record, its events and the calls. `PostgresStore` and `MemoryStore` hold the two stores twice: as functions from one state to the next, and as classes whose methods are proved to do what the functions say. `ExecutionLog` is about what the event log tells of a record, `StoreEquivalence` about the two stores as one. `ExecutionProcessor` puts any number of `process()` runs, their handlers, monitors and aborts, failing store calls and cancelling clients on one record, one store call a step; `ExecutionService` does the same for concurrent `create` calls, and `EventStream` for one event stream polling a record while the lifecycle goes on.

Assumed: a Postgres operation is one atomic step; lease tokens and ids are fresh; the event counter starts at 0 and the idempotency key is unique in the table, whose definition is not part of this model; nothing but the operations modelled writes the tables.

**The research-protocol versions.** `ResearchProtocol` has the recorded changes, their replay and the store. `ProtocolCalls` interleaves create, revise, branch, promote, snapshot and export calls at every store access, and walks lineages while the store grows.

**The extension collector.** `ExtensionCollector` is the depth-first search with its visited set, its saved and restored parent and its post-order list, over any graph.

**The localization pipeline.** `Localization` is the mutable tree of objects: a ghost map says which object stands at which path, and every write is proved to change the tree at and below one path only. `LocalizationManager` merges a target tree with its source, keeps a request for each text to translate and later writes the translations through those requests; `DeeplApi` is the chunking between, `IgnoreTags` the escaping around it. `LocalizationExtractor` inserts keys into such a tree.

**Shell quoting.** `ApplicationProcess` builds the command line, and reads it by sections 2.2.1, 2.2.2 and 2.3 of the POSIX.1-2017 Shell Command Language.

**The OVSX client.** `OvsxApiFilter` is the search through growing pages, `OvsxRouterClient` the round-robin merge.

## What the code does not keep

- A client cancel of a running record after which the run still attempts its outcome write, meeting no store error, leaves the record cancelling under the run's token once the run has exited, and then nothing ever changes it. This is the only way a run that met no store error keeps its token (`ExitReleases`, `CancellingForever`, `CancelCanStrand`).
- A stream that ends can have missed the last events, the terminal one included (`EndsComplete`, `LastEventCanBeLost`).
- The stores make the move from running to queued, which `canTransitionExecution` does not list; that function allows queued to cancelling and cancelling to failed, which no store makes (`MovesCompared`, `EveryMoveIsMade`, `EveryCallFollows`).
- Collecting throws exactly for a root without `dependencies` whose peer dependencies include an extension package (`Collect`, `CollectCanThrow`).
- `dependent` throws for a listed package that is not among the root's dependencies when a peer entry of the root names it and no earlier entry leads to it. When an earlier entry does lead to it, it has a dependent (`DependentIsDirect`, `DependentCanThrow`, `LeadsToPeerFirst`).
- In the in-memory store the log tells the wrong status after a retry exactly when the record is not queued as the second append runs. Calls in between that neither claim nor cancel leave it queued; the first that does either does not, though the claimant's own retry can put it back (`RetryInterrupted`, `HarmlessCalls`, `FirstDisturbance`, `ClaimAndRetryBetween`).
- The paged search chooses its rule by the first entry of each page. It finds what a scan of the list finds, whatever the version tests say, exactly when those first entries are all builtin or all not (`SearchIsScanExactly`, `MixedListDiffers`).
- Two revisions of one protocol that both list before either is stored get the same number; one that lists later never does (`ListingTogether`, `RevisionsDiffer`).
- A source text whose key is an object in the target leaves that object, with everything in it, where it is, unless the key is forced (`KeysMatchExactly`, `ConflictStays`).

## Model

| member | source | states |
|---|---|---|
| `ExecutionProcessor.InvariantHolds` | packages/ivory-tower-worker/src/execution-processor.ts:25-86 | after every history of runs, store failures, aborts, handler reports, monitor reads and client cancels, each run and the record stand in one of the allowed relations |
| `ExecutionProcessor.OutcomeIsFinal` | packages/ivory-tower-infrastructure/src/postgres-execution-store.ts:298-329 | once the record is terminal, neither it nor its log ever changes again, whoever acts: at most one outcome is written |
| `ExecutionProcessor.OnlyStoreMoves` | packages/ivory-tower-infrastructure/src/postgres-execution-store.ts:205-329 | in every step of every history the status stays or makes one of the eight store moves, and a token is held exactly while running or cancelling |
| `ExecutionProcessor.TokenHeldOnce` | packages/ivory-tower-infrastructure/src/postgres-execution-store.ts:205-329 | a token held at two moments is held at every moment between, and no other is held at such a moment: the holding intervals are contiguous and disjoint |
| `ExecutionProcessor.ExitReleases` | packages/ivory-tower-worker/src/execution-processor.ts:28-86 | a run that won its claim and met no store error has, when it has exited, released its token if and only if no client cancel of the running record came before its outcome write, whatever the store answered to that write; otherwise the cancel fell after its last status check, the write was refused and the record is cancelling under its token |
| `ExecutionProcessor.ObservationsTrue` | packages/ivory-tower-worker/src/execution-processor.ts:53-91 | the recorded moments of the last status check, of refused writes and of client cancels are those of the history, so the statement above is about the history itself |
| `ExecutionProcessor.CancellingForever` | packages/ivory-tower-worker/src/execution-processor.ts:78-86 | a record left cancelling by an exited run never changes again, whatever other runs and clients do |
| `ExecutionProcessor.CancelCanStrand` | packages/ivory-tower-worker/src/execution-processor.ts:56-65 | for every new record a history exists that leaves it so: a cancel after the check and before complete |
| `ExecutionProcessor.WriteRefusedOnlyWhenCancelling` | packages/ivory-tower-worker/src/execution-processor.ts:63-83 | a run that holds its claim and met no store error has its complete, fail or retry refused if and only if the record is cancelling |
| `ExecutionProcessor.EveryCallFollows` | packages/ivory-tower-infrastructure/src/postgres-execution-store.ts:205-329 | what any store call can do to status and lease, and what it then answers, for every caller and token |
| `ExecutionProcessor.EveryMoveIsMade` | packages/ivory-tower-infrastructure/src/postgres-execution-store.ts:205-329 | each of the eight store moves is made by some call |
| `ExecutionProcessor.RunKept` | packages/ivory-tower-worker/src/execution-processor.ts:25-124 | every run, acting or bystander, keeps its relation to the record under every action of anyone |
| `ExecutionProcessor.Starts` | packages/ivory-tower-worker/src/execution-processor.ts:25-27 | a run begins under a fresh token, about to claim |
| `ExecutionProcessor.ClaimOutcome` | packages/ivory-tower-worker/src/execution-processor.ts:28-30 | a queued execution is claimed under the token and until-time of the run, with one more attempt; any other is left and the run ends |
| `ExecutionProcessor.BeforeHandling` | packages/ivory-tower-worker/src/execution-processor.ts:31-46 | an aborted or cancelling run cancels, one without a handler fails for good, any other starts its handler and leaves the record |
| `ExecutionProcessor.ReturnOutcome` | packages/ivory-tower-worker/src/execution-processor.ts:50-63 | after the handler has returned, the record succeeds with exactly that result, unless the run was told to stop or the record is cancelling; then it is cancelled |
| `ExecutionProcessor.ThrowOutcome` | packages/ivory-tower-worker/src/execution-processor.ts:64-82 | after the handler has thrown, unless so: the record fails with that failure if and only if the error says it is not retryable, and is otherwise queued again with it, the lease gone |
| `ExecutionProcessor.CatchOutcome` | packages/ivory-tower-worker/src/execution-processor.ts:65-82 | the same from the status check of the catch block on |
| `ExecutionProcessor.StoreErrorOutcome` | packages/ivory-tower-worker/src/execution-processor.ts:49-86 | a store call that throws without effect ends the run as a handler error would when it is in the try block, and at once elsewhere |
| `ExecutionProcessor.CommittedOutcomeStands` | packages/ivory-tower-worker/src/execution-processor.ts:63-82 | a result that was written although the call threw stands |
| `ExecutionProcessor.SignalStops` | packages/ivory-tower-worker/src/execution-processor.ts:46-48 | the signal of the worker reaches the running handler |
| `ExecutionProcessor.MonitorStops` | packages/ivory-tower-worker/src/execution-processor.ts:92-118 | the monitor stops the handler when it reads a cancelling status, and only then |
| `ExecutionProcessor.ReportStores` | packages/ivory-tower-worker/src/execution-processor.ts:53-57 | a progress report of the running holder is stored and logged with its payload, and refused while cancelling |
| `ExecutionDomain.MovesCompared` | packages/ivory-tower-domain/src/execution.ts:46-64 | the stores move running to queued, which the transition table lacks, and never make two moves the table allows |
| `PostgresStore.PostgresExecutionStore.CreateAndEnqueue` | packages/ivory-tower-infrastructure/src/postgres-execution-store.ts:108-135 | inserts record, first event and job together, or throws and changes nothing when the id or the key is taken |
| `PostgresStore.PostgresExecutionStore.FindByIdempotencyKey` | packages/ivory-tower-infrastructure/src/postgres-execution-store.ts:137-140 | the record with the key, if there is one |
| `PostgresStore.PostgresExecutionStore.MarkRunning` | packages/ivory-tower-infrastructure/src/postgres-execution-store.ts:205-220 | claims a queued record: status, token, attempt and event, or nothing |
| `PostgresStore.PostgresExecutionStore.UpdateProgress` | packages/ivory-tower-infrastructure/src/postgres-execution-store.ts:222-235 | clamps the stored progress and logs the payload, only for the running holder of the token |
| `PostgresStore.PostgresExecutionStore.Complete` | packages/ivory-tower-infrastructure/src/postgres-execution-store.ts:237-239 | succeeds for the running holder alone |
| `PostgresStore.PostgresExecutionStore.Fail` | packages/ivory-tower-infrastructure/src/postgres-execution-store.ts:241-243 | fails for the running holder alone |
| `PostgresStore.PostgresExecutionStore.Finish` | packages/ivory-tower-infrastructure/src/postgres-execution-store.ts:298-329 | writes the outcome and its event and frees the lease, for the running holder alone |
| `PostgresStore.PostgresExecutionStore.Retry` | packages/ivory-tower-infrastructure/src/postgres-execution-store.ts:245-259 | releases a running record to the queue with two events, status last |
| `PostgresStore.PostgresExecutionStore.CancelRunning` | packages/ivory-tower-infrastructure/src/postgres-execution-store.ts:261-274 | cancels for the holder of the token, running or cancelling |
| `PostgresStore.PostgresExecutionStore.Cancel` | packages/ivory-tower-infrastructure/src/postgres-execution-store.ts:276-296 | cancels a queued record, marks a running one cancelling, returns any other unchanged |
| `PostgresStore.PostgresExecutionStore.AppendEventWithClient` | packages/ivory-tower-infrastructure/src/postgres-execution-store.ts:331-352 | appends the event under the next number of that execution and touches nothing else |
| `PostgresStore.PostgresExecutionStore.Get` | packages/ivory-tower-infrastructure/src/postgres-execution-store.ts:185-188 | the record with the id |
| `PostgresStore.PostgresExecutionStore.ListEvents` | packages/ivory-tower-infrastructure/src/postgres-execution-store.ts:190-196 | the events numbered above the given one, in order |
| `PostgresStore.StepFacts` | packages/ivory-tower-infrastructure/src/postgres-execution-store.ts:205-329 | no lifecycle call changes id, key, kind or job of any execution, and a refused call changes nothing |
| `PostgresStore.UniqueAfterInsert` | packages/ivory-tower-infrastructure/src/postgres-execution-store.ts:108-135 | inserting keeps idempotency keys unique |
| `MemoryStore.InMemoryExecutionStore.CreateAndEnqueue` | packages/ivory-tower-infrastructure/src/in-memory-execution-store.ts:15-26 | stores record, key and first event together, or throws and changes nothing |
| `MemoryStore.InMemoryExecutionStore.FindByIdempotencyKey` | packages/ivory-tower-infrastructure/src/in-memory-execution-store.ts:28-32 | the record that the key maps to |
| `MemoryStore.InMemoryExecutionStore.AppendEvent` | packages/ivory-tower-infrastructure/src/in-memory-execution-store.ts:43-56 | the list of the execution stays numbered from 1 without gap, with the new event last, and no other list changes |
| `MemoryStore.InMemoryExecutionStore.MarkRunning` | packages/ivory-tower-infrastructure/src/in-memory-execution-store.ts:58-68 | claims a queued record without counting the attempt |
| `MemoryStore.InMemoryExecutionStore.UpdateProgress` | packages/ivory-tower-infrastructure/src/in-memory-execution-store.ts:70-79 | stores and logs the clamped progress, only for the running holder |
| `MemoryStore.InMemoryExecutionStore.Complete` | packages/ivory-tower-infrastructure/src/in-memory-execution-store.ts:81-83 | succeeds for the running holder alone |
| `MemoryStore.InMemoryExecutionStore.Fail` | packages/ivory-tower-infrastructure/src/in-memory-execution-store.ts:85-87 | fails for the running holder alone |
| `MemoryStore.InMemoryExecutionStore.Finish` | packages/ivory-tower-infrastructure/src/in-memory-execution-store.ts:138-163 | writes the outcome and its event and frees the lease, for the running holder alone |
| `MemoryStore.InMemoryExecutionStore.Retry` | packages/ivory-tower-infrastructure/src/in-memory-execution-store.ts:89-106 | releases a running record to the queue with two events |
| `MemoryStore.InMemoryExecutionStore.CancelRunning` | packages/ivory-tower-infrastructure/src/in-memory-execution-store.ts:108-123 | cancels for the holder of the token |
| `MemoryStore.InMemoryExecutionStore.Cancel` | packages/ivory-tower-infrastructure/src/in-memory-execution-store.ts:125-136 | cancels a queued record, marks a running one cancelling, throws for a cancelling one |
| `MemoryStore.InMemoryExecutionStore.Get` | packages/ivory-tower-infrastructure/src/in-memory-execution-store.ts:34-37 | the record with the id |
| `MemoryStore.InMemoryExecutionStore.ListEvents` | packages/ivory-tower-infrastructure/src/in-memory-execution-store.ts:39-41 | the events numbered above the given one, in order |
| `StoreEquivalence.StoresSimulate` | packages/ivory-tower-infrastructure/src/in-memory-execution-store.ts:15-163 | after every sequence of lifecycle operations the two stores hold the same records but for the attempt, and the same numbered events but for default progress payloads |
| `StoreEquivalence.RepliesAgree` | packages/ivory-tower-infrastructure/src/in-memory-execution-store.ts:58-163 | every operation of every sequence answers alike in both, except exactly the cancel of a cancelling record, where one throws, the other returns the record and neither changes |
| `StoreEquivalence.CallAgrees` | packages/ivory-tower-infrastructure/src/in-memory-execution-store.ts:58-163 | one call on simulated executions keeps them simulated |
| `StoreEquivalence.ProgressStored` | packages/ivory-tower-infrastructure/src/postgres-execution-store.ts:222-235 | both stores store the value in 0..1 nearest to the reported one and log the payload; without one Postgres logs the value as reported, the in-memory store as stored |
| `StoreEquivalence.MemoryIsLogged` | packages/ivory-tower-infrastructure/src/in-memory-execution-store.ts:43-163 | the in-memory log tells the status and balances too, and its attempt stays 0 |
| `StoreEquivalence.RetryInterrupted` | packages/ivory-tower-infrastructure/src/in-memory-execution-store.ts:95-105 | whatever calls run between the two appends of a retry, the in-memory log tells the status afterwards if and only if the record is queued as the second append runs |
| `StoreEquivalence.HarmlessCalls` | packages/ivory-tower-infrastructure/src/in-memory-execution-store.ts:58-136 | calls between the appends that neither claim nor cancel leave the record queued and free |
| `StoreEquivalence.FirstDisturbance` | packages/ivory-tower-infrastructure/src/in-memory-execution-store.ts:58-136 | after such calls, one more call leaves it queued if and only if it neither claims nor cancels |
| `StoreEquivalence.ClaimAndRetryBetween` | packages/ivory-tower-infrastructure/src/in-memory-execution-store.ts:58-106 | a claim and its own retry between the appends leave the record queued |
| `ExecutionLog.EveryStateIsLogged` | packages/ivory-tower-infrastructure/src/postgres-execution-store.ts:205-352 | in every state the lifecycle reaches, each log is numbered 1..n, folds to the stored status, has the balance of queued and running events that the status calls for, and counts the attempts |
| `ExecutionLog.StepKeepsLog` | packages/ivory-tower-infrastructure/src/postgres-execution-store.ts:205-329 | every single call keeps that |
| `ExecutionService.InvariantHolds` | packages/ivory-tower-application/src/execution-service.ts:20-62 | what each interleaved create call may rely on at each of its stages holds after every history, with ambiguous insert failures and the rest of the lifecycle beside it |
| `ExecutionService.KeyIsForever` | packages/ivory-tower-application/src/execution-service.ts:20-62 | a key that belongs to an execution belongs to that one alone in every later state, with the same kind |
| `ExecutionService.OneExecutionPerKey` | packages/ivory-tower-application/src/execution-service.ts:20-62 | all calls returning for a key return the same id and the kind of the call that inserted; at most that one says it is not a replay |
| `ExecutionService.AsManyJobsAsRecords` | packages/ivory-tower-infrastructure/src/postgres-execution-store.ts:108-135 | after every history there are as many jobs as records |
| `ExecutionService.CreateAnswers` | packages/ivory-tower-application/src/execution-service.ts:20-54 | from every reachable state, a call alone with a usable key not stored ends with a new queued record of the kind and version asked for, one event and one job with its id, kind, input and job key; with a stored key, with that record as a replay |
| `ExecutionService.BlankKeyThrows` | packages/ivory-tower-application/src/execution-service.ts:21-23 | a key of white space throws and stores nothing |
| `ExecutionService.SpaceCodes` | packages/ivory-tower-application/src/execution-service.ts:21 | white space by code point |
| `ExecutionService.OvertakenReplays` | packages/ivory-tower-application/src/execution-service.ts:53-58 | a call whose key was stored by another before its insert ends with that record as a replay |
| `ExecutionService.InsertErrorAnswers` | packages/ivory-tower-application/src/execution-service.ts:53-61 | after an insert that threw, the call ends with the record that has the key, its own if the insert took effect, and throws when there is none |
| `ExecutionService.FindErrorThrows` | packages/ivory-tower-application/src/execution-service.ts:24-27 | a lookup that throws ends the call and stores nothing |
| `EventStream.WritesContiguously` | packages/ivory-tower-api/src/api-server.ts:299-311 | what a stream has written is events after+1, after+2, ... of the growing log, without gap or repeat |
| `EventStream.WritesWanted` | packages/ivory-tower-api/src/api-server.ts:299-311 | only events above the number of the client are written, each as the log has it and one after the other; all, for no number or a negative one |
| `EventStream.WantedAreWritten` | packages/ivory-tower-api/src/api-server.ts:307-311 | when a poll has written what it listed, every event of the listed log above that number has been written |
| `EventStream.PollDelivers` | packages/ivory-tower-api/src/api-server.ts:301-322 | an undisturbed poll delivers all that is new, and ends the stream if and only if there was nothing and the record is terminal |
| `EventStream.PollErrorGoesOn` | packages/ivory-tower-api/src/api-server.ts:319-325 | a poll that throws is followed by another unless the response is destroyed |
| `EventStream.EndsComplete` | packages/ivory-tower-api/src/api-server.ts:312-318 | an ended stream has a terminal record and wrote the log up to its last listing; it wrote everything if and only if the log did not grow past the start between that listing and the record read |
| `EventStream.EndedStays` | packages/ivory-tower-api/src/api-server.ts:303-318 | after the end nothing is written and the log no longer changes |
| `EventStream.LastEventCanBeLost` | packages/ivory-tower-api/src/api-server.ts:307-316 | for every new record a history exists in which an ended stream never delivers the final event |
| `EventStream.ListsTail` | packages/ivory-tower-infrastructure/src/postgres-execution-store.ts:190-196 | on a log numbered 1..n, the events above a number are the rest of the log from there |
| `ResearchProtocol.SemanticChanges` | packages/ivory-tower-application/src/research-protocol-service.ts:324-341 | the recorded changes are those of the fields the patch gives another value, in the fixed order, or the one revision entry |
| `ResearchProtocol.ChangesReplay` | packages/ivory-tower-application/src/research-protocol-service.ts:324-341 | replaying the recorded changes on a complete content gives the content overlaid with the patch |
| `ResearchProtocol.ChangesAreTrue` | packages/ivory-tower-application/src/research-protocol-service.ts:329-340 | one change for each field whose value the patch changes, with the value before and after, and the revision entry exactly when there is none |
| `ResearchProtocol.InMemoryResearchProtocolStore.SaveVersion` | packages/ivory-tower-infrastructure/src/in-memory-research-protocol-store.ts:16-23 | stores a version under its own id unless a snapshot stands there; then throws and changes nothing |
| `ResearchProtocol.InMemoryResearchProtocolStore.GetVersion` | packages/ivory-tower-infrastructure/src/in-memory-research-protocol-store.ts:25-28 | finds the one stored version with the id, and nothing exactly when none has it |
| `ResearchProtocol.InMemoryResearchProtocolStore.HighestVersionNumber` | packages/ivory-tower-application/src/research-protocol-service.ts:143-146 | the greatest number among the versions of the protocol |
| `ResearchProtocol.InMemoryResearchProtocolStore.SaveExport` | packages/ivory-tower-infrastructure/src/in-memory-research-protocol-store.ts:57-64 | stores an export of a snapshot, throws for any other version |
| `ProtocolCalls.InvariantHolds` | packages/ivory-tower-application/src/research-protocol-service.ts:106-238 | after every interleaving of create, revise, branch, promote and snapshot calls, all stored versions are linked and every call in flight agrees with the store |
| `ProtocolCalls.VersionsOnlyEvolve` | packages/ivory-tower-infrastructure/src/in-memory-research-protocol-store.ts:16-23 | whatever interleaves, a stored version keeps id, number, content and predecessor, its stage never goes back, and a snapshot never changes |
| `ProtocolCalls.OneMore` | packages/ivory-tower-application/src/research-protocol-service.ts:187-233 | each step of any call advances the stage of a version by at most one |
| `ProtocolCalls.ExportsAreFrozen` | packages/ivory-tower-infrastructure/src/in-memory-research-protocol-store.ts:57-64 | every saved export names a stored snapshot that is the same in every later state |
| `ProtocolCalls.ExportNeverRefused` | packages/ivory-tower-application/src/research-protocol-service.ts:211-238 | an export call that has saved its snapshot finds it still a snapshot |
| `ProtocolCalls.NewVersionIsLinked` | packages/ivory-tower-application/src/research-protocol-service.ts:142-185 | a revision or a branch of a stored version records changes that rebuild it from its predecessor, under a greater number |
| `ProtocolCalls.RevisionIsNext` | packages/ivory-tower-application/src/research-protocol-service.ts:142-152 | over every run, a revision gets the number one above the greatest among the versions of its protocol stored when it listed |
| `ProtocolCalls.RevisionsDiffer` | packages/ivory-tower-application/src/research-protocol-service.ts:142-152 | a revision that lists after a version of its protocol was stored gets a greater number than that version |
| `ProtocolCalls.ListingTogether` | packages/ivory-tower-application/src/research-protocol-service.ts:142-152 | two revisions that list before either is stored get the same number |
| `ProtocolCalls.CreateOutcome` | packages/ivory-tower-application/src/research-protocol-service.ts:106-140 | a call alone stores one exploratory version 1 with the content asked for and ids of its own, and refuses an incomplete content |
| `ProtocolCalls.ReviseOutcome` | packages/ivory-tower-application/src/research-protocol-service.ts:142-163 | a call alone stores one version that overlays the patch, with the next number, its predecessor and changes that replay |
| `ProtocolCalls.BranchOutcome` | packages/ivory-tower-application/src/research-protocol-service.ts:165-185 | a call alone stores one version of the same content under its own branch, one number on |
| `ProtocolCalls.PromoteOutcome` | packages/ivory-tower-application/src/research-protocol-service.ts:187-209 | an exploratory version, and no other, becomes a specified one |
| `ProtocolCalls.SnapshotOutcome` | packages/ivory-tower-application/src/research-protocol-service.ts:211-238 | a specified version, and no other, becomes a snapshot, and an export names it under a new id |
| `ProtocolCalls.UnknownIsRefused` | packages/ivory-tower-application/src/research-protocol-service.ts:307-313 | an unknown version is refused and nothing is stored |
| `ProtocolCalls.SnapshotStands` | packages/ivory-tower-infrastructure/src/in-memory-research-protocol-store.ts:16-20 | a call that would write over a snapshot throws and stores nothing |
| `ProtocolCalls.ErrorThrows` | packages/ivory-tower-application/src/research-protocol-service.ts:106-238 | a step that throws ends the call and stores nothing |
| `ProtocolCalls.StagedIsLinked` | packages/ivory-tower-application/src/research-protocol-service.ts:187-233 | promoting and freezing change neither content nor link |
| `ProtocolCalls.RetrieveLineage` | packages/ivory-tower-application/src/research-protocol-service.ts:240-253 | under any concurrent growth of the store the walk ends, finds None only for an unknown id, and otherwise a chain from a version without predecessor to the one asked for; the guard against repeats never fires |
| `ProtocolCalls.LineageRebuilds` | packages/ivory-tower-application/src/research-protocol-service.ts:142-163 | along any lineage, replaying all recorded changes from the root adds up to each later content; one protocol id, strictly increasing numbers |
| `ProtocolCalls.EveryVersionRebuilds` | packages/ivory-tower-application/src/research-protocol-service.ts:142-163 | after every run, every stored version has a lineage of stored versions from one without predecessor, along which replaying the recorded changes from the root rebuilds the content of each |
| `ProtocolCalls.RunsAreViews` | packages/ivory-tower-application/src/research-protocol-service.ts:240-253 | reading the store of any run at ever later moments gives views as the walk assumes |
| `ExtensionCollector.ExtensionPackageCollector.Collect` | dev-packages/application-package/src/extension-package-collector.ts:32-36 | ends in a finished list, or throws: exactly when the root has no dependencies and a peer dependency of it is an extension package |
| `ExtensionCollector.ExtensionPackageCollector.CollectPackages` | dev-packages/application-package/src/extension-package-collector.ts:38-46 | visits every dependency and peer dependency and keeps the invariant and the parent |
| `ExtensionCollector.ExtensionPackageCollector.CollectPackagesWithParent` | dev-packages/application-package/src/extension-package-collector.ts:49-54 | collects under the package and restores the parent |
| `ExtensionCollector.ExtensionPackageCollector.CollectPackage` | dev-packages/application-package/src/extension-package-collector.ts:56-86 | a name is visited once; an extension package is listed after its dependencies with its recorded parent |
| `ExtensionCollector.ListsReachable` | dev-packages/application-package/src/extension-package-collector.ts:56-86 | a finished list holds a name if and only if a path of extension packages leads to it from the root |
| `ExtensionCollector.ListedAsFound` | dev-packages/application-package/src/extension-package-collector.ts:76-81 | a listed package carries the version of its file, the range of an entry of its parent or the root, and whether the root lists it among its dependencies |
| `ExtensionCollector.EveryEdge` | dev-packages/application-package/src/extension-package-collector.ts:56-86 | no name twice; a dependency is listed before its dependent, or is it, or is on its parent chain, cycles or not |
| `ExtensionCollector.AcyclicIsTopological` | dev-packages/application-package/src/application-package.ts:104-113 | without cycles of extension packages, dependencies come strictly first, whatever cycles there are among other packages |
| `ExtensionCollector.LateDependencyCloses` | dev-packages/application-package/src/extension-package-collector.ts:56-86 | a dependency that is not listed before its dependent lies on a cycle of extension packages with it |
| `ExtensionCollector.GetDependent` | dev-packages/application-package/src/extension-package.ts:86-97 | the walk up the parents yields the topmost one, and throws exactly for a transitive package without parent |
| `ExtensionCollector.DependentIsDirect` | dev-packages/application-package/src/extension-package.ts:86-105 | for a listed package that the root does not list among its dependencies, the result is a direct dependency or peer dependency of the root; it throws if and only if, besides, an entry of the root names the package and no path of extension packages from an earlier entry leads to it |
| `ExtensionCollector.NewIsOrdered` | dev-packages/application-package/src/extension-package-collector.ts:38-76 | what is found through an entry of the root has no parent exactly when it is the entry itself, reached from no earlier entry |
| `ExtensionCollector.DependentCanThrow` | dev-packages/application-package/src/extension-package.ts:86-91 | a finished collection whose one package, a peer dependency alone, makes it throw |
| `ExtensionCollector.LeadsToPeerFirst` | dev-packages/application-package/src/extension-package.ts:86-97 | a root whose peer dependency is reached first through a dependency: the condition for throwing fails |
| `ExtensionCollector.CollectCanThrow` | dev-packages/application-package/src/extension-package-collector.ts:76 | a root without dependencies, with an extension package among its peer dependencies, on which collecting throws |
| `Localization.EntryWritten` | dev-packages/localization-manager/src/localization-manager.ts:143-176 | writing or deleting one key of one object of a tree keeps it a tree and changes it at and below that key only |
| `Localization.Localization.Delete` | dev-packages/localization-manager/src/localization-manager.ts:146-150 | removes what stands at and below the key |
| `Localization.Localization.Write` | dev-packages/localization-manager/src/localization-manager.ts:155-165 | puts a text there, in place of whatever stood at or below |
| `Localization.Localization.Create` | dev-packages/localization-manager/src/localization-manager.ts:158-171 | puts a new empty object there, in place of whatever stood |
| `LocalizationManager.DeleteExtraKeys` | dev-packages/localization-manager/src/localization-manager.ts:145-150 | leaves exactly the keys that the source has, each as it was |
| `LocalizationManager.Process` | dev-packages/localization-manager/src/localization-manager.ts:143-176 | brings one group in line and asks for its messages, in source order; each request names the object and the key of its message, whatever is done later to other entries |
| `LocalizationManager.BuildLocalizationMap` | dev-packages/localization-manager/src/localization-manager.ts:141-184 | the target becomes the merged tree, and the requests are the wanted messages |
| `LocalizationManager.WantedExactly` | dev-packages/localization-manager/src/localization-manager.ts:151-174 | the wanted messages are exactly those the target lacks or whose key is forced, each once |
| `LocalizationManager.KeyJoinsParts` | dev-packages/localization-manager/src/localization-manager.ts:152 | the key a message is reported under and forced by is its path with slashes between, empty keys at its start left out |
| `LocalizationManager.Localize` | dev-packages/localization-manager/src/localization-manager.ts:155-166 | writes the value at the path of its request, and leaves all other requests pointing where they did |
| `LocalizationManager.LocalizeAll` | dev-packages/localization-manager/src/localization-manager.ts:113-115 | writes answer i at request i |
| `LocalizationManager.TranslateLanguage` | dev-packages/localization-manager/src/localization-manager.ts:95-126 | success and final tree for every answer of the service: none, too few, enough, too many |
| `LocalizationManager.TranslatedAt` | dev-packages/localization-manager/src/localization-manager.ts:141-184 | what the target holds at every path after one answer for every request |
| `LocalizationManager.KeysMatchExactly` | dev-packages/localization-manager/src/localization-manager.ts:141-184 | the target has exactly the keys of the source, groups where it has groups, if and only if no unforced message stands on an object of the target |
| `LocalizationManager.ConflictStays` | dev-packages/localization-manager/src/localization-manager.ts:170-174 | a source and a target with such a message: the object stays and the keys differ |
| `LocalizationManager.NothingUnderTexts` | dev-packages/localization-manager/src/localization-manager.ts:170-174 | a key the source lacks is left only below such a message |
| `LocalizationManager.TextsInPlace` | dev-packages/localization-manager/src/localization-manager.ts:153-168 | answer i is at the key of request i, and every unforced existing entry at a message is unchanged |
| `LocalizationManager.SecondRunIsIdle` | dev-packages/localization-manager/src/localization-manager.ts:141-184 | a second run without forced keys asks for nothing and changes nothing |
| `LocalizationManager.UnchangedAnswers` | dev-packages/localization-manager/src/localization-manager.ts:106-115 | answers that return their texts put the texts of the source in place, whatever they contain |
| `LocalizationManager.RunTranslates` | dev-packages/localization-manager/src/localization-manager.ts:95-126 | with a service that answers each chunk text for text, the run succeeds and each wanted key holds the answer to its own message, unescaped |
| `DeeplApi.Split` | dev-packages/localization-manager/src/deepl-api.ts:36-40 | the chunks are the slices of 50, none empty, and together the text |
| `DeeplApi.Deepl` | dev-packages/localization-manager/src/deepl-api.ts:31-57 | the joined answers in order; it fails if and only if some chunk fails |
| `DeeplApi.TranslatedInPlace` | dev-packages/localization-manager/src/deepl-api.ts:36-57 | with one answer per text, answer i is that of chunk i / 50 at place i % 50 |
| `DeeplApi.CoercesEachCharacter` | dev-packages/localization-manager/src/deepl-api.ts:102-110 | the six replacements map each character alone |
| `IgnoreTags.RoundTrip` | dev-packages/localization-manager/src/localization-manager.ts:128-139 | removing the tags of a tagged text gives back every text, entities, brackets and tags of its own included |
| `IgnoreTags.AddedTags` | dev-packages/localization-manager/src/localization-manager.ts:128-134 | in a tagged text every placeholder, wherever it is, stands between ignore tags |
| `IgnoreTags.UnwrapUndoesWrap` | dev-packages/localization-manager/src/localization-manager.ts:132-136 | in a text without < the only tags found are those put there |
| `IgnoreTags.UnescapeUnspells` | dev-packages/localization-manager/src/localization-manager.ts:138 | undoing the three entities in this order gives back every text |
| `IgnoreTags.AmpersandLast` | dev-packages/localization-manager/src/localization-manager.ts:138 | a text that another order does not give back |
| `LocalizationExtractor.Insert` | dev-packages/localization-manager/src/localization-extractor.ts:161-184 | inserts at the path of the key, or reports what is in the way and leaves the whole tree as it was |
| `LocalizationExtractor.InsertAll` | dev-packages/localization-manager/src/localization-extractor.ts:116-126 | the tree of the whole run and the error of each insert, refused ones skipped |
| `LocalizationExtractor.ExtractFromFile` | dev-packages/localization-manager/src/localization-extractor.ts:111-126 | starting from a new object, the tree is that of the run from the empty tree, and an insert is reported exactly when it is refused there |
| `LocalizationExtractor.RefusedExactly` | dev-packages/localization-manager/src/localization-extractor.ts:168-176 | an insert is refused if and only if a text stands above its path or an object at it |
| `LocalizationExtractor.RefusedForAClash` | dev-packages/localization-manager/src/localization-extractor.ts:161-184 | over any run: refused if and only if an earlier accepted key, followed by a slash, begins this one, or the other way round |
| `LocalizationExtractor.LastTextWins` | dev-packages/localization-manager/src/localization-extractor.ts:172 | a key reads back as the text of its last accepted insert |
| `LocalizationExtractor.TextsArePrefixFree` | dev-packages/localization-manager/src/localization-extractor.ts:161-184 | no text stands above anything, and every text is that of the last accepted insert of some key |
| `LocalizationExtractor.UnderInText` | dev-packages/localization-manager/src/localization-extractor.ts:165 | the path of one key is above that of another exactly when the key, or the key and a slash, begin the other |
| `ApplicationProcess.CommandLineReadsBack` | dev-packages/application-manager/src/application-process.ts:44-55 | the shell reads every command line as the command and the arguments, empty ones, quotes, blanks and backslashes included |
| `ApplicationProcess.QuotedIsLiteral` | dev-packages/application-manager/src/application-process.ts:54 | a quoted argument is read as itself, whatever word has begun before it and whatever follows |
| `OvsxApiFilter.Filter.QueryLatestCompatibleExtension` | dev-packages/ovsx-client/src/ovsx-api-filter.ts:68-91 | for every list, ends on the first page with an entry compatible by the rule of that page, or after the last page; where the first entries of the pages agree on the rule, with what a scan of the list finds; in at most 5 + ceil(max(0, n - 155) / 100) requests |
| `OvsxApiFilter.FewRequests` | dev-packages/ovsx-client/src/ovsx-api-filter.ts:69-72 | a last page that begins within n entries is at most number 5 + ceil(max(0, n - 155) / 100) |
| `OvsxApiFilter.Filter.FindsFirstFitting` | dev-packages/ovsx-client/src/ovsx-api-filter.ts:93-101 | in one page the first entry that fits is found: by version for builtin namespaces, no newer than the supported one, and by the range of the entry otherwise |
| `OvsxApiFilter.Filter.PagesScan` | dev-packages/ovsx-client/src/ovsx-api-filter.ts:68-91 | searching the pages in turn is scanning the list, where the first entries of the pages agree on the rule |
| `OvsxApiFilter.Filter.SearchIsScanExactly` | dev-packages/ovsx-client/src/ovsx-api-filter.ts:68-101 | for every list: the search finds what a scan finds under all version tests if and only if the first entry of each page is judged by the same rule as the first entry of the list |
| `OvsxApiFilter.Filter.HeadDisagrees` | dev-packages/ovsx-client/src/ovsx-api-filter.ts:93-101 | where the first entry of a page disagrees, version tests exist under which the search finds that entry and a scan finds nothing |
| `OvsxApiFilter.MixedListDiffers` | dev-packages/ovsx-client/src/ovsx-api-filter.ts:93-101 | a list of mixed namespaces on which the paged search finds an entry and a scan of the list finds none |
| `OvsxRouterClient.Interleave` | dev-packages/ovsx-client/src/ovsx-router-client.ts:242-253 | element k of array a is at its place, and the merge has exactly the elements of all arrays |
| `OvsxRouterClient.PlacesInOrder` | dev-packages/ovsx-client/src/ovsx-router-client.ts:242-253 | places are distinct, and ordered by rank, then by array: each array keeps its order |

## Left out

- The kind that is named in the failure message for a missing handler; timestamps, `createdAt`, `updatedAt` and `contractVersion` checks: opaque or absent; `leaseUntil` is stored and never read back.
- Contract version and attempt of a job: those of the record it is made with.
- SQL text, connection pools, Graphile, timers, HTTP parsing and error reporting: only the atomic effect of each store call is kept.
- Direct calls of `appendEvent`, also for unknown ids, and token events: the lifecycle operations do not make them.
- The difference between a JSON null, an absent value and `undefined` in results and payloads; a NaN progress.
- MemoryStore.InMemoryExecutionStore.Retry: the await between its two appends is taken as no interleaving point; `RetryInterrupted` says what whole calls there do to the log, and two retries inside each other are not modelled.
- StoreEquivalence.MemoryIsLogged: holds for operations one after another, as `StoresSimulate` does, with no other call inside a retry.
- PostgresStore.PostgresExecutionStore.Cancel: when the update finds no queued or running record, the source reads the record after that transaction, so the record returned may be later than the refused update; here both are one step.
- Leases never expire and exhausted queue retries leave a record queued, so nothing is said about progress of executions.
- `ExecutionProcessor.process`, `ExecutionService.create`, `streamEvents` and the protocol service's operations are program counters over store calls and not classes: what is proved of them is about their interleaving.
- EventStream.WritesContiguously: a fractional `after` is rounded down, which lists the same events.
- ProtocolCalls.LineageRebuilds: patches are taken as the schema normalises them, and schema errors as a call that throws.
- Artifacts, runs, claim posture, admission, redaction and the order of listed versions.
- ExtensionCollector.ListsReachable: the resolution of a name does not depend on the path it is resolved from.
- ExtensionCollector.ExtensionPackageCollector.Collect: a resolved package file that cannot be read or parsed makes the source throw as well; every installed package here can be read, and "throws exactly" is about those.
- LocalizationManager.WantedExactly: keys are strings in source order; JavaScript's reordering of integer-like keys and keys found on prototypes are not modelled.
- LocalizationExtractor.ExtractFromFile: takes the keys and texts that are inserted, in order; that a command's category is not tried after its label is refused is a matter of that list.
- Sorting, merging and writing localization files, the choice of languages, TypeScript syntax trees, and the retries and rate limit of the translation service.
- The Windows branch of `quoteArg`, and shell rules other than quoting: reading a line with an unquoted special character gives no words.
- OvsxApiFilter.Filter.QueryLatestCompatibleExtension: the registry answers with honest slices of one list, as a router of several registries does not; version comparison and range test are parameters.
- Rules, filters and result mergers of the router client, `getLatestCompatibleVersion` and README caching: each is settled by reading one body.
