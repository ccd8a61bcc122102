# Verified model of the agent pool's controller

This project models the parts of the controller where mistakes are hardest to see and proves
what they promise, for all inputs, all runs and all interleavings.

- **The orchestration protocol.** The SQLite store is a transition system over its rows: each
  store method is one transaction, a function from the tables before to the tables after and the
  reply (`StoreModel`), and a class with those tables as fields refines it (`OrchestrationStore`).
  What its calls keep and achieve over whole runs is in `StoreInvariants`, `StoreRuns`,
  `LeaseFencing`, `StoreLaws` and `StoredGraphs`. On top of it are the drivers: dispatch of the
  ready frontier (`DispatchService`, `DispatchSafety`, `DispatchLaws`, `SharedAttempt`,
  `ReadyFrontier`, `BlockedFrontier`, `BlockedDispatch`), startup reconciliation
  (`ReconcileModel`, `ReconcileJobs`, `ReconcileLaws`, `Reconciliation`, `LeftBehind`) and the
  claim loop of the direct-task service (`ClaimLoop`, `ClaimTurns`, `ClaimStarvation`,
  `ClaimFinish`, `ClaimOnce`, `ClaimFailures`). Proved: what every call keeps, lease fencing,
  exactly-once completion, first writer wins, dependency safety with stale reads, convergence
  after a crash at any call, and exactly when a task of the claim loop gets its turn. So that none
  of this holds because nothing happens, it is also proved what must happen, told from the tables
  alone: which calls succeed, what a dispatch pass hands out, what a reconciliation completes, and
  that passes and successful workers bring every imported work to its end (`WholeWorks`).
- **Intake.** Both copies of Kahn's algorithm (`Kahn`, `Graph`), the canonical JSON printer
  (`JsonString`, `JsonGrammar`, `Canonical`, `CanonicalPrinter`, `CanonicalIdentity`), scope keys and payload
  hashes (`Idempotency`), and the idempotency protocol in memory (`DirectIntake`) and over the
  store (`DirectTaskService`, `IntakeDifferences`), both proved to follow one protocol that compares submissions
  directly.
- **The pool runtime** (`Pool`, `PoolRuntime`, `PoolJob`): a FIFO queue over a fixed number of
  slots with admission, settlement and shutdown.
- **Searches with exact specifications**: the topology sweep over cyclic payloads
  (`DagExclusion`), the documentation crawl (`DocumentationCrawl`, `DocumentationDiscovery`),
  wildcard matching (`Glob`) and the serialization policy (`Scheduling`).

Strings are sequences of UTF-16 code units (`Text`), as JavaScript compares and measures them.
Run `dafny verify dfyconfig.toml` to check everything.

What is assumed rather than proved: transactions are atomic; SHA-256 is injective; times are
integers and each transaction takes its time as an argument; a claim's token is whatever value
the caller supplies; list queries without a complete `ORDER BY` return rows in an arbitrary
fixed order given as a parameter; `localeCompare` is an arbitrary total preorder; reading back a
JSON text of an acceptance gives the acceptance.

Eight properties one would expect do not hold of the code. Each has an input that shows it and the
exact condition under which the code does have it:

- a value that matches a pattern is matched (`Glob.GlobMissesRepeatedSuffix`, `Glob.GlobExact`);
- no attempt is shared between nodes (`SharedAttempt.SlashSharesAttempt`,
  `DispatchService.HandedAnothersExactly`);
- every accepted direct task can be claimed (`ClaimFailures.AcceptedButNeverClaimed`,
  `ClaimLoop.ClaimResumes`);
- later tasks get their turn: one task holds up all others if its job id is too long
  (`ClaimFailures.LaterTasksStarve`), if its worker reported late (`ClaimFinish.LateFromImport`,
  `ClaimFinish.LateReportStarves`), or if the process died between its proof or its accepted result and its completion
  (`ClaimFinish.FinishCutOff`). One invocation claims the first wanted task exactly under the
  conditions of `ClaimTurns.TurnExact`, and some later one does exactly if it is open
  (`ClaimStarvation.TurnComesExactly`);
- a work with recorded blockers comes to its end (`BlockedDispatch.BlockedForEver`,
  `BlockedFrontier.AllPassExactly`);
- the durable and the in-memory intake answer alike (the lemmas of `IntakeDifferences`,
  `DirectTaskService.PostFollowsProtocol`): they differ on bodies with `units`, on manifests that
  do not parse, on the store's length limits, in the order of two checks, and in drawing a
  submission id for replays;
- truncation is reported only when something was left out
  (`DocumentationDiscovery.TruncatedWithNothingLeftOut`, `DocumentationDiscovery.TruncationExact`);
- a reconciliation that was cut off and repeated leaves the queue of an uninterrupted one
  (`LeftBehind.JobLeftBehind`, `ReconcileJobs.QueueAfterCutOff`).

Where code and comments disagree the model follows the code: the crawl's comment speaks of
top-level instruction files, but index files are roots in every directory
(`src/domains/codebase-knowledge/documentation-discovery.ts`, lines 144 to 146).

## Model

| member | source | states |
|---|---|---|
| `Lifecycle.TransitionsAdvanceByOne` | src/domains/orchestration/lifecycle.ts:3-13 | the transition table allows exactly the moves one position forward |
| `Graph.AcyclicIffOrdered` | src/domains/work-intake/unit-validation.ts:336-343 | an order in which nothing more can be placed is complete exactly when the graph has no cycle, and that is exactly when a topological order exists |
| `Kahn.Relax` | src/domains/work-intake/unit-validation.ts:366-370 | subtracts from each node's count the number of times it is listed, and makes ready exactly those that reach zero, once each |
| `Kahn.FindUnorderableUnits` | src/domains/work-intake/unit-validation.ts:344-379 | returns, in ascending order, exactly the units that are on a cycle or depend on one through any number of edges; nothing exactly when a topological order exists |
| `Kahn.ResidueIsUnorderable` | src/domains/work-intake/unit-validation.ts:373-378 | when the loop ends, a positive count is left exactly at the units that reach a cycle |
| `Kahn.OrdersCompletely` | src/domains/orchestration/sqlite-store.ts:878-903 | the store's queue-based loop accepts exactly the graphs that have a topological order |
| `Kahn.BothCopiesAgree` | src/domains/orchestration/sqlite-store.ts:866-903 | the stack-based loop of intake and the queue-based loop of the store accept the same graphs |
| `ReadyFrontier.ComputeReadyFrontier` | src/domains/orchestration/ready-frontier.ts:9-28 | lists exactly the unpassed nodes whose dependencies have all passed, each as often as it is in the node list and with its blocker if it has one, sorted by id |
| `ReadyFrontier.FrontierNonEmpty` | src/domains/orchestration/ready-frontier.ts:16-19 | on an acyclic graph something is ready until every node has passed, whatever has passed so far |
| `ReadyFrontier.PassOrderOrdered` | src/domains/orchestration/ready-frontier.ts:16-19 | passing whole frontiers round after round never puts a node before one of its dependencies |
| `ReadyFrontier.RoundsFinish` | src/domains/orchestration/ready-frontier.ts:9-28 | passing the whole frontier again and again passes all n nodes within n rounds, in a topological order |
| `BlockedFrontier.SelectedExactly` | src/domains/orchestration/ready-frontier.ts:16-24 | on an acyclic graph a pass has something to work off if and only if some unpassed node neither has a blocker nor depends, through any number of edges, on a node that has one |
| `BlockedFrontier.RoundsPassTheFree` | src/domains/orchestration/ready-frontier.ts:16-24 | round after round exactly the nodes pass that neither have a blocker nor depend on a node that has one, within n rounds and after their dependencies |
| `BlockedFrontier.AllPassExactly` | src/domains/orchestration/ready-frontier.ts:20-24 | all nodes pass if and only if none of them has a blocker, whatever becomes of the blockers themselves |
| `Identifiers.DeriveJobIdInjective` | src/domains/orchestration/attempt-dispatch.ts:12-14 | different attempts have different job ids |
| `Identifiers.DeriveAttemptIdInjective` | src/domains/orchestration/attempt-dispatch.ts:8-10 | without slashes in node ids an attempt id determines work, node and number |
| `Identifiers.DeriveAttemptIdCollision` | src/domains/orchestration/attempt-dispatch.ts:8-10 | with a slash in a node id different nodes get the same attempt id |
| `Identifiers.CollisionExact` | src/domains/orchestration/attempt-dispatch.ts:8-10 | two different nodes share an attempt id if and only if the numbers agree and one node id takes over, up to a slash, the end of the other's work id |
| `OrchestrationStore.CheckNodeList` | src/domains/orchestration/sqlite-store.ts:785-864 | finds the first id, duplicate or dependency-list violation in list order |
| `OrchestrationStore.CheckEdges` | src/domains/orchestration/sqlite-store.ts:866-876 | accepts exactly the lists whose edges resolve and are not self edges |
| `OrchestrationStore.CheckWork` | src/domains/orchestration/sqlite-store.ts:707-904 | the checks on a work, cycle check included, give the first violation or none |
| `OrchestrationStore.OrchestrationStore.ImportApprovedWork` | src/domains/orchestration/sqlite-store.ts:1151-1203 | the tables after the call and the reply: insert once, acknowledge an equal work, refuse a different one |
| `OrchestrationStore.OrchestrationStore.ImportDirectTask` | src/domains/orchestration/sqlite-store.ts:2028-2147 | the tables after the call and the reply: replay, mismatch, conflict, or all rows of a new task |
| `OrchestrationStore.OrchestrationStore.TransitionNode` | src/domains/orchestration/sqlite-store.ts:1234-1261 | version compare-and-swap on one node row; an error changes nothing |
| `OrchestrationStore.OrchestrationStore.CreateAttempt` | src/domains/orchestration/sqlite-store.ts:1263-1308 | inserts attempt and routing rows for a ready node, or returns the attempt that has the id |
| `OrchestrationStore.OrchestrationStore.SetJobId` | src/domains/orchestration/sqlite-store.ts:1391-1393 | changes the job id of a created attempt only |
| `OrchestrationStore.OrchestrationStore.ClaimLease` | src/domains/orchestration/sqlite-store.ts:1395-1425 | takes the lease if there is none, with the next generation and the digest of the token |
| `OrchestrationStore.OrchestrationStore.RenewLease` | src/domains/orchestration/sqlite-store.ts:1431-1463 | extends a live lease of the same owner and token; generation and digest stay |
| `OrchestrationStore.OrchestrationStore.ReleaseLease` | src/domains/orchestration/sqlite-store.ts:1465-1494 | drops the lease of the same owner and token and makes the attempt created again |
| `OrchestrationStore.OrchestrationStore.ReclaimLease` | src/domains/orchestration/sqlite-store.ts:1496-1526 | drops an expired lease and announces the next generation |
| `OrchestrationStore.OrchestrationStore.AcceptResult` | src/domains/orchestration/sqlite-store.ts:1528-1600 | accepts under a live lease, acknowledges an equal resubmission, refuses a different one |
| `OrchestrationStore.OrchestrationStore.CompleteAuthorizedResult` | src/domains/orchestration/sqlite-store.ts:1607-1643 | moves the node to the recorded outcome at the authorized version and consumes the authorization |
| `OrchestrationStore.OrchestrationStore.RecordProofResult` | src/domains/orchestration/sqlite-store.ts:1826-1966 | writes one proof row per attempt; an equal one again changes nothing, a different one is refused |
| `StoreInvariants.ImportChanges` | src/domains/orchestration/sqlite-store.ts:1155-1203 | an import changes nothing or inserts all of its rows, under keys that were free |
| `StoreInvariants.ApplyKeepsValid` | src/domains/orchestration/sqlite-store.ts:1151-1643 | every call with any arguments keeps all table invariants: versions, dependency and attempt references, lease generations, results and authorizations |
| `StoreRuns.RunKeepsValid` | src/domains/orchestration/sqlite-store.ts:1151-1643 | the invariants hold in every state of every interleaving of calls |
| `StoreRuns.StepAdvances` | src/domains/orchestration/sqlite-store.ts:1151-1643 | no call removes a row of works, nodes, attempts, routing, results, proofs or intake, lowers a version or generation, or changes a passed or failed node |
| `StoreRuns.RunAdvances` | src/domains/orchestration/sqlite-store.ts:1151-1643 | the same between any two states of a run |
| `StoreRuns.VersionIsPosition` | src/domains/orchestration/sqlite-store.ts:1234-1261 | in every state of every run a node's version is 1 plus its lifecycle position |
| `StoreRuns.TerminalForEver` | src/domains/orchestration/sqlite-store.ts:1249-1253 | a passed or failed node keeps its row for ever |
| `StoreRuns.CompletedAtMostOnce` | src/domains/orchestration/sqlite-store.ts:1607-1643 | at most one step of a run completes a node, however many attempts hold accepted results |
| `StoreRuns.CompletedAtSubmittedVersion` | src/domains/orchestration/sqlite-store.ts:1612-1632 | a node is completed from in progress, at the very version its accepted result was submitted for, and the authorization is used up |
| `StoreRuns.StepKeepsStarted` | src/domains/orchestration/sqlite-store.ts:1263-1308 | every attempt belongs to a node that has left pending |
| `StoreRuns.TerminalIsOwnOutcome` | src/domains/orchestration/sqlite-store.ts:1607-1643 | in driver-level runs a node that ended did so by one completion, in the outcome recorded by the accepted result of one of its own attempts |
| `StoreRuns.AcceptedForEver` | src/domains/orchestration/sqlite-store.ts:1544-1553 | an accepted result is never changed or removed |
| `StoreRuns.ResubmissionDecided` | src/domains/orchestration/sqlite-store.ts:1544-1553 | after acceptance, at any later time, a submission changes nothing and is acknowledged exactly when it is well-formed and equal to the stored result |
| `StoreLaws.TransitionExactly` | src/domains/orchestration/sqlite-store.ts:1234-1261 | a transition succeeds if and only if the node is stored at the submitted version and the new state is one position forward; then that row alone changes, by one version |
| `StoreLaws.OncePerVersion` | src/domains/orchestration/sqlite-store.ts:1245-1248 | of any number of transitions of a node submitted for the same version at most one succeeds in a run, and the later ones change nothing |
| `StoreLaws.CreationExactly` | src/domains/orchestration/sqlite-store.ts:1263-1308 | in a valid store an attempt is handed out if and only if its ids are accepted, there is a route, its node is ready, and it is stored or the node has none of that number; a stored one is returned as it is, a new one gets its row and its routing row |
| `StoreLaws.JobIdExactly` | src/domains/orchestration/sqlite-store.ts:1391-1393 | the job id of a created attempt is replaced and nothing else changes |
| `StoreLaws.CompletionExactly` | src/domains/orchestration/sqlite-store.ts:1607-1643 | the completion of an authorization succeeds if and only if its node is in progress at the authorized version, whatever its dependencies; then the node ends in the outcome of the accepted result, the attempt is completed and only that authorization is gone |
| `StoreLaws.ProofExactly` | src/domains/orchestration/sqlite-store.ts:1826-1966 | a proof is acknowledged if and only if it names the node and the builder of its attempt and is the first one or equal to it; only the first is written |
| `StoredGraphs.ImportExactly` | src/domains/orchestration/sqlite-store.ts:707-904 | a work under a new id is inserted, one pending row for each of its nodes with its dependencies, if and only if its ids are allowed and distinct, it has at most 500 nodes, its edges resolve and are not repeated, and no walk along them comes back to its node; otherwise nothing changes |
| `StoredGraphs.ReimportExactly` | src/domains/orchestration/sqlite-store.ts:1155-1161 | once a work has been imported, at any later time a well-formed work under its id is acknowledged if it is the same up to the order of dependency lists, and refused otherwise; nothing changes |
| `StoredGraphs.NeverACycle` | src/domains/orchestration/sqlite-store.ts:878-903 | in every state of every run from the empty store no walk along the stored dependencies comes back to its node |
| `StoredGraphs.StoredFrontierNonEmpty` | src/domains/orchestration/sqlite-store.ts:878-903 | in every run the frontier of a stored work is not empty as long as one of its nodes has not passed |
| `StoredGraphs.StoredWorkEnds` | src/domains/orchestration/sqlite-store.ts:878-903 | the rounds over a stored work are in topological order and pass all its nodes if and only if none has a blocker |
| `LeaseFencing.StepCounter` | src/domains/orchestration/sqlite-store.ts:1395-1425 | only a successful claim moves an attempt's generation counter, by one, to the generation it returns |
| `LeaseFencing.GenerationsNeverReused` | src/domains/orchestration/sqlite-store.ts:1395-1425 | in any interleaving later claims get strictly larger generations |
| `LeaseFencing.ReclaimAnnouncesNextGeneration` | src/domains/orchestration/sqlite-store.ts:1496-1526 | the generation a reclaim announces is the one the next claim gets |
| `LeaseFencing.StepLease` | src/domains/orchestration/sqlite-store.ts:1395-1526 | a lease row is written only by a claim and keeps that claim's generation and token digest |
| `LeaseFencing.LeaseOrigin` | src/domains/orchestration/sqlite-store.ts:1395-1526 | every stored lease goes back to one claim step, with the row present ever since |
| `LeaseFencing.AcceptedUnderLatestClaim` | src/domains/orchestration/sqlite-store.ts:1528-1572 | a result is newly accepted only under the latest claim of its attempt, with its generation and token, while the lease is live |
| `LeaseFencing.StaysExpired` | src/domains/orchestration/sqlite-store.ts:1431-1463 | with a clock that does not run backwards, nothing revives a generation that has expired |
| `LeaseFencing.ExpiredNeverAuthorizes` | src/domains/orchestration/sqlite-store.ts:1567-1572 | once a lease has been seen expired, later acceptances are under a strictly larger generation |
| `LeaseFencing.OnlyHolderOrExpiry` | src/domains/orchestration/sqlite-store.ts:1431-1526 | a stored lease is changed or dropped only by its owner with its token, or by a reclaim after it has expired |
| `LeaseFencing.LeaseExcludes` | src/domains/orchestration/sqlite-store.ts:1395-1526 | until its holder acts or it is reclaimed after expiry, a lease stays as it is and no claim of its attempt succeeds, in any interleaving |
| `StoreLaws.FreeIsClaimed` | src/domains/orchestration/sqlite-store.ts:1395-1425 | an attempt without a lease is leased to whoever claims it, under the next generation |
| `StoreLaws.HolderRenews` | src/domains/orchestration/sqlite-store.ts:1431-1463 | the holder of a live lease gets the new expiry |
| `StoreLaws.HolderReleases` | src/domains/orchestration/sqlite-store.ts:1465-1494 | the holder's release succeeds, and the attempt can be claimed again |
| `StoreLaws.ExpiredIsReclaimed` | src/domains/orchestration/sqlite-store.ts:1496-1526 | anyone's reclaim of an expired lease succeeds, and the attempt can be claimed again |
| `StoreLaws.HolderIsAccepted` | src/domains/orchestration/sqlite-store.ts:1528-1600 | in any run, a worker that still holds the live lease of its claim gets its first well-formed result for the current version of its node accepted and authorized |
| `Reconciliation.EnsureJobs` | src/domains/orchestration/reconciliation.ts:19-24 | plays exactly the job effects of the created attempts |
| `Reconciliation.ReclaimExpired` | src/domains/orchestration/reconciliation.ts:26-31 | plays exactly the reclaims of the listed attempts that are leased |
| `Reconciliation.CompleteAuthorized` | src/domains/orchestration/reconciliation.ts:33-42 | plays exactly the completions of the authorizations it listed, each judged in the state it meets |
| `Reconciliation.Reconcile` | src/domains/orchestration/reconciliation.ts:13-43 | one uninterrupted run leaves exactly the system the effect sequence leads to |
| `ReconcileModel.CutOffRunConverges` | src/domains/orchestration/reconciliation.ts:13-43 | a run cut off after any call and then run again in full with the same clock reaches the database of one uninterrupted run |
| `ReconcileModel.SecondRunChangesNothing` | src/domains/orchestration/reconciliation.ts:5-12 | a second run with the same clock leaves the database unchanged |
| `ReconcileJobs.JobAfterOneRun` | src/domains/orchestration/reconciliation.ts:19-42 | after one run a job is queued if and only if it was there or its attempt was created before the run, and the run did not complete the attempt; so one run is not enough for reclaimed attempts |
| `ReconcileJobs.QueueAfterCutOff` | src/domains/orchestration/reconciliation.ts:13-43 | exactly how the queue differs after a cut and a full second run: a completed attempt's job stays only if the cut fell between completion and removal, and a reclaimed attempt's job is there a run early |
| `LeftBehind.JobLeftBehind` | src/domains/orchestration/reconciliation.ts:37-39 | for every work of one node: imported, dispatched, claimed and reported from the empty store on, and the process dead before the completion; a reconciliation cut off between completion and removal and then repeated leaves the job, which an uninterrupted one removes |
| `ReconcileModel.CreatedAttemptsQueued` | src/domains/orchestration/reconciliation.ts:19-24 | after two runs every created attempt has its own job in the queue |
| `ReconcileLaws.PursuitExactly` | src/domains/orchestration/reconciliation.ts:33-42 | pursuing one authorization ends its node in the outcome of its accepted result if the node is in progress at the authorized version, and otherwise changes nothing |
| `ReconcileLaws.RunCompletes` | src/domains/orchestration/reconciliation.ts:13-43 | after one run no authorization is left whose node is in progress at its version and no attempt is leased past its expiry; every node that had such an authorization has ended one version later in the outcome of one of them, with that attempt completed and its job gone |
| `DispatchService.RunEntry` | src/domains/orchestration/dispatch-service.ts:82-142 | one frontier entry: its writes, its job and its outcome in every branch |
| `DispatchService.WorkOff` | src/domains/orchestration/dispatch-service.ts:77-142 | the entries one after another, each against the state left by the ones before and the records read at the start |
| `DispatchService.DispatchReadyFrontier` | src/domains/orchestration/dispatch-service.ts:49-145 | one pass over the whole frontier of the nodes it read, in id order; an unknown work changes nothing |
| `DispatchService.PassIsSafe` | src/domains/orchestration/dispatch-service.ts:66-142 | a whole pass keeps every node past pending with all its dependencies passed |
| `DispatchLaws.PassDispatches` | src/domains/orchestration/dispatch-service.ts:66-142 | from a valid store with dispatchers' attempts and the true frontier, an unblocked pending or ready node is reported as dispatched if and only if its route resolves, its job id is at most 200 long and the queue takes its job, and then it is ready with its attempt, routing and job; every other unblocked node is reported once, with the first thing in its way |
| `DispatchLaws.OwnAttempt` | src/domains/orchestration/dispatch-service.ts:107-131 | a dispatched node's attempt is its own unless another node had it before |
| `WholeWorks.WorkIsBroughtToItsEnd` | src/domains/orchestration/dispatch-service.ts:49-145 | a work imported into any valid store with dispatchers' attempts is passed completely after as many rounds as it has nodes, each round a dispatch pass over the true frontier and workers that start, claim, report success and complete what it handed out |
| `DispatchService.RunKeepsOneAttempt` | src/domains/orchestration/dispatch-service.ts:107-109 | in every run of dispatchers every attempt is number one of its node under the derived id |
| `DispatchService.AttemptsNeverShared` | src/domains/orchestration/dispatch-service.ts:107-131 | any number of passes create at most one attempt per node, each with one routing row; a node asking for its attempt is handed its own if and only if no entangled node has one, which is so whenever node ids are free of slashes |
| `DispatchService.HandedAnothersExactly` | src/domains/orchestration/dispatch-service.ts:107-131 | a node is handed another node's attempt if and only if some stored attempt belongs to a node whose ids are shifted against its own at a slash |
| `DispatchService.RunKeepsDerivedIds` | src/domains/orchestration/dispatch-service.ts:107-109 | in every run from the empty store of calls that create and set derived ids, all attempt and job ids are the derived ones, as reconciliation relies on |
| `SharedAttempt.SlashSharesAttempt` | src/domains/orchestration/dispatch-service.ts:61-142 | for any work `w` with node `m/n` and work `w/m` with node `n`, imported into an empty store and dispatched by one pass each: both passes report the same attempt and job, its one row belongs to the first node and its one queued job names the second |
| `DispatchSafety.NextKeepsInv` | src/domains/orchestration/dispatch-service.ts:66-131 | every event, with any number of passes in flight on stale reads, keeps dependency safety |
| `DispatchSafety.TransitiveDependenciesPassed` | src/domains/orchestration/dispatch-service.ts:66-131 | in every state of every history a node past pending has all its transitive dependencies passed |
| `DispatchSafety.AttemptsOnlyAfterDependencies` | src/domains/orchestration/dispatch-service.ts:66-131 | in every state of every history, if an attempt exists then all transitive dependencies of its node have passed |
| `DispatchSafety.SafeFromEmpty` | src/domains/orchestration/dispatch-service.ts:66-131 | from the empty store on, in every history, nodes past pending have their dependencies passed and attempts belong to such nodes |
| `BlockedDispatch.PassLeavesBlocked` | src/domains/orchestration/dispatch-service.ts:80-80 | a pass does nothing to a node with a blocker and reports nothing about it |
| `BlockedDispatch.BlockedForEver` | src/domains/orchestration/dispatch-service.ts:80-80 | a pending node with a recorded blocker stays pending without an attempt through any passes and other calls of the store, whatever becomes of its blocker |
| `DispatchSafety.DownstreamOfFailureStaysPending` | src/domains/orchestration/dispatch-service.ts:66-131 | everything downstream of a failed node is pending and stays pending for ever |
| `JsonString.QuoteRoundTrip` | src/domains/work-intake/payload-hash.ts:36-38 | a quoted string followed by any text decodes to the string and that text |
| `JsonString.QuotePrefixFree` | src/domains/work-intake/payload-hash.ts:36-38 | no quoted string is a prefix of another |
| `JsonString.QuoteDenotes` | src/domains/work-intake/payload-hash.ts:36-38 | the quoted form decodes to its string and holds no control unit and no lone surrogate |
| `JsonString.QuoteShortest` | src/domains/work-intake/payload-hash.ts:36-38 | of all such texts for the string, with hexadecimal digits in lower case, it is the shortest and the only one so short |
| `JsonString.PlainIsItself` | src/domains/work-intake/payload-hash.ts:36-38 | a string without quotes, backslashes, control units and lone surrogates is quoted as itself |
| `Canonical.CanonicalFieldsFacts` | src/domains/work-intake/payload-hash.ts:45-53 | the printed properties are strictly ascending by key, exactly the defined ones, each with its value |
| `CanonicalPrinter.CanonicalizeArray` | src/domains/work-intake/payload-hash.ts:40-43 | the loop over items produces the texts of the recursive definition, or its first exception |
| `CanonicalPrinter.CanonicalizeObject` | src/domains/work-intake/payload-hash.ts:45-55 | the loop over sorted keys produces the entries of the recursive definition, or its first exception |
| `CanonicalPrinter.CanonicalizeValue` | src/domains/work-intake/payload-hash.ts:20-58 | the printer as written computes the recursive definition |
| `CanonicalIdentity.CanonicalizeSucceeds` | src/domains/work-intake/payload-hash.ts:20-58 | it succeeds exactly on printable values nested no deeper than the limit |
| `CanonicalIdentity.CanonicalTextIsPrint` | src/domains/work-intake/payload-hash.ts:20-58 | the canonical text is the plain text of the value with properties sorted and undefined ones dropped |
| `JsonGrammar.CanonicalIsJson` | src/domains/work-intake/payload-hash.ts:20-58 | whenever the printer succeeds its text is, by the grammar of JSON, a text of the sorted value: its literals, its strings in quotes, its items and members separated by single commas and colons, with nothing in between |
| `Text.LessExactly` | src/domains/work-intake/payload-hash.ts:45-47 | the order of keys: one begins the other, or the first code unit in which they differ decides |
| `CanonicalIdentity.PrintPrefixFree` | src/domains/work-intake/payload-hash.ts:20-58 | the text of a normal value, in a delimited context, determines the value and what follows it |
| `CanonicalIdentity.SameIffNorm` | src/domains/work-intake/payload-hash.ts:12-19 | values are equal up to property order and undefined properties exactly when their normal forms are equal |
| `CanonicalIdentity.CanonicalTextIdentifies` | src/domains/work-intake/payload-hash.ts:1-58 | two values have the same canonical text if and only if they are equal up to property order and undefined properties |
| `Idempotency.ScopeKeyInjective` | src/domains/work-intake/idempotency.ts:43-49 | no two different triples of strings share a storage key |
| `Idempotency.SubmissionFits` | src/domains/work-intake/direct-intake.ts:115-127 | a normalized submission can always be canonicalized |
| `Idempotency.PayloadHashIdentifies` | src/domains/work-intake/direct-intake.ts:112-127 | two submissions have the same payload hash if and only if they are the same submission |
| `DirectIntake.InMemoryIdempotencyStore.Get` | src/domains/work-intake/idempotency.ts:81-83 | the record of the key, if any |
| `DirectIntake.InMemoryIdempotencyStore.Put` | src/domains/work-intake/idempotency.ts:85-90 | stores unless the key is new and the store is full; then nothing changes |
| `DirectIntake.AcceptDirectTasks` | src/domains/work-intake/direct-intake.ts:84-186 | the records after the call and the response, in every branch |
| `DirectIntake.AcceptFollowsProtocol` | src/domains/work-intake/direct-intake.ts:129-183 | hashes and storage keys decide as comparing submissions by caller and key would |
| `DirectIntake.ServeFollowsProtocol` | src/domains/work-intake/direct-intake.ts:84-186 | the same over any sequence of requests |
| `DirectIntake.BoundForEver` | src/domains/work-intake/direct-intake.ts:132-147 | a bound key keeps its first acceptance for ever |
| `DirectIntake.BookIsHistory` | src/domains/work-intake/direct-intake.ts:132-183 | at any time a key is bound exactly if one earlier request was newly accepted under it, to that request's acceptance |
| `DirectIntake.HistoryDecides` | src/domains/work-intake/direct-intake.ts:84-186 | told by requests and responses alone: a key is bound at most once; later requests under it get the first response marked replayed exactly when the submission is the same, and are refused otherwise; before that it is accepted, unless the drawn id is blank or as many names have been bound as the limit allows |
| `DirectIntake.OthersAnswered` | src/domains/work-intake/direct-intake.ts:84-186 | every other request is answered on its own: refused for its first fault in the order caller, key, body, or accepted |
| `DirectIntake.OnlyBindingChanges` | src/domains/work-intake/direct-intake.ts:84-186 | rejections, conflicts, replays and failures change nothing; a new binding adds one record under a free key |
| `DirectTaskService.PostTask` | src/composition/direct-task-service.ts:142-258 | the tables after a post and the response, in every branch |
| `DirectTaskService.ChecksAreLimits` | src/domains/orchestration/sqlite-store.ts:2029-2049 | the store's checks on a one-node task come down to its length limits |
| `DirectTaskService.CallerNeverMismatches` | src/domains/orchestration/sqlite-store.ts:2063-2067 | the caller-mismatch branch is never taken: the stored caller of a scope key is always the one asking |
| `DirectTaskService.ImportFollowsProtocol` | src/domains/orchestration/sqlite-store.ts:2056-2137 | an importable request is decided, recorded and answered as the in-memory protocol says, under the work named after the submission |
| `DirectTaskService.RefusedUnimportable` | src/composition/direct-task-service.ts:186-252 | any other well-formed request is refused and leaves the database alone |
| `DirectTaskService.PostFollowsProtocol` | src/composition/direct-task-service.ts:142-258 | the durable service answers as the unbounded in-memory protocol if and only if the stated condition on request and id holds; otherwise it writes nothing |
| `DirectTaskService.OtherCallsKeepIntake` | src/domains/orchestration/sqlite-store.ts:1151-1643 | no other call of the store touches the intake tables |
| `DirectTaskService.UnservableWritesNothing` | src/composition/direct-task-service.ts:142-258 | a post that the service cannot serve is not accepted and leaves the database alone, whatever its id |
| `DirectTaskService.DurableServesAsInMemory` | src/composition/direct-task-service.ts:142-258 | over any run of any posts, interleaved with any other store calls, the durable service gives to the posts it can serve the responses of the unbounded in-memory boundary, and its tables record the same; servable posts come with fresh ids |
| `IntakeDifferences.UnitsBodyDiffers` | src/composition/direct-task-service.ts:143-152 | a flat graph of units is accepted in memory and refused by the durable service |
| `IntakeDifferences.LongCallerDiffers` | src/domains/orchestration/sqlite-store.ts:2031-2033 | a caller id of 201 code units is accepted in memory and refused by the store |
| `IntakeDifferences.UnparsedManifestDiffers` | src/composition/direct-task-service.ts:192-202 | a unit with a criterion of 1025 code units, which the manifest does not take, is accepted in memory and refused by the durable service |
| `IntakeDifferences.CheckOrderDiffers` | src/composition/direct-task-service.ts:154-168 | a blank caller with a malformed key gets different violations |
| `IntakeDifferences.BlankReplayDiffers` | src/composition/direct-task-service.ts:170-179 | a blank id drawn for a replay fails the durable service, while the in-memory boundary replays |
| `ClaimOnce.ReclaimExpired` | src/composition/direct-task-service.ts:323-328 | reclaims the expired leases, one call each |
| `ClaimOnce.ChooseRow` | src/composition/direct-task-service.ts:330-332 | the first wanted row of the left join of tasks and attempts |
| `ClaimOnce.ClaimTask` | src/composition/direct-task-service.ts:322-374 | the store after one invocation up to the claim, on any number of tasks, is that of the call sequence |
| `ClaimOnce.TakeUp` | src/composition/direct-task-service.ts:336-343 | the step to ready, when the node was pending |
| `ClaimOnce.Prepare` | src/composition/direct-task-service.ts:345-358 | the creation of the derived attempt, when there is none |
| `ClaimOnce.Start` | src/composition/direct-task-service.ts:360-374 | the step to in progress, when the node was ready, and the claim |
| `ClaimOnce.Finish` | src/composition/direct-task-service.ts:378-412 | the store after the worker has run is that of the call sequence: its proof, its result, and the completion if the result is accepted |
| `ClaimOnce.Record` | src/domains/agent-execution/minimal-pool-runtime.ts:184-225 | the verdict is recorded and counts; if the store refuses it, a failure is tried in its place and reported |
| `ClaimOnce.Submit` | src/composition/direct-task-service.ts:398-412 | the worker's result accepted and, if that succeeds, the node completed |
| `ClaimLoop.ImportedIsWaiting` | src/domains/orchestration/sqlite-store.ts:2093-2137 | a freshly imported direct task is in the first phase |
| `ClaimLoop.InvocationLeads` | src/composition/direct-task-service.ts:322-374 | from any phase, an invocation cut off after any call leaves a phase, and in full it leads to the stated next one |
| `ClaimLoop.HistoryInPhase` | src/composition/direct-task-service.ts:322-374 | any history of cut-off invocations leaves the store in a phase |
| `ClaimLoop.ClaimResumes` | src/composition/direct-task-service.ts:322-374 | after any history of cut-off invocations the next full one, if no lease is live, leases the same derived attempt to itself under the next generation, if and only if the derived job id is at most 200 long; under a live lease it changes nothing |
| `ClaimLoop.NeverClaimed` | src/composition/direct-task-service.ts:348-358 | a task whose derived job id is too long is never claimed |
| `ClaimFailures.AcceptedButNeverClaimed` | src/composition/direct-task-service.ts:142-258 | a post of a unit with an id of 200 code units is accepted, and then no history of invocations creates an attempt for it |
| `ClaimTurns.TurnExact` | src/composition/direct-task-service.ts:322-374 | of any number of tasks, after the reclaims a full invocation leases the attempt of the first wanted row under the next generation if and only if it has no proof and, if there is an attempt, it is not leased and its id has an accepted length, and if there is none, its node is not in progress and the derived job id is at most 200 long; otherwise no lease changes, and nothing but that node and attempt is touched |
| `ClaimTurns.ChosenExactly` | src/composition/direct-task-service.ts:330-332 | the chosen row is the first of the listing whose node waits for a claim; none is chosen only if none waits |
| `ClaimStarvation.OpenOrShut` | src/composition/direct-task-service.ts:330-358 | a wanted row is open, or shut for one of three causes: a recorded proof, a lease left by an accepted result, or no attempt and none to be had |
| `ClaimStarvation.ShutForEver` | src/composition/direct-task-service.ts:322-374 | while a shut row is the first wanted one, no history of cut-off invocations creates, claims or completes an attempt of any task, gives a lease or moves another node |
| `ClaimStarvation.OpenIsTaken` | src/composition/direct-task-service.ts:322-374 | an open first row is claimed by every full invocation after its attempt's lease has run out |
| `ClaimStarvation.TurnComesExactly` | src/composition/direct-task-service.ts:322-374 | the first wanted row is claimed in some history of invocations, wherever they are cut off, if and only if it is open |
| `ClaimStarvation.RunKeepsOrder` | src/domains/orchestration/sqlite-store.ts:1263-1643 | in driver-level runs attempt ids have accepted lengths and a completed attempt belongs to an ended node |
| `ClaimFailures.LaterTasksStarve` | src/composition/direct-task-service.ts:330-358 | of any number of accepted tasks, if the first has a derived job id longer than 200, every later one stays pending whatever is invoked |
| `ClaimFinish.FinishDecides` | src/composition/direct-task-service.ts:378-412 | whatever proofs are stored, a report under the claim's own live lease ends the node, in the outcome of the verdict if that is the recorded proof and as failed otherwise; a late one leaves only its proof |
| `ClaimFinish.PassedIsProven` | src/composition/direct-task-service.ts:398-412 | an invocation that ends its node as passed has recorded the passing proof of its attempt |
| `ClaimFinish.FinishCutOff` | src/composition/direct-task-service.ts:378-412 | wherever the process dies after the worker has run, the task is shut out for good if and only if its node has not ended and the attempt has a proof or an accepted result |
| `ClaimFinish.LateReport` | src/composition/direct-task-service.ts:333-334 | a report whose lease no longer authorizes it leaves its proof behind and changes nothing else |
| `ClaimFinish.LateReportStarves` | src/composition/direct-task-service.ts:333-334 | after such a report no history of invocations claims anything while the task is the first wanted one, and its node stays in progress |
| `ClaimFinish.LateFromImport` | src/composition/direct-task-service.ts:322-412 | every task that can be claimed is shut out for good if its worker reports after the lease has run out |
| `PoolRuntime.MinimalPoolRuntime.NotifyWaiters` | src/domains/agent-execution/minimal-pool-runtime.ts:127-133 | releases all waiters exactly when the pool is idle |
| `PoolRuntime.MinimalPoolRuntime.Schedule` | src/domains/agent-execution/minimal-pool-runtime.ts:251-262 | hands the head of the queue to the idle slots, lowest slot first |
| `PoolRuntime.MinimalPoolRuntime.Submit` | src/domains/agent-execution/minimal-pool-runtime.ts:265-292 | the four refusals, or admission and scheduling; the invariant is kept |
| `PoolRuntime.MinimalPoolRuntime.Finish` | src/domains/agent-execution/minimal-pool-runtime.ts:237-249 | settles the job, frees the slot, notifies and schedules; the invariant is kept |
| `PoolRuntime.MinimalPoolRuntime.Shutdown` | src/domains/agent-execution/minimal-pool-runtime.ts:294-302 | waits exactly when the pool is not idle; the invariant is kept |
| `Pool.ScheduleFills` | src/domains/agent-execution/minimal-pool-runtime.ts:251-262 | after scheduling the queue is empty or no slot is idle, and what started is the head of the queue in order |
| `Pool.ScheduleRuns` | src/domains/agent-execution/minimal-pool-runtime.ts:251-262 | what scheduling starts is what the slots gain |
| `Pool.NextKeeps` | src/domains/agent-execution/minimal-pool-runtime.ts:237-302 | every step keeps the invariant |
| `Pool.PoolSafety` | src/domains/agent-execution/minimal-pool-runtime.ts:117-303 | at every moment of every run: at most slotCount jobs execute, jobs have started in order of admission, no slot is idle while a job is queued, every admitted id is in exactly one of queue, slots and settled, once, and no shutdown call waits in an idle pool |
| `Pool.AdmittedExactly` | src/domains/agent-execution/minimal-pool-runtime.ts:265-291 | under a policy that fits its adapters the admitted jobs are, at any time of any run, exactly the ids submitted before the first shutdown in the order of their first submission; under any other policy there are none |
| `Pool.SubmissionAnswered` | src/domains/agent-execution/minimal-pool-runtime.ts:265-291 | which of the five answers a submission gets, from the events before it alone |
| `Pool.ReleasedOnlyAtIdle` | src/domains/agent-execution/minimal-pool-runtime.ts:127-133 | a waiter is released only by a step that leaves the pool idle, and then all waiters are |
| `Pool.ShutdownWaitsOrReturned` | src/domains/agent-execution/minimal-pool-runtime.ts:294-302 | a shutdown call is waiting or has returned |
| `Pool.ShutdownDrains` | src/domains/agent-execution/minimal-pool-runtime.ts:266-268 | after a shutdown nothing is admitted and every job that ends lowers the number outstanding by one |
| `Pool.ShutdownCompletes` | src/domains/agent-execution/minimal-pool-runtime.ts:237-302 | once as many jobs have ended as were outstanding, every admitted job is settled and the shutdown call has returned |
| `Pool.SomethingRuns` | src/domains/agent-execution/minimal-pool-runtime.ts:251-262 | while a job is outstanding some job is running |
| `PoolJob.RunOne` | src/domains/agent-execution/minimal-pool-runtime.ts:135-235 | resources are released exactly once, last; at most one result is written, and it is what the caller is told; a verdict is told only once written; nothing is written only if the last try to write failed |
| `DagExclusion.Search` | src/domains/agent-execution/dag-exclusion.ts:40-59 | one call with the shared set: everything newly seen is swept, or the steps found lead to a topology key and no simple ones come before them |
| `DagExclusion.SearchItems` | src/domains/agent-execution/dag-exclusion.ts:45-51 | the same for the items of an array |
| `DagExclusion.SearchEntries` | src/domains/agent-execution/dag-exclusion.ts:53-58 | the same for the properties of a record |
| `DagExclusion.SweptIsFree` | src/domains/agent-execution/dag-exclusion.ts:41-43 | pruning revisits loses nothing: from a fully swept set no steps of any length lead to a topology key |
| `DagExclusion.SweptAvoiding` | src/domains/agent-execution/dag-exclusion.ts:41-43 | from a set swept but for the objects being searched, nothing leads to a topology key without touching one of those |
| `DagExclusion.FindDagTopology` | src/domains/agent-execution/dag-exclusion.ts:35-59 | ends on every cyclic or shared payload; returns nothing if and only if no reachable object has a topology key, and otherwise steps that lead to one, before which in traversal order none do except by going through an object twice |
| `DocumentationCrawl.NewPageFound` | src/domains/codebase-knowledge/documentation-discovery.ts:166-203 | a page met for the first time is met at its shortest distance |
| `DocumentationCrawl.NothingMissed` | src/domains/codebase-knowledge/documentation-discovery.ts:158-214 | with an empty queue everything within the depth limit has been seen |
| `DocumentationCrawl.Roots` | src/domains/codebase-knowledge/documentation-discovery.ts:145-153 | exactly the index files of the manifest, agent instructions before the others |
| `DocumentationCrawl.CrawlExplores` | src/domains/codebase-knowledge/documentation-discovery.ts:139-214 | pages are valid, listed once, at their shortest distance, after their parents, within both limits; with nothing waiting they are exactly those reachable within maxDepth links, with something waiting there are maxPages of them |
| `DocumentationDiscovery.PushLinks` | src/domains/codebase-knowledge/documentation-discovery.ts:205-211 | queues, in order, exactly the links of the page that are in the manifest and not seen, with the page as parent |
| `DocumentationDiscovery.CrawlLevel` | src/domains/codebase-knowledge/documentation-discovery.ts:161-212 | one level goes as far on as one queue would; it stops exactly when an item is waiting and the page budget is used up |
| `DocumentationDiscovery.Discover` | src/domains/codebase-knowledge/documentation-discovery.ts:139-231 | the loop over levels lists what one first-come-first-served queue lists and reports truncation exactly if an item is left in it, with all that follows for the pages |
| `DocumentationDiscovery.TruncatedAtBudget` | src/domains/codebase-knowledge/documentation-discovery.ts:162-165 | a budget of just the pages there are is reported used up if and only if the last item of the crawl without a budget is not the first mention of a page |
| `DocumentationDiscovery.TruncationExact` | src/domains/codebase-knowledge/documentation-discovery.ts:162-165 | truncation is reported if and only if more pages are reachable than the budget, or just as many and the last item that a crawl without a budget handles is not the first mention of a usable page; in the second case nothing is left out |
| `DocumentationDiscovery.TruncatedWithNothingLeftOut` | src/domains/codebase-knowledge/documentation-discovery.ts:158-214 | two index files linking to one page, with a budget of three: all three pages are listed and truncation is reported |
| `Glob.SplitMeans` | src/domains/codebase-knowledge/contracts.ts:80-80 | splitting a pattern at its stars keeps its meaning |
| `Glob.GlobMatch` | src/domains/codebase-knowledge/contracts.ts:78-92 | the loop computes the leftmost search for the parts |
| `Glob.PlacedIsAfter` | src/domains/codebase-knowledge/contracts.ts:82-89 | placing the parts between two positions of the value is matching the text between them |
| `Glob.GreedyExact` | src/domains/codebase-knowledge/contracts.ts:82-91 | the leftmost search succeeds exactly when the parts can be placed and, unless the last part is empty, not so as to end earlier |
| `Glob.GlobExact` | src/domains/codebase-knowledge/contracts.ts:78-92 | globMatch says yes if and only if the value matches the pattern and, unless the pattern ends in a star, no proper prefix of the value matches it too |
| `Glob.GlobSound` | src/domains/codebase-knowledge/contracts.ts:78-92 | a yes is always right, and for patterns ending in a star so is a no |
| `Glob.GlobMissesRepeatedSuffix` | src/domains/codebase-knowledge/contracts.ts:85-90 | `aa` matches `*a`, and globMatch says no |
| `Glob.MatchParts` | src/domains/codebase-knowledge/contracts.ts:60-76 | exact over the component matcher, a lone star spanning any number of directories |
| `Glob.MatchSensitivePattern` | src/domains/codebase-knowledge/contracts.ts:48-58 | matches by path components if the pattern has a slash, by base name otherwise |
| `Glob.IsSensitivePath` | src/domains/codebase-knowledge/contracts.ts:39-46 | true exactly when some pattern matches the path with backslashes turned into slashes |
| `Glob.InfixPattern` | src/domains/codebase-knowledge/contracts.ts:25-29 | a pattern `*word*` catches exactly the names that contain the word |
| `Scheduling.ClassifyExact` | src/domains/orchestration/contracts.ts:261-297 | for evidence with one entry per node, a node is serialized behind b if and only if b is the last of the earlier nodes it collides with |
| `Scheduling.BuildBlockers` | src/domains/orchestration/sqlite-store.ts:1682-1690 | the map holds exactly the recorded blockers of the entries |
| `Scheduling.BlockersExact` | src/domains/orchestration/sqlite-store.ts:1682-1690 | with all entries in the work, a node is blocked by the last earlier node it collides with, or collides with no earlier one |
| `Scheduling.CollidersSerialized` | src/domains/orchestration/contracts.ts:273-296 | no two colliding nodes are both left unblocked |
| `Scheduling.BlockersSmaller` | src/domains/orchestration/contracts.ts:286-291 | every blocker is a node of the evidence with a strictly smaller id |
| `Scheduling.ChainEnds` | src/domains/orchestration/contracts.ts:286-291 | following blockers from any node ends at an unblocked node |
| `Scheduling.ChainDescends` | src/domains/orchestration/contracts.ts:286-291 | no chain of blockers comes back to a node it has left |

## Left out

- Processes, sockets, containers, the sandbox broker, the task runner, git, model providers, HTTP status mapping and Graphify adapters: operating-system and foreign calls.
- The proof harness package and report assembly: input and output without protocol state.
- Cache eviction (`src/domains/codebase-knowledge/controller-index-cache.ts`, lines 247 to 260): it splices the list it iterates over, so its budget does not hold as written and it is not modelled.
- Field-by-field validators (manifest, execution context, attempt contract, evidence, limits, sanitizing patterns), model routing, phase artifacts, phase grants and the fallback ledger: straight-line checks that would add only easy members.
- Validation of submissions other than duplicate ids, edges and cycles: a request carries what validation makes of its body, or nothing.
- Migrations, triggers, file permissions and the audit log; a unique index or trigger that raises is modelled as the error reply with nothing changed.
- The text fields of works and nodes (intent, change specification, criteria, repository, branch, approval) are one opaque text per row that no transition reads; frozen graph revisions and scheduling decision rows are not stored.
- OrchestrationStore.CheckNodeList: checks ids, duplicates and dependency lists, not the text, criteria and origin fields of a node.
- OrchestrationStore.CheckWork: checks ids, duplicates, dependency lists, edges and cycles, not the other fields of a work.
- OrchestrationStore.OrchestrationStore.ImportApprovedWork: replies to violations of the checks above only.
- OrchestrationStore.OrchestrationStore.ImportDirectTask: the same, and the length of the payload hash, which is always that of a digest, is not checked.
- OrchestrationStore.OrchestrationStore.RecordProofResult: apart from the identity checks the input is taken as valid; equality of a repeated proof is equality of the rows, because the original compares check lists sorted by two different collations.
- OrchestrationStore.OrchestrationStore.ClaimLease: the token is a parameter; drawing a random one is not modelled, so freshness of tokens is not claimed.
- StoreRuns.TerminalIsOwnOutcome: needs driver-level runs, which complete an attempt with the node ids of its own authorization and leave end states to completion; the store alone does not enforce this.
- DispatchService.RunEntry: the branch for a missing node record is left out because the frontier is computed from the same records; a transition that throws is not told apart from one that returns an error.
- DispatchSafety.Allowed: outside of dispatch passes nodes are made ready only if they have no dependencies, as the direct-task service does.
- DispatchLaws.PassDispatches: is about a pass whose reads are current; with stale reads only safety is proved (`DispatchSafety.NextKeepsInv`).
- WholeWorks.WorkIsBroughtToItsEnd: is about a work without blockers, ids within the store's limits and not stored under before, workers that all succeed, and no other calls in between.
- BlockedDispatch.BlockedForEver: takes a pass with its reads and writes as one step; passes that read before the blocker was recorded are not in it.
- ReconcileModel.CutOffRunConverges: is about attempts created with derived ids and the same listing order and clock in both runs; it compares databases, and `ReconcileJobs.QueueAfterCutOff` says how the queues differ.
- CanonicalPrinter.CanonicalizeValue: a finite number is the text that JSON gives it, arrays have no holes, and a cyclic value, which the original stops at the depth limit, is not a value of the model.
- DirectTaskService.PostTask: HTTP statuses and the messages of violations are left out; of the manifest only the limits on what the unit contributes are modelled, the rest of combining it and writing acceptances as text are functions given to the service.
- ClaimLoop.ClaimResumes: is about a store with one direct task; `ClaimTurns` and `ClaimStarvation` are about any number.
- ClaimStarvation.ShutForEver: is about invocations up to the claim; a worker that still runs under an earlier claim may end its own task.
- ClaimStarvation.TurnComesExactly: takes the derived id of a node without attempts not to be in use for another node; when it is, `DispatchService.HandedAnothersExactly` tells.
- ClaimOnce.Finish: the worker itself is left out; how its run ended is a parameter, and a proof row is its identity, builder, result id and outcome.
- ClaimOnce.Record: writes that fail for other reasons than a refusal by the store are not told apart from a run without a record.
- PoolRuntime.MinimalPoolRuntime.Finish: a job's result value is not modelled, only that its promise is resolved once.
- DagExclusion.FindDagTopology: a path is a list of steps, not its text; letters are lowered as in ASCII, which is exact for the listed keys because no other code unit lowers to one of their letters.
- DocumentationDiscovery.Discover: the file checks are one predicate and link extraction is a function; titles and front matter are left out, and with them the exception that an invalid source path in front matter raises.
- Glob.IsSensitivePath: takes the list of patterns as a parameter.
- Scheduling.BuildBlockers: the comparison of the evidence with the stored work, which can turn serialization off as a whole, is left out.
