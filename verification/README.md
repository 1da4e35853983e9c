# Lattiam: verified model of the deployment pipeline

Lattiam takes a request for infrastructure resources, orders the resources by the
`${type.name...}` references between them, applies them one after another through Terraform
providers, records each result in a Terraform state, and tracks every deployment from queue to
final status. This project models that pipeline and the protocols around it, and proves what each
of them guarantees over every input, every iteration order, every fault and every interleaving.

| file | component |
|---|---|
| `Interpolation.dfy` | the two scanners for `${...}`, references to resources |
| `DependencyGraph.dfy`, `Resolver.dfy` | walks, cycles and orders; graph building, three-colour cycle check, topological sort |
| `OrderFilter.dfy`, `ChangeOrder.dfy` | filtering an order by a table; the change-order calculator |
| `TerraformState.dfy`, `Executor.dfy`, `DeployRun.dfy`, `DestroyRun.dfy` | the state's resource list; sorting; whole deploy and destroy runs |
| `LockProtocol.dfy`, `LockLeases.dfy` | the DynamoDB lock as a step system over many processes; its leases and refreshers in time |
| `CircuitBreaker.dfy`, `QueueResilience.dfy`, `FallbackQueue.dfy` | breaker, retry with backoff, fallback queue |
| `Saga.dfy` | the transaction coordinator and its compensations |
| `FileStore.dfy` | the file adapter's two files under crashes and failed writes |
| `BinaryCache.dfy` | the provider cache's table of per-key mutexes |
| `EmbeddedQueue.dfy`, `Tracker.dfy`, `WorkerPool.dfy` | queue, tracker with its store, worker and event handlers |
| `Wrappers.dfy` | `Option`, `Result`, facts about sequences without duplicates |

Objects that the program updates in place are classes, loops are loops, and each such method is
proved equal to a function on values; the whole-run theorems are about those functions. Concurrent
components are step systems: one step is one critical section, one message or one file operation,
and a run is any sequence of enabled steps. Go's map iteration order is a nondeterministic choice,
so every result holds for every order. Providers, interpolation, saves, clocks, the error
classifier and cancellation are arbitrary functions or parameters.

## What the proofs found

- **Lock.** Exclusion needs one condition more than "no lease lapses and nobody forces an unlock":
  the owner is the process, not the handle, so a release whose delete arrives late removes the lock
  that the same process has taken again. `ExclusionKeptExactly` proves that a run keeps exclusion,
  now and in every hazard-free future, if and only if it has none of the three hazards; after each
  of them any process can become a second holder (`HazardLosesExclusion`).
  A working refresh keeps every lease if and only if the refresh interval plus twice the longest
  request is within the TTL (`LeasesKeptExactly`): the item's TTL counts from the clock reading
  before the put, the first tick from its acknowledgement. The default interval of three minutes
  does not follow a shorter TTL. The shipped refresh names an undeclared attribute and never
  extends a lease (`WithoutRefreshTheLeaseIsFixed`).
- **Breaker.** With a token that is stable over a half-open epoch the probe decides. With the
  shipped clock reading the reported token never matches, so half-open is never left
  (`ClockTokenNeverLeavesHalfOpen`).
- **Saga.** The rollback runs the compensations of the last k operations instead of those of the
  first k. It picks the right ones only when k is 0, so a failed enqueue leaves the deployment
  registered as Canceled (`CreateDeployment`).
- **Change order.** Changes whose key has no dot, and all but the last change of a repeated key,
  are dropped silently; the plan is a permutation exactly when there are none.
- **Destroy.** An entry without instances or with nil attributes is reported "destroyed" and stays
  in the state (`NothingToDeleteStays`).
- **File adapter.** The two files always agree as far as promised, but a failed write followed by a
  crash between the files lets the state's serial go backwards (`SerialCanGoBack`). Metadata files
  that a restart cannot read are skipped: the files then agree throughout if and only if no state
  is written for a deployment whose skipped metadata file is still there (`AgreementExactly`).
- **Tracker.** The result is written into the caller's own configuration map, so registering that
  request again brings the old result back after a restart (`OldResultReturns`), and two requests
  that share one map leak a result from one deployment to the other (`SharingSpreadsResult`). Loads
  stay faithful if and only if every registration brings a map of its own without a result
  (`FaithfulRunExactly`). The error text of a failed deployment is erased from the store by the first
  change after a restart (`ErrorTextIsLost`).
- **Worker.** On an asynchronous bus the published result can be replaced by the worker's default
  (`PublishedResultCanBeLost`).
- **Binary cache.** A cleanup costs exclusion if and only if it drops a key that somebody is
  visiting, which takes a visit that has outlived the stale timeout (`CleanupCostsExclusionExactly`).
- **Fallback queue.** Two operations of one name within a millisecond share a key, and the first is
  lost (`OverwrittenExactlyOnCollision`). An operation that is only parked is reported to the
  breaker as a success.

## Model

| member | source | states |
|---|---|---|
| `Interpolation.ReadingUnique` | internal/dependency/resolver.go:202-235 | a string has exactly one left-to-right reading into outermost, balanced, disjoint interpolations and an optional unclosed opener |
| `Interpolation.LeadingIsPrefix` | internal/dependency/resolver.go:207-235 | whatever a scan has met so far is a prefix of the string's one reading |
| `Interpolation.ClosesAt` | internal/dependency/resolver.go:212-223 | a body is closed by at most one brace |
| `Interpolation.FirstOpener` | internal/dependency/resolver.go:209-212 | a position has at most one next opener |
| `Interpolation.MatchBrace` | internal/dependency/resolver.go:212-223 | stops just after the brace that balances the body, or at the end when no prefix of the rest ever closes it |
| `Interpolation.CloseBrace` | internal/dependency/parser.go:79-91 | finds the closing brace of the specification, or that none exists |
| `Interpolation.FindBodies` | internal/dependency/resolver.go:207-235 | returns the bodies of the string's one reading, all of them and in order |
| `Interpolation.SkipLine` | internal/dependency/parser.go:54-63 | stops at the first line break, or at the end |
| `Interpolation.SkipBlock` | internal/dependency/parser.go:42-50 | stops just past the first end of the block, passing no earlier one; at the last character when there is none |
| `Interpolation.SkipComment` | internal/dependency/parser.go:33-63 | outside string literals moves past a line, hash or block comment; otherwise stays |
| `Interpolation.LiteralIsText` | internal/dependency/parser.go:65-73 | a string literal reaches to the next unescaped quote of its own kind; comment characters and other quotes in it are text |
| `Interpolation.ParseOne` | internal/dependency/parser.go:75-105 | one interpolation: unclosed and empty ones are the error of the whole parse, a valid expression is kept, any other dropped |
| `Interpolation.ParseInterpolations` | internal/dependency/parser.go:25-111 | equals the recursive specification on every string; kept expressions are the valid ones among disjoint in-order balanced bodies; without '/' and '#' bodies and error are those of the one reading |
| `Interpolation.LineCommentHides` | internal/dependency/parser.go:33-63 | an unquoted comment on the last line hides everything after it, openers and errors included |
| `Interpolation.BlockCommentHides` | internal/dependency/parser.go:42-50 | an unquoted block comment hides everything up to its first end |
| `Interpolation.ValidExpressionIsFirstChar` | internal/dependency/parser.go:140-161 | the search for an identifier character never decides: validity is that of the first character |
| `Interpolation.ScannersAgree` | internal/dependency/parser.go:25-111 | without comment characters the parser succeeds iff the raw scan closes every opener and finds no empty body, and then returns the valid part of the raw bodies |
| `Interpolation.ScanBoth` | internal/dependency/resolver.go:202-235 | the agreement, stated of both scanners on one input |
| `Interpolation.CommentsSeparateTheScanners` | internal/dependency/parser.go:54-63 | behind a '#' the raw scan finds a body and the parser none |
| `Interpolation.Reference` | internal/dependency/parser.go:115-137 | none exactly for a body with a call or without a dot; otherwise the body up to its second dot |
| `Interpolation.IndexOf` | internal/dependency/parser.go:121-128 | the first place of a character, or the length |
| `Interpolation.ExtractResourceReferences` | internal/dependency/parser.go:115-137 | the references of the bodies in order, without repetitions |
| `Wrappers.DeduplicatedInOrder` | internal/dependency/parser.go:115-137 | removing repetitions keeps the order of first appearance |
| `Interpolation.FindInterpolations` | internal/dependency/resolver.go:202-241 | exactly the keys that the string's interpolations refer to |
| `Interpolation.MentionByReading` | internal/dependency/resolver.go:202-241 | what a string mentions does not depend on how it is read |
| `Interpolation.MentionHasDot` | internal/dependency/parser.go:119-128 | a mentioned key has a dot |
| `DependencyGraph.WalkDescends` | internal/dependency/resolver.go:68-120 | along any dependency walk a dependencies-first order is strictly descended |
| `DependencyGraph.OrderAt` | internal/dependency/resolver.go:80-102 | at every place of the order: the node is new and its dependencies are all earlier |
| `DependencyGraph.OrderDistinct` | internal/dependency/resolver.go:68-120 | an order has no node twice |
| `DependencyGraph.OrderExcludesCycles` | internal/dependency/resolver.go:68-120 | no cycle passes through a node of a dependencies-first order |
| `DependencyGraph.OrderImpliesAcyclic` | internal/dependency/resolver.go:123-177 | an order covering the declared nodes exists only if no cycle is reachable |
| `DependencyGraph.OrderHoldsReachable` | internal/dependency/resolver.go:68-120 | such an order contains every reachable node, dangling ones included |
| `DependencyGraph.DependencyStandsBefore` | internal/dependency/resolver.go:68-120 | direct or transitive dependencies stand strictly before, and never after, their dependents |
| `DependencyGraph.OrderIsPermutation` | internal/dependency/resolver.go:263-281 | where no dependency dangles the order is a permutation of the declared nodes |
| `DependencyGraph.SameCycles` | internal/dependency/resolver.go:123-177 | whether a cycle is reachable does not depend on how dependencies are listed |
| `DependencyGraph.SameDependsOn` | internal/dependency/resolver.go:68-120 | nor does what depends on what |
| `Resolver.ExtractRecursive` | internal/dependency/resolver.go:186-199 | adds exactly the keys mentioned anywhere in a nested value |
| `DependencyGraph.MentionsExactly` | internal/dependency/resolver.go:186-199 | a value mentions a key iff a string at the end of some path into it refers to the key |
| `Resolver.RemoveDuplicates` | internal/dependency/resolver.go:349-361 | the first occurrence of each element, in order |
| `Wrappers.DeduplicatedDistinct` | internal/dependency/resolver.go:349-361 | what remains has no element twice |
| `Resolver.ExtractDependencies` | internal/dependency/resolver.go:180-184 | each key mentioned anywhere in the properties, once |
| `Resolver.AddNodes` | internal/dependency/resolver.go:32-52 | the last node of each key, with its own dependencies; other entries unchanged |
| `Resolver.AddDependent` | internal/dependency/resolver.go:56-61 | adds exactly the pairs of one node |
| `Resolver.BuildDependents` | internal/dependency/resolver.go:54-62 | the dependents map is the dependencies map inverted |
| `Resolver.BuildDependencyGraph` | internal/dependency/resolver.go:23-65 | nodes under "type.name" and "data.type.name", edges exactly what the extractor finds, dependents inverse to dependencies |
| `Resolver.GraphUnique` | internal/dependency/resolver.go:23-65 | a request has one graph, up to the order in which dependencies are listed |
| `Resolver.ValidateDependenciesExist` | internal/dependency/resolver.go:263-281 | fails iff some dependency dangles, and names one that does |
| `Resolver.CycleChecker.constructor` | internal/dependency/resolver.go:125-135 | all declared nodes are white, the path is empty |
| `Resolver.CycleChecker.ReportCycle` | internal/dependency/resolver.go:138-150 | the node is on the path, so the index is never -1, and the slice it starts is a genuine reachable cycle |
| `Resolver.CycleChecker.Enter` | internal/dependency/resolver.go:155-157 | the gray set becomes exactly the extended path; colours stay disjoint |
| `Resolver.CycleChecker.Leave` | internal/dependency/resolver.go:165-167 | gray is again exactly the path; the finished nodes still form a dependencies-first order |
| `Resolver.CycleChecker.Dfs` | internal/dependency/resolver.go:137-168 | terminates; returns a reachable cycle, or blackens the node and everything below it and restores the path |
| `Resolver.ValidateNoCycles` | internal/dependency/resolver.go:123-177 | reports an error iff a cycle is reachable from a declared node, and the sequence reported is one |
| `Resolver.Sorter.constructor` | internal/dependency/resolver.go:75-78 | nothing visited, the path is empty |
| `Resolver.Sorter.Enter` | internal/dependency/resolver.go:88-88 | the temporary marks are exactly the extended path |
| `Resolver.Sorter.Leave` | internal/dependency/resolver.go:97-101 | marks are again the path, and the result is still dependencies-first |
| `Resolver.Sorter.Visit` | internal/dependency/resolver.go:80-102 | keeps the result dependencies-first; its own cycle error arises only where a cycle is reachable |
| `Resolver.PathCycle` | internal/dependency/resolver.go:80-102 | a node met again on its own path closes a reachable cycle |
| `Resolver.OrderComplete` | internal/dependency/resolver.go:104-120 | covering the declared nodes with reachable ones gives exactly the reachable nodes |
| `Resolver.GetExecutionOrder` | internal/dependency/resolver.go:68-120 | for every iteration order: an error iff a cycle is reachable, never the sort's own; otherwise each reachable node once, after its dependencies |
| `OrderFilter.KeepHolds` | internal/dependency/change_ordering.go:63-80 | the filter keeps exactly the order's members of the table |
| `OrderFilter.KeepDistinct` | internal/dependency/change_ordering.go:63-80 | filtering keeps an order free of duplicates |
| `OrderFilter.BackwardStep` | internal/dependency/change_ordering.go:72-80 | one turn of the backward loop |
| `OrderFilter.KeepOrdered` | internal/dependency/change_ordering.go:63-69 | what a kept key depends on, also through dropped keys, is kept before it |
| `OrderFilter.KeepOrderedBack` | internal/dependency/change_ordering.go:72-80 | in the reversed filter it comes after it |
| `OrderFilter.SelectForward` | internal/executor/deployment_executor.go:165-171 | the table's entries for the kept keys, in order |
| `OrderFilter.SelectBackward` | internal/executor/deployment_executor.go:218-225 | the same entries, last first |
| `ChangeOrder.AsResource` | internal/dependency/change_ordering.go:91-123 | splitting a key at its first dot and joining it again gives the key back |
| `ChangeOrder.ConvertChangesToResources` | internal/dependency/change_ordering.go:86-123 | one resource per dotted change, with the side of the change its action asks for |
| `ChangeOrder.EdgesAreReads` | internal/dependency/change_ordering.go:86-123 | a key depends on another iff its last change refers to it: creates, updates and replaces in `after`, deletes in `before`, no-ops in `after`, or in `before` where `after` is nil |
| `ChangeOrder.CyclesAreRings` | internal/dependency/change_ordering.go:28-51 | a cycle is reachable iff changes refer to each other in a ring |
| `ChangeOrder.DependsOnIsReading` | internal/dependency/change_ordering.go:28-83 | transitive dependence is a chain of changes that refer to the next key |
| `ChangeOrder.PairFollows` | internal/dependency/change_ordering.go:60-80 | two changes of a plan stand in the order of their own references, direct or through a chain |
| `ChangeOrder.BuildChangeMap` | internal/dependency/change_ordering.go:53-58 | the last change of each key |
| `ChangeOrder.OrderChanges` | internal/dependency/change_ordering.go:60-80 | non-deletes forwards, then deletes backwards |
| `ChangeOrder.PlanOrdered` | internal/dependency/change_ordering.go:60-80 | every non-delete before every delete; non-deletes dependency first, deletes dependent first, transitively through filtered or dangling nodes |
| `ChangeOrder.PlanContents` | internal/dependency/change_ordering.go:28-83 | the plan holds the last change of every dotted key and nothing else |
| `ChangeOrder.PlanIsPermutation` | internal/dependency/change_ordering.go:28-123 | a permutation of the request iff keys are distinct and all dotted |
| `ChangeOrder.ReachableIsDotted` | internal/dependency/change_ordering.go:86-123 | no key without a dot is ever in the order |
| `ChangeOrder.PlanKeysDistinct` | internal/dependency/change_ordering.go:60-80 | no key twice in a plan |
| `ChangeOrder.PlanCorrect` | internal/dependency/change_ordering.go:28-83 | order, contents and permutation together |
| `ChangeOrder.CalculateExecutionOrder` | internal/dependency/change_ordering.go:28-83 | an error iff the changes refer to each other in a ring; otherwise non-deletes first, each after what its own `after` refers to, then deletes, each before what its `before` refers to; and all of the above for every graph of the changes |
| `ChangeOrder.Calculate` | internal/dependency/change_ordering.go:28-83 | the same for the graph that is built |
| `ChangeOrder.SameOutcome` | internal/dependency/change_ordering.go:28-83 | and so for every graph of the changes |
| `TerraformState.LookupReplaced` | internal/executor/deployment_executor.go:1408-1442 | replacing in place changes one (type, name) and keeps entries unique |
| `TerraformState.IndexFindsLookup` | internal/executor/deployment_executor.go:1398-1405 | the linear search finds what the map holds |
| `TerraformState.LookupAppended` | internal/executor/deployment_executor.go:1408-1442 | so does appending |
| `TerraformState.LookupRemoved` | internal/executor/deployment_executor.go:1445-1455 | removing leaves all others, and none for the id if entries were unique |
| `TerraformState.DuplicateSurvivesRemoval` | internal/executor/deployment_executor.go:1445-1455 | without uniqueness a second entry takes the first one's place |
| `TerraformState.State.constructor` | internal/executor/deployment_executor.go:1005-1012 | a state as loaded |
| `TerraformState.State.FindResource` | internal/executor/deployment_executor.go:1398-1405 | -1 iff no entry has the id; otherwise the first one, which the map reads |
| `TerraformState.State.UpdateResource` | internal/executor/deployment_executor.go:1408-1442 | a map update at one id: the first instance is new, the others stay; uniqueness kept, serial raised by one |
| `TerraformState.State.RemoveResource` | internal/executor/deployment_executor.go:1445-1455 | a map removal at one id; an absent id changes nothing, serial included |
| `Executor.BuildResourceMap` | internal/executor/deployment_executor.go:158-163 | the last resource of each key |
| `Executor.EntriesOrdered` | internal/executor/deployment_executor.go:165-171 | forwards, what a resource needs comes before it |
| `Executor.EntriesOrderedBack` | internal/executor/deployment_executor.go:218-225 | backwards, it comes after it |
| `Executor.SortedEntries` | internal/executor/deployment_executor.go:141-228 | filtered forwards and backwards, an order covers the request once per key, dependencies first respectively dependents first |
| `Executor.SortedByEvery` | internal/executor/deployment_executor.go:141-228 | a sort that is right for one graph of the request is right for all |
| `Executor.SortResources` | internal/executor/deployment_executor.go:141-174 | an error iff a cycle is reachable; otherwise each requested key once, dependencies before dependents |
| `Executor.SortForDestruction` | internal/executor/deployment_executor.go:194-228 | the same with dependents before dependencies |
| `DeployRun.AppliedStep` | internal/executor/deployment_executor.go:929-1057 | one more resource keeps the description of everything done so far |
| `DeployRun.ResultsStep` | internal/executor/deployment_executor.go:1040-1047 | a new result leaves the earlier results and contexts as they were |
| `DeployRun.StoreAfterStep` | internal/executor/deployment_executor.go:1048-1054 | a new save changes the store at one id only |
| `DeployRun.Run.ApplyNext` | internal/executor/deployment_executor.go:307-313 | one turn of the loop extends the applied resources and the calls by one, or ends the run with at most one refused call |
| `DeployRun.Run.UpdateAndSave` | internal/executor/deployment_executor.go:1048-1054 | a saved state differs in one id and a serial higher by one; a failed save changes nothing |
| `DeployRun.Run.ProcessResource` | internal/executor/deployment_executor.go:929-1057 | with provider and interpolated properties exactly one call: an update of the stored attributes if there are any, else a creation; its reply is the result; any failure changes nothing |
| `DeployRun.ProcessAll` | internal/executor/deployment_executor.go:306-313 | applies a prefix, up to the first resource that is refused |
| `DeployRun.ExecuteDeployment` | internal/executor/deployment_executor.go:274-322 | wherever the run stops, the applied set is closed under in-request dependencies, the provider calls are one for each applied resource and at most the refused one, and the store is what their replies make of the old one |
| `DeployRun.StoredIsResult` | internal/executor/deployment_executor.go:1048-1079 | the state has the attributes of the result of an applied resource iff its save worked or it had them before |
| `DeployRun.RunSummary` | internal/executor/deployment_executor.go:274-322 | applied entries equal results iff saved or equal before, all others and the lineage are unchanged, entries stay unique, the serial grows iff something was saved |
| `DeployRun.ContextHolds` | internal/executor/deployment_executor.go:1020-1047 | the context has this run's result for everything applied |
| `DeployRun.CallsAreRight` | internal/executor/deployment_executor.go:929-1057 | the i-th provider call of a run is the only one for the i-th applied resource, interpolated with this run's results of all it needs, an update of the attributes stored before the run iff there were any, and its reply is the result |
| `DestroyRun.Run.DestroyResource` | internal/executor/deployment_executor.go:1237-1317 | deletes only what was acquired and has attributes; records "failed" iff acquisition or delete failed; removes the entry iff delete and save worked |
| `DestroyRun.Run.RemoveAndSave` | internal/executor/deployment_executor.go:1301-1307 | a saved removal drops one id; a failed save changes nothing |
| `DestroyRun.StoreAfterStep` | internal/executor/deployment_executor.go:1237-1317 | one more resource keeps the description of the store; it still has what it had before the run |
| `DestroyRun.DestroyAll` | internal/executor/deployment_executor.go:1205-1219 | goes through every resource whatever fails |
| `DestroyRun.ExecuteDestroy` | internal/executor/deployment_executor.go:1172-1232 | an error iff a cycle is reachable, and then nothing is touched; otherwise statuses, calls and store are those of the whole request, dependents first |
| `DestroyRun.StatusRecorded` | internal/executor/deployment_executor.go:1205-1219 | every requested key has a status, "failed" iff acquisition or delete failed |
| `DestroyRun.KeptExactly` | internal/executor/deployment_executor.go:1172-1317 | a requested id is in the state afterwards iff it was before and was not deleted and saved |
| `DestroyRun.KeptIsFailed` | internal/executor/deployment_executor.go:1172-1317 | with working saves and something to delete, exactly the failed ones stay |
| `DestroyRun.NothingToDeleteStays` | internal/executor/deployment_executor.go:1274-1317 | empty or nil attributes: the entry stays although marked "destroyed" |
| `DestroyRun.CallsOrdered` | internal/executor/deployment_executor.go:194-228 | the provider is asked to delete dependents before dependencies |
| `LockProtocol.ExclusionLostExactly` | internal/state/dynamodb_lock.go:181-469 | from a safe state a step costs exclusion, that is leads to two holders without a further hazard, iff it is an expiry or forced unlock of a held lock, or an acquisition with the process's own delete still on the way |
| `LockProtocol.ExclusionKeptExactly` | internal/state/dynamodb_lock.go:181-469 | any run from a safe state keeps exclusion at every point and in every hazard-free future iff no step of it is such a hazard |
| `LockProtocol.HazardLosesExclusion` | internal/state/dynamodb_lock.go:181-469 | after any hazard any process becomes a second holder, without an expiry or a forced unlock, at once or after the late delete |
| `LockProtocol.SafeIsNotLost` | internal/state/dynamodb_lock.go:181-469 | from a safe state no hazard-free run reaches two holders |
| `LockProtocol.NonHazardKeeps` | internal/state/dynamodb_lock.go:181-469 | no other step does |
| `LockProtocol.ReleaseFrees` | internal/state/dynamodb_lock.go:436-469 | a release whose delete arrives leaves no holder, and any process can acquire the lock |
| `LockProtocol.DisciplinedRunIsSafe` | internal/state/dynamodb_lock.go:181-469 | in every run with no lapsed lease, forced unlock or such acquisition, each deployment has at most one unreleased handle and its process owns the item |
| `LockProtocol.FreshIsSafe` | internal/state/dynamodb_lock.go:181-206 | any table with no handles is a safe start |
| `LockProtocol.ForceUnlockBreaksExclusion` | internal/state/dynamodb_lock.go:330-345 | a run with a forced unlock and two holders |
| `LockProtocol.LapseBreaksExclusion` | internal/state/dynamodb_lock.go:290-327 | a run with a lapsed lease and two holders |
| `LockProtocol.LateDeleteBreaksExclusion` | internal/state/dynamodb_lock.go:436-469 | a run in which a late delete of a released handle leads to two holders |
| `LockLeases.StepKeepsInv` | internal/state/dynamodb_lock.go:290-327 | every step of the timed protocol leaves each holder's item alive until the holder's next refresh has arrived, late refreshes of released handles included |
| `LockLeases.RefreshesPeriodically` | internal/state/dynamodb_lock.go:290-327 | the next refresh reads the clock one interval after the last reading, not before, and the item then lives one TTL from the reading |
| `LockLeases.LeasesAreKept` | internal/state/dynamodb_lock.go:290-327 | with interval + 2 * delay within the TTL no orderly run lets a lease lapse, and exclusion holds in it |
| `LockLeases.SlowestLapses` | internal/state/dynamodb_lock.go:67-72 | otherwise, for every such timing, a run in which every request takes its time lapses |
| `LockLeases.LeasesKeptExactly` | internal/state/dynamodb_lock.go:67-72 | a working refresh keeps every lease in every orderly run iff interval + 2 * delay is within the TTL |
| `LockLeases.LapseCostsExclusion` | internal/state/dynamodb_lock.go:290-327 | a lapsed lease is one expiry and one put of any process away from two holders |
| `LockProtocol.WithoutRefreshTheLeaseIsFixed` | internal/state/dynamodb_lock.go:302-324 | with a refresh that never takes effect a handle is safe only up to its first TTL |
| `LockProtocol.OrphanBlocksEverybody` | internal/state/dynamodb_lock.go:229-266 | until expiry or forced unlock an item nobody holds blocks every acquisition of its deployment |
| `LockProtocol.UnacknowledgedPutOrphans` | internal/state/dynamodb_lock.go:229-266 | a put that succeeds but reports an error leaves such an item |
| `LockProtocol.AcquireLock` | internal/state/dynamodb_lock.go:207-287 | at most four puts, each but the last a transient error within the deadline; exactly when each of the four results is returned; waits double from 150 ms and never reach the cap |
| `CircuitBreaker.CircuitBreaker.constructor` | internal/infra/distributed/circuit_breaker.go:88-99 | closed, with zero counts |
| `CircuitBreaker.CircuitBreaker.ChangeState` | internal/infra/distributed/circuit_breaker.go:227-254 | a new state starts with zero counts, and an expiry only if open |
| `CircuitBreaker.CircuitBreaker.CurrentState` | internal/infra/distributed/circuit_breaker.go:209-224 | an expired open breaker turns half-open; anything else is unchanged; the token is zero unless half-open |
| `CircuitBreaker.CircuitBreaker.BeforeRequest` | internal/infra/distributed/circuit_breaker.go:130-146 | admits iff closed, open past its expiry, or half-open without a request so far; only an admitted request is counted, any other changes nothing |
| `CircuitBreaker.CircuitBreaker.AfterRequest` | internal/infra/distributed/circuit_breaker.go:149-165 | an outcome with another generation's token is ignored |
| `CircuitBreaker.CircuitBreaker.OnSuccess` | internal/infra/distributed/circuit_breaker.go:168-184 | the effect of a success in each state |
| `CircuitBreaker.CircuitBreaker.OnFailure` | internal/infra/distributed/circuit_breaker.go:187-206 | the effect of a failure in each state |
| `CircuitBreaker.OpenAdmitsNothing` | internal/infra/distributed/circuit_breaker.go:130-165 | in any run of calls before the expiry an open breaker admits nothing and stays open |
| `CircuitBreaker.OpenRecoversExactly` | internal/infra/distributed/circuit_breaker.go:130-146 | an open breaker lets a request through iff its expiry has passed; that request is the probe of a new half-open epoch |
| `CircuitBreaker.TrippedRecovers` | internal/infra/distributed/circuit_breaker.go:130-224 | after any run that tripped, under any configuration, a later request turns the breaker half-open and its success closes it |
| `CircuitBreaker.DefaultTrips` | internal/infra/distributed/circuit_breaker.go:60-63 | ten failures in a row open the default breaker, and not fewer |
| `CircuitBreaker.DefaultRecovers` | internal/infra/distributed/circuit_breaker.go:60-254 | the default breaker trips, turns half-open and closes again |
| `CircuitBreaker.EpochsStayCounted` | internal/infra/distributed/circuit_breaker.go:130-254 | in half-open the request counter tells whether the epoch's probe was admitted |
| `CircuitBreaker.OneProbePerEpoch` | internal/infra/distributed/circuit_breaker.go:130-146 | in every concurrent run, at most one request is admitted per half-open epoch |
| `CircuitBreaker.HalfOpenLeftExactly` | internal/infra/distributed/circuit_breaker.go:149-206 | whatever the tokens: half-open is left exactly by a report whose reading at that moment is its own token |
| `CircuitBreaker.TokensStep` | internal/infra/distributed/circuit_breaker.go:130-224 | one call keeps every token in flight with its own probe |
| `CircuitBreaker.StableRunKeeps` | internal/infra/distributed/circuit_breaker.go:130-224 | with a token stable over an epoch, every token in flight is zero or its own epoch's probe's |
| `CircuitBreaker.ProbeDecides` | internal/infra/distributed/circuit_breaker.go:149-206 | then the probe's outcome closes or reopens the breaker, and no other call leaves half-open |
| `CircuitBreaker.ClockTokenNeverLeavesHalfOpen` | internal/infra/distributed/circuit_breaker.go:209-224 | with increasing clock readings as tokens half-open is never left, and after the probe nothing is admitted |
| `CircuitBreaker.ShippedBreakerStaysHalfOpen` | internal/infra/distributed/circuit_breaker.go:209-224 | every run of the shipped breaker from its start that is once half-open stays half-open |
| `CircuitBreaker.OpenExactlyWhenMostlyFailed` | internal/infra/distributed/circuit_breaker.go:60-63 | a sequential run is open iff some prefix of at least ten outcomes ends in a failure and is mostly failures; otherwise the counters equal the history's |
| `CircuitBreaker.LastOutcome` | internal/infra/distributed/circuit_breaker.go:149-206 | the step from one history to the next |
| `QueueResilience.BackoffClimbsToTheCap` | internal/infra/distributed/queue_resilience.go:168-174 | with initial delay within the cap and factor at least one, waits never shrink and never exceed the cap |
| `QueueResilience.BackoffIsExponential` | internal/infra/distributed/queue_resilience.go:168-174 | with a whole factor the n-th wait is the initial delay times its n-th power, up to the cap |
| `QueueResilience.CappedExactlyWhenInitialIs` | internal/infra/distributed/queue_resilience.go:168-174 | all waits respect the cap iff the initial one does |
| `QueueResilience.QueueResilientExecutor.constructor` | internal/infra/distributed/queue_resilience.go:60-105 | a closed breaker, and an empty fallback queue exactly if enabled |
| `QueueResilience.QueueResilientExecutor.ExecuteFallback` | internal/infra/distributed/queue_resilience.go:242-268 | stores the operation in the fallback queue, or nothing if the request is cancelled by then |
| `QueueResilience.QueueResilientExecutor.Retry` | internal/infra/distributed/queue_resilience.go:119-181 | the loop ends in the first attempt that can end it, with that attempt's report; the queue gains the operation iff it was parked |
| `QueueResilience.EndMeans` | internal/infra/distributed/queue_resilience.go:119-181 | at most maxRetries calls; no error iff the last call succeeded or the operation was parked; parked only on a final error that recommends it; earlier calls all retryable; a retryable error before the last attempt is given up only for a cancellation or memory pressure; a final one is parked, cancelled at the fallback or reported; waits as scheduled |
| `QueueResilience.ReportUnique` | internal/infra/distributed/queue_resilience.go:119-181 | errors, cancellations and memory pressure determine the report |
| `QueueResilience.QueueResilientExecutor.ExecuteWithRetry` | internal/infra/distributed/queue_resilience.go:119-181 | both of these |
| `QueueResilience.QueueResilientExecutor.ExecuteWithResilience` | internal/infra/distributed/queue_resilience.go:108-116 | a refused request runs nothing and only settles the breaker; an admitted one reports success iff it returns no error, which is iff the last call succeeded or the fallback queue now holds the operation |
| `FallbackQueues.FallbackQueue.constructor` | internal/infra/distributed/fallback_queue.go:32-45 | empty |
| `FallbackQueues.FallbackQueue.Store` | internal/infra/distributed/fallback_queue.go:48-69 | always accepts, under the operation's name and millisecond |
| `FallbackQueues.FallbackQueue.Cleanup` | internal/infra/distributed/fallback_queue.go:136-153 | exactly the operations past their expiry go |
| `FallbackQueues.FallbackQueue.Retry` | internal/infra/distributed/fallback_queue.go:72-116 | each unexpired operation is tried once; exactly those that succeed leave, and are counted |
| `FallbackQueues.CallMeans` | internal/infra/distributed/fallback_queue.go:48-153 | what each call does to each operation, by its own expiry time |
| `FallbackQueues.StaysUntilSwept` | internal/infra/distributed/fallback_queue.go:48-153 | an operation that never succeeds stays until the first cleanup after its expiry, and no longer |
| `FallbackQueues.TryingStep` | internal/infra/distributed/fallback_queue.go:82-109 | trying one more operation, and its count |
| `FallbackQueues.ParkConserves` | internal/infra/distributed/fallback_queue.go:48-69 | parking loses nothing it does not record as overwritten |
| `FallbackQueues.DropConserves` | internal/infra/distributed/fallback_queue.go:72-153 | what leaves by success or expiry is recorded once |
| `FallbackQueues.QueueConserves` | internal/infra/distributed/fallback_queue.go:48-153 | after any run every accepted operation is waiting, succeeded, expired or overwritten, exactly one of these |
| `FallbackQueues.OverwrittenExactlyOnCollision` | internal/infra/distributed/fallback_queue.go:180-182 | parking loses a waiting operation iff it has the same name and millisecond |
| `Saga.Transaction.constructor` | internal/deployment/transaction.go:64-78 | pending, without operations |
| `Saga.Transaction.AddOperation` | internal/deployment/transaction.go:81-84 | operations in order, compensations in reverse order |
| `Saga.Transaction.Execute` | internal/deployment/transaction.go:87-120 | commits iff all operations complete; otherwise the first k compensations of the list run on the world reached |
| `Saga.ForwardMeans` | internal/deployment/transaction.go:87-120 | the completed operations are those before the first that is cancelled before it starts or fails, each run in the world its predecessors left |
| `Saga.Transaction.Rollback` | internal/deployment/transaction.go:123-150 | runs them all whatever errors occur, and is Failed iff one did |
| `Saga.IntendedRollbackRestores` | internal/deployment/transaction.go:123-150 | running the completed operations' own compensations in reverse restores the initial world |
| `Saga.ShippedRunsTheLast` | internal/deployment/transaction.go:123-150 | the shipped loop runs the compensations of the last k operations |
| `Saga.ShippedAgreesOnlyOnNothing` | internal/deployment/transaction.go:123-150 | on a rollback, with distinct compensations, these are the completed operations' own iff none had completed |
| `Saga.CreateDeployment` | internal/deployment/transaction.go:153-198 | fails iff the ID is empty or tracked, or the queue closed or full; in the latter case the deployment stays registered as Canceled |
| `Saga.UnregisterWouldRestore` | internal/deployment/transaction.go:153-198 | the right compensation would give back the initial world |
| `FileStore.Adapter.constructor` | internal/system/state_store_adapter.go:51-80 | memory is what the readable metadata files say |
| `FileStore.Adapter.Restart` | internal/system/state_store_adapter.go:125-159 | after a restart it is again, except for the files that cannot be read |
| `FileStore.Adapter.GetOrCreateMeta` | internal/system/state_store_adapter.go:191-209 | the metadata in memory, or a new one with serial 0 |
| `FileStore.Adapter.UpdateDeploymentState` | internal/system/state_store_adapter.go:214-250 | the store after an update, for a fault or crash at each point of it; a successful one leaves the given content, the next serial and the lineage in file, metadata and memory |
| `FileStore.Adapter.DeleteDeploymentState` | internal/system/state_store_adapter.go:279-310 | the store after a delete, for a fault or crash at each point of it; a successful one leaves nothing of the deployment and touches no other |
| `FileStore.UpdateMeans` | internal/system/state_store_adapter.go:214-250 | a successful update stores what it was given; no update touches another deployment's files |
| `FileStore.DiskIsHistory` | internal/system/state_store_adapter.go:214-310 | after any events with any faults a state file exists iff the last event that reached it was an update, and holds that update's content; so for metadata files |
| `FileStore.UpdateKeeps` | internal/system/state_store_adapter.go:214-250 | an update keeps the files in agreement wherever it is hit |
| `FileStore.DeleteKeeps` | internal/system/state_store_adapter.go:279-310 | so does a delete |
| `FileStore.CrashConsistency` | internal/system/state_store_adapter.go:125-310 | through any sequence of updates, deletes, reads, faults and crashes whose restarts read all metadata, two existing files have the same lineage and the metadata serial is at most the state serial |
| `FileStore.WriteAgreesExactly` | internal/system/state_store_adapter.go:214-250 | a write keeps the files in agreement iff the metadata in use continues the metadata file, if there is one |
| `FileStore.WriteAfterRestartAgreesExactly` | internal/system/state_store_adapter.go:143-151 | the first write after a restart keeps agreement iff its metadata file was not skipped |
| `FileStore.ForgottenExactly` | internal/system/state_store_adapter.go:125-159 | metadata is forgotten exactly by a restart that skips its file, until the file is read, deleted or replaced |
| `FileStore.AgreementExactly` | internal/system/state_store_adapter.go:125-310 | whatever the restarts skip, the files agree at every point of a run iff no state is written for a forgotten deployment |
| `FileStore.SerialGrowsExactly` | internal/system/state_store_adapter.go:214-250 | a written state has a higher serial than the one it replaces iff memory was as far as that one |
| `FileStore.NoCrashKeepsSerialsGrowing` | internal/system/state_store_adapter.go:191-250 | without crashes memory never falls behind, whatever writes fail |
| `FileStore.CrashKeepsSerialsExactly` | internal/system/state_store_adapter.go:125-159 | a crash keeps serials growing iff no state file's metadata file is behind, missing or skipped |
| `FileStore.SerialCanGoBack` | internal/system/state_store_adapter.go:214-250 | a run in which the serial of a lineage decreases |
| `BinaryCache.MutualExclusion` | internal/provider/binary_cache.go:166-177 | under the invariant at most one goroutine is past its Lock per key |
| `BinaryCache.GetLockKeeps` | internal/provider/binary_cache.go:313-327 | getLock hands out the table's mutex and keeps the invariant |
| `BinaryCache.LockKeeps` | internal/provider/binary_cache.go:174-177 | locking keeps the invariant |
| `BinaryCache.CheckKeeps` | internal/provider/binary_cache.go:179-190 | looking into the cache keeps it |
| `BinaryCache.VisitDelivers` | internal/provider/binary_cache.go:179-202 | a visit downloads iff it does not find the binary, and leaves it in place if the download works |
| `BinaryCache.UnlockKeeps` | internal/provider/binary_cache.go:174-177 | unlocking keeps it |
| `BinaryCache.FinishKeeps` | internal/provider/binary_cache.go:166-202 | a finished download is of a key nobody else downloads and that is not there |
| `BinaryCache.RemoveKeeps` | internal/provider/binary_cache.go:205-245 | removing an old version, without a lock, disturbs no visit |
| `BinaryCache.CleanupKeeps` | internal/provider/binary_cache.go:535-555 | dropping entries that nobody visits keeps the invariant |
| `BinaryCache.TimelyIsNotStale` | internal/provider/binary_cache.go:535-555 | with timely visits an entry is dropped only when nobody holds or awaits its mutex |
| `BinaryCache.CleanupDropsExactly` | internal/provider/binary_cache.go:535-555 | a cleanup drops a mutex iff the last getLock for its key is longer ago than the timeout |
| `BinaryCache.CleanupCostsExclusionExactly` | internal/provider/binary_cache.go:535-555 | a cleanup leads to two goroutines in one critical section, without a further cleanup, iff it drops a visited key |
| `BinaryCache.TimelyRunIsExclusive` | internal/provider/binary_cache.go:166-202 | in every run of any goroutines, cleanups and removals with timely visits at most one goroutine per key is in its critical section, and a binary is placed at most once more than it was removed |
| `BinaryCache.StartIsFine` | internal/provider/binary_cache.go:313-327 | an empty lock table satisfies the invariant, whatever is cached |
| `BinaryCache.StaleVisitLosesExclusion` | internal/provider/binary_cache.go:535-555 | for every visit that is stale: the continuation in which a second goroutine enters beside it |
| `EmbeddedQueue.FifoKept` | internal/infra/embedded/queue.go:41-141 | delivered followed by waiting is what was accepted, without duplicates |
| `EmbeddedQueue.CountsKept` | internal/infra/embedded/queue.go:41-141 | counters lag exactly by the calls between send or receive and their counting section |
| `EmbeddedQueue.CancelsKept` | internal/infra/embedded/queue.go:41-188 | every step but the counting of an enqueue keeps cancel keys current by itself |
| `EmbeddedQueue.CountEnqueuedKeepsCancels` | internal/infra/embedded/queue.go:41-91 | a counted enqueue leaves its cancel function only while the deployment is queued or in flight |
| `EmbeddedQueue.StepKeeps` | internal/infra/embedded/queue.go:41-188 | every critical section keeps the whole invariant |
| `EmbeddedQueue.RunKeeps` | internal/infra/embedded/queue.go:41-141 | every interleaving keeps the invariant |
| `EmbeddedQueue.QueueGuarantees` | internal/infra/embedded/queue.go:41-188 | delivery is a FIFO prefix of what was accepted, depth equals the counters corrected by calls in flight, every cancel key is queued or in flight |
| `EmbeddedQueue.CanceledIsStillDelivered` | internal/infra/embedded/queue.go:93-141 | an accepted deployment is delivered or still waiting, cancelled or not |
| `EmbeddedQueue.CanceledExactly` | internal/infra/embedded/queue.go:93-160 | a context is cancelled iff its own Cancel ran, or Close found its cancel function |
| `EmbeddedQueue.NotCancelableAgain` | internal/infra/embedded/queue.go:93-141 | a deployment without a cancel function can never be cancelled again |
| `EmbeddedQueue.CancelMeans` | internal/infra/embedded/queue.go:93-115 | cancelling takes nothing out of the queue |
| `EmbeddedQueue.AcceptsExactly` | internal/infra/embedded/queue.go:41-91 | an open queue with room accepts and cannot refuse, a full one refuses and leaves no trace |
| `EmbeddedQueue.ClosedAcceptsNothing` | internal/infra/embedded/queue.go:143-160 | after Close nothing is accepted and nothing that waits is lost |
| `Tracker.DecodeEncode` | internal/infra/embedded/tracker.go:435-462 | a stored result comes back under its ID, without an empty error text, to the second |
| `Tracker.StoredFaithfullyExactly` | internal/infra/embedded/tracker.go:576-597 | storing loses nothing iff ID, error text and time are already in that form |
| `Tracker.Tracker.Load` | internal/infra/embedded/tracker.go:375-432 | for every order of the store's entries, all deployments and results in it |
| `Tracker.Tracker.Persist` | internal/infra/embedded/tracker.go:555-625 | the stored metadata keeps its creation time; the result goes into the request's own configuration map |
| `Tracker.Tracker.Register` | internal/infra/embedded/tracker.go:33-56 | refuses an empty or known ID; otherwise tracked and stored |
| `Tracker.Tracker.SetStatus` | internal/infra/embedded/tracker.go:96-136 | status with its time stamps, set once, written through |
| `Tracker.Tracker.SetResult` | internal/infra/embedded/tracker.go:229-308 | the result, and a final status unless there is one, written through |
| `Tracker.Tracker.SetError` | internal/infra/embedded/tracker.go:311-343 | the error, and Failed unless there is a final status, written through |
| `Tracker.Tracker.Remove` | internal/infra/embedded/tracker.go:200-224 | removed from memory, results and store |
| `Tracker.SetStatusMeans` | internal/infra/embedded/tracker.go:96-136 | the start is stamped by Processing, the completion by the five final statuses, each once; the store follows |
| `Tracker.SetResultMeans` | internal/infra/embedded/tracker.go:229-308 | a result decides the status unless it is completed, failed or cancelled; the store follows |
| `Tracker.SetErrorMeans` | internal/infra/embedded/tracker.go:311-343 | the error is recorded whatever the status, and fails the deployment unless it is over; the store has its text |
| `Tracker.RegisterMeans` | internal/infra/embedded/tracker.go:33-56 | refused iff the ID is empty or known |
| `Tracker.RemoveMeans` | internal/infra/embedded/tracker.go:200-224 | nothing of the deployment is left, and no other is touched |
| `Tracker.UnknownIsRefused` | internal/infra/embedded/tracker.go:96-343 | every operation on an unknown deployment is refused and changes nothing |
| `Tracker.FinalStatusSticks` | internal/infra/embedded/tracker.go:33-681 | in any run only an explicit new status leaves completed, failed or cancelled |
| `Tracker.ErrorTextIsLost` | internal/infra/embedded/tracker.go:555-681 | after a restart the next change erases the stored error text |
| `Tracker.PutInStep` | internal/infra/embedded/tracker.go:555-681 | writing a known deployment back keeps memory and store in step |
| `Tracker.RegisterInStep` | internal/infra/embedded/tracker.go:33-56 | so does registering one with a configuration of its own, which FaithfulExactly shows is needed |
| `Tracker.RemoveInStep` | internal/infra/embedded/tracker.go:200-224 | so does removing one |
| `Tracker.RestartInStep` | internal/infra/embedded/tracker.go:375-462 | so does a restart |
| `Tracker.StepInStep` | internal/infra/embedded/tracker.go:33-343 | so does every operation |
| `Tracker.LoadRestores` | internal/infra/embedded/tracker.go:375-462 | loading gives the same IDs, statuses, creation and completion times, and the same results up to the stored form |
| `Tracker.RunStaysInStep` | internal/infra/embedded/tracker.go:33-681 | memory and store stay in step through any sequence of operations and restarts |
| `Tracker.EmptyIsInStep` | internal/infra/embedded/tracker.go:375-432 | a tracker on an empty store is in step |
| `Tracker.UncleanBringsResult` | internal/infra/embedded/tracker.go:555-625 | a configuration with a stored result gives the new deployment that result at the next load |
| `Tracker.SharingSpreadsResult` | internal/infra/embedded/tracker.go:576-597 | a configuration that another tracked deployment uses gives the new one the other's result |
| `Tracker.FaithfulExactly` | internal/infra/embedded/tracker.go:33-56 | a registration keeps all later loads right iff its configuration has no result and is its own |
| `Tracker.FaithfulRunExactly` | internal/infra/embedded/tracker.go:33-681 | any run of operations and restarts keeps loads right at every point iff every registration in it is such |
| `Tracker.OldResultReturns` | internal/infra/embedded/tracker.go:576-597 | a reused configuration brings an old result back |
| `WorkerPool.StatusKept` | internal/infra/embedded/worker_pool.go:157-223 | the status is Processing until somebody knows the final one, and then stays |
| `WorkerPool.HandlersKept` | internal/events/deployment_events.go:69-86 | handlers wait only on an asynchronous bus after a publication |
| `WorkerPool.ResultKept` | internal/infra/embedded/tracker.go:229-308 | where the stored result comes from, at every point |
| `WorkerPool.RunKeeps` | internal/infra/embedded/worker_pool.go:157-223 | every interleaving of worker and handlers keeps the invariant |
| `WorkerPool.OverExactlyWhenDone` | internal/infra/embedded/worker_pool.go:157-223 | no run gets stuck before worker and handlers are done |
| `WorkerPool.RunIsBounded` | internal/infra/embedded/worker_pool.go:157-223 | no run is longer than eleven steps |
| `WorkerPool.RunCompletes` | internal/infra/embedded/worker_pool.go:157-223 | every run can be completed |
| `WorkerPool.FinalStatusAndResult` | internal/infra/embedded/worker_pool.go:157-223 | every finished run ends Completed or Failed as the executor returned, with its times and error recorded, and keeps the published result unless a handler wrote between check and default |
| `WorkerPool.SynchronousNeverClobbers` | internal/events/deployment_events.go:69-86 | which cannot happen on a synchronous bus |
| `WorkerPool.PublishedResultCanBeLost` | internal/executor/deployment_executor.go:1060-1079 | and does happen on an asynchronous one |

## Left out

- HTTP server, handlers, command line, configuration loading, logging and metrics: no deep invariant.
- AWS, S3, Redis and asynq clients, dead-letter handling and the distributed tracker and worker pool: only the conditional writes of the lock table are modelled.
- HCL evaluation: interpolation is an arbitrary function of properties and context; provider processes, downloads and checksums are arbitrary outcomes.
- Dry-run mode, data sources and the filling of the initial interpolation context: the context a run starts from is an arbitrary map.
- `ExecuteUpdate` beyond the ordering of its changes.
- Entry fields of the Terraform state other than type, name and instances; loading a state fails only when the file is absent.
- Integer widths: serials, counters and times are unbounded.
- Executor.Environment: what a provider or a save answers is a function of the resource and its arguments, because each resource is touched at most once in a run.
- LockProtocol.DisciplinedRunIsSafe, like the leases in time: refresh is modelled with the owner check the code intends; the shipped one, whose condition names an undeclared attribute, is covered by `WithoutRefreshTheLeaseIsFixed`.
- Lock table, breaker runs, cache, queue and worker pool are step systems over values: updates in place and aliasing are modelled for the breaker, the fallback queue, the saga, the file adapter, the tracker and the executor.
- Which old versions the binary cache removes, its validation of cached files and the queue's waiting-time metrics.
- Subscribing to the event bus and the handlers for destroyed deployments: the two handlers of an executor's result are steps of the worker model.
- Tracker queries, a tracker without a store and failing stores; the AWS store's removal of the Terraform state together with the metadata.
- The transaction coordinator's table of running transactions.
- File locks, per-resource files and cleanup of the file adapter.
- FallbackQueues.FallbackQueue.Retry: operations stored or removed by other goroutines while it runs are not modelled.
- References inside function calls and to data sources: edges are what the extractor returns.
