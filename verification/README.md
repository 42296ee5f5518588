# modden, modelled and verified

modden runs test documents against a Kubernetes cluster. It mirrors the
cluster's objects into a Rego data document, adopts the objects it creates so
that it can delete them again, and records the results of its checks. This
project models those parts and proves what they are relied on for.

`dafny verify dfyconfig.toml` checks everything.

## What is modelled

**The data document and its two writers.** `Store` is the document: a tree of
objects and leaves, with the store's Add, Replace and Remove. `RegoDriver` is
the driver over it, each method one write transaction, together with the
runner's `storeItem`. `ResourcePaths` computes where objects go, down to what
`path.Join` does. `Mirror` lets the informer side and the test side interleave
transaction by transaction and proves the claim in the comment at
pkg/test/runner.go:151-154: if the paths in use are pairwise prefix-free and
deletes name stored objects, nothing fails, no parent disappears, and the final
document is the one the two programs give when run one after the other.
The document must have no leaf where a used path needs an object, as one without
`/resources` has not. `ResourcePaths` says exactly when modden's own paths are
prefix-free, and `ClusterMirror.RunIsValidJob` that its runs then meet all of
this.

**The adopted objects.** `Pool` reads the pool as a function of its history.
`AdoptSystem` is the driver among its threads: the server, one goroutine per
informer with its undelivered events, the test goroutine, the two locks. In every
run of it no live adopted object is missing from the pool, and `DeleteAll`
covers every one of them. `LateAdoption` is about objects adopted after their
delete event. `LockDiscipline` proves what the two locks protect, that no thread
holds both, that no reachable state is a deadlock, that the driver comes to rest,
and that watchers see an event only after the pool has. `ObjectDriver` is the
object itself, with every request answered arbitrarily; `ErrorChain` and
`Handlers` are the linked list and the multiplexer it uses.

**The run of a document.** `Recorder` gives the recorder's meaning as a function
of the calls made to it, `Writers` what the tree and TAP writers ought to have
printed by a recount of the recording, and `RecorderObjects` the classes
themselves. `Runner` is the run, stacked on these classes: the guard in `step`
is the only thing that makes its option-typed variables present, and every step,
effect and result is noted in a ghost trace. For all answers of the cluster, the
store and the checks, the trace and the end of the run are determined. `Check`
is the retry loop. `Environment` is hydration, which runs the filters of
`Filters` on the parsed fragment or on a fixture.

**Documents, assets, filters.** `ReadDocument` refines a declarative split;
its separator is a restricted form of the marker of section 9.1.2 of YAML 1.2.2.
`Assets` keeps the built-in asset tree (nodes on the heap) and the flat map in
agreement. `Filters` is the three YAML filters over a node tree, and the reading
back of the run ID.

## Assumptions

- The store behaves as written in `Store`: Replace and Remove of a missing key
  and anything below a leaf are NotFound, Add needs an object as parent, an
  aborted transaction leaves the old tree, and write transactions exclude each
  other. Only the root refuses a non-object (InvalidPatch).
- The API server never reuses a UID, keeps kind, namespace and name fixed for a
  UID, lets at most one live object hold a kind, namespace and name, and deletes
  by name. Informers report only objects that existed and only deletions that
  happened, each deletion once over all informers; they may be late, and may
  leave events out.
- Watchers do not call back into `Watch` or `Done`.
- A name that becomes a path component is not empty, not `.` or `..`, and has
  no slash. Object names do not begin with a dot (section 2.1 of RFC 1123).
- Each sleep of `runCheck` moves its clock by at least 500 ms and the clock never
  goes back.
- Finding a field takes the first one with the name; setting a field puts it
  there, or last; creating a path adds the mappings that are missing; a
  non-mapping in the way, a null included, is an error.

## Where the code departs from its evident intent

- pkg/filter/filter.go:178 writes the object's name into whichever scalar it
  finds, the namespace too. `Filters.NamespaceGiven` says exactly when a
  namespace asked for is given, `Filters.NamespaceLost` is an object that goes
  elsewhere. `Filters.RenameIdempotent` and `Filters.RenamedTwice` say when a
  second renaming changes nothing, and `Filters.RenameNotIdempotent` is an
  object that it moves.
  `Environment.FixtureMisplaced` is what becomes of a fixture.
- pkg/test/tapwriter.go:86 clears the step's errors but never its skips, so one
  skip marks every later passing step: `Writers.SkipMarkIsSticky`, and
  `Writers.SkipMarkLeaks` for a run.
- pkg/test/runner.go:181 ignores the error of storing the run ID, which is lost
  unless `/test/params` is there: `RegoDriver.StoreItemTakesEffect`, and
  `RegoDriver.RunIdLost` for a document.
- pkg/builtin/capture.go:50 puts a file over a directory of the same name, and
  what was below stays in the map only: `Assets.StepSound` has the condition and
  `Assets.DirectoryOverwritten` an example.
- pkg/doc/read.go:42 drops a fragment's leading empty lines from its bytes but
  counts them in its location: `ReadDocument.BytesAreLines` says when the two
  agree, and `ReadDocument.LeadingLineLost` is a document where they do not.
- pkg/test/runner.go:489 never evaluates a check whose timeout is not positive:
  `Check.OnePerHalfSecond`.
- pkg/driver/object.go:369-388 adopts an object whose delete event has already
  been handled; it then stays in the pool until `Done`, dead:
  `LateAdoption.AdoptingTooLate` and `LateAdoption.DeadEntryStays`, and
  `LateAdoption.LateAdoptionHappens` for a run.
- pkg/test/runner.go:517-523 leaves group and version out of an object's path,
  and stores cluster-scoped objects with those of the default namespace:
  `ResourcePaths.SamePath`. One object's path can lie inside another's:
  `ResourcePaths.NestedPath`.

## Model

| member | source | states |
|---|---|---|
| `Mirror.NoOperationFails` | pkg/test/runner.go:151-169 | under every interleaving of the transactions of the test side and the informer side, with prefix-free paths and deletes of stored objects, no storeItem and no RemovePath fails |
| `Mirror.FinalDocumentIsSequential` | pkg/test/runner.go:151-169 | when both sides have finished, whatever the interleaving, the document is the one the two programs give run one after the other |
| `Mirror.BoundaryReads` | pkg/test/runner.go:529-541 | between any two transactions a used path reads as the last finished operation left it, or as the placeholder where that is nothing and a side is just between creating the path and storing to it |
| `Mirror.ParentsPersist` | pkg/test/runner.go:529-541 | a parent of a used path, once it is an object, is an object in every later state of the run |
| `Mirror.InterleavingFrame` | pkg/test/runner.go:151-154 | no interleaving disturbs a value stored off the used paths |
| `Mirror.NeverStuck` | pkg/test/runner.go:529-541 | a side with work left can always run its next transaction |
| `Mirror.AtMostThreeTransactions` | pkg/test/runner.go:529-541 | over a whole run every operation costs at most three transactions, interleaved or not |
| `Mirror.AloneIsHandle` | pkg/test/runner.go:529-541 | when nobody comes in between, the transactions of an operation end exactly as the handler's call does: the same document and the same error, on every document and every path |
| `Mirror.TransactionSound` | pkg/test/runner.go:529-541 | any one transaction, run in the middle of the other side's operation, succeeds and either completes its operation on the serial document or leaves only a placeholder more |
| `Mirror.MergeIsSequential` | pkg/test/runner.go:155-169 | any merge of two operation sequences over disjoint prefix-free paths has the effect of the first and then the second |
| `Mirror.SerialRefinesMap` | pkg/test/runner.go:155-169 | after any events the document, at each object path, is the abstract map from path to last content |
| `Mirror.SerialFrame` | pkg/test/runner.go:155-169 | values apart from the object paths survive any sequence of events |
| `Mirror.HandlersExact` | pkg/test/runner.go:155-169 | the must.Must calls panic exactly when some delete names an object that is not stored; otherwise the handlers give the serial document |
| `Store.AlterReads` | pkg/driver/rego.go:89-163 | reading after a put, a path creation or a removal, for every position of the path read relative to the one written |
| `Store.AlterCommutes` | pkg/driver/rego.go:89-163 | updates at paths of which neither lies inside the other commute |
| `Store.WriteIsAlter` | pkg/driver/rego.go:93-98 | when each of the store's three write operations succeeds, and that success is the corresponding tree update |
| `RegoDriver.Driver.StoreItem` | pkg/driver/rego.go:89-110 | replace, or add where there is nothing: succeeds exactly when the parent is an object, and otherwise leaves the tree |
| `RegoDriver.Driver.StorePath` | pkg/driver/rego.go:113-146 | covers the missing elements with empty objects; a leaf on the way aborts and leaves the tree |
| `RegoDriver.Driver.RemovePath` | pkg/driver/rego.go:149-163 | removes what is there; NotFound and no change where nothing is |
| `RegoDriver.Driver.StoreWithParents` | pkg/test/runner.go:529-541 | storeItem: three transactions at most, fails only below a leaf and then changes nothing |
| `RegoDriver.StoreWithParentsExact` | pkg/test/runner.go:529-541 | storeItem succeeds exactly when no proper prefix is a leaf; then the value is at the path, all parents are objects, and every path off it reads as before |
| `RegoDriver.StoreItemTakesEffect` | pkg/test/runner.go:181 | with its error ignored, as for the run ID, the value is there afterwards exactly when the parent was an object; otherwise nothing has changed |
| `RegoDriver.RunIdLost` | pkg/test/runner.go:181 | in an empty document storing the run ID is NotFound and stores nothing |
| `RegoDriver.StorePathIdempotent` | pkg/driver/rego.go:113-146 | StorePath twice is StorePath once, and a failed one leaves the tree |
| `RegoDriver.StorePathKeepsValues` | pkg/driver/rego.go:113-146 | StorePath alters no existing value; what it adds are empty objects at prefixes of the path |
| `RegoDriver.RemoveUndoesStore` | pkg/test/runner.go:529-541 | removing a newly stored object gives back the document from before, where its parents existed |
| `RegoDriver.DropUndoesPut` | pkg/driver/rego.go:93-98 | removing at an absent path what was just put there is the identity, where the parents exist |
| `ResourcePaths.PathShape` | pkg/test/runner.go:517-523 | what path.Join makes of an object: resource and name, with the namespace in front unless the object has none or the default one |
| `ResourcePaths.SamePath` | pkg/test/runner.go:517-523 | two objects share a path exactly when resource and name agree and namespaces agree up to taking default for cluster scope |
| `ResourcePaths.NestedPath` | pkg/test/runner.go:517-523 | one object path is a proper prefix of another exactly when the first's resource is the second's namespace and its name the second's resource |
| `ResourcePaths.NestingExample` | pkg/test/runner.go:517-523 | the nesting does happen |
| `ResourcePaths.VersionsMeetsObject` | pkg/test/runner.go:570 | the object paths that are comparable with a .versions path, exactly |
| `ResourcePaths.LastMeetsObject` | pkg/test/runner.go:313 | the object paths that are comparable with /resources/applied/last, exactly |
| `ResourcePaths.RunPathsPrefixFree` | pkg/test/runner.go:517-574 | for names that path.Join keeps, all the paths of a run are pairwise prefix-free, and the two sides use different ones, exactly when no object nests in another and none meets a .versions path or the latest result |
| `ResourcePaths.OrdinaryNamesApart` | pkg/test/runner.go:517-574 | that is so when object and resource names do not begin with a dot, no namespace is a resource name, and no object path meets the one of the latest result |
| `ClusterMirror.PathOfIsPlace` | pkg/test/runner.go:590 | the place of a cluster object, spelled out: resources, its namespace unless it has none or the default one, its resource, its name |
| `ClusterMirror.StoreResource` | pkg/test/runner.go:581-591 | an unknown kind changes nothing; otherwise the object is stored at its place, fails exactly below a leaf, and reads back from there |
| `ClusterMirror.RemoveResource` | pkg/test/runner.go:595-602 | an unknown kind changes nothing; otherwise succeeds exactly if something is at the object's place, and then nothing is |
| `ClusterMirror.StoredFoundAgain` | pkg/test/runner.go:581-591 | a stored object is found at its place, and objects whose places are apart from it are as they were |
| `ClusterMirror.GroupVersions` | pkg/test/runner.go:553-567 | one group for each resource name without a slash, holding its kinds in the server's order |
| `ClusterMirror.StoreResourceVersions` | pkg/test/runner.go:547-577 | in whatever order the names come, succeeds exactly when no .versions path is blocked; then each holds its kinds and everything apart from them is unchanged |
| `ClusterMirror.VersionsPathsPrefixFree` | pkg/test/runner.go:570 | the .versions paths of different resources are apart, so their order does not matter |
| `ClusterMirror.RunIsValidJob` | pkg/test/runner.go:151-181 | on a document without /resources, stores at the run's own paths and events of objects whose deletes name stored ones meet every hypothesis of the sharing theorems |
| `Pool.PoolIsHistory` | pkg/driver/object.go:358-391 | an object is pooled exactly when it was adopted and neither deleted nor forgotten since; the copy held is the earliest of the highest generation seen since it last entered |
| `Pool.PoolKeys` | pkg/driver/object.go:369-391 | every entry is filed under its own, non-empty UID, after any history |
| `Pool.PoolMoves` | pkg/driver/object.go:171-194 | the generation held never falls, only adoption brings a UID in, only its delete event or Done takes it out |
| `Pool.AdoptEnters` | pkg/driver/object.go:369-391 | adopting an object with a UID always leaves it in the pool, at no lower generation |
| `AdoptSystem.NoAdoptedObjectLeaks` | pkg/driver/object.go:263-288 | in every reachable state, an adopted object that is live on the server is in the pool under its UID |
| `AdoptSystem.RunSafe` | pkg/driver/object.go:171-194 | over every run: the pool is that of its history, no delete event is about a live object, nothing adopted and live is missing |
| `AdoptSystem.DeleteAllCovers` | pkg/driver/object.go:393-428 | DeleteAll gets exactly one reply for each pool entry at its snapshot; every adopted object live then is among them, and is gone at the end if its delete succeeded |
| `AdoptSystem.CleanDeleteAllLeavesNothing` | pkg/driver/object.go:393-428 | if every delete succeeded, nothing adopted before the snapshot is live at the end |
| `AdoptSystem.RunCleaning` | pkg/driver/object.go:403-419 | at every moment the deletes so far are the snapshot's first ones in order, and what was deleted stays deleted |
| `LateAdoption.GoneStaysGone` | pkg/driver/object.go:187-194 | once a delete event has been handled the object is dead in every later state |
| `LateAdoption.HandledOnce` | pkg/driver/object.go:187-194 | in no run does the pool handle the deletion of one UID twice |
| `LateAdoption.PooledWhenDead` | pkg/driver/object.go:369-391 | once its deletion has been handled, an object is pooled exactly when it was adopted after that and nothing was forgotten since |
| `LateAdoption.AdoptingTooLate` | pkg/driver/object.go:369-388 | for an adoption followed by neither another one nor Done: when the deletion has been handled, the object is still pooled exactly if it had been handled before Adopt held the lock |
| `LateAdoption.DeadEntryStays` | pkg/driver/object.go:369-388 | such an entry stays, dead, in every later state until Done |
| `LateAdoption.LateAdoptionHappens` | pkg/driver/object.go:369-388 | a run that creates, applies, deletes and reports an object, and only then adopts it |
| `LockDiscipline.NobodyHoldsBoth` | pkg/driver/handlers.go:71-133 | in every reachable state no thread is inside both locks, and no lock has two threads inside |
| `LockDiscipline.LocksProtect` | pkg/driver/object.go:132-195 | in every run, whoever changes, lists or scans the pool owns the object lock, and whoever attaches, detaches or calls a watcher owns the watcher lock |
| `LockDiscipline.PoolToOneThread` | pkg/driver/object.go:169-194 | while an informer is at the pool, the test goroutine is not |
| `LockDiscipline.AttachedExactly` | pkg/driver/object.go:147-159 | over every run, a watcher is attached exactly if it was attached and neither cancelled nor cleared since |
| `LockDiscipline.PooledIsRecorded` | pkg/driver/object.go:171-194 | every event that an informer has handed to the pool, sighting or deletion, is in the history that the pool follows |
| `LockDiscipline.DoneIsFinal` | pkg/driver/object.go:128-145 | once Done has returned no watcher is attached and no object is pooled or adopted, whatever events are still delivered |
| `LockDiscipline.NoDeadlock` | pkg/driver/object.go:128-195 | in every reachable state with anything unfinished, some thread can carry on |
| `LockDiscipline.DriverSettles` | pkg/driver/object.go:128-195 | left alone, the threads come to rest: the moves still to come are bounded by the work in hand |
| `LockDiscipline.PoolBeforeWatchers` | pkg/driver/handlers.go:107-133 | each informer's events reach the pool and then the watchers, each once and in order; a watcher sees an event only after the pool has |
| `LockDiscipline.TokensFresh` | pkg/driver/handlers.go:24-33 | over every run of the threads, the next removal token only grows and exceeds every attached one |
| `ObjectDriver.Driver.UpdateAdoptedObject` | pkg/driver/object.go:358-367 | keeps the pool that of its history, extended by the sighting |
| `ObjectDriver.Driver.ForgetObject` | pkg/driver/object.go:187-194 | a delete event takes out its UID and leaves every other entry |
| `ObjectDriver.Driver.Done` | pkg/driver/object.go:128-145 | once only: the informers are stopped, every watcher is detached, and pool and informers are empty, whatever came before |
| `ObjectDriver.Driver.Watch` | pkg/driver/object.go:147-159 | attaches the watcher under a token never used before, and leaves the pool alone |
| `ObjectDriver.Driver.Cancel` | pkg/driver/object.go:153-158 | withdraws the watcher of that token and no other |
| `ObjectDriver.Driver.Adopt` | pkg/driver/object.go:369-391 | refuses exactly an object without a UID; otherwise the pool is that of the history extended by the adoption |
| `ObjectDriver.Driver.Apply` | pkg/driver/object.go:206-288 | the requests made, create and then patch exactly if it exists; the outcome for every last answer, a missing UID and a repeated conflict included; and the adoption of exactly what a success returned |
| `ObjectDriver.TargetExactly` | pkg/driver/object.go:305-341 | which object a delete names: the kind and name given, in no namespace for a cluster-scoped kind, and else in the one given or the default one |
| `ObjectDriver.TargetIsObject` | pkg/driver/object.go:305-341 | a delete of an object as the server returned it names that very object |
| `ObjectDriver.Driver.Delete` | pkg/driver/object.go:290-356 | one delete, spelled out, for a kind that resolves; reports an adopted object of that kind, namespace and name if there is one |
| `ObjectDriver.Driver.Targets` | pkg/driver/object.go:397-401 | in whatever order the pool is ranged over, lists each entry once |
| `ObjectDriver.Driver.DeleteEach` | pkg/driver/object.go:403-419 | goes on past failures: every target is asked for, and what is collected is the report on the answers |
| `ObjectDriver.Driver.DeleteAll` | pkg/driver/object.go:393-428 | one delete of each entry of a snapshot of the pool, of that very object; nil exactly when all were done, and otherwise the header and then every failure in order |
| `ObjectDriver.ReportExact` | pkg/driver/object.go:403-423 | nothing is reported exactly when every kind resolved and every delete was done |
| `ObjectDriver.OneDeleteEach` | pkg/driver/object.go:403-404 | when every kind resolves the requests are one delete for each target, in order, naming the target itself |
| `ErrorChain.ChainErrors` | pkg/utils/errchain.go:35-50 | a chain of fresh links that holds the errors in order |
| `ErrorChain.Walk` | pkg/utils/errchain.go:12-18 | walking with Unwrap terminates and lists exactly the chained errors, in order |
| `ErrorChain.Is` | pkg/utils/errchain.go:20-22 | errors.Is on the chain holds exactly when some element matches |
| `Handlers.Muxer.Add` | pkg/driver/handlers.go:24-33 | hands out a token never handed out before in the run of calls, and attaches the handler under it |
| `Handlers.Muxer.Remove` | pkg/driver/handlers.go:36-40 | withdraws that token and no other; harmless when nothing is attached |
| `Handlers.Muxer.Clear` | pkg/driver/handlers.go:19-21 | withdraws every token and keeps counting from where it was |
| `Handlers.Muxer.OnEvent` | pkg/driver/handlers.go:43-61 | delivers the event to each handler attached after the calls so far, exactly once, in some order |
| `Handlers.TokensDistinct` | pkg/driver/handlers.go:24-33 | two Adds anywhere in a run of Add, Remove and Clear get different tokens |
| `Handlers.AttachedExactly` | pkg/driver/handlers.go:19-40 | after any run the attached handlers are those whose Add was followed by neither their Remove nor a Clear |
| `Recorder.ChecksHold` | pkg/test/recorder.go:123-169 | with documents and steps opened and closed in pairs, no must.Check about something being open or not open fires |
| `Recorder.StepStaysOpen` | pkg/test/recorder.go:156-158 | from a step's opening until its close, the current step is the one its closer remembers, so the check for overlapping steps holds |
| `Recorder.DocStaysOpen` | pkg/test/recorder.go:132-136 | the same for a document, so the check for overlapping documents holds |
| `Recorder.RunGrows` | pkg/test/recorder.go:142-169 | documents, steps and results are only ever added, never changed or taken away |
| `Recorder.VerdictsLast` | pkg/test/recorder.go:84-120 | Failed never reverts, and within a document ShouldContinue never becomes true again |
| `Recorder.NewDocumentContinues` | pkg/test/recorder.go:85-105 | a document just opened may go on whatever earlier documents hold |
| `Recorder.ContinuesAfter` | pkg/test/recorder.go:85-105 | inside a document exactly a Fatal or a Skip ends ShouldContinue |
| `RecorderObjects.DefaultRecorder.ShouldContinue` | pkg/test/recorder.go:85-105 | the nested search finds whether the open document, or with none open any document, holds a terminal result |
| `RecorderObjects.DefaultRecorder.Failed` | pkg/test/recorder.go:108-120 | whether any result of any document is an Error or Fatal |
| `RecorderObjects.DefaultRecorder.NewDocument` | pkg/test/recorder.go:123-140 | appends an empty document and makes it current, given that no step is open |
| `RecorderObjects.DefaultRecorder.CloseDocument` | pkg/test/recorder.go:132-139 | leaves no document current and every document as it was |
| `RecorderObjects.DefaultRecorder.NewStep` | pkg/test/recorder.go:144-164 | appends an empty step to the open document and makes it current |
| `RecorderObjects.DefaultRecorder.EndStep` | pkg/test/recorder.go:156-163 | leaves no step current and every document as it was |
| `RecorderObjects.DefaultRecorder.Update` | pkg/test/recorder.go:166-169 | appends the results to the current step, in its document, in order |
| `Writers.TreeWriterRecounts` | pkg/test/treewriter.go:109-170 | at every moment of a bracketed run the lines printed, one for each result among them, and the counters kept are those that a recount of the recording gives |
| `Writers.TreeAtClose` | pkg/test/treewriter.go:120-130 | at document close stepCount is the recorder's number of steps, allErrors its number of results of each severity, and the indent is back at its start |
| `RecorderObjects.TreeWriter.NewDocument` | pkg/test/treewriter.go:109-118 | prints the heading and starts the document's counters afresh, as the recounted writer does |
| `RecorderObjects.TreeWriter.CloseDocument` | pkg/test/treewriter.go:120-130 | prints skipped, failed or passed from the totals, as the recounted writer does |
| `RecorderObjects.TreeWriter.NewStep` | pkg/test/treewriter.go:134-139 | prints the step under its number, indents, and starts the step's counters afresh |
| `Writers.TapWriterRecounts` | pkg/test/tapwriter.go:45-104 | at every moment of a bracketed run the comments and verdicts printed are those that a recount of the recording gives |
| `Writers.VerdictsOfSteps` | pkg/test/tapwriter.go:65-104 | comments aside, what is printed for the steps is one verdict for each, in order |
| `Writers.TapStepsShape` | pkg/test/tapwriter.go:65-88 | verdicts are numbered 1 to N in order, and "not ok n" stands exactly for a step n with an Error or Fatal, with its failures |
| `Writers.FailedIffNotOk` | pkg/test/tapwriter.go:69-84 | once every step is closed Failed holds exactly when some "not ok" was printed |
| `Writers.SkipMarkIsSticky` | pkg/test/tapwriter.go:73-86 | a passing step is marked as skipped exactly when a skip was recorded in it or anywhere before it |
| `Writers.SkipMarkLeaks` | pkg/test/tapwriter.go:73-86 | a run whose second step holds no result at all and is marked as skipped |
| `RecorderObjects.TapWriter.NewDocument` | pkg/test/tapwriter.go:45-56 | prints the version line and numbers from one again, with the skips so far kept |
| `RecorderObjects.TapWriter.CloseDocument` | pkg/test/tapwriter.go:58-61 | prints the plan 1..N for N steps opened |
| `RecorderObjects.TapWriter.NewStep` | pkg/test/tapwriter.go:65-67 | hands the closer the next number |
| `RecorderObjects.TreeWriter.EndStep` | pkg/test/treewriter.go:141-156 | prints the step's verdict and adds its counters to the document's, as the recounted writer does |
| `RecorderObjects.TreeWriter.Update` | pkg/test/treewriter.go:160-170 | counts every result but an informational one and prints a line for each, in order, as the recounted writer does |
| `RecorderObjects.TapWriter.EndStep` | pkg/test/tapwriter.go:69-87 | prints the verdict under the number given at opening and clears the errors, not the skips |
| `RecorderObjects.TapWriter.Update` | pkg/test/tapwriter.go:91-104 | collects errors and skips and prints a comment for each result, in order, as the recounted writer does |
| `RecorderObjects.Stack.ShouldContinue` | pkg/test/wrap.go:27-30 | the stack continues exactly when the recorder does, for the recording of all calls so far |
| `RecorderObjects.Stack.Failed` | pkg/test/wrap.go:32-35 | the stack has failed exactly when the recorder has |
| `RecorderObjects.Stack.NewDocument` | pkg/test/wrap.go:37-44 | writer and recorder both open the document and stay in agreement with the calls made |
| `RecorderObjects.Stack.CloseDocument` | pkg/test/wrap.go:12-18 | closing runs both closers, and writer and recorder stay in agreement |
| `RecorderObjects.Stack.NewStep` | pkg/test/wrap.go:46-53 | writer and recorder both open the step and stay in agreement with the calls made |
| `RecorderObjects.Stack.EndStep` | pkg/test/wrap.go:12-18 | closing runs both closers, and writer and recorder stay in agreement |
| `RecorderObjects.Stack.Update` | pkg/test/wrap.go:55-58 | both see every result, in the same order |
| `Runner.TestContext.Run` | pkg/test/runner.go:131-389 | for all answers of the outside world: nothing but cleanup and recording after a terminal result, every effect where the run may go on, each part started does what the answers call for and the next is started exactly if that let the run go on, DeleteAll once at the end exactly when objects are not preserved and the parts were reached, and the ending |
| `Runner.TestContext.RunParts` | pkg/test/runner.go:183-381 | compiles, then the parts in order; which are started, what each does and whether the run goes on after it are those that the answers determine |
| `Runner.TestContext.RunObject` | pkg/test/runner.go:204-357 | four steps in order: hydrated, matched exactly when anonymous, operated on as it asks with the result stored exactly when there is one, and checked; after exactly the step that stops the run the rest are opened and say that they are skipped |
| `Runner.PartRunsUniquely` | pkg/test/runner.go:204-380 | the answers determine all that a part leaves behind, its steps, effects with their arguments, and results, and whether the run goes on |
| `Runner.TestContext.RunPart` | pkg/test/runner.go:204-380 | what a part leaves behind and whether the run goes on are those of its kind; an unknown part leaves nothing and stops nothing |
| `Runner.TestContext.CompileStep` | pkg/test/runner.go:183-188 | compiles exactly when the run could go on, and the run goes on exactly if that gave a compiler |
| `Runner.TestContext.HydrateStep` | pkg/test/runner.go:209-232 | hydrates exactly when the run could go on, and the run goes on exactly if every stage succeeds, with the object, check and operation of the fragment |
| `Runner.TestContext.MatchStep` | pkg/test/runner.go:239-287 | a named object stays as it is; an anonymous one becomes the first candidate with this run's ID, and the run stops exactly if there is none or no listing |
| `Runner.TestContext.MatchBody` | pkg/test/runner.go:240-286 | the same inside the step: the first candidate with this run's ID replaces the object, check and operation aside, and no such candidate is fatal |
| `Runner.TestContext.UpdateStep` | pkg/test/runner.go:289-322 | the operation on this object and then storing what it left; the run goes on exactly if there is a result and it could be stored |
| `Runner.TestContext.UpdateBody` | pkg/test/runner.go:290-321 | no result, and a result that cannot be stored, are fatal and nothing else is; the result is stored after the operation, exactly when it has an object |
| `Runner.TestContext.Operate` | pkg/test/runner.go:297-302 | a delete for delete and an apply for update, of the object given |
| `Runner.TestContext.ApplyObject` | pkg/test/runner.go:391-425 | a namespace is looked up exactly if there is one and created exactly if it is missing; the object is applied exactly if that went well; the result is the object's, or else what the namespace came to |
| `Runner.TestContext.CheckBody` | pkg/test/runner.go:350-356 | evaluates as runCheck does, with the module and input given, records what it raised or a fatal result, and the run goes on exactly if that holds neither a Fatal nor a Skip |
| `Runner.TestContext.ObjectCheckStep` | pkg/test/runner.go:324-357 | object, result and compiler are there whenever the check runs; it evaluates the object's own check, or the default one for its operation, on the operation's result |
| `Runner.TestContext.CheckStep` | pkg/test/runner.go:360-370 | the compiler is there whenever the check runs, and it evaluates as runCheck does |
| `Runner.TestContext.BeginStep` | pkg/test/runner.go:102-112 | the body may run exactly when the run may go on, and otherwise the step says that it is skipped; neither changes whether the run may go on |
| `Runner.TestContext.EndStep` | pkg/test/runner.go:103-104 | the deferred close brings the run back between steps without changing whether it may go on |
| `Runner.TestContext.Setup` | pkg/test/runner.go:155-181 | watches and stores the versions; the run ID is stored exactly if that worked, and otherwise the deferred calls are made in reverse |
| `Runner.TestContext.Finish` | pkg/test/runner.go:383-389 | cleans up unless objects are preserved, and then cancels the watch and calls Done, in this order; a failed cleanup is the panic |
| `Runner.GuardedIsQuiet` | pkg/test/runner.go:102-112 | if every effect happens where the run may go on, none follows a terminal result |
| `Runner.GoesOnBackwards` | pkg/test/recorder.go:85-105 | a document that may go on now could go on at every earlier point |
| `Runner.FindMatch` | pkg/test/runner.go:264-270 | the first candidate with this run's ID, or none exactly when there is none |
| `Check.RunCheck` | pkg/test/runner.go:479-510 | no evaluation is begun once the timeout has passed on the clock, and at most one per 500 ms before that; every evaluation but the last raised something and no skip; a non-empty result has a skip or is the last before the timeout |
| `Check.ConcludesUniquely` | pkg/test/runner.go:479-510 | clock and evaluations determine the outcome and the number of evaluations |
| `Check.OnePerHalfSecond` | pkg/test/runner.go:489-507 | at most one evaluation for each 500 ms of the timeout or part of it, and none for a timeout that is not positive |
| `Check.Contains` | pkg/result/result.go:80-88 | some result has the wanted severity |
| `Environment.HandleAll` | pkg/driver/environment.go:156-165 | in whatever order the handlers run, succeeds exactly when check and operation are both acceptable, and sets both |
| `Environment.HydrateObject` | pkg/driver/environment.go:108-173 | runs the filters themselves: succeeds exactly when every stage does; the object is the fragment or its fixture with the metadata in, and the operation is delete exactly when asked for and otherwise update |
| `Environment.CarriesRunId` | pkg/driver/environment.go:144-149 | whatever it came from, a hydrated object bears the run ID and the manager's label |
| `Environment.KeepsFragment` | pkg/driver/environment.go:116-149 | wherever the metadata does not go, a hydrated object reads as its fragment without the special fields |
| `Environment.KeepsFixture` | pkg/driver/environment.go:126-149 | a fragment that asks for a fixture becomes the one found: its name and namespace are reset exactly if a name is asked for, and all else off the metadata reads as in the fixture |
| `Environment.RenameFixture` | pkg/fixture/fixture.go:41-56 | keeps the fixture when no name is asked for; otherwise renames a copy, or fails when its metadata cannot be looked into |
| `Environment.FixtureMisplaced` | pkg/driver/environment.go:133-138 | a fixture that has a namespace and is asked for as ns/name ends up in the namespace called name, after hydration too |
| `Environment.SplitObjectName` | pkg/utils/kubernetes.go:40-50 | splits at the first slash and loses nothing; a name without one is in the default namespace |
| `Environment.SplitAt` | pkg/utils/kubernetes.go:40-50 | splitting a namespace without slashes, a slash and a name gives these two back |
| `ReadDocument.ReadDocument` | pkg/doc/read.go:23-85 | the parts are, in order, the maximal separator-free blocks that hold text, each without its leading empty lines, with a final newline exactly when a separator ended it, and located by the block's lines |
| `ReadDocument.SeparatorExactly` | pkg/doc/read.go:27 | three dashes separate exactly if nothing but tabs, form feeds, carriage returns and spaces follows |
| `ReadDocument.SeparatorExamples` | pkg/doc/read.go:27 | lines that separate and lines that do not |
| `ReadDocument.LocationsIncrease` | pkg/doc/read.go:35-78 | the locations of the parts are disjoint and increasing |
| `ReadDocument.LinesAccountedFor` | pkg/doc/read.go:35-78 | the locations cover every non-empty line that is not a separator, and no separator line |
| `ReadDocument.BytesAreLines` | pkg/doc/read.go:42-67 | a part's bytes are the lines of its location, with a final newline where a separator follows, exactly when the first of these lines is not empty |
| `ReadDocument.LeadingLineLost` | pkg/doc/read.go:42-67 | an empty line and then a: the location is both lines, the bytes are the second |
| `ReadDocument.SplitUnique` | pkg/doc/read.go:23-85 | the lines determine the parts: there is only one split |
| `ReadDocument.ReadsBack` | pkg/doc/read_test.go:60-102 | printing fragments that begin with text and hold no separator, with --- between them, and reading the lines back gives the same fragments, in order, located by prefix sums |
| `ReadDocument.PrintedBlocks` | pkg/doc/read_test.go:60-102 | the blocks of a printed document are where the fragments were printed, and there are no others |
| `Assets.Assets.Insert` | pkg/builtin/capture.go:12-58 | accepted exactly when the path is not in the map and no file is on the way; then map and tree get the file and the tree its directories; a refused insert changes no field of any node |
| `Assets.Assets.WalkDirs` | pkg/builtin/capture.go:23-48 | fails exactly when a file is on the way, and then has made nothing, although it makes directories as it goes |
| `Assets.StepsExactly` | pkg/builtin/capture.go:26-29 | of the directories of a path exactly the empty ones and the dots are passed over |
| `Assets.Assets.Enter` | pkg/builtin/capture.go:35-48 | the entry of a directory, made empty exactly if it is missing, with nothing else changed |
| `Assets.Assets.Attach` | pkg/builtin/capture.go:50-53 | puts a new node under a name of a directory, in place of whatever was there and below it; every other node stays where it was |
| `Assets.Assets.Reach` | pkg/builtin/capture.go:20-48 | walking the pointers down from the root finds the node of each path, and nothing where the tree has none |
| `Assets.AgreementKept` | pkg/builtin/capture.go:50-55 | an accepted insert keeps map and tree in agreement exactly when no file of the map lies below its path |
| `Assets.StepSound` | pkg/builtin/capture.go:12-58 | from a sound state the two agree afterwards exactly when the path was not a directory, and then the state is sound again |
| `Assets.DirectoryOverwritten` | pkg/builtin/capture.go:50 | inserting a/b and then a leaves a/b in the map and not in the tree |
| `Assets.RunAgrees` | pkg/builtin/capture.go:12-58 | over every run of inserts of clean paths, none of them at an existing directory, map and tree agree |
| `Assets.FirstInsertStays` | pkg/builtin/capture.go:13-15 | a file once in the map is never replaced |
| `Filters.SpecialOpsFilter.Filter` | pkg/filter/filter.go:43-87 | succeeds exactly when every special field decodes; then the ordinary fields are left and the operations are those collected; a failure leaves the object and the operations collected before it |
| `Filters.PairsWhole` | pkg/filter/filter.go:50-52 | reading contents as keys and values and putting them together again gives the node |
| `Filters.KeptExactly` | pkg/filter/filter.go:56-64 | every ordinary field stays, in order, and no special one does |
| `Filters.CollectedSome` | pkg/filter/filter.go:80-82 | collecting succeeds exactly when every special field decodes |
| `Filters.CollectedExactly` | pkg/filter/filter.go:66-82 | an operation is there exactly when a special field names it, with the value of the last such field |
| `Filters.SpecialOpsIdempotent` | pkg/filter/filter.go:43-87 | filtering what was kept keeps all of it and collects nothing |
| `Filters.MetaInjectionFilter.Filter` | pkg/filter/filter.go:105-153 | what is left in the node, on success and at each point of failure |
| `Filters.InjectSucceeds` | pkg/filter/filter.go:105-153 | injection succeeds exactly when no non-mapping is on the way to a target that applies or to the containers |
| `Filters.InjectReads` | pkg/filter/filter.go:105-153 | label and run ID are set on the object; the template is labelled exactly where it has labels, and annotated exactly where it has containers |
| `Filters.InjectFrame` | pkg/filter/filter.go:105-153 | succeeding or failing, injection changes nothing off its four targets |
| `Filters.InjectIdempotent` | pkg/filter/filter.go:105-153 | injecting once more changes nothing |
| `Filters.RunIdReadsBack` | pkg/filter/filter.go:206-214 | after injection ObjectRunID gives the run ID exactly when all other annotations are strings under distinct keys |
| `Filters.ObjectRunID` | pkg/filter/filter.go:206-214 | in whatever order the annotations come, the run ID annotation, or nothing if there is none |
| `Filters.WriteSucceeds` | pkg/filter/filter.go:107-112 | get-or-create and set fails exactly where looking the path up is refused |
| `Filters.WriteFrame` | pkg/filter/filter.go:107-112 | get-or-create and set leaves every path alone that is neither on the way nor below |
| `Filters.WriteReads` | pkg/filter/filter.go:107-112 | what was set is what is found |
| `Filters.SetFieldKeeps` | pkg/filter/filter.go:107-112 | setting a field moves no other field, and a new one comes last |
| `Filters.Rename.Filter` | pkg/filter/filter.go:165-203 | fails exactly when the metadata cannot be looked into, leaving the node; otherwise resets name and then namespace |
| `Filters.Rename.SetNode` | pkg/filter/filter.go:166-192 | fails exactly when the lookup is refused and then leaves the node; otherwise resets the field in place or gives it its value |
| `Filters.ResetExactly` | pkg/filter/filter.go:166-192 | what is found afterwards, for every kind of node found before, and that other paths are as they were |
| `Filters.RenamedExactly` | pkg/filter/filter.go:165-203 | an existing scalar becomes the name, at either path; an alias or collection stays; an absent field gets its own value; nothing else changes |
| `Filters.NamespaceGiven` | pkg/filter/filter.go:166-180 | the namespace asked for is given exactly to an object without one, or to a scalar when name and namespace are equal; the name exactly to a scalar or absent name |
| `Filters.RenamedTwice` | pkg/filter/filter.go:173-180 | renaming once more leaves the namespace's text exactly unless the first renaming added a namespace that is not the name |
| `Filters.RenameIdempotent` | pkg/filter/filter.go:165-203 | renaming twice gives the node that renaming once gives exactly when it added neither a name nor a namespace |
| `Filters.RenameNotIdempotent` | pkg/filter/filter.go:173-180 | an object without metadata ends up in the namespace asked for, and renamed once more in another |
| `Filters.NamespaceLost` | pkg/filter/filter.go:178 | an object in one namespace that is to go to another ends up in a third |

## Left out

- Kubernetes clients, discovery, informer internals, label selectors and REST errors: requests get arbitrary answers, and informers are event queues.
- Rego parsing, compilation and evaluation, tracing, and turning evaluations into results: `Eval` is an arbitrary function of the attempt.
- Arrays inside the data document, and URL escapes in store paths: inner nodes are objects, and paths are lists of components.
- The store keeps the very maps it is given; the model stores values, so later changes to a stored object by its owner are not captured.
- Object content is opaque: `UnstructuredContent` of an object is a leaf or object that the caller supplies.
- `DeepCopy` in the object driver: the pool holds values, so objects shared and changed behind its back are not captured.
- ObjectDriver.Driver.Done: the channel that stops the informers is a flag; a second call, which would panic there, is not allowed.
- One informer for each object: a kind watched under two versions, whose deletions would be reported twice, is not considered.
- `Delete` by name can hit a newer object of the same name; `AdoptSystem` lets it, and claims nothing about objects that were not adopted.
- Reading `len(o.objectPool)` outside the lock at pkg/driver/object.go:394, which only sizes a slice.
- Runner.TestContext.Run: the wording of the steps' messages is not modelled, only that there is one, and `must.Must` failing on `DeleteAll` is an ending in which the deferred calls still happen.
- Runner.TestContext.ApplyObject: creating the namespace and applying the object are two kinds of effect here, although both are calls of `Apply`.
- A severity `Info` stands for the source's `None`, which would clash with the missing value.
- ErrorChain.ChainErrors: for no errors at all the source returns a nil pointer inside a non-nil error; `DeleteAll` never passes it none.
- ErrorChain.Is: `As` and `Error` are left out, the one being like `Is` and the other text.
- Text formatting, box characters, indentation strings, timestamps and the YAML of diagnostics: writers produce a log of line records.
- `bufio.Scanner` buffering, its line limit and its trimming of carriage returns: `ReadDocument` starts from the lines.
- Assets.Assets.Insert: a path is its list of components, so that the split of the path at slashes and loaders that fail are not modelled, and a file's nil children are an empty map that is never written.
- Filters.SpecialOpsFilter.Filter: a sequence with an odd number of items, at which the source panics; a mapping's alternating contents are fields, and a decoder writes under its own key.
- Filters.InjectReads: an empty run ID or manager, with which the field would be cleared instead; the runner's are never empty.
- Filters.RunIdReadsBack: how a scalar or an alias decodes is a given function, which reads the run ID back as itself.
- Comments, anchors and styles of YAML nodes, and parsing and printing YAML.
- Environment.HydrateObject: the YAML parser, the fixture set, the Rego parser and the object decoder are inputs that may give any answer; a fixture is parsed once and not printed in between, and matching one presumes an object that decodes.
- Command-line handling, file walking, random identifiers, fixture sets, `Fragment.Decode` and rule-name tables.
