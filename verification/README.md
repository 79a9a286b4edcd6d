# Verified model of the Hegira application mutator and its companions

This project models, in Dafny, the parts of Hegira whose behaviour is hardest to see from the code alone, and proves
what they promise.

* **The transactional publisher** (`FileTree.dfy`, `Publisher.dfy`, `PublicationRuns.dfy`). One run is an object whose
  methods are the functions of `publisher.rs`. The application is a tree of names and file objects (identity, bytes,
  mode). Every filesystem call is one step; it may fail without effect, a write may stop after any prefix, and a
  directory may honour, reject or ignore a rename flag. Failing calls are counted, so that claims about the absence of
  faults speak of one operation at a time. Every step is recorded, so claims about a crash are claims about every
  prefix of the recorded history. Other programs act at the hook points, on anything except the marker and the files
  of the transaction.
* **Change plans and their composition** (`ChangePlan.dfy`, `ChangeConstruction.dfy`, `OrderedMap.dfy`,
  `Composition.dfy`, `CompositionMeaning.dfy`). A plan means the tree it turns another tree into, with every guard
  checked; composition is proved against that meaning.
* **The managed-entry editor** (`TextLines.dfy`, `ManagedEntry.dfy`, `ManagedEntryPlanner.dfy`,
  `ManagedEntryAcceptance.dfy`). The index-based planner is refined to a parser, an insertion and a printer over
  segments, which carry the round trips; what it accepts is stated line by line.
* **Cargo declarations** (`CargoDependency.dfy`), **source ownership** (`SourceOwnership.dfy`, `OwnershipPaths.dfy`) and
  **component installation** (`Installation.dfy`, `ContributionConstruction.dfy`).
* **The sliding-window rate limiters** (`RateLimit.dfy`, `RateLimiters.dfy`): the policy is a full log of allowed
  requests per key; the pruning memory limiter and the Redis script are both proved to follow it.
* **The revisioned search projection** (`SearchProjection.dfy`, `SqliteProjection.dfy`): a state machine of workers,
  version rows and an external index; the Postgres handlers with their locks and the sequential SQLite handler are
  instances of it.
* **Web pagination** (`Pagination.dfy`).

`ContentDigest` is an idealised SHA-256 (FIPS 180-4) without collisions. Transaction temporary and probe names occur
neither in the tree nor in the plan.

Findings worth knowing when reading the code:

* The error kind does not tell which tree is left: a directory sync that fails after the last change
  (`tools/application_mutator/src/publisher.rs:277`) answers `PublicationFailed` or `UnsafeRoot` while every result is
  in place and the marker remains. Safety is therefore stated over the marker. `InvalidPlan`, `PreconditionFailed` and
  `UnsupportedPlatform` do mean, without other writers, that the tree is the original.
* On a filesystem that ignores NOREPLACE or EXCHANGE and renames plainly, preflight loses a probe: the run answers
  `RecoveryRequired` and leaves its marker, not `UnsupportedPlatform` over the original tree as where the flag is
  rejected (`tools/application_mutator/src/publisher.rs:795-810`).
* Composition drops the guard of a creation that a later plan retires. The composed plan may run where the plans in
  order would refuse; `CompositionPreservesMeaning` gives the exact condition.
* The memory limiter rounds its retry-after down to whole seconds, so a client that waits as told may be refused
  again. `MemoryRetryAfterExactly` says exactly when; the Redis script rounds up and always suffices.
* Deliveries of one document must not overlap. The Postgres lock guarantees it; the SQLite handler has no such lock and
  its pool may hold several connections (`crates/persistence/src/lib.rs:101-117`). Two overlapping deliveries can then
  record the newer revision and leave the older one on show for good: the older reaches the index last and fails to
  write its row.
* With a total beyond `i64::MAX`, "next" on the last page whose offset fits i64 stays on that page.

## Model

| member | source | states |
|---|---|---|
| `ChangePlans.Validate` | tools/application_mutator/src/lib.rs:447-474 | accepts exactly the plans whose paths strictly ascend and whose recorded digests are those of their contents; otherwise it reports the first faulty change, its place in the order before its digest |
| `ChangePlans.FirstFaultIsUnique` | tools/application_mutator/src/lib.rs:447-474 | the reported error is determined by the plan |
| `ChangePlans.OrderedDistinct` | tools/application_mutator/src/lib.rs:447-474 | an accepted plan never names one path twice, at any distance |
| `TextOrder.LessExactly` | tools/application_mutator/src/lib.rs:447-455 | the path order without recursion: behind a common prefix the smaller path ends, or has the smaller character |
| `ChangeConstruction.NewCreation` | tools/application_mutator/src/lib.rs:155-168 | a creation is made exactly for a valid path, guarded by absence |
| `ChangeConstruction.NewEdit` | tools/application_mutator/src/lib.rs:187-206 | an edit is made exactly for a valid path and a content that differs from the observed one, guarded by the observed bytes |
| `ChangeConstruction.NewRetirement` | tools/application_mutator/src/lib.rs:228-258 | a retirement is made exactly for a declared managed integration under a valid ownership contract, guarded by the observed bytes |
| `Composition.New` | tools/application_mutator/src/lib.rs:354-375 | succeeds exactly for distinct paths and right digests, and then holds exactly the given changes as a valid plan; otherwise the error tells whether the first repeated path repeats its operation |
| `Composition.ChainMeets` | tools/application_mutator/src/lib.rs:393-430 | the catch-all conflict arm is dead: two changes chain exactly when the second's guard is the first's result, and the chain has the first guard, the last content and a retirement's own integration |
| `Composition.IntoValuesLists` | tools/application_mutator/src/lib.rs:436-440 | the values of the path map form a valid plan with exactly its entries, so the closing validation cannot fail |
| `Composition.AddPlan` | tools/application_mutator/src/lib.rs:387-435 | the remove-and-reinsert loop over one plan computes the fold of the chaining function |
| `Composition.ComposeAll` | tools/application_mutator/src/lib.rs:384-435 | the nested loops over valid plans fold their concatenation; an error is that of the first plan that is faulty by itself or conflicts with the plans before it |
| `Composition.Compose` | tools/application_mutator/src/lib.rs:383-441 | the result is the valid plan listing the fold over all changes; an error is that of the first plan that is faulty or conflicts with those before it |
| `CompositionMeaning.StepMeaning` | tools/application_mutator/src/lib.rs:387-435 | a change succeeds on the tree reached so far exactly when it can be added to the composed map without breaking a guard, and results agree |
| `CompositionMeaning.CompositionPreservesMeaning` | tools/application_mutator/src/lib.rs:293-320 | for all valid plans and trees, running the plans in order gives a tree if and only if composition succeeds, its plan runs to the same tree, and no path of a cancelled creation existed |
| `CompositionMeaning.CancellationForgetsItsGuard` | tools/application_mutator/src/lib.rs:405 | for every occupied path, a creation and its retirement compose to nothing, which runs, while the plans in order refuse |
| `CompositionMeaning.IntoValuesRoundTrip` | tools/application_mutator/src/lib.rs:383-441 | recomposing a composed plan changes nothing |
| `CompositionMeaning.JoinAssociates` | tools/application_mutator/src/lib.rs:399-430 | chaining three changes of a path is associative up to the integration label of a retirement |
| `CompositionMeaning.AddPlanPathwise` | tools/application_mutator/src/lib.rs:387-435 | adding a plan acts on every path by itself |
| `CompositionMeaning.GroupingDoesNotMatter` | tools/application_mutator/src/lib.rs:383-441 | when both groupings of three valid plans compose, they have the same paths, operations, guards and results, up to the integration label |
| `FileTree.ParentExactly` | tools/application_mutator/src/publisher.rs:366-391 | the directory of a change is everything before the last slash of its path |
| `FileTree.Job.OwnStep` | tools/application_mutator/src/publisher.rs:210-293 | a step that touches only objects the run left there or its guards name, and a target for the first time only to carry its change out, respects other programs and accounts for what it leaves |
| `FileTree.Job.FirstTouch` | tools/application_mutator/src/publisher.rs:640-661 | once everything is prepared, the rename that shows a result over the recorded original carries the change out with every guard of the plan met |
| `FileTree.Job.TouchedIsCarriedOut` | tools/application_mutator/src/publisher.rs:242-259 | in every history, whatever other programs did, a touched target was first touched by a step of the run that found the original object and left the result, or absence |
| `FileTree.Job.TrackedStep` | tools/application_mutator/src/publisher.rs:855-874 | while the marker stays, moving one change between untouched and applied-with-backup keeps the tree sound |
| `FileTree.Job.StageAdvance` | tools/application_mutator/src/publisher.rs:242-259 | publishing one change leaves the phases of all others as they were |
| `FileTree.Job.RollbackKept` | tools/application_mutator/src/publisher.rs:957-994 | undoing one change disturbs neither those still to undo nor those already undone |
| `FileTree.Job.StageHook` | tools/application_mutator/src/publisher.rs:234-263 | whatever other programs do at a hook, the transaction's stage survives |
| `FileTree.Job.RestoredTree` | tools/application_mutator/src/publisher.rs:957-994 | a completed rollback is an exact inverse: without the marker the tree equals the original, file objects, bytes and modes included |
| `FileTree.Job.CommittedTree` | tools/application_mutator/src/publisher.rs:265-293 | with all results final and all backups gone, removing the marker leaves exactly the published tree |
| `Publisher.Publication.CreateMarker` | tools/application_mutator/src/publisher.rs:419-488 | an existing marker refuses the run without a single step; success leaves everything but the marker as it was, and the marker private with the recovery text; a failure that leaves no marker changed nothing |
| `Publisher.Publication.VerifyMarker` | tools/application_mutator/src/publisher.rs:1167-1181 | succeeds only while the marker is present with this run's identity |
| `Publisher.Publication.RemoveMarker` | tools/application_mutator/src/publisher.rs:1183-1191 | removes exactly this run's marker, and only where the remaining tree is sound, or changes nothing |
| `Publisher.Publication.StageFile` | tools/application_mutator/src/publisher.rs:539-585 | a staged file holds the content privately under the temporary name; a failed write or sync removes it, and recovery is demanded only if that fails too or the new file could not be inspected |
| `Publisher.Publication.VerifyInitialPrecondition` | tools/application_mutator/src/publisher.rs:587-605 | succeeds only if the guard holds, and then reports the original object; without a fault an unmet guard is PreconditionFailed |
| `Publisher.Publication.PrepareOne` | tools/application_mutator/src/publisher.rs:490-537 | stages one change and records its original; earlier changes stay staged and every target keeps its original object |
| `Publisher.Publication.PrepareChanges` | tools/application_mutator/src/publisher.rs:490-537 | success stages the whole plan with all guards holding; without a fault an unmet guard is PreconditionFailed; a failure leaves only temporaries of recorded changes or demands recovery |
| `Publisher.Publication.CreateProbe` | tools/application_mutator/src/publisher.rs:817-845 | a failed probe is removed or recovery is demanded; no target is touched |
| `Publisher.Publication.ExerciseProbes` | tools/application_mutator/src/publisher.rs:728-815 | success proves that the directory honours the flag the change needs; without a fault a rejected flag is UnsupportedPlatform with no probe left, and an ignored one demands recovery |
| `Publisher.Publication.PreflightFilesystemSemantics` | tools/application_mutator/src/publisher.rs:728-815 | success means every directory of the plan honours its flags; without a fault the first that does not decides the error; nothing staged is disturbed |
| `Publisher.Publication.VerifyPrecondition` | tools/application_mutator/src/publisher.rs:640-661 | success means the target is exactly the recorded original: identity, bytes and mode, or absent |
| `Publisher.Publication.VerifyAllPreconditions` | tools/application_mutator/src/publisher.rs:607-616 | success means every target is exactly its recorded original |
| `Publisher.Publication.PublishOne` | tools/application_mutator/src/publisher.rs:855-874 | one atomic rename puts the staged result at the target and the original under the temporary name, or nothing happens |
| `Publisher.Publication.SetPublishedMode` | tools/application_mutator/src/publisher.rs:876-917 | gives the result its final permissions and changes nothing else |
| `Publisher.Publication.VerifyPublished` | tools/application_mutator/src/publisher.rs:919-955 | success means the target shows the result with identity, content and permissions and the backup is the original |
| `Publisher.Publication.BeforeChange` | tools/application_mutator/src/publisher.rs:243-249 | after the hook before a change, success means the target is still exactly the recorded original |
| `Publisher.Publication.PublishChange` | tools/application_mutator/src/publisher.rs:242-259 | success moves the stage on by one change; failure leaves every change published with its backup or staged |
| `Publisher.Publication.PublishAll` | tools/application_mutator/src/publisher.rs:242-259 | success publishes the whole plan with every original parked; any failure leaves a tree rollback can undo |
| `Publisher.Publication.RollbackOne` | tools/application_mutator/src/publisher.rs:996-1134 | success gives the target its original object back, or absence; without a fault it succeeds whenever nobody else has touched the target; otherwise the change is wholly published or wholly undone |
| `Publisher.Publication.RestoreEdited` | tools/application_mutator/src/publisher.rs:1034-1080 | the exchange brings back the original object and removes only the staged one |
| `Publisher.Publication.RestoreRetired` | tools/application_mutator/src/publisher.rs:1081-1130 | the original object returns to its path, over nothing |
| `Publisher.Publication.RemoveStagedTemp` | tools/application_mutator/src/publisher.rs:1199-1209 | removes only the staged file, recognised by its identity |
| `Publisher.Publication.RemoveTempIfPresent` | tools/application_mutator/src/publisher.rs:1227-1237 | success means the temporary name is free |
| `Publisher.Publication.RemoveNamedIfIdentity` | tools/application_mutator/src/publisher.rs:1239-1248 | unlinks only the object with the expected identity, and nothing on failure |
| `Publisher.Publication.RemoveBackup` | tools/application_mutator/src/publisher.rs:1211-1225 | drops an original only while every result is final |
| `Publisher.Publication.RollbackAll` | tools/application_mutator/src/publisher.rs:963-968 | walking backwards, completeness means every change is undone; without a fault every published change that nobody else has touched is undone, even in a disturbed run |
| `Publisher.Publication.RollbackOrReport` | tools/application_mutator/src/publisher.rs:957-994 | the marker is gone only over the original tree; if rollback meets no fault and no other writer, whatever failed before it, the original error is reported over the original tree; untouched changes are undone in any case |
| `Publisher.Publication.CleanupBeforePublication` | tools/application_mutator/src/publisher.rs:1136-1165 | the marker is gone only over the original tree; if cleanup meets no fault, the error that stopped preparation is reported and the tree is the original; anything else demands recovery |
| `Publisher.Publication.RunPublication` | tools/application_mutator/src/publisher.rs:233-259 | success means all changes are published and settled; failure leaves a tree rollback can undo |
| `Publisher.Publication.Commit` | tools/application_mutator/src/publisher.rs:265-293 | a receipt counts the plan's changes and, with or without other writers, means that every creation, edit and retirement was carried out over its original object; without other writers the marker is gone only over the published tree |
| `Publisher.Publication.Transact` | tools/application_mutator/src/publisher.rs:228-293 | past the marker, an absent marker means the original or the published tree; a receipt implies that all guards held and every change was carried out; without faults the outcome is known beforehand |
| `Publisher.Publication.PublishWith` | tools/application_mutator/src/publisher.rs:210-293 | every step of every run respects other programs and, without them, leaves a sound tree; every receipt means every change was carried out over its original; an undisturbed run without faults, whatever its hooks refuse, leaves the original tree unless it demands recovery |
| `Publisher.Publication.Publish` | tools/application_mutator/src/publisher.rs:83-92 | how a fault-free, undisturbed run ends is known before it: which receipt or error, and that the tree is the original unless recovery is demanded; invalid plans and existing markers take no step |
| `Publisher.Publication.ReceiptsAreForPublishablePlans` | tools/application_mutator/src/publisher.rs:83-92 | such a run succeeds exactly for valid plans with an absent marker, all guards met and every rename flag honoured |
| `PublicationRuns.CrashLeavesSoundTree` | tools/application_mutator/src/publisher.rs:210-293 | stopping after any step leaves every change old or complete and no original lost before all are published; without the marker the tree is exactly the original or the published one |
| `PublicationRuns.MarkerSpansTheRun` | tools/application_mutator/src/publisher.rs:419-438 | the first step creates the marker over its absence and only the last can remove it |
| `PublicationRuns.ForeignContentSurvives` | tools/application_mutator/src/publisher.rs:996-1134 | content of another program that is neither what the run last left there nor, at an untouched name, what its guard names survives publication, commit and rollback; so does a file recreated at a retired path |
| `PublicationRuns.EarlyForeignChangeIsCaught` | tools/application_mutator/src/publisher.rs:640-661 | any change of another program at a path not yet published (content, replacement, permissions, deletion, creation), under any operation, keeps the run from ever touching the path, so no receipt follows |
| `PublicationRuns.PublicationTakesTurns` | tools/application_mutator/src/publisher.rs:210-293 | the steps of every undisturbed run, complete or cut short, are an interleaving of the kind the next results speak of |
| `PublicationRuns.OnlyTheLastMoverIsOpen` | tools/application_mutator/src/publisher.rs:419-438 | in every interleaving of publishers, whoever is past marker creation is the one that moved last |
| `PublicationRuns.PublishersAreSerial` | tools/application_mutator/src/publisher.rs:419-438 | at most one transaction is open at any time, and the tree changes hands only after the marker was removed |
| `PublicationRuns.CrashedRunBlocksTheOthers` | tools/application_mutator/src/publisher.rs:425-438 | once a run stops past marker creation, no other publisher takes a step |
| `PublicationRuns.TurnsAreTogether` | tools/application_mutator/src/publisher.rs:419-438 | in every interleaving all turns of a run follow one another, from an absent marker on, with the marker in place between them |
| `PublicationRuns.OutcomeOfARun` | tools/application_mutator/src/publisher.rs:210-293 | an undisturbed run without its marker has restored the tree, or published it with every guard of its plan met |
| `PublicationRuns.PublishingIsSerialisable` | tools/application_mutator/src/publisher.rs:210-293 | for every interleaving of crashed, failed and completed runs, whenever no marker is present the application holds what running the plans of exactly the runs that published, in order, would leave |
| `PublicationRuns.RetryAfterRestoredRun` | tools/application_mutator/src/publisher.rs:957-994 | after a run with any faults and refusing hooks that gave the marker up unpublished, the tree is the original and the same plan run without faults succeeds |
| `PublicationRuns.PublishedTreeIsTheMeaningOfThePlan` | tools/application_mutator/src/publisher.rs:210-293 | the published contents are those of running the plan's changes one after another |
| `PublicationRuns.PublishedCompositionIsThePlansInOrder` | tools/application_mutator/src/lib.rs:381-441 | publishing a composition gives what the plans in order give, on every tree without the cancelled paths |
| `TextLines.ReadThenWrite` | tools/application_mutator/src/editor.rs:1163-1185 | normalising and restoring newlines gives every accepted text back, LF or CRLF, with or without final newline |
| `TextLines.WriteThenRead` | tools/application_mutator/src/editor.rs:1163-1185 | at least two written lines read back as the same lines, style and ending |
| `TextLines.ReadExactly` | tools/application_mutator/src/editor.rs:1163-1177 | a text is accepted exactly if it has no carriage return or every newline is a CRLF, and the style is told apart |
| `TextLines.TrimExactly` | tools/application_mutator/src/editor.rs:1147-1153 | trimming takes white space off both ends and leaves none there |
| `ManagedEntry.ParseThenUnparse` | tools/application_mutator/src/editor.rs:409-458 | parsing a block loses no line |
| `ManagedEntry.UnparseThenParse` | tools/application_mutator/src/editor.rs:409-458 | printing segments and parsing them gives the same segments |
| `ManagedEntry.InsertCommutes` | tools/application_mutator/src/editor.rs:485-502 | inserting two different keys into any segment list commutes, blank lines or not |
| `ManagedEntry.InsertKeepsOrder` | tools/application_mutator/src/editor.rs:485-502 | insertion of a new key keeps the keys strictly sorted |
| `ManagedEntry.GeneratedIsProper` | tools/application_mutator/src/editor.rs:489-501 | the generated lines of any accepted entry parse as exactly one entry and never imitate an outer marker |
| `ManagedEntry.CutFrames` | tools/application_mutator/src/editor.rs:372-393 | locating the block splits the file without loss at its only two outer markers |
| `ManagedEntry.Recut` | tools/application_mutator/src/editor.rs:372-393 | replacing a body by lines without outer markers leaves the block where it was |
| `ManagedEntryPlanner.LocateBlock` | tools/application_mutator/src/editor.rs:372-393 | the index search finds the block the cut finds, or its error |
| `ManagedEntryPlanner.ScanLine` | tools/application_mutator/src/editor.rs:412-456 | the tests at the cursor accept, refuse and advance exactly as the parser's first cut does |
| `ManagedEntryPlanner.ScanOne` | tools/application_mutator/src/editor.rs:411-458 | one turn of the cursor loop keeps the lines passed cut into proper segments with their entries indexed, or the whole body is refused with this error |
| `ManagedEntryPlanner.ScanEntries` | tools/application_mutator/src/editor.rs:409-458 | the cursor loop finds the entries of the parsed body, or the parser's error |
| `ManagedEntryPlanner.InsertionIndex` | tools/application_mutator/src/editor.rs:485-488 | the line index of the first entry with a greater key is where the new segment belongs, blank lines counted |
| `ManagedEntryPlanner.SpliceIsInsertion` | tools/application_mutator/src/editor.rs:502 | splicing the generated lines there prints exactly the segments with the new one inserted |
| `ManagedEntryPlanner.PlanInBlock` | tools/application_mutator/src/editor.rs:394-502 | the index-based planner and the segment-based one agree on the block |
| `ManagedEntryPlanner.PlanRustManagedEntry` | tools/application_mutator/src/editor.rs:335-510 | the whole index-based planner agrees with the segment-based one on every text and request, errors included |
| `ManagedEntryPlanner.PlanInsertsOneRun` | tools/application_mutator/src/editor.rs:335-510 | a planned file is the original with one contiguous run inside the block; the run is the entry line by line, indented as the block, between its markers; deleting it gives the original bytes back, and joining its lines gives the entry back |
| `ManagedEntryPlanner.PlannedKeysStaySorted` | tools/application_mutator/src/editor.rs:460-502 | the planned block's keys are the old ones and the new one, strictly sorted |
| `ManagedEntryPlanner.PlanningAgainFindsTheEntry` | tools/application_mutator/src/editor.rs:478-483 | planning the same key again answers AlreadyPresent, whatever the entry |
| `ManagedEntryPlanner.PlansCommute` | tools/application_mutator/src/editor.rs:409-509 | two absent keys planned in either order give byte-identical files |
| `ManagedEntryAcceptance.PlanAccepts` | tools/application_mutator/src/editor.rs:335-510 | planning succeeds for every valid request on consistent text with one block, none of the key's markers outside it and well-formed ascending entries inside, and inserts exactly an absent key |
| `ManagedEntryAcceptance.PlanAcceptsOnly` | tools/application_mutator/src/editor.rs:335-510 | and for nothing else |
| `ManagedEntryAcceptance.InvalidInputExactly` | tools/application_mutator/src/editor.rs:343-358 | a request is refused exactly if a name is not a short marker name, or the entry is blank, has a carriage return or contains the marker text |
| `ManagedEntryAcceptance.InvalidSourceExactly` | tools/application_mutator/src/editor.rs:365-371 | a text is refused as such exactly if its newlines are mixed |
| `ManagedEntryAcceptance.MissingBlockExactly` | tools/application_mutator/src/editor.rs:375-383 | a block is missing exactly if no line is its start, or none its end |
| `ManagedEntryAcceptance.OutsideIsRefused` | tools/application_mutator/src/editor.rs:394-407 | the key's markers outside the block are refused exactly if a line outside it is one |
| `ManagedEntryAcceptance.KeysRefusedExactly` | tools/application_mutator/src/editor.rs:460-477 | keys are duplicate exactly if one occurs twice, and reordered exactly if they are distinct but do not ascend |
| `CargoDependency.MatcherIsUnambiguous` | tools/application_mutator/src/editor.rs:638-702 | no declaration, however written, matches two descriptions that differ in source, optionality or features |
| `CargoDependency.RenderMatches` | tools/application_mutator/src/editor.rs:704-736 | what is printed is recognised |
| `CargoDependency.RenderMatchesExactly` | tools/application_mutator/src/editor.rs:638-736 | the rendering of one description matches another exactly when source, optionality and feature set are equal |
| `CargoDependency.WrittenMatchesExactly` | tools/application_mutator/src/editor.rs:638-702 | every spelling of a description (features in any order, defaults written out or not) is recognised as it, and as nothing else |
| `CargoDependency.TransitionExactly` | tools/application_mutator/src/editor.rs:563-636 | a transition is planned exactly for a new release of a declaration that is present and matches its source |
| `CargoDependency.TransitionOfAnySpelling` | tools/application_mutator/src/editor.rs:563-636 | however the source release was spelled, it is moved, and nothing that declares something else is |
| `CargoDependency.TransitionMovesTheRelease` | tools/application_mutator/src/editor.rs:563-636 | after a transition the declaration matches its target and no longer its source, nothing else changed, and it cannot be repeated |
| `CargoDependency.TransitionRoundTrip` | tools/application_mutator/src/editor.rs:563-636 | moving forward and back restores the rendered declaration |
| `RateLimiters.MemoryRateLimiter.Check` | crates/http_support/src/rate_limit.rs:230-270 | pruning all clients, the new state and the decision depend on the live stamps of the key alone |
| `RateLimiters.ClientsAreLive` | crates/http_support/src/rate_limit.rs:230-240 | after every call the other clients kept have live stamps only, and at least one |
| `RateLimiters.MemoryKeepsLiveRequests` | crates/http_support/src/rate_limit.rs:230-270 | on every trace with nondecreasing time, pruning every client on every call loses no live request of any key |
| `RateLimiters.MemoryFollowsThePolicy` | crates/http_support/src/rate_limit.rs:230-270 | the pruning limiter allows exactly what the limiter with full logs allows |
| `RateLimit.OtherKeysNeverMatter` | crates/http_support/src/rate_limit.rs:230-270 | the allowed requests of a key are the same with all other keys' requests removed |
| `RateLimiters.DecisionsIgnoreOtherKeys` | crates/http_support/src/rate_limit.rs:230-346 | neither limiter's whole answer to a request changes when the requests of all other keys are removed |
| `RateLimit.AllowedRequestsAreSpaced` | crates/http_support/src/rate_limit.rs:230-270 | the i-th and the (i+max)-th allowed requests of a key are at least one window apart |
| `RateLimit.NeverMoreThanMaxLive` | crates/http_support/src/rate_limit.rs:230-270 | at no time are more than max allowed requests live, so a denial means exactly max are |
| `RateLimiters.RedisRateLimiter.Check` | crates/http_support/src/rate_limit.rs:278-324 | the decision and the new store are those of the specified script, and a request is allowed exactly when fewer than max counted scores remain |
| `RateLimiters.RedisRateLimiter.Script` | crates/http_support/src/rate_limit.rs:326-345 | the sequence of ZREMRANGEBYSCORE, ZCARD, ZRANGE, ZADD and EXPIRE, each on the store with its own expiry and empty-set rules, computes the specified store and reply, and no other key is touched |
| `RateLimiters.RedisKeepsLiveRequests` | crates/http_support/src/rate_limit.rs:326-346 | neither the script's range removal nor key expiry ever drops a live entry |
| `RateLimiters.ExpiryOutlivesWindow` | crates/http_support/src/rate_limit.rs:343 | the key outlives the window, by less than two seconds |
| `RateLimiters.AddScoreSorts` | crates/http_support/src/rate_limit.rs:342 | the set stays sorted by score whatever the clock does |
| `RateLimiters.LimitersAgree` | crates/http_support/src/rate_limit.rs:278-346 | on every trace the script and the memory limiter agree on allowed and remaining |
| `RateLimiters.AnswersExactly` | crates/http_support/src/rate_limit.rs:230-346 | what remains is the maximum less the live requests and this one, or nothing; the reset is the window in seconds, or the time to retry after |
| `RateLimiters.WaitingOutcome` | crates/http_support/src/rate_limit.rs:230-346 | after a denial, either limiter allows a later request exactly when the time left has passed |
| `RateLimiters.RedisTellsTheDue` | crates/http_support/src/rate_limit.rs:336-340 | the script's retry-after is the time left, rounded up |
| `RateLimiters.RedisRetryAfterIsEnough` | crates/http_support/src/rate_limit.rs:336-340 | with no other traffic, a request made after the script's retry-after is allowed |
| `RateLimiters.MemoryTellsTheFloor` | crates/http_support/src/rate_limit.rs:241-258 | the memory limiter's retry-after is the time left, rounded down, at least one |
| `RateLimiters.MemoryRetryAfterExactly` | crates/http_support/src/rate_limit.rs:241-258 | waiting the memory limiter's retry-after suffices if and only if the time left is whole seconds or less than one |
| `RateLimiters.MemoryRetryAfterCanFail` | crates/http_support/src/rate_limit.rs:241-258 | with one request per 1.5 seconds, a client told to wait one second is refused again |
| `SearchProjection.StepKeepsConsistent` | crates/search/src/jobs.rs:58-119 | with or without a lock, a step keeps a document's row and index consistent whenever no two of its deliveries are past waiting together |
| `SearchProjection.RunStaysConsistent` | crates/search/src/jobs.rs:58-119 | so does every run, with any duplicates, reorderings, failures and interleavings with other documents |
| `SearchProjection.RowsMoveUp` | crates/search/src/jobs.rs:76-118 | a step that changes a version row raises it strictly |
| `SearchProjection.RecordedRevisionsGrow` | crates/search/src/jobs.rs:58-119 | over every run that keeps a document's deliveries apart, its recorded revisions change only upwards, strictly |
| `SearchProjection.HighestRevisionStays` | crates/search/src/jobs.rs:58-119 | if a document's deliveries are apart, then once its highest delivered revision is recorded, the row and that command's effect in the index stay for good |
| `SearchProjection.CompletedDeliveryIsRecorded` | crates/search/src/jobs.rs:76-118 | a delivery that ends with a commit leaves its revision, or a newer one, recorded from then on |
| `SearchProjection.HighestDeliveryWins` | crates/search/src/jobs.rs:58-119 | so once the highest delivered revision has completed, its row and its body, or nothing after a deletion, stay for good |
| `SearchProjection.DeliveryRunsThrough` | crates/search/src/jobs.rs:58-119 | every waiting delivery can run through without a failing step; it applies exactly a revision newer than the row, and touches no other document |
| `SearchProjection.LocksKeepApart` | crates/search/src/jobs.rs:71-75 | the advisory lock, taken before reading and released with the transaction, keeps the deliveries of every document apart, even where documents share a key |
| `SearchProjection.PostgresConverges` | crates/search/src/jobs.rs:58-119 | the Postgres handlers converge on every document in every run |
| `SearchProjection.PostgresDelivers` | crates/search/src/jobs.rs:58-119 | under the locks, a highest revision that has completed is recorded and shown from then on |
| `SearchProjection.OverlapLeavesTheOlderForGood` | crates/search/src/projection_sqlite.rs:22-63 | being apart is needed: for any two revisions of a document, two overlapping deliveries can record the newer and show the older, and no continuation without a newer revision ever repairs it |
| `SearchProjection.StuckStaysStuck` | crates/search/src/projection_sqlite.rs:22-34 | once the row is ahead of what the index shows and nothing newer comes, every delivery is stale and the old effect stays |
| `SqliteProjection.Handler.ApplyRevisioned` | crates/search/src/projection_sqlite.rs:22-63 | a call ends stale and unchanged, applied with the row at the revision and the index at its body or deletion, or failed; where nothing fails it is applied exactly if the revision is newer than the row |
| `SqliteProjection.SerialIsARun` | crates/search/src/projection_sqlite.rs:22-63 | every sequence of handler calls, with whatever outcomes, is a run of the general protocol in which one worker keeps all deliveries apart |
| `SqliteProjection.SerialRowsGrow` | crates/search/src/projection_sqlite.rs:22-63 | recorded revisions never go down |
| `SqliteProjection.SerialHighestRevisionStays` | crates/search/src/projection_sqlite.rs:22-63 | the recorded highest revision and its effect stay for good |
| `SqliteProjection.SerialDeliveryWins` | crates/search/src/projection_sqlite.rs:22-63 | a delivery of the highest revision whose call succeeds is recorded from then on and the index shows its body, or nothing after a deletion |
| `SourceOwnership.Validate` | crates/application_manifest/src/lib.rs:977-1036 | accepts exactly the contracts with well-formed, unrepeated and pairwise compatible claims; otherwise it reports the default, the number, the first faulty claim, and only then an overlap |
| `SourceOwnership.AncestorsOverlap` | crates/application_manifest/src/lib.rs:1080-1088 | two claims at or above one path always overlap |
| `SourceOwnership.ClaimsAboveAPath` | crates/application_manifest/src/lib.rs:977-1036 | the claims at or above any path are a single claim, or all managed integrations on one identical path |
| `SourceOwnership.RetirementStaysInsideItsClaim` | tools/application_mutator/src/lib.rs:228-258 | an accepted retirement is never at, above or beneath a claim of another class |
| `SourceOwnership.ValidityIgnoresOrder` | crates/application_manifest/src/lib.rs:977-1036 | acceptance depends only on the multiset of claims |
| `SourceOwnership.ReorderingNeverMatters` | crates/application_manifest/src/lib.rs:444-462 | normalisation changes neither validity nor which retirements are accepted |
| `OwnershipPaths.BelowExactly` | crates/application_manifest/src/lib.rs:1080-1088 | below means the root, a slash and something more |
| `OwnershipPaths.AboveIsPrefix` | crates/application_manifest/src/lib.rs:1080-1088 | a path is at or above another exactly if its segments are the first segments of the other |
| `OwnershipPaths.OverlapIsPrefix` | crates/application_manifest/src/lib.rs:1080-1088 | two paths overlap exactly if the segments of one begin with those of the other |
| `OwnershipPaths.NestedClaimsAreRefused` | crates/application_manifest/src/lib.rs:1018-1031 | claims nested at any depth are refused, unless both are integrations of one path |
| `OwnershipPaths.ClaimsOnAPrefix` | crates/application_manifest/src/lib.rs:977-1036 | the claims whose segments begin a path's are a single claim, or all integrations of one identical path |
| `OwnershipPaths.RetirementByPrefix` | tools/application_mutator/src/lib.rs:228-258 | a claim whose segments begin a retired path's, or are begun by them, is managed and on that very path |
| `OwnershipPaths.ValidPathExactly` | crates/application_manifest/src/lib.rs:1038-1071 | a valid path is a short enough spelling of nonempty plain segments, none of them one dot or two |
| `OwnershipPaths.ComponentIdExactly` | crates/application_manifest/src/lib.rs:1095-1114 | an identifier is lower-case letters and digits with single hyphens between them, beginning with a letter |
| `OwnershipPaths.ClaimExactly` | crates/application_manifest/src/lib.rs:988-1010 | a claim is well-formed exactly if its path is valid and it names a valid integration just if it is managed |
| `Installation.OneOwner` | tools/application_mutator/src/installation.rs:36-58 | no path has two canonical owners |
| `OwnershipPaths.OwnsExactly` | tools/application_mutator/src/installation.rs:36-58 | an owner owns its own file, or exactly what lies under its directory at any depth |
| `ContributionConstruction.NewArtifact` | tools/application_mutator/src/installation.rs:75-86 | an artifact is made exactly for a valid path of its owner |
| `ContributionConstruction.NewIntegration` | tools/application_mutator/src/installation.rs:103-117 | an integration is made exactly for an effective edit of a valid path of its owner outside the historical migrations, guarded by what was observed |
| `ContributionConstruction.EditSource` | tools/hegira_cli/src/identity_installation.rs:126-144 | reading, planning and accepting one edit threads exactly its content, or leaves everything as it was |
| `Installation.ComposeContributions` | tools/application_mutator/src/installation.rs:181-226 | one contribution per path in path order; a refusal is that of the first contribution that cannot follow the earlier ones of its path, by owner first |
| `Installation.ChainExactly` | tools/application_mutator/src/installation.rs:181-226 | two contributions chain exactly with one owner and an edit of the first one's result, keeping the first guard and the last content |
| `Installation.ContributionsAgreeWithPlans` | tools/application_mutator/src/installation.rs:181-226 | composing contributions succeeds exactly when composing their changes as plans does, with the same changes |
| `Installation.ComposeBothWays` | tools/application_mutator/src/lib.rs:383-441 | contribution composition and plan composition of the same valid contributions both succeed with the same changes in the same order, or both refuse |
| `Installation.SourceSet.Read` | tools/hegira_cli/src/identity_installation.rs:126-130 | after any accepted edits, the bytes given are the content of the composed edit of the path, or what was loaded if no edit touched it |
| `Installation.SourceSet.Accept` | tools/hegira_cli/src/identity_installation.rs:132-144 | an accepted edit is threaded into the sources, and every contribution so far was planned against the sources at its time |
| `Installation.ThreadedInstallationComposes` | tools/hegira_cli/src/identity_installation.rs:126-144 | every sequence of edits planned in turn composes to one edit per touched path, guarded by the digest of the loaded bytes and carrying the current ones; plan composition gives the same plan, and run on the loaded files it gives exactly the current ones |
| `Pagination.ResourcePagination.Begin` | tools/resource_generator/src/web_pagination.rs:26-36 | a new request is current and its offset fits i64 |
| `Pagination.ResourcePagination.Complete` | tools/resource_generator/src/web_pagination.rs:42-59 | a stale answer changes nothing; a current one settles or issues a correction |
| `Pagination.ResourcePagination.Fail` | tools/resource_generator/src/web_pagination.rs:61-66 | a stale failure changes nothing |
| `Pagination.OnlyTheLatestRequestMatters` | tools/resource_generator/src/web_pagination.rs:26-66 | in every run with fewer than 2^64 begins, only the latest unanswered request changes the state |
| `Pagination.ReadyPagesLieWithinTheirTotal` | tools/resource_generator/src/web_pagination.rs:68-95 | in every reachable state offsets fit i64, a ready page lies within its total, and a nonempty range satisfies 1 <= first <= last <= total |
| `Pagination.CorrectionLowersThePage` | tools/resource_generator/src/web_pagination.rs:42-59 | a correction asks for a strictly lower page and is the current request |
| `Pagination.CorrectionExactly` | tools/resource_generator/src/web_pagination.rs:42-59 | a current response is corrected exactly if its page is not the first and begins at or beyond the total, to the last page with records; otherwise it is shown; a stale one does nothing |
| `Pagination.BeginExactly` | tools/resource_generator/src/web_pagination.rs:26-36 | a request is for the page asked for, or the last one whose offset fits i64, and makes the earlier one stale |
| `Pagination.FailureExactly` | tools/resource_generator/src/web_pagination.rs:61-66 | a current failure leaves nothing loading and nothing ready; a stale one does nothing |
| `Pagination.NavigationExactly` | tools/resource_generator/src/web_pagination.rs:72-85 | there is a next page exactly if records follow the shown one, and a previous one unless it is the first |
| `Pagination.RangeExactly` | tools/resource_generator/src/web_pagination.rs:87-95 | the range is that of the visible records, cut off at the total |
| `Pagination.PreviousUndoesNext` | tools/resource_generator/src/web_pagination.rs:72-78 | next and then previous returns to the same page exactly below the last page whose offset fits i64; there, next stays where it is |
| `Pagination.FollowCorrections` | tools/resource_generator/src/web_pagination.rs:42-59 | every chain of corrections ends in a ready state, whatever totals arrive; with one total, after one correction at most |
| `Pagination.ReadEverything` | tools/resource_generator/src/web_pagination.rs:20-95 | for every total up to i64::MAX, following next from page 0 shows every record exactly once, in order, and stops |

## Left out

- Real descriptors, symbolic links, directory identity and durability: parents are fixed, and syncs and directory checks are calls that succeed or fail without effect on the tree.
- Non-regular files and hard links: a name holds a regular file or nothing; identities are arbitrary numbers, so reuse is covered.
- Other programs between two calls: they act at the hook points only, and leave the marker and the transaction's files alone.
- FileTree.Job.StageHook: other programs that touch the marker or the transaction's private files at a hook are not covered.
- The recovery text in the marker: any bytes.
- `ChangePath::new` in the publisher: plans are given with their paths; the path rules are those of ownership paths and are stated where changes are made.
- UTF-8 decoding in the editor: the planner starts from decoded text.
- `plan_rust_module`: a simpler relative of the managed-entry planner.
- TOML parsing and the other TOML planners: tables are maps of already parsed items; dependency validation is not part of the model.
- `plan_component_installation`: its additional checks on component names and installed components are easy members.
- `SourceSet::load`: file reading; the loaded bytes are a parameter.
- Error messages and the paths attached to errors.
- HTTP middleware, client address resolution, the connection to Redis and its failures.
- A Redis limiter with a maximum of zero or a window below one second: `RateLimiter::from_options` excludes both.
- 64-bit conversions of times and counts in the Redis limiter: values are unbounded.
- Distinct members with equal scores in the Redis set: the random member suffix is taken to be unique, so only scores are kept.
- Unrevisioned and multi-document search commands: they bypass the version protocol.
- The shared lock against index rebuilds: rebuilding is not part of the model.
- A failing index call that takes effect later than its own step.
- SQLite's own refusals of overlapping writers: the steps without a lock allow more than SQLite does; the counterexample uses only steps SQLite allows.
- Manifest validation beyond source ownership.
