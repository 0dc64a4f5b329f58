# Verified model of aicr's stateful cores

aicr generates recipe bundles for GPU clusters, publishes them to disk, checks the health of what was
deployed, and describes it in a bill of materials. This project models the parts of it whose
correctness depends on state, on orders of events, or on failures in the middle of an operation:

* **`BundleOutput`** and **`ImageRefsTarget`**: replacing a published bundle directory by a private
  stage through renames, a backup name and rollback; writing one file atomically. The retained directory
  maps names to identities, and these to the directories and files they hold. An arbitrary fault schedule decides for every filesystem call and context
  check whether it fails, and a recorded history of all states lets the contracts speak about every
  moment, not just the end.
* **`DiscoveryCache`**: many goroutines resolve kinds through one mapper cache, with a mutex-guarded
  reset and unguarded lookups, as a step system under any interleaving; and the fetcher itself as a class
  whose calls are proved to be runs of that system.
* **`Evaluation`**, **`AssertRetry`**, **`Executor`**: evaluating assertions against arbitrary cluster
  answers, the two independently written retry loops, and the executor of a stream of Test documents.
* **`ComponentFilter`**: choosing a bundle's components and accounting for every value override.
* **`SharedStorage`**, **`ValuesStore`**: the all-or-nothing rewrite of a values tree, as a function with its
  properties, and as the code that deep-copies maps held by reference and writes to the copy in place.
* **`Bom`**, **`ImageReference`**, **`CanonicalPolicy`**: unique references and a closed graph in a
  CycloneDX document, image reference parsing, and a canonical text for a descriptor.
* **`Prelude`**, **`FaultSchedule`**, **`Ordering`** and **`Splitting`** hold shared shapes, the counting of
  failed calls, sorting, duplicate removal and cutting at a separator.

Methods and classes are the code that changes state step by step; functions say what a method computes,
and lemmas say what that means. `dafny verify dfyconfig.toml` checks everything.

Where the code does not do what its comments, or the symmetry of its parts, lead a reader to expect, the model
follows the code:

* `resolveMapping` (pkg/chainsaw/fetch.go:216-226) promises that the discovery pass behind a NotFound
  enumerated the kind's group. `AServedKindCanBeReportedAbsent` gives a run of two calls in which a kind
  that was served all the time is reported absent, because a reset falls between the retry lookup and the
  probe. `NotFoundReadFreshDiscovery` proves the promise for every run without such a reset, and
  `WrongAbsenceNeedsAReset` that the reset is both needed and always possible.
* The comment on `refreshDiscovery` bounds discovery resets to one per cooldown. What the code spaces is when
  a refresh is granted. Resets performed without delay keep that distance, and a delay takes at most its own
  length off it (`ResetsAreSpacedUnlessDelayed`), which every delay up to a cooldown can do
  (`DelayedResetsComeCloser`). `DiscoveryIsRateLimited` bounds grants and resets in any window.
* The comment on image references (pkg/bom/extract.go:479-482) promises that a Docker Hub short name and its
  full spelling de-duplicate in the BOM. They get the same Package URL, but images are claimed by their
  spelling (pkg/bom/bom.go:295), so both are listed (`SpellingsAreListedTwice`). `PackageURLsAreUnique` says
  exactly when the Package URLs of a document are distinct.
* Evaluation of assert and error operations is dual only as long as the fetcher never fails with
  ErrCodeInternal (`AssertAndErrorAreDual`, an equivalence). `Fetch` and `List` keep to that.
* The raw-resource path does not filter terminating or lost objects (`RawPathSeesGhosts`, an equivalence).
* When the first look at a freshly created stage directory fails, the directory is left behind, since its
  identity is unknown; no other single failure leaves one (`NewGenerationStage`).
* An image reference with an empty tag after a second colon does not survive rendering
  (`AnEmptyTagIsNotKept`; `RenderingLosesOnlyEmptyTags` says exactly which strings do not).

## Model

| member | source | states |
|---|---|---|
| BundleOutput.Stage.Publish | pkg/cli/bundle_output_target.go:476-600 | For every fault schedule the whole directory after each outcome: published means the output name leads to the stage and backup and stage names are gone; a clean abort means every name is bound as after parent creation; an abort that could not be undone needs two failures and leaves both directories under known names; success exactly when nothing failed and the preconditions held; at every instant before the commit the previous output is bound under the output or backup name, and after it the output name leads to the new directory |
| BundleOutput.ReplaceOutput | pkg/cli/bundle.go:1262-1285 | The pipeline stage, fill, publish, close: whenever the new directory is published, it holds exactly the files of the inventory with exactly their bytes and exactly the directories on the way, and no directory of before was written to; at every instant until the commit the previous output has one of its two names, and after it the output name leads to the new directory; published without complaint exactly when nothing failed, the drawn names were safe and free and the inventory does not get in its own way; an abort with at most one failure leaves the previous output in place; a first publication that could not be undone leaves the new directory bound to the output name, and closing spares it; nobody else's name changes |
| BundleOutput.PublishAndClose | pkg/cli/bundle.go:1268-1285 | The same from the created stage on; whatever publishing ended in, closing removes at most an unpublished stage, and what the output name then leads to stays bound to it |
| BundleOutput.Stage.FillAndPublish | pkg/cli/bundle.go:1273-1285 | Filling and publishing before anything is closed: the names for every outcome, the inventory in what was published, and the exact condition for success |
| BundleOutput.Stage.SetAside | pkg/cli/bundle_output_target.go:496-529 | The previous output is either moved to a free, safe backup name or back where it was; losing its place takes two failures |
| BundleOutput.Stage.Install | pkg/cli/bundle_output_target.go:531-580 | The stage becomes the output exactly when nothing failed; one failure restores the directory, more leave it in one of the stranded states |
| BundleOutput.Stage.Confirm | pkg/cli/bundle_output_target.go:556-579 | Accepts exactly when nothing failed, the output is the stage and the backup is still the previous output |
| BundleOutput.Stage.RollBack | pkg/cli/bundle_output_target.go:537-555 | Without a failure all names are back; with one, nothing is lost |
| BundleOutput.Stage.Commit | pkg/cli/bundle_output_target.go:581-600 | Handing over the handle is the one commit; only the cleanup after it removes the previous output, and a cleanup failure leaves the new output published |
| BundleOutput.Stage.Preflight | pkg/cli/bundle_output_target.go:477-494 | Accepts exactly when stage and previous output are bound as retained; may only have created parents |
| BundleOutput.Stage.Validate | pkg/cli/bundle_output_target.go:362-381 | Holds exactly when no check failed and handle and name lead to the retained directory |
| BundleOutput.Stage.Fill | pkg/cli/bundle.go:1274-1282 | A filled and verified stage is still the directory it was and holds what it held and the inventory; success exactly when nothing failed and the inventory fits; every check of the copy was made |
| BundleOutput.Stage.CopyInventory | pkg/cli/bundle_output_target.go:383-446 | For every inventory: succeeds exactly when no call failed, the stage is the retained directory, and no file is in the way of another file or directory, of the inventory or of the stage; then every file is there with its bytes, every directory on the way is, and nothing else is new; no other directory is written to |
| BundleOutput.Stage.CopyDirectories | pkg/cli/bundle_output_target.go:390-398 | The first loop makes all directories exactly when no call failed and no file is in the way |
| BundleOutput.Stage.CopyFiles | pkg/cli/bundle_output_target.go:399-445 | The second loop copies all files exactly when no call failed and each finds its place, in whatever order they come |
| BundleOutput.Stage.CopyEntry | pkg/cli/bundle_output_target.go:400-444 | One file, with every way to give up between opening it and closing both ends: it succeeds exactly when nothing failed and the path has room, and then the file has the bytes of its chunks |
| BundleOutput.Stage.CopyFile | pkg/cli/bundle_output_target.go:448-474 | Copies chunk by chunk; succeeds exactly when no check, read or write failed, and then the joined chunks were appended |
| BundleOutput.NextFile | pkg/cli/bundle_output_target.go:399-424 | For every inventory: a file finds its place behind the earlier ones exactly when it fits together with them, although the code only ever looks at one file |
| BundleOutput.FitsAnEmptyDirectory | pkg/cli/bundle_output_target.go:411-424 | Into an empty directory an inventory fits exactly when no file is the root, a directory of the inventory, above another file, or the same as another file |
| BundleOutput.JoinedConcatenates | pkg/cli/bundle_output_target.go:449-474 | How a file is cut into reads makes no difference to its bytes |
| BundleOutput.Stage.Close | pkg/cli/bundle_output_target.go:626-651 | Deletes nothing but the stage's own directory while its name still leads to it |
| BundleOutput.Stage.Retain | pkg/cli/bundle_output_target.go:329-359 | The handle is the directory just created, or the stage is refused |
| BundleOutput.NewGenerationStage | pkg/cli/bundle_output_target.go:308-360 | An empty stage on a fresh name exactly when nothing failed; otherwise the directory is unchanged up to the one leftover stage; after a single failure that leftover is there if and only if the failed call was the first look at the new directory |
| BundleOutput.Stage.RetainOrClose | pkg/cli/bundle_output_target.go:326-359 | The directory just made is retained, or the stage is closed again; it outlives a single failure exactly when that was the first look at it |
| BundleOutput.DrawnNamesAreSafe | pkg/cli/bundle_output_target.go:202-209 | The names that are drawn for stages and backups pass the check for safe names, and no name that leads elsewhere does |
| BundleOutput.Disk.ValidateRetained | pkg/cli/bundle_output_target.go:148-164 | The name leads to the expected directory |
| BundleOutput.Disk.RenameRetained | pkg/cli/bundle_output_target.go:166-185 | Moves only what it identified, only onto a free name, or changes nothing |
| BundleOutput.Disk.RemoveRetained | pkg/cli/bundle_output_target.go:187-200 | Removes only what it identified, or changes nothing |
| BundleOutput.Target.EnsureOutputParent | pkg/cli/bundle_output_target.go:602-624 | Only adds missing parents; afterwards all of them exist |
| BundleOutput.Target.CreateParents | pkg/cli/bundle_output_target.go:607-610 | Creates exactly missing parents, and all of them if nothing fails |
| BundleOutput.Target.ValidateAncestor | pkg/cli/bundle_output_target.go:778-792 | Holds exactly when none of its three checks failed |
| BundleOutput.Target.ValidatePath | pkg/cli/bundle_output_target.go:794-825 | Holds exactly when every component exists and no check failed |
| BundleOutput.Target.Validate | pkg/cli/bundle_output_target.go:827-849 | The retained output is what its name leads to |
| ImageRefsTarget.Target.WriteAtomic | pkg/cli/image_refs_target.go:426-573 | For every fault schedule and every short write, the target holds its old file or exactly the data at every step; nil means the data in a new file; success exactly when nothing failed and the target was current; an error without cleanup failure leaves no temporary file; no other name changes |
| ImageRefsTarget.ReadersFindOldOrNew | pkg/cli/image_refs_target.go:426-573 | Whoever opens the target at any instant finds exactly the new data, or the old file with the old bytes |
| ImageRefsTarget.TheTargetStays | pkg/cli/image_refs_target.go:552-557 | A target that was there is there at every instant |
| ImageRefsTarget.OtherNamesAreKept | pkg/cli/image_refs_target.go:426-573 | Every other name leads to the same file with the same bytes |
| ImageRefsTarget.DrawnNamesAreValid | pkg/cli/image_refs_target.go:411-423 | Every name that is drawn is accepted, and none with a separator is |
| ImageRefsTarget.ValidNamesAreDrawn | pkg/cli/image_refs_target.go:420-423 | Conversely an accepted name is the fixed prefix and suffix around something without a separator |
| ImageRefsTarget.Target.WriteThrough | pkg/cli/image_refs_target.go:447-573 | The same from the created temporary file on, deferred cleanup included |
| ImageRefsTarget.Target.FillAndSwap | pkg/cli/image_refs_target.go:464-573 | Write, revalidate, close, revalidate, rename: the temporary name is owned until the rename is known to have happened |
| ImageRefsTarget.Target.Recheck | pkg/cli/image_refs_target.go:502-551 | Both validation rounds and the close between them pass exactly when nothing failed, the target is current and the temporary file has the size of the data |
| ImageRefsTarget.Target.FillTemp | pkg/cli/image_refs_target.go:464-497 | A filled temporary file holds exactly the data; its identity is known once it could be read |
| ImageRefsTarget.Target.SwapIn | pkg/cli/image_refs_target.go:552-573 | The target name leads to the new file, or nothing changed and the temporary file is still owned |
| ImageRefsTarget.Target.CleanUp | pkg/cli/image_refs_target.go:453-462 | A clean end leaves no owned temporary file, and never touches the target |
| ImageRefsTarget.Target.RemoveOwnedTemp | pkg/cli/image_refs_target.go:596-620 | Removes the name only while it leads to the owned file |
| ImageRefsTarget.Target.ValidateTarget | pkg/cli/image_refs_target.go:343-379 | Holds exactly when the target is the file last identified, or absent as it was |
| ImageRefsTarget.Target.ValidateBundleAliases | pkg/cli/image_refs_target.go:381-409 | Holds exactly when the target is no file and lies in no directory of the bundle |
| ImageRefsTarget.Target.ValidateTemp | pkg/cli/image_refs_target.go:575-594 | Holds exactly when the name leads to the expected file of the expected size |
| ImageRefsTarget.Target.ValidateParent | pkg/cli/image_refs_target.go:324-341 | Holds exactly when none of its checks failed |
| DiscoveryCache.NotFoundReadFreshDiscovery | pkg/chainsaw/fetch.go:216-274 | In every reachable state of any number of interleaved calls, a NotFound made its retry lookup in a view built after the call began; a kind served since before the call is missing there only if its group could not be enumerated; and without a reset between retry and probe such a kind is never reported absent |
| DiscoveryCache.WrongAbsenceNeedsAReset | pkg/chainsaw/fetch.go:221-274 | The condition is exact, in every reachable state in which a call is about to probe for a kind served without a break since before it: some continuation reports the kind absent while it is still served, and every continuation that does has a reset after the retry lookup |
| DiscoveryCache.AbsenceFollowsAReset | pkg/chainsaw/fetch.go:221-274 | The second half, also when the kind was withdrawn after the retry lookup |
| DiscoveryCache.SomeWrongAbsence | pkg/chainsaw/fetch.go:221-274 | The first half: from any such state another call can be brought to reset the mapper before the probe |
| DiscoveryCache.SuspicionPersists | pkg/chainsaw/fetch.go:256-273 | A call about to probe keeps its retry until it ends, in Unavailable or in NotFound |
| DiscoveryCache.AServedKindCanBeReportedAbsent | pkg/chainsaw/fetch.go:221-226 | With such a reset it can be: a run reports NotFound for a kind served without a break |
| DiscoveryCache.MisleadingSetting | pkg/chainsaw/fetch.go:227-265 | The first half of that run is reachable |
| DiscoveryCache.DiscoveryIsRateLimited | pkg/chainsaw/fetch.go:346-382 | Over every run refreshes are granted one cooldown apart, at most (b - a) / cooldown + 1 of them between a and b; each reset of the mapper falls between its grant and the next one, so at most (b - a) / cooldown + 2 resets fall between a and b; resetGen counts the resets |
| DiscoveryCache.ResetsAreSpacedUnlessDelayed | pkg/chainsaw/fetch.go:366-381 | In every reachable state the distance of consecutive resets falls short of a cooldown by at most the delay between granting and performing the first of them; resets performed without delay are one cooldown apart |
| DiscoveryCache.DelayedResetsComeCloser | pkg/chainsaw/fetch.go:366-381 | For every delay up to a cooldown that shortfall is reached by some run |
| DiscoveryCache.ResetsCanFollowClosely | pkg/chainsaw/fetch.go:366-381 | So is the bound on resets in a window: two resets a nanosecond apart |
| DiscoveryCache.InterleavedCount | pkg/chainsaw/fetch.go:356-382 | Resets that fall between grants one cooldown apart fit into a window at most once more than the grants |
| DiscoveryCache.SpacedCount | pkg/defaults/timeouts.go:249 | Times that are one cooldown apart fit into a window (b - a) / cooldown + 1 times at most |
| DiscoveryCache.ReachableKeepsInv | pkg/chainsaw/fetch.go:227-382 | Mutual exclusion, spacing, freshness of the cache and the per-call facts hold in every reachable state |
| DiscoveryCache.RunKeepsInv | pkg/chainsaw/fetch.go:227-382 | Every run keeps that invariant |
| DiscoveryCache.ProceedKeepsCalls | pkg/chainsaw/fetch.go:227-274 | A step of one call keeps what every other call may rely on |
| DiscoveryCache.ClusterFetcher.ResolveMapping | pkg/chainsaw/fetch.go:227-274 | An undisturbed call is a run of the step system by that call alone; it finds a kind exactly when it was cached or a reset was allowed and the cluster serves it, and reports NotFound exactly when a reset was allowed, neither the cache nor the cluster had the kind, and its group could be enumerated; the mapper is reset exactly when the first lookup missed and a minute has passed |
| DiscoveryCache.ClusterFetcher.RefreshDiscovery | pkg/chainsaw/fetch.go:356-382 | Granted exactly when a cooldown has passed since the last grant; then it resets the mapper; returns the generation as of then |
| DiscoveryCache.RefreshSteps | pkg/chainsaw/fetch.go:356-382 | The method is the step system's refresh when nobody interrupts |
| Evaluation.EvaluateAssert | pkg/chainsaw/inprocess.go:552-648 | The loop with its counters returns the verdict of the specification, under any cancellation |
| Evaluation.EvaluateError | pkg/chainsaw/inprocess.go:653-754 | The same for negative assertions |
| Evaluation.AssertPassesOnALiveMatch | pkg/chainsaw/inprocess.go:552-648 | Pass exactly when the first live object that is no mismatch is a match; NotFound exactly when no object is live |
| Evaluation.AssertAndErrorAreDual | pkg/chainsaw/inprocess.go:552-754 | The two evaluators are exact duals on every answer, if and only if the fetch did not fail with ErrCodeInternal |
| Evaluation.GhostsDoNotCount | pkg/chainsaw/inprocess.go:764-776 | Both verdicts are those of the cluster without terminating or lost objects |
| Evaluation.GhostsAreOnTheirWayOut | pkg/chainsaw/inprocess.go:764-776 | An object is ignored exactly when it has a deletion timestamp or the status reason NodeLost |
| Evaluation.NamedVerdicts | pkg/chainsaw/inprocess.go:552-611 | What each answer to a named fetch means for both evaluators |
| Evaluation.ListedVerdicts | pkg/chainsaw/inprocess.go:612-648 | The same for a list: pass, mismatch, absence and failure by the objects on it |
| Evaluation.MalformedIsInvalid | pkg/chainsaw/inprocess.go:836-858 | A resource without apiVersion or kind is a terminal error for both evaluators |
| Evaluation.PassNeedsALiveMatch | pkg/chainsaw/inprocess.go:612-648 | Even a cancelled assert passes only on a live match |
| Evaluation.ExhaustedMeansNoMatch | pkg/chainsaw/inprocess.go:715-754 | A passing error check saw no live match |
| Evaluation.ScanMeaning | pkg/chainsaw/inprocess.go:612-648 | What the first decisive item is |
| Evaluation.ScanSkipsGhosts | pkg/chainsaw/inprocess.go:764-776 | A scan ends as it would on the live objects alone |
| AssertRetry.RunAssertWithRetry | pkg/chainsaw/inprocess.go:390-438 | Stops at the first attempt that must stop, reports the specified verdict, within the bound on attempts |
| AssertRetry.RunErrorWithRetry | pkg/chainsaw/inprocess.go:443-475 | The same without a grace for absent resources, one attempt fewer |
| AssertRetry.AttemptsAreBounded | pkg/chainsaw/inprocess.go:390-438 | On every outcome stream at most max(0, deadline - start) / interval + 3 attempts, although the effective deadline moves both ways |
| AssertRetry.StopsExactly | pkg/chainsaw/inprocess.go:390-438 | A loop stops at an attempt exactly when it passed, was terminal, was cancelled, is past the deadline, or found nothing past the grace without ever having seen a mismatch |
| AssertRetry.ABlipIsRetried | pkg/chainsaw/inprocess.go:484-486 | An API failure, a mismatch or an absence is no reason to stop while there is time |
| AssertRetry.EndsAreReported | pkg/chainsaw/inprocess.go:488-502 | What is reported at each kind of end |
| AssertRetry.WithoutALiveContext | pkg/chainsaw/inprocess.go:488-502 | When no attempt was made under a live context, the last error or the cancellation is reported |
| AssertRetry.DocumentVerdicts | pkg/chainsaw/runner.go:312-352 | What each answer to a fetch means for one raw document |
| AssertRetry.Pace | pkg/chainsaw/inprocess.go:421-437 | Each attempt was followed by a full interval, once by the absent deadline, or once by the full one |
| AssertRetry.EarlyGiveUpMeansNeverSeen | pkg/chainsaw/inprocess.go:520-547 | Giving up before the full deadline means no attempt ever saw a mismatch, the last outcome was NotFound, and the grace is over |
| AssertRetry.SeenOrUnknownKeepsTheBudget | pkg/chainsaw/inprocess.go:524-547 | A mismatch seen once, or an API failure now, keeps the full deadline |
| AssertRetry.OnlyMismatchesAreRemembered | pkg/chainsaw/inprocess.go:513-522 | Earlier outcomes count only through mismatches: API failures neither set nor shorten anything |
| AssertRetry.CancellationDoesNotMaskTheReason | pkg/chainsaw/inprocess.go:488-502 | A failed run reports the last failure seen while its context was live |
| AssertRetry.PassIsTheLastOutcome | pkg/chainsaw/inprocess.go:390-438 | Pass and terminal errors are reported exactly when the last attempt had them |
| AssertRetry.SameStreamSameEnd | pkg/chainsaw/runner.go:218-298 | Two runs over the same outcomes, clock and cancellations end at the same attempt with the same report |
| AssertRetry.BothLoops | pkg/chainsaw/runner.go:194-299 | The raw loop and the in-process loop return the same verdict after the same number of attempts on the same stream |
| AssertRetry.AssertRawResources | pkg/chainsaw/runner.go:194-299 | No documents is an error; otherwise the same specification as the in-process loop |
| AssertRetry.AssertAllDocuments | pkg/chainsaw/runner.go:302-309 | The first document that does not pass decides |
| AssertRetry.DocumentsPass | pkg/chainsaw/runner.go:302-309 | A round passes exactly when every document does |
| AssertRetry.RawPassIsNotVacuous | pkg/chainsaw/runner.go:202-228 | A passing raw check had one round in which every document matched what was fetched |
| AssertRetry.RawPathSeesGhosts | pkg/chainsaw/runner.go:312-352 | The raw path agrees with the in-process path on a named resource exactly when it is not terminating or lost |
| Executor.RunTests | pkg/chainsaw/inprocess.go:76-194 | Passed exactly when the stream is accepted, and the effective timeout is the first authored one, never above the caller's; only that timeout shapes the sleeps |
| Executor.PassIsNotVacuous | pkg/chainsaw/inprocess.go:87-126 | Behind a pass every operation of every step of every document was evaluated and returned nil, exactly when the stream holds an assert or error operation or no operation at all |
| Executor.WhenAccepted | pkg/chainsaw/inprocess.go:87-190 | A stream passes exactly when there is a document, each holds a check or declares that it does not, and, if any holds one, every step is live and every operation of it passes |
| Executor.WhenAnOperationPasses | pkg/chainsaw/inprocess.go:347-385 | An operation passes exactly when its context is live, it is an assert or an error check and not both, and its loop stops at an attempt that passed; all operations of a step share the deadline of the step |
| Executor.TheFirstPositiveTimeoutCounts | pkg/chainsaw/inprocess.go:126-153 | The effective timeout is the first positive authored one if it is below the budget of the caller, otherwise that budget |
| Executor.UnusableOperationsFail | pkg/chainsaw/inprocess.go:355-381 | An operation that is no check, or two, is an invalid request; one without a live context fails |
| Executor.AnAllowlistedPassIsComplete | pkg/chainsaw/runner.go:183-191 | Behind the allowlist, which lets through operations with exactly one of assert and error, every pass had every operation of every step of every document evaluated with result nil |
| Executor.OnlyTheAllowlistKeepsOtherOperationsOut | pkg/chainsaw/allowlist.go:104-125 | The allowlist is needed for that: the executor by itself passes a declared no-op that holds an operation of another kind |
| Executor.PassIsBackedByTheCluster | pkg/chainsaw/inprocess.go:347-385 | A passed operation stopped at an attempt at which the cluster gave a definite answer: for an assert, that it held a live match; for an error check, that the resource did not exist or no live object matched |
| Executor.ExecuteTests | pkg/chainsaw/inprocess.go:166-190 | Passes exactly when every step of every document runs uncancelled and passes |
| Executor.ExecuteStep | pkg/chainsaw/inprocess.go:347-385 | Nil means every operation yields a pass; an error is the outcome of one of them |
| Executor.CountExecutableOps | pkg/chainsaw/inprocess.go:327-337 | Counts the assert and error operations of all steps |
| Executor.StepsCountNothing | pkg/chainsaw/inprocess.go:327-337 | The count is zero exactly when no step has such an operation |
| ComponentFilter.Bundler.FilterEnabledComponents | pkg/bundler/bundler.go:1245-1382 | Refuses exactly the contradictory, unknown or empty requests; otherwise returns the pruned kept components, the filtered order, a reason for each excluded name, and warns about exactly the excluded driver installers |
| ComponentFilter.WhenRefused | pkg/bundler/bundler.go:1255-1343 | A request is refused exactly when a toggle is unreadable or re-enables what the recipe disables, a requested component is not declared and on, or no component is left |
| ComponentFilter.OwnToggleDecides | pkg/bundler/bundler.go:1151-1195 | With a value under its own name an accepted component is kept exactly when that value says so and the filter lets it through, whatever its aliases say |
| ComponentFilter.ThenAnAliasDecides | pkg/bundler/bundler.go:1151-1195 | Without one the first alias with a value decides |
| ComponentFilter.OtherwiseTheRecipeDecides | pkg/bundler/bundler.go:1284-1289 | Without any the recipe does |
| ComponentFilter.TogglesAreSpelled | pkg/bundler/bundler.go:1606-1622 | Which texts switch a component on and off, and that all others are errors |
| ComponentFilter.KeptPiecewise | pkg/bundler/bundler.go:1255-1337 | Components are kept one by one, in the order of the recipe |
| ComponentFilter.PrunedPiecewise | pkg/bundler/bundler.go:1354-1366 | Dependencies are kept one by one, in order |
| ComponentFilter.OrderPiecewise | pkg/bundler/bundler.go:1372-1379 | So are the names of the deployment order |
| ComponentFilter.ReasonsAreNamed | pkg/bundler/bundler.go:1268-1331 | A component is missing because the recipe disables it, else because an override does, else because the filter leaves it out, and otherwise it is not missing |
| ComponentFilter.WarningsAreNamed | pkg/bundler/bundler.go:1581-1596 | Warned about are exactly the excluded GPU operators of a driverless cluster |
| ComponentFilter.Bundler.SwitchOff | pkg/bundler/bundler.go:1255-1295 | The first loop keeps what recipe and toggles leave on, and fails exactly on a contradiction |
| ComponentFilter.Bundler.CheckRequested | pkg/bundler/bundler.go:1305-1322 | Every requested name must be on |
| ComponentFilter.Bundler.PickRequested | pkg/bundler/bundler.go:1322-1337 | The positive filter keeps exactly the requested components |
| ComponentFilter.Bundler.PruneDependencies | pkg/bundler/bundler.go:1344-1370 | Removes exactly the edges to declared components that are not kept |
| ComponentFilter.Bundler.FilterOrder | pkg/bundler/bundler.go:1372-1379 | The order restricted to kept names |
| ComponentFilter.Bundler.WarnExcluded | pkg/bundler/bundler.go:1581-1596 | Warns exactly about a GPU operator on a driverless cluster |
| ComponentFilter.KeptAndExcludedPartition | pkg/bundler/bundler.go:1245-1382 | With distinct names, kept names and names with a reason partition the declared names |
| ComponentFilter.SurvivingDependencies | pkg/bundler/bundler.go:1339-1370 | A surviving dependency is kept or undeclared, and all such dependencies survive |
| ComponentFilter.FilteredOrderIsSound | pkg/bundler/bundler.go:1339-1382 | If the recipe's order puts declared dependencies first, the filtered order does so for the pruned components |
| ComponentFilter.FilteredPrefix | pkg/bundler/bundler.go:1372-1379 | What stands before a component in the filtered order is the filtered part of what stood before it |
| ComponentFilter.AcceptedTogglesAgree | pkg/bundler/bundler.go:1606-1622 | In an accepted selection the merged toggle decides whether a component is kept |
| ComponentFilter.MergeOverridesAcrossKeys | pkg/bundler/bundler.go:1178-1195 | Merging from the lowest priority upwards computes the specified map |
| ComponentFilter.MergedMeaning | pkg/bundler/bundler.go:1151-1195 | The merged map holds exactly the supplied paths, each with the value of the earliest key in priority order |
| ComponentFilter.TheNameComesFirst | pkg/bundler/bundler.go:1151-1195 | A component gets the value under its own name, for every path and every source, and a path that neither name nor alias supplies is not there |
| ComponentFilter.ThenTheFirstAlias | pkg/bundler/bundler.go:1151-1195 | Without a value under its own name it gets that of the first alias with one |
| ComponentFilter.OverridesOf | pkg/bundler/bundler.go:1197-1229 | Scalar and typed overrides follow the same rule |
| ComponentFilter.Bundler.RejectOverridesForAbsentComponents | pkg/bundler/bundler.go:1421-1555 | Nil exactly when every scalar, typed and dynamic override may stand |
| ComponentFilter.WhenNothingIsRejected | pkg/bundler/bundler.go:1462-1523 | The exact condition for each of the three sources: the key is the reserved one or belongs, as name or alias, to a rendered component; or it is a scalar that switches off a declared one |
| ComponentFilter.Bundler.CheckSource | pkg/bundler/bundler.go:1462-1523 | The same for one source, in any order of keys and paths |
| ComponentFilter.SelectComponents | pkg/bundler/bundler.go:283-294 | Filtering and rejection together, the latter against exactly what will be rendered |
| ComponentFilter.NoScalarOverrideIsLost | pkg/bundler/bundler.go:1384-1555 | Each scalar override outside the reserved key is in the merged map of a rendered component, with its own value unless a key of higher priority shadows it, or disables a declared component that is indeed absent |
| ComponentFilter.NoTypedOverrideIsLost | pkg/bundler/bundler.go:1384-1555 | Each typed override outside the reserved key is in the merged map of a rendered component, with its own value unless a key of higher priority shadows it |
| ComponentFilter.SuppliedTakesEffect | pkg/bundler/bundler.go:1178-1195 | A supplied path is in the merged map with the value of its earliest key, which is not later than the key that supplied it |
| ComponentFilter.OwnValueUnlessShadowed | pkg/bundler/bundler.go:1178-1195 | The value given under a key is the merged one if no key of higher priority supplies the path; otherwise the value of such a key is |
| ValuesStore.Heap.Materialize | pkg/bundler/slinky_storage.go:125-217 | On maps held by reference, with any sharing in the caller's tree: an error changes no map that was there; success changes only the caller's own map, which then reads as the specified tree, and everything below it is new |
| ValuesStore.Heap.RewriteThroughCopy | pkg/bundler/slinky_storage.go:166-216 | Deep copy, in-place rewrite of the copy, and clear and refill on success: the caller's maps are safe because the rewrite stays in the copy |
| ValuesStore.Heap.DeepCopy | pkg/serializer/copy.go:25-54 | The copy reads as the original, reaches none of the maps that were there, and reaches no map in two ways |
| ValuesStore.Heap.MaterializeCopy | pkg/bundler/slinky_storage.go:169-211 | All in-place writes to the copy together compute the specified tree, and touch only the copy |
| ValuesStore.Heap.AttachSectionTo | pkg/bundler/slinky_storage.go:61-116 | A section of sets, in any order, through the maps that hold them |
| ValuesStore.Heap.AttachSetTo | pkg/bundler/slinky_storage.go:78-114 | One set: its two objects created where missing, then both lists, compute the specified set in place |
| ValuesStore.Heap.AttachTarget | pkg/bundler/slinky_storage.go:197-211 | Both volumes in one list: only the map that holds the list is written |
| ValuesStore.Heap.ObjectFieldOf | pkg/bundler/slinky_storage.go:301-314 | The object of a field, inserted into its parent where it is missing or null |
| ValuesStore.Heap.ParseVolumesIn | pkg/bundler/slinky_storage.go:169-190 | Both volumes are checked, their strings normalised in place, and their claims differ |
| ValuesStore.FieldUpdated | pkg/bundler/slinky_storage.go:211-211 | When no map is reached in two ways, writing one field in place, or below it, changes the value of its object in that field alone |
| ValuesStore.Frame | pkg/bundler/slinky_storage.go:164-167 | A node keeps its meaning while the maps it reaches do |
| ValuesStore.ANodeMeansOneValue | pkg/bundler/slinky_storage.go:164-167 | A map held by reference reads as one tree only |
| ValuesStore.AttachSetIs | pkg/bundler/slinky_storage.go:78-114 | First creating the objects and then filling the lists is what the specification says of a set |
| SharedStorage.MaterializingTwiceChangesNothing | pkg/bundler/slinky_storage.go:125-217 | A second run succeeds and changes nothing |
| SharedStorage.EverySetIsServed | pkg/bundler/slinky_storage.go:51-119 | Every login set and node set keeps its old mounts and volumes as a prefix, contains both shared ones and stays free of duplicate names; no set is added or lost, a set gains no field but the two objects, and all other fields of the set and of those objects are as they were |
| SharedStorage.EverySetMountsItsClaims | pkg/bundler/slinky_storage.go:172-215 | In the result every login set and node set mounts shared-home at /home and shared-data at /scratch/fsw, its pod backs shared-home by the claim that storage.home.name of the result names and shared-data by that of storage.data.name, and the two claims differ |
| SharedStorage.TheClaimsAreTheInputs | pkg/bundler/slinky_storage.go:228-285 | Names, storage classes and sizes of the result are the trimmed ones of the input |
| SharedStorage.TheSectionIsTrimmed | pkg/bundler/slinky_storage.go:228-285 | Nothing else in the storage section changes |
| SharedStorage.ServedKeeps | pkg/bundler/slinky_storage.go:51-119 | What was in a served set stays: its other fields, the other fields of its two objects, and all list entries in order |
| SharedStorage.WhenMaterialized | pkg/bundler/slinky_storage.go:125-217 | The rewrite takes place exactly when storage is enabled and supported, holds no other fields, both claims are accepted, and every set attaches |
| SharedStorage.NothingToDo | pkg/bundler/slinky_storage.go:125-162 | Nothing is done, and nothing refused, exactly when there is no section or it is not enabled |
| SharedStorage.ClaimsAreAccepted | pkg/bundler/slinky_storage.go:228-285 | Which storage sections are accepted, field by field |
| SharedStorage.SetsThatAttach | pkg/bundler/slinky_storage.go:51-119 | A set attaches exactly when its two objects and lists are missing, null or well-formed and each new entry can be appended to its list |
| SharedStorage.AppendOutcomes | pkg/bundler/slinky_storage.go:329-347 | An entry stays out exactly when it is there behind objects of other names, is added exactly when all entries are objects of other names, and is refused otherwise |
| SharedStorage.TrimCutsSpaceOnly | pkg/bundler/slinky_storage.go:287-299 | Trimming cuts off white space at both ends, all of it and nothing else |
| SharedStorage.MaterializedTouchesOnlyItsSections | pkg/bundler/slinky_storage.go:125-217 | The two claims differ and are valid, and no other section changes |
| SharedStorage.AttachBothMeaning | pkg/bundler/slinky_storage.go:180-215 | One list afterwards: old entries first, both new ones in it, at most two more, unique names stay unique |
| SharedStorage.AttachBothSettles | pkg/bundler/slinky_storage.go:329-347 | Attaching both volumes again changes nothing |
| SharedStorage.AppendNamedObject | pkg/bundler/slinky_storage.go:329-347 | The loop finds the first entry of the name: same entry or conflict, otherwise append |
| SharedStorage.AppendedEntries | pkg/bundler/slinky_storage.go:329-347 | A successful append keeps the old entries as a prefix, holds the new one, and keeps names unique |
| SharedStorage.AppendSettles | pkg/bundler/slinky_storage.go:329-347 | A settled entry stays settled when others are appended |
| SharedStorage.TrimTwice | pkg/bundler/slinky_storage.go:287-299 | Normalising a required string twice is normalising it once |
| Bom.BuildBOMWithVariants | pkg/bom/variants.go:58-60 | Succeeds exactly when root, components and variants have distinct references that no image shares, whatever the order of the inputs and however often images repeat; success returns a document built from the inputs |
| Bom.WhenInputsAreApart | pkg/bom/bom.go:127-233 | The condition for success read off the inputs: survey names differ, variants differ in name@version, none of these is a survey name, and no image reference is the root or an application reference |
| Bom.OrdinaryInputsAreApart | pkg/bom/bom.go:127-233 | It holds for one survey to a name, one variant to a name and version, names without an at sign and a root that does not start like an image reference |
| Bom.EveryComponentIsNamed | pkg/bom/bom.go:175-213 | The components field by field: one for each survey, one for each variant with its version in its reference, one for each image, and nothing else |
| Bom.EveryEdgeIsNamed | pkg/bom/bom.go:180-232 | The edges spelled out: root to every survey and variant, each of these to its own images, and nothing else |
| Bom.EveryDependencyIsNamed | pkg/bom/bom.go:291-310 | The root has the first dependency entry, no entry is without targets, and targets are listed as often as they are asked for |
| Bom.TargetsAreSorted | pkg/bom/bom.go:405-409 | The targets of every entry are in ascending order |
| Bom.ApplicationsAreSorted | pkg/bom/bom.go:166-205 | Surveys come first, by name, then the variants, by name and version |
| Bom.OneMore | pkg/bom/bom.go:175-225 | A further entry adds its application, then its new images, then its edge, behind everything before |
| Bom.BuildBOM | pkg/bom/bom.go:118-121 | Never fails, and returns a document built from the surveys alone |
| Bom.BuildBOMDoc | pkg/bom/bom.go:127-233 | The shared builder behind both: unchecked it never fails, checked it fails exactly on a clash |
| Bom.BuildSorted | pkg/bom/bom.go:174-232 | After sorting, the two loops and the root edge produce exactly the specified document |
| Bom.AppendBatch | pkg/bom/bom.go:175-225 | A loop over entries adds all of them or stops at the first clash |
| Bom.AppendEntry | pkg/bom/bom.go:175-198 | One application and its images: exactly the new clashes are refused |
| Bom.AppendImageEntries | pkg/bom/bom.go:291-310 | Emits the images seen for the first time and one edge per application with images |
| Bom.RefClaims.ClaimRef | pkg/bom/bom.go:258-269 | In checked mode refuses exactly what is already claimed |
| Bom.RefClaims.ClaimImage | pkg/bom/bom.go:274-287 | A repeat of an image is no collision, a clash with an application is |
| Bom.RefClaims.ClaimImages | pkg/bom/bom.go:291-302 | Claims all images in turn, keeping first occurrences |
| Bom.ReferencesAreUnique | pkg/bom/bom.go:235-287 | No two components of a checked document share a reference, with each other or with the root |
| Bom.EverythingIsEmitted | pkg/bom/bom.go:291-310 | A document emits every application and every image of its inputs, and nothing else |
| Bom.EmittedOnce | pkg/bom/bom.go:258-302 | First occurrences of images and distinct applications give distinct references, by induction over the entries |
| Bom.TheGraphIsTheInput | pkg/bom/bom.go:107-121 | The dependency graph has exactly the edges root to application and application to image |
| Bom.TheGraphIsClosed | pkg/bom/bom.go:127-233 | Every edge runs from the root or an emitted component to an emitted component |
| Bom.LegacyComponentsComeFirst | pkg/bom/variants.go:52-57 | The component list starts with BuildBOM's list, whatever order the unstable sort settles on |
| Bom.InputOrderIsIrrelevant | pkg/bom/bom.go:166-172 | Whether references clash does not depend on the order of the inputs |
| Bom.FreshKeys | pkg/bom/bom.go:274-302 | First occurrences are distinct and are exactly the references not seen before |
| Bom.PackageURLsAreUnique | pkg/bom/extract.go:479-485 | The containers of a document have distinct Package URLs if and only if different spellings among the inputs' images parse to different references, for references that are safe in a URL |
| Bom.SpellingsAreListedTwice | pkg/bom/bom.go:295-301 | A Docker Hub short name and its full spelling are emitted as two components with different references and the same Package URL |
| Bom.FirstImagesAreTheDeployed | pkg/bom/bom.go:291-310 | Every image string of the inputs is emitted exactly once |
| ImageReference.ParseImageRef | pkg/bom/extract.go:459-488 | The stepwise cuts compute the specified reference |
| ImageReference.RenderingRoundTrips | pkg/bom/extract.go:459-546 | For every string, re-reading registry/repository[:tag][@digest] gives the same reference if and only if there is a tag or the repository does not end in one; then the Package URL is the same too |
| ImageReference.RenderingLosesOnlyEmptyTags | pkg/bom/extract.go:459-488 | The same condition read off the string: the round trip fails exactly when the path after digest and registry ends in an empty tag behind another one |
| ImageReference.ParsedIsWellFormed | pkg/bom/extract.go:459-495 | What every parsed reference satisfies: a host as registry, no marks in the parts, a namespace on Docker Hub |
| ImageReference.ParseOfRender | pkg/bom/extract.go:459-488 | Parsing undoes rendering for every well-formed reference without a tag-like repository end |
| ImageReference.AnEmptyTagIsNotKept | pkg/bom/extract.go:475-478 | The family of strings that do not round-trip: an empty tag after a first one |
| ImageReference.CombinedTripletIsRecovered | pkg/bom/extract.go:344-360 | For a bare image, a host-led repository and a plain version, parsing the combination gives that host, version and image back |
| ImageReference.ParsedOfJoin | pkg/bom/extract.go:459-488 | Host, name and tag joined up parse back to just these |
| ImageReference.TheFirstSegmentIsARegistry | pkg/bom/extract.go:467-495 | The first segment is the registry exactly when it is "localhost" or holds a dot or a colon; otherwise the registry is docker.io |
| ImageReference.AFullReference | pkg/bom/extract.go:459-488 | Host, name, tag and digest joined up parse back to just these, with "library/" in front of a single-segment name on Docker Hub |
| ImageReference.TaggedStrings | pkg/bom/extract.go:475-478 | A string is tagged exactly when it ends in a colon and something without colon and slash |
| ImageReference.ThePURLIsSpelled | pkg/bom/extract.go:515-546 | The Package URL with and without tag and digest, spelled out |
| ImageReference.WithoutAVersion | pkg/bom/extract.go:344-352 | When an image is taken as it is, and when the repository is put in front |
| ImageReference.TheVersionIsAppendedOnce | pkg/bom/extract.go:353-360 | A version is appended exactly when there is one and nothing tags or pins the image yet |
| ImageReference.SlashesMeetOnce | pkg/bom/extract.go:348-351 | A slash at the end of the repository makes no difference |
| ImageReference.ShortNamesAreCanonical | pkg/bom/extract.go:479-485 | A Docker Hub short name, with or without tag and digest, parses to the same reference and Package URL as its full spelling |
| ImageReference.ThePURLIsTheReference | pkg/bom/extract.go:497-546 | For parts free of the URL's separators and digests that name their algorithm, two Package URLs are equal exactly when the references are |
| ImageReference.PURLPartsAgree | pkg/bom/extract.go:515-546 | Registry, repository, version and tag qualifier can be read back from a Package URL |
| ImageReference.LocationIs | pkg/bom/extract.go:516-527 | Splitting off the name and putting it back gives registry/repository |
| CanonicalPolicy.CanonicalStringFor | pkg/allocpolicy/allocpolicy.go:301-324 | Merging per component, sorting components, and sorting and compacting each path list gives the same text as sorting all component:path pairs at once and keeping each once |
| CanonicalPolicy.LinesEnumerate | pkg/allocpolicy/allocpolicy.go:290-300 | The rendered lines are exactly the set of pairs, each once, strictly ascending |
| CanonicalPolicy.TheLastPairIsTheLastLine | pkg/allocpolicy/allocpolicy.go:310-323 | A pair that comes after all others adds the line component:path at the end; with `OnlyThePairsCount` this fixes the text of every list |
| CanonicalPolicy.OneLine | pkg/allocpolicy/allocpolicy.go:317-321 | The text of a single pair |
| Ordering.LessIsLexicographic | pkg/allocpolicy/allocpolicy.go:310-313 | Ascending means byte by byte: the first difference decides, and a proper prefix comes first |
| CanonicalPolicy.MergeEntries | pkg/allocpolicy/allocpolicy.go:302-309 | Nothing is lost or invented by merging, and each component is listed once |
| CanonicalPolicy.WritePaths | pkg/allocpolicy/allocpolicy.go:312-322 | One component's block is the text of its sorted, compacted paths |
| CanonicalPolicy.BlockIsSorted | pkg/allocpolicy/allocpolicy.go:312-316 | The lines of one component are its paths, once each, ascending |
| CanonicalPolicy.OnlyThePairsCount | pkg/allocpolicy/allocpolicy.go:290-300 | Entries with the same pairs have the same text, whatever their order, repetition or splitting |
| CanonicalPolicy.TheTextIsThePairs | pkg/allocpolicy/allocpolicy.go:271-288 | For components without colon or newline and paths without newline, text and identity are equal exactly when the sets of pairs are |
| CanonicalPolicy.TextIsInjective | pkg/allocpolicy/allocpolicy.go:310-323 | Different clean line lists have different texts |
| CanonicalPolicy.AColonInAComponentCollides | pkg/allocpolicy/allocpolicy.go:316-319 | Without that restriction different pairs share a text |
| CanonicalPolicy.IdentityFor | pkg/allocpolicy/allocpolicy.go:285-288 | The identity is the hash of the canonical text |

## Left out

- Concurrent changes of the output directories: both writers ask callers for exclusive use (pkg/cli/bundle.go:1472-1482), and Go offers no identity-conditional rename.
- BundleOutput.Stage.Publish: a failed filesystem call has no effect, so neither a recursive removal that deletes half of the backup nor a short write into the stage is modelled; file modes and symbolic links are not part of a tree, and a directory that is removed just becomes unreachable.
- BundleOutput.Stage.CopyInventory: what the reads of a source file deliver is given with the inventory, and the verification of the finished copy is one call that may fail; that the inventory was verified before is not part of this model.
- BundleOutput.NewGenerationStage: the random stage name is assumed to differ from the components of the output path, which the code leaves to 128 random bits.
- ImageRefsTarget.Target.WriteAtomic: file modes, symbolic links and the test hooks between the checks are not modelled; the bundle's file identities are a fixed set.
- DiscoveryCache.NotFoundReadFreshDiscovery: covers a resettable mapper with a group probe wired in. A mapper that cannot be reset reports its generation as advanced (pkg/chainsaw/fetch.go:357-366), and a missing probe is skipped; both are configurations without the freshness promise. The client library's own retry of a failed group inside one pass is part of that pass.
- Fetching and listing over the network, the real mapper, and the assertion engine are arbitrary functions.
- YAML decoding, document splitting, template stripping and structured image extraction: the model starts from decoded values.
- Error texts, logging and progress output; only error codes are kept. Which of several rejected overrides is named first is not modelled.
- ComponentFilter.Bundler.RejectOverridesForAbsentComponents: the registry's alias lookup is an arbitrary function from a name to further keys, and dynamic declarations are opaque path sets.
- ComponentFilter.NoTypedOverrideIsLost: a typed `enabled` on a rendered component counts as merged; the later step that rejects it is not modelled.
- ValuesStore.Heap.Materialize: finishes the sets of the copy one after another, where the code first collects all lists to extend and then extends them; until the caller's map is refilled only the private copy differs.
- Bom.BuildBOMDoc: component properties, serial numbers, timestamps and suppliers are not part of the document model.
- CanonicalPolicy.CanonicalStringFor: the hash is an arbitrary function, and a character stands for a byte.
- ImageReference.ParseImageRef: the raw input string that the code keeps beside the parts is not part of the reference.
- The read-only allowlist, coherence tables, node scheduling, signing, attestation, registry pushes and report rendering: decisions one reading settles, or input and output.
