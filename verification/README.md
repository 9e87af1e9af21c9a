# Verified models of the hardest parts

A Dafny model of the parts of the repository with the most state and the
finest arguments, and proofs of what they promise. `dafny verify dfyconfig.toml`
checks all of it.

- **The visible-tab reconciler** (`Reconciler.dfy`, `ReconcilerHook.dfy`): the
  effect of `useVisibilityReconciler` as a state machine over calls, timers,
  hiding, showing and disposing, and as a class with the closure's variables
  whose methods take exactly the machine's steps.
- **Hot and Cold data** (`RankTable.dfy`, `HintSearch.dfy`, `RankPacks.dfy`,
  `RankGenerator.dfy`, `AssetCheck.dfy`, `SynsetClosure.dfy`, `StableSort.dfy`):
  the generator's rank tables, linear hint search, byte packs and in-place
  closure, and the independent checker that reads the result back.
- **Offline caches** (`OfflineCache.dfy`, `OfflineWorker.dfy`): the replacement
  protocol of the service worker. Names and handles are separate, as in
  section 5.5 of the W3C Service Workers specification: deleting a name leaves
  an open handle alive and opening a missing name makes an empty cache.
- **Crash and resume** (`TransferFiles.dfy`, `TransferCreate.dfy`,
  `TransferCli.dfy`, `TransferAppend.dfy`, `AppendListings.dfy`, `AppendCli.dfy`,
  `WordsMedia.dfy`, `WordsMediaCli.dfy`): three checkpointed commands as protocols between a
  process, its disk and the stores it writes. A process may die between any two
  writes; the tmp-then-rename write of a checkpoint is one step.
- **The legacy transfer import** (`LegacyImport.dfy`, `LegacyRows.dfy`,
  `LegacyImporter.dfy`): one transaction over keyed tables, with their unique and
  foreign keys.
- **Face boxes and account permissions** (`FaceDetect.dfy`, `Permissions.dfy`).

Each protocol is written twice. A module of values gives its events, the step
each event takes and the runs that result, and proves what every run keeps. A
class with the source's own fields then has a method for each piece of code,
and its `ensures` says that the method takes steps of that protocol (`Reaches`)
or computes the specified function. What that comes to is then stated once more
in terms of the inputs alone. `Basics.dfy` holds two small datatypes.

Findings the proofs made exact:

- A call during a cooldown costs two reconciles, because `rerun` is not cleared
  when the awaited run starts (`CallInCooldownCostsTwo`). Two is also the most
  a quiet run can begin.
- The activation sweep reads a cache's metadata and deletes it in two awaits.
  Every preparation that can start can lose the only complete cache this way
  (`SplitSweepCanLoseTheCache`), and it can be lost exactly when metadata is
  written into a candidate the sweep has condemned (`SurvivalIsExact`).
- A crash between removing the words-media checkpoint and returning makes the
  rerun skip what was uploaded (`CrashAfterRemovalLosesTheList`), except where
  the plan only overwrites (`FirstReturnIsUninterrupted` is an equivalence).
- Append keeps one checkpoint for each directory. Other directories' saves can
  make a rerun report its append as finalized though its files were never added
  (`CoveredIsLost`). That can happen exactly when other directories' listings,
  free in the transfer and of one another, cover all of its names
  (`ReturnedMeansAdded`); one name of its own is enough to rule it out. Nothing
  is ever added twice.
- The joined key of the import's generation map needs transfer ids without
  colons (`ColonsLoseAGeneration`), which `ops/legacy-guest-rdb-extract.go:94`
  guarantees.
- An import into an empty database can fail only for a wrong hash, a repeated
  id, a number that does not fit its column, or two jobs with one idempotency
  key or one generation of one file (`FirstImportGoesThrough`).

What is assumed of code outside the model: helpers that name, describe and
process files are deterministic; sorting and grouping keep the ids and names of
a transfer's files with their multiplicity; every media backend gives a stored
file the name of its directory entry; there is no other writer; hashing is
injective; `createPostgresTransferInTransaction` inserts a transfer and its file
rows when the id is absent and returns false otherwise; candidate cache names
are fresh. The penalty is any real-valued function and word order any total
order on distinct words.

## Model

| member | source | states |
|---|---|---|
| `ReconcilerModel.CallersAreServed` | hooks/useVisibilityReconciler.ts:85-112 | in every reachable state, a queued caller released while the hook is active and the tab visible has seen the whole of the first reconcile that began after its call |
| `ReconcilerModel.NoCallerIsStranded` | hooks/useVisibilityReconciler.ts:44-49 | callers are released once each and in call order, and a non-empty queue implies an active hook with a reconcile in flight or a cooldown pending |
| `ReconcilerModel.ReconcilesAreSpaced` | hooks/useVisibilityReconciler.ts:85-111 | reconciles never overlap and each begins at least the minimum gap after the one before ended, in every run |
| `ReconcilerModel.TimersAreExact` | hooks/useVisibilityReconciler.ts:50-84 | `scheduled` mirrors the cooldown timer, which exists only while active and visible; exactly one safety timer is pending while active and visible and none otherwise; a rerun is promised only then, with a flight or a cooldown to keep it |
| `ReconcilerModel.QuietRunsSettle` | hooks/useVisibilityReconciler.ts:62-112 | from any reachable active and visible state, with no new calls, a run begins at most two more reconciles, takes at most six steps, and once settled has an empty queue and no rerun |
| `ReconcilerModel.QuietRunDecreases` | hooks/useVisibilityReconciler.ts:62-112 | the decreasing measure: reconciles begun plus reconciles still possible never grows, and every quiet step uses up one of the steps left |
| `ReconcilerModel.UnsettledCanStep` | hooks/useVisibilityReconciler.ts:62-73 | an unsettled state always has a quiet step: the end of the flight, or the cooldown once it is due |
| `ReconcilerModel.CallInCooldownCostsTwo` | hooks/useVisibilityReconciler.ts:91-106 | the bound of two is reached by every cooldown in which someone called, because `rerun` is not cleared when a run starts |
| `ReconcilerModel.StepKeepsInv` | hooks/useVisibilityReconciler.ts:43-124 | call, end or throw, either timer, hide, show, online, dispose and time all keep the joint invariant of flags, timers, queue and history |
| `ReconcilerModel.MountInv` | hooks/useVisibilityReconciler.ts:126-130 | mounting the hook, with or without a first reconcile, establishes that invariant |
| `ReconcilerModel.AskingBegins` | hooks/useVisibilityReconciler.ts:85-124 | in every reachable active state a call, showing the tab, coming online or either timer begins a reconcile at once when none is in flight and the gap since the last end is over; inside the gap it leaves a cooldown pending, during a flight `rerun` set, and then its caller queued |
| `ReconcilerModel.OnlyAskingBegins` | hooks/useVisibilityReconciler.ts:85-139 | nothing else begins one, and asking while inactive or hidden neither begins one nor queues a caller |
| `ReconcilerModel.MountingBegins` | hooks/useVisibilityReconciler.ts:126-128 | mounting begins a reconcile if and only if it is asked to and the tab is visible |
| `ReconcilerModel.RequestsAreMet` | hooks/useVisibilityReconciler.ts:62-124 | over any run without a hide or a dispose, once settled the last reconcile began no earlier than the last time anything asked for one |
| `ReconcilerModel.CooldownIsExact` | hooks/useVisibilityReconciler.ts:62-73 | a cooldown that is started is due exactly at the last end plus the minimum gap, and a pending one is never moved |
| `ReconcilerModel.SafetyIsExact` | hooks/useVisibilityReconciler.ts:74-84 | a safety timer that is started is due exactly one interval from now, and a pending one is never moved |
| `ReconcilerModel.TimersAreDue` | hooks/useVisibilityReconciler.ts:62-84 | in every reachable state a pending cooldown is due by the last end plus the gap and the safety timer by now plus the interval |
| `ReconcilerModel.ReleasedTogether` | hooks/useVisibilityReconciler.ts:44-61 | each step releases the whole queue, in order, or nobody: the queue exactly when it is the cleanup or leaves neither a flight nor a cooldown |
| `ReconcilerHook.VisibilityReconciler.constructor` | hooks/useVisibilityReconciler.ts:34-130 | the mounted object is exactly the model's mounted state |
| `ReconcilerHook.VisibilityReconciler.Run` | hooks/useVisibilityReconciler.ts:85-112 | the first half of `run` updates the closure variables exactly as the model's `Run`, in all four branches |
| `ReconcilerHook.VisibilityReconciler.EndReconcile` | hooks/useVisibilityReconciler.ts:101-111 | the `finally` block updates them exactly as the model's `EndReconcile` |
| `ReconcilerHook.VisibilityReconciler.Pause` | hooks/useVisibilityReconciler.ts:54-61 | hiding cancels both timers, forgets the rerun and releases the queue unless a reconcile is in flight |
| `ReconcilerHook.VisibilityReconciler.Deliver` | hooks/useVisibilityReconciler.ts:62-139 | whatever the browser runs next, the object takes the model's step and keeps its invariant |
| `RankTable.InvertOrder` | scripts/generate-hot-and-cold-data.ts:595-598 | the loop over the order leaves the inverse table (modulo 65536, a Uint16 cell) |
| `RankTable.ScanRanks` | scripts/generate-hot-and-cold-data.ts:706-711 | the `seen` scan accepts a table if and only if it is a permutation of 0..n-1 |
| `RankTable.Pigeonhole` | scripts/generate-hot-and-cold-data.ts:706-711 | n ranks below n are distinct if and only if they are all of 0 to n-1: what the scan relies on |
| `RankTable.OrderIsPermutation` | scripts/generate-hot-and-cold-data.ts:588-594 | sorting the indices gives a permutation of them |
| `RankTable.OrderIsSorted` | scripts/generate-hot-and-cold-data.ts:588-594 | for distinct words, any scores and any total word order: of two places the second is not the target, and the first is the target, has the higher score, or the same score and comes first in spelling |
| `RankTable.InverseIsPermutation` | scripts/generate-hot-and-cold-data.ts:595-598 | the inverse table is a permutation if and only if there are at most 65536 words |
| `RankTable.RankOfOrder` | scripts/generate-hot-and-cold-data.ts:595-598 | the rank of the word at place i of the order is i |
| `RankTable.RanksFollowScores` | scripts/generate-hot-and-cold-data.ts:588-598 | what a rank means: the target has rank zero, and of two other words the one of lower rank has the higher score, or the same score and comes first in spelling |
| `HintSearch.BestHotBefore` | scripts/generate-hot-and-cold-data.ts:644-651 | the prefix pass leaves at each index an earlier candidate of least penalty |
| `HintSearch.BestColdAfter` | scripts/generate-hot-and-cold-data.ts:652-659 | the suffix pass leaves at each index a later candidate of least penalty |
| `HintSearch.BestTriple` | scripts/generate-hot-and-cold-data.ts:639-671 | for every penalty function and three or more candidates, the linear search returns hot < middle < cold whose total penalty is the minimum over all such triples; of equals the first middle, the first hot and the last cold one |
| `HintSearch.ChooseHints` | scripts/generate-hot-and-cold-data.ts:599-675 | each branch's hints: the curated ones sorted, rejected if and only if one is unknown or the target itself, the best triple, the three nearest provisional ones, or a rejection, with the curation flag |
| `HintSearch.HintsComeFromTable` | scripts/generate-hot-and-cold-data.ts:618-675 | without curated hints, on the words and ranks alone: the triple of safe words of ranks 1 to 1999 of least penalty against 100, 40 and 10, flagged if and only if one is beyond 250, 100 or 30; failing that the three nearest provisional words, always flagged; failing that an error |
| `HintSearch.SearchedHintsAreProgressive` | scripts/generate-hot-and-cold-data.ts:618-675 | searched and provisional hints have strictly falling ranks for every dictionary, score, filter and penalty, so the later check cannot fail on them |
| `HintSearch.CuratedHintsAreProgressive` | scripts/generate-hot-and-cold-data.ts:602-609 | curated hints pass that check if and only if they are three different words |
| `RankPacks.PackTables` | scripts/generate-hot-and-cold-data.ts:823-846 | after dealing all tables over 16 files each file is as long as its tables, holds every table at its start, and target i is recorded in file i % 16 at 2n * (i / 16) modulo 2^32 |
| `RankPacks.PacksRoundTrip` | scripts/generate-hot-and-cold-data.ts:840-846 | offset and bounds pass the checker's test and the two bytes at offset + 2*i, low byte first, are the target's rank of word i, as long as the start is below 2^32 |
| `RankPacks.OffsetIsStart` | scripts/generate-hot-and-cold-data.ts:824-845 | the recorded offset is the true start if and only if the start is below 2^32 |
| `RankPacks.BlocksAreDisjoint` | scripts/generate-hot-and-cold-data.ts:840-845 | two targets in one file never share a byte, and every block is aligned to two bytes |
| `RankPacks.BlocksCoverFile` | scripts/generate-hot-and-cold-data.ts:883-888 | every byte of a file belongs to the block of some target |
| `RankPacks.ReadBack` | scripts/check-hot-and-cold-quality.ts:103-108 | a little-endian read of a table's bytes gives the rank written there |
| `AssetCheck.VerifyTarget` | scripts/check-hot-and-cold-quality.ts:92-124 | each of the bounds, table, target, trail and hint-order tests reports its problem if and only if its condition fails; there is none if and only if all hold |
| `AssetCheck.AcceptedBytes` | scripts/check-hot-and-cold-quality.ts:92-124 | acceptance on the bytes: an even offset, different ranks below the number of words, the target at rank zero, thirty words of which each of the thirty lowest ranks stands at its place in the trail, and three known hints of falling rank |
| `AssetCheck.ScanTable` | scripts/check-hot-and-cold-quality.ts:101-115 | the combined scan accepts exactly permutations and has then collected the words of the lowest ranks |
| `AssetCheck.CollectedTrail` | scripts/check-hot-and-cold-quality.ts:114-118 | comparing the stored trail with the collected words is comparing it with the words ranked 0 to 29 |
| `AssetCheck.HintsAreCloser` | scripts/check-hot-and-cold-quality.ts:119-124 | the hint test holds if and only if there are three known words of strictly falling rank |
| `RankGenerator.RankAndHints` | scripts/generate-hot-and-cold-data.ts:582-676 | the whole function returns the inverse table, in which of two words the one of lower rank has no lower score, the trail of the words of ranks 0 to 29, and the hints of its branch as `HintsComeFromTable` puts them |
| `RankGenerator.ValidateGeneratedTarget` | scripts/generate-hot-and-cold-data.ts:697-717 | the table and hint-order tests pass if and only if the target is at rank zero, the table is a permutation and of three hints no known one is as far as a known one before it, so that an unknown middle hint always passes |
| `RankGenerator.KnownHintsProgress` | scripts/generate-hot-and-cold-data.ts:712-717 | on three words of the dictionary that hint test is being progressive |
| `RankGenerator.GeneratedTableIsValid` | scripts/generate-hot-and-cold-data.ts:588-598 | a generated table always passes the rank-zero and permutation checks |
| `RankGenerator.TrailIsRebuilt` | scripts/check-hot-and-cold-quality.ts:102-118 | the trail rebuilt from ranks is the stored one if and only if the dictionary has at least 30 words |
| `RankGenerator.CheckerAcceptsGenerated` | scripts/check-hot-and-cold-quality.ts:92-124 | the independent checker's bounds, table, trail and hint-order tests accept a generated and packed target with progressive hints if and only if the dictionary has at least 30 words |
| `SynsetClosure.Relation.Close` | scripts/generate-hot-and-cold-data.ts:278-283 | the loop over the map it extends terminates and leaves exactly the relation and its inverse |
| `SynsetClosure.Relation.AddReverses` | scripts/generate-hot-and-cold-data.ts:279-283 | the inner loop adds exactly the reverses of one synset; the set it visits stays as it is, also when a synset is its own neighbour, while the map grows |
| `OfflineCache.CompleteCacheSurvives` | src/sw.ts:204-277 | a thing with a complete cache has one after any interleaving of preparations, failures, late fetches, sweeps and crashes, unless the user removes it or its metadata is written into a cache a sweep is about to delete |
| `OfflineCache.SurvivalIsExact` | src/sw.ts:204-277 | the exact condition: without a removal, a thing that starts with a complete cache is safe at every point of a run (no undisturbed continuation can lose it) if and only if its metadata is never written into a cache that a sweep has condemned and the candidate's name still resolves to |
| `OfflineCache.AtomicSweepsAreSafe` | src/sw.ts:204-277 | if every read of a sweep that condemns a cache is followed at once by its deletion, a complete cache survives every run in which the user does not remove the thing |
| `OfflineCache.RecordingIsSafeUnlessExposed` | src/sw.ts:256-259 | for the one step that matters: writing the metadata leaves the thing safe if and only if its candidate is not exposed to a sweep at that moment |
| `OfflineCache.ExposedCanBeLost` | src/sw.ts:204-276 | from every state in which metadata is written into an exposed candidate, the preparation and the sweep can go on to leave no complete cache, without a removal and without another such write |
| `OfflineCache.SplitSweepCanLoseTheCache` | src/sw.ts:204-276 | every preparation that can start, from any state, can be exposed: a run of preparation and sweep steps ends with no complete cache of the thing |
| `OfflineCache.DropsOnlyWhenReplaced` | src/sw.ts:260-270 | in every undisturbed run an older cache is dropped only while the candidate's name resolves to a complete cache |
| `OfflineCache.CleaningIsFinal` | src/sw.ts:262-276 | once cleaning has begun the preparation is never abandoned, and after every undisturbed step its candidate's name resolves to a complete cache |
| `OfflineCache.OtherThingsUntouched` | src/sw.ts:233-277 | a preparation's steps leave every cache name of another thing as it was |
| `OfflineCache.StepKeepsInv` | src/sw.ts:204-294 | every step keeps the invariant on names, handles, phases and what each candidate has recorded |
| `OfflineCache.StepKeeps` | src/sw.ts:204-294 | every undisturbed step keeps some complete cache of the thing |
| `OfflineCache.PrefixesAreDisjoint` | src/sw.ts:46-48 | no cache name belongs to two things, since slugs hold no colon |
| `OfflineCache.CandidateNamesAreSafe` | src/sw.ts:50-53 | a candidate's name has its thing's prefix and is never one the activation sweep drops as stale |
| `OfflineWorker.Worker.PerformThingPreparation` | src/sw.ts:233-277 | without another step in between, a ready thing is left alone unless a refresh is asked for; otherwise the preparation is a run of the protocol that succeeds unless a response is bad; then the candidate holds the metadata and every resource and of the thing's other names only those that could not be deleted are left; on failure the names are as they were; no other cache is touched |
| `OfflineWorker.Worker.FetchAll` | src/sw.ts:248 | in whatever order the responses arrive, every resource is stored under the candidate's handle, or a bad response throws |
| `OfflineWorker.Worker.VerifyCandidate` | src/sw.ts:259-261 | the check by name reopens the candidate and passes when the name still has the candidate's own cache |
| `OfflineWorker.Worker.CleanUp` | src/sw.ts:263-270 | exactly the thing's other names go, but for those whose deletion throws |
| `OfflineWorker.Worker.RemoveIncompleteThingCaches` | src/sw.ts:204-210 | of all the given things, exactly the names without metadata go |
| `OfflineWorker.Worker.RemoveIncompleteCaches` | src/sw.ts:206-208 | one thing's turn of that loop: exactly its names without metadata go |
| `OfflineWorker.Worker.ListNames` | src/sw.ts:101-104 | lists exactly the names with the thing's prefix |
| `TransferCreate.SavesAreOneTransfer` | scripts/transfer-ops.ts:597-729 | until the checkpoint is removed, whatever crashes and reruns happen, every save has the same id, delete token, title, creation time and expiry, which is a thousand times the lifetime in seconds later, and one result for each entry |
| `TransferCreate.RecordedFilesStay` | scripts/transfer-ops.ts:643-694 | the set recorded on disk only grows, holds only files really processed, and a recorded file is never processed again |
| `TransferCreate.StepKeepsInv` | scripts/transfer-ops.ts:597-734 | every step and crash keeps a running command in agreement with its checkpoint |
| `TransferCreate.RunContinues` | scripts/transfer-ops.ts:597-734 | any run without a removal extends what was processed, saved and recorded, and keeps the checkpoint's identity |
| `TransferCli.Cli.CreateTransfer` | scripts/transfer-ops.ts:584-743 | one attempt, with a crash wherever its fate puts it, is a run of the protocol; one that is not killed mismatches, is incomplete exactly when some entry was neither recorded nor uploaded, has expired exactly when less than 1000 ms of its lifetime in seconds is left, or saves the one transfer with every entry's result in order; each with the catalogue and checkpoint it leaves |
| `TransferCli.Cli.Finalize` | scripts/transfer-ops.ts:696-734 | from the counted results to the removed checkpoint: incomplete if and only if a result is missing, expired if and only if less than a second is left, otherwise saved exactly once |
| `TransferAppend.AppendIsExactlyOnce` | scripts/transfer-ops.ts:794-936 | over any crashes and reruns of one command, from one directory, the transfer holds its original files and beside them nothing or each entry once, and each entry once as soon as any call has returned |
| `TransferAppend.EachDirectoryIsAddedOnce` | scripts/transfer-ops.ts:773-936 | mixed with commands for any other directories, one directory's entries are added by at most one save of exactly those entries; once a call for it has returned, that save is there or other directories had added every one of its names |
| `TransferAppend.NothingIsAddedTwice` | scripts/transfer-ops.ts:794-936 | over any runs of any append commands, from any directories, no added name is added twice or was there before, and the transfer is the original files plus what was added |
| `TransferAppend.StepKeepsInv` | scripts/transfer-ops.ts:773-936 | every step and crash keeps each directory's checkpoint either unsaved, with no name taken but by another directory, or saved in full |
| `TransferAppend.FinalizedMeansAdded` | scripts/transfer-ops.ts:794-807 | when the already-finalized test fires, the checkpoint was saved if and only if no other directory added a file of one of its names |
| `AppendListings.ReturnedMeansAdded` | scripts/transfer-ops.ts:773-936 | the exact condition, on what the directories list: over all crashes and reruns of a set of commands, a call for a directory that returns has always added the directory's files, if and only if their names are not covered by listings of other directories that are free in the transfer and of one another |
| `AppendListings.OneNameOfItsOwnIsEnough` | scripts/transfer-ops.ts:773-936 | one name that no other directory lists makes every returned call mean that the files were added |
| `AppendListings.CoveredIsLost` | scripts/transfer-ops.ts:337-342 | every covered directory has a run in which its rerun reports zero files, removes its checkpoint and never adds its own |
| `AppendListings.AnotherDirectoryFinalizesTheFirst` | scripts/transfer-ops.ts:794-824 | in particular, any second directory that lists all of the first's names, none of them taken, can make the first's append be reported without its files |
| `AppendCli.Cli.AppendToTransfer` | scripts/transfer-ops.ts:746-947 | one attempt, with a crash wherever its fate puts it, is a run of the protocol; which answer it gives, on the ids, names and checkpoint it finds: no transfer, a mismatch, a conflict with exactly the taken names, only cleaning up when every recorded id and name is there, incomplete exactly when an entry is missing, or the merged list |
| `AppendCli.Cli.DuplicateNames` | scripts/transfer-ops.ts:829-833 | the loop finds exactly the entries whose name the transfer has |
| `TransferFiles.CompletedExtends` | scripts/transfer-ops.ts:679-694 | an attempt's record keeps every earlier result and adds only uploads of this attempt, under their own entries, for every entry that completed |
| `TransferFiles.MissingIsUnrecorded` | scripts/transfer-ops.ts:696-704 | an entry ends unrecorded if and only if no earlier attempt recorded it and this one does not upload it |
| `TransferFiles.KeysConcat` | scripts/transfer-ops.ts:923 | ids and names of a merged list are those of its parts, with multiplicity |
| `WordsMedia.FirstReturnIsUninterrupted` | scripts/words-media-ops.ts:335-574 | over any crashes and reruns of one command the first returned `uploaded` and `skipped` lists are those of one uninterrupted run if and only if no crash fell between removing the checkpoint and returning, or the plan only overwrites; everything planned is then stored |
| `WordsMedia.CrashAfterRemovalLosesTheList` | scripts/words-media-ops.ts:563-573 | the failing window is real: a run of one command whose rerun returns an empty list |
| `WordsMedia.StartingOverChangesTheOutcome` | scripts/words-media-ops.ts:346-380 | planning again after everything was uploaded gives the same outcome exactly when the first plan only overwrites |
| `WordsMedia.AfterIsStable` | scripts/words-media-ops.ts:346-380 | planning a second time after that finds nothing new to store |
| `WordsMedia.PlanMember` | scripts/words-media-ops.ts:346-370 | an entry is planned if and only if its file is listed and, without `force`, its name is not in the store; it says whether its name was there |
| `WordsMedia.ExpectedIsListing` | scripts/words-media-ops.ts:341-380 | an uninterrupted run: with `force` every listed file is uploaded and none skipped, otherwise exactly those are skipped whose names were in the store; each record is of its own file and `overwrote` holds exactly for names that were there; all images precede all other files, each in directory order, and so do the skipped names |
| `WordsMedia.StepKeepsInv` | scripts/words-media-ops.ts:293-573 | every step and crash keeps the frozen plan and what is recorded of it |
| `WordsMediaCli.Uploader.PlanUploads` | scripts/words-media-ops.ts:341-380 | the planning loop reports exactly the files whose name an earlier file takes, and without any plans exactly the files that are new or forced, images first and in directory order, and skips exactly the others |
| `WordsMediaCli.Uploader.UploadWordMediaFiles` | scripts/words-media-ops.ts:266-574 | one attempt, with a crash wherever its fate puts it, is a run of the protocol; it refuses exactly on a mismatch or collision, is incomplete exactly when an entry was not recorded, leaves exactly that record in its checkpoint, and returns what one uninterrupted run over the frozen plan's store would, listed as `ExpectedIsListing` states; a first attempt that returns has stored exactly what it lists |
| `WordsMediaCli.UploadingRecords` | scripts/words-media-ops.ts:438-541 | an attempt keeps every earlier record, adds only records of planned entries, and stores nothing but planned names |
| `WordsMediaCli.UploadingCompletes` | scripts/words-media-ops.ts:438-541 | an entry that is stored and then recorded is recorded at the end, and nothing is that was not recorded by someone |
| `WordsMediaCli.AnswersAreExpected` | scripts/words-media-ops.ts:546-573 | whatever part of a frozen plan was recorded before a crash, the lists returned are those of one uninterrupted run |
| `WordsMediaCli.Uploader.Finish` | scripts/words-media-ops.ts:546-574 | the length test detects exactly an unfinished plan; the lists come in plan order |
| `LegacyImport.ImportIsIdempotent` | ops/import-legacy-transfers.ts:152-329 | a second import after a successful one succeeds, reports the same counts and changes nothing |
| `LegacyImport.EntriesAreConserved` | ops/import-legacy-transfers.ts:186-329 | every entry is where its verdict puts it, one job row or one quarantine row, beside what was there before; no two entries share a job row; the counts sum to the number of entries |
| `LegacyImport.FirstImportAddsItsCounts` | ops/import-legacy-transfers.ts:322-341 | a first import adds exactly as many job and quarantine rows as it reports |
| `LegacyImport.FileGenerations` | ops/import-legacy-transfers.ts:295-321 | after a successful import a file's generation is the maximum of its prior value and its imported jobs if and only if it already was, or the file's own job won its joined key |
| `LegacyImport.GenerationsAreRight` | ops/import-legacy-transfers.ts:295-321 | with no colon in a transfer id every file's generation is that maximum |
| `LegacyImport.JoinedIsInjective` | ops/import-legacy-transfers.ts:306 | without colons in the first part the joined key tells files apart |
| `LegacyImport.SharedKeyLosesAGeneration` | ops/import-legacy-transfers.ts:306-321 | any bundle of two jobs for two new files under one joined key is imported and leaves the file of the smaller attempt at the generation it started with |
| `LegacyImport.ColonsLoseAGeneration` | ops/import-legacy-transfers.ts:306-321 | with a colon it does go wrong: a bundle that is imported into an empty database and stores generation 1 for a file with an imported job of generation 2 |
| `LegacyImport.ImportSettles` | ops/import-legacy-transfers.ts:152-277 | after a successful import every transfer and every entry has the row a second import will accept |
| `LegacyImport.GreatestIsMaximum` | ops/import-legacy-transfers.ts:308-312 | the specification of the greatest generation: an upper bound that is attained |
| `LegacyRows.ParseJobExactly` | ops/import-legacy-transfers.ts:96-122 | an entry is a job if and only if it, or the object under its `job`, has every field of its type and range and one of the eight routes; the job is what those fields say |
| `LegacyRows.JudgeMeans` | ops/import-legacy-transfers.ts:186-216 | an entry is accepted if and only if it parses, the bundle has its transfer and file, and the storage keys agree; otherwise which of the four reasons it gets |
| `LegacyRows.FirstImportRows` | ops/import-legacy-transfers.ts:186-277 | after a first import each accepted entry's row is completed if and only if its file is worker_done or local_done, pending if and only if the file is not done, failed or skipped and the entry not from the dead list, with attempts the deliveries plus one for the processing list and at least five allowed; each other entry has its quarantine row; nothing that was there is lost or changed |
| `LegacyRows.FirstImportGoesThrough` | ops/import-legacy-transfers.ts:152-330 | an import into an empty database is committed if and only if the hash is the bundle's, transfers and their files have different ids, every number fits its column, and no two jobs share an idempotency key or a file's generation |
| `LegacyRows.RowsAreOwn` | ops/import-legacy-transfers.ts:123-277 | after any successful import each transfer's row is of this bundle, with its payload and token, and each entry's row is its own, with its key, payload and origin: what stood in its place before makes the import fail |
| `LegacyRows.NewFilesStartAtOne` | ops/import-legacy-transfers.ts:152-184 | importing the transfers adds the files of those that were absent, at generation one, and changes no other file row |
| `LegacyImporter.Importer.RunImport` | ops/import-legacy-transfers.ts:292-330 | the command commits exactly what the specification says, with its counts, or reports its error and leaves the database as it was; a first import leaves the rows of `FirstImportRows`, and one into an empty database goes through exactly as `FirstImportGoesThrough` states |
| `LegacyImporter.Importer.ImportJob` | ops/import-legacy-transfers.ts:186-277 | each branch quarantines or inserts exactly the specified row, or fails as specified; an entry new to the tables gets the status, attempts and origin of `FirstImportRows` |
| `LegacyImporter.Importer.ImportTransfer` | ops/import-legacy-transfers.ts:152-184 | inserts the transfer and its file rows, accepts its own earlier row, or fails |
| `LegacyImporter.Importer.RecordGeneration` | ops/import-legacy-transfers.ts:301-312 | the pre-pass, coded on its own, accepts exactly the entries `importJob` accepts |
| `LegacyImporter.Importer.UpdateGenerations` | ops/import-legacy-transfers.ts:315-321 | the updates, in any order, raise exactly the rows their generations name |
| `FaceDetect.OverlapIsSymmetricAndBounded` | scripts/face-detect.ts:84-93 | for well-formed boxes overlap is symmetric and lies in [0,1) |
| `FaceDetect.ThresholdInAreas` | scripts/face-detect.ts:84-100 | two well-formed boxes pass the threshold exactly when three times their intersection is at most the sum of their areas and the guard term |
| `FaceDetect.IntersectionIsLargest` | scripts/face-detect.ts:84-91 | the intersection is the area of the largest box inside both, and zero if there is none |
| `FaceDetect.NonMaximumSuppression` | scripts/face-detect.ts:95-104 | the greedy loop computes the specified selection of the boxes in score order |
| `FaceDetect.SuppressionIsUnique` | scripts/face-detect.ts:98-102 | any choice in which a box is kept exactly when no earlier kept box overlaps it above the threshold is what the loop keeps |
| `FaceDetect.FlagsAreSuppression` | scripts/face-detect.ts:98-102 | such a choice exists |
| `FaceDetect.SuppressionCoversAndSeparates` | scripts/face-detect.ts:95-104 | kept boxes are pairwise within the threshold and in score order; every other box overlaps a kept box of no lower score above it |
| `FaceDetect.SuppressionIsIdempotent` | scripts/face-detect.ts:95-104 | suppressing the result again changes nothing, whatever the boxes |
| `FaceDetect.WeightedCentroid` | scripts/face-detect.ts:127-145 | the loop returns the clamped rounded quotients of the weighted sums; with no weight a quotient is a clamped infinity, or not a number |
| `FaceDetect.CentroidIsBetweenCentres` | scripts/face-detect.ts:132-143 | for faces of positive area each unrounded coordinate lies between any bounds on the face centres |
| `FaceDetect.ClampChangesNothing` | scripts/face-detect.ts:141-144 | with every centre inside the frame the clamp changes nothing |
| `FaceDetect.PercentIsNearest` | scripts/face-detect.ts:141-144 | a coordinate is the nearest whole percent of the quotient, 0 below the frame and 100 beyond it; without weight it is 0, 100 or not a number by the sign of the sum |
| `FaceDetect.OneFaceIsItsCentre` | scripts/face-detect.ts:132-139 | the centroid of one face is equally far from its opposite edges |
| `FaceDetect.MomentsAdd` | scripts/face-detect.ts:132-139 | two groups of faces weigh together what they weigh apart |
| `Permissions.TableIsReplayOfAudit` | features/attendee-access/account-permissions.server.ts:45-113 | after any grants, revocations and status changes the grant table is the replay of the audit log, the log of one person and permission alternates from granted, and no grant was logged while the person was restricted |
| `Permissions.PermissionIsLastWord` | features/attendee-access/account-permissions.server.ts:10-25 | a permission is in force if and only if the log's last word on it is granted and the person is not restricted by the log |
| `Permissions.ExecKeepsInv` | features/attendee-access/account-permissions.server.ts:71-113 | every command keeps table, log and status in agreement |
| `Permissions.AccountPermissions.SetAccountPermission` | features/attendee-access/account-permissions.server.ts:71-113 | 400 if and only if the trimmed reason is not 3 to 500 units long, else 404 for an unknown person, else 409 for granting to a restricted one, all changing nothing; otherwise the permission is held as asked, every other one unchanged, and one audit entry is added if and only if it changed |
| `Permissions.TrimIsExact` | features/attendee-access/account-permissions.server.ts:79 | trimming cuts white space from both ends and leaves none there |
| `Permissions.AccountPermissions.PersonHasAccountPermission` | features/attendee-access/account-permissions.server.ts:10-25 | true exactly for a granted permission of an active person |
| `Permissions.AccountPermissions.SetAcquisitionStatus` | features/attendee-operations/identity-manager.server.ts:27-155 | restricting or restoring sets the status and logs it, and throws or does nothing otherwise |
| `Permissions.CollapseIsExact` | features/attendee-operations/identity-manager.server.ts:19-20 | a run of white space becomes one space and anything else is kept where it stands |
| `Permissions.PermissionsOfParts` | features/attendee-access/account-permissions.server.ts:36-42 | a list of rows gives what its parts give, in order, and one row gives its permission to its person alone |
| `Permissions.AccountPermissions.AccountPermissionsForPeople` | features/attendee-access/account-permissions.server.ts:27-43 | the loop gives each person with a row the permissions of their rows in order |
| `StableSort.SortSorted` | scripts/face-detect.ts:96 | the sort used by suppression, ranking and curated hints orders any list whose comparator is consistent |
| `StableSort.SortKeepsSorted` | scripts/face-detect.ts:96 | a list already in order is returned as it is: the stability suppression's idempotence needs |

## Left out

- Floating point: penalties, scores, overlap and centroids are real numbers, and a division by zero is an explicit case.
- React and the browser: effect re-mounting when a dependency changes is a disposal and a fresh mount; a reconcile that finishes at once is a start and an end at the same instant.
- The Postgres transfer path (`scripts/transfer-ops.ts:429-581`) and the unseen services it calls.
- Directory entries named like a property every JavaScript object inherits, such as `constructor`, for which the truthiness test on `completed` differs from membership.
- Malformed checkpoint files, which throw and name the file to delete.
- The order in which concurrent uploads run is any order; the concurrency limits themselves are not modelled.
- The big-endian platform on which `Buffer.from(ranks.buffer)` would not be little-endian.
- The word filters for hints (substring, length, frequency, sense) are two arbitrary predicates, and approval hashes and reviews are not checked.
- The file names of rank packs are their numbers.
- Two service workers running preparations of one thing at the same time.
- Readiness and version rules of offline caches: complete means metadata present and every listed resource present.
- Reading a cached response back, the optional model cache and the fetch handler.
- `TransferCreate.SavesAreOneTransfer`: covers one command until its checkpoint is removed; after a removal the next run rightly creates another transfer.
- `OfflineWorker.Worker.PerformThingPreparation`: states a run without other steps in between; interleavings are the state machine's theorems, and whether a thing is ready is a parameter.
- `OfflineWorker.Worker.FetchAll`: stores one response after another in any order; fetches that go on after a failure are the state machine's late writes.
- `OfflineWorker.Worker.RemoveIncompleteThingCaches`: states a sweep without other steps in between; the split sweep is the state machine's.
- `OfflineCache.CompleteCacheSurvives`: the sufficient half on its own; `SurvivalIsExact` is the equivalence.
- `AssetCheck.VerifyTarget`: without the tests for an exposed substring, the approval hash, the top-word review and the reviewed comparisons of the same loop body.
- `RankGenerator.CheckerAcceptsGenerated`: speaks of the bounds, table, trail and hint-order tests only, for the same reason.
- `WordsMedia.FirstReturnIsUninterrupted`: says nothing of the third list, `existing`, which is what the returning attempt found in the store and so differs after a crash; its sizes and dates are not modelled.
- `FaceDetect.CentroidIsBetweenCentres`: says nothing of faces of zero or negative area, whose quotient may be anything.
- `LegacyRows.FirstImportGoesThrough`: speaks of an empty database; beside other rows a job may also clash with theirs.
- Merging image metadata into the words manifest and pruning variants, which do not change which names count as existing.
- The rest of a transfer's row and groups: a payload is compared whole.
- The clock columns of job rows, and rows of other operations beyond their keys.
- Deleting a person, which takes their grants with it.
- The other effects of restricting a person: pending invitations and admin grants.
- Filtering detections by confidence, reading tensors and the saliency strategy, which would only add easy members.
- The simpler imports under `ops/`, command-line parsing and all user interface code.
