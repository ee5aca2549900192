# Localref: verified models of its protocols

Localref keeps a library of documents as plain directories. Each item's `metadata.toml` is the source of truth for the
categories it is in; the junctions under `Cat/` are a projection of that, `cat-manifest.toml` remembers what was
projected, and tombstones remember what was removed. Around this core a daemon runs tasks from several threads, buffers
what a browser connector sends, starts plugin processes, and supervises its own workers. This project models the parts
where state changes in several places at once and proves what they promise.

## How it is laid out

| file | what it models |
|---|---|
| `CategoryEdits`, `CategoryPaths`, `CatManifest` | the in-place edit of an item's categories, category trees as path strings, the manifest object |
| `ManifestRace` | commands that load, edit and save the manifest file at the same time |
| `Membership` | one item as four sets (metadata M, junctions D, manifest F, tombstones T); the decision table of a scan; filing, removing, importing, renaming |
| `CategoryTree`, `TreeMoves` | the directories below `Cat/`, renaming and merging them entry by entry, and what that means for an item |
| `MembershipRuns` | runs of scans, commands, failures and hand edits, with the query index the commands go by |
| `ReconcileSteps`, `Library` | the loops of a scan, and the class that performs scan and commands on the files, step by step |
| `MetadataLock` | writers of `metadata.toml` under lock files and revisions, in any interleaving |
| `TaskQueue` | the daemon's task queue shared by threads |
| `ConnectorSink` | buffered save sessions and the attachments in them |
| `LogRotation`, `CivilDate` | the rotating log writer and the timestamp of a log entry |
| `PluginArgv`, `PluginRegistry`, `CronScheduler` | command lines and their parser, the table of live runs, the cron loop |
| `CrashWindow`, `ExceptionService` | the crash-loop limiters of the desktop and the daemon, and the exception service |
| `JunctionBuffer` | the byte layout of a mount-point reparse buffer |

Code that updates state is a class or a method with the source's loops; its `ensures` clauses equate the new state with a
specification function, and the lemmas are about that function. Input and output that can fail is a non-deterministic
choice at each file operation, so every statement about a failing command covers a stop at any point. That includes the
failures that a command passes over (a scan that cannot read an item's tombstones goes on without them) and those that
come too late (a manifest file that is cut off by a failing write, a metadata file that is replaced although flushing its
directory fails); the exceptions are under "Left out". Clock readings are parameters. The order in which the index or a
directory is listed is arbitrary.

## What the proofs found

* One scan brings junctions, metadata and manifest together exactly when the names of category directories are the
  categories they were made for (`Membership.Converges`, with `TidyNames` as the condition). `place` stands for the path
  cleaning and file-name sanitizing in between. A category `A:B` gets the directory `A_B`; it is missing again on every
  scan, and `A_B` is adopted as a second category (`Membership.UnfaithfulNeverSettles`).
* The category-by-category rename equals the simultaneous substitution exactly when no step writes a name that the same or
  a later step drops (`Membership.RemapIsSubstitution`). Renaming a category to its own name therefore removes it from
  every item (`RenameToItselfUnfiles`). A merge can only succeed when the two directories share no entry name
  (`CategoryTrees.MergeDirectory`), and then it loses a category only for an item that lists one without having its
  junction (`TreeMoves.MergeKeepsListed`, `MergeIntoParentLoses`). A merge that stops leaves moved junctions, which the
  next scan adopts as a second category (`FailedMergeAdopts`).
* A removal through the daemon is final against junctions and scans, with three exceptions. Filing the item into a real
  category erases the tombstone of `unmatched` (`MembershipRuns.UnmatchedComesBack`). A removal that stops after its edit
  leaves the query index behind; a rename, which goes by that index, then files the item under the new name and erases
  the tombstone (`StaleIndexUndoesRemoval`). And a scan that cannot read an item's metadata again goes on without its
  tombstones: it adopts a junction that the manifest does not know, erases the tombstone, and succeeds
  (`UnreadTombstoneUndoesRemoval`; `Membership.UnreadDifference` says what such a scan does differently).
  `CompleteStepDecides` gives the exact condition for every event.
* Commands that save the manifest file at the same time take back each other's records. The file is always what the
  surviving saves give one after another (`ManifestRaces.FileIsSurvivors`), and a record is wrong exactly when the last
  save that concerns it was overwritten and the last surviving one decides otherwise (`WrongRecords`). The next scan of an
  item whose junctions are its metadata restores it (`ScanRestoresRecords`); until then a hand edit may be undone
  (`RecordDecides`).
* Edits that lock by item id and patches that lock by directory do not exclude each other; both can answer Ok and one is
  lost (`MetadataLocks.RaceLosesEdit`). Sharing a lock name is necessary and sufficient (`SafeIffSameLock`).
* A metadata write answers with a failure although it replaced the file when only flushing the directory failed, which is
  not tried on Windows (`MetadataLocks.PatchAnswers`); repeating the patch then ends in a conflict
  (`UnflushedPatchConflicts`).
* `running` in the daemon's status is cleared by the first of two overlapping tasks to finish
  (`TaskQueues.FlagAfterStep`, `IdleWhileRunning`).
* A lock file that outlives its owner blocks its key for good (`MetadataLocks.LeftoverLocks`), and so does a staged file
  for every writer of its directory (`LeftoverStaging`).
* A log rotation that cannot write out its buffer drops the rest of it with the file handle, although those records were
  reported as written. What is readable is then no suffix of the log until everything older has been rotated away
  (`LogRotation.HoleAfterFailedClose`, `SuffixIffNothingBeforeLoss`).
* The desktop's crash queue holds the recent crashes only while the wall clock does not step back
  (`CrashWindows.ClockStepsBack`).
* A plugin argument vector reads back unchanged exactly when the endpoint is not empty, ids are non-empty and without
  commas, and no parameter name contains `=` (`PluginArgv.ActionRoundTrip`); for arguments built from a form the ids take
  care of themselves (`FormRoundTrip`).
* A cron reload after the clock stepped back fires a job twice for one instant (`CronSchedulers.ClockStepFiresTwice`).
* A cron schedule that runs dry while it is loaded is parked ten years ahead and would then fire at an instant it does not
  contain (`CronSchedulers.FiresForFirstUnseen`).
* Comments on the category edits say that a tombstone keeps automatic classification from filing an item again
  (`crates/core/src/lib.rs:1181`). Scans honour tombstones; the import code, which applies the rules, does not read them,
  and the model follows the code.

## Model

| member | source | states |
|---|---|---|
| `CategoryEdits.ArrayRemove` | crates/core/src/model/mod.rs:576-580 | removing drops every occurrence of a value and nothing else |
| `CategoryEdits.EditMeaning` | crates/core/src/model/mod.rs:427-470 | for all add/remove/drop lists, overlapping ones included: which categories are listed and which are tombstoned afterwards, both directions |
| `CategoryEdits.EditOrder` | crates/core/src/model/mod.rs:427-470 | the edited arrays entry by entry: what stays keeps its order and repetitions, what is new and stays follows in the order given, without repetitions |
| `CategoryPaths.RemapShape` | crates/core/src/lib.rs:1564-1574 | the new path exists exactly for categories of the tree, keeps the tail, and lies below the new name |
| `CategoryPaths.RemapInjective` | crates/core/src/lib.rs:1564-1574 | two categories of a tree never get the same new path |
| `CategoryPaths.MoveBack` | crates/core/src/lib.rs:1564-1574 | moving a path and moving it back gives the same path |
| `CategoryPaths.UnderIsComponentPrefix` | crates/core/src/types/mod.rs:89-92 | the string test `from` or `from/…` is exactly the prefix relation on path components |
| `CategoryPaths.RenameBack` | crates/core/src/lib.rs:1559-1593 | renaming and renaming back is the identity on every set of categories with nothing below the new name |
| `CatManifests.PrunedIsCanonical` | crates/core/src/manifest.rs:96-122 | two pruned manifests that record the same pairs are equal |
| `CatManifests.CatManifest.Insert` | crates/core/src/manifest.rs:85-91 | exactly the pair is added; no empty set appears |
| `CatManifests.CatManifest.Remove` | crates/core/src/manifest.rs:96-103 | exactly the pair is removed, and an emptied item with it |
| `CatManifests.CatManifest.RemoveItem` | crates/core/src/manifest.rs:106-108 | exactly the records of one item go |
| `CatManifests.CatManifest.Contains` | crates/core/src/manifest.rs:112-116 | found exactly when the pair is recorded |
| `CatManifests.CatManifest.InsertThenRemove` | crates/core/src/manifest.rs:85-103 | a new record that is removed again leaves the manifest exactly as it was |
| `ManifestRaces.FileIsSurvivors` | crates/core/src/lib.rs:1282-1284 | no lock covers the manifest file: under every interleaving of loads, edits and saves, and wherever a save is cut off, the file is what the surviving saves give one after another |
| `ManifestRaces.ContentStep` | crates/core/src/lib.rs:1282-1284 | a save has the content of the version it was loaded from, whatever was saved since, but for the records its own changes decide about |
| `ManifestRaces.WrongRecords` | crates/core/src/lib.rs:1282-1284 | a record is as the last surviving save that concerns it left it; that is what all saves in order give if and only if the last of all survives or both decide alike |
| `ManifestRaces.TurnsLoseNothing` | crates/core/src/lib.rs:1282-1284 | commands that take turns lose nothing |
| `ManifestRaces.RaceForgets` | crates/core/src/lib.rs:1282-1284 | two commands that both loaded before either saved lose the record of the first |
| `ManifestRaces.AppliedFor` | crates/core/src/manifest.rs:85-108 | the changes are those of the manifest object, record by record |
| `ManifestRaces.ScanRestoresRecords` | crates/core/src/manifest.rs:16-18 | the manifest can be rebuilt: whatever it holds, a scan of an item with D = M changes nothing but its records, reports nothing, and leaves it consistent |
| `ManifestRaces.RecordDecides` | crates/core/src/lib.rs:2070-2106 | what a wrong record can cost before that scan: a category dropped by hand comes back exactly if its record was lost, and a hand-made junction is taken away exactly if a record or a tombstone was left |
| `Membership.DecisionTable` | crates/core/src/lib.rs:1967-2111 | one scan of an item, as sets: M grows by the junctions in neither F nor T, F loses the extra junctions and gains all of M, T stays; with tidy names D becomes M |
| `Membership.Converges` | crates/core/src/lib.rs:1987-2111 | from any starting state, stale manifest entries included: after one scan the junctions are the metadata and a second scan changes nothing, if and only if the directory names are tidy |
| `Membership.SecondScanReportsNothing` | crates/core/src/lib.rs:2109-2110 | the reported count is 0 exactly when the junctions are the metadata, and a second scan reports 0 exactly for tidy names |
| `Membership.SettledNames` | crates/core/src/lib.rs:1987-2111 | a state that one scan settles had tidy names |
| `Membership.FaithfulIsTidy` | crates/core/src/lib.rs:1996-2076 | directories named as their categories are tidy |
| `Membership.ConsistentSettles` | crates/core/src/lib.rs:1987-2111 | a scan of a consistent item changes nothing |
| `Membership.UnfaithfulNeverSettles` | crates/core/src/platformfs/mod.rs:204-226 | a listed category whose directory gets another name is missing after every scan |
| `Membership.UnreadDifference` | crates/core/src/lib.rs:2000-2013 | a scan without the tombstones adopts exactly the tombstoned junctions that the manifest does not know, and erases their tombstones; it is like any other scan if and only if there are none |
| `Membership.ImportCategories` | crates/core/src/lib.rs:2267-2278 | exactly the matched categories, or `unmatched` when none matched |
| `Membership.RemapAllMembers` | crates/core/src/lib.rs:1576-1591 | after the category-by-category edits: which categories are in metadata and in the manifest, both directions, for any order |
| `Membership.SubstituteMembers` | crates/core/src/lib.rs:1576-1591 | what the simultaneous substitution of a tree contains |
| `Membership.RemapIsSubstitution` | crates/core/src/lib.rs:1559-1593 | the sequential edits equal the simultaneous substitution in metadata if and only if no step captures another; then also in the matching manifest entries |
| `Membership.CapturedIsLost` | crates/core/src/lib.rs:1576-1591 | a captured name is lost although the substitution keeps it |
| `Membership.UncapturedIsKept` | crates/core/src/lib.rs:1576-1591 | without capture every name is where the substitution puts it, in metadata and manifest |
| `Membership.SeparateTreesNeverCapture` | crates/core/src/lib.rs:1559-1593 | names of which neither lies below the other never capture, in any listing order |
| `Membership.RenameThereAndBack` | crates/core/src/lib.rs:1523-1593 | two renames category by category, there and back, restore the metadata in any listing orders |
| `Membership.RenameToItselfUnfiles` | crates/core/src/lib.rs:1523-1593 | renaming a tree to its own name drops it from the metadata without tombstones |
| `CategoryTrees.BelowChild` | crates/core/src/platformfs/mod.rs:381-392 | what lies below an entry of a directory, in terms of path strings, both directions |
| `CategoryTrees.EntriesMeanwhile` | crates/core/src/platformfs/mod.rs:381-392 | while entries move, the target gains nothing but them and the source loses nothing but them |
| `CategoryTrees.MergeDecided` | crates/core/src/platformfs/mod.rs:381-395 | the entries left in the source are exactly those the target has too; none is left if and only if the merge can succeed |
| `CategoryTrees.MergeDirectory` | crates/core/src/platformfs/mod.rs:369-396 | the loop over the entries: without a fault of the file system it succeeds exactly when no entry name is shared and the target is not below the source; then every junction is where the substitution puts it, otherwise some entries have moved |
| `CategoryTrees.RenameDirectory` | crates/core/src/platformfs/mod.rs:349-363 | without a fault a rename succeeds exactly when the source exists and the target is the source or empty and not below it |
| `TreeMoves.MergeNeverCaptures` | crates/core/src/platformfs/mod.rs:386-389 | in a merge that can succeed no category with a junction is moved onto a name of the source tree |
| `TreeMoves.MergeKeepsListed` | crates/core/src/lib.rs:1611-1614 | a successful merge loses a category only for an item with a listed category that has no junction, however the names are related |
| `TreeMoves.RenameKeepsListed` | crates/core/src/lib.rs:1535-1538 | a rename that can succeed is the substitution, or drops the tree when it renames it to itself |
| `TreeMoves.MergeIntoParentLoses` | crates/core/src/lib.rs:1611-1614 | an item without its junctions and directories, for which a merge into the parent can succeed and loses a category |
| `TreeMoves.FailedMergeAdopts` | crates/core/src/lib.rs:2088-2106 | after a merge that stopped, the next scan adopts the moved junctions: the item is in the old and the new category |
| `MembershipRuns.StepKeepsSuppression` | crates/core/src/lib.rs:1398-1428 | no event that leaves a removed category alone lists it, complete or stopped anywhere; a rename goes by the query index, a scan that cannot read the tombstones by junctions and manifest |
| `MembershipRuns.CompleteStepDecides` | crates/core/src/lib.rs:1577-1590 | for an event with a fixed outcome, a scan with or without tombstones included: the removal survives if and only if the event leaves the category alone |
| `MembershipRuns.StoppedStepMayLose` | crates/core/src/lib.rs:1577-1590 | for one that stops and does not, some outcome loses the removal |
| `MembershipRuns.RemovalIsFinal` | crates/core/src/lib.rs:1398-1428 | safety over whole runs of scans, commands, failures, hand edits and changes to the manifest: a removed category stays removed as long as every event leaves it alone; exact for runs of complete events |
| `MembershipRuns.StaleIndexUndoesRemoval` | crates/core/src/lib.rs:1577-1585 | a run in which a removal that stopped after its edit is undone by a rename that goes by the old index |
| `MembershipRuns.UnreadTombstoneUndoesRemoval` | crates/core/src/lib.rs:2000-2013 | a run in which a completed scan that could not read the tombstones lists a removed category again and erases its tombstone |
| `MembershipRuns.UnfileSuppresses` | crates/core/src/lib.rs:1398-1428 | a removal establishes that state, also when it fails after its edit |
| `MembershipRuns.UnmatchedComesBack` | crates/core/src/lib.rs:1318-1337 | the exception: filing elsewhere erases the tombstone of `unmatched` |
| `MembershipRuns.DeletedJunctionsComeBack` | crates/core/src/lib.rs:1996-2052 | however hand deletions, changes to the manifest and scans alternate, metadata and tombstones never change and each scan restores exactly the metadata membership |
| `MembershipRuns.CommandKeepsConsistent` | crates/core/src/lib.rs:1295-1428 | a successful command keeps D = M and M within F when its directory names are faithful |
| `MembershipRuns.CommandsStayConsistent` | crates/core/src/lib.rs:1224-1517 | every run of them keeps that and an index that is up to date, with no scan in between |
| `MembershipRuns.FilingNeedsFaithfulName` | crates/core/src/lib.rs:1295-1337 | filing into a new category keeps D = M if and only if its directory has its name; `unmatched` leaves M, D and F without a tombstone |
| `MembershipRuns.UnfilingNeedsFaithfulName` | crates/core/src/lib.rs:1398-1428 | removing a listed category keeps D = M if and only if its directory has its name |
| `MembershipRuns.RemapKeepsSuppression` | crates/core/src/lib.rs:1577-1590 | the edits of a rename keep a removed category removed if and only if no indexed category of the tree is it or moves to it |
| `MembershipRuns.FiledFacts` | crates/core/src/lib.rs:1343-1368 | filing twice is filing once; a batch that stops has filed the earlier items |
| `MembershipRuns.UnfiledFacts` | crates/core/src/lib.rs:1434-1460 | removing twice is removing once; a batch that stops has removed the earlier items |
| `Libraries.Library.ScanCatMemberships` | crates/core/src/storage/mod.rs:379-416 | each (item, category) pair with a junction that resolves to an indexed item is listed exactly once |
| `Libraries.Library.EditItemCategories` | crates/core/src/lib.rs:1186-1210 | the metadata file is edited as a whole or not at all; a failure may come after the edit |
| `Libraries.Library.SaveManifest` | crates/core/src/manifest.rs:66-82 | the manifest file is what was saved; a failure leaves it as it was or cut off, with some of the lines |
| `Libraries.Library.LoadManifest` | crates/core/src/manifest.rs:43-57 | the manifest in memory is the file, or the command fails |
| `Libraries.Library.RebuildIndex` | crates/core/src/storage/mod.rs:102-122 | the index shows every metadata file, or is unchanged |
| `Libraries.Library.CreateCategoryLink` | crates/core/src/platformfs/mod.rs:204-226 | one junction appears under the name of its directory, or none |
| `Libraries.Library.RemoveCategoryLink` | crates/core/src/platformfs/mod.rs:328-345 | one junction goes, or none |
| `Libraries.Library.ReadScan` | crates/core/src/lib.rs:1993-2013 | what a scan reads before it changes anything: the junctions of every indexed item, and the tombstones of those whose metadata can be read again |
| `Libraries.Library.ProjectOne` | crates/core/src/lib.rs:2027-2051 | one listed category: in sync, or its junction is made anew |
| `Libraries.Library.SettleOne` | crates/core/src/lib.rs:2070-2106 | one extra junction: removed or adopted, by the tombstones as far as they were read |
| `Libraries.Library.ProjectItem` | crates/core/src/lib.rs:2023-2052 | first loop: the listed categories get junctions and records, while the manifest is read and written |
| `Libraries.Library.SettleItem` | crates/core/src/lib.rs:2054-2107 | second loop: an extra junction is removed when recorded or tombstoned, as far as tombstones were read, and adopted otherwise, against the manifest as the first loop left it |
| `Libraries.Library.ReconcileItem` | crates/core/src/lib.rs:2011-2107 | both loops together refine the decision table for one item, with or without its tombstones, and count exactly the missing and extra junctions |
| `Libraries.Library.ReconcileItems` | crates/core/src/lib.rs:2011-2107 | the loop over all items in any order, each with its tombstones or without; a stop anywhere leaves each item within what an interrupted scan may show |
| `Libraries.Library.ReconcileCategories` | crates/core/src/lib.rs:1987-2111 | every indexed item ends as its decision table says, taken without tombstones where they could not be read; all others are untouched, and the count is the number of missing plus extra junctions; on failure the manifest file is unchanged, or only writing it failed |
| `Libraries.Library.IndexAndReconcile` | crates/core/src/lib.rs:1955-1956 | re-index and reconcile every item directory, by the tombstones that could be read |
| `Libraries.Library.Scan` | crates/core/src/lib.rs:1955-1963 | for every item a complete or a stopped scan of the run model, with or without its tombstones, and on success its four sets in terms of the old ones; when it stops either the manifest is as it was or only the manifest file or the index is behind |
| `Libraries.Library.ClearUnmatched` | crates/core/src/lib.rs:1317-1335 | the `unmatched` membership goes from metadata, junctions and manifest, without a tombstone |
| `Libraries.Library.FileItem` | crates/core/src/lib.rs:1295-1337 | one item filed: metadata, junction, manifest, and `unmatched` cleared; or a partial filing |
| `Libraries.Library.UnfileItem` | crates/core/src/lib.rs:1398-1428 | one item removed from a category, with a tombstone; or a partial removal |
| `Libraries.Library.FileAndSave` | crates/core/src/lib.rs:1343-1360 | all given items are filed and no other is touched; the manifest is written once at the end, and on failure it is as before unless that write itself was cut off |
| `Libraries.Library.AddItemsCategory` | crates/core/src/lib.rs:1343-1368 | for each given item a complete or stopped filing of the run model, and on success what exactly is added to and taken from its four sets; other items can only lose their line of the manifest, when writing it fails |
| `Libraries.Library.UnfileAndSave` | crates/core/src/lib.rs:1434-1452 | all given items are removed and no other is touched; the manifest is written once at the end, and on failure it is as before unless that write itself was cut off |
| `Libraries.Library.RemoveItemsCategory` | crates/core/src/lib.rs:1434-1460 | for each given item a complete or stopped removal of the run model, and on success what exactly is added to and taken from its four sets; other items can only lose their line of the manifest, when writing it fails |
| `Libraries.Library.MoveLinks` | crates/core/src/platformfs/mod.rs:349-396 | junctions of all items move by one rename or by a merge, exactly when the directories allow it |
| `Libraries.Library.MoveDirectory` | crates/core/src/platformfs/mod.rs:349-396 | the same in what the library shows; a failure leaves the junctions of the moved entries under the new name |
| `Libraries.Library.RemapItem` | crates/core/src/lib.rs:1576-1591 | the loop over one item is the category-by-category rewriting |
| `Libraries.Library.RemapItems` | crates/core/src/lib.rs:1559-1593 | the loop over all items, or the first part of it |
| `Libraries.Library.MoveAndSave` | crates/core/src/lib.rs:1535-1538 | directories, metadata and manifest; on failure the manifest file is as before unless writing it was cut off |
| `Libraries.Library.MoveKeepsListed` | crates/core/src/lib.rs:1523-1626 | an item with its junctions in place and an up-to-date index loses nothing |
| `Libraries.Library.MoveCategory` | crates/core/src/lib.rs:1523-1626 | rename and merge: for every item a complete or stopped move of the run model by its indexed list; a success needs directories that allow it, and keeps every category of an item whose junctions are in place |
| `Libraries.Library.RemoveItemFiles` | crates/core/src/lib.rs:1480-1502 | junctions of the indexed categories and the directory of one item go |
| `Libraries.Library.ForgetItem` | crates/core/src/lib.rs:1504-1506 | the manifest loses the records of one item and no others; a failing write may cut off others |
| `Libraries.Library.DeleteItem` | crates/core/src/lib.rs:1465-1517 | a complete or stopped deletion of the run model; on success nothing of the item is left; no other item changes, except that its line of the manifest can be lost when writing it fails |
| `Libraries.Library.RecordProjectedCategories` | crates/core/src/lib.rs:1224-1236 | the manifest gains exactly the projected categories; a failing write may cut it off |
| `Libraries.Library.WriteNewItem` | crates/core/src/lib.rs:2280-2323 | metadata first, then the junctions |
| `Libraries.Library.ImportItem` | crates/core/src/lib.rs:2229-2336 | a complete or stopped import of the run model; on success the metadata lists exactly the matched categories, `unmatched` when a connector import matched none, and nothing for a manual import, with their junctions and records in step; other items are untouched, except that a failing write of the manifest can lose their line |
| `ReconcileSteps.SettledAll` | crates/core/src/lib.rs:2023-2107 | the two loops together are the decision table |
| `ReconcileSteps.StoppedAdopting` | crates/core/src/lib.rs:2076-2106 | a scan that stops between adopting a category in the metadata and recording it leaves no more than an interrupted scan may show |
| `ReconcileSteps.TotalInsert` | crates/core/src/lib.rs:2011-2110 | the count of a scan adds up over items |
| `MetadataLocks.LockNameIsPlain` | crates/core/src/lock.rs:42-53 | before `.lock` there are only letters, digits, `-` and `_`; such a character of the key stands for itself and any other becomes `_`; the empty key gives `lock` |
| `MetadataLocks.SharedLock` | crates/core/src/lock.rs:42-53 | two keys share a lock file exactly when they differ only where both have a character that is no letter, no digit and no `-`; the empty key shares one with `lock` |
| `MetadataLocks.LockFile` | crates/core/src/lock.rs:42-53 | the loop that builds the name |
| `MetadataLocks.MutualExclusion` | crates/core/src/lock.rs:35-83 | in every run, two threads between acquiring and dropping have different lock names |
| `MetadataLocks.LeftoverLocks` | crates/core/src/lock.rs:54-83 | a lock file without an owner is never removed in any run |
| `MetadataLocks.LeftoverStaging` | crates/core/src/platformfs/mod.rs:118-132 | a staged file without an owner stays for good, and no writer replaces that metadata again |
| `MetadataLocks.PatchAnswers` | crates/core/src/lib.rs:2364-2401 | a patch replaces the file at most once, with its candidate after reading the expected revision; it answers Ok if and only if it did so and the directory was flushed, and with a failure if it did so and the flush failed |
| `MetadataLocks.UnflushedPatchConflicts` | crates/core/src/platformfs/mod.rs:131-147 | a run in which a patch whose flush fails answers with a failure and its retry with a conflict, although the text is in place |
| `MetadataLocks.ConflictLeavesMetadata` | crates/core/src/lib.rs:2377-2394 | on a mismatch `metadata.toml` is unchanged and the candidate goes to the copy beside it, even when the answer is a failure because that copy could not be flushed |
| `MetadataLocks.UnchangedEdit` | crates/core/src/lib.rs:1205-1208 | an edit that leaves the text as it is writes nothing and answers Ok |
| `MetadataLocks.NoLostUpdate` | crates/core/src/lib.rs:2364-2401 | when the writers of a directory share a lock name: each write replaced the text its writer had read, a patch replaced a text of the expected revision, and the file is what the logged plans give one after another, for every interleaving and failure |
| `MetadataLocks.RaceLosesEdit` | crates/core/src/lib.rs:1199-1209 | for every edit and patch under different lock names: a run in which both succeed and the edit is lost |
| `MetadataLocks.SafeIffSameLock` | crates/core/src/lib.rs:2370-2373 | an edit and a patch are safe together if and only if their keys share a lock name |
| `MetadataLocks.ItemIdKeyDiffers` | crates/core/src/lib.rs:3189-3193 | a directory key and a generated item id never share one |
| `MetadataLocks.MetadataStore.Acquire` | crates/core/src/lock.rs:35-76 | exactly one lock file is created, or left behind by a failed write, or a conflict is answered; nothing else changes |
| `MetadataLocks.MetadataStore.Release` | crates/core/src/lock.rs:79-83 | its own lock file goes or stays, nothing else changes |
| `MetadataLocks.MetadataStore.ReadText` | crates/core/src/lib.rs:2375-2376 | the text read is the metadata as it is, and nothing changes |
| `MetadataLocks.MetadataStore.Rename` | crates/core/src/platformfs/mod.rs:131-147 | Ok, or a failure after the replacement, with the staged text in place and logged; or a failure with the files as they were |
| `MetadataLocks.MetadataStore.Compare` | crates/core/src/lib.rs:2377-2395 | stage the candidate exactly when the revision matches |
| `MetadataLocks.MetadataStore.WriteMetadataIfRevision` | crates/core/src/lib.rs:2364-2401 | the whole command with arbitrary steps of other threads in between: its answer is Ok exactly when it patched and flushed, a failure when only the flush failed, and nothing was lost if all writers used the directory key |
| `TaskQueues.TaskQueueState.Enqueue` | crates/core/src/lib.rs:2114-2128 | a new record with the next id, queued and in the history behind all others |
| `TaskQueues.TaskQueueState.MarkRunning` | crates/core/src/lib.rs:2167-2176 | exactly the first record of the id is running, and so is the daemon |
| `TaskQueues.TaskQueueState.Find` | crates/core/src/lib.rs:2171-2174 | the first record with an id |
| `TaskQueues.TaskQueueState.Retain` | crates/core/src/lib.rs:2183-2183 | exactly the queued records of one id go, in place |
| `TaskQueues.TaskQueueState.Finish` | crates/core/src/lib.rs:2179-2191 | the id leaves the queue, its first record in the history is replaced, or the record is added when there is none |
| `TaskQueues.StepKeepsInv` | crates/core/src/lib.rs:2114-2191 | each step of a thread keeps the link between threads, queue and history |
| `TaskQueues.EveryRun` | crates/core/src/lib.rs:2114-2191 | under every interleaving: ids 1, 2, … in order, the queue lists exactly the unfinished ids in order and has one entry per thread at work, `running` means a task is running, nothing in flight means an empty idle queue |
| `TaskQueues.StatesMoveForward` | crates/core/src/lib.rs:2167-2191 | no record is lost or renamed, no state goes back, a finished record never changes |
| `TaskQueues.StepRecords` | crates/core/src/lib.rs:2167-2191 | what each step does to the history: a queued record is added, or the record of the thread is running, or it has the outcome and message of its task; no other record changes |
| `TaskQueues.FlagAfterStep` | crates/core/src/lib.rs:2167-2191 | `running` stays truthful exactly until a task finishes beside a running one |
| `TaskQueues.IdleWhileRunning` | crates/core/src/lib.rs:2179-2182 | a run in which the daemon reports idle while a task runs |
| `TaskQueues.QueueCountsThreads` | crates/core/src/lib.rs:2114-2191 | the queue holds one record for each thread at work |
| `TaskQueues.UnfinishedUpdate` | crates/core/src/lib.rs:2179-2191 | a record changes the list of unfinished ids only by reaching a final state |
| `ConnectorSinks.WindowKeeps` | crates/csc/src/daemon_sink.rs:248-266 | the pruned table position by position: it keeps a session exactly if it is pending or fewer than the limit of completed ones come after it, in order |
| `ConnectorSinks.WindowKeepsWaiting` | crates/csc/src/daemon_sink.rs:248-266 | pruning never drops a waiting attachment |
| `ConnectorSinks.ExactlyOnePlace` | crates/csc/src/daemon_sink.rs:117-214 | an attachment taken in once waits in a session or was delivered to exactly one item, never both |
| `ConnectorSinks.WaitingChanges` | crates/csc/src/daemon_sink.rs:52-84 | what importing a session, renewing its items or adding an attachment does to the waiting attachments |
| `ConnectorSinks.DeliverAll` | crates/csc/src/daemon_sink.rs:62-80 | an import delivers each buffered attachment once more |
| `ConnectorSinks.Route` | crates/csc/src/daemon_sink.rs:129-143 | the first session with the id, else the youngest if the upload may fall back to it, else none |
| `ConnectorSinks.FirstWithId` | crates/csc/src/daemon_sink.rs:129-131 | the first session with the id, if there is one |
| `ConnectorSinks.FirstPendingIs` | crates/csc/src/daemon_sink.rs:99-111 | what the table is when metadata arrives: the first pending session of the id renewed, or a new one behind |
| `ConnectorSinks.DaemonSink.FindPending` | crates/csc/src/daemon_sink.rs:99-102 | the first session with the id that was not imported yet, if there is one |
| `ConnectorSinks.DaemonSink.ImportSession` | crates/csc/src/daemon_sink.rs:59-81 | one session is imported with everything it buffered, or is left as it was |
| `ConnectorSinks.DaemonSink.PruneAll` | crates/csc/src/daemon_sink.rs:212-212 | pruning keeps conservation and the bound |
| `ConnectorSinks.DaemonSink.TryImport` | crates/csc/src/daemon_sink.rs:52-84 | each session stays or is imported in place into a new directory and nothing else is imported; on success no pending session has items; nothing is lost on failure |
| `ConnectorSinks.DaemonSink.PruneCompleted` | crates/csc/src/daemon_sink.rs:248-266 | the loop with its decreasing counter computes the window of 16 completed sessions |
| `ConnectorSinks.DaemonSink.AcceptImport` | crates/csc/src/daemon_sink.rs:88-115 | the table is the window of the renewed table with sessions imported in place; conservation; the save went with its buffer into one new directory |
| `ConnectorSinks.DaemonSink.AcceptAttachment` | crates/csc/src/daemon_sink.rs:117-214 | for each of the four routes exactly where the attachment went, what the table is afterwards and what was imported; conservation |
| `ConnectorSinks.DaemonSink.TakeStandalone` | crates/csc/src/daemon_sink.rs:145-185 | one new item with exactly this attachment |
| `ConnectorSinks.DaemonSink.TakeOrphan` | crates/csc/src/daemon_sink.rs:186-192 | a session of its own at the end of the table |
| `ConnectorSinks.DaemonSink.TakeLate` | crates/csc/src/daemon_sink.rs:195-207 | into the item of its session |
| `ConnectorSinks.DaemonSink.TakeBuffered` | crates/csc/src/daemon_sink.rs:209-209 | into its pending session |
| `LogRotation.ShiftKeepsChain` | crates/core/src/logging.rs:130-138 | moving a file into the free place behind it does not change what can be read |
| `LogRotation.DropOldest` | crates/core/src/logging.rs:126-129 | removing the oldest file leaves a suffix |
| `LogRotation.SuffixIffNothingBeforeLoss` | crates/core/src/logging.rs:77-104 | what is readable or buffered is a suffix of all accepted bytes if and only if nothing is left from before a lost byte |
| `LogRotation.HoleAfterFailedClose` | crates/core/src/logging.rs:78-80 | a close that writes only part of the buffer leaves a hole whatever is written later, unless the whole buffer was written or nothing from before is left |
| `LogRotation.ChainBegins` | crates/core/src/logging.rs:119-140 | all that can be read begins at a record |
| `LogRotation.LabelledInOrder` | crates/core/src/logging.rs:50-70 | the files found at the start are one stream of bytes |
| `LogRotation.LogWriter.ReadableIsSuffix` | crates/core/src/logging.rs:77-104 | that exact condition and the record boundary for the writer at any moment |
| `LogRotation.LogWriter.RemoveOldest` | crates/core/src/logging.rs:126-129 | the oldest file goes or stays; a suffix remains |
| `LogRotation.LogWriter.RenameUp` | crates/core/src/logging.rs:130-138 | a rename is only requested when its target does not exist |
| `LogRotation.LogWriter.RotateFiles` | crates/core/src/logging.rs:119-140 | each file moves up by one and the oldest goes; a stop anywhere leaves a suffix of what could be read |
| `LogRotation.LogWriter.FlushBuffer` | crates/core/src/logging.rs:106-111 | a flush that fails keeps the rest of the buffer; nothing is lost |
| `LogRotation.LogWriter.Flush` | crates/core/src/logging.rs:106-111 | on success the active file holds everything accepted |
| `LogRotation.LogWriter.Close` | crates/core/src/logging.rs:78-80 | a close that fails writes a part of the buffer and loses exactly the rest |
| `LogRotation.LogWriter.Open` | crates/core/src/logging.rs:50-70 | a full active file is shifted away with all backups before writing starts, any other is kept, and its length counts towards the limit |
| `LogRotation.LogWriter.Rotate` | crates/core/src/logging.rs:77-87 | on success every file, with the buffer written out, has moved up by one and the active file is empty; only a failing close loses bytes |
| `LogRotation.LogWriter.ToFile` | crates/core/src/logging.rs:98-102 | bytes that reach the file follow all that were accepted before; the size limit is kept |
| `LogRotation.LogWriter.WriteThrough` | crates/core/src/logging.rs:98-101 | a record as large as the buffer goes to the file; a failure leaves a part of it there |
| `LogRotation.LogWriter.Append` | crates/core/src/logging.rs:98-102 | the record follows everything accepted before, in the file or in the buffer of 8192 bytes, and which of the two |
| `LogRotation.LogWriter.FullMeans` | crates/core/src/logging.rs:91-96 | a write rotates exactly when the active file holds something and would exceed the limit |
| `LogRotation.LogWriter.Write` | crates/core/src/logging.rs:91-104 | every accepted byte is accounted for as retained in order, lost by a failing close, or rotated away; what a write does to the files and to the buffer, with and without a rotation; a file exceeds the limit only as found, by one record, or by parts of records whose write failed |
| `CivilDates.EpochDay` | crates/core/src/logging.rs:338-351 | day 0 is 1 January 1970 |
| `CivilDates.DaysFollowTheCalendar` | crates/core/src/logging.rs:338-351 | every day is a valid date and day d + 1 is its calendar successor, for all d |
| `CivilDates.CivilDateIsCalendar` | crates/core/src/logging.rs:338-351 | the closed form equals the calendar counted day by day from 1970, for every day |
| `CivilDates.NextDay` | crates/core/src/logging.rs:338-351 | the reference: the successor of a date of the proleptic Gregorian calendar is a valid date, by Appendix C of RFC 3339 |
| `CivilDates.YearContainsDay` | crates/core/src/logging.rs:345-347 | the year of the era found for a day contains it |
| `CivilDates.YearOfDay` | crates/core/src/logging.rs:345-347 | every day of a year of the era is attributed to that year |
| `CivilDates.FromMarchNext` | crates/core/src/logging.rs:348-351 | month and day arithmetic follows the calendar across month and year ends |
| `CivilDates.YearAndDay` | crates/core/src/logging.rs:345-347 | in unsigned 32-bit steps, without underflow |
| `CivilDates.MonthAndDay` | crates/core/src/logging.rs:348-350 | in unsigned 32-bit steps, without underflow |
| `CivilDates.BreakDown` | crates/core/src/logging.rs:333-351 | the whole computation for every 64-bit second count, with fields in the ranges of section 5.7 of RFC 3339 |
| `CivilDates.DatesIncrease` | crates/core/src/logging.rs:338-351 | later days are later dates |
| `CivilDates.PaddedOrder` | crates/core/src/logging.rs:352-354 | padded numbers compare as texts as they compare as numbers |
| `CivilDates.PaddedReads` | crates/core/src/logging.rs:352-354 | a padded number consists of the characters `0` to `9` and reads back as it was |
| `CivilDates.PrintedOrder` | crates/core/src/logging.rs:352-354 | printed fields compare as their fields |
| `CivilDates.FieldsFollowTime` | crates/core/src/logging.rs:333-354 | fields compare as instants |
| `CivilDates.TimestampsSort` | crates/core/src/logging.rs:352-354 | timestamps up to the year 9999 sort as texts exactly as in time |
| `CivilDates.TimestampReads` | crates/core/src/logging.rs:331-354 | reading a timestamp by section 5.6 of RFC 3339 gives the date that counting days from 1970 reaches, the second of the day, and the milliseconds |
| `PluginArgv.BuildArgv` | crates/plugin/src/invoke.rs:51-74 | the printer, with its loop over the parameters |
| `PluginArgv.BuildHookArgv` | crates/plugin/src/invoke.rs:76-92 | the printer for hooks |
| `PluginArgv.PrintedAction` | crates/plugin/src/invoke.rs:51-74 | which argument of a printed action is where |
| `PluginArgv.PrintedHook` | crates/plugin/src/invoke.rs:76-92 | which argument of a printed hook is where |
| `PluginArgv.JoinedIds` | crates/plugin/src/invoke.rs:58-61 | the ids in order, with a comma between each two |
| `PluginArgv.ParseArgs` | crates/plugin-sdk/src/runtime.rs:45-123 | the consuming parser reads flags as the recursive reader does |
| `PluginArgv.ParsedIs` | crates/plugin-sdk/src/runtime.rs:45-123 | what the parser makes of any argument vector: each field is what the last occurrence of its flag says, each parameter what the last argument for it says, unknown arguments are skipped alone, and without an endpoint there is no invocation |
| `PluginArgv.ValueIsLast` | crates/plugin-sdk/src/runtime.rs:55-62 | the last occurrence of a flag decides |
| `PluginArgv.ParamValueIsLast` | crates/plugin-sdk/src/runtime.rs:100-106 | the last argument for a parameter decides; its name ends at the first `=` |
| `PluginArgv.SplitIdsArePlain` | crates/plugin-sdk/src/runtime.rs:90-98 | ids read from a list are non-empty and without commas |
| `PluginArgv.SplitJoinedIds` | crates/plugin/src/invoke.rs:58-61 | plain ids survive joining and splitting |
| `PluginArgv.ReadBackExact` | crates/plugin/src/invoke.rs:66-71 | parameters read back as given if and only if no name contains `=` |
| `PluginArgv.ParsedAction` | crates/plugin-sdk/src/runtime.rs:81-120 | what the parser makes of any printed action, whatever its arguments |
| `PluginArgv.ActionRoundTrip` | crates/plugin/src/invoke.rs:51-74 | parsing undoes printing if and only if the endpoint is non-empty, the ids are plain and no parameter name contains `=` |
| `PluginArgv.HookRoundTrip` | crates/plugin/src/invoke.rs:76-92 | parsing undoes printing for hooks if and only if the endpoint is non-empty |
| `PluginArgv.CronRoundTrip` | crates/plugin/src/invoke.rs:94-101 | parsing undoes printing for cron jobs if and only if the endpoint is non-empty |
| `PluginArgv.FormParamsMap` | crates/host/src/plugin_host.rs:56-80 | the parameters are exactly the non-reserved form fields |
| `PluginArgv.DeclaredTargetIs` | crates/host/src/plugin_host.rs:35-58 | the target is that of the first action with the id, else of the first page with that action, else of the first page with that preview, else none |
| `PluginArgv.FormRoundTrip` | crates/host/src/plugin_host.rs:28-80 | end to end from a submitted form to what the plugin reads, if and only if the endpoint is non-empty and no non-reserved field name contains `=` |
| `PluginArgv.FormDelivers` | crates/host/src/plugin_host.rs:28-80 | field by field what the plugin is handed for a form: the listed ids in order only under `Selection`, a non-empty active id only under `Active`, and all fields but the five reserved ones |
| `PluginRegistries.StepKeepsInv` | crates/plugin/src/registry.rs:115-199 | each atomic step keeps every run in order |
| `PluginRegistries.EveryRunInOrder` | crates/plugin/src/registry.rs:115-199 | from an empty registry under every interleaving: a run is listed exactly while its guard lives and it is not cancelled, it is signalled at most once, and at most one cancellation by id succeeds |
| `PluginRegistries.RunKeepsInv` | crates/plugin/src/registry.rs:115-199 | the same from any orderly registry |
| `PluginRegistries.IdsDiffer` | crates/plugin/src/registry.rs:121-121 | different runs have different ids within 2^64 registrations |
| `PluginRegistries.CancelWinsOnce` | crates/plugin/src/registry.rs:163-171 | after a successful cancellation the id is never found again |
| `PluginRegistries.DropRemovesOnlyItself` | crates/plugin/src/registry.rs:195-199 | a late guard never removes another run |
| `PluginRegistries.CancelAllReachesEveryone` | crates/plugin/src/registry.rs:175-180 | every run inserted before is signalled or ended, whatever ran in between |
| `PluginRegistries.OnlyASignalCancels` | crates/plugin/src/invoke.rs:150-183 | while its guard lives a run ends as cancelled only after a signal |
| `PluginRegistries.WrappedIdTakesOver` | crates/plugin/src/registry.rs:121-139 | after 2^64 registrations an insertion takes over the entry of a live run |
| `PluginRegistries.PluginProcessRegistry.FetchNextId` | crates/plugin/src/registry.rs:121-121 | the first half of registering: a fresh id, nothing listed yet |
| `PluginRegistries.PluginProcessRegistry.InsertEntry` | crates/plugin/src/registry.rs:122-138 | the second half of registering |
| `PluginRegistries.PluginProcessRegistry.CancelRun` | crates/plugin/src/registry.rs:163-171 | true exactly when there was an entry, which is gone |
| `PluginRegistries.PluginProcessRegistry.TakeEntries` | crates/plugin/src/registry.rs:175-180 | the whole table is taken at once |
| `PluginRegistries.PluginProcessRegistry.SendSignal` | crates/plugin/src/registry.rs:177-179 | a taken run had no signal before and has exactly this one; its cancel arm is ready, and nothing changes for any other run |
| `PluginRegistries.PluginProcessRegistry.CancelAll` | crates/plugin/src/registry.rs:175-180 | the loop: every run that was listed is signalled exactly once, no other is, and the table is empty |
| `PluginRegistries.PluginProcessRegistry.Deregister` | crates/plugin/src/registry.rs:195-199 | the entry of the guard goes and no other |
| `PluginRegistries.PluginProcessRegistry.List` | crates/plugin/src/registry.rs:143-157 | all live runs, each once, oldest first |
| `CronSchedulers.AfterIsFirst` | crates/host/src/scheduler.rs:469-479 | the next instant is the first scheduled one |
| `CronSchedulers.CronLoop.UntilDue` | crates/host/src/scheduler.rs:506-511 | sleeping that long never oversleeps a job and reaches a due one |
| `CronSchedulers.LoadedAre` | crates/host/src/scheduler.rs:469-479 | a job is in the schedule if and only if it has a next instant, due at its first instant after its clock reading |
| `CronSchedulers.CronLoop.NextFireTimes` | crates/host/src/scheduler.rs:469-479 | the loop over the entries |
| `CronSchedulers.CronLoop.Reload` | crates/host/src/scheduler.rs:518-522 | the schedule holds exactly the jobs with a next instant, each due at its first instant after the clock reading it was loaded with |
| `CronSchedulers.CronLoop.Tick` | crates/host/src/scheduler.rs:529-551 | one pass: which jobs fire and where each next instant moves |
| `CronSchedulers.FiredAre` | crates/host/src/scheduler.rs:529-551 | fired are exactly the due jobs of enabled plugins, unless paused |
| `CronSchedulers.NothingLeftDue` | crates/host/src/scheduler.rs:545-550 | after a tick every next instant is later than it |
| `CronSchedulers.AtMostOnce` | crates/host/src/scheduler.rs:486-552 | for every run on a clock that does not go back, with reloads, pauses and disabled plugins: no job fires early, and each firing is for an instant after the moment of the one before |
| `CronSchedulers.NextIsFirstUnseen` | crates/host/src/scheduler.rs:469-552 | the stored instant is the first one since the loop last looked; a schedule that ran dry is parked for 3650 days from a moment when it had |
| `CronSchedulers.FiresForFirstUnseen` | crates/host/src/scheduler.rs:529-551 | a tick fires a job if and only if it may run and an instant came since the loop last looked, for the first such instant; a schedule that ran dry fires if and only if its parked time has come, at an instant it does not contain |
| `CronSchedulers.ReloadRepeats` | crates/host/src/scheduler.rs:518-522 | a clock reading yields an instant up to a given moment if and only if there is one in between |
| `CronSchedulers.ClockStepFiresTwice` | crates/host/src/scheduler.rs:518-551 | for every job and instant, a run on a clock that steps back in which the job fires twice for that instant |
| `CrashWindows.QueueIsRecent` | crates/host/src/scheduler.rs:170-176 | on a clock that does not go back the pruned queue is the recent part of the full history |
| `CrashWindows.ExpireIsRecent` | app/Localref.Desktop/Services/ProcessSupervisor.cs:61-63 | popping from the front removes exactly what is too old |
| `CrashWindows.ClockStepsBack` | app/Localref.Desktop/Services/ProcessSupervisor.cs:60-63 | a history with a clock step for which it does not |
| `CrashWindows.MoreRecent` | app/Localref.Desktop/Services/ProcessSupervisor.cs:71-71 | more than k are counted exactly when the one k places before the last is recent, for every k |
| `CrashWindows.CrashQueue.Register` | app/Localref.Desktop/Services/ProcessSupervisor.cs:60-63 | the loop over the queue |
| `CrashWindows.RunLoop` | app/Localref.Desktop/Services/ProcessSupervisor.cs:46-81 | the desktop supervises its child as required: which lives are restarted, after which delays, and how it ends |
| `CrashWindows.SuperviseWorker` | crates/host/src/scheduler.rs:96-194 | the daemon supervises its workers by the same requirement |
| `CrashWindows.SupervisionIsDetermined` | crates/host/src/scheduler.rs:164-194 | the requirement leaves no choice, so both supervisors decide identically on the same lives |
| `CrashWindows.RestartedUnlessFourth` | crates/host/src/scheduler.rs:164-194 | a failure is restarted unless it is the fourth within five minutes |
| `CrashWindows.GivesUpAtTheFourth` | app/Localref.Desktop/Services/ProcessSupervisor.cs:53-80 | at most three restarts follow failures of any 300 seconds, giving up happens exactly at the fourth, with its exit code, and the first clean exit ends the loop |
| `CrashWindows.RestartDelays` | app/Localref.Desktop/Services/ProcessSupervisor.cs:14-32 | a restart waits 1, 5 or 30 seconds when no, one or two earlier failures are at most 300 seconds old; for both supervisors |
| `ExceptionServices.Unwrap` | app/Localref.Desktop/Services/ExceptionService.cs:336-340 | the loop ends at an exception that is no aggregate of one |
| `ExceptionServices.UnwrapsAll` | app/Localref.Desktop/Services/ExceptionService.cs:336-340 | an exception inside any number of aggregates of one is found |
| `ExceptionServices.UnwrapsOnly` | app/Localref.Desktop/Services/ExceptionService.cs:336-340 | nothing but aggregates of one is taken off |
| `ExceptionServices.ExitCode` | app/Localref.Desktop/Services/ExceptionService.cs:160-165 | a restart asks for 71 after a panic or for the Rust runtime, and for 70 otherwise |
| `ExceptionServices.ExceptionService.RegisterOccurrence` | app/Localref.Desktop/Services/ExceptionService.cs:260-273 | the count is that of the sliding window over the whole history of the fingerprint |
| `ExceptionServices.ExceptionService.ShouldNotify` | app/Localref.Desktop/Services/ExceptionService.cs:275-283 | notifications of one kind are never closer than the window |
| `ExceptionServices.ExceptionService.RequestRestart` | app/Localref.Desktop/Services/ExceptionService.cs:206-216 | only the first request counts |
| `ExceptionServices.ExceptionService.Report` | app/Localref.Desktop/Services/ExceptionService.cs:138-168 | ignored exactly for cancellations, a restart exactly for fatal ones or the third in the storm window, notified only when tolerated; at most one restart ever |
| `ExceptionServices.ExceptionService.ReportAndEscalate` | app/Localref.Desktop/Services/ExceptionService.cs:253-258 | escalating a report again requests nothing more |
| `ExceptionServices.StormCountsTheLastSeconds` | app/Localref.Desktop/Services/ExceptionService.cs:260-273 | on a clock that does not go back the rule counts the last 30 seconds |
| `JunctionBuffers.NtSubstituteName` | crates/core/src/platformfs/junction.rs:85-97 | a target that begins with `\\?\` gets `\??\` in its place, any other gets it in front |
| `JunctionBuffers.SameDestination` | crates/core/src/platformfs/junction.rs:85-97 | two targets share a destination exactly when they are one path up to the prefix `\\?\` |
| `JunctionBuffers.WriteMountPoint` | crates/core/src/platformfs/junction.rs:147-209 | rejected exactly when the data length does not fit 16 bits; otherwise every byte of the buffer, without overflow, and decoding by section 2.1.2.5 of MS-FSCC gives both names |
| `JunctionBuffers.DecodeWritten` | crates/core/src/platformfs/junction.rs:177-209 | header and names in place decode to the names |
| `JunctionBuffers.WireWritten` | crates/core/src/platformfs/junction.rs:177-209 | header and names in place are the bytes of the wire format, low byte first |
| `JunctionBuffers.WriteHeader` | crates/core/src/platformfs/junction.rs:180-194 | the fixed fields and nothing else |
| `JunctionBuffers.WriteName` | crates/core/src/platformfs/junction.rs:196-206 | the loop with its moving cursor writes the name and nothing else |
| `JunctionBuffers.JunctionBuffer` | crates/core/src/platformfs/junction.rs:85-209 | the buffer decodes to the target as display name and to the target in the NT namespace as substitute name, for targets with and without `\\?\` |

## Left out

- `normalize_cat_directory` and the import of unmanaged directories during a scan: file moves and probing for free names; a real directory copied into `Cat/` re-adds its category, so the run theorems leave that event out.
- Replacing an empty directory by a link to a stale target: the same as a junction made by hand.
- Libraries.Library.ImportItem: an import under an item id that is already in use is not modelled; the code makes a second directory with the same id, while the model has one directory per id.
- Libraries.Library.WriteNewItem: the same restriction to an unused id.
- Junctions with a name other than the item directory, several junctions of one item in one category, and two items with one id: the model has one junction name per (item, category).
- Membership.DecisionTable: `place` is a function of the category alone. A `Cat/` that ignores case reports the name of the directory that was there first, which depends on history; that is not modelled.
- Libraries.Library.MoveCategory: directories without junctions are not part of the library's state; a command sees any set of them.
- Dangling junctions: a junction whose target is gone is no membership; one that resolves again is a junction made by hand.
- Two daemon commands on the same item at once: each command of `Library` runs alone; the interleavings modelled are those of `ManifestRace`, `MetadataLock`, `TaskQueue` and `PluginRegistry`.
- ManifestRaces.FileIsSurvivors: two saves whose bytes mix in the file; what a reader sees of a save under way is any set of records, but the text itself is not modelled.
- MetadataLocks.SharedLock: it compares names as texts. A file system that ignores case gives keys that differ only in case one lock file too, so exclusion there is wider than `SafeIffSameLock` says.
- MetadataLocks.SafeIffSameLock: names are compared as texts, as for `SharedLock`.
- CategoryTrees.MergeDirectory: entry names are compared as texts; a file system that ignores case also finds entries that differ only in case to be shared.
- Libraries.Library.ScanCatMemberships: every live junction is assumed to resolve while it is listed. The code passes over one that does not (crates/core/src/storage/mod.rs:386-410), which a scan then takes for missing or leaves alone.
- Libraries.Library.RebuildIndex: a metadata file that cannot be parsed is passed over by the index; in `Library` such an item counts as not there, and a file that is malformed only for a moment is covered by the event `Skipped` of the runs alone.
- A directory removal that stops half-way: removing an item directory either succeeds or leaves the metadata in place.
- TOML and JSON parsing, the query database, rule matching: lists of categories and a listing function stand for them; the text of `metadata.toml` is opaque in `MetadataLock`.
- `archive_item_file` and a removal of the item directory beside a writer: the first takes no lock, so it belongs to the writers from outside in `MetadataLock`; the second is not an event there.
- MetadataLocks.NoLostUpdate: covers writers that share a lock name and no changes from outside; item-id keyed writers and outside editors fall under `RaceLosesEdit` and `SafeIffSameLock`.
- MetadataLocks.MetadataStore.WriteMetadataIfRevision: a read of an unreadable file and every failing write are one answer, without the error's text; the revision is any function of the text, so equal revisions of different texts are possible.
- LogRotation.LogWriter.Write: the buffer is the standard library's with its default size of 8 KiB; what it still holds when the writer itself goes away is not modelled, nor what the operating system does with bytes it took.
- ConnectorSinks.DaemonSink.ImportConnectorItem: a daemon import is atomic; the attachment made from a web page address and the further items of a save, which the sink does not import, are not modelled.
- CronSchedulers.AtMostOnce: a schedule is any function to the next instant; the syntax of cron expressions is not modelled, and each job is loaded at most once per reload.
- PluginRegistries.EveryRunInOrder: holds for up to 2^64 registrations; `WrappedIdTakesOver` says what happens then. The choice among arms that are ready at once, the timeout and the killing of the process are the runtime's.
- PluginRegistries.PluginProcessRegistry.CancelAll: its loop runs without other threads in between; `CancelAllReachesEveryone` covers them.
- TaskQueues.EveryRun: ids are unbounded; the 64-bit counter would need 2^64 tasks. Pause modes and the tasks themselves are not modelled.
- ExceptionServices.ExceptionService.Report: the fingerprint is a parameter; log files, handlers and recovery markers are not modelled.
- JunctionBuffers.JunctionBuffer: the system call that stores the buffer is not modelled.
- The user interface, HTTP routes and connector endpoints, conversions for foreign callers, notifications and process spawning: bindings and copies of fields.
