# Verification of kageos's stateful core

This project models, in Dafny 4.11, the parts of kageos that carry real algorithms or state
machines, and proves what they keep over all inputs, all failures and all runs.
`dafny verify dfyconfig.toml` checks all of it.

| file | what it models |
|---|---|
| Recovery.dfy | the restore command from archive to running instance |
| Restore.dfy | the swap of live and restored data, with every step fallible, and its undo |
| FileSystem.dfy | a small file system with symbolic links: what a name leads to, MkdirAll, creation of files and links |
| Unpacking.dfy | unpacking an archive into a directory on that file system |
| UnpackingLaws.dfy | what unpacking keeps, where it stays, and when it goes through |
| Containment.dfy, Detour.dfy | where unpacked links lead when they are followed, and an archive that gets outside through one |
| Anchors.dfy | where unpacking creates when names lead through links, and exactly when that stays inside |
| BackupRoundTrip.dfy, Spaced.dfy | write, verify and unpack as one round trip, and a name for which it fails |
| Verifier.dfy | accepting an archive against its manifest |
| Archive.dfy, Trees.dfy | the tree walk and the archive writer |
| Paths.dfy | path cleaning, relative paths, the two path guards |
| BackupLock.dfy, BackupAgent.dfy | the scheduled backup agent: its lock protocol and its records |
| Access.dfy | role assignments on a tree of paths |
| Releases.dfy | clean-up of release files and allocation of version numbers |
| DependencyCache.dfy | when a build may skip `go get` and `go mod tidy` |
| BuildTrace.dfy | the build-trace recorder under any interleaving |
| RootSearch.dfy | bounded breadth-first discovery of the project root |
| Csv.dfy | the CSV printer against a reader for section 2 of RFC 4180 |
| Strings.dfy, Seqs.dfy, Sorting.dfy, Numbers.dfy, Times.dfy | what the modelled code uses of Go's `strings`, `sort`, `strconv` and `time` |

Code that changes state is modelled by classes and loops that are proved against a
specification; laws are then proved about that specification. Failures of the outside world are
parameters (sets of names or paths at which a call fails, or a script of outcomes), so every
statement holds for every pattern of failures.

## What the code does not do as one might expect

Each of these is a proved statement, with the exact condition where there is one.

- Undoing a restore twice, after an undo that stopped on the way, deletes the originals that the
  first one put back (`Restore.SecondUndoDeletes`). The code undoes at most once.
- The rollback directory can be stale: its name has a resolution of one second and it is made
  with MkdirAll. A stale directory of the same name makes the move fail; a stale file is
  overwritten; and an undo brings a stale tree into the storage root where no tree was
  (`Restore.StaleTreeComesIn`; `Restore.AfterUndo` says exactly what stands there).
- The restore documentation calls the move to the rollback directory atomic; a move that fails leaves
  all as before if and only if nothing had been moved before the first blocked name, or that name
  failed by its rename and every rename back succeeds (`Restore.Storage.MoveLiveDataToRollback`;
  `Restore.LstatStrandsMysql` is a run in which it does not).
- Links in an archive are checked by name only. A link whose target passes through another link can be
  inside by name and lead outside when followed (`Detour.LinkLeadsOut`), and an accepted archive with a
  link entry below such a link creates a node outside the destination (`Detour.StrayIsOutside`).
  Unpacking creates nothing outside if and only if every link it gets to is made inside or not at
  all, that is, the longest existing part of the name above it leads inside, or the next name there
  is taken or refused (`Anchors.ExtractionStaysExactlyWhen`). So it is for every archive without a
  link entry below an earlier link entry (`Anchors.UncrossedLinksStay`), which every written backup
  is. Links whose targets climb only at their start never lead outside
  (`Containment.NothingLeadsOut`).
- A backup is not accepted by its own verifier if an archived name ends in white space or the
  manifest is longer than 16 MiB (`BackupRoundTrip.WrittenIsAccepted`, and `Spaced.SpacedNameIsRefused` for such a stack).
- Two agents can be at work at once after a crash: both see the stale lock and each deletes the
  lock it finds (`BackupLock.CrashedLockLetsTwoIn`).
- `PruneLocal` (pkg/systembackup/system_backup.go:252-274) slices beyond the end when there are fewer archives
  than are to be kept, so the first backup under the fallback settings panics and its record stays
  running (`BackupAgent.FirstBackupStaysRunning`).
- A scheduled backup runs once a day only while its record is among the fifty kept: it is due again
  on the same day if and only if the schedule asks for it and fifty runs followed
  (`BackupAgent.ScheduleDueExactlyWhen`, and `BackupAgent.BusyDayRunsTwice` for such a day).
- `Resolve` reports a source that depends on the order of the assignments when two paths of the
  same length differ after one normalization, which inner white space before a slash can cause
  (`Access.UnsettledPathsDisagree`).
- `HasPermission` does not distribute over merging when a set grants an action under a spelling
  that only merging folds (`Access.HasPermissionDistributes`, `Access.SpelledGrantIsHidden`).
- CSV output is ambiguous to readers that take CR LF, or a final line break, for more than LF alone
  (`Csv.ReadBackCrLf`, `Csv.BareCrIsLost`, `Csv.ReadBackTerminated`, `Csv.EmptyEndIsLost`).
- A rotated log can match two versions when one is the other followed by a dash and more; map order
  then decides. If and only if a version that stays and one that goes stand in that relation, two
  plans for one directory can differ (`Releases.PlanIgnoresMapOrder`,
  `Releases.ReleaseCandidateIsARival`) and a clean-up can take logs of a version that stays
  (`Releases.PlanSparesKeptVersions`).
- The version number wraps around after the greatest int (`Releases.NextVersionIsFree`), and an
  unreadable releases directory gives v1 (`Releases.GenerateVersion`).
- Editing go.mod between planning and `go get` leaves a cache that counts as checked although
  nothing was asked (`DependencyCache.EditDuringGetFoolsTheCache`); a run records such a check if and
  only if a replacement appears in that window of a call that has a check due and ends well
  (`DependencyCache.UnaskedOnRecordExactlyWhen`).

## Model

| member | source | states |
|---|---|---|
| Recovery.CmdRestore | cmd/kagectl/backup.go:626-748 | Only an archive the verifier accepts, of the running images, is restored; unpacking changes nothing that exists and creates nothing outside the staging directory exactly when every link it gets to is made inside or not at all, as without a link entry below an earlier one; in that case no original tree is lost before an instance is accepted or the old one started again, and without a swap nothing changes; an instance restored from a backup runs on the backed-up trees and configuration, and, for a backup, the restore succeeds if and only if the setting fits, its links are safe and no step fails. It refuses, stops as a dry run or starts the swap each under an exact condition; every archive that gets to the swap holds all five data trees; what any verdict leaves of trees, rollback directory and configuration is stated, and after a restore the rollback directory holds the originals if it is kept, and else is gone unless the verdict says that it is not |
| Recovery.AcceptedHoldsAllData | cmd/kagectl/backup.go:540-544 | An accepted archive has an entry under each of the five data names |
| Recovery.DataNamesExact | cmd/kagectl/backup.go:834 | The names of the storage root that a restore replaces are mysql, minio, namespace, data and tls |
| Recovery.RestoreVetted | cmd/kagectl/backup.go:664-748 | The same for the part after the checks: unpack, read the configuration, swap; the swap is started exactly when unpacking succeeds, the configuration can be read and re-pointed, and the rollback directory made; then the instance runs on that configuration |
| Recovery.SwapStaged | cmd/kagectl/backup.go:669-748 | With the trees of a backup staged, the restore succeeds exactly when the configuration can be re-pointed and no step of the swap fails; it then runs on these trees, with that configuration; what each verdict leaves is as for the swap itself |
| Recovery.Vet | cmd/kagectl/backup.go:634-647 | The checks pass exactly in bundled mode, when a manifest is accepted whose four images are those in use; for a backup, when its own are |
| Recovery.SameImages | cmd/kagectl/backup.go:646-648 | The four images are compared one by one, each with the one of the same service |
| Recovery.StageBackup | cmd/kagectl/backup.go:669-682 | A backup unpacks into a fresh directory exactly when its links are safe, and the five staged trees are then those backed up; the configuration is what its name leads to, links followed, and a configuration file is the one backed up |
| Recovery.BackupUnpacks | cmd/kagectl/backup.go:669-682 | The same about the archive itself, with everything created staying inside |
| Recovery.WrittenIsABackup | cmd/kagectl/backup.go:344-458 | What the writer publishes meets the description of a backup that the restore theorem asks for |
| Recovery.BackupStaged | cmd/kagectl/backup.go:750-832 | After unpacking, every data name holds exactly the tree that was backed up under it |
| Restore.Storage.ExecuteProductionRestore | cmd/kagectl/backup.go:702-748 | Over every pattern of failures, with the exact condition of each verdict: the originals are intact in the storage root or the rollback directory in every intermediate state; when undone, every original is back, and under a name that was absent stands the stale tree of an old rollback directory, or else what RemoveAll left, before the old instance is started again, which makes missing directories anew; when the move fails, no name is ever in both places, and all is as before exactly when the first blocked name failed cleanly; the restore goes through exactly when no step fails, and then the rollback directory is gone, or holds what could not be removed, or, if it is to be kept, the originals; the configuration in use is known after every verdict; what stands in the places of the originals when an undo begins, and where an undo that fails has stopped, is stated name by name; names outside the five change only as services change them |
| Restore.SucceedsExactlyWhen | cmd/kagectl/backup.go:702-748 | What a successful restore takes, flag by flag and tree by tree |
| Restore.UndoableMeans | cmd/kagectl/backup.go:885-899 | What an undo takes, name by name |
| Restore.UndoneExactlyWhen | cmd/kagectl/backup.go:885-899 | What an undo leaves, name by name: the original, else the stale tree, else what RemoveAll left of what stood there |
| Restore.StartedExactlyWhen | cmd/kagectl/backup.go:728-740 | What a started instance runs on, name by name: the staged tree, or what its services made of it |
| Restore.Storage.MakeRoom | cmd/kagectl/backup.go:707-727 | The move, and the start of the old instance when it fails |
| Restore.Storage.SwapIn | cmd/kagectl/backup.go:712-748 | From the moved originals on: accepted exactly when everything installs and starts, with the rollback directory cleared unless it is kept, otherwise rolled back; the configuration afterwards is the backed-up one exactly as far as it got |
| Restore.Storage.RollBack | cmd/kagectl/backup.go:712-722 | The way back: it fails, with the originals kept aside or put back, or all trees are as they were until the old instance is started again; it goes through exactly when every original and every stale tree can be put back over what RemoveAll leaves; an undo that fails has stopped at the first name that cannot |
| Restore.UndoneIsAfterUndo | cmd/kagectl/backup.go:885-899 | After a full undo each name holds its original, else the stale tree, else what RemoveAll left |
| Restore.StaleTreeComesIn | cmd/kagectl/backup.go:885-899 | A concrete run that is undone and leaves a stale tree where there was none |
| Restore.Storage.Restart | cmd/kagectl/backup.go:709-718 | Starting the old instance changes the storage root only as its services, and the directories it makes, say |
| Restore.Storage.MoveLiveDataToRollback | cmd/kagectl/backup.go:836-857 | Succeeds exactly when every present tree can be moved; then all have moved; when it fails, all is as before if and only if nothing had been moved before the first blocked name, or that failed by its rename and every rename back succeeds |
| Restore.Storage.MoveUntilBlocked | cmd/kagectl/backup.go:839-855 | The loop moves all that comes before the first name that cannot be moved |
| Restore.Storage.RevertMoves | cmd/kagectl/backup.go:846-852 | The reverse-order undo goes back to the last move whose rename back fails; what it passed is settled and the rest is moved out |
| Restore.MoveVerdict | cmd/kagectl/backup.go:836-857 | Where the undo stops decides whether the failed move was clean |
| Restore.SettledIsSame | cmd/kagectl/backup.go:836-857 | Settled name by name is the same as the whole storage root being as before, and the rollback directory if it held none of the names |
| Restore.LstatStrandsMysql | cmd/kagectl/backup.go:838-857 | A concrete move that is not all-or-nothing: looking at minio fails and mysql stays in the rollback directory |
| Restore.Storage.InstallAndStart | cmd/kagectl/backup.go:728-740 | Succeeds exactly when all five trees are staged and no call fails; then the instance runs on the staged trees, but for what its services, which may touch any name, make of them, whether or not it comes up; else the trees before the first that cannot be installed are in place; the originals stay aside throughout |
| Restore.Storage.MoveRestoredDataIntoPlace | cmd/kagectl/backup.go:869-883 | Succeeds exactly when every name can be installed; when it stops, the names before the first that cannot are installed and the rest is untouched |
| Restore.Storage.RestoreRollbackData | cmd/kagectl/backup.go:885-899 | Succeeds exactly when every name can be put back; when it stops, the names before the first that cannot are back, that one is cleared and its original still aside, and the rest is untouched |
| Restore.Storage.UndoName | cmd/kagectl/backup.go:887-896 | One name is cleared and put back, or cleared with its original still aside |
| Restore.Storage.MoveOut | cmd/kagectl/backup.go:845 | One os.Rename into the rollback directory keeps every original intact |
| Restore.Storage.MoveBack | cmd/kagectl/backup.go:894 | One os.Rename out of it keeps every original intact |
| Restore.Storage.Install | cmd/kagectl/backup.go:878 | One os.Rename out of the staging directory keeps every original intact |
| Restore.UndoBringsBackWhatWasKept | cmd/kagectl/backup.go:885-899 | With removals that succeed, a full undo leaves a tree live if and only if it was in the rollback directory |
| Restore.SecondUndoDeletes | cmd/kagectl/backup.go:885-899 | Undoing again after an undo that stopped deletes exactly the trees that the first one had put back |
| Restore.MovedIsKeptAside | cmd/kagectl/backup.go:724-727 | Once the move has succeeded, every original is in the rollback directory and its place is free |
| Archive.BackupWriter.WriteBackupArchive | cmd/kagectl/backup.go:344-386 | Publishes exactly the archive of the walk of all sources, with the manifest last, if and only if every source exists, holds no special file and the file can be finished; otherwise the published file is unchanged |
| Archive.WrittenManifest | cmd/kagectl/backup.go:366-370 | The last entry is manifest.json, readable for its owner only, and reads back as the manifest with one record for every visit |
| Archive.BackupWriter.AddSource | cmd/kagectl/backup.go:388-409 | Archive and manifest grow by the walk of the source; fails exactly when it is missing or holds something a backup cannot |
| Archive.BackupWriter.AddTree | cmd/kagectl/backup.go:393-408 | The recursive walk grows archive and manifest by the same visits, up to the first special file |
| Archive.BackupWriter.WriteEntry | cmd/kagectl/backup.go:411-458 | One entry and its record, under a name that cleaning leaves alone |
| Trees.WalkMeetsTheTree | cmd/kagectl/backup.go:393-408 | The walk meets exactly the items of the tree, each under its own path |
| Trees.WalkIsDistinct | cmd/kagectl/backup.go:393-408 | No path is met twice |
| Trees.OnTheWay | cmd/kagectl/backup.go:393-408 | Whatever lies on the way to an item is a folder of the tree |
| BackupRoundTrip.VisitsAreTreeLike | cmd/kagectl/backup.go:300-309 | Over all six sources paths are distinct and proper, and only folders have anything below them |
| BackupRoundTrip.WrittenIsAccepted | cmd/kagectl/backup.go:344-567 | A written backup is accepted, with the manifest written, if and only if no archived name ends in white space and the encoded manifest is at most 16 MiB |
| Spaced.SpacedNameIsRefused | cmd/kagectl/backup.go:569-576 | A concrete stack, with a file whose name ends in white space, whose backup is not accepted |
| Verifier.VerifyBackupArchive | cmd/kagectl/backup.go:468-546 | Returns a manifest exactly for the archives described by Accepts: undamaged, safe names, known kinds, current schema, required entries, and records matching the entries one to one in kind, size, mode, owner, digest and link target |
| Verifier.AcceptedHolds | cmd/kagectl/backup.go:540-544 | An accepted archive holds the configuration and each of the five data trees by name |
| Verifier.AcceptedDeclares | cmd/kagectl/backup.go:489-536 | Its manifest, the first 16 MiB of manifest.json, declares the schema kageos.backup.v1, a consistent backup and a stopped stack |
| Verifier.AcceptedMatches | cmd/kagectl/backup.go:511-567 | Each of its entries has a record with its kind, size, mode, owner, digest and link target |
| Verifier.Refused | cmd/kagectl/backup.go:480-530 | Damage, an unsafe name, another kind of entry or a repeated name has an archive refused, whatever the manifest |
| Verifier.OnlyConfigIsRefused | cmd/kagectl/backup.go:540-544 | A concrete family: the configuration and any manifest, without data, are refused |
| Verifier.ScanEntries | cmd/kagectl/backup.go:480-530 | The scanning loop has seen every entry under its trimmed name, or no manifest can make the archive acceptable |
| Verifier.CompareBackupManifest | cmd/kagectl/backup.go:548-567 | Accepts exactly when recorded paths are distinct, all recorded facts were observed, and every observed path is recorded |
| Verifier.AllObserved | cmd/kagectl/backup.go:549-561 | Equal counts, no duplicates and inclusion give equality of the two path sets |
| Verifier.AgreesIffMatching | cmd/kagectl/backup.go:548-567 | Agreement with the observed map is a one-to-one match with the archive entries |
| BackupRoundTrip.AcceptedRepresents | cmd/kagectl/backup.go:468-567 | The manifest pins down an accepted archive: without digest collisions, every archive accepted for it holds the same items at the same paths |
| BackupRoundTrip.AcceptedKeepsMeta | cmd/kagectl/backup.go:411-458 | Mode, owner and size of everything backed up are those of its entry in every archive accepted for the backup |
| BackupRoundTrip.AcceptedUnpacks | cmd/kagectl/backup.go:468-832 | Every archive accepted for the manifest of a backup, in whatever order, is fit for unpacking; its links are safe exactly when the links of the sources are |
| BackupRoundTrip.SourceRebuilt | cmd/kagectl/backup.go:750-832 | After unpacking, each source stands under the destination with the same paths, kinds, bytes and link targets, and nothing else stands there |
| Paths.ValidNames | cmd/kagectl/backup.go:569-576 | A name is accepted exactly when, trimmed, all its components are non-empty and neither . nor .. , and it is then taken as trimmed |
| Paths.InsideIsPrefix | cmd/kagectl/backup.go:338-342 | The guard on the relative path holds exactly for the root and what lies below it |
| Unpacking.Disk.ExtractBackupArchive | cmd/kagectl/backup.go:750-832 | Nodes and outcome for every archive and every disk, links followed as the system follows them; the laws of this function are the next rows |
| UnpackingLaws.ExtractionKeeps | cmd/kagectl/backup.go:750-832 | Whatever the archive and the disk hold, unpacking changes nothing that exists |
| UnpackingLaws.ExtractionStays | cmd/kagectl/backup.go:750-832 | Into a fresh directory, for every archive without a link entry below an earlier link entry, and over every failure: nothing is created outside the destination, every new link resolves inside it by name, and if it ends well the archive is in place and nothing else is new |
| UnpackingLaws.ExtractionChecks | cmd/kagectl/backup.go:750-832 | If it ends well, names and kinds were fit and every link safe by name, whatever the links lead to |
| UnpackingLaws.ExtractionNeeds | cmd/kagectl/backup.go:788-819 | If it ends well, every owner of a folder or file could be set and every link target is relative |
| UnpackingLaws.ExtractionGoesThrough | cmd/kagectl/backup.go:750-832 | An undamaged archive with safe, distinct names, everything standing in folders and safe links unpacks |
| UnpackingLaws.UnpacksExactlyWhenNested | cmd/kagectl/backup.go:750-832 | An archive of safe, distinct names unpacks to just what it says if and only if it is undamaged, everything stands in folders and its links are safe |
| Detour.StrayIsOutside | cmd/kagectl/backup.go:750-832 | The converse at a concrete input: an accepted archive with a link entry below another one unpacks without an error and creates a node outside the destination |
| Anchors.MakeDirsAnchored | cmd/kagectl/backup.go:785-823 | os.MkdirAll creates at and below one place, the next name in the directory to which the longest existing part of the path leads, and nothing exactly when that place is taken, refused or not in a directory |
| Anchors.LinkMadeAnchored | cmd/kagectl/backup.go:816-831 | So does the restoring of a link, which makes nothing exactly when it is unsafe by name or that place is not free |
| Anchors.LinkStaysExactlyWhen | cmd/kagectl/backup.go:816-831 | One link keeps to the destination if and only if the longest existing part of the name above it leads inside, or nothing is made |
| Anchors.LinkRunStaysExactlyWhen | cmd/kagectl/backup.go:816-831 | A run of links, whatever they lead to, keeps to the destination if and only if every link it gets to does |
| Anchors.ExtractionStaysExactlyWhen | cmd/kagectl/backup.go:750-832 | Unpacking any archive into a fresh directory creates nothing outside it if and only if every link it gets to is made inside or not at all |
| Anchors.OneLinkBelow | cmd/kagectl/backup.go:816-831 | One more link entry in an archive that unpacks inside keeps everything inside if and only if that link does |
| Anchors.UncrossedLinksStay | cmd/kagectl/backup.go:750-832 | Without a link entry below an earlier one every link is made inside |
| Containment.MadeWhereTheNameLeads | cmd/kagectl/backup.go:816-831 | A link is made in the directory to which the name above it leads |
| Detour.LinkLeadsOut | cmd/kagectl/backup.go:817-824 | A concrete stack that is backed up, accepted and unpacked inside, whose link, followed, leads above the destination |
| Containment.FollowingStaysInside | cmd/kagectl/backup.go:817-824 | With links whose targets climb only at their start and are inside by name, a name that is inside by its spelling leads inside, however many links it meets |
| Containment.NothingLeadsOut | cmd/kagectl/backup.go:750-832 | So, after unpacking an archive of such links without one below an earlier one, every name below the destination leads inside |
| Unpacking.Disk.ExtractPlain | cmd/kagectl/backup.go:762-815 | The reading loop creates all entries but the links, in order, up to the first that fails |
| UnpackingLaws.PlainRunStays | cmd/kagectl/backup.go:762-815 | It stays inside and makes no link, for every archive; if it ends well all entries but the links are in place |
| Unpacking.Disk.RestoreLinks | cmd/kagectl/backup.go:816-831 | The linking loop, after everything else, in order, up to the first that fails |
| UnpackingLaws.LinkRunStays | cmd/kagectl/backup.go:816-831 | It stays inside if no link stands below an earlier one; if it ends well all links are in place |
| Unpacking.Disk.ExtractEntry | cmd/kagectl/backup.go:765-814 | One entry: refused by name or kind, noted as a link, or created where its name leads |
| UnpackingLaws.EntryLaw | cmd/kagectl/backup.go:765-814 | In a fresh directory without new links, at most its own path and the directories towards it are new, and it fails only for a reason that its path, its kind or the disk gives |
| Unpacking.Disk.RestoreLink | cmd/kagectl/backup.go:817-829 | One link: checked by name, then created where the name above it leads |
| UnpackingLaws.NothingInTheWay | cmd/kagectl/backup.go:783-829 | In a nested archive with distinct names nothing stands in the way of an entry, whatever was created before it |
| UnpackingLaws.UnpackedIsNested | cmd/kagectl/backup.go:750-832 | An archive that stands in place just as it says was nested |
| Unpacking.Disk.MkdirAll | cmd/kagectl/backup.go:785 | os.MkdirAll, links followed: the recursion over the path, which ends well at any directory or link to one |
| FileSystem.MakeDirsUnlinked | cmd/kagectl/backup.go:785 | Where no link is on the way it makes exactly what is missing, unless something that is not a directory, or a refusal, is in the way |
| FileSystem.MakeDirsKeeps | cmd/kagectl/backup.go:785 | Wherever links lead, it changes nothing that exists |
| Unpacking.Disk.CreateFile | cmd/kagectl/backup.go:795 | Creates the file exactly when its name leads to a free place in a directory; a copy that fails leaves part of it |
| Unpacking.Disk.Symlink | cmd/kagectl/backup.go:827 | Creates the link exactly when its name leads to a free place in a directory |
| BackupLock.StepKeepsOwner | cmd/kagectl/backup.go:125-137 | A step keeps "the holder owns the lock file" if and only if it does not delete the lock of an agent at work |
| BackupLock.LockIsExclusive | cmd/kagectl/backup.go:125-137 | Over every interleaving, with errors and crashes, at most one agent is at work as long as no working agent loses its lock |
| BackupLock.LockHasAReason | cmd/kagectl/backup.go:125-137 | Over every run: if there is a lock file, its owner is at work, or its release failed, or it crashed at work |
| BackupLock.ReleasedLockIsTaken | cmd/kagectl/backup.go:125-137 | After a release without failure nothing keeps the next agent that begins, looks and creates without failure from coming to work |
| BackupLock.TakesLockExactlyWhen | cmd/kagectl/backup.go:126-135 | An undisturbed agent comes to work if and only if there is no lock or the one there is more than twelve hours old |
| BackupLock.FailuresTakeNoLock | cmd/kagectl/backup.go:126-137 | A call that fails leaves the lock file as it was |
| BackupLock.StopsWorking | cmd/kagectl/backup.go:137 | An agent stops working only by a crash or a release, which removes the lock file or fails |
| BackupLock.ExclusiveWhileFresh | cmd/kagectl/backup.go:126-128 | In particular when no lock is over twelve hours old when examined |
| BackupLock.RobbingLeadsToTwo | cmd/kagectl/backup.go:126-129 | Conversely, deleting the lock of a working agent is one step away from two agents at work |
| BackupLock.CrashedLockLetsTwoIn | cmd/kagectl/backup.go:126-129 | A concrete run: two agents find a crashed agent's stale lock and both come to work, although no working agent's lock was old |
| BackupAgent.Agent.ScheduledRun | cmd/kagectl/backup.go:107-216 | The whole new state of one invocation: unchanged records if it does not begin, otherwise the new record in front as the run leaves it; a request that is taken up is marked in the configuration; when the agent was last seen is known after every exit |
| BackupAgent.Agent.Work | cmd/kagectl/backup.go:177-215 | From the saved running record on: the record ends as described for the way the run ended |
| BackupAgent.Agent.Finish | cmd/kagectl/backup.go:152-174 | Every later exit goes through here; the record is finished exactly when the state file can be read and written |
| BackupAgent.RecordEndsExactlyWhen | cmd/kagectl/backup.go:145-216 | A record saved as running ends as succeeded or failed if and only if finish can use the state file and local pruning does not panic |
| BackupAgent.SucceedsExactlyWhen | cmd/kagectl/backup.go:178-215 | A record ends as succeeded if and only if each of the eleven stages went well, and has an object key exactly when archive, upload and the saving of the key did |
| BackupAgent.StaysRunningExactlyWhen | cmd/kagectl/backup.go:152-215 | It stays running if and only if the state cannot be read or written at the end, or all went well up to a pruning that is asked to keep more than there is, or fewer than none |
| BackupAgent.FailedUploadIsRecorded | cmd/kagectl/backup.go:187-190 | A failed upload is recorded as failed, without an object key |
| BackupAgent.StartsExactlyWhen | cmd/kagectl/backup.go:107-150 | A run starts if and only if one is due and nothing before it fails |
| BackupAgent.DueExactlyWhen | pkg/systembackup/system_backup.go:171-193 | Which run is due, over the fields of the configuration and the records |
| BackupAgent.RequestIsTakenUpOnce | cmd/kagectl/backup.go:139-150 | A request is due at once and marked by the invocation that takes it up; it is lost exactly when the record of its run cannot be saved |
| BackupAgent.OnlyRequestsAreMarked | cmd/kagectl/backup.go:139-144 | An invocation changes the configuration only by marking a pending request |
| BackupAgent.FirstBackupStaysRunning | pkg/systembackup/system_backup.go:252-274 | Pruning slices past the end when there are fewer archives than are to be kept: with the fallback of two, the first backup stays recorded as running |
| BackupAgent.NoRecordLeftRunning | cmd/kagectl/backup.go:97-216 | Over any sequence of invocations without those failures no record is left running |
| BackupAgent.NeverMoreThanMax | pkg/systembackup/system_backup.go:139-144 | No sequence of invocations keeps more than fifty records |
| BackupAgent.RecordMovesBack | pkg/systembackup/system_backup.go:139-144 | A record moves back one place per later run and is there as long as fewer than fifty followed |
| BackupAgent.ScheduleRunsOncePerDay | pkg/systembackup/system_backup.go:171-193 | The schedule starts at most one backup a day, unless fifty other runs push its record out |
| BackupAgent.ScheduleDueExactlyWhen | pkg/systembackup/system_backup.go:171-193 | Over any sequence of invocations and configurations a scheduled run is due if and only if the schedule asks for one and every scheduled run of that day has at least fifty runs after it |
| BackupAgent.RecordHasStart | pkg/systembackup/system_backup.go:139-144 | Every record stands for a run, with as many runs after it as records before it |
| BackupAgent.BusyDayRunsTwice | pkg/systembackup/system_backup.go:171-193 | A concrete day of 52 invocations a minute apart, each finding the configuration that the last one left and at most a new request, on which the schedule starts two backups |
| Access.Resolve | pkg/access/access.go:370-414 | The loop computes the declarative resolution of the assignments |
| Access.TakesPartExactlyWhen | pkg/access/access.go:381-395 | The assignments of a resolution are those with one of the four roles, not expired, at or above the resource, in normal form |
| Access.ExpiredMayGo | pkg/access/access.go:387-389 | An assignment that has expired may be taken out of the list without changing the resolution |
| Access.RoleGrantsExactly | pkg/access/access.go:256-288 | Which of the six actions each role grants |
| Access.NormalIgnoresPadding | pkg/access/access.go:183-193 | A path is normalized to the same whatever white space and slashes stand around it |
| Access.PermissionsMeaning | pkg/access/access.go:370-414 | An action is permitted exactly when an unexpired assignment of a valid role on an applying path grants it |
| Access.RolesMeaning | pkg/access/access.go:395-399 | The roles are those of the assignments that take part, once each |
| Access.ExpiryMeaning | pkg/access/access.go:403-408 | The expiry is the latest of those that take part; there is none exactly when none of them expires |
| Access.SourceMeaning | pkg/access/access.go:400-412 | The source is a longest path of those that take part; it is empty when that is the resource itself or nothing takes part |
| Access.ResolutionIgnoresOrder | pkg/access/access.go:370-414 | Permissions, roles and expiry depend only on which assignments there are |
| Access.InheritedFromIgnoresOrder | pkg/access/access.go:400-412 | The reported source is the same for every order if and only if the longest applying paths agree |
| Access.SettledPathsAgree | pkg/access/access.go:183-193 | They agree for paths that normalizing leaves alone |
| Access.UnsettledPathsDisagree | pkg/access/access.go:183-193 | A concrete pair of paths with inner white space for which the source depends on the order |
| Access.RightsFlowDown | pkg/access/access.go:361-414 | Rights at an ancestor and a later time hold at a descendant and an earlier time |
| Access.AppliesIffAncestor | pkg/access/access.go:343-368 | A path applies to a resource exactly when its normal form is among the resource's parent paths |
| Access.ParentPaths | pkg/access/access.go:343-359 | The loop computes the list of parent paths |
| Access.ParentPathsNest | pkg/access/access.go:343-359 | They run from the resource outwards, each enclosing the one before |
| Access.PathAppliesTransitive | pkg/access/access.go:361-368 | Applying is transitive |
| Access.MergePermissionSets | pkg/access/access.go:301-311 | The merge grants an action exactly when some set grants it under a name that folds to it |
| Access.MergeKeepsPermissions | pkg/access/access.go:301-325 | Whatever one set permits, the merged set permits |
| Access.HasPermissionDistributes | pkg/access/access.go:301-325 | HasPermission distributes over merging, for every action, if and only if no set hides a grant under an unfolded name |
| Access.SpelledGrantIsHidden | pkg/access/access.go:301-325 | A concrete set for which it does not |
| Access.CoversRoleMeaning | pkg/access/access.go:330-341 | A resolution covers a role code, however spelled, exactly when it is one of the four roles and one taking-part assignment has that role or a higher one |
| Access.PrincipalsForUser | pkg/access/access.go:167-181 | The user, then the department and every organization above it |
| Access.UserGrantsReachTheUser | pkg/access/access.go:167-172 | A grant to a user reaches exactly the user of that name |
| Access.DepartmentGrantsReachDown | pkg/access/access.go:149-181 | A department grant reaches exactly the users of departments it encloses, inside the organization, at or below /org |
| Csv.ToCSV | pkg/formatter/table.go:182-241 | The text reads back as the display names of the fields and then, for each element, its formatted values; it is empty for no elements or no fields, and there is an error for anything but a slice of structs |
| Csv.CsvRow | pkg/formatter/table.go:207-238 | One record is the escaped cells joined by commas |
| Csv.PlainExactlyWhen | pkg/formatter/table.go:244-251 | A cell is written as it is if and only if it has no comma, no quote and no line feed |
| Csv.ReadBack | pkg/formatter/table.go:207-251 | A reader for section 2 of RFC 4180 with LF as separator gets back exactly the table, whatever the cells hold |
| Csv.ReadBackCrLf | pkg/formatter/table.go:244-251 | A reader that also takes CR LF gets it back if and only if no record but the last ends in a bare CR |
| Csv.BareCrIsLost | pkg/formatter/table.go:244-251 | A concrete table that such a reader changes |
| Csv.ReadBackTerminated | pkg/formatter/table.go:207-251 | A reader that allows a final line break gets it back if and only if the last record is not one empty cell |
| Csv.EmptyEndIsLost | pkg/formatter/table.go:207-251 | A concrete table of which such a reader loses the last record |
| RootSearch.DiscoverMarkerRootDownward | pkg/config/root.go:87-124 | The queue loop finds the first marked directory among the first maxDirs in breadth-first order |
| RootSearch.QueueFollowsOrder | pkg/config/root.go:96-122 | The queue visits directories in breadth-first order and runs empty when all are visited |
| RootSearch.BreadthFirstInOrder | pkg/config/root.go:96-122 | That order is by depth, then by the first differing name |
| RootSearch.BreadthFirstExact | pkg/config/root.go:96-122 | It lists exactly the directories reachable within the depth limit |
| RootSearch.SearchFindsNearest | pkg/config/root.go:87-124 | What is found is marked, within the limit, and nearer than every other marked directory there |
| RootSearch.SearchGivesUp | pkg/config/root.go:87-124 | The search gives up exactly when every marked directory is preceded by at least maxDirs reachable ones |
| RootSearch.SearchIsComplete | pkg/config/root.go:87-124 | With at most maxDirs directories in reach, giving up means that none is marked |
| RootSearch.FoundBelowExactlyWhen | pkg/config/root.go:87-124 | Below an ancestor something is found if and only if one of the first 4096 directories down to level eight is marked |
| RootSearch.LookupReaches | pkg/config/root.go:87-124 | What listing directory after directory reaches is what a look at the path finds |
| RootSearch.AncestorDirs | pkg/config/root.go:126-137 | The start, its parent and so on up to the root |
| RootSearch.DiscoverMarkerRootUpward | pkg/config/root.go:78-85 | The longest prefix of the start that holds a marker; nothing exactly when none does |
| RootSearch.DiscoverKageosRootFrom | pkg/config/root.go:56-76 | The nearest marked ancestor, else the first find below an ancestor, else the nearest weak ancestor; nothing exactly when there is none of these |
| Releases.CleanVersionsToKeep | cmd/kagectl/clean.go:282-323 | Keeps exactly the current, the latest and the newest listed versions |
| Releases.NewestExact | cmd/kagectl/clean.go:300-315 | Listed versions, trimmed, once each, strictly newest first |
| Releases.RemovedHasNewerOnes | cmd/kagectl/clean.go:282-323 | A removed version has as many different listed versions above it as were asked for, or three |
| Releases.KeptExactlyWhen | cmd/kagectl/clean.go:282-323 | Kept are the current version, the latest, and of the listed ones as many of the newest as asked for, or three |
| Releases.NewestByNumberThenText | cmd/kagectl/clean.go:304-315 | Newest is the greater number, then the later text |
| Releases.UniqueNonEmptyStrings | cmd/kagectl/util.go:13-28 | Trimmed, without blanks, each at its first place |
| Releases.KnownBinaryVersions | cmd/kagectl/clean.go:244-250 | The map from binary names to recorded versions |
| Releases.KnownLogVersions | cmd/kagectl/clean.go:252-261 | The map from log names and markers to recorded versions |
| Releases.MatchRotatedLog | cmd/kagectl/clean.go:232-242 | Finds a marker that is a prefix of the name, if there is one |
| Releases.LogNames | cmd/kagectl/clean.go:232-261 | The names that count as the log of a version, rotated and compressed ones among them |
| Releases.PlanKnownReleaseFiles | cmd/kagectl/clean.go:191-230 | Plans exactly files put down to a version that is not kept; a file left alone could be put down to none or to a kept one; each file once; no plan only when the directory, or a file to go, cannot be read |
| Releases.PlanSparesKeptVersions | cmd/kagectl/clean.go:191-261 | No file of any plan is named after a version that stays, if and only if, for logs, no version that stays and no recorded version that goes are one the other followed by a dash and more; for binaries always |
| Releases.RotatedLogsAreCertain | cmd/kagectl/clean.go:232-242 | Every rotated log belongs to at most one version if and only if no version is another followed by a dash and more |
| Releases.PlanIgnoresMapOrder | cmd/kagectl/clean.go:191-242 | Any two plans for one directory take the same files, in whatever order the map is searched and whatever files there are, if and only if, for logs, no kept and no removed version are one the other followed by a dash and more |
| Releases.ReleaseCandidateIsARival | cmd/kagectl/clean.go:191-242 | A concrete directory with two plans that take different files |
| Releases.PlainVersionsAreCertain | cmd/kagectl/clean.go:232-242 | So it is for versions without a dash |
| Releases.ApplyCleanTargets | cmd/kagectl/clean.go:501-545 | Without execute nothing changes; with it exactly the targets before the first that fails are gone |
| Releases.GenerateVersion | pkg/builder/builder.go:585-606 | One above the highest version number among the release file names; v1 when the directory cannot be read, and the least int after the greatest |
| Releases.NextVersionIsFree | pkg/builder/builder.go:585-606 | The new version is above everything built and its binary is not there yet, exactly when the highest number is below the greatest int |
| Releases.PlanIsClean | cmd/kagectl/clean.go:191-230 | Whatever part of a plan has been carried out is a clean-up step of the run model |
| Releases.HighestIsKept | cmd/kagectl/clean.go:282-323 | A recorded version with the highest number is always kept |
| Releases.CleanKeepsNextVersion | cmd/kagectl/clean.go:282-323 | A clean-up, however far it got, leaves the next version number as it was |
| Releases.StepKeepsSound | pkg/builder/builder.go:585-606 | Every clean-up, build and activation keeps the recorded versions at or below the highest binary, which only a build raises, by one |
| Releases.VersionsAreNeverReused | pkg/builder/builder.go:585-606 | In every run of clean-ups, builds and activations the next version is above every version recorded at any earlier time, and its binary was not there at any earlier time |
| DependencyCache.Builder.PrepareDependencies | pkg/builder/builder.go:262-349 | Outcome and new cache file of one call, over every failure; the next rows say what they are |
| DependencyCache.OutcomeExactlyWhen | pkg/builder/builder.go:262-349 | When a call skips and when it prepares, over what fails in it; otherwise it fails |
| DependencyCache.FileExactlyAfter | pkg/builder/builder.go:326-346 | The file changes exactly when a prepared call can save; it then holds the new fingerprint and, if a check was needed, the time of its end, else the old time |
| DependencyCache.CacheCountsExactlyWhen | pkg/builder/builder.go:446-462 | A file counts for a check exactly when it is readable, of format 1 and checked less than six hours before |
| DependencyCache.FailedGetIsFailed | pkg/builder/builder.go:301-306 | A needed check whose go get fails makes the call fail and leaves the file as it was |
| DependencyCache.CallStaysBacked | pkg/builder/builder.go:262-366 | A call leaves a loadable cache that says only what is on record |
| DependencyCache.CacheIsAlwaysBacked | pkg/builder/builder.go:446-491 | Over every run, with failing saves and damaged files, a loadable cache carries a fingerprint measured after a successful tidy |
| DependencyCache.SkipsAreSound | pkg/builder/builder.go:351-366 | A build skips both commands only if its inputs have such a fingerprint and the SDK is replaced or was settled under six hours before |
| DependencyCache.AskedExactlyWhen | pkg/builder/builder.go:493-523 | A call settles the SDK by asking if and only if it prepares, a check was needed, no replacement turned up and go get succeeded |
| DependencyCache.AskedOnRecordExactlyWhen | pkg/builder/builder.go:493-523 | Over a whole run, a check that was asked for is on record if and only if one of the calls was such a call |
| DependencyCache.TidiedExactlyWhen | pkg/builder/builder.go:307-325 | A fingerprint is on record as tidied by a call exactly when the call prepared and measured it after a tidy that succeeded |
| DependencyCache.UnaskedExactlyWhen | pkg/builder/builder.go:493-536 | A call records a check for which nobody asked if and only if a check was due, go.mod held no replacement at planning, go get found one, and nothing failed later |
| DependencyCache.UnaskedOnRecordExactlyWhen | pkg/builder/builder.go:493-536 | Over a whole run, such a check is on record if and only if one of the calls was such a call |
| DependencyCache.SettledMeansAsked | pkg/builder/builder.go:493-536 | So settled means asked for, while nobody edits go.mod between planning and go get |
| DependencyCache.EditDuringGetFoolsTheCache | pkg/builder/builder.go:493-536 | A concrete run in which such an edit makes the cache count as checked although nothing was asked |
| DependencyCache.PreparedThenSkips | pkg/builder/builder.go:262-366 | After a saved preparation, a build with the same inputs skips and leaves the cache alone |
| BuildTrace.Trace.Finalize | pkg/buildtrace/buildtrace.go:181-202 | The first call sets end and duration, and the status and error that the error given asks for, as the atomic step of the run model; every call returns a fresh sorted copy |
| BuildTrace.Trace.SetStoragePath | pkg/buildtrace/buildtrace.go:289-293 | Sets the path and nothing else, as the atomic step of the run model |
| BuildTrace.Trace.TakeSnapshot | pkg/buildtrace/buildtrace.go:205-212 | A fresh sorted copy; the trace is unchanged |
| BuildTrace.Trace.CloneLocked | pkg/buildtrace/buildtrace.go:295-310 | The copy is sorted by sequence number; the trace is not touched |
| BuildTrace.Span.Finish | pkg/buildtrace/buildtrace.go:150-178 | The first call sets end, duration, status and error, appends the record and is the two atomic steps of the run model on the trace and its spans; later ones do nothing |
| BuildTrace.CompactErrorMeaning | pkg/buildtrace/buildtrace.go:341-351 | The first 4000 characters of the trimmed text, and a note if that is not all |
| BuildTrace.Span.Close | pkg/buildtrace/buildtrace.go:154-163 | What comes before the mutex is the first of these steps |
| BuildTrace.Trace.Append | pkg/buildtrace/buildtrace.go:165-168 | The critical section is the second |
| BuildTrace.Span.constructor | pkg/buildtrace/buildtrace.go:122-147 | Takes the next number, as the atomic step of the run model; without a trace the span does nothing |
| BuildTrace.StepStaysConsistent | pkg/buildtrace/buildtrace.go:122-202 | Every atomic step keeps: numbers are given out once, and exactly the recorded spans are listed, once each |
| BuildTrace.RunStaysConsistent | pkg/buildtrace/buildtrace.go:122-202 | So does every interleaving |
| BuildTrace.RunIsLater | pkg/buildtrace/buildtrace.go:122-202 | Recorded spans stay as and where they are, and the first Finalize fixes the outcome |
| BuildTrace.SnapshotIsSorted | pkg/buildtrace/buildtrace.go:295-310 | A snapshot of any reachable state lists exactly the recorded spans in strictly rising order |
| BuildTrace.SnapshotsOnlyGrow | pkg/buildtrace/buildtrace.go:205-212 | A later snapshot holds every record of an earlier one |
| BuildTrace.EveryInterleaving | pkg/buildtrace/buildtrace.go:122-212 | From the start on, every interleaving is consistent and its snapshots are strictly sorted |
| BuildTrace.Slowest | pkg/buildtrace/buildtrace.go:251-269 | The requested number of spans, longest first and earlier first among equals, and none left out goes before one taken |
| BuildTrace.DurationMillis | pkg/buildtrace/buildtrace.go:353-359 | Truncated milliseconds, but at least one for any time that passed |

## Left out

Contracts that are deliberately weaker, or hold under an assumption:

- BackupRoundTrip.AcceptedRepresents: assumes that no two different files of the same name share their digest; SHA-256 itself is a parameter.
- Recovery.CmdRestore: the disk that is unpacked to and the live storage are separate models, so when a link is made outside the staging directory, where it can reach the storage root, nothing is promised about the storage; what the link does on the disk, and exactly when it is made outside, is modelled.
- Recovery.RestoreVetted: the same condition, for the same reason.
- Unpacking.Disk.ExtractBackupArchive: the destination is given by its physical path, as os.MkdirTemp makes it under a temporary directory without links.
- Restore.Storage.ExecuteProductionRestore: live trees, rollback directory and staged trees are maps from name to tree; what an instance and its services make of any name, missing directories included, is a parameter.
- Restore.Storage.RollBack: services are taken to have stopped once the stack is taken down; the code ignores the outcome of that call, and services that keep running while data is removed and put back are not modelled.
- Restore.Storage.InstallAndStart: a failed write of the configuration leaves it as it was; os.WriteFile can leave a cut file, which the undo then overwrites.
- Releases.ApplyCleanTargets: targets of one directory, by name.
- BuildTrace.Trace.CloneLocked: attribute maps are values, so that the copying of maps, as opposed to spans, is not captured.
- BackupAgent.Agent.ScheduledRun: one agent at a time; state is read and saved outside the lock, and concurrent saves can lose records.
- Access.PrincipalsForUser: keys are compared as strings; folding covers ASCII and the two letters beyond it that lower to ASCII.

Not modelled:

- The codecs: tar and gzip carry their entries unchanged, JSON is a codec that reads back what it wrote and rejects a cut object; text that is not valid UTF-8 is not part of this model.
- File modes, umask and ownership after unpacking; the verifier's comparison of recorded mode and owner is modelled.
- Changes to the files while they are being backed up: the stack is stopped and a tree is a value.
- Removal of the staging directory after a restore, the checksum file beside an archive, the list and create commands around writer and verifier, output paths.
- Compose, Podman, NATS, HTTP, SMTP and S3 calls, which succeed or fail as a parameter says.
- Daylight saving in the schedule: the calendar is a pair of arbitrary functions of time.
- YAML: the restored configuration is what an arbitrary partial function makes of the backed-up bytes.
- The fingerprint of the dependency cache is an arbitrary function of its inputs; collecting imports and reading go.mod are part of those inputs.
- Two builds that use one dependency cache at the same time.
- Writing traces to disk, trace summaries, and the context plumbing.
- Discovery of the apps below a namespace root, the clean-up of source logs and empty directories, and the printing of plans.
- Reflection in the table formatter: fields and formatted values are parameters. Markdown and HTML output escape less and cannot be read back.
- Setters, getters, DTOs, templates, flag parsing, JWT and header wrappers, the web frontend: they would add only easy members.
