# Verified models of the installer's build engine, disk editors, manifest paths and manifest protocol

This project models, in Dafny, the parts of the installation tools whose
behaviour spans many calls, and proves what every run of them keeps.

**Build engine** (`BuildArea`, `Finalizer`, `Checkpoints`, `DistroConst`,
`Queues`, `Recovery`, `Restarts`, `RecoveryLimits`). A distribution build is a
list of scripts with a snapshot of the build data taken before each. Builds can
pause, fail, be killed, and be resumed. The model has the option parsing, the
deletion of checkpoints, the clean-up of a full build, the registration of the
queue, the queue interpreter, and what each zfs command does to a dataset when it
takes effect. Scripts are functions of the build data when they succeed and may
leave anything when they fail. The main results are crash recovery over any
sequence of builds, exactly for which step names and settings of the stop flag it
holds, and when a full build really starts from nothing.

**Disk editors** (`FreeSpace`, `FreeSpaceFacts`, `Partitions`, `PartitionFacts`,
`PartitionContents`, `LogicalPartitions`, `Slices`, `SliceFacts`, `SliceRuns`,
`SliceContents`, `SliceFinalize`, `SliceOverruns`). The partition and the slice
editor keep fixed arrays that they edit in place, and find room through a sorted
table of used regions and a table of free ones, in 64-bit unsigned arithmetic. The
main results are what each call does to every entry, invariants over runs of
creations and deletions, which slices last, exactly when placement succeeds, and
exactly when slices stay apart and inside the partition.

**Manifest paths** (`Text`, `NodePath`, `NodePathFacts`, `NodePathForms`,
`NodePathBlanks`, `NodePathTheory`, `NamePaths`, `Tree`, `TreeSearch`,
`Duplicates`, `TreeFind`, `TreeOrder`, `TreePredicates`, `TreeWalks`, `TreeTokens`,
`TreeErrors`, `TreePaths`). The table-driven parser of enhanced nodepaths, with the
language it accepts written out, and the search of a tree by path, with predicates,
`..`, first-match and exhaustive mode, the attribute fallback, and the removal of
duplicates: exactly which nodes are found, in which order, and when a search ends
in an error. A node is its position in the tree, with the attribute name for
attributes.

**Manifest protocol** (`ManifestCodec`, `ManifestLink`, `ManifestProtocol`,
`ManifestShortReads`). Client and server as a state machine over two byte
channels, with the encoding of requests and replies, the reassembly of a reply
from any chunks, and what becomes of a request that is sent or read in part.

**Two small algorithms**: the quote and escape tokenizer (`SpaceParse`, and what it
reads every input as in `QuotedInput`) and the search for an unused user id
(`UidSearch`). `Decimal` and `Wrappers` are shared.

Where the program changes state step by step, the model does too: classes with
the program's tables as fields or arrays, and methods with its loops. Each such
method is proved equal to a function of the old state (`Created`, `Search`,
`Run`, `Table` and so on), and the lemmas are about these functions.

## What comes from outside

- zfs, shells and the scripts: an `Event` for each program run says its exit
  status, whether its zfs command took effect, and what a failing script left.
- The manifest: the script list, checkpoint names, resume step and
  stop-on-error flag are parameters; so is the server's lookup of values.
- The clean-up: an `Answer` for each of its zfs commands says its exit status and
  whether it took effect; whether listing @empty worked and whether dataset and
  directories could be made again are parameters too.
- Disk and cylinder sizes are parameters of the two editors.
- Sockets: a send or a read of a request takes any non-empty part of it, and a
  read of the reply returns any non-empty part of it. The other messages, of 1, 8
  or a few more characters, are sent and read in one piece.

## Assumptions of the main results

- `CrashRecovery` and what it rests on: stop-on-error is on or there is at most
  one script, and no step with a script shares its name with a later step
  (`RecoversIff`: both are needed); the manifest stays the same, and of each build
  the rollback to its resume step, or the zfs command that empties the area, takes
  effect or fails noticeably (`RightDataExactlyWhenRolledBack`,
  `FailureBreaksRecovery`, `RepeatBreaksRecovery` and
  `SilentFailureSpoilsFullBuilds` say what happens otherwise). `BuildIsAttempt`
  ties these builds to the program's `Build`.
- `RunKeepsLayoutIff` and `AutomaticRunKeepsLayoutIff` start from primary
  partitions that are apart, inside the disk and counted as used; no partition at
  all is one such start.
- Runs of the slice editor: the partition and the cylinder are not empty and the
  partition has fewer than 2^64 sectors. `CreateOutcome` and one half of
  `FinalizeTrueIff` ask that the slices end at sectors below 2^64;
  `WrappedEndOverlaps` shows that this is needed. A slice may well reach past the
  partition, which nothing checks: see `OverrunGoesUnnoticed`.
- `FirstLogical`, `SecondLogical` and `SecondLogicalRightIff`: the extended partition
  and the request end below sector 2^64, unused entries have no size in megabytes, and
  an entry is left; for the second one, that the first was placed behind the padding.
- `PathRoundTrip`: the names on the path hold none of the parser's special
  characters and no outer white space, and none is `..`.
- `ManifestProtocol`: requests of 1 to 999999 characters, and a count and size
  message of at most 1024 characters. `RunsComplete` and `RepliesExact` are about
  runs in which requests are sent and read in one piece, which is exactly when
  the parties stay in step (`InStepIffWhole`); `AlwaysInStepIff` says for which
  requests that is certain.

## Where the code and its documentation disagree

The model follows the code.

- `execute` is documented to return an errno or a negative signal number; it
  returns 1 for every failure (usr/src/lib/install_utils/finalizer.py:404-481).
- A resume step 0 in the manifest is taken for none
  (usr/src/cmd/distro_const/distro_const.py:160-167).
- `parse_command_line` is documented to remove the checkpoint resumed from; it
  keeps it (usr/src/cmd/distro_const/distro_const.py:282-287).
- Nothing checks that checkpoint names differ.
- A full build is documented to start from an empty area; a zfs command that fails
  with a status other than -1 is not noticed, and @empty may then be taken of old
  data (usr/src/cmd/distro_const/distro_const.py:375-427).
- The default pause step is 9999, so a step of that number would pause.
- The comment above `space_parse` says blanks separate words in `abc def`; the
  text before it and the code say they do not.
- Nodepaths are documented to split at slashes outside brackets only; after a
  value a slash ends the token even while the bracket is open
  (usr/src/lib/install_utils/ENParser.py:321).
- Matching predicates is documented to raise nothing; it raises an error for a path
  in a predicate that starts with a slash (usr/src/lib/install_utils/TreeAcc.py:892).
- The slice search accepts a region up to one cylinder too small, even when a
  large enough one is free. A slice that reaches past the partition makes almost
  2^64 sectors seem free behind it, and finalizing does not notice.
- The protocol takes one send and one read to carry a whole request; either may
  carry less (usr/src/lib/install_utils/ManifestRead.py:178).
- For logical partitions the free-space table takes offsets for sizes: the first gap
  has its end for its size, and sectors after the last one are counted up to the
  sector whose number is the size of the extended partition
  (usr/src/lib/liborchestrator/disk_parts.c:2281-2350).
- An explicitly placed partition is checked for overlaps before its entry has its
  size.
- A partition of less than one megabyte does not count as used, so the same
  request made again is given the same sectors
  (usr/src/lib/liborchestrator/disk_parts.c:2236-2262).

## Model

| member | source | states |
|---|---|---|
| `Finalizer.DCFinalizer.ChangeExecParams` | usr/src/lib/install_utils/finalizer.py:299-362 | Refused exactly when a logger is given together with a file for output or errors; otherwise appends one execution-parameter item. The flag in force while queueing does not change. |
| `Finalizer.DCFinalizer.Register` | usr/src/lib/install_utils/finalizer.py:364-402 | Queues the program exactly when its file is named and executable, and reports which. |
| `Finalizer.DCFinalizer.ProcessShell` | usr/src/lib/install_utils/finalizer.py:404-481 | Runs one program; whatever exit status or signal ends it is reported as 1. |
| `Finalizer.DCFinalizer.Execute` | usr/src/lib/install_utils/finalizer.py:483-542 | The loop computes status, flag and build area of the queue interpreter `Run`, and leaves the queue as it was. |
| `Finalizer.ExecuteStopsAtFirstGuardedFailure` | usr/src/lib/install_utils/finalizer.py:504-542 | For every queue: exactly the programs up to and including the first that fails while the stop flag is set are run, none after it; the status is success exactly when none of those failed. |
| `Finalizer.RunsThrough` | usr/src/lib/install_utils/finalizer.py:504-542 | With no guarded failure everything runs, the flag is the last one queued, and a failure with the flag off still makes the status 1. |
| `Checkpoints.Checkpoints.StepSetup` | usr/src/cmd/distro_const/dc_checkpoint.py:243-257 | Adds a step numbered by the running counter, so number and index agree. |
| `Checkpoints.Checkpoints.CheckpointSetup` | usr/src/cmd/distro_const/dc_checkpoint.py:758-790 | Succeeds exactly when the manifest names a checkpoint for every listed script, and then makes one step each, in order. |
| `Checkpoints.Checkpoints.DetermineResumeStep` | usr/src/cmd/distro_const/dc_checkpoint.py:385-415 | The last step such that it and all steps before it have a snapshot, -1 if the first has none. |
| `Checkpoints.Checkpoints.VerifyResumeStep` | usr/src/cmd/distro_const/dc_checkpoint.py:418-474 | Accepts a step exactly when all steps up to it have snapshots and the listing shows them first and in step order; ends with an index error exactly when they have snapshots, the listing agrees but is too short; refuses the rest with a message. |
| `RecoveryLimits.IndexErrorNeedsRepeat` | usr/src/cmd/distro_const/dc_checkpoint.py:455-472 | That index error needs two steps with one name. |
| `Checkpoints.Checkpoints.QueueUpStep` | usr/src/cmd/distro_const/dc_checkpoint.py:601-668 | One script of the manifest: which driver and script it registers before, at and after the resume step and at the pause step, and when registration ends. |
| `Checkpoints.Checkpoints.AddFinalizerScripts` | usr/src/cmd/distro_const/dc_checkpoint.py:569-677 | Success if and only if every program of the intended queue can be registered, and then exactly that queue is registered. |
| `Queues.QueueShape` | usr/src/cmd/distro_const/dc_checkpoint.py:601-677 | That queue is: rollback and script at the resume step, checkpoint/script pairs up to the pause step or the end, and the checkpoint of the pause step alone. |
| `Queues.PlainQueueShape` | usr/src/cmd/distro_const/dc_checkpoint.py:601-615 | Without checkpointing it is the scripts alone. |
| `Queues.QueueRegistrableIff` | usr/src/cmd/distro_const/dc_checkpoint.py:569-677 | It can be registered if and only if every script from the resume step up to the pause step is named and executable, and so are the two driver scripts, each as far as it is used. |
| `Checkpoints.NonBlankIs` | usr/src/cmd/distro_const/dc_checkpoint.py:601-603 | The scripts registered are those listed without the blank ones. |
| `DistroConst.StepFromName` | usr/src/cmd/distro_const/dc_checkpoint.py:326-356 | The first step with this name, else the step with this number; none exactly when there is neither. |
| `DistroConst.ReadOption` | usr/src/cmd/distro_const/distro_const.py:170-225 | One option: accepted exactly when checkpointing is available, the option is not repeated and its step exists; what it sets. |
| `DistroConst.ReadOptions` | usr/src/cmd/distro_const/distro_const.py:170-225 | The loop accepts exactly the option lists all of whose options are accepted in turn, and what flags and steps it ends with. |
| `DistroConst.ParseCommandLine` | usr/src/cmd/distro_const/distro_const.py:131-297 | The build proceeds if and only if the options are acceptable for some resume and pause step; these are then the ones set, and exactly the checkpoints of later steps are deleted (those whose destroy command works). It only lists the steps if and only if -l was given and checkpointing is available with nothing refused. Otherwise nothing changes. |
| `DistroConst.ChosenUnique` | usr/src/cmd/distro_const/distro_const.py:156-225 | The options and the manifest determine the resume step. |
| `DistroConst.CleanupBuildDataArea` | usr/src/cmd/distro_const/distro_const.py:345-441 | The two branches with and without a visible @empty, and the one without zfs: what is then in the area and in @empty, and that only a status of -1 of a zfs command, or a failed recreation, makes it fail. |
| `DistroConst.Build` | usr/src/cmd/distro_const/distro_const.py:447-593 | A whole build: refused with nothing changed (with status 0 exactly when it was asked to list the steps), ended with status 1 after a clean-up that failed noticeably, or registration and execution of the queue on the prepared area. |
| `Recovery.HistoryKeepsSnapshots` | usr/src/cmd/distro_const/dc_checkpoint.py:569-677 | After any sequence of builds, paused, failed, or cut short during deletion, clean-up or execution, each with the stop flag on or with at most one script, every snapshot holds the result of exactly the scripts before its step, creation order follows step order, and @empty holds nothing. |
| `Recovery.CrashRecovery` | usr/src/cmd/distro_const/dc_checkpoint.py:569-677 | After any such sequence, a build, resumed or not, that completes leaves exactly the data of an uninterrupted build of an empty area. |
| `RecoveryLimits.RecoversIff` | usr/src/cmd/distro_const/dc_checkpoint.py:594-599 | For a list of steps and scripts and a setting of the stop flag this holds, for all scripts and histories, if and only if no step with a script shares its checkpoint name with a later step, and the flag is on or there is at most one script. |
| `Recovery.BuildIsAttempt` | usr/src/cmd/distro_const/distro_const.py:507-593 | A call that proceeds, with checkpointing and whatever the stop-on-error setting, is an admitted build of such a sequence and leaves the area the sequence says; it reports success exactly when it completes. |
| `Recovery.ResumableExactlyUpToLatest` | usr/src/cmd/distro_const/dc_checkpoint.py:385-474 | In every reachable area a step is accepted for resuming if and only if it is between 0 and the latest resumable step. |
| `Restarts.StoppedBuildResumesWhereItStopped` | usr/src/cmd/distro_const/dc_checkpoint.py:601-677 | After any history, a build, itself resumed or not, that pauses before script j, or with the stop flag on fails at it, can be resumed at j and no later, provided every driver script it runs on the way worked. |
| `RecoveryLimits.ResumeSnapshotSurvives` | usr/src/cmd/distro_const/distro_const.py:282-291 | Deleting later checkpoints leaves the resume snapshot exactly when no later step whose checkpoint is destroyed has the same name. |
| `RecoveryLimits.RightDataExactlyWhenRolledBack` | usr/src/cmd/distro_const/finalizer_rollback.py:67-72 | The resumed script starts from the right data exactly when the rollback worked or nothing had changed since the snapshot; a failed rollback is not noticed. |
| `RecoveryLimits.FailureBreaksRecovery` | usr/src/cmd/distro_const/dc_checkpoint.py:594-599 | For every list of two or more scripts and the flag off: a full build whose first script fails, then a flawless build resumed at step 1, which is admitted and completes but leaves what the failed script left instead of the data of a full build. |
| `RecoveryLimits.RepeatBreaksRecovery` | usr/src/cmd/distro_const/dc_checkpoint.py:758-790 | For every list with a repeated name: a flawless build, resumed flawlessly at the first such step, is admitted and completes and leaves other data than a full build. |
| `RecoveryLimits.FullBuildStartsEmptyIff` | usr/src/cmd/distro_const/distro_const.py:370-427 | Exactly when a full build starts from an empty area: after a rollback that took effect, if @empty is empty; after a destruction that did, always; otherwise only if nothing was there. |
| `RecoveryLimits.EmptySnapshotFixed` | usr/src/cmd/distro_const/distro_const.py:370-384 | While listing works, no sequence of builds changes what @empty holds. |
| `RecoveryLimits.SilentFailureSpoilsFullBuilds` | usr/src/cmd/distro_const/distro_const.py:393-427 | A destroy that fails unnoticed leaves the old data in @empty, and every later full build that rolls back successfully starts from it. |
| `FreeSpace.FreeSpaceTables.InsertUsed` | usr/src/lib/liborchestrator/disk_slices.c:1100-1118 | In-place insertion keeps the used table the insertion-sorted list. |
| `FreeSpace.FreeSpaceTables.BuildFree` | usr/src/lib/liborchestrator/disk_slices.c:1144-1184 | The loop over the sorted table computes `Table`: verdict and free regions, in unsigned arithmetic. |
| `FreeSpace.FreeSpaceTables.FindBestFit` | usr/src/lib/liborchestrator/disk_parts.c:2407-2440 | Computes `BestFit`. |
| `FreeSpace.FreeSpaceTables.FindLargest` | usr/src/lib/liborchestrator/disk_parts.c:2382-2404 | Computes `Largest`. |
| `FreeSpace.SortSorts` | usr/src/lib/liborchestrator/disk_slices.c:1100-1142 | The used table ends up sorted by offset ... |
| `FreeSpace.SortKeepsAll` | usr/src/lib/liborchestrator/disk_slices.c:1100-1142 | ... and holds exactly the used regions. |
| `FreeSpaceFacts.TableTrueIffDisjoint` | usr/src/lib/liborchestrator/disk_slices.c:1144-1184 | For used regions whose ends fit an unsigned number the table is made without complaint exactly when no two of them overlap. |
| `FreeSpaceFacts.FreeTableIsComplement` | usr/src/lib/liborchestrator/disk_slices.c:1144-1184 | Its regions are then exactly the unused sectors, sorted, non-empty, not adjacent, and used plus free is everything, up to the end of the disk, or up to 2^64 sectors beyond it once a used region reaches past the end. |
| `FreeSpaceFacts.FreeTableInsideIffUsedInside` | usr/src/lib/liborchestrator/disk_parts.c:2350 | The free table stays within the disk if and only if the used regions do: beyond that the last subtraction wraps around. |
| `FreeSpaceFacts.LogicalTailRightIffAtZero` | usr/src/lib/liborchestrator/disk_parts.c:2327-2350 | For logical partitions the sectors counted after the last one are right exactly when the extended partition starts at sector 0. |
| `FreeSpaceFacts.LogicalTable` | usr/src/lib/liborchestrator/disk_parts.c:2281-2354 | The table for logical partitions, region by region: with none the whole extended one; else the gap before the first, beyond the padding and with its end for its size, the gaps between them, and what is counted after the last. |
| `FreeSpaceFacts.RegionIffVacantRun` | usr/src/lib/liborchestrator/disk_parts.c:2407-2440 | A region of at least n sectors is in the table exactly when n contiguous sectors are free somewhere. |
| `FreeSpaceFacts.BestFitIsTight` | usr/src/lib/liborchestrator/disk_parts.c:2407-2440 | The region found is no larger than any that exceeds the request; one of exactly the requested size is taken exactly when it is the first that fits. |
| `FreeSpaceFacts.LargestIsLargest` | usr/src/lib/liborchestrator/disk_parts.c:2382-2404 | The first of the largest regions. |
| `Partitions.PartitionEditor.CreatePartition` | usr/src/lib/liborchestrator/disk_parts.c:1389-1580 | Creates a partition in the table in place, as `Created` says: clash, slot, extended partition, placement, overlap check, entry. |
| `Partitions.PartitionEditor.DeletePartition` | usr/src/lib/liborchestrator/disk_parts.c:1585-1657 | Deletes in place, as `Deleted` says, and invalidates the slice information exactly when a Solaris partition goes. |
| `PartitionContents.DeleteByNumber` | usr/src/lib/liborchestrator/disk_parts.c:1597-1624 | For every table of the shape runs keep: deleting by number succeeds and clears exactly the entry with that number if it is in use, with an extended one also every logical entry, and leaves every other entry; without such a partition nothing changes. |
| `PartitionContents.DeleteByLocation` | usr/src/lib/liborchestrator/disk_parts.c:1625-1656 | Deleting by location succeeds if and only if there is an entry at that offset (of that size unless 0), and clears the first such one in the same way; otherwise nothing changes. |
| `PartitionContents.CreateAdds` | usr/src/lib/liborchestrator/disk_parts.c:1389-1580 | For every request: on success exactly the first unused entry changes, and has its number, the kind and size asked for and the place asked for; a taken offset, an unknown kind or a second extended partition never succeeds; and no entry in use is ever touched. |
| `PartitionContents.RefusedLeavesOffset` | usr/src/lib/liborchestrator/disk_parts.c:1511-1555 | A request for a kind fdisk does not know fails, but leaves its offset in the unused entry. |
| `PartitionContents.PlacedTightly` | usr/src/lib/liborchestrator/disk_parts.c:1449-1535 | Said of sectors: automatic placement takes the beginning of a run of free sectors, for the largest size a longest run, and for n sectors one no longer than any run of more than n. |
| `LogicalPartitions.FirstLogical` | usr/src/lib/liborchestrator/disk_parts.c:1449-1535 | The first logical partition: granted exactly when the size and the padding fit into the extended one, and placed right behind the padding. |
| `LogicalPartitions.SecondLogical` | usr/src/lib/liborchestrator/disk_parts.c:2273-2354 | The second one goes behind the first, with the padding between, but is granted by the sectors the table counts there. |
| `LogicalPartitions.SecondLogicalRightIff` | usr/src/lib/liborchestrator/disk_parts.c:2281-2354 | For every size it is granted exactly when it fits, if and only if the extended partition starts at sector 0, or the first one ends at a sector not beyond the size of the extended one and leaves no room anyway. |
| `Partitions.PartitionEditor.BuildFreeSpaceTable` | usr/src/lib/liborchestrator/disk_parts.c:2273-2354 | Free-space table of the primary or of the logical partitions. |
| `PartitionFacts.RunKeepsShape` | usr/src/lib/liborchestrator/disk_parts.c:1412-1448 | Over every run of creations and deletions of any kind, from any table of this shape: entry i has number i + 1, at most one partition is extended and it is primary, logical partitions exist only while it does. |
| `PartitionFacts.RunKeepsLayoutIff` | usr/src/lib/liborchestrator/disk_parts.c:1389-1657 | Over every run of creations and deletions of any kind and size, on a disk with or without partitions: the primary ones are apart, inside the disk and counted as used at every step if and only if each new one is put in free space and is not too small to be counted. |
| `PartitionFacts.AutomaticRunKeepsLayoutIff` | usr/src/lib/liborchestrator/disk_parts.c:1389-1657 | Over every run of automatic primary creations of any size, the largest included, and of deletions, on a disk of fewer than 2^32 megabytes, the same holds at every step if and only if no partition granted is smaller than one megabyte. |
| `PartitionFacts.RepeatedRequestOverlaps` | usr/src/lib/liborchestrator/disk_parts.c:1449-1580 | An automatic request for less than one megabyte, made twice where there is room and a second entry, is granted the same sectors both times. |
| `PartitionFacts.CreateAnywhere` | usr/src/lib/liborchestrator/disk_parts.c:1449-1580 | Automatic placement, for any size or the largest, succeeds if and only if that many contiguous free sectors exist, and then takes free sectors; on failure nothing changes; the layout is kept exactly when the megabytes of the partition are counted as not 0. |
| `PartitionFacts.CreateAtKeepsLayoutIff` | usr/src/lib/liborchestrator/disk_parts.c:1557-1563 | A partition of any size at a given offset is always made; the layout is kept exactly when the caller chose free space and enough of it, since the overlap check runs before the entry has its size. |
| `Slices.SliceEditor.PreserveSlice` | usr/src/lib/liborchestrator/disk_slices.c:301-310 | Sets the flag of a slice number in place. |
| `SliceContents.PreserveRecords` | usr/src/lib/liborchestrator/disk_slices.c:301-310 | That flag and nothing else, for exactly the numbers below 16. |
| `SliceContents.PreservedSliceSurvives` | usr/src/lib/liborchestrator/disk_slices.c:301-310 | Over every run: a slice that is there when a call preserves its number keeps number, offset, size and tag at every later step until an invalidation. |
| `Slices.SliceEditor.RemoveSliceFromTable` | usr/src/lib/liborchestrator/disk_slices.c:1034-1055 | Shifts the entries after the first one with this number down in place; true exactly when there was one. |
| `Slices.SliceEditor.CreateSlice` | usr/src/lib/liborchestrator/disk_slices.c:413-534 | Creates or overwrites a slice in place, as `Created` says. |
| `Slices.SliceEditor.DeleteSlice` | usr/src/lib/liborchestrator/disk_slices.c:541-563 | Deletes a slice unless it is reserved or preserved. |
| `SliceContents.DeleteRecords` | usr/src/lib/liborchestrator/disk_slices.c:541-563 | Fails exactly for reserved and preserved numbers; otherwise exactly the slice of that number is gone, which is recorded if it was there, and no other flag changes. |
| `SliceContents.CreateRecords` | usr/src/lib/liborchestrator/disk_slices.c:504-531 | A creation that may go ahead adds exactly the slice asked for, in place of one of its number, with the size asked for and the tag if it is Root or Swap, and records it as new, as replaced and as the install slice where that is so; without room the replaced slice is gone. |
| `SliceContents.NewSliceSurvives` | usr/src/lib/liborchestrator/disk_slices.c:585-621 | Over every run: a slice recorded as new stays as it is through every call, finalizing beside preserved ones included, until it is itself deleted or overwritten or slice information is invalidated. |
| `SliceContents.RefreshedIs` | usr/src/lib/liborchestrator/disk_slices.c:1422-1437 | After an invalidation the next call finds no slice, and keeps the flags. |
| `SliceContents.PartitionSizeIs` | usr/src/lib/liborchestrator/disk_slices.c:1257-1281 | Slice 2, if there is one, gives the size of the partition. |
| `Slices.SliceEditor.FinalizeVtoc` | usr/src/lib/liborchestrator/disk_slices.c:571-674 | Drops what is neither preserved nor new, makes the install slice if needed, and reports overlaps. |
| `SliceContents.FinalizeRecords` | usr/src/lib/liborchestrator/disk_slices.c:571-674 | Finalizing marks the install slice it is given, changes no other flag of another slice but that of deletion, and refuses a number from 16 on. |
| `SliceFacts.UsedSpaceFitsTable` | usr/src/lib/liborchestrator/disk_slices.c:1186-1195 | At most 13 slices count, because their numbers differ, so the free table of 16 entries never drops a region. |
| `SliceFacts.UnusedIdLeavesEntry` | usr/src/lib/liborchestrator/disk_slices.c:478-485 | While some slice number is unused there is an empty entry, so creation never fails for lack of one. |
| `SliceFacts.CreateOutcome` | usr/src/lib/liborchestrator/disk_slices.c:413-534 | Among any slices that do not overlap: creation succeeds exactly when a free run of the needed length exists before the end the free table assumes (2^64 sectors too far once a slice reaches past the partition); the slice starts at the start of a maximal free run and passes its end by at most one cylinder; all slices are in order afterwards exactly when it does not and the others end within the partition. On failure the slice to be overwritten is gone. |
| `SliceRuns.ShortRegionIffMisled` | usr/src/lib/liborchestrator/disk_slices.c:1225-1251 | A region smaller than the request is taken exactly when some region is between the lenient and the requested size, or the first that fits is of the lenient size. |
| `SliceRuns.CreateKeepsOrderIff` | usr/src/lib/liborchestrator/disk_slices.c:413-534 | After a successful creation, whatever the slices were, all are inside and apart exactly when the others were and the search was not misled by the leniency. |
| `SliceOverruns.LenientSearchOverruns` | usr/src/lib/liborchestrator/disk_slices.c:1235-1237 | An editor state in which a region up to a cylinder too small is taken, and the slice behind it overlapped, although another region has room for all of the request ... |
| `SliceOverruns.GapBefore` | usr/src/lib/liborchestrator/disk_slices.c:413-563 | ... and how two creations and a deletion lead to such states from an empty table. |
| `SliceOverruns.OverrunGoesUnnoticed` | usr/src/lib/liborchestrator/disk_slices.c:1176-1182 | From an empty table: a first slice up to a cylinder larger than the partition is granted, and after it a second of any size up to almost 2^64 sectors. |
| `SliceOverruns.OverrunIsFinalized` | usr/src/lib/liborchestrator/disk_slices.c:634-662 | After the same first slice finalizing succeeds, with an install slice of almost 2^64 sectors outside the partition. |
| `SliceOverruns.WrappedEndOverlaps` | usr/src/lib/liborchestrator/disk_slices.c:1165-1182 | A second slice whose end wraps around makes a third overlap the first. |
| `SliceRuns.RunKeepsTidy` | usr/src/lib/liborchestrator/disk_slices.c:413-674 | Over every run of create, overwrite, delete, preserve, finalize and invalidation, live entries come first and have different numbers. |
| `SliceRuns.ProtectedSliceSurvives` | usr/src/lib/liborchestrator/disk_slices.c:443-446 | A preserved or reserved slice keeps number, offset, size and tag, and stays preserved, through every run without an invalidation. |
| `SliceRuns.RunKeepsOrderIff` | usr/src/lib/liborchestrator/disk_slices.c:413-674 | Over every run, slices are inside the partition and apart at every step if and only if no search is misled. |
| `SliceFinalize.KeptLive` | usr/src/lib/liborchestrator/disk_slices.c:585-621 | With some slice preserved, exactly the reserved, preserved and new slices survive finalizing. |
| `SliceFinalize.FinalizeTrueIff` | usr/src/lib/liborchestrator/disk_slices.c:571-674 | Said of the slices to be written: if their ends fit an unsigned number, finalizing succeeds if and only if they do not overlap and the install slice exists, is implied, or can be made; on success nothing in the result whose ends fit overlaps; and the result lies within the partition exactly when the slices to be written do, which nothing checks. |
| `NodePath.ParseNodepath` | usr/src/lib/install_utils/ENParser.py:429-597 | The character loop computes `Parse`, the table-driven reading of the stripped path. |
| `NodePathForms.ParsesIff` | usr/src/lib/install_utils/ENParser.py:294-361 | For every input: it is read as these tokens if and only if, white space at its ends aside, it can be written as such tokens, each a name with a value of its own and clauses of valpath and value in brackets, values bare or in either kind of quotes, with any slashes after it, every quote and bracket closed. |
| `NodePathForms.MismatchIff` | usr/src/lib/install_utils/ENParser.py:563-583 | Refused for a quote exactly when it can be written with the last quote open, and for a bracket when it can with only a bracket open. |
| `NodePathForms.RefusedIff` | usr/src/lib/install_utils/ENParser.py:480-560 | Refused for a starting slash exactly when it starts with one, and for a bracket out of order exactly when a closing one follows a value with none open. |
| `NodePathBlanks.SpelledParsesIff` | usr/src/lib/install_utils/ENParser.py:429-597 | Tokens written in any of these ways, bare and quoted values mixed, are read back exactly if and only if the text has no white space at its ends. |
| `NodePathTheory.AcceptedRegular` | usr/src/lib/install_utils/ENParser.py:480-594 | In every accepted token the name is plain, valpaths are paths of names, and there is a value for each valpath and at most one more. |
| `NodePathTheory.RunSound` | usr/src/lib/install_utils/ENParser.py:294-361 | What holds in each state of the table, for every input; the two quote flags are never both on. |
| `NodePathTheory.ValpathReparses` | usr/src/lib/install_utils/TreeAcc.py:904 | A valpath of an accepted token is refused exactly when it starts with a slash after blanks, and otherwise has no predicates of its own. |
| `NodePathTheory.Concatenation` | usr/src/lib/install_utils/ENParser.py:480-594 | Parsing two accepted paths joined by any number of slashes gives their tokens one after the other, unless the first ends in an equals sign: then it is refused. |
| `TreeSearch.TreeAcc.SearchNode` | usr/src/lib/install_utils/TreeAcc.py:700-802 | The recursive search appends to the list of found nodes what `Search` says; terminates on every tree. |
| `TreeSearch.TreeAcc.DoDots` | usr/src/lib/install_utils/TreeAcc.py:957-1025 | Eats leading `..`, and appends the node arrived at when the path is used up. |
| `TreeSearch.TreeAcc.MatchNode` | usr/src/lib/install_utils/TreeAcc.py:806-870 | Name, value and predicates of one token against one node. |
| `TreeSearch.TreeAcc.IsBracketMatch` | usr/src/lib/install_utils/TreeAcc.py:874-953 | The loop over valpaths, which goes on from where `..` of an earlier valpath led. |
| `TreeFind.FindNode` | usr/src/lib/install_utils/TreeAcc.py:530-696 | find_node from the root or from a node: parsing, implied root, leading dots, search, duplicate removal. |
| `TreeFind.PathToParent` | usr/src/lib/install_utils/TreeAcc.py:267-303 | Walks up and builds the path string of a node. |
| `Duplicates.RemoveDuplicates` | usr/src/lib/install_utils/TreeAcc.py:680-694 | The backward in-place removal leaves `KeepLast` of the list, and its index strictly decreases. |
| `Duplicates.KeepLastOnce` | usr/src/lib/install_utils/TreeAcc.py:680-694 | Each node found is left exactly once. |
| `Duplicates.KeepLastInOrder` | usr/src/lib/install_utils/TreeAcc.py:680-694 | What is left are the last occurrences, in their order. |
| `TreeOrder.FindsOnce` | usr/src/lib/install_utils/TreeAcc.py:570-696 | Whatever path and start, no node is returned twice. |
| `TreeOrder.SearchInOrder` | usr/src/lib/install_utils/TreeAcc.py:700-802 | A search without `..` returns nodes in document order, all from the node it started at. |
| `TreePaths.FindByNames` | usr/src/lib/install_utils/TreeAcc.py:570-802 | A path of names not starting with the root's own finds exactly the nodes with these names in document order, attributes only where the owner has no child of that name. |
| `TreeWalks.FindsExactly` | usr/src/lib/install_utils/TreeAcc.py:530-802 | Whatever path and starting node: unless it raises an error the search finds exactly the nodes its tokens lead to, `..` to the element above wherever it stands, any other token to a child that fits it, and the last one, when no child fits, to an attribute that does; the first must fit the root unless it has another name. |
| `TreeTokens.FindByTokens` | usr/src/lib/install_utils/TreeAcc.py:570-870 | A path without `..`, with any values and predicates, that raises no error finds exactly the nodes as many levels down as it has tokens all of whose ancestors fit theirs, in document order; attributes only where no child fits the last token. |
| `TreeTokens.FindFromNode` | usr/src/lib/install_utils/TreeAcc.py:639-662 | From a node, by a path with k leading `..` and none later: exactly the nodes denoted by the other tokens from the element k levels up, the root at most, in document order. |
| `TreeTokens.FindAbove` | usr/src/lib/install_utils/TreeAcc.py:639-655 | The empty path finds the starting node itself, and only `..` the element so many levels up. |
| `TreeErrors.FindFailsIff` | usr/src/lib/install_utils/TreeAcc.py:874-953 | Whatever path and starting node: finding raises an error if and only if the path cannot be read or, on a way whose elements fit their tokens, there is a node with the name of the next token one of whose predicates has a path that starts with a slash, white space aside, while the predicates before it hold. |
| `TreeErrors.BareNeverFails` | usr/src/lib/install_utils/TreeAcc.py:700-802 | So a path without predicates never raises one. |
| `TreePaths.NodePathIsNames` | usr/src/lib/install_utils/TreeAcc.py:267-303 | The path of a node is its names from below the root, joined by slashes. |
| `TreePaths.PathRoundTrip` | usr/src/lib/install_utils/TreeAcc.py:267-303 | Searching for the path of a node finds the node if and only if the path does not start with the root's own name and no child hides the attribute. |
| `TreePredicates.FirstBelow` | usr/src/lib/install_utils/TreeAcc.py:700-802 | A first-match search returns one node with the value if the path leads to one, counting attributes beside children, and nothing otherwise. |
| `TreeWalks.FirstMatchSucceeds` | usr/src/lib/install_utils/TreeAcc.py:700-802 | It succeeds whenever an exhaustive search from the same node finds a node with the value. |
| `TreePredicates.MatchesIff` | usr/src/lib/install_utils/TreeAcc.py:806-870 | For every node and token: it fits if and only if it has the name and either no value is asked, or there are no predicates and its value is the one asked, or all predicates hold. |
| `TreePredicates.BracketMatchIff` | usr/src/lib/install_utils/TreeAcc.py:874-953 | A node satisfies its predicates exactly when each valpath leads to its value from where the leading `..` of the earlier ones led. |
| `TreePredicates.PredicatesIndependent` | usr/src/lib/install_utils/TreeAcc.py:874-953 | Without leading `..` that is each predicate on its own, whatever the order. |
| `TreePredicates.PredicateOrderMatters` | usr/src/lib/install_utils/TreeAcc.py:910-912 | With it the order matters: the same two predicates hold in one order and not in the other. |
| `ManifestCodec.EncodeResults` | usr/src/lib/install_utils/ManifestServ.py:742-753 | The server's loop builds the encoded reply. |
| `ManifestCodec.DecodeResults` | usr/src/lib/install_utils/ManifestRead.py:213-237 | The client's loop decodes the pieces of a reply, or fails on an empty piece. |
| `ManifestCodec.DecodeIff` | usr/src/lib/install_utils/ManifestRead.py:216-237 | For every count and text: decoding succeeds if and only if there are more pieces than values to take and none of those taken is empty; marked pieces are empty values and the others are themselves. |
| `ManifestCodec.EncodedPieces` | usr/src/lib/install_utils/ManifestServ.py:742-753 | For values without the separator the reply splits into these, empty ones marked, and the completion mark. |
| `ManifestCodec.DecodeEncodeIff` | usr/src/lib/install_utils/ManifestRead.py:207-237 | The client gets the server's list back if and only if no value contains the separator or starts with the mark for empty values. |
| `ManifestCodec.PreRequestIff` | usr/src/lib/install_utils/ManifestRead.py:143-151 | The server reads the size the client meant, in 8 bytes, exactly for requests of at most 999999 characters. |
| `ManifestCodec.ParamsRoundTrip` | usr/src/lib/install_utils/ManifestServ.py:755-756 | Count and size get across. |
| `ManifestLink.ReceiveResults` | usr/src/lib/install_utils/ManifestRead.py:207-212 | The receive loop puts the reply together however it is split into non-empty chunks. |
| `ManifestLink.ReceiveReply` | usr/src/lib/install_utils/ManifestRead.py:207-237 | Receiving and decoding gives the server's list exactly when the protocol can carry it. |
| `ManifestProtocol.StepKeepsInvIff` | usr/src/lib/install_utils/SocketServProtocol.py:76-90 | A step of either party keeps both in step, with what is then in the two channels, if and only if it does not send or read a request in part only. |
| `ManifestProtocol.InStepIffWhole` | usr/src/lib/install_utils/ManifestServ.py:690-770 | Over every run the parties are in step throughout if and only if every request is sent and read in one piece. |
| `ManifestShortReads.AlwaysInStepIff` | usr/src/lib/install_utils/ManifestRead.py:176-181 | For a list of requests, client and server stay in step in every run, whatever is sent and read at a time, if and only if every request the client comes to is a single character. |
| `ManifestShortReads.FailingRun` | usr/src/lib/install_utils/ManifestServ.py:716-764 | For every first request of at least two characters: a run in which the server reads only part of it, takes the next character for the acknowledgement, and gives up. |
| `ManifestShortReads.ShortSendAsksAnother` | usr/src/lib/install_utils/ManifestRead.py:176-181 | A request sent in part is answered like the shorter request, and client and server go on in step. |
| `ManifestProtocol.Turns` | usr/src/lib/install_utils/ManifestServ.py:690-770 | Until the link has ended one party can move; both can only right after an empty reply. |
| `ManifestProtocol.RunsComplete` | usr/src/lib/install_utils/ManifestServ.py:690-770 | Every run with requests in one piece is bounded, cannot stop before the link has ended, and answers the requests in order. |
| `ManifestProtocol.RepliesExact` | usr/src/lib/install_utils/ManifestRead.py:141-237 | If moreover the protocol can carry all values, the client gets exactly the server's lists. |
| `SpaceParse.ParseWords` | usr/src/lib/install_utils/install_utils.py:141-229 | The character loop computes `Parse`. |
| `SpaceParse.NeverBothQuotes` | usr/src/lib/install_utils/install_utils.py:172-214 | At no point are both quote flags on. |
| `QuotedInput.ParsesIff` | usr/src/lib/install_utils/install_utils.py:141-229 | For every input: the words are those of unquoted and quoted text in turn, each quoted part ending a word together with the text before it; in either kind of quotes the other kind stands for itself, and a backslash goes only before a quote. |
| `QuotedInput.RefusedIff` | usr/src/lib/install_utils/install_utils.py:215-218 | Refused exactly when a quote is never closed. |
| `SpaceParse.QuotedRoundTripIff` | usr/src/lib/install_utils/install_utils.py:141-229 | Any list of words, each put in single or double quotes, with any white space or none between, is read back if and only if no word has white space at its ends, every empty word has white space before it, and in each word backslashes come in pairs before a quote and at the end. |
| `SpaceParse.NoBackslashFaithful` | usr/src/lib/install_utils/install_utils.py:141-229 | Words without backslashes always meet the condition on backslashes. |
| `SpaceParse.UnquotedIsOneWord` | usr/src/lib/install_utils/install_utils.py:50-63 | A string without quotes is one word; blanks alone do not separate words. |
| `UidSearch.FindUid` | usr/src/cmd/distro_const/DefaultsModule.py:95-128 | Terminates with the least number from 1000 on whose decimal form is not in the list, at most 1000 plus the length of the list. |

## Left out

- State files beside the snapshots, the comparison of manifests before a resume (`verify_resume_state`), and logging.
- More than one dataset per step: the program always passes one.
- The other ways a build ends early, before the options are read or while the build area is first set up; a shell that cannot be started ends the build like a noticed failure.
- `om_validate_and_resize_disk_partitions` and what else serves the graphical editor; partition order, content type and active flag.
- Runs that create several logical partitions: the arithmetic takes offsets for sizes, and `LogicalTable`, `FirstLogical` and `SecondLogicalRightIff` say what the table and the first two requests come to.
- The automatic swap slice, and the sizes it depends on.
- The fallbacks of `find_solaris_partition_size`: the size without a slice 2 is a parameter.
- Attribute lists for the target (`om_set_fdisk_target_attrs`, `om_set_vtoc_target_attrs`), duplication and freeing of the tables.
- The system header constants FD_NUMPART (4), MAX_EXT_PARTS (32) and NDKMAP (16) are taken as such; the headers are not part of this model.
- Reading and saving XML: a tree of named elements with attributes and values is given; an element's value is its text after the stripping of blanks and enclosing quotes.
- `replace_value`, `add_node` and the other editing methods of the tree.
- White space is that of byte strings; Unicode strings have more of it.
- `int()` also accepts a sign and blanks; the server model accepts digits only, which is all the client sends.
- Requests with no character, several clients at once, partial delivery of the messages of a few characters, and what a client does after the server has given up or closed in the middle of a reply.
- The schema validator, default value processing other than the user id (ids are compared as text, so one written with leading zeros does not count as used), and the thin wrappers over system services.
- Finalizer.DCFinalizer.ChangeExecParams: keeps only the stop-on-error flag of the queued item; files, loggers and the type checks of the arguments do not affect the build data.
- Slices.SliceEditor.CreateSlice: does not create the automatic swap slice first; in the runs of the editor that is one more creation, of slice 1, before this one.
- Slices.SliceEditor.FinalizeVtoc: the same holds of the automatic swap slice here.
