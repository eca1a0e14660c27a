# Simple-volume, modelled and proved in Dafny

Simple-volume keeps a local volume on one node and replicates it asynchronously to others. Agents
watch files, stage changes into a shadow tree and let replicas pull from that shadow; a replication
controller decides when full syncs and watches run; a failover controller decides which node may
take a volume over. This project models the code that makes those decisions and proves what it
keeps over every input, every run and every interleaving.

Where the Go code changes things step by step, so does the model: directory trees, the watch
manager, the lock table, the controllers and the node labels are classes whose methods are proved
against functions of the old state, and the loops are loops with invariants. Interleaved code is a
state machine with one step per critical section. Everything outside the code (rclone, WebDAV, the
operating system, the Kubernetes API, clocks) is an explicit input of the step that asks for it, with
failure among its values.

The modules, from the bottom up:

- `Strings`, `Paths`: Go's string helpers, path cleaning and event-path normalisation.
- `Filter`: include and exclude patterns, and the pruning test for directories.
- `Coalesce`, `Shadow`, `Replication`, `Staging`: the event pipeline from a batch of file events to
  a replica.
- `Rescan`, `Walk`, `Archive`: snapshots and their difference, the pruned walk, the tar writer and
  reader.
- `Following`: the whole path from a rescanned volume to its replica.
- `Layout`, `Locks`, `Backup`: pool directories, volume locks, full syncs with backup.
- `WatchManager`, `DeliveryLedger`: delivery status, quorum and the exact meaning of the counters.
- `Keys`, `ReplicationController`, `EpochGate`, `SyncOrder`: full syncs and watches under epochs, and
  what comes before each of them.
- `Selection`, `Resources`, `Failover`, `Demotion`, `Labels`, `Convergence`: failover.

## What does not hold, and exactly when it does

Some properties one would expect are false of the code. The code is modelled as it is; the failing
inputs and the exact conditions are lemmas.

- Pruning can lose files. An include pattern loses nothing exactly when its static prefix reaches
  the directory it names (`Filter.IncludePrunesNothingIff`); `a/b/*.txt` and all patterns like it do
  not (`Filter.LeadingWildcardIsUncovered`). An exclude pattern loses nothing exactly when its
  wildcards match nothing but what it spells (`Filter.ExcludePrunesNothingIff`).
- Coalescing is visible after staging exactly when a path resurfaces
  (`Staging.CoalescingVisibleIff`): a directory that was deleted and made again within one batch
  keeps its old files in the shadow (`Staging.HiddenDeleteStaysStored`). It can also make a batch
  fail, exactly when a kept event gets stuck that the dropped ones would have freed
  (`Staging.StagesIff`, `Staging.CoalescedStagesIff`): on an empty directory left in the shadow
  (`Staging.EmptyDirectoryBlocks`) or below a stored file (`Staging.StoredFileBlocks`). A batch that
  looks below a live file fails in any case (`Staging.LiveFileStrands`).
- A rescan misses exactly the new files whose state is all zero (`Rescan.RescanReplaysIff`), and its
  batch cannot be staged exactly when a changed file stands where the shadow has a directory
  (`Rescan.RescanStagesIff`), which a deleted file leaves behind (`Rescan.LeftDirectoryBlocks`).
- Event paths change under normalisation exactly when they are not plain
  (`Paths.NormalizeFixesExactlyPlain`), and normalising twice differs from normalising once exactly
  when a slash is left in front or white space is uncovered (`Paths.NormalizeIdempotentIff`), as for
  `//x` (`Paths.NormalizeNotIdempotent`).
- A demotion mark set while a full sync already waits for the node can be cleared by that sync
  (`Demotion.NewerMarkIsCleared`); any other is cleared only by a sync that asks later
  (`Demotion.DemotionIsSticky`).
- Claims share labels exactly when the kept parts of their identifiers agree
  (`Labels.LabelsCollideIff`), which happens within a namespace, across namespaces, and between an
  identifier that fits and one that does not.
- An accepted node has room for the workload exactly when something is left or nothing is asked for
  (`Resources.AcceptedNodeCovers`); a node with exactly nothing left is accepted for every workload
  (`Resources.FullNodeIsAccepted`), because a rest of zero is read as unknown.

## Model

| member | source | states |
|---|---|---|
| `Paths.NormalizeFixesExactlyPlain` | internal/agent/replication.go:227-238 | An event path comes through normalisation unchanged if and only if it is plain: relative, clean, free of backslashes and outer white space, not leaving the volume. |
| `Paths.NormalizeIdempotentIff` | internal/agent/replication.go:227-238 | A second normalisation changes nothing if and only if the first left no slash in front and uncovered no white space at an end. |
| `Paths.NormalizeNotIdempotent` | internal/agent/replication.go:227-238 | For every plain path, two leading slashes become one, and only a second normalisation removes the last. |
| `Paths.NormalizeSpellings` | internal/agent/replication.go:227-238 | Every spelling of a plain path, with backslashes, white space around it or one slash in front, comes out as that path. |
| `Paths.NormalizeRefuses` | internal/agent/replication.go:227-238 | Paths that leave the volume are refused. |
| `Paths.NormalizeRefusesRoots` | internal/agent/replication.go:227-238 | So are the empty path, the volume itself and its parent. |
| `Paths.AncestorSortsFirst` | internal/agent/watch.go:217-239 | A directory sorts before everything below it. |
| `Filter.StaticLength` | internal/agent/replication.go:1636-1652 | The static prefix ends at the first wildcard. |
| `Filter.TraverseCloses` | internal/agent/replication.go:240-284 | With covered includes and inert excludes, every directory above an accepted file or an entered directory is entered. |
| `Filter.WellPrunedLosesNothing` | internal/agent/replication.go:240-284 | Under such a filter no directory above a replicated file is refused. |
| `Filter.IncludePrunesNothingIff` | internal/agent/replication.go:240-284 | An include pattern whose bracket expressions keep clear of slashes loses no file if and only if its static prefix covers the directory of the path it names. |
| `Filter.ExcludePrunesNothingIff` | internal/agent/replication.go:240-284 | Such an exclude pattern loses no file if and only if its wildcards match no plain path but the one it spells; without brackets, if and only if none of them is interpreted. |
| `Filter.InertIffLiteral` | internal/agent/replication.go:1618-1634 | Without bracket expressions, exactly the literal patterns match nothing but what they spell. |
| `Filter.LiteralBodyIsCovered` | internal/agent/replication.go:1636-1661 | Literal names, with or without a final `/**`, are covered. |
| `Filter.LeadingWildcardIsUncovered` | internal/agent/replication.go:1636-1661 | A wildcard right behind a directory of two or more names is not covered. |
| `Filter.BracketFreeIsSlashSafe` | internal/agent/replication.go:1618-1634 | Every pattern without bracket expressions keeps clear of slashes. |
| `Filter.GlobKeepsSlashes` | internal/agent/replication.go:1618-1634 | A glob match has as many slashes as its pattern, unless a bracket expression holds one. |
| `Filter.GlobKeepsStatic` | internal/agent/replication.go:1618-1652 | A glob match starts with the pattern's static prefix. |
| `Filter.StarLaw` | internal/agent/replication.go:1630-1632 | A star stands for any run of characters without a slash, and for nothing else. |
| `Filter.QuestionLaw` | internal/agent/replication.go:1630-1632 | A question mark stands for one character that is no slash. |
| `Filter.ClassLaw` | internal/agent/replication.go:1630-1632 | A bracket expression holds the characters of its list or range, or with a caret all others. |
| `Filter.BracketLaw` | internal/agent/replication.go:1630-1632 | It stands for one character that it holds. |
| `Filter.LiteralStarLaw` | internal/agent/replication.go:1630-1632 | With literal text around it, a star pattern matches exactly what puts a slash-free run between. |
| `Filter.StarIncludeAccepts` | internal/agent/replication.go:240-259 | An include pattern like `dir/*.log` accepts exactly the files of that shape in the directory, and what lies at or below the path it spells. |
| `Filter.LiteralMatches` | internal/agent/replication.go:1618-1634 | A literal pattern, and one with a final `/**`, match exactly the path they name and what lies below. |
| `Filter.ReplicatedIff` | internal/agent/replication.go:240-259 | A plain path is replicated if and only if no exclude pattern matches it and, if there are include patterns, one of them does. |
| `Filter.PatternSpellings` | internal/agent/replication.go:1618-1622 | Slashes around a pattern and backslashes in it make no difference. |
| `Coalesce.CoalesceEvents` | internal/agent/replication.go:286-314 | The loop over the three tables returns the accepted events with last-write-wins. |
| `Coalesce.Forget` | internal/agent/replication.go:299-304 | Removing a path from the order renumbers the positions so that they stay its inverse. |
| `Coalesce.Keep` | internal/agent/replication.go:295-307 | After one accepted event the order, position and event tables agree on the kept list. |
| `Coalesce.LastWinsKeepsLastEvents` | internal/agent/replication.go:286-314 | The result lists, at strictly increasing positions, exactly the last event of every path. |
| `Coalesce.CoalescedExactly` | internal/agent/replication.go:286-314 | The result, read off the batch: in order, each event the filter takes that has no later one for the same normalised path, under that path, with its own operation or an upsert when it names none. |
| `Coalesce.LastWinsDistinct` | internal/agent/replication.go:286-314 | No path appears twice. |
| `Coalesce.CoalescedIdempotent` | internal/agent/replication.go:286-314 | Coalescing a coalesced plain batch changes nothing. |
| `Coalesce.DistinctKeptIff` | internal/agent/replication.go:286-314 | A batch with one event for each path passes through unchanged if and only if the filter takes all its paths and they are plain. |
| `Coalesce.DistinctPlainKept` | internal/agent/replication.go:477 | The replica's second coalescing leaves a batch of distinct plain paths as it is. |
| `Shadow.StageOne` | internal/agent/replication.go:741-786 | One event against the shadow, with every error branch. |
| `Shadow.ApplyShadowEventBatch` | internal/agent/replication.go:727-794 | The staging loop over the coalesced batch: the new shadow and the emitted events, or the error. |
| `Shadow.ApplyEventBatch` | internal/agent/replication.go:468-523 | The replica's loop over the received batch: the new tree, or the error. |
| `Shadow.StageEventFrame` | internal/agent/replication.go:741-786 | A delete or a copy, failed or not, changes files only at or below its path. |
| `Shadow.StagedWellFormed` | internal/agent/replication.go:741-786 | Staging never leaves a file at or above a directory; empty directories stay. |
| `Shadow.StagedIff` | internal/agent/replication.go:741-786 | An event is staged if and only if its calls succeed, no file lies above its path, and it stores nothing on a directory. |
| `Shadow.StagedMeansCallsOk` | internal/agent/replication.go:741-786 | A batch reported as staged had no failing call. |
| `Shadow.StageAllFrame` | internal/agent/replication.go:727-794 | Staging, failed or not, changes the shadow only at or below event paths. |
| `Shadow.StagedFrame` | internal/agent/replication.go:768-770 | Staging changes the shadow only at or below the paths it emits: events on directories are skipped on both sides. |
| `Shadow.ReplayAllFrame` | internal/agent/replication.go:468-523 | Replay, failed or not, changes a replica only at or below event paths. |
| `Shadow.AcknowledgedMeansCallsOk` | internal/agent/replication.go:477-521 | A batch a replica acknowledges had no failing existence check, removal, copy or ownership call, except a copy whose source was gone. |
| `Shadow.AcknowledgedValue` | internal/agent/replication.go:477-521 | With or without authority to delete, a file named last in an upsert arrives with the source's value; with it, what is named last in a delete is gone. |
| `Shadow.AdvisoryDeletesKeep` | internal/agent/replication.go:478-492 | Without authority to delete, a batch leaves every file alone that it names only in deletes, whatever its outcome. |
| `Shadow.AdvisoryDeletesOnly` | internal/agent/replication.go:478-492 | A batch of such deletes succeeds and changes nothing. |
| `Shadow.BatchAgrees` | internal/agent/replication.go:468-523 | Wherever shadow and replica agreed before a batch, or the batch acts, they agree after it, although replay reads the finished shadow and not the one each event was staged on. |
| `Shadow.CalmBatchApplies` | internal/agent/replication.go:468-523 | A replica that holds nothing the shadow does not acknowledges every staged batch when no call fails, and again holds nothing the shadow does not. |
| `Replication.ReplayedAsEmitted` | internal/agent/replication.go:477 | The replica replays the emitted events in the emitted order. |
| `Replication.AcknowledgedHeals` | internal/agent/replication.go:468-523 | An acknowledged batch keeps agreement everywhere and restores it wherever it acts. |
| `Replication.RoundFrame` | internal/agent/replication.go:727-794 | A round that fails anywhere changes nothing outside the batch's subtrees. |
| `Replication.DifferenceHasMissedBatch` | internal/agent/watch_manager.go:327-343 | After any run with honest serving, a replica that differs at a path missed a batch acting at or above it and accepted none acting there since. |
| `Replication.MissedBatchFrame` | internal/agent/watch_manager.go:327-343 | When the shadow is served honestly, a replica agrees with it at every path no missed batch acted on, however many batches it misses. |
| `Replication.ReplicaTracksShadow` | internal/agent/replication.go:468-523 | A replica that holds the shadow's files and acknowledges every batch, honestly served, holds the shadow's files after any run. |
| `Replication.CalmRoundAcknowledged` | internal/agent/replication.go:468-523 | Such a replica acknowledges every round that is staged, delivered and free of failing calls. |
| `Replication.CalmRunTracks` | internal/agent/replication.go:468-523 | Over every run of such rounds it acknowledges each batch and keeps the shadow's files. |
| `Staging.StagedValue` | internal/agent/replication.go:739-786 | What staging leaves at a path is decided by the last event that has an effect there. |
| `Staging.CoalescingVisibleIff` | internal/agent/replication.go:286-314 | Staging the coalesced list and the raw list leave different files if and only if, at some path, a delete of a live directory is hidden by a later upsert of it, nothing later acts there, and the last kept event before it writes the path or there is none and the path is stored. |
| `Staging.CoalescedStagesAlike` | internal/agent/replication.go:286-314 | Without a delete of a live directory hidden by a later upsert the two leave the same files. |
| `Staging.HiddenDeleteStaysStored` | internal/agent/replication.go:768-770 | A directory deleted and made again loses its stored file in the raw order and keeps it after coalescing. |
| `Staging.CoalescingRefinesStaging` | internal/agent/replication.go:739-786 | For events on paths that are no directory, live or in the shadow, and not above one another, the coalesced batch can be staged whenever the raw one can, leaves the same files, and leaves no directory the raw one does not. |
| `Staging.StagesIff` | internal/agent/replication.go:739-786 | A list can be staged onto a well-formed shadow over a still live tree if and only if no event looks up a path below a live file, acts below a file that stands in the shadow at that moment, stored or written earlier in the list, or writes where a directory stands. |
| `Staging.CoalescedStagesIff` | internal/agent/replication.go:739-786 | A coalesced batch can be staged if and only if none of the events it keeps gets stuck in that sense, a dropped delete clearing nothing and a dropped write making nothing. |
| `Staging.EmptyDirectoryBlocks` | internal/agent/replication.go:774-784 | Where a delete left an empty directory behind, the raw events can stage a file of that name and the coalesced batch cannot. |
| `Staging.StoredFileBlocks` | internal/agent/replication.go:750-753 | A file deleted, something below it deleted, and the file made again: the raw events can be staged and the coalesced batch cannot. |
| `Staging.LiveFileStrands` | internal/agent/replication.go:757-767 | A directory replaced by a file within one batch makes the batch fail, coalesced or not: its old contents are looked up below the file. |
| `Rescan.DiffWatchedSnapshots` | internal/agent/watch.go:217-239 | The loops and the sort return the changed and vanished paths, each once, in order, with the right operation. |
| `Rescan.SortStrings` | internal/agent/watch.go:229 | The sorted list holds the same paths in strictly increasing order. |
| `Rescan.DiffIsUnique` | internal/agent/watch.go:217-239 | The events do not depend on the order in which the maps are walked. |
| `Rescan.ReplayValue` | internal/agent/watch.go:217-239 | Replaying sorted events leaves at a path its own event's value, else nothing below a delete, else what was there. |
| `Rescan.RescanReplaysIff` | internal/agent/watch.go:217-239 | Replaying the difference turns the previous snapshot into the current one if and only if no new file has an all-zero state. |
| `Rescan.RescanLoop.Tick` | internal/agent/watch.go:137-156 | A tick hands over exactly the difference and moves to the new snapshot, unless the sink refuses the batch. |
| `Rescan.TicksTelescope` | internal/agent/watch.go:137-156 | The batches of all ticks, replayed in order, rebuild the latest snapshot. |
| `Rescan.RescanStagesIff` | internal/agent/replication.go:739-786 | A coalesced rescan batch can be staged onto the previous snapshot if and only if no changed file stands where the shadow has a directory, empty ones included; then staging leaves exactly what replaying the difference leaves. |
| `Rescan.LeftDirectoryBlocks` | internal/agent/replication.go:749-784 | A deleted file leaves its directory behind in the shadow, and a file of that name cannot follow. |
| `Walk.WalkFindsAllFiles` | internal/agent/watch.go:167-215 | If kept files have kept directories, the pruned walk returns exactly the kept files of any tree, in order. |
| `Walk.WalkFindsAllNodes` | internal/agent/replication.go:1194-1222 | If kept nodes have kept directories, it returns exactly the kept nodes. |
| `Walk.WalkSnapshot` | internal/agent/watch.go:167-215 | Filling the map entry by entry yields the files of the pruned walk. |
| `Walk.SnapshotWatchedFiles` | internal/agent/watch.go:167-215 | The snapshot of a volume. |
| `Walk.ArchiveKeepCloses` | internal/agent/replication.go:1194-1222 | The archive's test keeps the directories of whatever it keeps, for filters with covered includes and inert excludes. |
| `Walk.SnapshotKeepCloses` | internal/agent/watch.go:167-215 | The snapshot's test keeps the directories of every file it keeps, for every filter that prunes nothing. |
| `Walk.SnapshotIsComplete` | internal/agent/watch.go:167-215 | A path is in the snapshot if and only if it is an accepted file of the tree that does not start with two dots. |
| `Walk.SnapshotIsPrefixFree` | internal/agent/watch.go:167-215 | A snapshot of a tree with proper names holds plain accepted paths and no file below a file. |
| `Following.TickFollows` | internal/agent/watch.go:137-156 | One acknowledged tick takes shadow and replica from the previous snapshot to the current one. |
| `Following.ReplicaFollowsVolume` | internal/agent/watch.go:137-156 | Over all ticks, a replica that starts with the shadow's files and acknowledges every batch holds exactly the files of the latest walk. |
| `Following.CalmTickFollows` | internal/agent/watch.go:137-156 | A tick without failing calls, and without a changed file on a directory of the shadow, is acknowledged and moves shadow and replica to the current snapshot. |
| `Following.ReplicaKeepsUp` | internal/agent/watch.go:137-156 | Over all such ticks every batch is staged and acknowledged, and the replica holds exactly the files of the latest walk. |
| `Archive.WriteTarArchive` | internal/agent/replication.go:1190-1255 | The walk appends exactly the headers of the visited nodes, in order. |
| `Archive.Volume.ExtractTarArchive` | internal/agent/replication.go:1257-1319 | The loop succeeds exactly when no header is refused, and otherwise leaves what the headers before the refused one made. |
| `Archive.ExtractNew` | internal/agent/replication.go:1257-1319 | A header for a new entry of an existing directory adds that entry and nothing else. |
| `Archive.ExtractOver` | internal/agent/replication.go:1276-1314 | Over an existing entry, files replace files, directories keep their contents, and the two refuse each other. |
| `Archive.ExtractLinkOver` | internal/agent/replication.go:1284-1296 | A link replaces whatever is there, with everything below it. |
| `Archive.ExtractRefusesEscapes` | internal/agent/replication.go:1268-1275 | Names that leave the root are refused. |
| `Archive.ArchiveRoundTrip` | internal/agent/replication.go:1190-1319 | Extracting the archive of any tree into an empty root yields exactly the filtered tree: paths, kinds, contents, link targets and permission bits. |
| `Layout.SafeSegmentIsSafe` | internal/agent/agent.go:199-221 | Every name becomes one clean path segment that does not start with a dot. |
| `Layout.SafeSegmentKeepsIff` | internal/agent/agent.go:199-221 | A name keeps its own directory name if and only if it has safe characters only, no two dots in a row, and no dot or dash at an end. |
| `Layout.LivePlace` | internal/agent/agent.go:68-79 | The volume directory is the pool followed by the two segments, and always resolves in a valid pool. |
| `Layout.SafeNamesApart` | internal/agent/agent.go:68-79 | Volumes with such names never share a directory. |
| `Layout.ShadowPlace` | internal/agent/agent.go:92-125 | The shadow directory is inside the pool at its own segments. |
| `Layout.BackupPlace` | internal/agent/agent.go:127-154 | The backup directory is inside the pool at its own segments. |
| `Layout.PlacesNeverNest` | internal/agent/agent.go:68-154 | For all namespaces, volumes and stamps, live, shadow and backup directories never lie in one another unless they are the same directory. |
| `Layout.LockMatchesStorage` | internal/agent/replication.go:153-167 | Two requests have the same lock key if and only if they resolve to the same directory. |
| `Locks.VolumeLocker.MutexFor` | internal/agent/replication.go:153-167 | A volume's mutex is found or made, and never replaced. |
| `Locks.StepKeepsInv` | internal/agent/replication.go:144-167 | Every step keeps each handler tied to its key's mutex and each working handler its owner. |
| `Locks.LocksArePermanent` | internal/agent/replication.go:144-167 | A volume has the same mutex for the whole run. |
| `Locks.OneWorkerPerVolume` | internal/agent/replication.go:1482-1566 | No two sync-batch, full-sync or shadow-prepare handlers work on the same directory at once. |
| `Backup.Pool.BackupVolumePath` | internal/agent/agent.go:127-154 | A missing volume or one without entries stays, any other is moved to a free backup path, and errors change nothing. |
| `Backup.Pool.ApplyFullSync` | internal/agent/replication.go:625-672 | Once the request is accepted, the disk and the answer after every exit of a full sync. |
| `Backup.FullSyncOkIff` | internal/agent/replication.go:639-671 | A full sync reports success if and only if the backup, if asked for, and every later call succeeded. |
| `Backup.FullSyncDelivers` | internal/agent/replication.go:639-671 | After a success the volume holds exactly what the copies left there, and the previous files are whole at the backup path when a backup was asked for. |
| `Backup.FullSyncWithoutBackup` | internal/agent/replication.go:646-671 | Without a backup nothing outside the volume changes, nothing at all when the sync fails before it copies, and a failing copy leaves what it got to. |
| `Backup.RenameMoves` | internal/agent/agent.go:149-152 | The rename moves the whole subtree and touches nothing else. |
| `Backup.BackupConserves` | internal/agent/replication.go:625-672 | After every exit the previous files are whole at the live or at the backup path, and nothing else has changed. |
| `Backup.PoolBackupConserves` | internal/agent/replication.go:625-672 | In a pool, no file is lost and every other volume, every shadow and every earlier backup is untouched. |
| `WatchManager.ConfirmationThreshold` | internal/agent/watch_manager.go:442-450 | The threshold is the number asked for, capped at the number of targets, and nothing when it is negative. |
| `WatchManager.EnsureTargetStatus` | internal/agent/watch_manager.go:468-476 | The loop finds the first entry of an address or appends one. |
| `WatchManager.Manager.Start` | internal/agent/watch_manager.go:145-202 | A faulty request changes nothing; any other replaces the volume's watch by a new running one with zero counts. |
| `WatchManager.Manager.RecordDeliverySuccess` | internal/agent/watch_manager.go:348-367 | A success is recorded on watch and target, only for the current watch. |
| `WatchManager.Manager.RecordDeliveryError` | internal/agent/watch_manager.go:369-380 | A failure is recorded on watch and target, only for the current watch. |
| `WatchManager.SuccessKeepsLedger` | internal/agent/watch_manager.go:348-367 | A success keeps the watch counts equal to the sums over the targets. |
| `WatchManager.ErrorKeepsLedger` | internal/agent/watch_manager.go:369-380 | So does a failure. |
| `WatchManager.FindTargetIsFirst` | internal/agent/watch_manager.go:468-476 | An address listed twice keeps its counts at its first entry. |
| `WatchManager.SuccessReports` | internal/agent/watch_manager.go:348-367 | A success shows the time and the generation on its own target, those and the size of the batch on the watch, and takes earlier errors off both. |
| `WatchManager.ErrorReports` | internal/agent/watch_manager.go:369-380 | A failure shows its error on target and watch, and leaves what was observed before. |
| `WatchManager.UnconfirmedReports` | internal/agent/watch_manager.go:382-392 | A batch short of its threshold shows on the watch as not delivered, and on no target. |
| `WatchManager.StoppedReports` | internal/agent/watch_manager.go:394-406 | The end of a watch shows as not running, with its time and its error, and changes no count. |
| `WatchManager.LedgerAndQuorum` | internal/agent/watch_manager.go:313-406 | In every reachable state the watch counts are the sums over its targets, and a generation a target is said to have observed was accepted by that target and by the threshold of targets. |
| `WatchManager.CloseInNumbers` | internal/agent/watch_manager.go:327-343 | In every run, a batch that is through with its targets is recorded as delivered if and only if as many accepted it as the request asked for: one when it gives no number, all when it asks for more than there are. |
| `WatchManager.QuorumInNumbers` | internal/agent/watch_manager.go:327-343 | A generation a target is said to have observed was accepted by that target, and by that many targets. |
| `WatchManager.SupersededIsFrozen` | internal/agent/watch_manager.go:348-406 | A superseded watch never changes its status again, whatever its goroutine still records, and never becomes current. |
| `WatchManager.StoppedStaysStopped` | internal/agent/watch_manager.go:204-217 | A stopped watch never reports running again. |
| `DeliveryLedger.SuccessCounts` | internal/agent/watch_manager.go:348-367 | A success adds one batch and its events under its own address and nothing under any other. |
| `DeliveryLedger.ErrorCounts` | internal/agent/watch_manager.go:369-380 | A failure adds one failure under its own address and nothing under any other. |
| `DeliveryLedger.LedgerIsExact` | internal/agent/watch_manager.go:313-380 | In every reachable state the counters under every address are exactly its refusals plus its acceptances in confirmed batches, batch in progress included. |
| `Keys.SignatureInjective` | internal/controller/replication_controller.go:360 | A watch signature determines its epoch and settings. |
| `Keys.OfVolumeExact` | internal/controller/replication_controller.go:490-494 | The prefix test on running keys is exact for colon-free volume keys. |
| `Keys.OfVolumeUnique` | internal/controller/replication_controller.go:490-494 | A sync key belongs to one volume. |
| `Keys.SyncKeyInjective` | internal/controller/replication_controller.go:358-362 | A sync key determines its volume and signature. |
| `ReplicationController.Controller.NoteActiveNode` | internal/controller/replication_controller.go:418-434 | A different node starts a new epoch and forgets the volume's watch and completed syncs. |
| `ReplicationController.NoteActiveFrame` | internal/controller/replication_controller.go:418-434 | A change of node starts the volume's next epoch and forgets its watch and completed syncs; the entries of every other volume stay. |
| `ReplicationController.Controller.TryStartVolumeFullSync` | internal/controller/replication_controller.go:487-498 | A start is refused exactly when a running key belongs to the volume. |
| `ReplicationController.BusyIffInFlight` | internal/controller/replication_controller.go:487-498 | A start is refused if and only if a full sync of that volume is in flight. |
| `ReplicationController.AtMostOneFullSync` | internal/controller/replication_controller.go:216-416 | In every interleaving of startup, scheduled and manual starts with completions and failures, at most one full sync per volume is in flight and the running set is the set in flight. |
| `EpochGate.CompletedMeansSynced` | internal/controller/replication_controller.go:357-390 | A completed-sync entry for the current epoch and signature stands for a full sync launched under that epoch, for the node active now, that succeeded on as many targets as the claim asks to be confirmed, or on all. |
| `EpochGate.RememberedMeansStarted` | internal/controller/replication_controller.go:442-476 | A watch remembered under the current epoch and signature was started under that epoch on the node active now. |
| `EpochGate.EpochCheckIsExact` | internal/controller/replication_controller.go:418-440 | The check holds if and only if no other active node was noted since the capture, even if the same node has become active again. |
| `EpochGate.RunIsGrounded` | internal/controller/replication_controller.go:357-632 | Every completed entry, remembered watch and pending mark in every reachable state has a success behind it. |
| `EpochGate.StepKeepsTimely` | internal/controller/replication_controller.go:418-440 | Captured epochs are never from the future, and a current one names the active node. |
| `SyncOrder.WatchComesAfterSync` | internal/controller/replication_controller.go:361-394 | In every interleaving, a watch of a volume that wants a full sync is started only after one of the same volume, settings and epoch succeeded on enough targets. |
| `SyncOrder.ScheduleComesAfterWatch` | internal/controller/replication_controller.go:442-476 | No pass gets to its schedule without a watch of its own settings and epoch. |
| `SyncOrder.SyncsHaveReasons` | internal/controller/replication_controller.go:361-414 | Every full sync in flight goes back to a trigger, to a pass that wants a full sync and found none completed under its settings, or to a schedule that was due and not served. |
| `SyncOrder.CompletionWasChecked` | internal/controller/replication_controller.go:371-385 | A completion that marks its sync or starts its watch has found its epoch current. |
| `SyncOrder.NoteStarts` | internal/controller/replication_controller.go:216-267 | A trigger tries a full sync at once, whatever is completed; a pass of the controller reads first; both act under the epoch of the moment. |
| `SyncOrder.TryStarts` | internal/controller/replication_controller.go:487-498 | A pass that tries while no sync of its volume is in flight puts one in flight, and otherwise none. |
| `SyncOrder.PassGoesOn` | internal/controller/replication_controller.go:361-394 | A pass that wants a full sync and finds none completed tries one; any other goes on to its watch, and starts one unless it is remembered and reported running. |
| `SyncOrder.SyncSettles` | internal/controller/replication_controller.go:371-386 | A sync that succeeds on enough targets under the current epoch is marked, its watch is started and remembered, and its volume is free again. |
| `SyncOrder.WatchIsRemembered` | internal/controller/replication_controller.go:442-476 | A watch that is started is remembered under its signature. |
| `SyncOrder.ScheduleIsServed` | internal/controller/replication_controller.go:406-412 | A scheduled sync that succeeds on enough targets is recorded for its day. |
| `SyncOrder.ScheduleDecides` | internal/controller/replication_controller.go:396-414 | A pass tries a scheduled sync if and only if it is due and not recorded for the day. |
| `SyncOrder.ServedMeansSynced` | internal/controller/replication_controller.go:396-414 | In every interleaving, a schedule recorded as served has a full sync behind it that succeeded on enough targets. |
| `Selection.FailoverCandidates` | internal/controller/failover_controller.go:296-321 | The loop returns exactly the eligible nodes, each once, with its last sync. |
| `Selection.SortCandidates` | internal/controller/failover_controller.go:279-284 | The sort returns a permutation, fresher first, ties by name. |
| `Selection.SelectFailoverTarget` | internal/controller/failover_controller.go:269-289 | The first listed priority node that is a candidate, else the freshest with ties to the smallest name, else none. |
| `Selection.DecisionIsOrderFree` | internal/controller/failover_controller.go:269-289 | Every permutation of the candidates leads to the same decision. |
| `Selection.BlockedIffNoCandidate` | internal/controller/failover_controller.go:269-321 | Promotion is blocked if and only if no node is eligible, and its target is eligible. |
| `Resources.AddResourceList` | internal/controller/failover_controller.go:656-666 | Adds every amount; zero entries leave no trace. |
| `Resources.SubtractResourceList` | internal/controller/failover_controller.go:668-681 | Subtracts every amount the node reports, and adds no entry. |
| `Resources.MaxResourceList` | internal/controller/failover_controller.go:683-694 | Takes the larger of every amount. |
| `Resources.PodRequest` | internal/controller/failover_controller.go:621-630 | The larger of the sum of the containers and the largest init container. |
| `Resources.FailoverWorkloadRequests` | internal/controller/failover_controller.go:589-595 | The sum of the requests of all claim pods. |
| `Resources.NodeAvailableResources` | internal/controller/failover_controller.go:597-619 | On every node and for every resource it reports, the amount left plus what its live pods request is the allocatable amount. |
| `Resources.LedgerIsOrderFree` | internal/controller/failover_controller.go:597-619 | Every order of the pods leads to the same ledger. |
| `Resources.AcceptedIff` | internal/controller/failover_controller.go:632-654 | A node is accepted if and only if no requested amount exceeds a known, non-zero rest. |
| `Resources.AcceptedNodeCovers` | internal/controller/failover_controller.go:632-654 | An accepted node has room for the whole workload if and only if something is left, or nothing is left and nothing is asked for. |
| `Resources.FullNodeIsAccepted` | internal/controller/failover_controller.go:645-648 | A node with exactly nothing left is accepted for every workload. |
| `Resources.PromotedWorkloadFits` | internal/controller/failover_controller.go:589-654 | Running the whole workload on an accepted node with something left does not overcommit it. |
| `Failover.FailoverController.RecordReplicaFreshness` | internal/controller/failover_controller.go:62-73 | A sync time is recorded for one node of one volume; incomplete reports change nothing. |
| `Failover.FailoverController.MarkRestored` | internal/controller/failover_controller.go:81-92 | One mark of one volume is cleared. |
| `Failover.FailoverController.RecordDemoted` | internal/controller/failover_controller.go:487-498 | One mark is set, for a bound claim and a named node. |
| `Failover.FailoverController.DeleteStalePods` | internal/controller/failover_controller.go:188-196 | Each stale node is marked before its pod is deleted; only nodes of stale pods are marked, never the target; without an error every stale pod is deleted. |
| `Failover.FailoverController.ReconcilePVC` | internal/controller/failover_controller.go:125-200 | A pass changes the waiting times as the documented decision says; it marks only nodes of stale pods of this volume, clears no mark, deletes only pods of marked nodes, and a complete promotion deletes every stale pod. |
| `Failover.HealthyPodNodeFinds` | internal/controller/failover_controller.go:513-520 | The node found is that of the first running claim pod on a ready node, and none is found if and only if there is no such pod. |
| `Failover.SeenMeansUnserved` | internal/controller/failover_controller.go:157-173 | A remembered time is that of a pass since which every pass of the claim that reached the check saw demand and no healthy pod. |
| `Failover.PromotionIsSafe` | internal/controller/failover_controller.go:125-200 | Every promotion comes at least the grace period after such a pass, and its target has a ready agent on a ready node, no claim pod, no mark, a healthy sync that is not too old, and by the resource test room. |
| `Failover.PromotionFits` | internal/controller/failover_controller.go:125-200 | Where the ledger of the pass shows something left on the target, running the claim's pods there does not overcommit it. |
| `Failover.OverdueIsPromoted` | internal/controller/failover_controller.go:157-177 | A claim unserved in every pass since it was first seen is promoted by a pass after the grace period that gets so far, if and only if some node may serve; otherwise the pass is blocked. |
| `Failover.DueIsAttempted` | internal/controller/failover_controller.go:174-199 | That promotion goes to the documented choice, and completes if and only if every write and every delete of a stale pod succeeds. |
| `Failover.ActiveNodeIs` | internal/controller/failover_controller.go:139-148 | The recorded node is a serving pod's, else the annotated, else the selected, else a first placement when somebody wants the claim. |
| `Demotion.ChosenIsUnmarked` | internal/controller/failover_controller.go:296-321 | No node is chosen while it is marked, although the pass reads a copy of the marks. |
| `Demotion.DemotionIsSticky` | internal/controller/replication_controller.go:599-622 | A marked node is chosen again only after a full sync that asked it to back up while it was marked, succeeded on it and then cleared the mark; the question comes after the moment looked at, unless it was open then. |
| `Demotion.NewerMarkIsCleared` | internal/controller/replication_controller.go:599-622 | A question that is open when a node is demoted again does clear the newer mark: a run in which the node is then chosen. |
| `Demotion.DeletedIsMarked` | internal/controller/failover_controller.go:188-196 | When a stale pod is deleted its node is marked, or a full sync that asked it to back up while it was marked has succeeded on it and cleared the mark. |
| `Labels.LabelIdOfDns` | internal/controller/labels.go:13-30 | On Kubernetes names the identifier is the joined name, cut to its maximal length. |
| `Labels.LabelIgnoresCase` | internal/controller/labels.go:13-30 | Upper and lower case make no difference to the identifier. |
| `Labels.LabelIdInjective` | internal/controller/labels.go:13-30 | Claims whose identifiers fit never share one. |
| `Labels.LabelsCollideIff` | internal/controller/labels.go:13-42 | Two claims share their labels if and only if the first 45 characters of their identifiers, trimmed of dashes and dots, are the same. |
| `Labels.LongIdsCollide` | internal/controller/labels.go:13-30 | Identifiers that are both cut share labels as soon as they agree on the kept part. |
| `Labels.FittingIdCollides` | internal/controller/labels.go:25-28 | An identifier of 44 characters fits and still shares labels with its extensions by a dash or a dot. |
| `Labels.LongNamespacesCollide` | internal/controller/labels.go:25-28 | Namespaces that agree on 45 characters share labels for all their claims. |
| `Labels.LabelsApart` | internal/controller/labels.go:36-42 | The labels of one claim differ from each other and from those of every other claim. |
| `Labels.PatchSettles` | internal/controller/failover_controller.go:392-425 | The patch of a node leaves its claim's labels as wanted and every other label alone. |
| `Labels.NoPatchIffSettled` | internal/controller/failover_controller.go:392-414 | A node is left out if and only if its labels are already as wanted. |
| `Labels.Cluster.ReconcileNodeLabels` | internal/controller/failover_controller.go:381-428 | The call relabels every node, patching exactly those that need it; it fails if and only if the nodes cannot be listed or such a patch is refused, and then each node is as before or relabelled. |
| `Labels.RepeatPatchesNothing` | internal/controller/failover_controller.go:381-428 | Repeating the call patches nothing. |
| `Labels.SweepConverges` | internal/controller/failover_controller.go:381-428 | After any sequence of calls, from any labels, every node carries for every claim exactly what the claim's last call wanted. |
| `Labels.SweepSnoc` | internal/controller/failover_controller.go:381-428 | One more call of a sweep relabels all nodes once more. |
| `Labels.PromotionAgrees` | internal/controller/failover_controller.go:330-375 | A successful write leaves volume and claim naming the same node and no scheduling hint; a failed one leaves the claim as it was. |
| `Labels.RecordingAgainWritesNothing` | internal/controller/failover_controller.go:323-375 | Recording the same node again writes nothing. |
| `Convergence.PassIsCalls` | internal/controller/failover_controller.go:139-187 | A pass relabels every node as its one or two label calls do. |
| `Convergence.StorageSettles` | internal/controller/failover_controller.go:139-187 | At the end of an error-free pass the claim's annotation names the final node, and a bound claim agrees with its volume. |
| `Convergence.SweepAgrees` | internal/controller/failover_controller.go:139-187 | After an error-free sweep, for all claims at once, a node carries a claim's role label if and only if the claim's annotation names it, and its candidate label if and only if it was eligible in the claim's own failover pass and that pass did not promote. |
| `Convergence.ServingNodeIsActive` | internal/controller/failover_controller.go:139-156 | Where a pod of the claim serves, the first such pod's node ends up recorded and alone carries the role label. |

## Left out

- rclone command building, process running, HTTP handlers, JSON, tokens and WebDAV probing: foreign calls; their results are inputs. A copy that reports its source gone is taken to have written nothing.
- Kubernetes listing and decoding of claims, pods, nodes and workloads; `initialActiveNode`, `failoverEnabled` and duration parsing: their results are inputs of a pass.
- The fsnotify loop, debouncing and `addRecursiveWatches`: they depend on event delivery by the operating system; the rescan branch is modelled.
- The CSI server, node publishing, bind mounts, `cmd/simple-volume/main.go`, cron parsing, `promotion.go` and `provision.go`: input and output, or small one-shot selectors.
- Ownership and permission policies, modification times, owners in archives, and special files: only their success or failure is modelled.
- Walks and archives are proved for trees that stand still while they are walked; extraction through symbolic links that already exist in the target is not modelled.
- Full syncs are modelled on files: that a volume of nothing but empty directories is moved to the backups shows in the calls made, not in the tree.
- A stored or live symbolic link counts as a file: paths that lead through one are not followed.
- `Filter.GlobMatch` tries every position for a star, where Go takes the leftmost match of the text behind it; the two differ only for bracket expressions that match a slash (`*[^a]*b` on `c/xb`).
- A refused archive header is taken to leave nothing of its own behind, where the source may have made some parent directories.
- A change of a file that leaves its size, mode, time and link target alike is invisible to a rescan; the composition in `Following` takes the state of a file for its content.
- Counters are unbounded: the 64-bit wrap-around of the source's counters is not modelled.
- `Filter.IncludePrunesNothingIff`: states the equivalence for one include pattern whose bracket expressions neither hold nor spell a slash; Go lets a negated class match one, and then the number of names in a match is open. With several patterns one may rescue another, and only the sufficient direction, `Filter.WellPrunedLosesNothing`, is proved for them.
- `Filter.ExcludePrunesNothingIff`: likewise for one exclude pattern.
- `Staging.CoalescingRefinesStaging`: the live tree stands still while a batch is staged; `Replication` lets it change between events.
- `Archive.ArchiveRoundTrip`: is stated for names that make plain paths and for filters with covered includes and inert excludes.
- `Demotion.DemotionIsSticky`: one volume at a time; failover passes do not overlap, and one full sync at a time is what `ReplicationController.AtMostOneFullSync` proves. Marks live in memory and are lost on a restart, as in the source.
- `Convergence.SweepAgrees`: nobody else changes labels or annotations during the sweep, and node names carry no outer white space.
- `Resources.PodRequest`: requests are non-negative, as Kubernetes admits them; resources other than CPU and memory are not read by the source.
- The once-a-day bound on scheduled syncs, monotone freshness and a single role label during a sweep are not claimed by the code and not stated here.
