# A verified model of the weather server's stateful core

The Dafny files here model the parts of the repository that keep state, move state between machines or promise
something about a whole sequence of calls, and prove those promises for every input, every run and every
interleaving. Code that updates objects in place is a class whose methods are proved against functions of the old
state; the theorems are lemmas about those functions.

- `Cluster.dfy` - primary election over a shared table. `ClusterTable` holds the SQL statements as functions on the
  table, `ClusterProtocol` interleaves single statements of any number of nodes, `ClusterNode` is one manager.
- `Failover.dfy` - read-only mode, the write queue and its replay: a protocol of many callers against the recovery
  monitor, the sequential view, the protocol's calls without interruption against that view, and the manager as a class
  over a growing, reused buffer.
- `Retention.dfy` (with `Calendar.dfy`) - four overlapping "newest N" tiers and the size cap, as sets, as whole sweeps
  and as the directory sweep that deletes files.
- `Archive.dfy`, `Paths.dfy`, `Filesystem.dfy`, `Backup.dfy`, `BackupWriter.dfy`, `BackupReader.dfy`,
  `BackupPlaces.dfy`, `BackupRoundTrip.dfy` - walking directory trees into an archive with a running hash transcript,
  path confinement, a file system in which making a directory or creating a file can fail, the two readers with the
  database check and the setup token, the round trip.
- `AuditPaging.dfy`, `RequestStats.dfy` - results computed on a prefiltered scan against the whole table.
- `EmailTemplate.dfy`, `WrapText.dfy`, `YamlKey.dfy` with `YamlScalar.dfy`, `ClientFailover.dfy` - template filling in
  map order, greedy wrapping, the settings-line updater and which values a reader gets back, and the client's walk over
  its servers.
- `Text.dfy`, `Sets.dfy`, `Wrappers.dfy` - shared helpers.

## Where the code falls short of the plain statement

Each of these is a property the code does not have in general, with the exact condition under which it does, proved in
both directions.

- Cluster: a node that joins with an id below the current primary's can make two healthy rows say primary
  (`JoinBelowBreaksSafety`). Where some node can elect, the invariant holds exactly when no later run without joins
  shows two healthy primaries (`InvIsExact`), and a join is harmless exactly when `JoinIsSafe` holds
  (`JoinKeepsInvIff`, `JoinIsHarmlessIff`).
- Failover: writes are queued only in read-only mode exactly when the monitor always leaves with an empty queue and no
  caller about to queue (`NothingLeftBehindIff`); after any other departure a write stays behind that nothing retries
  (`UncleanLeaveStrands`, and from the start `RecoveryCanStrandAWrite`). Replay keeps the order of the log exactly when
  no write is accepted after a refused one (`RecoveryKeepsOrderIff`), and a later write overtakes a re-queued one
  (`ExecKeepsOrderIff`).
- Path confinement: a member is accepted exactly when the destination directory is in cleaned form and is neither
  `/` nor `.` (`MemberIsAcceptedIff`): with a trailing slash on a configured directory every member is rejected
  (`TrailingSlashRejects`).
- Backup: a backup is accepted by its own verification exactly when every file named `*.db` in it, user data included,
  passes the database check (`CreatedVerifies`).
- Restore: for any two usable base directories an installation is put back exactly when its databases are sound,
  nothing of the wrong kind is on disk in its way, and no two of its nodes or the setup token are in each other's way
  (`RestorePutsBackIff`). Every installation is, over every disk with room for it, exactly when neither base directory
  lies at or below a selected member of the other, nor the data directory at or below `setup_token.txt`
  (`AlwaysPutsBackIff`, `OverlapLosesAFile`).
- Transcript: swapping two neighbouring files is visible for all contents exactly when neither name, with its newline,
  starts the other (`SwapShowsIff`); `NewlineNamesHideASwap` is a pair that hides.
- Audit log: every page is exact exactly when no entry is more than 500 places further down by id than by instant
  (`AllPagesExactIff`). Tables of a given size are always safe exactly up to 501 entries (`SizeIsSafeIff`);
  `LateLowestIsMissed` is a first page without its newest entry.
- Request statistics: the pushed-back bound is safe exactly for rows written at most 14h59m west of UTC
  (`PrefilterSafeIff`), which covers all real offsets.
- Templates: for brace-free variables the map order never shows exactly when, outside the innermost brace pairs, no
  brace opens before one that closes (`OrderNeverShowsIff`); with braces allowed in values, exactly when the template
  has no slot at all (`BracedOrderNeverShowsIff`).
- Settings: a second update overwrites the first exactly for well-formed keys (`SecondUpdateWinsIff`); otherwise the
  scan never matches and every update appends again. A written value is read back exactly when it was quoted or is
  plain text (`QuoteIsReadBackIff`, `UpdateIsReadBackIff`): the quoting rule misses `*`, the empty value, outer blanks
  and other values YAML takes for something else (`StarIsNotReadBack`).

## Model

| member | source | states |
|---|---|---|
| ClusterProtocol.HealthOnlyShrinks | src/cluster/cluster.go:176-353 | No statement except a registration ever makes an unhealthy or missing row healthy. |
| ClusterProtocol.StepKeepsInv | src/cluster/cluster.go:176-353 | Every single statement or local assignment keeps: whoever is primary in a row, in a node's own state, in a captured heartbeat or as an election target, and still healthy, is the least healthy id. |
| ClusterProtocol.JoinKeepsInvIff | src/cluster/cluster.go:500-509 | A registration keeps that invariant if and only if the joining id was healthy already, has a healthy id below it, or no other healthy node is primary in any sense; and no activity in flight will still write it down as primary while a healthy id lies below it. |
| ClusterProtocol.RunKeepsInv | src/cluster/cluster.go:176-353 | The invariant holds after any interleaving in which every join passes that whole test. |
| ClusterProtocol.InvIsExact | src/cluster/cluster.go:176-353 | Where some node can elect, the invariant holds if and only if no run without joins ever shows two healthy nodes primary. |
| ClusterProtocol.JoinIsHarmlessIff | src/cluster/cluster.go:500-509 | A join passes the test if and only if no run without further joins after it shows two healthy nodes primary: after an unsafe join some continuation does. |
| ClusterProtocol.AtMostOneHealthyPrimary | src/cluster/cluster.go:176-353 | From a start with no primary, after any interleaving of single statements from any number of nodes, two healthy nodes never both claim to be primary. |
| ClusterProtocol.JoinBelowBreaksSafety | src/cluster/cluster.go:500-509 | A concrete run: without the join test, two healthy rows say primary. |
| ClusterProtocol.UninterleavedElection | src/cluster/cluster.go:291-353 | The statements of one election, run together, keep every row's health and heartbeat and leave the least healthy id primary and every other row, healthy or not, secondary, with the electing node's own state matching. |
| ClusterProtocol.UninterleavedCheck | src/cluster/cluster.go:192-287 | The statements of one check, run together, mark exactly the stale rows and change nothing else; after its query the check ends if the primary found is healthy and elects otherwise. |
| ClusterProtocol.UninterleavedHeartbeat | src/cluster/cluster.go:181-189 | Capturing the local state and writing it later, with nothing between, writes the node's own state and the given time to its row, keeps its health and leaves all other rows alone. |
| ClusterProtocol.TargetsMoveUp | src/cluster/cluster.go:291-316 | Without joins, election targets in the order of their candidate queries never decrease, and were healthy at the start. |
| ClusterProtocol.PrimariesMoveUp | src/cluster/cluster.go:291-353 | Without joins, the healthy primary seen along a run never goes back to a lower id. |
| ClusterProtocol.PrimaryMovementIsBounded | src/cluster/cluster.go:291-353 | Without joins, both the targets and the visible primary change fewer times than there are healthy nodes. |
| ClusterNode.ClusterManager.SendHeartbeat | src/cluster/cluster.go:181-189 | Fails and changes nothing exactly when its statement is refused; otherwise sets state and time in its own row if it is there, never inserts one, leaves all other rows and everybody's health alone; the node stops being stale for every cutoff up to now, and the rows stay in agreement as long as the node's own state does. |
| ClusterNode.ClusterManager.RegisterNode | src/cluster/cluster.go:500-509 | Unless refused, inserts or replaces its own row as a healthy secondary, leaves all other rows alone, adds exactly this node to the healthy ones, and keeps the rows in agreement if and only if no other healthy primary has a greater id. |
| ClusterNode.ClusterManager.UnregisterNode | src/cluster/cluster.go:512-520 | Unless refused, marks its own row unhealthy and unknown if it is there, keeps its heartbeat and all other rows, removes exactly this node from the healthy ones, and keeps the rows in agreement. |
| ClusterNode.ClusterManager.StaleNodeIds | src/cluster/cluster.go:230-260 | Fails exactly when its query is refused; otherwise returns exactly the healthy ids whose readable heartbeat is before the cutoff, each once. |
| ClusterNode.ClusterManager.MarkNodesUnhealthy | src/cluster/cluster.go:265-287 | Row by row: chunked updates of at most 500 ids take the health of exactly the given ids and nothing else; if one is refused, of exactly the chunks in front of it. |
| ClusterNode.ClusterManager.ElectPrimary | src/cluster/cluster.go:291-353 | Every row keeps its health and heartbeat. Refused at its query or first update, or without a healthy node, nothing changes; refused at its second update every row is secondary; otherwise the least healthy id is primary, every other row, healthy or not, is secondary, and the local state agrees. |
| ClusterNode.ClusterManager.CheckClusterHealth | src/cluster/cluster.go:192-225 | Row by row, whichever statements are refused: only stale rows lose health, heartbeats stay, and the states stay, all become secondary, or become those of an election. A check that succeeds has marked exactly the stale rows; it elects unless it found a healthy primary, and never when all primaries stay healthy. Rows in agreement end with the least healthy id as the one healthy primary, so it repairs what a refused check left. |
| FailoverWrites.ReplayPartitions | src/database/failover.go:235-270 | Every queued write ends up in exactly one of "applied" and "re-queued". |
| FailoverWrites.ReplayIsStable | src/database/failover.go:235-270 | Both parts keep queue order, write by write. |
| FailoverWrites.ReplayKeepsOrderIff | src/database/failover.go:235-270 | For every queue, repeated statements included: applied then re-queued writes are the old queue if and only if no write is accepted after a refused one. |
| FailoverWrites.StampsDoNotMatter | src/database/failover.go:235-270 | Which statements are applied and re-queued, and in which order, does not depend on the stamps that tell repeated statements apart. |
| FailoverProtocol.EveryWriteIsInOnePlace | src/database/failover.go:106-270 | In every interleaving of callers and monitor, the copies of a write in the primary, the queue, the unprocessed replay copy and its callers' hands are as many as the times it was issued; read-only mode, ticker and last error always agree. |
| FailoverProtocol.RunConserves | src/database/failover.go:106-270 | From any state, a run adds as many copies of a write as it issues. |
| FailoverProtocol.QuietStateHoldsAllWrites | src/database/failover.go:106-270 | When no caller and no replay is in flight, the issued writes are exactly the primary's log and the queue. |
| FailoverProtocol.RunKeepsSigns | src/database/failover.go:143-233 | Read-only mode, a live ticker and a recorded error stay in agreement over every run. |
| FailoverProtocol.NothingLeftBehindIff | src/database/failover.go:106-233 | Along any run nothing is ever queued, or about to be, outside read-only mode if and only if the monitor always leaves with an empty queue and no caller about to queue. |
| FailoverProtocol.UncleanLeaveStrands | src/database/failover.go:218-233 | From any other departure, the callers that finish queueing leave a queued write in normal mode on which the ticker does nothing. |
| FailoverProtocol.RecoveryCanStrandAWrite | src/database/failover.go:106-233 | A concrete interleaving from the start that leaves a queued write behind in normal mode with the ticker stopped. |
| FailoverSequential.RefinesPlainLog | src/database/failover.go:63-233 | With operations one at a time and successful replays, primary log followed by queue is always the issued writes in order, and the queue is empty outside read-only mode. |
| FailoverSequential.NeverLosesAWrite | src/database/failover.go:63-270 | Even with refused replays, no write is lost or duplicated. |
| FailoverSequential.RecoveryKeepsOrderIff | src/database/failover.go:188-270 | For every log and queue, exactly when a recovery keeps the log in order, and exactly when it empties the queue. |
| FailoverSequential.ExecKeepsOrderIff | src/database/failover.go:106-129 | In normal mode any new write, also a repeated statement, keeps order if and only if nothing is still queued. |
| FailoverSequential.ReadOnlyIff | src/database/failover.go:63-233 | After any history the manager is read-only if and only if some write or read has failed at the primary since the last recovery that succeeded. |
| FailoverUninterrupted.UninterruptedExec | src/database/failover.go:106-162 | The protocol's events of one write, uninterrupted, do what the write does on its own. |
| FailoverUninterrupted.UninterruptedQuery | src/database/failover.go:63-87 | So do those of one read. |
| FailoverUninterrupted.UninterruptedRecovery | src/database/failover.go:188-270 | So do those of one recovery, for every queue and every pattern of refused writes. |
| FailoverClass.FailoverManager.QueueWrite | src/database/failover.go:131-141 | Appends to the queue, in place while the buffer has room and in a larger copy otherwise. |
| FailoverClass.FailoverManager.HandlePrimaryFailure | src/database/failover.go:143-162 | Enters read-only mode; only the first failure is recorded. |
| FailoverClass.FailoverManager.Exec | src/database/failover.go:106-129 | Field by field: an accepted write outside read-only mode is applied, any other is queued; the first failure enters read-only mode, starts the ticker and records its error. It refines the sequential write. |
| FailoverClass.FailoverManager.Query | src/database/failover.go:63-87 | Served from the cache exactly when the manager ends read-only, which a failure makes it; the queue stays. It refines the sequential read. |
| FailoverClass.FailoverManager.ReplayWrites | src/database/failover.go:235-270 | Re-queueing into the truncated shared buffer never disturbs the copy: successes reach the primary in order, failures are the new queue. |
| FailoverClass.FailoverManager.AttemptRecovery | src/database/failover.go:188-233 | In read-only mode with both tests passed: the queue is replayed, the mode left, the error cleared and the ticker stopped. Otherwise nothing changes at all. It refines the sequential recovery. |
| RetentionTiers.TierIgnoresPruned | src/backup/retention.go:232-245 | Dropping files a tier does not keep leaves what it keeps. |
| RetentionTiers.PruningIsPathIndependent | src/backup/retention.go:289-327 | kept(kept(H) + X) = kept(H + X) for all four overlapping tiers together. |
| RetentionTiers.SortOrderIsIrrelevant | src/backup/retention.go:201-202 | With distinct dates every sort by date keeps the same files. |
| RetentionTiers.PruningKeepsWhatItKept | src/backup/retention.go:232-327 | Any part of a pruned set survives a second pruning whole, whatever order the two unstable sorts gave to same-date backups. |
| RetentionSweep.CutIsShortest | src/backup/retention.go:333-353 | The cap removes the shortest oldest-first prefix that is enough; everything goes only if the newest file alone exceeds the cap. |
| RetentionSweep.TotalIsPermutationInvariant | src/backup/retention.go:329-341 | The total the cap compares does not depend on the order of the listing. |
| RetentionSweep.SecondSweepDeletesNothing | src/backup/retention.go:289-356 | A second sweep with the same settings deletes nothing. |
| RetentionSweep.SweepingEachBackupIsSweepingOnce | src/backup/retention.go:289-327 | Sweeping after every new backup leaves exactly what one sweep over the whole history would keep. |
| RetentionDirectory.NewestAreKept | src/backup/retention.go:232-245 | Marking the last n of a tier's sorted list marks exactly the files with fewer than n later ones in the tier. |
| RetentionDirectory.TiersCoverKept | src/backup/retention.go:297-314 | A path is marked by the four passes if and only if some tier keeps its file. |
| RetentionDirectory.KeptIff | src/backup/retention.go:289-314 | A full backup is kept if and only if it is a January 1 with fewer than keepYearly later ones, a first of a month with fewer than keepMonthly later ones, a Sunday with fewer than keepWeekly later ones, or has fewer than maxBackups later backups, or is the newest. |
| RetentionDirectory.BackupDir.ListRetained | src/backup/retention.go:177-203 | Lists exactly the full backups, in date order. |
| RetentionDirectory.BackupDir.ListIncrementals | src/backup/retention.go:209-230 | Lists exactly the incrementals, in date order. |
| RetentionDirectory.BackupDir.KeepNewest | src/backup/retention.go:232-245 | Adds exactly the paths of the newest n, and none for n of zero or less. |
| RetentionDirectory.BackupDir.SplitTiers | src/backup/retention.go:297-308 | One pass over the listing yields the January-first, first-of-month and Sunday lists. |
| RetentionDirectory.BackupDir.MarkKept | src/backup/retention.go:291-314 | After the four passes a backup is marked if and only if its date, its place and the configured counts keep it, written out in the configuration's own fields. |
| RetentionDirectory.BackupDir.PruneUnmarked | src/backup/retention.go:316-327 | Deletes the unmarked backups oldest first up to the first that cannot be removed, returning their names. |
| RetentionDirectory.BackupDir.ApplyCap | src/backup/retention.go:340-353 | Deletes a prefix of the survivors that satisfies the cap specification, or stops at a failed removal. |
| RetentionDirectory.BackupDir.ApplyRetention | src/backup/retention.go:289-356 | A completed sweep leaves exactly the foreign files, the incrementals and the backups to be kept, less the shortest oldest-first prefix the cap demands; a failed one stops at the first file in that order that cannot be removed. The returned names are the removed files in order, each once. |
| Calendar.DayNumberOrders | src/backup/retention.go:201-202 | Day numbers order valid dates as the calendar does. |
| Calendar.DaysBeforeYearIs | src/backup/retention.go:297-308 | The years before a year hold 365 days each, plus one for every fourth, minus every hundredth, plus every four hundredth. |
| Calendar.SundayIs | src/backup/retention.go:304-306 | The Sundays are January 7, 2024 and every seventh day before and after it. |
| Calendar.NextDay | src/backup/retention.go:297-308 | The day behind a date has the next day number, over the ends of months and years. |
| ArchiveFormat.ReachableIsWalked | src/backup/backup.go:365-413 | Every node of a tree is walked, under its own relative path. |
| ArchiveFormat.WalkedIsReachable | src/backup/backup.go:365-413 | Nothing else is walked. |
| ArchiveFormat.FirstNameDifferenceIsDetected | src/backup/backup.go:433-437 | Archives first differing in a one-line member name feed the hasher different bytes. |
| ArchiveFormat.ReorderingIsDetected | src/backup/backup.go:433-437 | Any reordering of members with distinct one-line names changes the transcript, adjacent swaps included. |
| ArchiveFormat.RenamingIsDetected | src/backup/backup.go:433-437 | Renaming one member changes the transcript, whatever characters the names hold. |
| ArchiveFormat.SwapShowsIff | src/backup/backup.go:433-437 | Anywhere in an archive, swapping two neighbouring files of different names changes the transcript for all contents if and only if neither name, with its newline, starts the other. |
| ArchiveFormat.NewlineNamesHideASwap | src/backup/backup.go:433-437 | A concrete pair of names for which a swap goes unnoticed. |
| Paths.JoinMember | src/backup/backup.go:645 | Joining a directory and a plain member name appends the name's elements to the directory's cleaned ones. |
| Paths.MemberIsAcceptedIff | src/backup/backup.go:638-651 | A member name is accepted if and only if the directory is in cleaned form and neither the root nor ".", and then lands at its own relative path below it. |
| Paths.TrailingSlashRejects | src/backup/backup.go:638-651 | With a trailing slash on the directory every member name is rejected. |
| Paths.ConfinedIff | src/backup/backup.go:638-651 | Below a usable directory any name whatever is accepted if and only if it holds no NUL and, cleaned together with the directory, still starts with the directory's elements; the target and both errors are named. |
| Paths.DotDotUndoes | src/backup/backup.go:645 | Cleaning keeps a plain name, removes it with a ".." behind it, and drops "." and empty elements. |
| BackupMembers.CollectFiles | src/backup/backup.go:236-283 | Collects exactly the names of the members that exist and are asked for, each written out, in the fixed order. |
| BackupMembers.NamesSpelledOut | src/backup/backup.go:236-283 | The members a backup is about are those seven, under those names and conditions. |
| BackupMembers.BackedIff | src/backup/backup.go:236-283 | What is backed from a base directory, by the first elements of its path and the options. |
| BackupMembers.CollectedAreIncluded | src/backup/backup.go:236-283 | A member is collected if and only if its option allows it and it exists; the data directory is not looked for. |
| BackupMembers.MembersAreDisjoint | src/backup/backup.go:236-283 | No member's path lies at or below another's. |
| BackupMembers.WalkedIsBacked | src/backup/backup.go:287-431 | Every entry of an archive is a node below a selected member, named by its path from the base directory. |
| BackupMembers.BackedIsWalked | src/backup/backup.go:287-431 | Every such node is an entry. |
| BackupMembers.RoutedHome | src/backup/restore.go:185-191 | The raw prefix tests route every entry back to the base directory it was read from, and no entry is taken for the manifest. |
| BackupWriter.TarPath | src/backup/backup.go:371-375 | Joining a member name with a walked relative path gives the member's path extended by it. |
| BackupWriter.ArchiveWriter.WriteMember | src/backup/backup.go:433-437 | Appends the entry and feeds the hasher its name, a newline and its bytes. |
| BackupWriter.ArchiveWriter.Walk | src/backup/backup.go:365-413 | Walking a subtree appends its entries and their transcript. |
| BackupWriter.ArchiveWriter.AddToArchive | src/backup/backup.go:359-431 | Adding a file or a directory appends exactly the walk of its node and the matching transcript. |
| BackupWriter.ArchiveWriter.CreateArchive | src/backup/backup.go:287-355 | The archive is the walks of the existing members in order, then a manifest with the checksum of their transcript. |
| BackupWriter.CreatedIs | src/backup/backup.go:287-355 | The last entry is a regular "manifest.json" whose checksum is the digest of everything in front of it. |
| Filesystem.PutIff | src/backup/restore.go:200-224 | Extracting one entry succeeds if and only if no file is where a directory is needed and no directory where the file belongs; it stores the item, makes the directories above it, and changes nothing else. |
| Filesystem.PutAllIff | src/backup/restore.go:162-231 | A sequence of extractions succeeds if and only if each fits what was on disk before and none needs a directory where another stores a file. |
| Filesystem.WrittenIff | src/backup/restore.go:162-231 | It succeeds and every item lasts, with the directories above it there and nothing else changed, if and only if moreover no two put different items at one path. |
| BackupReader.ExtractAllIff | src/backup/restore.go:150-234 | A restore gets through an archive if and only if no entry but a manifest is a link or has a name that leaves its base directory, and all contents can be written together; it has then written them. |
| BackupReader.StopsAtFirstError | src/backup/restore.go:150-234 | Otherwise it stops at the first entry it cannot extract, with that entry's error, the contents in front of it written and nothing behind it. |
| BackupReader.VerifyAllIs | src/backup/backup.go:562-636 | Verification gets through an archive if and only if every entry is acceptable by name, kind and manifest and all can be extracted together into a fresh directory; it has then read the last manifest and the transcript of everything else. |
| BackupReader.ExtractForVerify | src/backup/backup.go:562-636 | The loop reads the archive as that characterisation says, stopping at the first entry with a bad name, an unsupported kind, a conflict on disk or an unreadable manifest. |
| BackupReader.Verify | src/backup/backup.go:521-547 | Accepts exactly when every entry is a directory or regular file with a confined name, manifests can be decoded, all entries can be extracted together, there is a manifest, its checksum is empty or that of everything else, and every extracted `*.db` file passes the database check; it returns the last manifest. |
| BackupReader.VerifiedIff | src/backup/backup.go:521-547 | The same of the verification as a function. |
| BackupReader.VerifiedError | src/backup/backup.go:521-547 | Its error is that of the first entry that cannot be read, or else of the first check that fails: manifest, checksum, databases. |
| BackupReader.FirstUnreadable | src/backup/backup.go:562-636 | The extraction of a verification stops at the first entry that cannot be read, and why. |
| BackupReader.ExtractManifest | src/backup/restore.go:110-147 | Returns the decoded first manifest entry; fails exactly when there is none or it cannot be decoded. |
| BackupReader.RestoreTarget.ExtractArchive | src/backup/restore.go:150-234 | Leaves the files and the error of extracting entry by entry, each of which can fail by link, name or conflict on disk. |
| BackupReader.RestoreTarget.SaveSetupToken | src/util/firstrun.go:59-79 | Makes the configuration directory and stores the token's hash in it; fails exactly when a file is in the directory's way or a directory at the token's place. |
| BackupReader.RestoreTarget.Restore | src/backup/restore.go:30-105 | An archive that does not pass changes nothing on disk and reports the verification's own error; neither does one whose first entry named as a manifest cannot be decoded. Otherwise it is extracted up to the first entry that cannot be, and then the setup token is saved. |
| BackupRoundTrip.EntryLands | src/backup/restore.go:185-200 | Every entry of a backup passes by name and kind and is to be written where it was read from. |
| BackupRoundTrip.TranscriptsAgree | src/backup/backup.go:404-405 | The transcript the verifier recomputes is byte for byte the one the writer hashed. |
| BackupRoundTrip.SoundIff | src/backup/backup.go:653-679 | The database check of the extracted directory passes if and only if it passes on every backed file named `*.db`. |
| BackupRoundTrip.CreatedVerifies | src/backup/backup.go:521-547 | A backup of an installation passes verification, which finds the manifest it was written with, if and only if its databases are sound; otherwise the error is the database check's. |
| BackupRoundTrip.EditedArchiveNeedsCollision | src/backup/backup.go:541-543 | An archive whose transcript was changed verifies only if the digest collides. |
| BackupRoundTrip.EditedRestoreChangesNothing | src/backup/restore.go:39-44 | Restoring an edited archive changes nothing on disk unless the digest collides; if it can be read at all, the error is the checksum's. |
| BackupPlaces.PlacesAreDistinct | src/backup/restore.go:185-200 | Unless the base directories overlap, two backed nodes never share a place. |
| BackupPlaces.KindsAgree | src/backup/restore.go:200-224 | Unless the base directories overlap, no backed file's place is needed as a directory for another node. |
| BackupPlaces.NodesAreNotInTheWay | src/backup/restore.go:185-224 | Unless the base directories overlap, no node of any installation is in another's way. |
| BackupPlaces.TokenIsNotInTheWay | src/util/firstrun.go:59-79 | Nor is the setup token. |
| BackupPlaces.WantedIff | src/backup/restore.go:185-224 | The writes of a restore are what was taken from each base directory, below the same one, and the token's hash in the configuration directory. |
| BackupRoundTrip.RestorePutsBackIff | src/backup/restore.go:30-234 | For any usable base directories: a restore succeeds, puts every backed node back at its base directory and relative path with the setup token beside them, makes the directories above, and changes nothing else, if and only if the databases are sound, nothing of the wrong kind was on disk in the way, and no two of these writes are in each other's way. |
| BackupRoundTrip.OverlapLosesAFile | src/backup/restore.go:185-224 | For every overlapping pair of base directories, an installation with sound databases that is not put back even on an empty disk. |
| BackupRoundTrip.AlwaysPutsBackIff | src/backup/restore.go:30-234 | All installations with sound databases are put back over every disk with room for them if and only if neither base directory lies at or below a selected member of the other, nor the data directory at or below the setup token. |
| AuditPaging.SortedIsInOrder | src/graphql/schema.resolvers.go:2957-2959 | The stable sort of rows in descending id order is newest first, ties by descending id, and keeps the rows. |
| AuditPaging.SortedAbove | src/graphql/schema.resolvers.go:2957-2959 | Sorting commutes with keeping the rows above an id. |
| AuditPaging.PageIsExactIff | src/graphql/schema.resolvers.go:2904-2970 | A page inside the table equals the full-table page if and only if every entry up to its end is among the candidates. |
| AuditPaging.AllPagesExactIff | src/graphql/schema.resolvers.go:3347-3349 | All pages are exact if and only if no entry is more than 500 places further down by id than by instant. |
| AuditPaging.SizeIsSafeIff | src/graphql/schema.resolvers.go:3347-3349 | All tables of a size have exact pages if and only if the size is at most 501. |
| AuditPaging.LateLowestIsMissed | src/graphql/schema.resolvers.go:2904-2970 | In every larger size, a table whose lowest id carries the newest instant: the first page of one row is wrong. |
| AuditPaging.AdminAuditLogs | src/graphql/schema.resolvers.go:2875-2970 | With limit 50 and offset 0 as defaults and no negative offset, the page is the slice at offset of at most limit entries of the first offset + limit + 500 rows, newest first; under small skew of the whole table. Unreadable timestamps count as January 1 of year 1. |
| TimestampText.LayoutOrders | src/cluster/cluster.go:21-26 | Text in the fixed layout, with any suffix, compares as the wall clocks do. |
| TimestampText.LayoutShape | src/cluster/cluster.go:21-26 | The text holds the digits of year, month, day, hour, minute and second in fixed places with fixed marks between them. |
| RequestStats.CountedRowIsSelected | src/graphql/resolvers_helpers.go:773-777 | Every row that counts toward some window passes the text comparison. |
| RequestStats.PrefilterIsExact | src/graphql/resolvers_helpers.go:755-821 | The prefilter never changes the three counts for rows written at most 14h59m west of UTC. |
| RequestStats.PrefilterSafeIff | src/graphql/resolvers_helpers.go:755-821 | That margin is exact: beyond it some table loses a count just after midnight. |
| RequestStats.LoadRequestStats | src/graphql/resolvers_helpers.go:755-821 | For offsets within 14 hours the counters are the numbers of readable rows at or after midnight UTC of the current day, of those with status "error", and of rows at most 60 seconds old. |
| RequestStats.CountedIs | src/graphql/resolvers_helpers.go:755-821 | The counting loop's result as those three sizes, for every table. |
| EmailTemplate.ParseReadsComposed | src/email/email.go:190-224 | A template in the documented layout is read back, whatever its body holds. |
| EmailTemplate.ParseTemplate | src/email/email.go:190-224 | Reports a text of fewer than three lines, a first line without "Subject:" and a missing separator; otherwise the trimmed subject and everything behind the first line that is "---" once trimmed. |
| Text.TrimSpaceIs | src/email/email.go:201-206 | Trimming takes the white space off both ends of a text and nothing else. |
| EmailTemplate.ReplaceIsFill | src/email/email.go:226-240 | Replacing one placeholder throughout any template is filling in that one variable at its slots. |
| EmailTemplate.LeftmostIsReplaced | src/email/email.go:233-237 | The leftmost occurrence of a placeholder is replaced, and the rest behind it in the same way. |
| EmailTemplate.AbsentIsNotReplaced | src/email/email.go:233-237 | Without an occurrence nothing is replaced. |
| EmailTemplate.FillInTwoSteps | src/email/email.go:226-240 | Filling in two disjoint sets of variables in turn is filling in both at once, unless the first builds a slot of the second. |
| EmailTemplate.AnyOrderFillsIn | src/email/email.go:226-240 | On a settled template every order of brace-free variables gives the simultaneous substitution. |
| EmailTemplate.RendersPieces | src/email/email.go:226-240 | A template of texts and slots becomes, in any order, the texts with the variables' values between them, unknown slots left as they are. |
| EmailTemplate.OrderNeverShowsIff | src/email/email.go:226-240 | For brace-free variables any two orders agree on a template if and only if, outside its innermost brace pairs, no brace opens before one that closes. |
| EmailTemplate.BracedOrderNeverShowsIff | src/email/email.go:226-240 | With braces allowed in values, any two orders agree on a template if and only if it has no slot. |
| EmailTemplate.Render | src/email/email.go:226-240 | The map loop replaces each variable once in some order; for settled templates and brace-free variables the result is the simultaneous substitution. |
| EmailTemplate.NestedBracesShowTheOrder | src/email/email.go:226-240 | A nested-brace template whose result depends on the order. |
| EmailTemplate.BracesInValuesShowTheOrder | src/email/email.go:226-240 | A value with braces for which the result depends on the order. |
| WrapText.GreedyStaysAhead | src/client/formatter.go:331-355 | After k lines a greedy wrap has placed at least as many words as any other. |
| WrapText.GreedyIsOptimal | src/client/formatter.go:331-355 | No other wrap uses fewer lines than a greedy one. |
| WrapText.LinesKeepWords | src/client/formatter.go:331-355 | Splitting the lines into words gives the words of the text, in order. |
| WrapText.Wrap | src/client/formatter.go:331-355 | The lines are groups of the input's words in order, joined by single spaces; each fits the width in bytes or is one word, and no other such split has fewer lines. |
| WrapText.FieldsConcat | src/client/formatter.go:332 | The words of a text are those in front of a white space character and those behind it. |
| WrapText.FieldsOfOne | src/client/formatter.go:332 | A word on its own is one word, and white space is none. |
| YamlKey.SplitKey | src/cli/maintenance.go:162-174 | The scan cuts the key at every dot, and the parts joined with "." give it back. |
| YamlScalar.YamlQuote | src/cli/maintenance.go:176-184 | A value is written between double quotes exactly when it holds one of nine characters, and a written value holds no newline. |
| YamlScalar.QuoteIsInjective | src/cli/maintenance.go:176-184 | Different values are written differently. |
| YamlScalar.QuoteIsReadBackIff | src/cli/maintenance.go:176-184 | A YAML reader gets a written value back if and only if it was quoted or is a plain scalar: printable, without outer blanks, no word for null, not starting with an indicator. |
| YamlScalar.StarIsNotReadBack | src/config/config.go:960 | The program's own default for the allowed origins is written without quotes and is not read back. |
| YamlKey.OverwriteMatched | src/cli/maintenance.go:225-255 | The flag-carrying scan overwrites in place exactly the lines inside the section that start with the sub-key, and reports whether there was one. |
| YamlKey.MatchedIff | src/cli/maintenance.go:236-252 | Those are the lines that start with the sub-key and a colon, do not open the section and are not at the margin, behind a line that opens it with no other text at the margin between them. |
| YamlKey.UpdateYamlKey | src/cli/maintenance.go:225-263 | Overwrites the matched lines, or appends a section, or leaves a key without a dot alone. |
| YamlKey.UpdateIsRead | src/cli/maintenance.go:225-263 | After an update of a well-formed key the scan matches some line, and every line it matches carries the new value. |
| YamlKey.UpdateIsReadBackIff | src/cli/maintenance.go:176-263 | After an update of a well-formed key, what stands behind the key on every matched line is read as the value if and only if it was quoted or is plain text. |
| YamlKey.UpdateKeepsOtherLines | src/cli/maintenance.go:225-263 | Unmatched lines keep text and place; an append drops all trailing blank lines and nothing else. |
| YamlKey.IllFormedNeverMatches | src/cli/maintenance.go:225-255 | For an ill-formed key no line of any file ever matches. |
| YamlKey.SecondUpdateWinsIff | src/cli/maintenance.go:225-263 | A second update overwrites the first as if it had never run, on every file and for all values, if and only if the key is well-formed. |
| ClientServers.AllServersMembers | src/client/config.go:101-125 | The servers walked are the configured ones, the primary first and not again. |
| ClientServers.NodePlace | src/client/config.go:108-125 | Every other node walked has its place behind the primary and the walked nodes configured before it. |
| ClientServers.GetAllServers | src/client/config.go:108-125 | The loop builds that list. |
| ClientSession.WalkReachesFirst | src/client/http.go:50-101 | A request is answered by the first configured server that has not failed and connects; every attempt before it failed. |
| ClientSession.WalkMarksRefused | src/client/http.go:50-101 | A request marks as failed exactly the refusing servers in front of the answering one. |
| ClientSession.SessionFailuresAreBounded | src/client/http.go:50-101 | Over any sequence of requests, failed connections number at most the distinct configured servers, a server that failed is never contacted again, and only configured servers are contacted. |
| ClientSession.HTTPClient.Contact | src/client/http.go:60-96 | Field by field: a server that failed is skipped and the remembered error kept, a refusing one alone is marked and its error remembered, an answering one becomes current. |
| ClientSession.HTTPClient.DoWithFailover | src/client/http.go:50-101 | The client's new state is the walk's; the result is the first answering server's status, with 401 and 403, 404 and all other statuses from 400 as errors; or else the error of the server tried last, or "unreachable" exactly when every configured server had failed before. |

## Left out

- SQL engines, drivers, timeouts and schema: a table is a map and a statement is one atomic step.
- Cluster node ids are integers standing for the collation order of the ids; a candidate row that cannot be scanned is not modelled, and `Abandon` covers failed statements and stopped nodes.
- ClusterProtocol.AtMostOneHealthyPrimary: takes as hypotheses a start without a healthy primary and joins that pass the join test, because the source's law fails without them (`JoinBelowBreaksSafety`).
- SyncConfig, pullConfigFromPrimary and pushConfigToSecondaries only count and log.
- Queued write timestamps, the cache database's contents and QueryRow, which never fails over.
- FailoverProtocol.EveryWriteIsInOnePlace: counts a write whose statement failed as not applied, because what a database did before reporting an error is not visible to the manager; no claim is made that a recovery is ever attempted.
- RetentionDirectory.BackupDir.ApplyRetention: takes the cap as a natural number, because size parsing is floating point; sums are unbounded integers where the source uses 64 bits. Foreign file names are outside the directory's set.
- gzip, the tar wire format, encryption, the digest and JSON are functions of a `Codec`; that decoding a manifest gives it back, and that an empty file is a sound database, are hypotheses.
- BackupRoundTrip.RestorePutsBackIff: assumes members collected as files are files and members collected as directories are directories, because a directory named `server.yml` would be routed to the data directory; links and special files inside the trees are not walked, and permissions and modification times are not recorded.
- Filesystem.PutIff: compares paths by their cleaned names, so symbolic links, the working directory behind relative paths, permissions and a full disk are not modelled.
- BackupReader.Verify: does not model decryption; what the database check says of a file is a function of its bytes, so companion journal files are not modelled.
- Generating and hashing the setup token (its hash is a parameter) and the console output of a restore.
- Audit-log columns other than id and timestamp, rows that cannot be scanned, and the role check.
- RequestStats.LoadRequestStats: takes each row's instant as given, because the timestamp parser is not part of this model; the per-second quotient is left out, and the start of the scan must lie in years 0 to 9999.
- WrapText.Wrap: is about valid UTF-8 text, because a text is a sequence of characters.
- YamlScalar.QuoteIsReadBackIff: reads one value on the line of its key, by the rules of YAML 1.2.2 for plain and double-quoted scalars with the line breaks of yaml.v3, which is not part of this model; the table of printable characters above U+00FF is a parameter without line breaks and noncharacters, and lines that would continue a scalar are left out.
- Sending mail, loading template files, building request URLs and headers, and reading response bodies.
- Configuration validation and defaulting, the other resolvers, the terminal interface and the setup wizard.
