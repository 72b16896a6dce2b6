# Verification of the backup engine and its neighbours

A Dafny model of the agent's incremental, resumable backup engine (`agent/internal/backup`) and of a few
small stateful components beside it, with proofs about all inputs, all runs and all interleavings.

## What is modelled

A **run** walks a tree, compares it with the newest manifest, references unchanged files where older
snapshots stored them, uploads the rest, checkpoints every upload in a journal on disk, and publishes a
manifest. Runs can be stopped, fail half-way, resume under the same snapshot ID, or find a journal too old
and delete its remote prefix. Because one snapshot's bytes may lie under another's prefix, whether a snapshot
can be restored is a property of the whole shared object store over all runs. Restore, verification and the
vault depend on it.

| file | contents |
|---|---|
| Domain, Keys, Text | entries, snapshots, the store; object naming; joining, numerals, length prefixes |
| Incremental, Engine, RunExact | reference decisions; the run as functions, one per loop variable; what it sends, keeps and publishes in terms of what happened to each file |
| SnapshotRun, RunJournal, Checkpoint, Storage, BackupRun, LossyRuns | the same run as the program does it: classes for provider and journal, loops, methods proved equal to the functions, down to the text left in the journal file and to what is left of that text after a crash |
| Journal, JournalCodec | the journal as text: reading, appending, crashes; a codec that meets the laws asked of one |
| History, HistoryExact, RestorePoints, Resume, ResumeHistory, Progress, FullRun | all histories of runs: soundness, immutability, content, resume, counters, and exactly when a full run goes wrong |
| Retention, Vault, VaultHistory, VaultBreaks, Manager | pruning by prefix, the vault mirror, primary and vault over all interleavings of runs and syncs, which managers prune, journal identity |
| Restore, RestoreReport, RestoreResume, RestoreExact, Verify, Disagreement | restore attempts, their reports and their resume file; agreement of restore, test restore and verification |
| RunStop | the run/stop protocol as a state machine over all interleavings |
| Exclude, Walk, Collect, Vss | doublestar patterns, the pruned walk, the sorted file list, shadow-copy paths |
| Audit, AuthBackoff, Failover, RtpClock | the audit hash chain, the authentication gate, the watchdog's URL choice, RTP timestamps |

Code that computes is a function; code that changes things is a class or a method with loops, and its
`ensures` equates the new state with a function of the old one. Theorems are about those functions.
`BackupRun.RunBackup` ties the two together: the imperative run, on a provider and a journal file, is the
`Backup` step of the protocol in `History` in its store, its result and the text it leaves in the journal,
followed at most by a `Corrupt` step when that text will be rejected. A line of which only the newline is
missing counts as recorded. `BackupRun.RunBackups` repeats this for any number of runs, and
`LossyRuns.RunBackupsLosing` lets the journal file lose any number of its last bytes before each of them.

Failures are inputs. A `FileEnv`, `RunEnv`, `OpenEnv`, `AttemptEnv` or `Event` says which transfers fail,
what they leave behind, where cancellation is noticed and which writes reach the disk, and the theorems
hold for every value of them unless a hypothesis says otherwise.

## Hypotheses

These are assumptions about the surroundings that the code itself needs; each is a named predicate.

- `History.StepOk`: new snapshot IDs are unused and have no slash, and the manifest compared against is in
  the store. `BackupRun.ListedIsHeld` shows that a listed manifest is.
- Publishing the manifest and completing the journal are one step, and a manifest upload that fails leaves
  no manifest (`agent/internal/backup/snapshot.go:592-608`).
- `History.WalkOk`: a file is sent with the size the walk saw, and hashed with the bytes that were sent
  (`Steady`; the program reads it twice, `agent/internal/backup/snapshot.go:510-517`); no two walked files
  share an object key; two files with one lookup key are the same file. `FullRun.FullRunSoundIff` does
  without the first two and gives the exact condition for a full run.
- Paths are valid UTF-8: `encoding/json` replaces any other bytes in manifests and journal lines.
- Snapshot IDs all have one length (`agent/internal/backup/snapshot.go:887-891`), so the vault's listing of
  one snapshot's directory returns no other snapshot's keys (`VaultHistory`).
- `History.Coherent`: a file does not return to an earlier size and modification time after having changed.
  `History.CoherentIfStable` derives it from `StableSlots` and `StatsNeverRecur`.
- `RestorePoints.StatDeterminesBytes` (content theorems only): path, size and time determine the bytes.
- `Domain.CollisionFree`, `Audit.GoodHash`: the hash has no collisions.
- `Journal.Lawful`: encoded journal lines are newline-free and round-trip; neither a torn line nor a line
  with the start of another glued to it decodes. `JournalCodec.LawfulCodecExists` exhibits such a codec.

## Where the code does not do what one might expect

Each of these has a concrete input and an exact condition among the lemmas.

- `a.log` and `a.log.gz` side by side get one object, and the snapshot is broken
  (`FullRun.GzipNeighbourBreaks`). So is one with a file that changes while it is backed up
  (`FullRun.ChangingFileBreaks`). A clean full run is sound exactly when the last file sent to each object had
  the size the walk saw and the bytes that were hashed, for every file recorded on that object
  (`FullRun.FullRunSoundIff`); when no file changes, exactly when files that share an object agree
  (`FullRun.SteadyRunSoundIff`).
- A path containing a comma can be taken for two paths in the journal identity (`Manager.CommaConfuses`);
  two lists get one identity exactly when their comma-separated pieces agree (`Manager.IdentitySeparates`).
  A local destination with a bar in its path can be taken for another one (`Manager.BarConfuses`); two
  destinations are told apart exactly when what lies between the bars differs (`Manager.DestinationsSeparate`).
- The restore's resume state is kept by object, and a completed file is skipped when a file of its size is at
  the target. With two files on one object, a stale file at the second target is counted as restored
  (`RestoreResume.SharedObjectSkipped`). Restores always end with every file in place exactly when no file
  that shares its object starts out with a wrong file of the right size at its target
  (`RestoreExact.InPlaceIff`).
- For the same reason a restore can count a file that verification rejects: `x` and `x.gz` are uploaded, the
  run is interrupted, `x` changes, and the resumed run sends `x` again over the object of both
  (`Disagreement.RestoreCountsWhatVerifyRejects`). The two agree on every machine exactly when no object is
  good for one file and bad for a later one (`Verify.AgreeIffConsistent`).
- The vault copies one snapshot's prefix and never what it references, so an incremental snapshot synced on
  its own is broken there (`VaultBreaks.LoneSyncBreaks`). Its retention is blind to references as well: with
  a count of one, the second of two synced snapshots loses its base (`VaultBreaks.RetentionBreaks`). With no
  sync failing, a manifest in the vault is sound exactly when every object it names belongs to a snapshot whose
  manifest the vault still has; in general, exactly when every such object was copied
  (`VaultHistory.VaultSoundIff`).
- An empty snapshot restores as "completed" but never verifies as "passed" (`Verify.RestoreMatchesVerify`).
- The audit log calls its chain broken whenever a rotation sentinel cannot be written. What is on disk is
  broken only once something is written after a rotation that lost both its sentinel and the entry that
  triggered it (`Audit.FullDiskBreaksChain`, `Audit.ChainCompleteIff`).
- The entry that triggers a rotation links past the sentinel (`Audit.RotationBypassesSentinel`); records link
  to their immediate predecessors exactly when that never happened and nothing was written after a break
  (`Audit.StrictIff`).
- Overlapping roots make the number of files reported as done fall short of the manifest
  (`Progress.OverlapUndercounts`), exactly when two resumed files share a lookup key (`Progress.FinalCounts`).
- A drive-relative path is rewritten to the shadow device but not recovered (`Vss.DriveRelativeNotRecovered`,
  a fact about the path: the rewritten root does not exist, and the walk stops there), and can even be taken
  for a file on another volume (`Vss.DriveRelativeMistaken`); exactly the paths with a separator behind the
  volume come back (`Vss.RecoversIffRooted`).

## Model

| member | source | states |
|---|---|---|
| `Keys.ScopedOwner` | agent/internal/backup/snapshot.go:802-817 | a key listed for a snapshot belongs to that snapshot and to no sibling whose ID merely starts the same |
| `Keys.ScopesDisjoint` | agent/internal/backup/snapshot.go:802-817 | two snapshots' listings have no key in common |
| `Keys.ScopedIffOwned` | agent/internal/backup/snapshot.go:802-817 | a snapshot's scope is its directory entry and everything below it, and nothing else |
| `Keys.ManifestKeyFormat` | agent/internal/backup/snapshot.go:592-608 | where a manifest lies |
| `Keys.ObjectKeyFormat` | agent/internal/backup/snapshot.go:440-441 | where a file's object lies, with one gzip suffix |
| `Keys.ManifestPathIff` | agent/internal/backup/snapshot.go:826-829 | a key is taken for a manifest exactly when its last segment is the manifest's name |
| `Keys.SlotCollision` | agent/internal/backup/snapshot.go:819-824 | two walked paths share an object key exactly when they are equal or one is the other plus ".gz" |
| `Keys.ObjectKeysCollide` | agent/internal/backup/snapshot.go:440-441 | the gzip suffix decides collisions on the walked path, whatever the snapshot ID |
| `Keys.ObjectKeyFacts` | agent/internal/backup/snapshot.go:440-441 | a data key lies under its snapshot's prefix and is never taken for a manifest |
| `Keys.ManifestKeyFacts` | agent/internal/backup/snapshot.go:826-829 | a manifest key lies under its snapshot's prefix and is recognised as one |
| `Incremental.BuildPreviousIndex` | agent/internal/backup/incremental.go:69-78 | the index holds, per key, the last entry of the previous manifest |
| `Incremental.ReferenceKeepsIntact` | agent/internal/backup/incremental.go:110-141 | a reference entry is as intact as its origin and carries this run's size and time; if equal size and time mean equal bytes, it denotes the current bytes on the fast branch and on the hashed one |
| `Engine.EntryPerFile` | agent/internal/backup/snapshot.go:415-559 | a run that neither stops nor skips keeps exactly one entry per walked file, in order |
| `Engine.UntouchedKey` | agent/internal/backup/snapshot.go:415-559 | an object that no started transfer is aimed at is unchanged by the loop |
| `Engine.UploadedStaysUnlessHit` | agent/internal/backup/snapshot.go:415-559 | an uploaded file's bytes are still stored later in the loop unless a file with its key came after |
| `Engine.NoNewManifest` | agent/internal/backup/snapshot.go:415-559 | uploading never creates or changes a manifest |
| `Engine.ResumedMeaning` | agent/internal/backup/snapshot.go:385-403 | the resumed map holds exactly the keys of walked files whose journal entry has their size and time |
| `RunExact.OutcomeIff` | agent/internal/backup/snapshot.go:415-500 | each file's fate, exactly: stopped, carried over, referenced, uploaded when one of at most two transfers arrives, skipped when both fail, cut off when the run is cancelled during or between them |
| `RunExact.TransferExact` | agent/internal/backup/snapshot.go:459-487 | a file's object after its transfers: a second one is made exactly after a plain failure that the run outlives |
| `RunExact.SentIff` | agent/internal/backup/snapshot.go:415-487 | a transfer is started exactly for the files the loop reaches that are neither carried over nor unchanged |
| `RunExact.ChangedIsSent` | agent/internal/backup/incremental.go:110-127 | system-state files, new files, files of another size, and files whose time changed and whose bytes changed or could not be read are each sent |
| `RunExact.PublishesExactly` | agent/internal/backup/snapshot.go:415-612 | when a run publishes and when it reports being stopped; the manifest has exactly the entries of the files carried over, unchanged, or arrived, in walking order and field by field |
| `RunExact.ArrivedIsPublished` | agent/internal/backup/snapshot.go:459-559 | a file whose retry arrives is in the published manifest |
| `RunExact.UnchangedSendsNothing` | agent/internal/backup/incremental.go:110-127 | a run over files that all match the previous manifest, by time or by hash, sends nothing, references them all and adds only its manifest to the store |
| `RunExact.StoppedLeaves` | agent/internal/backup/snapshot.go:405-413 | a stopped run keeps everything when a journal can resume it, and otherwise nothing deletable below its prefix |
| `HistoryExact.RerunSendsNothing` | agent/internal/backup/incremental.go:110-127 | after any history, a run over the tree a complete run has just published sends nothing and refers every file back |
| `HistoryExact.OpensExactly` | agent/internal/backup/journal.go:132-211 | when a journal is continued, replaced or done without, and when a stale snapshot is named |
| `HistoryExact.DiscardedPrefixGone` | agent/internal/backup/backup.go:518-529 | a journal of another identity or older than a week loses what can be deleted of its snapshot; without such a journal a run leaves all other prefixes alone |
| `History.EveryManifestSound` | agent/internal/backup/snapshot.go:276-612 | in every state any history of full, incremental, stopped, failed, resumed and discarded runs and journal damage reaches, every manifest names only objects present with its size and checksum |
| `History.HistoryKeepsInv` | agent/internal/backup/snapshot.go:276-612 | the global store-and-journal invariant holds along every history |
| `History.BackupKeepsInv` | agent/internal/backup/backup.go:503-536 | one run, from opening the journal to its end, keeps the invariant |
| `History.RunKeepsStore` | agent/internal/backup/snapshot.go:415-612 | whatever happens during a run, it leaves a sound store and changes only its own prefix, plus the manifest it publishes |
| `History.RunKeepsLog` | agent/internal/backup/journal.go:319-345 | a journal kept after a run names only objects that still hold the uploaded bytes, or files that have changed since |
| `History.EntryPlaced` | agent/internal/backup/snapshot.go:415-559 | each entry of a run, uploaded, resumed or referenced, names an intact object of its own or of a published snapshot |
| `History.OtherJournalKept` | agent/internal/backup/backup.go:518-529 | runs of one identity, including their clean-up of a stale prefix, leave other identities' journals good |
| `History.CoherentIfStable` | agent/internal/backup/snapshot.go:385-395 | stable object keys and non-recurring stat tuples are enough for coherence |
| `RestorePoints.DeletionSafe` | agent/internal/backup/snapshot.go:661-672 | after any history, a run overwrites or deletes only objects under its own prefix and that of the one journal it discards, neither of them ever published, and none that a manifest names |
| `RestorePoints.RunTouchesOnlyUnpublished` | agent/internal/backup/backup.go:518-529 | the same for one run, stale clean-up included, from any state meeting the invariant |
| `RestorePoints.RestorePointsImmutable` | agent/internal/backup/journal.go:403-424 | a published manifest and every object it names stay exactly as they are through any further history |
| `RestorePoints.PublishedDenotesTree` | agent/internal/backup/snapshot.go:276-612 | a run that publishes without skipping a file publishes exactly the tree it walked: files, order, sizes, times and bytes |
| `RestorePoints.IncrementalRefinesFull` | agent/internal/backup/incremental.go:110-141 | against the same tree, an incremental run's manifest reads back the bytes of a full run's, file by file |
| `RestorePoints.HistoryKeepsContent` | agent/internal/backup/incremental.go:110-141 | along every history, every manifest entry's object holds bytes that some run saw under the entry's path, size and time |
| `RestorePoints.ReferencedCountExact` | agent/internal/backup/backup.go:551-556 | counting manifest entries outside the snapshot's own prefix counts exactly the files the run referenced |
| `RestorePoints.EntryTellsReference` | agent/internal/backup/incremental.go:152-155 | an entry lies outside its snapshot's prefix exactly when it was referenced |
| `Resume.ResumeEquivalence` | agent/internal/backup/snapshot.go:385-439 | after any interruptions and losses of journal lines, the finishing attempt publishes an uninterrupted run's manifest and sends no file recorded in the journal it found |
| `Resume.NoAttemptRepeats` | agent/internal/backup/snapshot.go:415-439 | no attempt, interrupted or not, sends a file recorded in the journal it found |
| `ResumeHistory.ResumeInHistory` | agent/internal/backup/backup.go:503-536 | the same equivalence for backup steps of the protocol: interrupted runs and lost journal lines, then a run that finishes, publish what one undisturbed run would have |
| `Progress.ReportsMonotone` | agent/internal/backup/snapshot.go:318-403 | under any interleaving of upload loop and keepalive, reported counters never decrease and never exceed the totals |
| `Progress.ReportsAreCurrent` | agent/internal/backup/snapshot.go:333-372 | every report, of the loop or the keepalive, shows the counters of the moment |
| `Progress.PositionIsUploads` | agent/internal/backup/snapshot.go:345-372 | only the loop moves the counters |
| `Progress.FinalCounts` | agent/internal/backup/snapshot.go:415-573 | at the end, bytes done are the snapshot's size, entries plus failures are the walk, and files done are the entries exactly when no two resumed files share a key |
| `Progress.OverlapUndercounts` | agent/internal/backup/snapshot.go:388-395 | the concrete input: one file under two overlapping roots, resumed, is two entries but counts once |
| `Progress.ResumedMapSize` | agent/internal/backup/snapshot.go:388-395 | the resumed map is as large as the number of resumed files exactly when their keys differ |
| `FullRun.FullRunSoundIff` | agent/internal/backup/snapshot.go:440-559 | an undisturbed full run publishes a sound snapshot exactly when, for every file, the last file sent to its object had the file's walked size and the bytes hashed for it |
| `FullRun.SteadyRunSoundIff` | agent/internal/backup/snapshot.go:440-559 | when no file changes during the run, that is exactly when files sharing an object key have the same bytes |
| `FullRun.ChangingFileBreaks` | agent/internal/backup/snapshot.go:505-535 | the concrete input: one file that changes between being sent and being hashed |
| `FullRun.GzipNeighbourBreaks` | agent/internal/backup/snapshot.go:819-824 | the concrete counterexample: a log beside its compressed copy |
| `Journal.ReadJournal` | agent/internal/backup/journal.go:218-263 | header and last entry per key, or rejection of the whole file |
| `Journal.AppendedRead` | agent/internal/backup/journal.go:319-345 | whatever part of an appended line arrives, the file is rejected, unchanged, or has exactly the new entry more |
| `Journal.RecordIsDurable` | agent/internal/backup/journal.go:319-345 | a record that follows a terminated line is read back exactly when it fits a line, and makes the journal unreadable otherwise |
| `Journal.JournalRoundTrip` | agent/internal/backup/journal.go:218-345 | a header and any entries, written line by line, read back as they were exactly when every line fits |
| `Journal.BlankLineIgnored` | agent/internal/backup/journal.go:218-263 | blank lines say nothing |
| `Journal.LoadedIsNamed` | agent/internal/backup/journal.go:218-263 | a journal that can be read names a snapshot |
| `Journal.HeaderComesFirst` | agent/internal/backup/journal.go:218-263 | its first line is its header, decoded and within the line limit |
| `Journal.RestartContinues` | agent/internal/backup/journal.go:132-211 | a restart goes on with a readable rest as it is, and replaces only an unreadable one |
| `Journal.JournalCrashSafety` | agent/internal/backup/journal.go:132-263 | after any alternation of records, torn writes, crashes and restarts, every truncation is rejected or gives the header and the last-entry-wins map of a prefix of the entries |
| `Journal.PoisonedIsRejected` | agent/internal/backup/journal.go:419-424 | an emptied journal is rejected |
| `JournalCodec.LawfulCodecExists` | agent/internal/backup/journal.go:218-263 | the laws asked of the line encoding can be met |
| `Checkpoint.SnapshotJournal.Record` | agent/internal/backup/journal.go:319-345 | appends one line, of which a prefix may arrive; the entry is remembered only if the write succeeded, and a failed write stops all later ones |
| `Checkpoint.SnapshotJournal.Lookup` | agent/internal/backup/journal.go:352-361 | returns the recorded entry exactly for the same key, size and time |
| `Checkpoint.SnapshotJournal.Complete` | agent/internal/backup/journal.go:403-424 | removed or emptied, the file can neither be resumed nor reported as stale |
| `Checkpoint.OpenSnapshotJournal` | agent/internal/backup/journal.go:132-211 | continues, replaces or does without a journal as the protocol's open step says, and reports a discarded snapshot's ID only for a readable journal of the wrong age or identity |
| `Storage.ListSnapshotPrefixItems` | agent/internal/backup/snapshot.go:802-817 | exactly the snapshot's own keys, whatever else the provider lists |
| `Storage.CleanupSnapshotPrefix` | agent/internal/backup/snapshot.go:661-672 | removes exactly the deletable keys of one snapshot |
| `Storage.ListSnapshots` | agent/internal/backup/snapshot.go:675-746 | exactly the readable manifests, oldest first, each once, and whether any was unreadable |
| `Storage.PreviousManifest` | agent/internal/backup/incremental.go:38-59 | a newest manifest, and only when every manifest could be read |
| `SnapshotRun.SeedResumed` | agent/internal/backup/snapshot.go:385-403 | the resumed map and byte count that the run starts from |
| `SnapshotRun.UploadWithRetry` | agent/internal/backup/snapshot.go:459-487 | one retry after a plain failure, none after a cancellation, and what both attempts leave in the store |
| `SnapshotRun.HandleFile` | agent/internal/backup/snapshot.go:415-559 | one file's fate, and what it does to store and journal |
| `SnapshotRun.UploadLoop` | agent/internal/backup/snapshot.go:415-559 | store, journal, entries, sizes, failures and counters after the loop, also when it stops early |
| `SnapshotRun.PublishSnapshot` | agent/internal/backup/snapshot.go:560-612 | nothing for an empty snapshot, clean-up or not for a stopped one, the manifest last otherwise |
| `SnapshotRun.CreateSnapshot` | agent/internal/backup/snapshot.go:276-612 | the whole run on a mutable store and journal equals the functional run, including final counters, recorded entries, what the journal file reads as afterwards, and what any prefix of it does |
| `RunJournal.TextStep` | agent/internal/backup/journal.go:319-345 | each upload moves the journal file on: one line more, or a broken writer whose file is rejected, unchanged, or one line longer |
| `RunJournal.TrackStep` | agent/internal/backup/journal.go:319-345 | each upload keeps every prefix of the file rejected or a prefix of the lines, of which at most one more than the writer was sure of |
| `RunJournal.TrackFinal` | agent/internal/backup/journal.go:218-263 | after the loop every prefix of the file is rejected or reads as a prefix of the lines found plus those of the recorded uploads |
| `RunJournal.TextFinal` | agent/internal/backup/journal.go:218-263 | after the loop the file is rejected or reads as the lines found plus those of the recorded uploads |
| `BackupRun.RunBackup` | agent/internal/backup/backup.go:503-536 | opening, stale clean-up, creation and the journal left behind are the protocol's backup step, followed at most by corruption of that journal; and a journal that withstood the loss of any tail still does |
| `BackupRun.RunBackups` | agent/internal/backup/backup.go:503-536 | any number of runs on one store and one journal file, each with its own failures and comparing with the newest manifest it can list, leave every manifest sound |
| `LossyRuns.RunBackupsLosing` | agent/internal/backup/journal.go:132-263 | the same when, before each run, the journal file may also lose any number of its last bytes |
| `LossyRuns.RunAfterLoss` | agent/internal/backup/journal.go:132-263 | a run that starts from what a loss left again leaves a journal that withstands the loss of any tail |
| `LossyRuns.LossIsStep` | agent/internal/backup/journal.go:218-263 | losing the tail of such a journal is, in the protocol, nothing, or losing its last lines, or losing all of it |
| `BackupRun.OpenRun` | agent/internal/backup/backup.go:503-536 | the store, the context and the journal a run starts with are the protocol's |
| `BackupRun.ListedIsHeld` | agent/internal/backup/incremental.go:38-59 | a manifest found by listing a sound store is held under its own key |
| `Retention.DropExpired` | agent/internal/backup/snapshot.go:780-799 | removes the prefixes of all but the newest snapshots and nothing else |
| `Retention.DeleteSnapshots` | agent/internal/backup/snapshot.go:754-800 | does nothing for a non-positive count; otherwise prunes the oldest of the listed snapshots |
| `Retention.SoundAfterPruning` | agent/internal/backup/snapshot.go:754-800 | a sound manifest survives pruning exactly when none of its objects lies under a dropped prefix |
| `Retention.FullSnapshotsSurvive` | agent/internal/backup/snapshot.go:754-800 | a retained snapshot without references always survives |
| `Retention.NewestRemain` | agent/internal/backup/vault.go:178-209 | what remains are the newest snapshots, as many as there were up to the count, none older than a dropped one |
| `Vault.VaultManager.constructor` | agent/internal/backup/vault.go:49-69 | a non-positive retention count means three |
| `Vault.VaultManager.SyncSnapshot` | agent/internal/backup/vault.go:76-174 | what a sync copies, keeps and overwrites, when it reports errors, and what it takes back when the manifest cannot be written |
| `Vault.VaultManager.EnforceRetention` | agent/internal/backup/vault.go:178-209 | prunes the vault's own inventory to the retention count |
| `Vault.VaultManager.SyncAfterBackup` | agent/internal/backup/vault.go:212-221 | prunes only after an error-free sync, and then the vault's inventory is its newest manifests; without one it leaves what the sync left |
| `Vault.SyncedExactly` | agent/internal/backup/vault.go:76-174 | every key after a sync: the primary's, or as it was in the vault |
| `Vault.IntactAfterSync` | agent/internal/backup/vault.go:76-174 | after a sync, an object under the synced prefix is the vault's old copy or else the primary's, and any other object is as it was |
| `Vault.SoundAfterSync` | agent/internal/backup/vault.go:76-174 | a synced snapshot is sound in the vault exactly when its references were intact there already |
| `Vault.RetainedStaysSound` | agent/internal/backup/vault.go:178-209 | a retained manifest stays sound exactly when nothing it names lies under a dropped prefix; without references, always |
| `VaultHistory.VaultSoundIff` | agent/internal/backup/vault.go:76-221 | over every interleaving of runs and syncs, a manifest in the vault is the primary's and sound exactly when all its objects were copied; with no sync failing, exactly when each belongs to a snapshot whose manifest the vault still has |
| `VaultHistory.MovesKeep` | agent/internal/backup/vault.go:76-221 | the vault always holds only copies of what the primary keeps below published prefixes; with no sync failing, exactly the prefixes of the snapshots whose manifests it holds |
| `VaultHistory.Frozen` | agent/internal/backup/backup.go:503-536 | nothing below a published snapshot's prefix ever changes again |
| `VaultHistory.SyncStep` | agent/internal/backup/vault.go:212-221 | the vault manager's sync and retention are the sync move of these interleavings |
| `VaultHistory.CleanSyncWhole` | agent/internal/backup/vault.go:178-221 | an error-free sync adds one whole prefix, and retention takes whole prefixes away |
| `VaultBreaks.LoneSyncBreaks` | agent/internal/backup/vault.go:76-174 | the concrete history: two runs over an unchanged file, and only the second snapshot synced |
| `VaultBreaks.RetentionBreaks` | agent/internal/backup/vault.go:178-209 | the concrete history: both snapshots synced into a vault that keeps one |
| `Manager.HelperNeverPrunes` | agent/cmd/bl4ck-backup/exec_backup.go:144-170 | no manager built from a command or from the configuration file both keeps a count and runs without references |
| `Manager.HelperBuildsExactly` | agent/cmd/bl4ck-backup/exec_backup.go:144-170 | exactly which managers the helper can build |
| `Manager.HelperBuildsWhen` | agent/cmd/bl4ck-backup/exec_backup.go:144-170 | when a configuration or a command gives a manager, and that an unset count means seven |
| `Manager.RetentionStep` | agent/internal/backup/backup.go:578-586 | prunes the listed snapshots exactly after a snapshot of system state alone with a positive count, hence never for a manager the helper builds |
| `Manager.IdentitySeparates` | agent/internal/backup/snapshot.go:871-877 | two path lists get one identity exactly when their comma-separated pieces agree |
| `Manager.DestinationsSeparate` | agent/internal/backup/snapshot.go:871-877 | two destinations get one identity exactly when what lies between the bars agrees; with equally many bars, exactly when they and the paths' pieces are equal |
| `Manager.BarConfuses` | agent/internal/backup/snapshot.go:871-877 | two local destinations with one identity |
| `Manager.CommaConfuses` | agent/internal/backup/snapshot.go:876 | one path with a comma and two paths with one identity |
| `Restore.FilterFiles` | agent/internal/backup/restore.go:330-345 | exactly the files under one of the selected prefixes, in order; all of them for no prefix |
| `Restore.Machine.RestoreOne` | agent/internal/backup/restore.go:125-264 | one file: skipped, downloaded, placed, checked and remembered, or failed at any of these |
| `Restore.Machine.RestoreFromSnapshot` | agent/internal/backup/restore.go:51-298 | one attempt's report, targets and resume file |
| `RestoreReport.ReportExact` | agent/internal/backup/restore.go:60-298 | when an attempt reports completed, partial or failed, whether it reached its files or not and wherever it was cancelled; what the counts add up to; when the resume file goes |
| `RestoreReport.FileExact` | agent/internal/backup/restore.go:125-264 | when a file counts as restored and when as failed, which downloads are started, what is left at its target, and when the resume file is replaced |
| `RestoreReport.StopCause` | agent/internal/backup/restore.go:125-190 | a cancellation seen at the head of the loop ends it, and only one seen there or after a download does |
| `RestoreReport.UnreadableResumeRefetches` | agent/internal/backup/restore.go:103-118 | an attempt that cannot read the resume file fetches every file anew |
| `RestoreResume.RestoreResumes` | agent/internal/backup/restore.go:107-298 | after any attempts, one smooth attempt ends completed with every selected file in place and downloads nothing done before that kept its size, if no file sharing its object starts out with a wrong file of the right size at its target |
| `RestoreExact.InPlaceIff` | agent/internal/backup/restore.go:107-298 | that condition is exact: it holds if and only if all attempts followed by any smooth one end with every file in place |
| `RestoreExact.DistinctObjectsAlwaysInPlace` | agent/internal/backup/restore.go:107-298 | when every file has its own object, restores always end with every file in place |
| `RestoreExact.StaleSurvives` | agent/internal/backup/restore.go:134-146 | otherwise one attempt that completes the other file and one in which nothing goes wrong leave the stale file there |
| `RestoreResume.AttemptSafe` | agent/internal/backup/restore_resume.go:14-68 | no attempt leaves a resume file that vouches for a wrong file of the right size |
| `RestoreResume.SharedObjectSkipped` | agent/internal/backup/restore.go:134-146 | the concrete input: `x` and `x.gz` with the same bytes on one object, and a stale file at the second target |
| `Verify.VerifyIntegrity` | agent/internal/backup/verify.go:48-167 | counts, bytes and status are those of the intact files |
| `Verify.TestRestore` | agent/internal/backup/verify.go:184-300 | the same counts, bytes and status through a scratch directory |
| `Verify.CountsAreOfGood` | agent/internal/backup/verify.go:89-163 | the counts are the number and total size of the files that pass, and how many of them have no checksum |
| `Verify.GoodOnesMeaning` | agent/internal/backup/verify.go:89-163 | the files that pass are those with intact objects and no local failure |
| `Verify.ConsistentAgrees` | agent/internal/backup/restore.go:125-286 | on a consistent snapshot a fresh restore counts exactly the intact files, whatever is at the targets |
| `Verify.AgreeIffConsistent` | agent/internal/backup/restore.go:125-286 | restore and verification agree on every file on every machine exactly when the snapshot is consistent |
| `Disagreement.RestoreCountsWhatVerifyRejects` | agent/internal/backup/restore.go:134-146 | the concrete history: an interrupted run, a change, a resumed run, and a restore over a stale file that counts a file verification rejects |
| `Verify.RestoreMatchesVerify` | agent/internal/backup/verify.go:89-163 | equal counts and bytes, and corresponding statuses exactly for non-empty snapshots |
| `RunStop.Guarantees` | agent/internal/backup/backup.go:179-204 | over all interleavings: at most one active run, a done channel only while a job is marked running, and a stop that returns true has seen its run's channel closed and the manager let go of its handles |
| `RunStop.StopCancelsItsRun` | agent/internal/backup/backup.go:188-192 | a stop cancels the run it saw before it waits, in every interleaving; no run closes its channel uncancelled |
| `RunStop.RunStartsIffIdle` | agent/internal/backup/backup.go:248-258 | a run starts exactly when none is active, on a new channel under handles of its own; otherwise it is refused and changes nothing |
| `RunStop.StopFindsNothingIff` | agent/internal/backup/backup.go:179-184 | a stop returns false at once exactly when no run is active |
| `RunStop.RunLeavesIdle` | agent/internal/backup/backup.go:259-269 | the end of a run leaves the manager idle and without handles |
| `RunStop.StopSeesActiveRun` | agent/internal/backup/backup.go:179-187 | a stop that finds a job running observes the run that is active |
| `RunStop.StopClearsOnlyItsRun` | agent/internal/backup/backup.go:197-202 | no step of a stop cancels or clears the handles of any run but the one it saw |
| `RunStop.StopReturns` | agent/internal/backup/backup.go:192-204 | a waiting stop is never stuck: steps of its run and its own bring it to return true |
| `RunStop.NextKeeps` | agent/internal/backup/backup.go:248-269 | every lock section, cancellation, close and wait keeps the protocol's invariant |
| `Exclude.MatchSegments` | agent/internal/backup/exclude.go:135-162 | the matcher says yes exactly when every doublestar can be given a span and every other segment one matching segment |
| `Exclude.AnyDepth` | agent/internal/backup/exclude.go:62-64 | a pattern with a slash applies at every depth |
| `Exclude.UnusableExcludesNothing` | agent/internal/backup/exclude.go:38-77 | empty patterns and patterns with an empty or malformed segment exclude nothing |
| `Exclude.ExcludeMatcher.constructor` | agent/internal/backup/exclude.go:38-77 | the compiled lists exclude exactly what the usable raw patterns do |
| `Exclude.ExcludeMatcher.MatchesPath` | agent/internal/backup/exclude.go:82-108 | a path is excluded exactly when some usable pattern covers it |
| `Walk.PruningFilters` | agent/internal/backup/backup.go:880-891 | skipping excluded directories loses exactly the files below them |
| `Walk.RootPrunedIs` | agent/internal/backup/backup.go:846-941 | the walk of a root yields its regular files that are kept, in order |
| `Walk.SnapshotPathInjective` | agent/internal/backup/backup.go:861-877 | positional labels keep the snapshot paths of different files apart |
| `Text.DecimalReads` | agent/internal/backup/backup.go:859 | the numeral in a root's label reads as the root's position |
| `Collect.CollectBackupFiles` | agent/internal/backup/backup.go:839-953 | strictly increasing snapshot paths; each file describes, field by field, a regular file of which neither it nor an ancestor below the root is excluded, and every such file is there |
| `Collect.CollectsKeptFiles` | agent/internal/backup/backup.go:839-953 | no kept file is lost as a repeated snapshot path |
| `Vss.RewritePaths` | agent/internal/backup/backup.go:975-987 | every path on a shadowed volume has the shadow device in place of its volume, all others stay |
| `Vss.OriginalPaths` | agent/internal/backup/backup.go:1000-1024 | sets the original path of exactly the files under a shadow root |
| `Vss.RecoversOriginal` | agent/internal/backup/backup.go:1000-1024 | for every iteration order, a file under a rewritten root gets its configured path back |
| `Vss.RecoversIffRooted` | agent/internal/backup/backup.go:975-1024 | a rewritten path comes back exactly when a separator follows the volume, among paths under no other shadowed volume |
| `Vss.DriveRelativeNotRecovered` | agent/internal/backup/backup.go:1012-1023 | the concrete path: a drive-relative one is rewritten and has no original path |
| `Vss.DriveRelativeMistaken` | agent/internal/backup/backup.go:1012-1023 | the concrete input: a drive-relative path gets the journal key of a file on another volume |
| `Vss.UnshadowedUntouched` | agent/internal/backup/backup.go:975-1024 | a file on a volume without a shadow copy keeps its path and has no other |
| `Vss.SameJournalKey` | agent/internal/backup/snapshot.go:121-136 | one file has the same journal key in runs with different shadow devices |
| `Audit.Logger.LogEvent` | agent/internal/audit/audit.go:115-172 | links, writes, drops and rotates as the log step says |
| `Audit.Logger.Rotate` | agent/internal/audit/audit.go:236-305 | a new file starts with a sentinel linked to the last record, or the link is marked broken |
| `Audit.EncodedInjective` | agent/internal/audit/audit.go:203-217 | the hashed text determines every field |
| `Audit.ChainCompleteIff` | agent/internal/audit/audit.go:115-172 | whatever the file held when it was opened, following the links from the newest record visits every ordinary record once, newest first, to genesis, exactly when nothing was written after a rotation that lost both its sentinel and the entry that triggered it |
| `Audit.LoggerLinkIff` | agent/internal/audit/audit.go:236-305 | the link held for the next record is good exactly when there was no such rotation; then it is the newest record and no two records share a hash |
| `Audit.FullDiskBreaksChain` | agent/internal/audit/audit.go:275-300 | the concrete input: calls with long details, a rotation on a full disk, and the record after it |
| `Audit.StrictIff` | agent/internal/audit/audit.go:144-159 | every record links to its immediate predecessor exactly when no rotation was followed by the entry that triggered it and nothing was written after a break |
| `Audit.RotationBypassesSentinel` | agent/internal/audit/audit.go:144-159 | the concrete input: calls with long details and an ordinary rotation, whose entry links past the sentinel |
| `Audit.CallWrites` | agent/internal/audit/audit.go:115-305 | what one call adds: a sentinel naming the old file exactly when the record does not fit, and the record, with what was passed to the call; and how large the file then is |
| `Audit.LogTranscribesCalls` | agent/internal/audit/audit.go:115-172 | over any calls, the log without its sentinels is the calls that got through, in order, with their time, kind, command and details |
| `Audit.OverfullOnlyWhenOpened` | agent/internal/audit/audit.go:144-159 | a file grows past its limit only in the call that opened it |
| `Audit.FirstCallRotatesIff` | agent/internal/audit/audit.go:219-234 | the first call rotates exactly when its record does not fit behind what the file already held |
| `Audit.EveryCallAccounted` | agent/internal/audit/audit.go:115-172 | every call since the log was opened is in the log or in the drop counter |
| `AuthBackoff.Monitor.RecordAuthFailure` | agent/internal/authstate/monitor.go:78-101 | counts, trips at the threshold, then doubles up to the cap |
| `AuthBackoff.Monitor.RecordSuccess` | agent/internal/authstate/monitor.go:104-115 | one success clears the gate |
| `AuthBackoff.Monitor.ShouldSkip` | agent/internal/authstate/monitor.go:122-129 | skips only while the backoff since the last failure has not passed |
| `AuthBackoff.TripsAtThreshold` | agent/internal/authstate/monitor.go:78-95 | a new monitor trips at its threshold-th failure in a row |
| `AuthBackoff.FailuresInARow` | agent/internal/authstate/monitor.go:78-115 | after any failures in a row: the count, the gate, the backoff and the time; a success brings the new monitor back |
| `AuthBackoff.BackoffFollowsCurve` | agent/internal/authstate/monitor.go:96-101 | the k-th failure after tripping leaves min(2^k s, 30 min) |
| `AuthBackoff.NeededClosedForm` | agent/internal/authstate/monitor.go:10-29 | n gated attempts need 2^n - 1 s up to the eleventh and 30 min each after |
| `AuthBackoff.AttemptsInWindow` | agent/internal/authstate/monitor.go:78-129 | any attempts of an obedient failing caller span the time that many need, less the first wait |
| `AuthBackoff.AttemptsBounded` | agent/internal/authstate/monitor.go:78-129 | in any window of t seconds there are at most Bound(t) attempts, logarithmic in t and then linear |
| `AuthBackoff.BoundIsExact` | agent/internal/authstate/monitor.go:10-29 | that many attempts fit into the time they need and one more does not |
| `AuthBackoff.AttemptsSinceTrip` | agent/internal/authstate/monitor.go:78-129 | counted from the trip, the first wait counts too |
| `AuthBackoff.RetryEventually` | agent/internal/authstate/monitor.go:122-129 | half an hour after any failure a retry is allowed, and a success reopens the gate |
| `Failover.FailoverClient.Heartbeat` | agent/cmd/bl4ck-watchdog/main.go:893-900 | a failed heartbeat counts and retargets, an answered one resets the count |
| `Failover.FailoverClient.NoteFailure` | agent/cmd/bl4ck-watchdog/main.go:88-102 | retargets the client and moves the anchor to the server URL on disk; an unreadable file changes nothing |
| `Failover.Alternates` | agent/cmd/bl4ck-watchdog/main.go:70-82 | with two URLs on disk, after n failures the client is where it started exactly when floor(n / 10) is even |
| `Failover.SwapAdopted` | agent/cmd/bl4ck-watchdog/main.go:70-82 | a server URL newly swapped on disk is adopted on the same failed tick |
| `Failover.OnlySeenUrls` | agent/cmd/bl4ck-watchdog/main.go:70-102 | the client only ever uses URLs it was started with or has read from disk, and its anchor is the last server URL it read |
| `Failover.FailuresSinceAnswer` | agent/cmd/bl4ck-watchdog/main.go:893-900 | the count is that of the failed heartbeats since the last answered one; without a readable configuration nothing else changes |
| `RtpClock.DeltaIsCongruent` | e2e-tests/perf-harness/summarize.ts:72-77 | the delta is congruent to the difference modulo 2^32 and at most 2^31 in magnitude |
| `RtpClock.DeltaExactIff` | e2e-tests/perf-harness/summarize.ts:72-77 | exactly which true steps are recovered, including the two at 2^31 |
| `RtpClock.ElapsedIsTrue` | e2e-tests/perf-harness/summarize.ts:78-106 | accumulated media time is the last true tick minus the first, whatever wraps and reorderings lie between |
| `RtpClock.PacingIsTrue` | e2e-tests/perf-harness/summarize.ts:78-106 | there is one pacing error per frame that is not reordered, in order, and it is the true one |
| `RtpClock.MediaClockMetrics` | e2e-tests/perf-harness/summarize.ts:78-106 | drift against the true media clock, and the pacing errors of pairs that are not reordered |

## Left out

- Providers, gzip, JSON, SHA-256, path cleaning, VSS calls and file system calls: abstracted as a store map, a line codec, a hash function, clean keys and failures given as inputs.
- A crash between publishing the manifest and completing the journal, which leaves a finished ID resumable: excluded by treating the two as one step.
- A header write that breaks off just before its newline when a journal is created: the model leaves an emptied file behind instead.
- Checkpoint.OpenSnapshotJournal: a journal path that is not a regular file is treated as absent.
- Carriage returns before a newline, which the line scanner strips: a JSON line contains none.
- Timers, deadlines, throttling intervals and log text; of the lists of failed files and warnings only their number is kept.
- SnapshotRun.CreateSnapshot: progress reports are modelled in `Progress` as interleavings, not as calls made by the loop.
- Vault.VaultManager.SyncSnapshot: a copy that fails is taken to leave the vault's object as it was; a vault listing that fails, after which everything is copied again, and the reported sizes are not modelled.
- VaultHistory.SyncStep: retention is taken to read every manifest in the vault.
- Restore.Machine.RestoreFromSnapshot: modes, modification times and progress callbacks; target paths and the check that they stay below the base are arbitrary functions.
- Collect.CollectBackupFiles: cancellation of the walk, which ends the run before anything is stored.
- Exclude.ExcludeMatcher.MatchesPath: case folding and trimming are one arbitrary function, and single-segment globs are another.
- Audit.Logger.LogEvent: shifting and deleting backup files, and a torn line left by a failed write; the records are all those written since the log was opened.
- AuthBackoff.Monitor.ShouldSkip: the jittered delay used elsewhere is not modelled.
- RtpClock.MediaClockMetrics: mean, percentile and rounding of the pacing errors.
- Marking system-state files, the job record, VSS volume selection, system-state, MSSQL and Hyper-V backups, BMR, IPC and the watchdog's own state machine.
- The helper's warning limiter: it would only add easy counters.
