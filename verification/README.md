# Verification of the desktop application's recovery, publication and installation logic

A model in Dafny of the parts of the desktop application where a mistake would lose or leak
something: the crash-safe migration of old data, the two-store account operations, the comparison of
edited documents, the digests that bind what is delivered, the streamer that may publish only verified
text, the installer's checks and rollback, the reading of code signatures, and a few small stateful pieces. Code
that changes state step by step is modelled by classes and loops and proved against specifications;
the laws of those specifications are lemmas beside them.

| module | what it models |
|---|---|
| `Json`, `JsonRoundTrip`, `JsonCanonical` | JSON text: printers with two sets of escapes, a full parser, canonical key order |
| `RecordChain` | the hash-chained records of the migration journal and their check |
| `JournalStore`, `JournalCodec`, `JournalFrontier`, `JournalDirectory` | the journal as a directory whose names and texts may each be synced or not: append, recovery, crashes, power loss |
| `MigrationLease` | the lock file of the migration, contended by any number of processes |
| `Snapshot` | flattening a directory tree, rebuilding it in a stage, setting permissions |
| `AccountSaga` | connecting and disconnecting accounts across credential authority, settings and journal |
| `DocxOracle`, `DocxTree`, `DocxDocument` | replacing text across formatted runs, merging runs, and paragraphs and runs that lie in each other |
| `DigestText`, `PublicTree`, `DeliveryBatch`, `AcceptedFinal` | what delivery digests are computed over and what they bind |
| `Streamer` | the Feishu streamer under every interleaving of events and awaits |
| `CommandLine`, `Payload` | the installer's quoting, and its two checks of the payload |
| `MachO` | code-directory hashes from thin and universal Mach-O files |
| `InstallRollback` | replacing an installation, with rollback under failing file-system calls |
| `XmlBudget` | the stack walk that bounds a parsed document part |
| `RestartBudget`, `StopHandoff` | the sliding-window restart budget, and the receipt that hands a stopped runtime to its restart |
| `ConfigLock`, `Candidates` | the queue of configuration writers, the choice among tool servers |

Hashes are parameters taken as collision-free; signatures, schemas and rules for single fields are
parameters too. Clocks, process liveness and the answers of the outside world are arguments of each
step. A crash is an amount of fuel: a process performs that many effects and dies, possibly in the
middle of a write.

## Where the code does less than it seems to promise

Each of these is kept as the code has it, shown by a concrete input, and bounded by an exact condition.

- The unlink of a stale lock compares a digest and then unlinks by name. If another process can act in
  between, two processes can hold the lease (`MigrationLease.RaceFromStart`); the unlink is safe
  exactly when the lock is not a live process's at that moment (`MigrationLease.SplitUnlinkSafeIff`), and runs
  in which every unlink is safe in this sense keep the lease exclusive (`MigrationLease.GuardedExclusion`).
- A load that finds no pending name syncs nothing. If an append dies behind its link and a recovery behind its
  unlink, without a power loss, the next load returns a record that a later power loss takes away
  (`JournalDirectory.Directory.LoadedThenLost`).
- Recovery links a pending file and syncs the directory, but never the file. If an append is killed between its last
  write and the sync of its file and the power stays, the next load returns the record, and a later power loss leaves
  its canonical name with a cut text, which every load refuses
  (`JournalDirectory.Directory.AppendUnsyncedThenRefused`, and `UnsyncedThenRefused` from every such state). A record
  survives every power loss exactly if one of its names is synced and the text of its file is
  (`JournalFrontier.SurvivesIff`); a completed append always does. Without such a text every run of deaths ends with
  all or nothing of the record (`JournalDirectory.Directory.RestartAnyhow`).
- An append does not sync what the load before it found. On a directory with an unsynced name or text, or a torn
  file not yet gone from disk, a death behind its link and a power loss can leave a gap or a leftover that every load
  refuses (`JournalDirectory.Directory.GapThenRefused`, `LeftoverThenRefused`). The condition `Solid` is exact: with
  it the crash theorems hold (`AppendThenRestart`, `AppendThenRestartAnyhow`), and from every other state a completed
  load can leave (`JournalFrontier.LoadLeavesPrior`) some run ends refused (`UnsolidThenRefused`). A load that found a
  pending name has made the directory solid, unless a whole text was unsynced (`LoadOnce`).
- Directories of a snapshot are made with their final modes before they are filled, so a directory that holds
  something and that its owner may not change makes the copy block (`Snapshot.ReadOnlyDirectoryBlocks`, exact
  condition in `Snapshot.CopySnapshotToNewStage`).
- A connect whose provider is already connected under another id gets its credential committed, then
  fails to save, and from then on every operation fails in recovery (`AccountSaga.WedgeReached`). The callers
  give every connect a fresh id (`src/main/ipc/register-app-ipc-handlers.ts:2320`), so a second connect of a
  provider is enough. When no call fails, recovery completes exactly if the journal is not such a one
  (`AccountSaga.Lifecycle.Recover`), and a connect wedges exactly if another channel has its provider
  (`AccountSaga.Lifecycle.Connect`).
- The comment at `src/main/im-channel-lifecycle.ts:231-232` says that a later winner is never deleted.
  A first put by somebody else carries the same fence as an unrecorded own one and is deleted
  (`AccountSaga.ForeignFirstPutDeleted`); a completed recovery leaves a credential alone exactly when its fence is
  another one (`AccountSaga.Lifecycle.RecoverPrepared`).
- A run-relative document edit adds up the text of the earlier runs. Text outside runs is missed
  (`DocxDocument.RunRelativeEditMisses`), and text in runs that lie in each other is counted again
  (`DocxDocument.RunRelativeEditCountsTwice`); the edit means what it says exactly when the two balance
  (`DocxDocument.RunRelativeEdit`).
- A streamer that is disposed before it is started reports success with an empty text
  (`Streamer.StartAfterDispose`); this is the only way a success can lack a verified text (`Run`).
- The second payload check alone accepts a tree with a foreign file when two manifest paths differ in case
  alone (`Payload.ForeignFileAccepted`, exact condition in `NothingExtraIff`); the first check excludes that. The
  listing check depends on the order of the listing (`Payload.DirectoryAfterItsFile`, exact condition in
  `DirectoryNeedsUnlistedFile`).
- In a universal binary a later architecture may have no code directory at all (`MachO.NoCodeDirectoryPasses`,
  exact condition in `NoCodeDirectory`), and an empty signature command may precede the real one
  (`MachO.EmptySignatureFirst`, exact condition in `CommandsAcceptedIff`).
- A stop receipt is used up only when its start has returned well. Two overlapping calls both start a runtime
  (`StopHandoff.TwoStarts`), and so does a second call after a start that failed, which the tests ask for
  (`StopHandoff.StartAgainAfterFailure`). When a receipt can start again is said exactly by
  `StopHandoff.SecondStartIff`.
- A budget that is not a whole number allows one attempt more (`RestartBudget.FractionAllowsOneMore`, exact
  condition in `NeverExceedsIff`), and the delay can fall within one window
  (`RestartBudget.DelayFallsAtDefaults`, exact condition in `DelayFallsIff`).

## Model

| member | source | states |
|---|---|---|
| `RecordChain.ValidateRecordChain` | `src/main/legacy-data-migration-journal.ts:504-628` | A chain is accepted exactly when every record is the one its position allows; the plan returned is the first record's. |
| `RecordChain.LinksHold` | `src/main/legacy-data-migration-journal.ts:506-523` | The link loop passes exactly for chains numbered from zero whose records share a transaction and bind the digest of the file before them. |
| `RecordChain.StagedById` | `src/main/legacy-data-migration-journal.ts:543-566` | The staged payload is accepted exactly when it names the planned owners in order, and the map built from it finds each planned owner's stage by id. |
| `RecordChain.StatesByPosition` | `src/main/legacy-data-migration-journal.ts:504-628` | In an accepted chain the state of a record is a function of its position, and the chain has at most owners + 4 records. |
| `RecordChain.ActivationSafety` | `src/main/legacy-data-migration-journal.ts:582-623` | `active` occurs only as the last record, after every planned owner became visible exactly once, in plan order, with its staged device, inode and manifest. |
| `RecordChain.PrefixAccepted` | `src/main/legacy-data-migration-journal.ts:504-628` | Every nonempty prefix of an accepted chain is accepted. |
| `RecordChain.LastShaIsFree` | `src/main/legacy-data-migration-journal.ts:520-523` | The digest of the last record is bound by nothing yet: changing it keeps the chain accepted. |
| `RecordChain.ReceiptFixesRequest` | `src/main/legacy-data-migration-journal.ts:445-502` | Two accepted visible records with the same receipt digest concern the same transaction, owner, target path, device, inode and manifest, when the request digest is collision-free. |
| `JournalStore.TornText` | `src/main/legacy-data-migration-journal.ts:373-404` | Any prefix of a record's file that reached the disk either does not parse or is the whole record, at most without its line end. |
| `JournalStore.LinkExtends` | `src/main/legacy-data-migration-journal.ts:702-733` | Linking the next record under its canonical name extends the records the directory holds by exactly that record. |
| `JournalStore.FrontierSurvives` | `src/main/legacy-data-migration-platform.ts:410-464` | A power loss at any point of an append or a recovery, which may undo unsynced names and cut unsynced texts, leaves again the committed records with at most the one record in flight, as long as only a torn pending text is unsynced. |
| `JournalStore.ExactlyDetermines` | `src/main/legacy-data-migration-journal.ts:432-443` | A directory determines its records: no directory holds two different lists. |
| `JournalStore.NamesFit` | `src/main/legacy-data-migration-journal.ts:406-412` | All names of a complete chain have three-digit sequence numbers exactly when the plan has at most 996 owners. |
| `JournalCodec.StableJsonIsLawful` | `src/main/legacy-data-migration-platform.ts:262-269` | Stable JSON satisfies the laws the recovery proof needs of file texts: whole texts read back, with or without the line end, and torn ones fail. |
| `JournalDirectory.Directory.LoadCanonical` | `src/main/legacy-data-migration-journal.ts:432-443` | Reading the canonical files returns their records in sequence order, or fails exactly because one of them does not parse or is misnamed. |
| `JournalDirectory.Directory.Turn` | `src/main/legacy-data-migration-journal.ts:631-742` | One turn of the recovery loop removes exactly one pending name, changes no canonical file, and from an interrupted append neither blocks nor loses a record that was whole; a process that lives for four effects completes it. It syncs no text: one that was unsynced stays so under its canonical name. |
| `JournalDirectory.Directory.Reconcile` | `src/main/legacy-data-migration-journal.ts:630-743` | Recovery terminates within four effects for each pending name, keeps every canonical file, and ends with only canonical names or with the root removed; after an interrupted append it never blocks and never decides the record differently. |
| `JournalDirectory.Directory.Load` | `src/main/legacy-data-migration-journal.ts:749-787` | A load crashes only by dying before the effects its pending names need, and a completed one returns exactly the records of the directory; after an interrupted append it returns the old records, or those and the appended one, as the bytes on disk decide. |
| `JournalFrontier.FrontierEffects` | `src/main/legacy-data-migration-journal.ts:749-787` | Whatever an append left behind, a turn for its own pending name and one for each record before are all a load needs. |
| `JournalDirectory.Directory.DurableWrite` | `src/main/legacy-data-migration-platform.ts:410-464` | A completed write leaves the directory, durably, with exactly one record more; a crash leaves the old records and the one in flight, and exactly a death between the last write and the sync of the file can leave a whole text unsynced. |
| `JournalDirectory.Directory.Append` | `src/main/legacy-data-migration-journal.ts:803-840` | Whatever is synced, an append is refused exactly when the chain does not allow the record, and then changes nothing; a completed one is on disk; it crashes only within its seven effects, and then leaves the frontier to every process that sees it. On a directory that is synced, texts included, the disk holds the frontier too. |
| `JournalDirectory.Directory.Create` | `src/main/legacy-data-migration-journal.ts:789-801` | A journal is created exactly when no root exists and the plan is well formed; a crash leaves an empty root or the planned record in flight. |
| `JournalDirectory.Directory.RestartUntilLoaded` | `src/main/legacy-data-migration-journal.ts:749-787` | However often recovery itself is cut short by a power loss, the first process that lives long enough completes the load; it finds the old records, and the appended one exactly when its text had reached the disk whole. |
| `JournalDirectory.Directory.AppendThenRestart` | `src/main/legacy-data-migration-journal.ts:803-840` | Crash atomicity over whole runs: an append, a crash anywhere in it, power loss and any number of crashed recoveries end with the old records or the old records and the new one, as soon as one process lives long enough; a completed append is never lost. |
| `JournalDirectory.Directory.RestartAnyhow` | `src/main/legacy-data-migration-journal.ts:749-787` | When deaths need not take the power with them, so that unsynced changes stay visible, and no whole text is unsynced, the first process that lives long enough still completes and finds all or nothing of the appended record; while the power stays, exactly what the append had decided. |
| `JournalDirectory.Directory.AppendThenRestartAnyhow` | `src/main/legacy-data-migration-journal.ts:803-840` | The same from the append on, if it got past the sync of its file or its death took the power: all or nothing, and a completed append is never lost, whatever dies then and whether or not the power goes. |
| `JournalDirectory.Directory.UnsyncedThenRefused` | `src/main/legacy-data-migration-journal.ts:728-741` | Recovery publishes a pending file without syncing it. From every state in which the file of the appended record is whole and unsynced, the next load returns the record, and a power loss can then leave a directory that holds no list of records. |
| `JournalDirectory.Directory.AppendUnsyncedThenRefused` | `src/main/legacy-data-migration-platform.ts:410-424` | The whole run: an append killed between its last write and the sync of its file while the power stays, a load that returns the record, and a power loss that leaves a directory without a list of records. |
| `JournalDirectory.Directory.LoadOnce` | `src/main/legacy-data-migration-journal.ts:749-787` | A process that lives long enough for the pending names completes the load, and finds the appended record exactly when its text was whole. If it found a pending name and no whole text was unsynced, the directory is synced, as an append needs. |
| `JournalDirectory.Directory.LoadedThenLost` | `src/main/legacy-data-migration-journal.ts:631-657` | A record a load has returned can be lost: after an append that died behind its link and a recovery that died behind its unlink, a load finds the record, and after a power loss the next load does not. |
| `JournalDirectory.Directory.LoadsRefused` | `src/main/legacy-data-migration-journal.ts:631-787` | From a directory that holds no list of records, or one torn pending file that is not the next, every load is refused and changes nothing, however often processes try and however long they live. |
| `JournalFrontier.LoadLeavesPrior` | `src/main/legacy-data-migration-journal.ts:749-787` | Every state that a completed load leaves after an interrupted append is the list it found with, at most, names or texts not synced, older pending names not gone from disk, or a torn text still there under the next pending name. |
| `JournalDirectory.Directory.UnsolidThenRefused` | `src/main/legacy-data-migration-journal.ts:803-840` | From every such state that is not synced, some death of the next append, or none, and a power loss end in a directory that every load refuses; so the condition under which an append keeps the journal is exact. |
| `JournalDirectory.Directory.GapThenRefused` | `src/main/legacy-data-migration-journal.ts:803-840` | An append over a record whose name is not synced: the power can take the earlier name and leave the later, and the gap in the numbers is refused. |
| `JournalDirectory.Directory.LeftoverThenRefused` | `src/main/legacy-data-migration-journal.ts:671-685` | An append over an older torn file that is unlinked but not yet gone from disk: it can come back beside the new record, and is refused as not the next. |
| `JournalFrontier.SurvivesIff` | `src/main/legacy-data-migration-platform.ts:410-464` | A record whose text is whole survives every power loss exactly if one of its names is in the directory and synced, and the text of its file is synced. |
| `JournalFrontier.ReadBackExactly` | `src/main/legacy-data-migration-journal.ts:432-443` | Reading a directory that holds exactly some records gives back that list, whatever order the names are read in. |
| `JournalFrontier.CheckedIsAppendable` | `src/main/legacy-data-migration-journal.ts:819-826` | The check before an append passes exactly for the records that may come next. |
| `JournalFrontier.ReadableWhenShort` | `src/main/legacy-data-migration-journal.ts:631-637` | The loader recognises every name of a clean journal exactly when it holds at most 1000 records. |
| `MigrationLease.StepKeeps` | `src/main/legacy-data-migration-journal.ts:878-948` | No step of any process breaks the lease invariant, as long as the digest check and the unlink are one step. |
| `MigrationLease.MutualExclusion` | `src/main/legacy-data-migration-journal.ts:878-948` | In every run of any number of processes at most one live process holds the lease, and the lock file is its own. |
| `MigrationLease.NoTheft` | `src/main/legacy-data-migration-journal.ts:878-948` | No step of another process takes the lease from a live holder or removes its lock file. |
| `MigrationLease.SplitUnlinkSafeIff` | `src/main/legacy-data-migration-platform.ts:807-826` | If the check and the unlink are two steps, the unlink is safe exactly when the lock file is not a live process's at that moment; an unchanged lock suffices. |
| `MigrationLease.SplitUnlinkRace` | `src/main/legacy-data-migration-platform.ts:807-826` | Without that atomicity the lease is not exclusive: a concrete interleaving of two recovering processes ends with two live holders. |
| `MigrationLease.StaleIsReached` | `src/main/legacy-data-migration-journal.ts:878-948` | The stale lock that race starts from is reached from the initial state. |
| `MigrationLease.RaceFromStart` | `src/main/legacy-data-migration-journal.ts:878-948` | The whole interleaving is one run from the initial state, and ends with two live holders. |
| `MigrationLease.GuardedExclusion` | `src/main/legacy-data-migration-journal.ts:878-948` | Over every run with split unlinks, at most one live process holds the lease as long as no unlink meets a live process's lock file. |
| `MigrationLease.UnguardedSteals` | `src/main/legacy-data-migration-platform.ts:807-826` | The first unlink that does meet one leaves its holder without the lock file. |
| `Snapshot.Walker.WalkDirectory` | `src/main/legacy-data-migration-platform.ts:317-370` | The recursive walk pushes exactly the entries of the specified walk, or blocks exactly when it does. |
| `Snapshot.WalkDescribes` | `src/main/legacy-data-migration-platform.ts:317-370` | A walk that completes lists every node below its directory exactly once, with its own kind, mode, size and digest. |
| `Snapshot.SnapshotOfKept` | `src/main/legacy-data-migration-platform.ts:344` | A snapshot that leaves out root entries is the snapshot of the tree without them. |
| `Snapshot.ParentMade` | `src/main/legacy-data-migration-platform.ts:566-580` | In the order by depth every directory comes after its parent and no path comes twice. |
| `Snapshot.MakeDirectories` | `src/main/legacy-data-migration-platform.ts:566-580` | Every directory of the snapshot is made, each after the directory it lies in, exactly if none has to be made in a directory whose mode forbids it. |
| `Snapshot.CopySnapshotToNewStage` | `src/main/legacy-data-migration-platform.ts:549-591` | Copying succeeds exactly when the stage did not exist and every directory that holds something has a mode that lets the process fill it; the stage then has the nodes of the kept tree, with only directory modes still open. |
| `Snapshot.ReadOnlyDirectoryBlocks` | `src/main/legacy-data-migration-platform.ts:573-578` | A directory of mode 0555 with one file in it cannot be copied by a process that may not change such a directory. |
| `Snapshot.ApplySnapshotPermissions` | `src/main/legacy-data-migration-platform.ts:593-630` | After the permission pass the stage equals the kept tree; modes were set deepest first and the root last. |
| `Snapshot.StageOwner` | `src/main/legacy-data-migration.ts:1036-1085` | The round trip, exactly for the sources that can be copied: the snapshot of the staged copy is the snapshot it was made from, the stage is the source without its excluded root entries, and excluded names are absent. |
| `AccountSaga.Lifecycle.Connect` | `src/main/im-channel-lifecycle.ts:124-164` | A completed connect ends with the channel saved, its credential ready and no journal; otherwise the journal accounts for the difference, and other channels keep their state. Without failing calls it completes exactly if the slot is free and no other channel has its provider; with such a channel it ends wedged. |
| `AccountSaga.WedgeReached` | `src/main/im-channel-lifecycle.ts:107-164` | Two connects of one provider under different ids, without any failure, end wedged: a ready credential of no saved channel, and a journal no operation gets past. |
| `AccountSaga.Lifecycle.Disconnect` | `src/main/im-channel-lifecycle.ts:166-201` | A completed disconnect ends with the channel gone, the slot absent and no journal, and touches no other channel; without failing calls and an older journal it completes. |
| `AccountSaga.Lifecycle.Recover` | `src/main/im-channel-lifecycle.ts:207-277` | A completed recovery clears the journal and settles its channel the way the journal says, whatever point the operation had reached; without a journal it changes nothing. When no call fails it completes exactly if the journal is not a recorded connect whose provider another channel has. |
| `AccountSaga.Lifecycle.SaveConnectedChannel` | `src/main/im-channel-lifecycle.ts:107-122` | The channel is saved under its id and others are kept, exactly if both calls take effect and no other channel has its provider; a patch that took effect may still be refused by the check of what it returned. |
| `AccountSaga.Lifecycle.RecoverPrepared` | `src/main/im-channel-lifecycle.ts:224-251` | A completed recovery leaves the credential alone exactly when it does not carry the fence of an unrecorded first put; one that does is deleted. |
| `AccountSaga.ForeignFirstPutDeleted` | `src/main/im-channel-lifecycle.ts:225-244` | After a connect that died before its put, the first put of somebody else is taken for its own and deleted. |
| `AccountSaga.Lifecycle.RunScript` | `src/main/im-channel-lifecycle.ts:77-277` | Over every run mixing connect, disconnect, recover, refused calls, patches refused after they took effect, and deaths at any effect: whenever no journal exists, a channel is saved exactly when its credential is ready. Only a connect of the run can wedge, and nothing after it changes anything. |
| `AccountSaga.Lifecycle.RecoverAtLast` | `src/main/im-channel-lifecycle.ts:203-277` | However often recovery dies or is refused, when it completes it ends where the journal said; once calls stop failing, finitely many processes that live for five calls complete it, exactly if the journal is not wedged. |
| `AccountSaga.WithChannelSaves` | `src/main/im-channel-lifecycle.ts:111-113` | The channel list that is written holds the channel and every other channel as before. |
| `AccountSaga.Finishes` | `src/main/im-channel-lifecycle.ts:77-277` | An operation that settled its own channel and touched no other leaves the two stores consistent without a journal. |
| `DocxOracle.ExactSplice` | `scripts/docx-fidelity-oracle.py:312-350` | An accepted edit replaces exactly its range of the paragraph's text; every child keeps its place, every run its format, and children outside the range are untouched. |
| `DocxOracle.RewriteAt` | `scripts/docx-fidelity-oracle.py:344-347` | Each run's new text is the splice of its own old text: surviving characters stay in their run, and the inserted text goes to the run where the range starts. |
| `DocxOracle.RewriteMerged` | `scripts/docx-fidelity-oracle.py:213-230` | Any rewriting of run texts that is additive over concatenation commutes with merging runs. |
| `DocxOracle.MergeAccepts` | `scripts/docx-fidelity-oracle.py:312-341` | A merged paragraph accepts exactly the edits the original accepts. |
| `DocxOracle.MergeEditCommute` | `scripts/docx-fidelity-oracle.py:366-376` | Merging and editing commute: merge(edit(p)) equals merge(edit(merge(p))), also for edits that empty whole runs. |
| `DocxOracle.SplitsStayInvisible` | `scripts/docx-fidelity-oracle.py:366-376` | Paragraphs that differ only by same-format run splits accept the same edits and stay equal up to such splits. |
| `DocxOracle.SplitMerges` | `scripts/docx-fidelity-oracle.py:213-230` | Cutting a run in two anywhere is invisible after merging. |
| `DocxOracle.MergeIsNormal` | `scripts/docx-fidelity-oracle.py:213-230` | No two neighbours of a merged paragraph could be merged again. |
| `DocxOracle.NormalMerges` | `scripts/docx-fidelity-oracle.py:213-230` | Merging changes nothing in a paragraph without mergeable neighbours. |
| `DocxDocument.SelectionDecides` | `scripts/docx-fidelity-oracle.py:332-341` | Checking that all children between the first and the last selected text node are plain runs is the same as no structure meeting the range. |
| `DocxDocument.FirstHoldsStart` | `scripts/docx-fidelity-oracle.py:344-347` | The range starts in the first selected run and in no other, so the new text is inserted once and at its start. |
| `DocxTree.RunReadsThere` | `scripts/docx-fidelity-oracle.py:298-307` | Runs are found in document order, nested ones included, and where a run starts the paragraph's text reads as all the text in it. |
| `DocxTree.CountedStart` | `scripts/docx-fidelity-oracle.py:305` | The sum of the lengths of the earlier runs, and the text before the run that lies in none of them, are together its true start and whatever those runs count too early or more than once. |
| `DocxDocument.RunRelativeEdit` | `scripts/docx-fidelity-oracle.py:296-307` | A run-relative edit resolves to the characters it names in the run exactly when as much text is missed outside runs as is counted again in runs that lie in each other. |
| `DocxDocument.RunStartsThere` | `scripts/docx-fidelity-oracle.py:296-307` | From where a run starts, the paragraph's text reads as the run's text. |
| `DocxDocument.RunRelativeEditMisses` | `scripts/docx-fidelity-oracle.py:303-306` | A bare text node before the run makes an accepted run-relative edit change a different character than the one named. |
| `DocxDocument.RunRelativeEditCountsTwice` | `scripts/docx-fidelity-oracle.py:303-306` | So does a text box before the run, without any text outside runs. |
| `DocxDocument.Document.Select` | `scripts/docx-fidelity-oracle.py:325-329` | The loop over text nodes with a running offset selects a run exactly when its text overlaps the range, or is empty and lies inside it. |
| `DocxDocument.RunPickedIff` | `scripts/docx-fidelity-oracle.py:325-329` | A list of selected nodes holds a run exactly when the run's text meets the range. |
| `DocxTree.KidsParagraphsWith` | `scripts/docx-fidelity-oracle.py:313-317` | Other contents for one paragraph change that paragraph and those around it, where a text box nests them, and no other. |
| `DocxTree.AroundChanges` | `scripts/docx-fidelity-oracle.py:312-350` | A paragraph around another changes exactly if that one does. |
| `DocxDocument.Document.ApplyEdit` | `scripts/docx-fidelity-oracle.py:312-350` | An edit succeeds exactly for an existing paragraph that accepts it; of the other paragraphs only those around it change, and only by what it becomes; a refused edit changes nothing. |
| `DocxDocument.Document.ResolveEdit` | `scripts/docx-fidelity-oracle.py:289-309` | A request resolves exactly when its range is nonempty, its run range is in bounds and the paragraph accepts the shifted edit. |
| `DocxDocument.Document.MergeEquivalentRuns` | `scripts/docx-fidelity-oracle.py:213-230` | Merging is refused exactly for paragraphs with other structure; otherwise the paragraph becomes its merged form. |
| `JsonRoundTrip.ParsePrint` | `src/main/general-terminal-publication.ts:69-112` | A parser for the grammar of RFC 8259, lone surrogates excepted, recovers every value from its text, with either set of escapes and with or without a line end. |
| `JsonRoundTrip.PrintInjective` | `src/main/general-terminal-publication.ts:69-112` | Equal texts come from equal values. |
| `JsonRoundTrip.TornObjectRefused` | `src/main/legacy-data-migration-platform.ts:262-269` | No proper prefix of a printed object parses. |
| `JsonCanonical.ParseCanonical` | `src/main/general-terminal-publication.ts:84-112` | The canonical text reads back as the value with sorted keys, and that is the same JSON value. |
| `JsonCanonical.CanonicalIdentifies` | `src/main/general-terminal-publication.ts:84-112` | Two values have the same canonical text exactly when they are the same JSON value up to key order. |
| `JsonCanonical.NormalizeTwice` | `src/main/legacy-data-migration-platform.ts:262-269` | Sorting keys at every level is idempotent. |
| `JsonCanonical.CanonicalSafe` | `src/main/general-terminal-publication.ts:69-77` | The text never holds a raw control character, angle bracket, ampersand, U+2028 or U+2029. |
| `DigestText.AlignedInjective` | `src/main/general-terminal-publication.ts:122-147` | Objects written in one fixed field order have equal texts only when every field agrees. |
| `DigestText.SameFromParts` | `src/main/accepted-final-publication.ts:145-150` | Objects that are the same without some keys, and agree on those keys, are the same. |
| `DigestText.NumberedExactly` | `src/main/accepted-final-publication.ts:222-227` | Events numbered one by one carry exactly the numbers of the range, each once. |
| `PublicTree.Traversal.Visit` | `src/main/general-terminal-publication.ts:234-262` | A traversal that counts and stops early accepts exactly the trees whose depth, node count, longest text and total text fit the limits. |
| `PublicTree.HasBoundedTree` | `src/main/general-terminal-publication.ts:218-264` | The limits as the traversal enforces them are the limits on the whole tree. |
| `DeliveryBatch.VerifyBinding` | `src/main/general-terminal-publication.ts:314-331` | The loop with its growing set of ids passes exactly when every entry and event is bound to the batch at its place and no id repeats. |
| `DeliveryBatch.Verify` | `src/main/general-terminal-publication.ts:270-355` | A batch is verified exactly when every check passes, the verified batch is the parsed one, and the reason of a refusal is the first check that fails. |
| `DeliveryBatch.BatchDigestBinds` | `src/main/general-terminal-publication.ts:122-147` | Two accepted batches with the same batch digest agree on every digested field; their events are the same JSON values. |
| `DeliveryBatch.PartDigestsBind` | `src/main/general-terminal-publication.ts:333-336` | The manifest digest alone binds the manifest, and two batches have one events digest exactly when their events are the same. |
| `DeliveryBatch.SequenceIsExact` | `packages/runtime/src/contracts/events.ts:1347-1364` | The numbers of the events are exactly firstSeq to lastSeq. |
| `DeliveryBatch.DuplicatesNeverReached` | `src/main/general-terminal-publication.ts:320-330` | Event ids are distinct whenever each is the hash it should be, so the duplicate check is never the one that fails. |
| `AcceptedFinal.VerifyFinal` | `src/main/accepted-final-publication.ts:184-331` | In an accepted batch the numbers of the events are exactly firstSeq to lastSeq, every event carries the hash of its own content, and the seal is signed and names the hash of all events and of itself; a batch that satisfies all checks is accepted. |
| `AcceptedFinal.SealBindsEvents` | `src/main/accepted-final-publication.ts:333-378` | Two accepted batches with the same seal id have the same events and agree on every sealed field. |
| `AcceptedFinal.BatchIdBindsEvents` | `src/main/accepted-final-publication.ts:299-314` | The batch id alone already determines the events, through the manifest and the payload digests. |
| `AcceptedFinal.PayloadBinds` | `src/main/accepted-final-publication.ts:145-150` | Equal payload digests and equal numbers make two events the same, although the digest covers neither the number nor itself. |
| `AcceptedFinal.FinalSequenceIsExact` | `src/main/accepted-final-publication.ts:212-234` | The numbers of the events are exactly firstSeq to lastSeq. |
| `Streamer.FeishuStreamer.Run` | `src/main/feishu-streamer.ts:91-461` | In every schedule of events, aborts, failures and awaits, only the boundary text, the empty text or a verified text is put on the channel; a successful result carries a verified text exactly when the streamer was not closed before its start; a settled result never changes. |
| `Streamer.FeishuStreamer.Act` | `src/main/feishu-streamer.ts:91-461` | Every single action keeps the invariant; a boundary never returns to streaming and a closed streamer stays closed. |
| `Streamer.FeishuStreamer.ResumeProducer` | `src/main/feishu-streamer.ts:111-191` | Between two awaits the producer publishes at most one text: the accumulated one before its check, or the boundary text; it ends closed with a result. |
| `Streamer.FeishuStreamer.OnSseEvent` | `src/main/feishu-streamer.ts:238-289` | A revocation of the thread or a lost key always leads to the boundary; a verified batch of this turn whose terminal event matches releases its text to the producer. |
| `Streamer.FeishuStreamer.FinishTerminal` | `src/main/feishu-streamer.ts:343-379` | The buffered text is released, followed by the end mark, exactly when the key is current and the terminal event belongs to it; otherwise everything is revoked. |
| `Streamer.FeishuStreamer.EnterBoundaryState` | `src/main/feishu-streamer.ts:407-421` | Revocation forgets every text and wakes a waiting producer; a closed streamer is left as it is. |
| `Streamer.FeishuStreamer.Replace` | `src/main/feishu-streamer.ts:423-447` | A revoked message is replaced or recalled, and every way ends closed and without success. |
| `Streamer.HappyPath` | `src/main/feishu-streamer.ts:111-191` | A turn that goes well sets the verified text once and reports it. |
| `Streamer.StartAfterDispose` | `src/main/feishu-streamer.ts:91-101` | Starting a disposed streamer reports a success that carries no text, whatever the pinned key. |
| `CommandLine.QuoteProcessArgument` | `installer/winforms-bootstrapper/AnalytixWinFormsBootstrapper.cs:1376-1412` | The loop with its backslash counter produces the specified quoted form. |
| `CommandLine.ScanBody` | `installer/winforms-bootstrapper/AnalytixWinFormsBootstrapper.cs:1384-1410` | Under the Microsoft C runtime rules the reader recovers a value from its quoted body and stands outside the quotes again. |
| `CommandLine.QuotingRoundTrip` | `installer/winforms-bootstrapper/AnalytixWinFormsBootstrapper.cs:1376-1412` | Parsing a space-joined list of options with quoted values gives back exactly the list, for every value. |
| `CommandLine.QuoteInjective` | `installer/winforms-bootstrapper/AnalytixWinFormsBootstrapper.cs:1376-1412` | Equal quoted texts come from equal values. |
| `Payload.ListingCheck.ValidateRecord` | `installer/winforms-bootstrapper/AnalytixWinFormsBootstrapper.cs:1227-1293` | One listed entry is accepted exactly when it is next in the specified walk, and the dictionaries change accordingly. |
| `Payload.ValidateListing` | `installer/winforms-bootstrapper/AnalytixWinFormsBootstrapper.cs:1168-1225` | The listing check accepts exactly the listings the specification accepts. |
| `Payload.ListingExact` | `installer/winforms-bootstrapper/AnalytixWinFormsBootstrapper.cs:1168-1293` | An accepted listing lists every manifest file with its size and nothing else but directories; no two entries and no two manifest paths differ in case alone. |
| `Payload.DirectoryNeedsUnlistedFile` | `installer/winforms-bootstrapper/AnalytixWinFormsBootstrapper.cs:1263-1277` | Because the dictionary shrinks, a directory entry passes exactly while a file beneath it is still to be listed. |
| `Payload.DirectoryAfterItsFile` | `installer/winforms-bootstrapper/AnalytixWinFormsBootstrapper.cs:1263-1277` | One file in one directory: listed after its directory it passes, and before it the listing is refused. |
| `Payload.VerifyExtracted` | `installer/winforms-bootstrapper/AnalytixWinFormsBootstrapper.cs:1049-1113` | The check of the extracted tree passes exactly when every record has its file, counts and totals agree and the tree digest is right. |
| `Payload.NothingExtraIff` | `installer/winforms-bootstrapper/AnalytixWinFormsBootstrapper.cs:1049-1113` | When the second check passes, nothing extra was extracted exactly if no two manifest paths differ in case alone. |
| `Payload.ForeignFileAccepted` | `installer/winforms-bootstrapper/AnalytixWinFormsBootstrapper.cs:1049-1113` | With a manifest of "A" and "a" the second check alone accepts a tree with a file the manifest does not name. |
| `Payload.ExactPayload` | `installer/winforms-bootstrapper/AnalytixWinFormsBootstrapper.cs:1049-1293` | When both checks pass, extracted files and manifest records are in bijection up to letter case, with equal sizes and digests. |
| `Payload.TreeTextInjective` | `installer/winforms-bootstrapper/AnalytixWinFormsBootstrapper.cs:1099-1111` | The text under the tree digest determines the whole list of paths, sizes and digests. |
| `MachO.CdHashes.AddCdHash` | `scripts/native/darwin-authority-launch-gate.c:387-405` | A hash is recorded once; a full table refuses a new one. |
| `MachO.HashSuperblob` | `scripts/native/darwin-authority-launch-gate.c:451-494` | A superblob is accepted exactly when it is well formed and every code directory it indexes lies inside it; no read leaves the buffer and no sum overflows. |
| `MachO.ScanCommands` | `scripts/native/darwin-authority-launch-gate.c:537-570` | The loop with its moving cursor computes the specified walk over the command area, with every read inside it. |
| `MachO.MachoSliceCdHashes` | `scripts/native/darwin-authority-launch-gate.c:496-595` | A slice is accepted exactly when its header, command area and signature fit; every file read lies inside the slice. |
| `MachO.OpenedCdHashes` | `scripts/native/darwin-authority-launch-gate.c:597-655` | A thin or universal file is accepted exactly as specified, with every table entry and slice inside the file. |
| `MachO.CommandsAcceptedIff` | `scripts/native/darwin-authority-launch-gate.c:537-570` | The command area is accepted exactly when it is the announced number of back-to-back commands, signature commands being 16 bytes and empty except for the last. |
| `MachO.WalkIsBackToBack` | `scripts/native/darwin-authority-launch-gate.c:537-570` | An accepted area is cut into exactly the announced number of commands, and the signature used is the last one's. |
| `MachO.StartsUnique` | `scripts/native/darwin-authority-launch-gate.c:537-570` | There is one way to cut an area into commands. |
| `MachO.AcceptedHashesSound` | `scripts/native/darwin-authority-launch-gate.c:451-655` | The hashes of an accepted file are nonempty, duplicate-free and at most 64, each the hash of a code directory lying inside a superblob of the file. |
| `MachO.NoCodeDirectory` | `scripts/native/darwin-authority-launch-gate.c:451-494` | A superblob without code directories passes exactly when an earlier architecture has already given a hash. |
| `MachO.NoCodeDirectoryPasses` | `scripts/native/darwin-authority-launch-gate.c:451-494` | Twenty bytes of such a superblob are refused alone and pass after another architecture. |
| `MachO.EmptySignatureFirst` | `scripts/native/darwin-authority-launch-gate.c:552-563` | A signature command of size zero before the real one passes, and the second counts. |
| `InstallRollback.Volume.Replace` | `installer/winforms-bootstrapper/AnalytixWinFormsBootstrapper.cs:380-396` | However far the moves came, the old tree is where the flags say: in its place, or set aside whole. |
| `InstallRollback.Volume.RollBack` | `installer/winforms-bootstrapper/AnalytixWinFormsBootstrapper.cs:397-431` | A rollback that reports success has put the old tree back; one that fails leaves it whole, in its place or set aside. |
| `InstallRollback.Volume.Install` | `installer/winforms-bootstrapper/AnalytixWinFormsBootstrapper.cs:364-443` | An installation ends with the new tree in place or with the old one back; if even the rollback fails the old tree is still there whole. The target never holds anything else. |
| `XmlBudget.WithinBudget` | `scripts/docx-fidelity-oracle.py:73-80` | The walk with an explicit stack accepts exactly the trees whose number of nodes and depth are within the budget. |
| `StopHandoff.Handoff.ConfirmStopped` | `src/main/analytix-runtime-supervisor.ts:74-79` | A stop is confirmed once, for the receipt of the latest stop, and only when no child is left and nothing was cancelled. |
| `StopHandoff.Handoff.Admit` | `src/main/analytix-runtime-supervisor.ts:85-90` | A receipt is admitted exactly if it was confirmed, nothing has ended it since, and the generation is newer than its own or its issuer asks for its own. |
| `StopHandoff.Handoff.PortResolved` | `src/main/analytix-runtime-supervisor.ts:99-101` | After the await a start happens exactly when it is admitted and the receipt, confirmed before, was not cancelled, used up or replaced in the meantime. |
| `StopHandoff.SecondStartIff` | `src/main/analytix-runtime-supervisor.ts:92-104` | A receipt that has started once can start again exactly while no start of it has returned well, nothing was cancelled and no other stop was confirmed. |
| `StopHandoff.StartedTwice` | `src/main/analytix-runtime-supervisor.ts:92-104` | Between two starts of one receipt none of these has happened. |
| `StopHandoff.StartedWhilePending` | `src/main/analytix-runtime-supervisor.ts:92-104` | Every start is preceded by the confirmation of its receipt, with no cancellation, no finished start of it and no other confirmation in between. |
| `StopHandoff.NoStartAfterFinish` | `src/main/analytix-runtime-supervisor.ts:92-113` | A receipt whose start has returned well, or that was cancelled, starts nothing again. |
| `StopHandoff.TwoStarts` | `src/main/analytix-runtime-supervisor.ts:98-103` | Two calls that await the port at the same time both start the runtime from one receipt. |
| `StopHandoff.StartAgainAfterFailure` | `src/main/analytix-runtime-supervisor.ts:98-103` | A start that fails leaves the receipt pending, and it starts again without any overlap. |
| `RestartBudget.RestartBudget.Note` | `src/main/analytix-runtime-supervisor.ts:144-161` | The pruned list gives the verdict of counting over the full history since the last reset, and the attempt number is the count within the window. |
| `RestartBudget.RecentTwice` | `src/main/analytix-runtime-supervisor.ts:146` | Pruning with an earlier and then a later clock is pruning with the later one. |
| `RestartBudget.WindowBound` | `src/main/analytix-runtime-supervisor.ts:121-161` | With a clock that never runs backwards, no window holds more allowed attempts than the budget rounded up. |
| `RestartBudget.NeverExceedsIff` | `src/main/analytix-runtime-supervisor.ts:147-149` | No window ever exceeds the budget itself exactly when the budget is a whole number. |
| `RestartBudget.FractionAllowsOneMore` | `src/main/analytix-runtime-supervisor.ts:147-149` | A budget of two and a half allows three attempts at one moment. |
| `RestartBudget.DelayGrows` | `src/main/analytix-runtime-supervisor.ts:152-159` | Delays grow with the attempt number, from zero up to the cap. |
| `RestartBudget.AttemptNumberFallsIff` | `src/main/analytix-runtime-supervisor.ts:144-161` | The attempt number falls from one allowed attempt to the next exactly when at least two attempts lie in the stretch by which the window moved. |
| `RestartBudget.DelayFallsIff` | `src/main/analytix-runtime-supervisor.ts:144-161` | The delay falls from one allowed attempt to the next exactly when at least two attempts left the window in between and the later number has a smaller backoff, below the cap. |
| `RestartBudget.DelayDiffersIff` | `src/main/analytix-runtime-supervisor.ts:152-159` | Two numbers have different delays exactly when the smaller is below the cap and the powers are a rounding step apart; one millisecond between the first two delays is enough, a base of zero or a factor of one never is. |
| `RestartBudget.DelayFallsAtDefaults` | `src/main/analytix-runtime-supervisor.ts:135-161` | At the defaults, attempts at 0, 0, 1 and 60000 milliseconds get the delays 9000 and then 3000, although the last two lie within one window. |
| `ConfigLock.AcquireKeeps` | `src/main/analytix-process.ts:499-505` | A new writer finds the last of its key as predecessor, and the invariant is kept. |
| `ConfigLock.ProceedKeeps` | `src/main/analytix-process.ts:506` | A writer goes on only when every earlier writer of its key has released, and grants follow request order. |
| `ConfigLock.ReleaseKeeps` | `src/main/analytix-process.ts:508-513` | Releasing drops the entry only if nobody has queued behind, and the invariant is kept. |
| `ConfigLock.OneHolder` | `src/main/analytix-process.ts:499-514` | At most one caller holds the lock of a key. |
| `ConfigLock.EntryIff` | `src/main/analytix-process.ts:512` | A key has an entry exactly while somebody holds or waits. |
| `ConfigLock.FirstMayProceed` | `src/main/analytix-process.ts:504-506` | The first writer that has not released can go on: nobody waits for a free lock. |
| `ConfigLock.Locks.Release` | `src/main/analytix-process.ts:508-513` | A second release has no effect. |
| `Candidates.SelectPermuted` | `src/main/analytix-process.ts:1257-1289` | The winner of a group does not depend on the order of its candidates. |
| `Candidates.OrderDoesNotMatter` | `src/main/analytix-process.ts:1226-1255` | Permuting the candidates changes neither the published servers nor the plugin ids. |
| `Candidates.PublishedUnderOwnId` | `src/main/analytix-process.ts:1239-1252` | A published id is the winner's own and already folded, so no two published ids agree after folding; reserved ids come from their own source alone. |
| `Candidates.Resolve` | `src/main/analytix-process.ts:1226-1255` | The grouping and publishing loops compute exactly the servers and ids of the specification. |

## Left out

- Journal: modes, owners and symbolic links of files, the option that forbids recovery, and I/O errors other
  than a death at that effect.
- Journal: tears fall between characters, since a tear inside one makes the reader block
  (`src/main/legacy-data-migration-platform.ts:828-840`); the root directory itself is there or not, without a
  durable side of its own, and takes its entries with it when it is removed.
- Journal: a power loss keeps a prefix of an unsynced text, so it can end early but not hold other bytes; whether
  a text is synced is remembered for each name and belongs to the file that processes see under it.
- Journal: checks of keys, types, paths and digest shapes inside a payload, and of receipts' schema fields; a
  payload that fails one of them is a single malformed value.
- JournalDirectory.Directory.RestartUntilLoaded: assumes fewer than 1000 committed records, because names carry three digits; `RecordChain.StatesByPosition` and `JournalStore.NamesFit` say when a plan stays below that.
- MigrationLease: tokens are unique and process ids are not reused; a lock file that does not parse blocks and is
  not represented further.
- Snapshot: file descriptors, identity checks, sync calls, case-sensitivity probes and path confinement; names do
  not contain a slash. Permissions are enforced where a stage is filled, and not where directories are listed,
  synced or given their modes, or where the source is read.
- Snapshot: names that the locale's comparison does not tell apart come in the order in which the directory lists
  them; here the order is a function of the set of names.
- Snapshot.StageOwner: the rewriting of staged settings between copy and permissions, which changes one file on purpose.
- AccountSaga: the shape of credentials and fences beyond revision, generation and incarnations; a request to the
  credential authority that fails has no effect; nobody else uses the slots and settings; the queue runs one operation at a time.
- AccountSaga: the scope of a credential is named by the channel's id alone. The callers build it from the account
  and the channel (`src/main/ipc/register-app-ipc-handlers.ts:334-358`), with a fresh channel for every connect, so
  a reconnect of one channel under another account is not represented.
- Json: numbers are decimal texts, so the formatting of doubles and the difference between 0 and -0 are not
  modelled; strings have no lone surrogates, which the application refuses.
- DocxOracle: XML parsing, packages, namespaces and the generation of sample files.
- DocxDocument.Document.ApplyEdit: assumes a nonempty range, which the validation of every request has checked before.
- DeliveryBatch: the screens for private content and personal data, the schema's literals and profile checks and
  the ordinary-result digest are predicates; accessor, prototype and cycle checks on JavaScript objects do not arise.
- AcceptedFinal: status and kind checks between the events and the private audit record are one predicate;
  signatures are a predicate of pin, text and signature.
- Streamer: one call of `start` for each streamer, as its caller makes; logging, the subscription handle and a
  `subscribe` that throws; a verified batch is represented by its assistant-final and its terminal event, in that order.
- CommandLine: the separate rules for the program name at the start of a command line.
- Payload: the splitting of the listing into fields, the rules for path segments and confinement, reparse points,
  and the extraction itself.
- InstallRollback: shortcuts, registry entries and the uninstaller, whose failure counts as a failure after the moves;
  a move either happens or has no effect.
- XmlBudget: decoding, entity checks and parsing before the walk.
- StopHandoff: the callers' own admission checks are an argument of each step.
- MachO: short reads and interrupted system calls, process identity, loaded-region checks and the pipes of the
  launched child; digests are parameters, and the read-only byte buffers are values.
- RestartBudget: overflow of the power to infinity, which the cap hides.
- ConfigLock: path resolution of the directory that serves as key.
- Candidates: schema validation and projection of a server configuration are a function.
- The activation of a staged directory, the deletion of directory trees, the pipes of the launch gate, and the
  version, marker and redaction helpers.
