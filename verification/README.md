# Agent filesystem: a verified model of the sync client

AFS keeps a local folder and a Redis workspace in agreement. This project models the parts of its
command-line client (`cmd/afs`) where that is hardest: the download half of the sync engine, the
baseline it keeps of both sides, the planner that merges a folder into a workspace at mount time,
and six smaller algorithms around them. Each algorithm is a class or method in the form of the
program, proved against a specification, and the specification is then proved to have the
properties the program relies on. `dafny verify dfyconfig.toml` checks everything.

| file | what it is |
|---|---|
| `ByteStrings`, `Digests`, `SyncTypes`, `Ordering`, `Texts` | bytes, digests, the baseline entry, string order, white space |
| `ChunkDelta` | chunk manifests, manifest diffs, patching a file with the chunks that differ |
| `Downloads` | download operations, local nodes and edits, and what a stored baseline says of a node |
| `DownloadHistory` | traces of everything that happens to a path, and what an operation may add to one without losing an edit |
| `Downloader` | one download against a local path that is edited meanwhile |
| `DownloadOutcomes` | how each download ends when nothing interferes |
| `ReconcilerState`, `Reconciler` | the handlers as functions on the sync state, and the class that runs them in place |
| `ReconcilerLaws`, `RenameLaws`, `TombstoneLaws` | what every step and every run of the reconciler keeps |
| `LocalEventLaws`, `RemoteEventLaws`, `ResultLaws` | what each event sends or fetches, what each result records, and where the sync comes to rest |
| `SyncRounds` | rounds of both machines: event or upload result, download, recorded result |
| `MountPlan`, `MountDecisions`, `MountPlanLaws` | the planner, which decision each path gets, and what a plan and its execution promise |
| `GlobMatch`, `GrepForms` | the glob matcher, and searching one file |
| `DirectoryModes` | opening directories for a reconcile and restoring their modes |
| `ImportBatching`, `QueryCoalesce`, `MountRegistry` | batched import, joining of query hits, the registry of mounts |

## How it is modelled

Digests are free constructors: `Raw(bytes)` for the hash of a content and `Composite(list)` for
the hash of a manifest, where the hash of the empty manifest is that of the empty content. Two
digests are equal exactly when what they stand for is.

The downloader (`Downloader.Downloader`) works on one local path. The user's edits come in batches
that play between any two of its steps; an edit that would reuse a stat identity the path has shown
does not happen. Three stretches of the program cannot notice an edit: from the caller's check to
the second stat of the writer, from the final check to the rename or removal, and from moving a
conflict copy aside to the rename. Edits there come from batches of their own, so the theorem says
what they can cost instead of leaving them out. Everything that happens to the path is an event of
a trace. `Later` ties the trace to what is real: replayed from the path as it was, it gives the
path, the conflict copies and the identities as they are, and its edits are exactly the batches
that were used up, in order. What an operation did is then a statement about the events it added.
Remote answers, failing system calls and cancellations are arbitrary. So the laws of the trace say
what may happen to the path, and a second set of laws says what does: in calm, when no step fails,
nobody edits and every remote call answers, the ending of each operation is a function of the node
that was there, the baseline and the answers (`DownloadOutcomes.OperationEnds`).

The reconciler is a single writer. `ReconcilerState` gives each handler as a function on a state
value, extended by a history of versions handed out and deletions remembered; every method of
`Reconciler.Reconciler` is proved to change its fields as that function says. The laws are about
arbitrary runs of these functions, and about single steps, in terms of the file, link or directory
seen, the stored entry and the remote's answers. Time is a parameter of each step. Upload results are
arbitrary, but belong to an upload that was queued.

The planner is modelled path by path, as the program decides; executing a plan is modelled ideally.

## Where the code falls short of what one expects

These are theorems, not remarks; the members named are in the table below.

1. A delta equals a full copy exactly when the announced file size is the length of the remote
   content. The size comes from an earlier stat than the manifest, and nothing compares the two
   (`DeltaEqualsFullCopy`, `PatchedBaselineIsRemote`).
2. Conflict detection and echo suppression hash a file as a whole, a chunked baseline keeps the
   hash of its manifest. So a delta for a path with a chunked baseline and a readable local file
   is always queued as a conflict and becomes a full copy (`ChunkedBaselineAlwaysConflicts`), and
   the echo of a chunked download is never recognised (`ChunkedEchoIsNeverRecognised`). Both hold
   with free digests: the program hashes the joined text of the chunk hashes, so a file that
   consists of exactly that text would be taken for the chunked one.
3. An edit in one of the three gaps can be lost (`EditInTheLastGapIsLost`), and a plain delete
   removes whatever it finds, which loses an edit exactly if that was data off the baseline
   (`ProcessDelete`). A file download whose remote has vanished removes
   the local node if it is at the baseline; where the baseline is a directory, that is everything
   below it too, edited or not.
4. When a file download finds that the remote path has become a directory or a link, it does the
   right thing locally but still reports a file download, without a stat (`ProcessFile`); the
   reconciler then records a file (`StatlessAnswerIsRecordedAsFile`).
5. A delete and a rename are both uploaded for one deletion exactly if its timer fires first and a
   file event then chooses the candidate that is still kept (`DeleteAndRenameBothQueued`,
   `RenameReplacesTheDelete`), and the first of two waiting deletions is not uploaded by its timer
   exactly if both have one candidate key (`CollidingDeletionIsNotUploaded`).
6. A mount plan is not a symmetric merge: it discards a local change exactly where the remote
   deleted the path, and a remote one exactly where a local deletion was pending and the remote
   moved since (`WhatAWritablePlanDiscards`). A second plan is quiet exactly unless an adopted directory has two
   known modes that differ (`ReplanIsQuiet`).
7. Joining query hits loses a line when a hit whose end is before its start is joined with one
   that begins before it and ends no later (`CoverageOfAPair`, `CoverageThroughout`). Outputs touch
   each other exactly if some hit closes a gap between lines covered before it
   (`OutputsComeOutApart`).
8. A remote path counts as deleted when the first stat finds nothing and the second does not find
   it, which a failing second stat does not either (`AbsentPathIsDeleted`).
9. A remote file does not get to a path of which only the local mode has changed, nor onto an
   untracked local file (`RemoteFileGoesRound`).
10. A file downloaded whole is sent again by its next event, unless that is taken for an echo, if it
   is above the chunk threshold or its remote mode has more than the permission bits
   (`DownloadedFileComesToRest`). A downloaded directory is at its baseline only if its remote mode
   happens to be the one that directories are made with (`DownloadedDirectoryMayNotComeToRest`).
11. A file that is deleted and put back unchanged, with another inode, within the delay of the
   delete is not sent by its event; the tombstone and the delete stay, and it is left to the full
   sweep (`FilePutBackIsLeftToTheSweep`).
12. Entries loaded at a cold start carry version 0, which is why the invariants on versions speak
   of versions handed out since the start, from 1 on (`RenameInvariantHoldsOverRuns`).

## Model

| member | source | states |
|---|---|---|
| ChunkDelta.StreamChunkHashes | cmd/afs/sync_chunk.go:28-57 | the streaming reader returns one hash per chunk, in order, and the total size, for every content and requested chunk size |
| ChunkDelta.UploadChunkHashes | cmd/afs/sync_uploader.go:618-628 | the uploader's in-memory reader computes the same manifest as the streaming one |
| ChunkDelta.ManifestAt | cmd/afs/sync_chunk.go:28-57 | every byte of a content lies in the chunk its offset says, and the manifest holds that chunk's hash: no byte is left out |
| ChunkDelta.ManifestIndex | cmd/afs/sync_chunk.go:28-57 | a manifest has no entry behind the end of the content, and each entry hashes its chunk |
| ChunkDelta.ManifestDeterminesContent | cmd/afs/sync_chunk.go:107-114 | contents with the same composite hash are equal |
| ChunkDelta.RawIsNotComposite | cmd/afs/sync_chunk.go:107-114 | the hash of a content is never the composite hash of a manifest, unless both contents are empty |
| ChunkDelta.ReadChunkFromDisk | cmd/afs/sync_chunk.go:79-102 | reads exactly the bytes that the manifest entry with this index hashes, and nothing behind the end |
| ChunkDelta.DiffChunkManifests | cmd/afs/sync_chunk.go:63-75 | lists, in ascending order, exactly the chunks that are new or changed, and tells whether the file lost chunks |
| ChunkDelta.PatchChunks | cmd/afs/sync_downloader.go:338-378 | whatever order the chunk map yields, each byte of the result comes from its fetched chunk, else from the local file, else is zero, and the length is the announced one |
| ChunkDelta.DeltaEqualsFullCopy | cmd/afs/sync_downloader.go:243-378 | patching the chunks that differ and cutting to size gives the remote content if and only if the announced size is its length, for all lengths, growth, shrinkage and short last chunks |
| Downloads.BaselineDeterminesData | cmd/afs/sync_downloader.go:439-456 | two files or links that both match a stored baseline hold the same data, so replacing a node that matches loses nothing |
| Downloads.PatchedBaselineIsRemote | cmd/afs/sync_downloader.go:234-386 | a local file at the baseline, patched with verified chunks, is the remote file if and only if the announced size is right |
| Downloads.FileAtBaseline | cmd/afs/sync_downloader.go:439-456 | in terms of bytes: a file matches a live file baseline exactly with its permissions and its content, whether the baseline is chunked or not |
| Downloads.OtherNodeAtBaseline | cmd/afs/sync_downloader.go:439-456 | a link matches exactly with the stored target, a directory exactly with the stored permissions, anything else never |
| DownloadHistory.NoEditIsLost | cmd/afs/sync_downloader.go:126-539 | whenever a file or link leaves the path during an operation, the event is a batch of the user's edits or a change of mode, or the node is a conflict copy afterwards, or it was at the baseline or came in during a gap of this operation |
| DownloadHistory.CopyWithoutEdits | cmd/afs/sync_downloader.go:639-645 | with nobody editing (every batch still to come is empty), a conflict copy that an answer tells of is the very node that was at the path |
| DownloadHistory.UneditedDataIsKept | cmd/afs/sync_downloader.go:126-539 | with nobody editing, a file or link off the baseline is still at the path after an operation, or a conflict copy |
| DownloadHistory.SameIdentitySameNode | cmd/afs/sync_downloader.go:431-437 | an identity that is shown again after any edits was never given up: the node is the same and was there all along |
| Downloader.Downloader.Process | cmd/afs/sync_downloader.go:106-124 | one answer per operation; the trace replays to the real path and uses up exactly the batches played; no edit is lost by a download, in any interleaving; with nobody editing, data off the baseline stays or is a conflict copy; the answer tells of a conflict copy exactly if the operation succeeded and made one, of a node from the path; a skipped operation did nothing; a successful chunked answer carries the hash of its manifest; without faults and gaps a delete is harmless exactly if what it found was; in calm the answer and the path are those of `OperationEnds`, for every kind of operation |
| Downloader.Downloader.ProcessFile | cmd/afs/sync_downloader.go:126-214 | no edit is lost, conflict copies are as the answer says; a success with a remote stat means that the path held that very content, as the one file placed or as found at some moment of the operation with nothing done; the answer is a file with a stat exactly when the remote was still no directory or link. In calm, a file is installed with the remote content and mode, and told with hash, mode, size and times, unless it is there already; it is skipped exactly where it may not replace what is there (no conflict, and off the baseline), and fails exactly on a directory at its baseline |
| Downloader.Downloader.ProcessChunkedFile | cmd/afs/sync_downloader.go:234-386 | no edit is lost, conflict copies are as the answer says; a delta that succeeds with quiet gaps either placed one file, which is the remote content exactly if the announced size is right, or did nothing and found the remote content at the path; a fallback to the full copy clears the chunk fields. In calm, it falls back exactly where there is no conflict-free local file cut alike; else it is skipped exactly off the baseline or if the remote did not deliver, and otherwise leaves the patched file, cut to the announced size |
| Downloader.Downloader.ProcessSymlink | cmd/afs/sync_downloader.go:458-539 | no edit is lost by a link download, whether it replaces a file, a link, an empty directory or nothing; with a conflict the displaced node is the one conflict copy. In calm, the path is a link to the remote target afterwards, told with it, except exactly where the link may not replace what is there, which is skipped |
| Downloader.Downloader.ProcessDelete | cmd/afs/sync_downloader.go:553-575 | does nothing but remove the node that the gap left; when no call fails the path is empty afterwards, and its event expected as an echo; without gaps no edit is lost if and only if what it found was at the baseline or no data |
| Downloader.Downloader.ProcessChmod | cmd/afs/sync_downloader.go:577-586 | changes the permissions of a file or directory, leaves a link itself as it is, and nothing else: neither content nor identity, and no node goes |
| Downloader.Downloader.ProcessMkdir | cmd/afs/sync_downloader.go:541-551 | makes a directory where nothing is, and succeeds without a change on a directory or a link that leads to one; when no call fails, exactly then, and its event is expected as an echo; nothing is destroyed |
| Downloader.Downloader.TakeSnapshot | cmd/afs/sync_downloader.go:397-429 | as long as the identity it saw is shown, the snapshot tells the node's true hashes and target, although its reads are separate steps; nothing but edits happens |
| Downloader.Downloader.Unchanged | cmd/afs/sync_downloader.go:431-437 | after a positive answer the path shows the snapshot's identity; nothing but edits happens |
| Downloader.Downloader.WriteLocalFile | cmd/afs/sync_downloader.go:600-647 | a write places exactly one file, with the given or patched bytes and the permissions asked for; it tells of a conflict copy exactly if it made one, of a node from the path, and only for a conflict; a refused one did nothing; what the rename displaced was justified or came in during a gap |
| Downloader.Downloader.Rename | cmd/afs/sync_downloader.go:636-647 | the events are the gap's batch and, on success, the placement; it fails exactly at a fault or on a directory |
| Downloader.Downloader.MoveLocalToConflict | cmd/afs/sync_downloader.go:639-645 | the events are the gap's batch and, if a node was there, the move: that node is the one new conflict copy |
| Downloader.Downloader.CurrentStat | cmd/afs/sync_downloader.go:274-303 | a delta goes on only with a stat of a remote whose manifest, stored or derived from its content, is the operation's |
| Downloader.EditInTheLastGapIsLost | cmd/afs/sync_downloader.go:636-647 | a witness at the last step: an edit between the final check and the rename is destroyed without a copy |
| SyncRounds.FetchAndRecord | cmd/afs/sync_downloader.go:126-214 | a whole-file download carried out in calm and recorded: the remote file is at the path exactly if it was already or may replace what was there and no unconflicting directory is in the way; then local node and baseline agree on it, else nothing changed; a conflicting node is the one new copy |
| SyncRounds.RemoteFileGoesRound | cmd/afs/sync_event_reconciler.go:1121-1264 | event, download and result of a changed remote file end in agreement exactly where nothing was and nothing was tracked, or the local content has plainly left the baseline, which becomes a conflict copy, or the local file is at the baseline; anywhere else the path stays |
| SyncRounds.ConflictGoesRound | cmd/afs/sync_event_reconciler.go:1325-1338 | an upload that met a changed remote ends with the remote file at the path and in the baseline, and the local one as the one new conflict copy |
| ReconcilerLaws.ChunkMetadataInvariant | cmd/afs/sync_event_reconciler.go:772-1518 | over every run of all handlers, each entry, candidate and queued upload with a chunk size has the composite hash of its manifest |
| ReconcilerLaws.StepKeepsChunks | cmd/afs/sync_event_reconciler.go:1341-1421 | the same for one step of any kind, including the full-copy fallback of a download |
| ReconcilerLaws.FallbackNeedsASingleCandidate | cmd/afs/sync_event_reconciler.go:645-683 | in whatever order candidates are visited, the fallback fires if and only if exactly one live candidate of the kind has left the directory, and yields that one |
| ReconcilerLaws.TakeForFrom | cmd/afs/sync_event_reconciler.go:628-703 | a taken candidate was in the map, is removed from it, had not expired, and carries the wanted key or fits the directory and kind |
| ReconcilerLaws.QueuedDownloadsAreProcessable | cmd/afs/sync_event_reconciler.go:1195-1264 | over every run each queued download meets what the downloader demands of an operation |
| ReconcilerLaws.ObsoleteMeansAtNewerBaseline | cmd/afs/sync_recovery_plan.go:81-113 | a late result is obsolete, for a newer agreed baseline of a live file, if and only if the local file is at that newer baseline |
| ReconcilerLaws.ObsoleteResultsChangeNothing | cmd/afs/sync_event_reconciler.go:1317-1325 | an obsolete result changes no entry and asks for a sweep; one that is not obsolete and landed becomes the baseline of its path alone |
| ReconcilerLaws.StatlessAnswerIsRecordedAsFile | cmd/afs/sync_event_reconciler.go:1467-1518 | a file download that answered without a stat is recorded as a file without remote identity |
| ReconcilerLaws.DirEventDeletesTheMissing | cmd/afs/sync_event_reconciler.go:998-1038 | a directory event makes tombstones of exactly the live tracked files and links below it that are gone, and leaves every other entry as it is |
| LocalEventLaws.EchoIsSwallowed | cmd/afs/sync_event_reconciler.go:208-280 | an expected echo is used up by the first event and, if the event shows what was written, that is all it does |
| LocalEventLaws.TakesTheChosen | cmd/afs/sync_event_reconciler.go:685-703 | in whatever order candidates are visited, a candidate is taken if and only if one is chosen, and it is the chosen one |
| LocalEventLaws.ChosenWithinFiveSeconds | cmd/afs/sync_event_reconciler.go:628-683 | only a deletion of the last five seconds is continued, and one under the path's own key always is |
| LocalEventLaws.SiblingsFit | cmd/afs/sync_event_reconciler.go:645-683 | the fallback takes a deletion of the same kind that left the same directory under another name, and no other |
| LocalEventLaws.FileKeysMeet | cmd/afs/sync_event_reconciler.go:577-602 | a file has the key of a deleted entry exactly if that was a file of the same inode or, where neither inode is known, of the same hash and size |
| LocalEventLaws.LinkKeysMeet | cmd/afs/sync_event_reconciler.go:577-612 | the same for links and their targets |
| LocalEventLaws.DeletionKeysMeet | cmd/afs/sync_event_reconciler.go:577-592 | when two deletions have one key |
| LocalEventLaws.FileOffBaselineIsUploaded | cmd/afs/sync_event_reconciler.go:791-952 | a local file that continues no deletion is uploaded if and only if it is readable, within the limit, no echo, and the baseline there is not a file of its mode and hash; the one upload carries path, content or manifest with the differing chunks, hash, mode, identity, time and the stored entry, and nothing else changes |
| LocalEventLaws.AtRestMeansUnchanged | cmd/afs/sync_event_reconciler.go:866-868 | in terms of bytes: a file is at rest exactly if it has the content and the mode that were recorded, in one piece or by chunks |
| LocalEventLaws.ContinuedFileIsRenamed | cmd/afs/sync_event_reconciler.go:791-952 | a file that continues a remembered deletion is sent as a rename from it, followed by its content exactly if that or the mode has changed; its entry is at the new path under the version the rename carries, the old one moved or the changed file |
| LocalEventLaws.SentChunksRebuildTheFile | cmd/afs/sync_chunk.go:63-102 | the chunks that an upload sends, laid over the file its base recorded and cut to its size, give the local file |
| LocalEventLaws.LinkOffBaselineIsUploaded | cmd/afs/sync_event_reconciler.go:954-996 | a local link that continues no deletion is uploaded, with its target, if and only if the baseline holds no link to that target and it is no echo |
| LocalEventLaws.ContinuedLinkIsRenamed | cmd/afs/sync_event_reconciler.go:954-996 | a link that continues a remembered deletion is sent as a rename from it, with its target |
| LocalEventLaws.DeletionIsSentOrWaits | cmd/afs/sync_event_reconciler.go:1060-1097 | a local deletion leaves the entry as a tombstone; its delete is sent at once if nothing could tell the path again, else it waits and the entry is a rename candidate |
| LocalEventLaws.MissingPathIsDeleted | cmd/afs/sync_event_reconciler.go:238-248 | the event of a missing path deletes exactly a tracked path whose removal was not the client's own |
| LocalEventLaws.DirectoryEventSends | cmd/afs/sync_event_reconciler.go:998-1038 | announces the deletion of exactly the live files and links below that are gone, each once as it was stored, and then sends the directory with its mode unless the baseline has one there |
| LocalEventLaws.LinkSweepSends | cmd/afs/sync_event_reconciler.go:1040-1058 | announces the deletion of exactly the live tracked links that are gone, and buries exactly those |
| LocalEventLaws.UnderMeansBelow | cmd/afs/sync_event_reconciler.go:1016-1030 | below a directory is what begins with its path and a slash, and for the root everything |
| LocalEventLaws.FilePutBackIsLeftToTheSweep | cmd/afs/sync_event_reconciler.go:1060-1097 | a file deleted and put back with another inode before the delete is sent: uploaded exactly if content or mode changed, the tombstone and the delete stay in either case, and the skipped delete asks for a sweep |
| RemoteEventLaws.FoundPathIsDownloaded | cmd/afs/sync_event_reconciler.go:1195-1264 | a path the remote has becomes exactly one download of its kind, mode, target, stored entry and chunk metadata, and nothing else changes; a file or link is a conflict exactly if the local one has left the baseline |
| RemoteEventLaws.AbsentPathIsDeleted | cmd/afs/sync_event_reconciler.go:1153-1193 | a delete is queued, and a tombstone written, if and only if the path is live and tracked, the first stat finds nothing and the second does not find it |
| RemoteEventLaws.OtherEventsDoNothing | cmd/afs/sync_event_reconciler.go:1138-1193 | tombstones, failing stats and absent untracked paths change nothing |
| ResultLaws.ConflictIsDownloadedAgain | cmd/afs/sync_event_reconciler.go:1325-1338 | a conflicting result that is neither skipped, late nor an error changes no entry and queues exactly one whole-file download of the path, marked as a conflict, with the upload's stored entry |
| ResultLaws.OtherUploadResults | cmd/afs/sync_event_reconciler.go:1292-1324 | errors change nothing; skipped results but renames, and late ones, only ask for a sweep |
| ResultLaws.LateExactlyIf | cmd/afs/sync_recovery_plan.go:81-113 | a file result is late exactly for a tombstone, a later recorded remote time, or a newer agreed baseline that the local file is seen to have |
| ResultLaws.LandedFileIsRecorded | cmd/afs/sync_event_reconciler.go:1342-1367 | a landed file becomes the entry of its path: mode, size, both hashes, chunk fields, identity and remote stat; no other entry changes |
| ResultLaws.LandedLinkIsRecorded | cmd/afs/sync_event_reconciler.go:1368-1384 | a landed link becomes the entry of its path with its target |
| ResultLaws.LandedDirectoryIsRecorded | cmd/afs/sync_event_reconciler.go:1385-1391 | a landed directory becomes the entry of its path with its mode |
| ResultLaws.LandedDeleteKeepsTheTombstone | cmd/afs/sync_event_reconciler.go:1392-1398 | a landed delete leaves the entry but for its time, and forgets the rename candidate |
| ResultLaws.LandedRenameMovesTheBaseline | cmd/afs/sync_event_reconciler.go:1399-1413 | after a landed rename the source is untracked, and the live entry of the destination has the source's fields, the new identity and the remote stat |
| ResultLaws.LandedChmodIsRecorded | cmd/afs/sync_event_reconciler.go:1414-1420 | a landed change of mode sets the mode of the entry, if there is one |
| ResultLaws.OtherDownloadResults | cmd/afs/sync_event_reconciler.go:1440-1460 | skipped results ask for a sweep, failed ones and those for a tombstoned path change nothing |
| ResultLaws.DownloadedFileIsRecorded | cmd/afs/sync_event_reconciler.go:1468-1487 | a downloaded file becomes the entry of its path: mode, size, both hashes, times, chunk fields and remote identity as the answer tells |
| ResultLaws.DownloadedLinkIsRecorded | cmd/afs/sync_event_reconciler.go:1488-1495 | a downloaded link becomes the entry of its path with the target told |
| ResultLaws.DownloadedDirectoryIsRecorded | cmd/afs/sync_event_reconciler.go:1496-1503 | a downloaded directory becomes the entry of its path with the remote's mode |
| ResultLaws.DownloadedChangeIsRecorded | cmd/afs/sync_event_reconciler.go:1504-1518 | a delete carried out buries the entry, a change of mode sets its mode, and neither makes one |
| ResultLaws.ControlWriteIsRecorded | cmd/afs/sync_event_reconciler.go:387-405 | a control write is the live entry of both sides, and the event of exactly that content or target will be an echo |
| ResultLaws.UploadedFileComesToRest | cmd/afs/sync_event_reconciler.go:1342-1367 | once its upload has landed, the same file is not sent again, and is at its baseline for the downloader |
| ResultLaws.DownloadedFileComesToRest | cmd/afs/sync_event_reconciler.go:1468-1487 | a file downloaded whole is at its baseline for the downloader; its next event sends nothing if and only if it is not above the chunk threshold and its remote mode is only permission bits |
| ResultLaws.DownloadedDeltaComesToRest | cmd/afs/sync_event_reconciler.go:1468-1487 | the same for a download by chunks of the client's size: at rest if and only if it is above the threshold, with such a mode |
| ResultLaws.DownloadedLinkComesToRest | cmd/afs/sync_event_reconciler.go:1488-1495 | a downloaded link is at its baseline for both sides |
| ResultLaws.DownloadedDirectoryMayNotComeToRest | cmd/afs/sync_event_reconciler.go:1496-1503 | a downloaded directory is at its baseline if and only if it was made with the permissions of the remote mode |
| RenameLaws.StepIsLinear | cmd/afs/sync_event_reconciler.go:577-726 | every step keeps: each candidate sits under its own key and stands for its own deletion, each rename upload used one up, no two the same |
| RenameLaws.RenamesUseDistinctDeletions | cmd/afs/sync_event_reconciler.go:705-726 | in a reachable state two rename uploads come from different remembered deletions, with their paths and entries as sources |
| RenameLaws.TakenCandidateHasKind | cmd/afs/sync_event_reconciler.go:685-703 | a candidate taken for a file was a file, one taken for a link was a link, by key or by fallback |
| RenameLaws.FileRenameHasFileSource | cmd/afs/sync_event_reconciler.go:791-952 | every rename upload queued for a local file has that path as destination and a file as source |
| RenameLaws.LinkRenameHasLinkSource | cmd/afs/sync_event_reconciler.go:954-996 | the same for links |
| RenameLaws.StepKeepsRenameInvariant | cmd/afs/sync_event_reconciler.go:772-789 | every step keeps: a version handed out names one write with its path and entry; a rename upload carries the version of the entry staged for it, its own source moved or the changed content at its destination; no two rename uploads share a version |
| RenameLaws.RenameInvariantHoldsOverRuns | cmd/afs/sync_event_reconciler.go:772-1518 | so does every run from a starting state |
| RenameLaws.RollbackIsExact | cmd/afs/sync_event_reconciler.go:1292-1316 | a skipped rename removes an entry if and only if it carries the rename's version, and then it is the live entry staged for this rename, from its own source, and for no other; any later entry, a tombstone included, stays; nothing else changes but the request for a sweep |
| RenameLaws.DeleteAndRenameBothQueued | cmd/afs/sync_event_reconciler.go:1060-1097 | after a deletion whose timer fires first the delete is sent, and a later file event sends a rename from the same deletion if and only if it chooses the candidate that is still kept: alive and under its own key, or alone in the directory |
| RenameLaws.FileEventRenamesTheChosen | cmd/afs/sync_event_reconciler.go:791-952 | in any order of the candidates, a file event queues a rename of a given remembered deletion if and only if its candidate is the chosen one |
| RenameLaws.RenameReplacesTheDelete | cmd/afs/sync_event_reconciler.go:705-716 | if the rename comes before the timer, the delete is not sent |
| RenameLaws.CollidingDeletionIsNotUploaded | cmd/afs/sync_event_reconciler.go:614-626 | of two deletions waiting together, the first one's timer sends nothing if and only if both have the same candidate key |
| TombstoneLaws.DownloadSideKeepsTombstones | cmd/afs/sync_event_reconciler.go:1121-1264 | remote events and download results leave a tombstoned entry exactly as it is |
| TombstoneLaws.DownloadSideNeverResurrects | cmd/afs/sync_event_reconciler.go:1440-1518 | over every run of such steps a tombstone stays the same |
| TombstoneLaws.OnlyLocalIntentResurrects | cmd/afs/sync_event_reconciler.go:1292-1438 | in any step a tombstoned path comes back only by a local rename onto it, a landed link, directory or rename upload or a control write, and is forgotten only by a landed rename away; a landed file upload never revives it |
| TombstoneLaws.QueuedDeltaIsDelta | cmd/afs/sync_event_reconciler.go:1195-1264 | a delta that a remote event queues asks for exactly the chunks that differ from the stored manifest |
| TombstoneLaws.ChunkedBaselineAlwaysConflicts | cmd/afs/sync_event_reconciler.go:1266-1290 | with a chunked baseline and a readable local file the delta is queued as a conflict if and only if the file or the stored manifest is not empty |
| TombstoneLaws.ChunkedEchoIsNeverRecognised | cmd/afs/sync_event_reconciler.go:552-575 | a local file matches the echo of a chunked download if and only if both are empty |
| Reconciler.Reconciler.StageSyncEntry | cmd/afs/sync_event_reconciler.go:772-782 | stores the entry under the next version, and only that |
| Reconciler.Reconciler.InstallPendingRename | cmd/afs/sync_event_reconciler.go:784-789 | stores the source's baseline, live and with the new identity, under the next version |
| Reconciler.Reconciler.RememberRenameCandidate | cmd/afs/sync_event_reconciler.go:614-626 | remembers a deletion under its key, replacing an earlier one; without a key nothing changes |
| Reconciler.Reconciler.TakeRenameCandidate | cmd/afs/sync_event_reconciler.go:628-643 | takes the candidate under the key out of the map, and yields it unless it has expired |
| Reconciler.Reconciler.TakeFallbackRenameCandidate | cmd/afs/sync_event_reconciler.go:645-683 | does what the scan function says, whose law is `FallbackNeedsASingleCandidate` |
| Reconciler.Reconciler.OnLocalEvent | cmd/afs/sync_event_reconciler.go:208-280 | consumes the echo and dispatches; the new state is that of the function that the rows of `LocalEventLaws` are about |
| Reconciler.Reconciler.OnLocalFile | cmd/afs/sync_event_reconciler.go:791-952 | in place: a file too large or unreadable changes nothing; a taken candidate makes it a rename, followed by its content if that changed; a file at its baseline queues nothing; any other is uploaded with the chunks that differ |
| Reconciler.Reconciler.OnLocalSymlink | cmd/afs/sync_event_reconciler.go:954-996 | in place: a taken candidate makes the link a rename from it, an unchanged link queues nothing, any other is uploaded |
| Reconciler.Reconciler.OnLocalDir | cmd/afs/sync_event_reconciler.go:998-1038 | in place: first every live tracked file or link that is gone below it is deleted, as the scan of the entries finds them, then the directory is uploaded unless the baseline already has one there |
| Reconciler.Reconciler.SweepMissingLocalSymlinks | cmd/afs/sync_event_reconciler.go:1040-1058 | in place: deletes exactly the live tracked links that are gone |
| Reconciler.Reconciler.OnLocalDelete | cmd/afs/sync_event_reconciler.go:1060-1097 | writes the tombstone, remembers the candidate and delays or queues the delete, as its function says |
| Reconciler.Reconciler.OnDeleteTimer | cmd/afs/sync_event_reconciler.go:728-746 | the delayed delete is sent only while its own candidate is pending |
| Reconciler.Reconciler.OnRemoteEvent | cmd/afs/sync_event_reconciler.go:1121-1264 | in place: tombstones and failed stats change nothing, a confirmed absence becomes a tombstone and a delete, anything else the download its kind, its chunk metadata and the conflict test ask for |
| Reconciler.Reconciler.OnUploadResult | cmd/afs/sync_event_reconciler.go:1292-1438 | in place: skipped renames are rolled back, obsolete file results only ask for a sweep, errors change nothing, conflicts are downloaded again, landed uploads become the baseline |
| Reconciler.Reconciler.OnDownloadResult | cmd/afs/sync_event_reconciler.go:1440-1518 | in place: skipped ones ask for a sweep, errors and results for tombstoned paths change nothing, any other becomes the baseline with the chunk fields of its operation |
| Reconciler.Reconciler.OnControlWrite | cmd/afs/sync_event_reconciler.go:387-405 | in place: the written file or link becomes the baseline of both sides under a new version, without chunk fields, and its echo is expected |
| MountPlan.BuildMountReconcilePlan | cmd/afs/mount_reconcile.go:62-125 | builds a plan unless a content cannot be read, and then the plan holds, in path order, exactly the decision for each path, its counters count them, and its baseline is what the decisions adopt |
| MountPlan.PlanKnownPath | cmd/afs/mount_reconcile.go:175-329 | one more path, planned by the program's branches, is planned as the three-way decision says |
| MountPlan.MountRemoteDirHasLiveDescendants | cmd/afs/mount_reconcile.go:388-400 | true exactly when some remote path below has no tombstone |
| MountDecisions.MovedMeansNotStanding | cmd/afs/mount_reconcile.go:412-432 | a side has moved if and only if some recorded and known field of it (kind; size; local time; remote time, revision with inode; target; directory mode) differs from the scan, or the entry is a tombstone |
| MountDecisions.KnownPathOnBothSides | cmd/afs/mount_reconcile.go:261-325 | a tracked path on both sides: same exactly if neither side moved; a local move alone is uploaded exactly if the plan may send it and skipped otherwise; a remote one alone is downloaded; after both, the contents decide between adopted, unreadable and conflict, or the remote wins read-only |
| MountDecisions.NewPathOnBothSides | cmd/afs/mount_reconcile.go:261-287 | an untracked path on both sides: adopted exactly if both hold the same, otherwise a conflict, or the remote wins in a read-only plan with a baseline |
| MountDecisions.PathOnLocalSideOnly | cmd/afs/mount_reconcile.go:183-194 | a local path alone: removed exactly if a live baseline knows it, otherwise imported or uploaded exactly if the plan may send it, the size cap included |
| MountDecisions.PathOnRemoteSideOnly | cmd/afs/mount_reconcile.go:195-260 | a remote path alone: when it is downloaded, deleted remotely, skipped or a conflict, by tombstone, live children, moved remote and read-only mode |
| MountDecisions.AdoptedEntryRecordsBothSides | cmd/afs/mount_reconcile.go:434-491 | an adopted entry has the hashes, size, target, mode and times of the two sides, which agree; both stand against it, but for a directory whose modes differ |
| MountPlanLaws.PlanPartitionsPaths | cmd/afs/mount_reconcile.go:62-125 | every scanned path is in exactly one counter, the counters sum to the size of local and remote together, one operation per path that is not the same, per-code counts equal the counters |
| MountPlanLaws.OperationsMatchCounters | cmd/afs/mount_reconcile.go:141-371 | the number of operations of a code is the number of paths decided that way |
| MountPlanLaws.QuietPlanIsAllSame | cmd/afs/mount_reconcile.go:127-129 | a plan has something to report if and only if it lists an operation, and lists none if and only if all scanned paths are the same on both sides |
| MountPlanLaws.ReadonlyPlanLeavesRemoteAlone | cmd/afs/mount_reconcile.go:89-173 | a read-only plan has no import, upload or remote deletion, and with a baseline no conflict |
| MountPlanLaws.WhatAWritablePlanDiscards | cmd/afs/mount_reconcile.go:175-329 | exactly when a plan throws away a local or a remote change, measured against what the baseline, or the tombstone, recorded |
| MountPlanLaws.ExecutedPlanConverges | cmd/afs/mount_reconcile.go:175-329 | carrying out a writable plan without conflicts and skips leaves both sides equal at every path |
| MountPlanLaws.ReplanIsQuiet | cmd/afs/mount_reconcile.go:412-491 | planning again then finds every path the same, if and only if no adopted directory disputes its mode |
| MountPlanLaws.RebuiltPlanIsEmpty | cmd/afs/mount_reconcile.go:62-129 | the rebuilt plan has no operation under the same condition, for any plan object built from the new scans |
| MountPlanLaws.PlansCanBeExecuted | cmd/afs/mount_reconcile.go:493-512 | every plan has an executed successor, so the two laws above are not empty |
| GlobMatch.AfsGlobMatch | cmd/afs/afs_grep.go:1010-1060 | ends, and accepts exactly the texts in the language of the pattern, for every pattern and text |
| GlobMatch.AfsMatchClass | cmd/afs/afs_grep.go:1062-1115 | matches a byte exactly when the parsed class accepts it, and moves on by the width of the class, whatever the byte |
| GlobMatch.RestAtStar | cmd/afs/afs_grep.go:1010-1060 | what a star may skip: the rest matches if and only if what is behind the star matches some later suffix |
| GlobMatch.ScanTakesStar | cmd/afs/afs_grep.go:1010-1060 | forgetting an earlier star at a new one loses no match |
| GlobMatch.ScanFails | cmd/afs/afs_grep.go:1010-1060 | after a mismatch, going back to the last star and one byte further loses no match, and without a star there is none |
| GlobMatch.ParseOfEscaped | cmd/afs/afs_grep.go:968-977 | an escaped text, inside any pattern, parses back to its bytes as literals |
| GlobMatch.LiteralGlobMatchesSubstrings | cmd/afs/afs_grep.go:964-977 | the literal pattern of a text matches exactly the strings that contain the text |
| GlobMatch.WrittenClass | cmd/afs/afs_grep.go:1062-1115 | a written class, inside any pattern, ends at its bracket and accepts exactly the bytes between the ends of its ranges, in either order; with `!` or `^` exactly the others |
| GrepForms.SplittingLosesNothing | cmd/afs/afs_grep.go:756 | the lines contain no newline and joined give the content back |
| GrepForms.Match | cmd/afs/afs_grep.go:826-910 | decides whether one of the compiled patterns finds the text |
| GrepForms.BinaryMeansEarlyZero | cmd/afs/afs_grep.go:818-824 | a file is taken for binary exactly if there is a zero byte among its first 8192 |
| GrepForms.GrepFileHasMatch | cmd/afs/afs_mcp.go:2472-2491 | true exactly when some line is selected, or a binary content matches and the search is not inverted |
| GrepForms.GrepFileMatchCount | cmd/afs/afs_mcp.go:2493-2515 | the number of selected lines, capped by a positive limit; 0 or 1 for binary content |
| GrepForms.GrepCollectMatches | cmd/afs/afs_mcp.go:2517-2549 | the capped selected lines with their numbers and texts |
| GrepForms.FormsAgree | cmd/afs/afs_mcp.go:2472-2549 | as many matches as the count, a match exactly if the count is positive, never more than a positive limit |
| GrepForms.HitsAreTheFirst | cmd/afs/afs_mcp.go:2517-2549 | the lines come in increasing order, are selected, and a selected line is missing only behind a full limit |
| GrepForms.InvertedSearchTakesTheRest | cmd/afs/afs_mcp.go:2504-2507 | a search and its inversion select each line exactly once |
| GrepForms.GrepProcessFile | cmd/afs/afs_grep.go:751-816 | the printed report is that of the three forms: the name, the count, or the collected lines |
| GrepForms.LiteralSearchSeesTheBytes | cmd/afs/afs_grep.go:826-924 | a search for literal texts without newlines finds a file line by line exactly when its bytes contain one |
| GrepForms.LiteralSearchAsGlob | cmd/afs/afs_grep.go:826-866 | a literal search and the glob search for its escaped patterns, with this package's own matcher, give the same results |
| DirectoryModes.AncestorSortsFirst | cmd/afs/sync_directory_modes.go:67-68 | an ancestor's path sorts before its descendants', so the reverse sort restores them first |
| DirectoryModes.SyncDirectoryModes.Prepare | cmd/afs/sync_directory_modes.go:27-60 | opens every existing directory on the way and the path itself, remembering the modes; the prepared set stays closed under ancestors; unless something on the way was made anew while prepared, it fails exactly if something on the way is no directory |
| DirectoryModes.SyncDirectoryModes.PrepareTarget | cmd/afs/sync_directory_modes.go:27-60 | the same for a path in the root; a path outside it is always refused |
| DirectoryModes.NextIsPassable | cmd/afs/sync_directory_modes.go:62-93 | when the turn of a directory that is still open comes, no ancestor denies the lookup; nor for any path if nothing was made anew |
| DirectoryModes.DisturbedMeans | cmd/afs/sync_directory_modes.go:81-86 | a directory is disturbed unless it is the very one, with its own mode and the three owner bits |
| DirectoryModes.SyncDirectoryModes.Restore | cmd/afs/sync_directory_modes.go:62-93 | without outside change the tree is the original one with the reconcile's own creations and deletions, and there is no error if nothing prepared was made anew; otherwise directories replaced or given another mode are left alone, a sweep is requested exactly then, and without an error all others have their mode again |
| DirectoryModes.SyncDirectoryModes.Carry | cmd/afs/sync_directory_modes.go:72-91 | a creation of the reconcile survives the restore unless it is a directory with the very identity and the opened mode of one that was opened there and deleted |
| DirectoryModes.ReconcileThenRestore | cmd/afs/sync_directory_modes.go:13-93 | paths opened, things created and deleted in any order, one restore: the tree is the original one with exactly the changes carried out |
| DirectoryModes.PrepareAllThenRestore | cmd/afs/sync_directory_modes.go:27-93 | any sequence of prepared paths followed by a restore gives the tree back, failed ones included |
| ImportBatching.EntryWeight | cmd/afs/migration_pipeline.go:453-465 | every entry weighs something, an empty file too |
| ImportBatching.WhatBatchesWeigh | cmd/afs/migration_pipeline.go:453-465 | files weigh their bytes, empty ones one each, directories and links their text and 256 each |
| ImportBatching.PassesShareTheWalk | cmd/afs/migration_pipeline.go:193-355 | the two passes take each entry of the walk once: the first exactly the directories, the second exactly all else |
| ImportBatching.BatchesInNumbers | cmd/afs/migration_pipeline.go:193-355 | at most 256 directories or 64 others a batch, and at most 1 or 4 MiB where a batch holds more than one entry |
| ImportBatching.Importer.Take | cmd/afs/migration_pipeline.go:325-342 | one more entry, flushed before or not, keeps the batching greedy and within the caps |
| ImportBatching.Importer.Flush | cmd/afs/migration_pipeline.go:273-299 | a written batch is counted and reported once; a refused one changes neither totals nor reports |
| ImportBatching.Importer.Import | cmd/afs/migration_pipeline.go:266-355 | succeeds exactly if the walk and all writes do; then the batches are the wanted entries in order, greedily cut, and the counters are their totals; else a prefix was written and no counter changed |
| ImportBatching.GreedyIsUnique | cmd/afs/migration_pipeline.go:244-250 | the caps and the rule determine the batches |
| ImportBatching.GreedyIsOptimal | cmd/afs/migration_pipeline.go:244-250 | no other way of cutting the entries, in order and within the caps, takes fewer round trips |
| ImportBatching.FlushBound | cmd/afs/migration_pipeline.go:193-264 | at most entries / cap + 2 * weight / byte cap + 1 round trips |
| ImportBatching.TotalsAreCounts | cmd/afs/migration_pipeline.go:282-290 | the totals are the numbers of directories, files and links, and the bytes of the files alone |
| QueryCoalesce.CoalesceWorkspaceQueryResults | cmd/afs/afs_query_commands.go:586-603 | the nested loops compute the function that the laws below are about |
| QueryCoalesce.CoalesceKeeps | cmd/afs/afs_query_commands.go:586-674 | each hit has one output of its file, outputs stand in the order of their first hits and keep its other fields, an output's score is the highest of its hits, no text and no search type is lost, hits without lines stay alone |
| QueryCoalesce.CoverageIsKept | cmd/afs/afs_query_commands.go:586-638 | the lines covered in each file are the same before and after, for any list in which no malformed hit is followed by one that would make it forgotten |
| QueryCoalesce.PlacingKeepsCoverage | cmd/afs/afs_query_commands.go:586-638 | one more hit keeps the covered lines if and only if every line that its joining forgets is also in another output |
| QueryCoalesce.CoverageThroughout | cmd/afs/afs_query_commands.go:586-638 | for a list of any hits, the covered lines are kept throughout if and only if no hit, in its turn, loses one |
| QueryCoalesce.CoverageOfAPair | cmd/afs/afs_query_commands.go:614-638 | for two hits that condition is exact |
| QueryCoalesce.MergedLines | cmd/afs/afs_query_commands.go:605-638 | joining two overlapping hits gives the union of their lines if and only if the first one's line is not forgotten, and keeps hits well formed |
| QueryCoalesce.WellFormedHitsStayWellFormed | cmd/afs/afs_query_commands.go:614-638 | well-formed hits give well-formed outputs |
| QueryCoalesce.PlacingKeepsApart | cmd/afs/afs_query_commands.go:586-603 | one more hit leaves the outputs apart if and only if it does not touch two of them |
| QueryCoalesce.OutputsComeOutApart | cmd/afs/afs_query_commands.go:586-603 | the outputs of a list come out apart if and only if no hit closes a gap: finds, in its reach, a free line between two lines that the hits before it cover |
| QueryCoalesce.BridgesMeansClosesGap | cmd/afs/afs_query_commands.go:605-612 | among outputs that are apart, a hit touches two of them if and only if it reaches across a line none of them has |
| QueryCoalesce.HitsInOrderComeOutApart | cmd/afs/afs_query_commands.go:586-603 | in particular, if the hits of each file come in line order, no two outputs touch |
| QueryCoalesce.OutputsMayTouch | cmd/afs/afs_query_commands.go:586-603 | a concrete list whose last hit bridges two outputs, so that they touch |
| QueryCoalesce.MergedSnippetKeepsText | cmd/afs/afs_query_commands.go:640-655 | a joined snippet contains every text that one of the two contained |
| QueryCoalesce.MergedSnippetSaysNothingTwice | cmd/afs/afs_query_commands.go:640-655 | a joined snippet is one of the two if it contains the other or the other is blank, and otherwise both in order with an ellipsis between |
| QueryCoalesce.MergeWorkspaceQuerySearchTypes | cmd/afs/afs_query_commands.go:657-674 | the second list as it is if the first is empty, else the non-empty types of both, in the order of first occurrence |
| QueryCoalesce.WorkspaceQueryFileResults | cmd/afs/afs_query_commands.go:501-516 | one output a file, in order of first appearance, each the first hit with the file's highest score |
| QueryCoalesce.FileScoreIsHighest | cmd/afs/afs_query_commands.go:494-516 | listing coalesced hits by file shows the highest score of all original hits of the file |
| MountRegistry.CleaningEarlyIsTheSame | cmd/afs/mount_state.go:120-133 | cleaning the first part of a path does not change where the whole leads; with the two rows below this says which path a cleaned one is |
| MountRegistry.PlainIsClean | cmd/afs/mount_state.go:120-133 | a path without empty, `.` or `..` names is its own cleaned form, and every cleaned path is one |
| MountRegistry.UpLeadsBack | cmd/afs/mount_state.go:120-133 | a name followed by `..` leads back to where it began |
| Texts.TrimmedIsTheMiddle | cmd/afs/mount_state.go:159-172 | trimming a name or reference cuts off exactly the white space at both ends |
| MountRegistry.ContainsMeansBelow | cmd/afs/mount_state.go:229-237 | the test on the relative path holds exactly for proper descendants |
| MountRegistry.GuardsAreExact | cmd/afs/mount_state.go:204-227 | the two guards refuse exactly the mounts that would make the registry overlap |
| MountRegistry.Registry.Mount | cmd/afs/mount_commands.go:153-221 | mounts, at the end, exactly what keeps the registry disjoint; a refusal names a clashing mount and changes nothing |
| MountRegistry.Registry.Unmount | cmd/afs/mount_commands.go:820-864 | removes at most one mount, one that the path or reference names, path or reference first as the target looks, and keeps the rest in order |
| MountRegistry.Registry.UpsertMount | cmd/afs/mount_state.go:190-202 | replaces the first record at the path, or appends one |
| MountRegistry.Registry.RemoveMountByPath | cmd/afs/mount_state.go:145-157 | removes the first record at the path, the rest keeping its order |
| MountRegistry.Registry.RemoveMountByWorkspaceRef | cmd/afs/mount_state.go:159-188 | removes the one record a reference names; none for a blank, unknown or ambiguous reference |
| MountRegistry.Registry.MountPathConflict | cmd/afs/mount_state.go:204-213 | a conflict is a recorded mount at, above or below the path; none means the path is free |
| MountRegistry.Registry.MountWorkspaceConflict | cmd/afs/mount_state.go:215-227 | a conflict is a recorded mount of that id or name; none means both are free |
| MountRegistry.AmbiguousReference | cmd/afs/mount_state.go:159-188 | in a disjoint registry a reference names at most two mounts, one by name and one by id |
| MountRegistry.MountGoesByNameAndId | cmd/afs/mount_state.go:159-172 | a reference names a mount exactly by its workspace's name or id, white space aside |
| MountRegistry.RunCommands | cmd/afs/mount_commands.go:153-221 | over any sequence of mounts and unmounts the registry stays disjoint |
| MountRegistry.MountThenUnmount | cmd/afs/mount_state.go:145-202 | unmounting the path just mounted gives the registry back |

## Left out

- Redis, the control plane, FUSE and NFS processes and file watching: remote calls are arbitrary answers, local events arbitrary events.
- The uploader, the full reconciler and the writer of the state file: only the results an upload can have and the strictly increasing version counter appear.
- Real SHA-256, real clocks, channels and scheduling: digests are free constructors, times are parameters, the reconciler is a single writer.
- Ignore rules, control paths, suppression of events during a restore, and the counters of pending uploads: they decide which events reach the modelled handlers.
- `scanForRenameTargets` (cmd/afs/sync_event_reconciler.go:1099-1119): its walk appears as the local events it makes.
- The second removal of a file in the tombstone branch of `handleDownloadResult` (cmd/afs/sync_event_reconciler.go:1454-1458): the model keeps the effect on the state, not the one on the disk.
- Edits that reuse device, inode, size, mode and modification time of an earlier node at the path: no check of the program could tell them apart.
- Other writers to the bytes of the local file while it is copied for patching: the copy is one step.
- ChunkDelta.RawIsNotComposite: holds for free digests; a content that is the joined text of the chunk hashes has the composite hash as its plain hash.
- TombstoneLaws.ChunkedBaselineAlwaysConflicts: does not model that one content, the joined hash text of the stored manifest, which would be no conflict.
- TombstoneLaws.ChunkedEchoIsNeverRecognised: does not model that one content, the joined hash text, whose echo would be recognised.
- What lies below a directory at the downloader's path: a directory is one node without content, so removing it with its children counts as losing no data, and removing a directory that is not empty, which fails where a link is to take its place, is a failing step.
- Downloader.Downloader.ProcessDelete: loses an edit whenever it finds data off the baseline, because the program removes without looking.
- Downloader.Downloader.Process: speaks of edits outside the three gaps; an edit inside one can be lost, as `EditInTheLastGapIsLost` shows at the rename.
- DirectoryModes.SyncDirectoryModes.Carry: refuses one creation that the program accepts: a directory with the identity and the opened mode of one that was opened there and deleted; the restore would give it the old mode.
- QueryCoalesce.CoverageIsKept: goes one way; a line that is lost in one turn may be covered again by a later hit, so the exact condition is given turn by turn.
- Bits of a local mode beyond the nine permission bits, which the downloader sets as the remote has them (cmd/afs/sync_downloader.go:624): a node shows nine.
- Tree-level consistency of a mount plan, such as a parent deleted while a child is downloaded: the planner decides path by path.
- Display texts of operations, confirmation prompts and tables.
- The backend's own glob matcher (mount/internal/client/glob.go), to which a literal search sends its escaped pattern when it can: the lemma on escaped patterns is about the matcher of this package.
- Regular expressions and case folding: a regular expression is any predicate on texts, folding any function on them.
- Scores that are not numbers: scores are real numbers.
- 64-bit overflow of sizes and sums of sizes: integers are unbounded.
- A failed batch of an import that the store applied in part: a refused batch counts as not written.
- Stopping the processes of a mount, and the registry file: when stopping fails the program does not save the shortened registry.
- Relative paths in a hand-edited registry file: recorded paths are absolute.
- Concurrent mounts from two processes: both could pass the guards before either is recorded.
