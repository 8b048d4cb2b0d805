/**
 What results and control writes leave in the baseline, field by field, and what that means for
 the next event: where the sync comes to rest, and where it does not.
 */
module ResultLaws {
  import opened ByteStrings
  import opened Digests
  import opened SyncTypes
  import opened ChunkDelta
  import opened ReconcilerState
  import opened LocalEventLaws
  import RemoteEventLaws
  import D = Downloads

  // ------------------------------------------------------------------
  // Upload results
  // ------------------------------------------------------------------

  /** A file result that comes too late to count. */
  predicate TooLate(s: State, res: UploadResult, look: LocalLook) {
    res.op.kind == UploadFile && UploadResultObsolete(s, res, look)
  }

  predicate Landed(res: UploadResult) {
    !res.skipped && !res.err && !res.conflict
  }

  /** The inode that a look at the path found; a directory is not told by its inode. */
  function InodeSeen(look: LocalLook): Identity {
    if look.FileAt? then look.look.identity else if look.LinkAt? then look.identity else Unknown
  }

  function FirstKnown(a: Identity, b: Identity, c: Identity): Identity {
    if a != Unknown then a else if b != Unknown then b else c
  }

  /** The step wrote one entry, under the next version, and did nothing else to the baseline and the queues. */
  predicate Recorded(s: State, t: State, path: Path, now: int) {
    && path in t.entries && t.entries == s.entries[path := t.entries[path]]
    && t.entries[path].version == s.nextVersion && t.entries[path].lastSyncedAt == now && t.nextVersion == s.nextVersion + 1
    && t.uploads == s.uploads && t.downloads == s.downloads && t.delayed == s.delayed && t.sweeps == s.sweeps
    && t.candidates == s.candidates
  }

  /** The entry has the remote identity of the stat, if there was one. */
  predicate HasRemote(e: SyncEntry, stat: Option<D.RemoteStat>, localMtimeMs: int) {
    if stat.None? then e.remoteMtimeMs == 0 && e.remoteRevision == "" && e.remoteInode == 0 && e.localMtimeMs == 0
    else
      && e.remoteMtimeMs == stat.value.mtimeMs && e.remoteRevision == stat.value.revision && e.remoteInode == stat.value.inode
      && e.localMtimeMs == localMtimeMs
  }

  /**
   An upload that met a changed remote becomes exactly one download of the whole file, marked as
   a conflict and held against the baseline that the upload was held against.
   */
  lemma ConflictIsDownloadedAgain(s: State, res: UploadResult, look: LocalLook, now: int)
    requires res.conflict && !res.skipped && !res.err && !TooLate(s, res, look)
    ensures var t := HandleUploadResult(s, res, look, now);
            && s.downloads <= t.downloads && t == s.(downloads := t.downloads) && |RemoteEventLaws.Fetched(s, t)| == 1
            && var op := RemoteEventLaws.Fetched(s, t)[0];
               && op.kind == D.DownloadFile && op.path == res.op.path && op.conflict && !op.chunked && op.chunkSize == 0
               && op.storedEntry == res.op.storedEntry && op.hasStored == res.op.hasStored
  {
    hide UploadResultObsolete, ApplyUpload;
    var t := HandleUploadResult(s, res, look, now);
    assert RemoteEventLaws.Fetched(s, t) == [t.downloads[|s.downloads|]];
  }

  /** Errors change nothing; skipped and late results ask for one sweep, and only a skipped rename does more. */
  lemma OtherUploadResults(s: State, res: UploadResult, look: LocalLook, now: int)
    ensures res.skipped && res.op.kind != UploadRename ==>
              HandleUploadResult(s, res, look, now) == s.(sweeps := s.sweeps + 1)
    ensures !res.skipped && TooLate(s, res, look) ==> HandleUploadResult(s, res, look, now) == s.(sweeps := s.sweeps + 1)
    ensures !res.skipped && !TooLate(s, res, look) && res.err ==> HandleUploadResult(s, res, look, now) == s
  {
    hide UploadResultObsolete, ApplyUpload;
  }

  /** A file result is late exactly for a tombstone, a later remote time, or a newer agreed baseline that the local file has. */
  lemma LateExactlyIf(s: State, res: UploadResult, look: LocalLook)
    requires res.op.kind == UploadFile
    ensures TooLate(s, res, look) <==>
            && res.op.path in s.entries
            && var e := s.entries[res.op.path];
               || e.deleted
               || (res.remoteStat.Some? && res.remoteStat.value.mtimeMs < e.remoteMtimeMs)
               || (&& e.version != res.op.storedEntry.version && e.localHash == e.remoteHash != NoHash
                   && e.remoteHash != res.op.localHash
                   && look.FileAt? && look.look.content.Some?
                   && look.look.size == e.size && look.look.perm == e.mode && look.look.mtimeMs == e.localMtimeMs
                   && e.localHash == if e.chunkSize > 0 then CompositeHash(ChunkHashes(look.look.content.value, e.chunkSize))
                                     else Raw(look.look.content.value))
  {
    hide ChunkHashes;
  }

  /** A landed file upload becomes the baseline of both sides. */
  lemma LandedFileIsRecorded(s: State, res: UploadResult, look: LocalLook, now: int)
    requires res.op.kind == UploadFile && Landed(res) && !TooLate(s, res, look)
    ensures var t, op := HandleUploadResult(s, res, look, now), res.op;
            && Recorded(s, t, op.path, now)
            && var e := t.entries[op.path];
               && e.kind == FileKind && !e.deleted && e.mode == op.mode && e.localHash == e.remoteHash == op.localHash
               && e.size == (if op.chunked then op.fileSize else |op.content|)
               && e.chunkSize == op.chunkSize && e.chunkHashes == op.chunkHashes
               && e.localIdentity == FirstKnown(op.localIdentity, InodeSeen(look), op.storedEntry.localIdentity)
               && HasRemote(e, res.remoteStat, op.localMtimeMs)
  {
    hide UploadResultObsolete;
  }

  lemma LandedLinkIsRecorded(s: State, res: UploadResult, look: LocalLook, now: int)
    requires res.op.kind == UploadSymlink && Landed(res)
    ensures var t, op := HandleUploadResult(s, res, look, now), res.op;
            && Recorded(s, t, op.path, now)
            && var e := t.entries[op.path];
               && e.kind == SymlinkKind && !e.deleted && e.target == op.symlink && e.localHash == NoHash && e.chunkSize == 0
               && e.localIdentity == FirstKnown(op.localIdentity, InodeSeen(look), op.storedEntry.localIdentity)
               && HasRemote(e, res.remoteStat, if res.remoteStat.Some? then res.remoteStat.value.mtimeMs else 0)
  {
  }

  lemma LandedDirectoryIsRecorded(s: State, res: UploadResult, look: LocalLook, now: int)
    requires res.op.kind == UploadMkdir && Landed(res)
    ensures var t, op := HandleUploadResult(s, res, look, now), res.op;
            && Recorded(s, t, op.path, now)
            && var e := t.entries[op.path];
               e.kind == DirKind && !e.deleted && e.mode == op.mode && e.chunkSize == 0 && HasRemote(e, None, 0)
  {
  }

  /** A landed change of mode touches nothing else of the entry, and makes none. */
  lemma LandedChmodIsRecorded(s: State, res: UploadResult, look: LocalLook, now: int)
    requires res.op.kind == UploadChmod && Landed(res)
    ensures var t, op := HandleUploadResult(s, res, look, now), res.op;
            if op.path in s.entries then
              && Recorded(s, t, op.path, now)
              && t.entries[op.path] == s.entries[op.path].(mode := op.mode, lastSyncedAt := now, version := s.nextVersion)
            else t == s
  {
  }

  /** A landed delete leaves the tombstone, if there is one, and ends its waiting as a rename source. */
  lemma LandedDeleteKeepsTheTombstone(s: State, res: UploadResult, look: LocalLook, now: int)
    requires res.op.kind == UploadDelete && Landed(res)
    ensures var t, path := HandleUploadResult(s, res, look, now), res.op.path;
            && t == s.(entries := t.entries, candidates := t.candidates)
            && t.candidates == s.candidates - {CandidateKey(res.op.storedEntry)}
            && (if path in s.entries then t.entries == s.entries[path := s.entries[path].(lastSyncedAt := now)]
                else t.entries == s.entries)
  {
    hide CandidateKey;
  }

  /** A landed rename has moved the baseline: nothing is tracked at its source, and its entry is at its destination. */
  lemma LandedRenameMovesTheBaseline(s: State, res: UploadResult, look: LocalLook, now: int)
    requires res.op.kind == UploadRename && Landed(res)
    ensures var t, op := HandleUploadResult(s, res, look, now), res.op;
            && Recorded(s.(entries := s.entries - {op.prevPath}), t, op.path, now)
            && (op.path != op.prevPath ==> op.prevPath !in t.entries)
            && var e := t.entries[op.path];
               && !e.deleted
               && e.localIdentity == FirstKnown(op.localIdentity, InodeSeen(look), op.storedEntry.localIdentity)
               && e.kind == op.storedEntry.kind && e.mode == op.storedEntry.mode && e.size == op.storedEntry.size
               && e.localHash == op.storedEntry.localHash && e.remoteHash == op.storedEntry.remoteHash
               && e.target == op.storedEntry.target
               && e.chunkSize == op.storedEntry.chunkSize && e.chunkHashes == op.storedEntry.chunkHashes
               && (res.remoteStat.Some? ==> HasRemote(e, res.remoteStat, res.remoteStat.value.mtimeMs))
               && (res.remoteStat.None? ==>
                     && e.remoteMtimeMs == op.storedEntry.remoteMtimeMs && e.remoteRevision == op.storedEntry.remoteRevision
                     && e.remoteInode == op.storedEntry.remoteInode && e.localMtimeMs == op.storedEntry.localMtimeMs)
  {
  }

  // ------------------------------------------------------------------
  // Download results
  // ------------------------------------------------------------------

  /** The result is one to record: it succeeded, and the path was not deleted meanwhile. */
  predicate ToRecord(s: State, res: D.DownloadResult) {
    D.Succeeded(res) && !RemoteEventLaws.Buried(s, res.op.path)
  }

  lemma OtherDownloadResults(s: State, res: D.DownloadResult, look: LocalLook, now: int)
    requires !ToRecord(s, res)
    ensures HandleDownloadResult(s, res, look, now) == if res.skipped then s.(sweeps := s.sweeps + 1) else s
  {
    hide ApplyDownload;
  }

  lemma DownloadedFileIsRecorded(s: State, res: D.DownloadResult, look: LocalLook, now: int)
    requires res.op.kind == D.DownloadFile && ToRecord(s, res)
    ensures var t := HandleDownloadResult(s, res, look, now);
            && Recorded(s, t, res.op.path, now)
            && var e := t.entries[res.op.path];
               && e.kind == FileKind && !e.deleted && e.mode == res.mode && e.size == res.size
               && e.localHash == e.remoteHash == res.remoteHash && e.localIdentity == InodeSeen(look)
               && e.localMtimeMs == res.localMtimeMs && e.remoteMtimeMs == res.mtimeMs
               && e.chunkSize == res.op.chunkSize && e.chunkHashes == res.op.chunkHashes
               && (if res.remoteStat.Some? then
                     e.remoteRevision == res.remoteStat.value.revision && e.remoteInode == res.remoteStat.value.inode
                   else e.remoteRevision == "" && e.remoteInode == 0)
  {
  }

  lemma DownloadedLinkIsRecorded(s: State, res: D.DownloadResult, look: LocalLook, now: int)
    requires res.op.kind == D.DownloadSymlink && ToRecord(s, res)
    ensures var t := HandleDownloadResult(s, res, look, now);
            && Recorded(s, t, res.op.path, now)
            && var e := t.entries[res.op.path];
               e.kind == SymlinkKind && !e.deleted && e.target == res.target && e.localIdentity == InodeSeen(look)
  {
  }

  lemma DownloadedDirectoryIsRecorded(s: State, res: D.DownloadResult, look: LocalLook, now: int)
    requires res.op.kind == D.DownloadMkdir && ToRecord(s, res)
    ensures var t := HandleDownloadResult(s, res, look, now);
            && Recorded(s, t, res.op.path, now)
            && t.entries[res.op.path].kind == DirKind && !t.entries[res.op.path].deleted
            && t.entries[res.op.path].mode == res.op.mode
  {
  }

  /** A delete that was carried out buries the entry, a change of mode sets its mode; neither makes one. */
  lemma DownloadedChangeIsRecorded(s: State, res: D.DownloadResult, look: LocalLook, now: int)
    requires (res.op.kind == D.DownloadDelete || res.op.kind == D.DownloadChmod) && ToRecord(s, res)
    ensures var t, path := HandleDownloadResult(s, res, look, now), res.op.path;
            if path in s.entries then
              && Recorded(s, t, path, now)
              && t.entries[path].(lastSyncedAt := 0, version := 0) ==
                 (if res.op.kind == D.DownloadDelete then s.entries[path].(deleted := true) else s.entries[path].(mode := res.mode))
                 .(lastSyncedAt := 0, version := 0)
            else t == s
  {
  }

  // ------------------------------------------------------------------
  // Control writes
  // ------------------------------------------------------------------

  /** A control write is the baseline of both sides at once, and its own event will be taken for an echo. */
  lemma ControlWriteIsRecorded(s: State, path: Path, w: ControlWrite, identity: Identity, now: int)
    ensures var t := HandleControlWrite(s, path, w, identity, now);
            && Recorded(s, t, path, now) && t.echo == s.echo[path := t.echo[path]]
            && var e := t.entries[path];
               && !e.deleted && e.localIdentity == identity && e.chunkSize == 0 && e.remoteRevision == ""
               && match w
                  case ControlFile(mode, content, localMtimeMs, remoteMtimeMs) =>
                    && e.kind == FileKind && e.mode == mode && e.size == |content| && e.localHash == e.remoteHash == Raw(content)
                    && e.localMtimeMs == localMtimeMs && e.remoteMtimeMs == remoteMtimeMs
                    && forall look: FileLook :: look.content == Some(content) ==> IsEcho(t, path, FileAt(look))
                  case ControlLink(target, mtimeMs) =>
                    && e.kind == SymlinkKind && e.target == target && e.localMtimeMs == mtimeMs && e.remoteMtimeMs == mtimeMs
                    && forall id :: IsEcho(t, path, LinkAt(target, id))
  {
  }

  // ------------------------------------------------------------------
  // Where the sync comes to rest
  // ------------------------------------------------------------------

  /** The file at a path as the downloader sees it, of the node that a look at it saw. */
  function NodeAt(look: FileLook, inode: nat): D.Node
    requires look.content.Some?
  {
    D.Node(D.FileInfo(D.Regular, inode, look.perm, look.size, look.mtimeMs), look.content.value, "")
  }

  /**
   An uploaded file comes to rest: once its upload has landed, the same file is not sent again, and
   a download may replace it, as long as it was read in one piece.
   */
  lemma UploadedFileComesToRest(cfg: Config, s: State, res: UploadResult, path: Path, look: FileLook, base: SyncEntry, hasBase: bool,
                                after: LocalLook, now: int)
    requires ValidConfig(cfg) && look.content.Some? && Carries(cfg, res.op, path, look, base, hasBase)
    requires Landed(res) && !TooLate(s, res, after)
    ensures var t := HandleUploadResult(s, res, after, now);
            && AtRest(cfg, t, path, look)
            && (look.size == |look.content.value| && look.perm < PERMISSIONS ==>
                  forall inode :: D.AtBaseline(NodeAt(look, inode), true, t.entries[path]))
  {
    LandedFileIsRecorded(s, res, after, now);
    hide HandleUploadResult, ChunkHashes;
  }

  /**
   A file downloaded whole is at its baseline for the next download. The next local event, however,
   leaves it alone exactly if it is not above the threshold, where its manifest would be compared
   with its plain hash, and its remote mode has no more than the permission bits.
   */
  lemma DownloadedFileComesToRest(cfg: Config, s: State, res: D.DownloadResult, look: FileLook, after: LocalLook, now: int)
    requires ValidConfig(cfg) && res.op.kind == D.DownloadFile && ToRecord(s, res) && res.op.chunkSize == 0
    requires look.content.Some? && look.size == |look.content.value| == res.size && look.perm == Perm(res.mode)
    requires res.remoteHash == Raw(look.content.value)
    ensures var t := HandleDownloadResult(s, res, after, now);
            && res.op.path in t.entries
            && (forall inode :: D.AtBaseline(NodeAt(look, inode), true, t.entries[res.op.path]))
            && (AtRest(cfg, t, res.op.path, look) <==> look.size <= cfg.chunkThreshold && res.mode < PERMISSIONS)
  {
    DownloadedFileIsRecorded(s, res, after, now);
    var content := look.content.value;
    RawIsNotComposite(content, content, cfg.chunkSize);
    hide HandleDownloadResult, ChunkHashes;
  }

  /** One downloaded by chunks of the same size comes to rest exactly above the threshold, its mode being as before. */
  lemma DownloadedDeltaComesToRest(cfg: Config, s: State, res: D.DownloadResult, look: FileLook, after: LocalLook, now: int)
    requires ValidConfig(cfg) && res.op.kind == D.DownloadFile && ToRecord(s, res) && res.op.chunkSize == cfg.chunkSize
    requires look.content.Some? && look.size == |look.content.value| == res.size && look.perm == Perm(res.mode)
    requires res.op.chunkHashes == ChunkHashes(look.content.value, cfg.chunkSize) && look.content.value != []
    requires D.ResultConsistent(res)
    ensures var t := HandleDownloadResult(s, res, after, now);
            && res.op.path in t.entries
            && (forall inode :: D.AtBaseline(NodeAt(look, inode), true, t.entries[res.op.path]))
            && (AtRest(cfg, t, res.op.path, look) <==> look.size > cfg.chunkThreshold && res.mode < PERMISSIONS)
  {
    DownloadedFileIsRecorded(s, res, after, now);
    var content := look.content.value;
    RawIsNotComposite(content, content, cfg.chunkSize);
    hide HandleDownloadResult, ChunkHashes;
  }

  /** A downloaded link is at its baseline, and its own event sends nothing. */
  lemma DownloadedLinkComesToRest(s: State, res: D.DownloadResult, after: LocalLook, now: int, n: D.Node)
    requires res.op.kind == D.DownloadSymlink && ToRecord(s, res)
    requires n.info.kind == D.Symlink && n.target == res.target
    ensures var t := HandleDownloadResult(s, res, after, now);
            && res.op.path in t.entries && D.AtBaseline(n, true, t.entries[res.op.path])
            && t.entries[res.op.path].kind == SymlinkKind && t.entries[res.op.path].target == n.target
  {
    DownloadedLinkIsRecorded(s, res, after, now);
    hide HandleDownloadResult;
  }

  /**
   A downloaded directory is recorded with the remote's mode, but made with a mode of its own. It is
   at its baseline exactly if the two have the same permissions; otherwise no later download that
   is no conflict replaces it.
   */
  lemma DownloadedDirectoryMayNotComeToRest(s: State, res: D.DownloadResult, after: LocalLook, now: int, n: D.Node)
    requires res.op.kind == D.DownloadMkdir && ToRecord(s, res) && n.info.kind == D.Directory
    ensures var t := HandleDownloadResult(s, res, after, now);
            && res.op.path in t.entries
            && (D.AtBaseline(n, true, t.entries[res.op.path]) <==> n.info.perm == Perm(res.op.mode))
  {
    DownloadedDirectoryIsRecorded(s, res, after, now);
    hide HandleDownloadResult;
  }
}
