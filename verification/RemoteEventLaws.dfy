/**
 What a remote event fetches: which download each remote change becomes, when it is marked as a
 conflict, and when a path counts as deleted.
 */
module RemoteEventLaws {
  import opened ByteStrings
  import opened Digests
  import opened SyncTypes
  import opened ChunkDelta
  import opened ReconcilerState
  import D = Downloads

  predicate Finds(a: D.Reply<Option<D.RemoteStat>>) {
    a.Answer? && a.value.Some?
  }

  predicate FindsNothing(a: D.Reply<Option<D.RemoteStat>>) {
    a.Answer? && a.value.None?
  }

  predicate Live(s: State, path: Path) {
    path in s.entries && !s.entries[path].deleted
  }

  predicate Buried(s: State, path: Path) {
    path in s.entries && s.entries[path].deleted
  }

  /** What a step queues for the downloader. */
  function Fetched(s: State, t: State): seq<D.DownloadOp> {
    if s.downloads <= t.downloads then t.downloads[|s.downloads|..] else []
  }

  /** The operation is for `path`, against what is stored there. */
  predicate Against(op: D.DownloadOp, s: State, path: Path) {
    op.path == path && op.storedEntry == StoredAt(s, path) && op.hasStored == (path in s.entries)
  }

  // ------------------------------------------------------------------
  // Absent paths
  // ------------------------------------------------------------------

  /** A live path that the first stat does not find, nor the one after the cache was flushed. */
  predicate CountsAsDeleted(s: State, path: Path, r: RemoteLook) {
    Live(s, path) && FindsNothing(r.stat) && !Finds(r.again)
  }

  /** A tombstone, a failing stat, and an untracked path that is not there: nothing happens. */
  lemma OtherEventsDoNothing(s: State, path: Path, look: LocalLook, r: RemoteLook, now: int)
    requires Buried(s, path) || r.stat.Failed? || (FindsNothing(r.stat) && path !in s.entries)
    ensures HandleRemoteEvent(s, path, look, r, now) == s
  {
  }

  // ------------------------------------------------------------------
  // Paths that are there
  // ------------------------------------------------------------------

  /** The stat that the event goes by. */
  predicate FoundAs(s: State, path: Path, r: RemoteLook, stat: D.RemoteStat) {
    || r.stat == D.Answer(Some(stat))
    || (FindsNothing(r.stat) && path in s.entries && r.again == D.Answer(Some(stat)))
  }

  /** The local file or link is not what the baseline holds, as far as its plain hash or its target tell. */
  predicate LocallyChanged(s: State, path: Path, look: LocalLook) {
    path in s.entries &&
    match look
    case FileAt(file) =>
      file.content.Some? && s.entries[path].localHash != NoHash && s.entries[path].localHash != Raw(file.content.value)
    case LinkAt(target, _) => s.entries[path].kind == SymlinkKind && s.entries[path].target != target
    case _ => false
  }

  predicate HasManifest(r: RemoteLook) {
    r.chunkMeta.Answer? && r.chunkMeta.value.0 > 0 && r.chunkMeta.value.1 != []
  }

  /** The operation brings what the remote shows: a directory, a link with its target, or a file, whole or by chunks. */
  ghost predicate Brings(op: D.DownloadOp, stat: D.RemoteStat, r: RemoteLook, stored: SyncEntry, conflict: bool) {
    match stat.kind
    case DirKind => op.kind == D.DownloadMkdir && op.mode == stat.mode && !op.chunked && !op.conflict
    case SymlinkKind =>
      && op.kind == D.DownloadSymlink && r.readlink == D.Answer(op.symlink) && !op.chunked && op.conflict == conflict
    case FileKind =>
      && op.kind == D.DownloadFile && op.mode == stat.mode && op.conflict == conflict
      && (op.chunked <==> HasManifest(r))
      && (op.chunked ==>
            && op.fileSize == stat.size && op.chunkSize == r.chunkMeta.value.0 && op.chunkHashes == r.chunkMeta.value.1
            && forall i: nat :: i in op.dirtyChunks <==> Differs(stored.chunkHashes, op.chunkHashes, i))
      && (!op.chunked ==> op.chunkSize == 0 && op.chunkHashes == [] && op.dirtyChunks == [])
    case _ => false
  }

  /** There is something to bring: a directory, a file, or a link whose target could be read. */
  predicate Bringable(stat: D.RemoteStat, r: RemoteLook) {
    stat.kind == DirKind || stat.kind == FileKind || (stat.kind == SymlinkKind && r.readlink.Answer?)
  }

  lemma DownloadBrings(path: Path, stat: D.RemoteStat, stored: SyncEntry, hasStored: bool, conflict: bool, r: RemoteLook)
    ensures var op := DownloadFor(path, stat, stored, hasStored, conflict, r);
            && (op.Some? <==> Bringable(stat, r))
            && (op.Some? ==> && op.value.path == path && op.value.storedEntry == stored && op.value.hasStored == hasStored
                             && Brings(op.value, stat, r, stored, conflict))
  {
    hide DirtyChunks;
  }

  lemma ConflictMeansChanged(s: State, path: Path, look: LocalLook)
    ensures DetectConflict(path in s.entries, StoredAt(s, path), look) <==> LocallyChanged(s, path, look)
  {
  }

  /**
   A path that the remote has becomes exactly one download of what is there, if that can be
   brought, and nothing else changes. A file or link is marked as a conflict exactly if the local
   one has left the baseline.
   */
  lemma FoundPathIsDownloaded(s: State, path: Path, look: LocalLook, r: RemoteLook, now: int, stat: D.RemoteStat)
    requires !Buried(s, path) && FoundAs(s, path, r, stat)
    ensures var t := HandleRemoteEvent(s, path, look, r, now);
            && s.downloads <= t.downloads && t == s.(downloads := t.downloads)
            && |Fetched(s, t)| == (if Bringable(stat, r) then 1 else 0)
            && (Bringable(stat, r) ==>
                  && Against(Fetched(s, t)[0], s, path)
                  && Brings(Fetched(s, t)[0], stat, r, StoredAt(s, path), LocallyChanged(s, path, look)))
  {
    var conflict := DetectConflict(path in s.entries, StoredAt(s, path), look);
    ConflictMeansChanged(s, path, look);
    DownloadBrings(path, stat, StoredAt(s, path), path in s.entries, conflict, r);
    hide DetectConflict, LocallyChanged, DownloadFor, Brings, Bringable, Write;
    var t, op := HandleRemoteEvent(s, path, look, r, now), DownloadFor(path, stat, StoredAt(s, path), path in s.entries, conflict, r);
    if op.Some? {
      assert t.downloads == s.downloads + [op.value];
      assert Fetched(s, t) == [op.value];
    }
  }

  lemma DeletedPathIsBuried(s: State, path: Path, look: LocalLook, r: RemoteLook, now: int)
    requires CountsAsDeleted(s, path, r)
    ensures var t := HandleRemoteEvent(s, path, look, r, now);
            && t.entries == s.entries[path := s.entries[path].(deleted := true, lastSyncedAt := now, version := s.nextVersion)]
            && s.downloads <= t.downloads && |Fetched(s, t)| == 1
            && Fetched(s, t)[0].kind == D.DownloadDelete && Against(Fetched(s, t)[0], s, path)
            && t.uploads == s.uploads && t.sweeps == s.sweeps
  {
    hide DetectConflict, DownloadFor;
    var t := HandleRemoteEvent(s, path, look, r, now);
    assert Fetched(s, t) == [t.downloads[|s.downloads|]];
  }

  /**
   A remote event deletes locally, and leaves a tombstone, exactly if the path counts as deleted. That
   asks less than two stats that find nothing: a second stat that fails counts as well.
   */
  lemma AbsentPathIsDeleted(s: State, path: Path, look: LocalLook, r: RemoteLook, now: int)
    ensures var t := HandleRemoteEvent(s, path, look, r, now);
            && |Fetched(s, t)| <= 1
            && (CountsAsDeleted(s, path, r) <==> Fetched(s, t) != [] && Fetched(s, t)[0].kind == D.DownloadDelete)
            && (CountsAsDeleted(s, path, r) <==> t.entries != s.entries)
            && (CountsAsDeleted(s, path, r) ==>
                  && t.entries == s.entries[path := s.entries[path].(deleted := true, lastSyncedAt := now, version := s.nextVersion)]
                  && Against(Fetched(s, t)[0], s, path) && t.uploads == s.uploads && t.sweeps == s.sweeps)
  {
    hide HandleRemoteEvent, Against, Brings, LocallyChanged;
    var t := HandleRemoteEvent(s, path, look, r, now);
    if CountsAsDeleted(s, path, r) {
      DeletedPathIsBuried(s, path, look, r, now);
      assert t.entries[path].deleted != s.entries[path].deleted;
    } else if Buried(s, path) || r.stat.Failed? || (FindsNothing(r.stat) && path !in s.entries) {
      OtherEventsDoNothing(s, path, look, r, now);
    } else {
      var stat := if Finds(r.stat) then r.stat.value.value else r.again.value.value;
      FoundPathIsDownloaded(s, path, look, r, now, stat);
      BroughtIsNoDelete(s, t, stat, r, StoredAt(s, path), LocallyChanged(s, path, look));
    }
  }

  lemma BroughtIsNoDelete(s: State, t: State, stat: D.RemoteStat, r: RemoteLook, stored: SyncEntry, conflict: bool)
    ensures Fetched(s, t) != [] && Brings(Fetched(s, t)[0], stat, r, stored, conflict) ==>
              Fetched(s, t)[0].kind != D.DownloadDelete
  {
  }
}
