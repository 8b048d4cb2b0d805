/**
 Laws of tombstones and of remote events: the download side never touches a tombstone, and
 exactly which steps can bring a deleted path back; when a remote change becomes a delta.
 */
module TombstoneLaws {
  import opened ByteStrings
  import opened Digests
  import opened SyncTypes
  import opened ChunkDelta
  import opened ReconcilerState
  import RenameLaws
  import D = Downloads

  predicate Tombstoned(s: State, p: Path) {
    p in s.entries && s.entries[p].deleted
  }

  predicate DownloadSide(e: Event) {
    e.RemoteEvent? || e.Downloaded?
  }

  lemma RemoteEventKeepsTombstones(s: State, path: Path, look: LocalLook, r: RemoteLook, now: int, p: Path)
    requires Tombstoned(s, p)
    ensures var t := HandleRemoteEvent(s, path, look, r, now); p in t.entries && t.entries[p] == s.entries[p]
  {
    hide DownloadFor, DetectConflict;
  }

  lemma DownloadResultKeepsTombstones(s: State, res: D.DownloadResult, look: LocalLook, now: int, p: Path)
    requires Tombstoned(s, p)
    ensures var t := HandleDownloadResult(s, res, look, now); p in t.entries && t.entries[p] == s.entries[p]
  {
    hide DownloadedFile;
  }

  /** Remote events and download results leave a tombstone exactly as it is. */
  lemma DownloadSideKeepsTombstones(cfg: Config, s: State, e: Event, now: int, p: Path)
    requires ValidConfig(cfg) && DownloadSide(e) && Tombstoned(s, p)
    ensures p in Step(cfg, s, e, now).entries && Step(cfg, s, e, now).entries[p] == s.entries[p]
  {
    hide HandleRemoteEvent, HandleDownloadResult;
    match e
    case RemoteEvent(path, look, remote) => RemoteEventKeepsTombstones(s, path, look, remote, now, p);
    case Downloaded(res, look) => DownloadResultKeepsTombstones(s, res, look, now, p);
  }

  lemma {:induction false} DownloadSideNeverResurrects(cfg: Config, states: seq<State>, events: seq<(Event, int)>, p: Path)
    requires Run(cfg, states, events) && Tombstoned(states[0], p)
    requires forall i :: 0 <= i < |events| ==> DownloadSide(events[i].0)
    ensures forall i :: 0 <= i < |states| ==> p in states[i].entries && states[i].entries[p] == states[0].entries[p]
  {
    hide Step, Enabled;
    for n := 0 to |events|
      invariant forall i :: 0 <= i <= n ==> p in states[i].entries && states[i].entries[p] == states[0].entries[p]
    {
      DownloadSideKeepsTombstones(cfg, states[n], events[n].0, events[n].1, p);
    }
  }

  // ------------------------------------------------------------------
  // How a deleted path can come back
  // ------------------------------------------------------------------

  /** A local file or link at `p` turned out to be the other half of a rename. */
  ghost predicate RenamedOnto(s: State, t: State, e: Event, p: Path) {
    && e.LocalEvent? && e.path == p && (e.look.FileAt? || e.look.LinkAt?)
    && exists i :: |s.uploads| <= i < |t.uploads| && t.uploads[i].kind == UploadRename && t.uploads[i].path == p
  }

  /** A link, directory or rename upload to `p` landed. A landed file upload is not among them. */
  predicate UploadLanded(e: Event, p: Path) {
    && e.Uploaded? && e.upload.op.path == p && !e.upload.skipped && !e.upload.err && !e.upload.conflict
    && (e.upload.op.kind == UploadSymlink || e.upload.op.kind == UploadMkdir || e.upload.op.kind == UploadRename)
  }

  /** A landed rename forgets the tombstone at its source. */
  predicate RenamedAway(e: Event, p: Path) {
    && e.Uploaded? && e.upload.op.kind == UploadRename && e.upload.op.prevPath == p && e.upload.op.path != p
    && !e.upload.skipped && !e.upload.err && !e.upload.conflict
  }

  lemma DeleteKeepsTombstones(s: State, path: Path, now: int, p: Path)
    requires Tombstoned(s, p)
    ensures Tombstoned(HandleLocalDelete(s, path, now), p)
  {
    hide CandidateKey;
  }

  lemma {:induction false} DeleteAllKeepsTombstones(s: State, paths: seq<Path>, now: int, p: Path)
    requires Tombstoned(s, p)
    ensures Tombstoned(DeleteAll(s, paths, now), p)
    decreases |paths|
  {
    hide HandleLocalDelete;
    if paths != [] {
      var n := |paths| - 1;
      DeleteAllKeepsTombstones(s, paths[..n], now, p);
      DeleteKeepsTombstones(DeleteAll(s, paths[..n], now), paths[n], now, p);
    }
  }

  lemma FileEvent(cfg: Config, s: State, path: Path, look: FileLook, order: seq<Key>, now: int, p: Path)
    requires ValidConfig(cfg) && Tombstoned(s, p)
    ensures var t := HandleLocalFile(cfg, s, path, look, order, now);
            && p in t.entries && |s.uploads| <= |t.uploads|
            && (t.entries[p].deleted ||
                (path == p && exists i :: |s.uploads| <= i < |t.uploads| && t.uploads[i].kind == UploadRename && t.uploads[i].path == p))
  {
    var facts := FactsOf(cfg, look);
    if look.size <= cfg.maxFileBytes && facts.Some? {
      var f := facts.value;
      var taken := TakeFor(s.candidates, order, KeyForLocalFile(look.identity, f.hash, f.size), path, FileKind, path in s.entries, now);
      if taken.candidate.Some? {
        RenameLaws.RenameFileQueues(s.(candidates := taken.candidates), path, taken.candidate.value, f, look, now);
      }
      hide TakeFor, FactsOf, FileUpload, RenameFile, KeyForLocalFile;
    }
  }

  lemma LinkEvent(s: State, path: Path, target: string, identity: Identity, order: seq<Key>, now: int, p: Path)
    requires Tombstoned(s, p)
    ensures var t := HandleLocalSymlink(s, path, target, identity, order, now);
            && p in t.entries && |s.uploads| <= |t.uploads|
            && (t.entries[p].deleted ||
                (path == p && exists i :: |s.uploads| <= i < |t.uploads| && t.uploads[i].kind == UploadRename && t.uploads[i].path == p))
  {
    var t := HandleLocalSymlink(s, path, target, identity, order, now);
    hide TakeFor, KeyForLocalSymlink, PendingRename;
    if !t.entries[p].deleted {
      assert t.uploads[|s.uploads|].kind == UploadRename;
    }
  }

  lemma LocalEventOnTombstone(cfg: Config, s: State, e: Event, now: int, p: Path)
    requires ValidConfig(cfg) && e.LocalEvent? && Tombstoned(s, p)
    ensures var t := Step(cfg, s, e, now); p in t.entries && (t.entries[p].deleted || RenamedOnto(s, t, e, p))
  {
    var u := ConsumeEcho(s, e.path);
    hide HandleLocalFile, HandleLocalSymlink, HandleLocalDelete, DeleteAll;
    match e.look
    case Gone => DeleteKeepsTombstones(u, e.path, now, p);
    case FileAt(file) => FileEvent(cfg, u, e.path, file, e.order, now, p);
    case LinkAt(target, identity) => LinkEvent(u, e.path, target, identity, e.order, now, p);
    case DirAt(perm, scan) => DeleteAllKeepsTombstones(u, MissingFiles(u.entries, e.path, scan), now, p);
    case OtherAt =>
  }

  lemma UploadResultOnTombstone(s: State, e: Event, now: int, p: Path)
    requires e.Uploaded? && Tombstoned(s, p)
    ensures var t := HandleUploadResult(s, e.upload, e.look, now);
            if p in t.entries then t.entries[p].deleted || UploadLanded(e, p) else RenamedAway(e, p)
  {
    assert e.upload.op.kind == UploadFile && e.upload.op.path == p ==> UploadResultObsolete(s, e.upload, e.look);
    hide UploadedFile, UploadedSymlink, RenamedEntry, CandidateKey, UploadResultObsolete;
  }

  /**
   In one step a tombstoned path comes back only by a local rename onto it, a landed link,
   directory or rename upload, or a control write; it is forgotten only by a landed rename
   away from it. A landed file upload never brings it back.
   */
  lemma OnlyLocalIntentResurrects(cfg: Config, s: State, e: Event, now: int, p: Path)
    requires ValidConfig(cfg) && Enabled(s, e) && Tombstoned(s, p)
    ensures var t := Step(cfg, s, e, now);
            if p in t.entries then
              t.entries[p].deleted || RenamedOnto(s, t, e, p) || UploadLanded(e, p) || (e.Control? && e.path == p)
            else RenamedAway(e, p)
  {
    if DownloadSide(e) {
      DownloadSideKeepsTombstones(cfg, s, e, now, p);
    } else if e.LocalEvent? {
      LocalEventOnTombstone(cfg, s, e, now, p);
    } else if e.SweepSymlinks? {
      DeleteAllKeepsTombstones(s, MissingLinks(s.entries, e.scan), now, p);
    } else if e.Uploaded? {
      UploadResultOnTombstone(s, e, now, p);
    }
    hide HandleLocalEvent, DeleteAll, HandleRemoteEvent, HandleUploadResult, HandleDownloadResult;
  }

  // ------------------------------------------------------------------
  // Remote events and deltas
  // ------------------------------------------------------------------

  /** The operation a remote file change with chunk metadata becomes. */
  ghost predicate QueuesDelta(s: State, path: Path, look: LocalLook, r: RemoteLook, now: int, op: D.DownloadOp) {
    HandleRemoteEvent(s, path, look, r, now).downloads == s.downloads + [op] && op.chunked
  }

  /** A queued delta asks for exactly the chunks in which the remote manifest differs from the stored one. */
  lemma QueuedDeltaIsDelta(s: State, path: Path, look: LocalLook, r: RemoteLook, now: int, op: D.DownloadOp, remote: Bytes)
    requires QueuesDelta(s, path, look, r, now, op)
    requires path in s.entries ==> ChunkConsistent(s.entries[path])
    requires r.chunkMeta.Answer? && r.chunkMeta.value.0 > 0
    requires r.chunkMeta.value.1 == ChunkHashes(remote, r.chunkMeta.value.0)
    ensures D.DeltaFor(op, remote) && op.kind == D.DownloadFile && op.storedEntry == StoredAt(s, path)
  {
    var t := HandleRemoteEvent(s, path, look, r, now);
    assert t.downloads[|s.downloads|] == op;
    hide DetectConflict, ChunkHashes;
  }

  /**
   Conflict detection hashes the local file as a whole, while a chunked baseline keeps the hash
   of its manifest. So with a chunked baseline and a readable local file every delta is queued
   as a conflict, which the downloader turns into a full copy, unless both are empty.
   */
  lemma ChunkedBaselineAlwaysConflicts(s: State, path: Path, look: LocalLook, r: RemoteLook, now: int, op: D.DownloadOp)
    requires QueuesDelta(s, path, look, r, now, op) && path in s.entries
    requires s.entries[path].chunkSize > 0 && ChunkConsistent(s.entries[path])
    requires look.FileAt? && look.look.content.Some?
    ensures op.conflict <==> look.look.content.value != [] || s.entries[path].chunkHashes != []
  {
    var t := HandleRemoteEvent(s, path, look, r, now);
    assert t.downloads[|s.downloads|] == op;
    hide DirtyChunks;
  }

  /** For the same reason the echo of a chunked download is never recognised. */
  lemma ChunkedEchoIsNeverRecognised(look: LocalLook, manifest: seq<Digest>)
    ensures EchoMatches(look, D.EchoFile(CompositeHash(manifest))) <==>
            manifest == [] && look.FileAt? && look.look.content == Some([])
  {
    if manifest == [] {
      assert CompositeHash(manifest) == Raw([]);
    }
  }
}
