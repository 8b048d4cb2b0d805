/**
 The reconciler: the single writer of the sync state. Every handler changes its fields in place
 and is proved to do what the function of the same name says about the state.
 */
module Reconciler {
  import opened ByteStrings
  import opened Digests
  import opened SyncTypes
  import opened ChunkDelta
  import opened ReconcilerState
  import D = Downloads

  class Reconciler {
    const cfg: Config

    var entries: map<Path, SyncEntry>
    var nextVersion: nat
    var candidates: map<Key, Candidate>
    var delayed: seq<DelayedDelete>
    var uploads: seq<UploadOp>
    var downloads: seq<D.DownloadOp>
    var echo: map<Path, D.Echo>
    var sweeps: nat
    ghost var writes: map<nat, (Path, SyncEntry)>
    var deletions: seq<Deletion>

    constructor (cfg: Config, entries: map<Path, SyncEntry>, nextVersion: nat)
      requires ValidConfig(cfg)
      ensures this.cfg == cfg && View() == State(entries, nextVersion, map[], [], [], [], map[], 0, map[], [])
    {
      this.cfg, this.entries, this.nextVersion := cfg, entries, nextVersion;
      candidates, delayed, uploads, downloads := map[], [], [], [];
      echo, sweeps, writes, deletions := map[], 0, map[], [];
    }

    ghost function View(): State
      reads this
    {
      State(entries, nextVersion, candidates, delayed, uploads, downloads, echo, sweeps, writes, deletions)
    }

    // --- primitives ------------------------------------------------------

    /** Stores an entry under the next version and reports that version. */
    method StageSyncEntry(path: Path, entry: SyncEntry, now: int) returns (version: nat)
      modifies this
      ensures View() == Write(old(View()), path, entry, now) && version == old(nextVersion)
    {
      version := nextVersion;
      var entryCopy := entry.(lastSyncedAt := now, version := version);
      nextVersion := nextVersion + 1;
      entries := entries[path := entryCopy];
      writes := writes[version := (path, entryCopy)];
    }

    method InstallPendingRename(path: Path, identity: Identity, c: Candidate, now: int) returns (version: nat)
      modifies this
      ensures View() == Write(old(View()), path, PendingRename(c, identity), now) && version == old(nextVersion)
    {
      var entryCopy := c.entry.(deleted := false);
      entryCopy := entryCopy.(localIdentity := DefaultIdentity(identity, entryCopy.localIdentity));
      version := StageSyncEntry(path, entryCopy, now);
    }

    method QueueUpload(op: UploadOp)
      modifies `uploads
      ensures uploads == old(uploads) + [op]
    {
      uploads := uploads + [op];
    }

    method EnqueueDownload(op: D.DownloadOp)
      modifies `downloads
      ensures downloads == old(downloads) + [op]
    {
      downloads := downloads + [op];
    }

    method RequestFullSweep()
      modifies `sweeps
      ensures sweeps == old(sweeps) + 1
    {
      sweeps := sweeps + 1;
    }

    // --- rename candidates -----------------------------------------------

    method RememberRenameCandidate(path: Path, entry: SyncEntry, now: int)
      modifies `candidates, `deletions
      ensures CandidateKey(entry) == NoKey ==> candidates == old(candidates) && deletions == old(deletions)
      ensures CandidateKey(entry) != NoKey ==>
                && candidates == old(candidates)[CandidateKey(entry) := Candidate(path, entry, now, |old(deletions)|)]
                && deletions == old(deletions) + [Deletion(path, entry)]
    {
      var key := CandidateKey(entry);
      if key == NoKey {
        return;
      }
      candidates := candidates[key := Candidate(path, entry, now, |deletions|)];
      deletions := deletions + [Deletion(path, entry)];
    }

    method TakeRenameCandidate(key: Key, now: int) returns (c: Option<Candidate>)
      modifies `candidates
      ensures Taken(candidates, c) == TakeCandidate(old(candidates), key, now)
    {
      if key == NoKey || key !in candidates {
        return None;
      }
      var candidate := candidates[key];
      candidates := candidates - {key};
      if now - candidate.recordedAt > CANDIDATE_LIFETIME_MS {
        return None;
      }
      return Some(candidate);
    }

    /** Scans all candidates, in the order the map yields them, for the only one that fits. */
    method TakeFallbackRenameCandidate(rel: Path, wantKind: Kind, order: seq<Key>, now: int) returns (c: Option<Candidate>)
      requires forall i, j :: 0 <= i < j < |order| ==> order[i] != order[j]
      modifies `candidates
      ensures Taken(candidates, c) == ScanFallback(old(candidates), order, rel, wantKind, now, None)
    {
      var chosen: Option<Key> := None;
      ghost var whole := ScanFallback(candidates, order, rel, wantKind, now, None);
      assert order[0..] == order;
      for i := 0 to |order|
        invariant chosen.Some? ==> chosen.value in candidates && chosen.value in order[..i]
        invariant whole == ScanFallback(candidates, order[i..], rel, wantKind, now, chosen)
      {
        var key := order[i];
        assert order[i..][0] == key && order[i..][1..] == order[i + 1..];
        assert order[..i + 1] == order[..i] + [key];
        assert chosen != Some(key);
        if key !in candidates {
          continue;
        }
        var candidate := candidates[key];
        if now - candidate.recordedAt > CANDIDATE_LIFETIME_MS {
          candidates := candidates - {key};
          continue;
        }
        if candidate.entry.kind != wantKind {
          continue;
        }
        if candidate.path == rel || DirOf(candidate.path) != DirOf(rel) {
          continue;
        }
        if chosen.Some? {
          return None;
        }
        chosen := Some(key);
      }
      assert order[|order|..] == [];
      if chosen.None? {
        return None;
      }
      var matched := candidates[chosen.value];
      candidates := candidates - {chosen.value};
      return Some(matched);
    }

    method TakeRenameCandidateFor(rel: Path, key: Key, wantKind: Kind, hasStored: bool, order: seq<Key>, now: int)
      returns (c: Option<Candidate>)
      requires forall i, j :: 0 <= i < j < |order| ==> order[i] != order[j]
      modifies `candidates
      ensures Taken(candidates, c) == TakeFor(old(candidates), order, key, rel, wantKind, hasStored, now)
    {
      hide ScanFallback;
      c := TakeRenameCandidate(key, now);
      if c.Some? || hasStored {
        return;
      }
      c := TakeFallbackRenameCandidate(rel, wantKind, order, now);
    }

    predicate RenameCandidateStillPending(key: Key, path: Path)
      reads this
    {
      key in candidates && candidates[key].path == path
    }

    method ForgetRenameCandidate(entry: SyncEntry)
      modifies `candidates
      ensures candidates == old(candidates) - {CandidateKey(entry)}
    {
      candidates := candidates - {CandidateKey(entry)};
    }

    // --- local events ----------------------------------------------------

    /** Hashes a local file, by chunks above the threshold. */
    method ReadFacts(look: FileLook) returns (f: Option<Facts>)
      requires ValidConfig(cfg)
      ensures f == FactsOf(cfg, look)
    {
      if look.content.None? {
        return None;
      }
      if look.size > cfg.chunkThreshold {
        var hashes, actualSize := StreamChunkHashes(look.content.value, cfg.chunkSize);
        return Some(Facts(CompositeHash(hashes), actualSize, true, cfg.chunkSize, hashes, []));
      }
      return Some(Facts(Raw(look.content.value), look.size, false, 0, [], look.content.value));
    }

    method QueueFileUpload(path: Path, f: Facts, look: FileLook, stored: SyncEntry, hasStored: bool)
      modifies `uploads
      ensures uploads == old(uploads) + [FileUpload(path, f, look, stored, hasStored)]
    {
      var dirty, _ := DiffChunkManifests(if f.chunked then stored.chunkHashes else [], f.chunkHashes);
      QueueUpload(NO_OP.(kind := UploadFile, path := path, content := f.content, mode := look.perm, localHash := f.hash,
                         localIdentity := look.identity, localMtimeMs := look.mtimeMs, storedEntry := stored,
                         hasStored := hasStored, chunked := f.chunked, fileSize := if f.chunked then f.size else 0,
                         chunkSize := f.chunkSize, chunkHashes := f.chunkHashes, dirtyChunks := dirty));
    }

    method RenameLocalFile(path: Path, c: Candidate, f: Facts, look: FileLook, now: int)
      modifies this
      ensures View() == RenameFile(old(View()), path, c, f, look, now)
    {
      hide FileUpload, FileEntry, PendingRename, RenameUpload;
      var renameVersion := InstallPendingRename(path, look.identity, c, now);
      var changed := f.hash != c.entry.localHash || look.perm != c.entry.mode;
      if changed {
        renameVersion := StageSyncEntry(path, FileEntry(f, look, c.entry), now);
      }
      QueueUpload(RenameUpload(path, c, renameVersion, look.perm, "", look.identity, look.mtimeMs));
      if changed {
        QueueFileUpload(path, f, look, c.entry, true);
      }
    }

    method OnLocalFile(path: Path, look: FileLook, order: seq<Key>, now: int)
      requires ValidConfig(cfg) && forall i, j :: 0 <= i < j < |order| ==> order[i] != order[j]
      modifies this
      ensures View() == HandleLocalFile(cfg, old(View()), path, look, order, now)
    {
      hide FactsOf, TakeFor, RenameFile, FileUpload, KeyForLocalFile;
      if look.size > cfg.maxFileBytes {
        return;
      }
      var hasStored := path in entries;
      var stored := if hasStored then entries[path] else EMPTY_ENTRY;
      var facts := ReadFacts(look);
      if facts.None? {
        return;
      }
      var f := facts.value;
      var key := KeyForLocalFile(look.identity, f.hash, f.size);
      var candidate := TakeRenameCandidateFor(path, key, FileKind, hasStored, order, now);
      if candidate.Some? {
        RenameLocalFile(path, candidate.value, f, look, now);
        return;
      }
      if hasStored && stored.localHash == f.hash && stored.kind == FileKind && stored.mode == look.perm {
        return;
      }
      QueueFileUpload(path, f, look, stored, hasStored);
    }

    method OnLocalSymlink(path: Path, target: string, identity: Identity, order: seq<Key>, now: int)
      requires forall i, j :: 0 <= i < j < |order| ==> order[i] != order[j]
      modifies this
      ensures View() == HandleLocalSymlink(old(View()), path, target, identity, order, now)
    {
      hide TakeFor, KeyForLocalSymlink, PendingRename, RenameUpload;
      var hasStored := path in entries;
      var stored := if hasStored then entries[path] else EMPTY_ENTRY;
      var key := KeyForLocalSymlink(identity, target);
      var candidate := TakeRenameCandidateFor(path, key, SymlinkKind, hasStored, order, now);
      if candidate.Some? {
        var renameVersion := InstallPendingRename(path, identity, candidate.value, now);
        QueueUpload(RenameUpload(path, candidate.value, renameVersion, 0, target, identity, 0));
        return;
      }
      if hasStored && stored.kind == SymlinkKind && stored.target == target {
        return;
      }
      QueueUpload(NO_OP.(kind := UploadSymlink, path := path, symlink := target, localIdentity := identity,
                         storedEntry := stored, hasStored := hasStored));
    }

    method OnLocalDelete(path: Path, now: int)
      modifies this
      ensures View() == HandleLocalDelete(old(View()), path, now)
    {
      hide CandidateKey;
      if path !in entries {
        return;
      }
      var prior := entries[path];
      var _ := StageSyncEntry(path, prior.(deleted := true), now);
      var candidateKey := CandidateKey(prior);
      if candidateKey == NoKey {
        QueueUpload(DeleteUpload(path, prior));
        return;
      }
      RememberRenameCandidate(path, prior, now);
      delayed := delayed + [DelayedDelete(DeleteUpload(path, prior), candidateKey, path)];
    }

    method DeleteMissing(missing: seq<Path>, now: int)
      modifies this
      ensures View() == DeleteAll(old(View()), missing, now)
    {
      hide HandleLocalDelete;
      for i := 0 to |missing|
        invariant View() == DeleteAll(old(View()), missing[..i], now)
      {
        OnLocalDelete(missing[i], now);
        assert missing[..i + 1][..i] == missing[..i];
      }
      assert missing[..|missing|] == missing;
    }

    /** Collects the tracked paths below a directory that are gone. */
    method FindMissingFiles(path: Path, scan: Scan) returns (missing: seq<Path>)
      ensures missing == MissingFiles(entries, path, scan)
    {
      missing := [];
      for i := 0 to |scan.order|
        invariant missing == MissingFiles(entries, path, scan.(order := scan.order[..i]))
      {
        var p := scan.order[i];
        assert scan.order[..i + 1][..i] == scan.order[..i];
        if p !in entries || entries[p].deleted || entries[p].kind == DirKind {
          continue;
        }
        if !Under(path, p) {
          continue;
        }
        if p in scan.gone {
          missing := missing + [p];
        }
      }
      assert scan.order[..|scan.order|] == scan.order;
    }

    method OnLocalDir(path: Path, perm: nat, scan: Scan, now: int)
      modifies this
      ensures View() == HandleLocalDir(old(View()), path, perm, scan, now)
    {
      hide DeleteAll, MissingFiles;
      var hasStored := path in entries;
      var stored := if hasStored then entries[path] else EMPTY_ENTRY;
      var missing := FindMissingFiles(path, scan);
      DeleteMissing(missing, now);
      if hasStored && stored.kind == DirKind {
        return;
      }
      QueueUpload(NO_OP.(kind := UploadMkdir, path := path, mode := perm, storedEntry := stored, hasStored := hasStored));
    }

    method SweepMissingLocalSymlinks(scan: Scan, now: int)
      modifies this
      ensures View() == DeleteAll(old(View()), MissingLinks(old(entries), scan), now)
    {
      hide DeleteAll;
      var missing := [];
      for i := 0 to |scan.order|
        invariant View() == old(View())
        invariant missing == MissingLinks(entries, scan.(order := scan.order[..i]))
      {
        assert scan.order[..i + 1][..i] == scan.order[..i];
        if MissingLink(entries, scan.gone, scan.order[i]) {
          missing := missing + [scan.order[i]];
        }
      }
      assert scan.order[..|scan.order|] == scan.order;
      DeleteMissing(missing, now);
    }

    method ConsumeExpectation(path: Path) returns (e: D.Echo)
      modifies `echo
      ensures echo == old(echo) - {path} && e == if path in old(echo) then old(echo)[path] else D.NoEcho
    {
      e := if path in echo then echo[path] else D.NoEcho;
      echo := echo - {path};
    }

    method OnLocalEvent(path: Path, look: LocalLook, order: seq<Key>, now: int)
      requires ValidConfig(cfg) && Enumerates(order, candidates)
      modifies this
      ensures View() == HandleLocalEvent(cfg, old(View()), path, look, order, now)
    {
      hide HandleLocalFile, HandleLocalSymlink, HandleLocalDir, HandleLocalDelete;
      var expected := ConsumeExpectation(path);
      if look.Gone? {
        if expected.EchoDelete? {
          return;
        }
        OnLocalDelete(path, now);
        return;
      }
      if EchoMatches(look, expected) {
        return;
      }
      match look
      case FileAt(file) => OnLocalFile(path, file, order, now);
      case LinkAt(target, identity) => OnLocalSymlink(path, target, identity, order, now);
      case DirAt(perm, scan) => OnLocalDir(path, perm, scan, now);
      case _ =>
    }

    method OnDeleteTimer(i: nat)
      requires i < |delayed|
      modifies this
      ensures View() == FireDelayedDelete(old(View()), i)
    {
      var d := delayed[i];
      delayed := delayed[..i] + delayed[i + 1..];
      if RenameCandidateStillPending(d.key, d.path) {
        QueueUpload(d.op);
      }
    }

    // --- remote events ---------------------------------------------------

    method OnRemoteEvent(path: Path, look: LocalLook, r: RemoteLook, now: int)
      modifies this
      ensures View() == HandleRemoteEvent(old(View()), path, look, r, now)
    {
      hide DetectConflict, DownloadFor, Write;
      var hasStored := path in entries;
      var stored := if hasStored then entries[path] else EMPTY_ENTRY;
      if hasStored && stored.deleted {
        return;
      }
      if r.stat.Failed? {
        return;
      }
      var stat := r.stat.value;
      if stat.None? {
        if !hasStored {
          return;
        }
        if r.again.Answer? && r.again.value.Some? {
          stat := r.again.value;
        } else {
          var _ := StageSyncEntry(path, stored.(deleted := true), now);
          EnqueueDownload(NO_DOWNLOAD.(kind := D.DownloadDelete, path := path, storedEntry := stored, hasStored := true));
          return;
        }
      }
      OnRemoteChange(path, stat.value, stored, hasStored, DetectConflict(hasStored, stored, look), r);
    }

    method OnRemoteChange(path: Path, stat: D.RemoteStat, stored: SyncEntry, hasStored: bool, conflict: bool, r: RemoteLook)
      modifies `downloads
      ensures var op := DownloadFor(path, stat, stored, hasStored, conflict, r);
              downloads == if op.Some? then old(downloads) + [op.value] else old(downloads)
    {
      var base := NO_DOWNLOAD.(path := path, storedEntry := stored, hasStored := hasStored);
      match stat.kind
      case DirKind => EnqueueDownload(base.(kind := D.DownloadMkdir, mode := stat.mode));
      case SymlinkKind =>
        if r.readlink.Failed? {
          return;
        }
        EnqueueDownload(base.(kind := D.DownloadSymlink, symlink := r.readlink.value, conflict := conflict));
      case FileKind =>
        if r.chunkMeta.Answer? && r.chunkMeta.value.0 > 0 && |r.chunkMeta.value.1| > 0 {
          var dirty, _ := DiffChunkManifests(stored.chunkHashes, r.chunkMeta.value.1);
          EnqueueDownload(base.(mode := stat.mode, conflict := conflict, chunked := true, fileSize := stat.size,
                                chunkSize := r.chunkMeta.value.0, chunkHashes := r.chunkMeta.value.1, dirtyChunks := dirty));
        } else {
          EnqueueDownload(base.(mode := stat.mode, conflict := conflict));
        }
      case _ =>
    }

    // --- results ---------------------------------------------------------

    method OnUploadResult(res: UploadResult, look: LocalLook, now: int)
      modifies this
      ensures View() == HandleUploadResult(old(View()), res, look, now)
    {
      hide ApplyUpload, UploadResultObsolete, Write;
      if res.skipped {
        if res.op.kind == UploadRename {
          if res.op.path in entries && !entries[res.op.path].deleted && res.op.renameVersion != 0 &&
             entries[res.op.path].version == res.op.renameVersion {
            entries := entries - {res.op.path};
          }
        }
        RequestFullSweep();
        return;
      }
      if res.op.kind == UploadFile {
        var obsolete := IsObsolete(res, look);
        if obsolete {
          RequestFullSweep();
          return;
        }
      }
      if res.err {
        return;
      }
      if res.conflict {
        EnqueueDownload(NO_DOWNLOAD.(path := res.op.path, storedEntry := res.op.storedEntry,
                                     hasStored := res.op.hasStored, conflict := true));
        return;
      }
      RecordUpload(res, look, now);
    }

    method IsObsolete(res: UploadResult, look: LocalLook) returns (b: bool)
      ensures b == UploadResultObsolete(View(), res, look)
    {
      if res.op.path !in entries {
        return false;
      }
      var entry := entries[res.op.path];
      if entry.deleted {
        return true;
      }
      if res.remoteStat.Some? && entry.remoteMtimeMs > res.remoteStat.value.mtimeMs {
        return true;
      }
      if entry.version == res.op.storedEntry.version || entry.remoteHash == NoHash ||
         entry.remoteHash == res.op.localHash || entry.localHash != entry.remoteHash {
        return false;
      }
      if !look.FileAt? || look.look.size != entry.size || look.look.mtimeMs != entry.localMtimeMs ||
         look.look.perm != entry.mode || look.look.content.None? {
        return false;
      }
      if entry.chunkSize > 0 {
        var hashes, _ := StreamChunkHashes(look.look.content.value, entry.chunkSize);
        return CompositeHash(hashes) == entry.localHash;
      }
      return Raw(look.look.content.value) == entry.localHash;
    }

    method RecordUpload(res: UploadResult, look: LocalLook, now: int)
      modifies this
      ensures View() == ApplyUpload(old(View()), res, look, now)
    {
      hide UploadedFile, UploadedSymlink, RenamedEntry, CandidateKey;
      var op := res.op;
      var identity := DefaultIdentity(op.localIdentity, IdentityAt(look));
      match op.kind
      case UploadFile => var _ := StageSyncEntry(op.path, UploadedFile(op, res.remoteStat, identity), now);
      case UploadSymlink => var _ := StageSyncEntry(op.path, UploadedSymlink(op, res.remoteStat, identity), now);
      case UploadMkdir => var _ := StageSyncEntry(op.path, EMPTY_ENTRY.(kind := DirKind, mode := op.mode), now);
      case UploadDelete =>
        ForgetRenameCandidate(op.storedEntry);
        if op.path in entries {
          entries := entries[op.path := entries[op.path].(lastSyncedAt := now)];
        }
      case UploadRename =>
        entries := entries - {op.prevPath};
        var _ := StageSyncEntry(op.path, RenamedEntry(op, res.remoteStat, identity), now);
      case UploadChmod =>
        if op.path in entries {
          var _ := StageSyncEntry(op.path, entries[op.path].(mode := op.mode), now);
        }
    }

    method OnDownloadResult(res: D.DownloadResult, look: LocalLook, now: int)
      modifies this
      ensures View() == HandleDownloadResult(old(View()), res, look, now)
    {
      hide ApplyDownload;
      if res.skipped {
        RequestFullSweep();
        return;
      }
      if res.err {
        return;
      }
      if res.op.path in entries && entries[res.op.path].deleted {
        return;
      }
      RecordDownload(res, look, now);
    }

    method RecordDownload(res: D.DownloadResult, look: LocalLook, now: int)
      modifies this
      ensures View() == ApplyDownload(old(View()), res, look, now)
    {
      hide DownloadedFile;
      var path := res.op.path;
      match res.op.kind
      case DownloadFile => var _ := StageSyncEntry(path, DownloadedFile(res, IdentityAt(look)), now);
      case DownloadSymlink =>
        var _ := StageSyncEntry(path, EMPTY_ENTRY.(kind := SymlinkKind, target := res.target, localIdentity := IdentityAt(look)), now);
      case DownloadMkdir => var _ := StageSyncEntry(path, EMPTY_ENTRY.(kind := DirKind, mode := res.op.mode), now);
      case DownloadDelete =>
        if path in entries {
          var _ := StageSyncEntry(path, entries[path].(deleted := true), now);
        }
      case DownloadChmod =>
        if path in entries {
          var _ := StageSyncEntry(path, entries[path].(mode := res.mode), now);
        }
    }

    /** An exclusive create or an undelete has put a file or link on both sides. */
    method OnControlWrite(path: Path, w: ControlWrite, identity: Identity, now: int)
      modifies this
      ensures View() == HandleControlWrite(old(View()), path, w, identity, now)
    {
      match w
      case ControlFile(mode, content, localMtimeMs, remoteMtimeMs) =>
        var hash := Raw(content);
        echo := echo[path := D.EchoFile(hash)];
        var _ := StageSyncEntry(path, EMPTY_ENTRY.(kind := FileKind, mode := mode, size := |content|, localHash := hash,
                                                   localIdentity := identity, remoteHash := hash, localMtimeMs := localMtimeMs,
                                                   remoteMtimeMs := remoteMtimeMs), now);
      case ControlLink(target, mtimeMs) =>
        echo := echo[path := D.EchoSymlink(target)];
        var _ := StageSyncEntry(path, EMPTY_ENTRY.(kind := SymlinkKind, target := target, localIdentity := identity,
                                                   localMtimeMs := mtimeMs, remoteMtimeMs := mtimeMs), now);
    }
  }
}
