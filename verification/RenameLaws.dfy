/**
 Laws of renames over every run: a remembered deletion backs at most one rename upload, the
 rename's source is that deletion and has the destination's type, and a rename that did not
 land takes back exactly the entry that it staged.
 */
module RenameLaws {
  import opened ByteStrings
  import opened Digests
  import opened SyncTypes
  import opened ReconcilerState
  import opened ReconcilerLaws
  import D = Downloads

  // ------------------------------------------------------------------
  // Candidates are used linearly
  // ------------------------------------------------------------------

  ghost predicate Backed(op: UploadOp, c: map<Key, Candidate>, deletions: seq<Deletion>) {
    && op.candidateId < |deletions| && deletions[op.candidateId] == Deletion(op.prevPath, op.storedEntry)
    && forall k :: k in c ==> c[k].id != op.candidateId
  }

  /** Candidates sit under their own key, each for its own deletion, and rename uploads used up theirs. */
  ghost predicate Linear(c: map<Key, Candidate>, deletions: seq<Deletion>, uploads: seq<UploadOp>) {
    && (forall k :: k in c ==> k != NoKey && CandidateKey(c[k].entry) == k)
    && (forall k :: k in c ==> c[k].id < |deletions| && deletions[c[k].id] == Deletion(c[k].path, c[k].entry))
    && (forall k, q :: k in c && q in c && k != q ==> c[k].id != c[q].id)
    && (forall i :: 0 <= i < |uploads| && uploads[i].kind == UploadRename ==> Backed(uploads[i], c, deletions))
    && (forall i, j :: 0 <= i < j < |uploads| && uploads[i].kind == UploadRename && uploads[j].kind == UploadRename ==>
                         uploads[i].candidateId != uploads[j].candidateId)
  }

  ghost predicate LinearState(s: State) {
    Linear(s.candidates, s.deletions, s.uploads)
  }

  lemma FewerCandidatesAreLinear(c: map<Key, Candidate>, fewer: map<Key, Candidate>, deletions: seq<Deletion>, uploads: seq<UploadOp>)
    requires Linear(c, deletions, uploads) && SubMap(fewer, c)
    ensures Linear(fewer, deletions, uploads)
  {
    hide CandidateKey;
  }

  lemma OtherUploadIsLinear(c: map<Key, Candidate>, deletions: seq<Deletion>, uploads: seq<UploadOp>, op: UploadOp)
    requires Linear(c, deletions, uploads) && op.kind != UploadRename
    ensures Linear(c, deletions, uploads + [op])
  {
    hide CandidateKey;
  }

  lemma RenameUsesUpItsCandidate(c: map<Key, Candidate>, t: Taken, k: Key, deletions: seq<Deletion>, uploads: seq<UploadOp>, op: UploadOp)
    requires Linear(c, deletions, uploads) && SubMap(t.candidates, c) && k in c && k !in t.candidates
    requires op.kind == UploadRename && op.candidateId == c[k].id && op.prevPath == c[k].path && op.storedEntry == c[k].entry
    ensures Linear(t.candidates, deletions, uploads + [op])
  {
    hide CandidateKey;
    var more := uploads + [op];
    forall i | 0 <= i < |more| && more[i].kind == UploadRename
      ensures Backed(more[i], t.candidates, deletions)
      ensures i < |uploads| ==> more[i].candidateId != op.candidateId
    {
      if i < |uploads| {
        assert Backed(uploads[i], c, deletions);
      }
    }
  }

  lemma RememberedDeletionIsLinear(s: State, path: Path, prior: SyncEntry, now: int)
    requires LinearState(s) && CandidateKey(prior) != NoKey
    ensures LinearState(Remember(s, path, prior, CandidateKey(prior), now))
  {
    var key := CandidateKey(prior);
    var t := Remember(s, path, prior, key, now);
    hide CandidateKey;
    forall i | 0 <= i < |t.uploads| && t.uploads[i].kind == UploadRename
      ensures Backed(t.uploads[i], t.candidates, t.deletions)
    {
      assert Backed(s.uploads[i], s.candidates, s.deletions);
    }
  }

  lemma DeleteIsLinear(s: State, path: Path, now: int)
    requires LinearState(s)
    ensures LinearState(HandleLocalDelete(s, path, now))
  {
    if path in s.entries {
      var prior := s.entries[path];
      var t := Write(s, path, prior.(deleted := true), now);
      OtherUploadIsLinear(s.candidates, s.deletions, s.uploads, DeleteUpload(path, prior));
      if CandidateKey(prior) != NoKey {
        RememberedDeletionIsLinear(t, path, prior, now);
      }
    }
    hide CandidateKey, Linear;
  }

  lemma {:induction false} DeleteAllIsLinear(s: State, paths: seq<Path>, now: int)
    requires LinearState(s)
    ensures LinearState(DeleteAll(s, paths, now))
    decreases |paths|
  {
    hide LinearState, HandleLocalDelete;
    if paths != [] {
      var n := |paths| - 1;
      DeleteAllIsLinear(s, paths[..n], now);
      DeleteIsLinear(DeleteAll(s, paths[..n], now), paths[n], now);
    }
  }

  lemma FileIsLinear(cfg: Config, s: State, path: Path, look: FileLook, order: seq<Key>, now: int)
    requires ValidConfig(cfg) && LinearState(s)
    ensures LinearState(HandleLocalFile(cfg, s, path, look, order, now))
  {
    var facts := FactsOf(cfg, look);
    if look.size <= cfg.maxFileBytes && facts.Some? {
      var f := facts.value;
      var key := KeyForLocalFile(look.identity, f.hash, f.size);
      var hasStored := path in s.entries;
      var k := TakeForFrom(s.candidates, order, key, path, FileKind, hasStored, now);
      var taken := TakeFor(s.candidates, order, key, path, FileKind, hasStored, now);
      FewerCandidatesAreLinear(s.candidates, taken.candidates, s.deletions, s.uploads);
      var t := s.(candidates := taken.candidates);
      hide FactsOf, TakeFor, KeyForLocalFile, Linear, SubMap, FileUpload;
      if taken.candidate.Some? {
        RenameFileIsLinear(s, t, k, taken, path, f, look, now);
      } else {
        FileUploadKind(path, f, look, StoredAt(s, path), hasStored);
        OtherUploadIsLinear(t.candidates, t.deletions, t.uploads, FileUpload(path, f, look, StoredAt(s, path), hasStored));
      }
    }
  }

  lemma FileUploadKind(path: Path, f: Facts, look: FileLook, stored: SyncEntry, hasStored: bool)
    ensures FileUpload(path, f, look, stored, hasStored).kind == UploadFile
  {
  }

  lemma RenameFileIsLinear(s: State, t: State, k: Key, taken: Taken, path: Path, f: Facts, look: FileLook, now: int)
    requires LinearState(s) && t == s.(candidates := taken.candidates)
    requires SubMap(taken.candidates, s.candidates) && TakenFrom(taken, s.candidates, k, now) && taken.candidate.Some?
    ensures LinearState(RenameFile(t, path, taken.candidate.value, f, look, now))
  {
    var c := taken.candidate.value;
    var installed := Write(t, path, PendingRename(c, look.identity), now);
    var early := RenameUpload(path, c, t.nextVersion, look.perm, "", look.identity, look.mtimeMs);
    var late := RenameUpload(path, c, installed.nextVersion, look.perm, "", look.identity, look.mtimeMs);
    RenameUsesUpItsCandidate(s.candidates, taken, k, s.deletions, s.uploads, early);
    RenameUsesUpItsCandidate(s.candidates, taken, k, s.deletions, s.uploads, late);
    FileUploadKind(path, f, look, c.entry, true);
    hide Linear, SubMap, FileUpload, FileEntry, PendingRename;
    OtherUploadIsLinear(t.candidates, t.deletions, s.uploads + [late], FileUpload(path, f, look, c.entry, true));
  }

  lemma SymlinkIsLinear(s: State, path: Path, target: string, identity: Identity, order: seq<Key>, now: int)
    requires LinearState(s)
    ensures LinearState(HandleLocalSymlink(s, path, target, identity, order, now))
  {
    var key := KeyForLocalSymlink(identity, target);
    var hasStored := path in s.entries;
    var k := TakeForFrom(s.candidates, order, key, path, SymlinkKind, hasStored, now);
    var taken := TakeFor(s.candidates, order, key, path, SymlinkKind, hasStored, now);
    FewerCandidatesAreLinear(s.candidates, taken.candidates, s.deletions, s.uploads);
    var t := s.(candidates := taken.candidates);
    if taken.candidate.Some? {
      var c := taken.candidate.value;
      RenameUsesUpItsCandidate(s.candidates, taken, k, s.deletions, s.uploads,
                               RenameUpload(path, c, t.nextVersion, 0, target, identity, 0));
    }
    hide Linear, SubMap, TakeFor, KeyForLocalSymlink;
    OtherUploadIsLinear(t.candidates, t.deletions, t.uploads,
                        NO_OP.(kind := UploadSymlink, path := path, symlink := target, localIdentity := identity,
                               storedEntry := StoredAt(s, path), hasStored := hasStored));
  }

  lemma LocalEventIsLinear(cfg: Config, s: State, path: Path, look: LocalLook, order: seq<Key>, now: int)
    requires ValidConfig(cfg) && LinearState(s)
    ensures LinearState(HandleLocalEvent(cfg, s, path, look, order, now))
  {
    hide Linear, HandleLocalFile, HandleLocalSymlink, HandleLocalDelete, DeleteAll;
    var t := ConsumeEcho(s, path);
    match look
    case Gone => DeleteIsLinear(t, path, now);
    case FileAt(file) => FileIsLinear(cfg, t, path, file, order, now);
    case LinkAt(target, identity) => SymlinkIsLinear(t, path, target, identity, order, now);
    case DirAt(perm, scan) =>
      var missing := MissingFiles(t.entries, path, scan);
      DeleteAllIsLinear(t, missing, now);
      var u := DeleteAll(t, missing, now);
      OtherUploadIsLinear(u.candidates, u.deletions, u.uploads,
                          NO_OP.(kind := UploadMkdir, path := path, mode := perm, storedEntry := StoredAt(t, path),
                                 hasStored := path in t.entries));
    case OtherAt =>
  }

  lemma ApplyUploadFrame(s: State, res: UploadResult, look: LocalLook, now: int)
    ensures var t := ApplyUpload(s, res, look, now);
            && t.candidates == (if res.op.kind == UploadDelete then s.candidates - {CandidateKey(res.op.storedEntry)} else s.candidates)
            && t.deletions == s.deletions && t.uploads == s.uploads && t.delayed == s.delayed
  {
    hide UploadedFile, UploadedSymlink, RenamedEntry, CandidateKey;
  }

  lemma UploadResultFrame(s: State, res: UploadResult, look: LocalLook, now: int)
    ensures var t := HandleUploadResult(s, res, look, now);
            SubMap(t.candidates, s.candidates) && t.deletions == s.deletions && t.uploads == s.uploads && t.delayed == s.delayed
  {
    ApplyUploadFrame(s, res, look, now);
    hide ApplyUpload, UploadResultObsolete, CandidateKey;
  }

  lemma UploadResultIsLinear(s: State, res: UploadResult, look: LocalLook, now: int)
    requires LinearState(s)
    ensures LinearState(HandleUploadResult(s, res, look, now))
  {
    var t := HandleUploadResult(s, res, look, now);
    UploadResultFrame(s, res, look, now);
    FewerCandidatesAreLinear(s.candidates, t.candidates, s.deletions, s.uploads);
    hide HandleUploadResult, Linear;
  }

  /** Delayed deletes are delete uploads. */
  ghost predicate DelayedAreDeletes(s: State) {
    forall i :: 0 <= i < |s.delayed| ==> s.delayed[i].op.kind == UploadDelete
  }

  lemma TimerIsLinear(s: State, i: nat)
    requires LinearState(s) && DelayedAreDeletes(s) && i < |s.delayed|
    ensures LinearState(FireDelayedDelete(s, i))
  {
    OtherUploadIsLinear(s.candidates, s.deletions, s.uploads, s.delayed[i].op);
    hide Linear;
  }

  ghost predicate SameRenameState(s: State, t: State) {
    t.candidates == s.candidates && t.deletions == s.deletions && t.uploads == s.uploads && t.delayed == s.delayed
  }

  lemma RemoteEventFrame(s: State, path: Path, look: LocalLook, r: RemoteLook, now: int)
    ensures SameRenameState(s, HandleRemoteEvent(s, path, look, r, now))
  {
    hide DownloadFor, DetectConflict;
  }

  lemma DownloadResultFrame(s: State, res: D.DownloadResult, look: LocalLook, now: int)
    ensures SameRenameState(s, HandleDownloadResult(s, res, look, now))
  {
    hide DownloadedFile;
  }

  /** Remote events, download results, echo marks and control writes leave candidates and uploads alone. */
  lemma DownloadSideFrame(cfg: Config, s: State, e: Event, now: int)
    requires ValidConfig(cfg) && (e.RemoteEvent? || e.Downloaded? || e.Marked? || e.Control?)
    ensures SameRenameState(s, Step(cfg, s, e, now))
  {
    hide HandleRemoteEvent, HandleDownloadResult;
    match e
    case RemoteEvent(path, look, remote) => RemoteEventFrame(s, path, look, remote, now);
    case Downloaded(res, look) => DownloadResultFrame(s, res, look, now);
    case _ =>
  }

  lemma StepIsLinear(cfg: Config, s: State, e: Event, now: int)
    requires ValidConfig(cfg) && LinearState(s) && DelayedAreDeletes(s) && Enabled(s, e)
    ensures LinearState(Step(cfg, s, e, now))
  {
    if e.RemoteEvent? || e.Downloaded? || e.Marked? || e.Control? {
      DownloadSideFrame(cfg, s, e, now);
    }
    hide Linear, HandleLocalEvent, DeleteAll, FireDelayedDelete, HandleRemoteEvent, HandleUploadResult, HandleDownloadResult, HandleControlWrite;
    match e
    case LocalEvent(path, look, order) => LocalEventIsLinear(cfg, s, path, look, order, now);
    case SweepSymlinks(scan) => DeleteAllIsLinear(s, MissingLinks(s.entries, scan), now);
    case DeleteTimer(i) => TimerIsLinear(s, i);
    case Uploaded(res, look) => UploadResultIsLinear(s, res, look, now);
    case _ =>
  }

  // ------------------------------------------------------------------
  // Versions
  // ------------------------------------------------------------------

  /** Equal but for the time of the last sync, which a finished delete upload may refresh. */
  predicate SameButSynced(a: SyncEntry, b: SyncEntry) {
    a.(lastSyncedAt := 0) == b.(lastSyncedAt := 0)
  }

  /** Version 0 is also what entries of a cold start carry. */
  predicate Recent(v: nat, base: nat) {
    v >= base && v >= 1
  }

  /** A version handed out since `base` names one write: its path, and the entry written. */
  ghost predicate EntriesVersioned(entries: map<Path, SyncEntry>, next: nat, writes: map<nat, (Path, SyncEntry)>, base: nat) {
    && base <= next
    && (forall v :: v in writes ==> base <= v < next)
    && (forall p :: p in entries ==> entries[p].version == 0 || entries[p].version < next)
    && (forall p :: p in entries && Recent(entries[p].version, base) ==>
          && entries[p].version in writes && writes[entries[p].version].0 == p
          && SameButSynced(writes[entries[p].version].1, entries[p]))
  }

  /** The entry is the rename's own source, moved: its baseline made live under the new identity. */
  predicate MovedSource(op: UploadOp, e: SyncEntry) {
    e == op.storedEntry.(deleted := false, localIdentity := DefaultIdentity(op.localIdentity, op.storedEntry.localIdentity),
                         lastSyncedAt := e.lastSyncedAt, version := op.renameVersion)
  }

  /** The entry is the changed content found at the rename's destination, over its source's remote side. */
  predicate ChangedContent(op: UploadOp, e: SyncEntry) {
    && e == EMPTY_ENTRY.(kind := FileKind, mode := op.mode, size := e.size, localHash := e.localHash,
                         localIdentity := op.localIdentity, remoteHash := op.storedEntry.remoteHash,
                         localMtimeMs := op.localMtimeMs, remoteMtimeMs := op.storedEntry.remoteMtimeMs,
                         lastSyncedAt := e.lastSyncedAt, chunkSize := e.chunkSize, chunkHashes := e.chunkHashes,
                         version := op.renameVersion)
    && (e.localHash != op.storedEntry.localHash || e.mode != op.storedEntry.mode)
  }

  predicate StagedFor(op: UploadOp, e: SyncEntry) {
    MovedSource(op, e) || ChangedContent(op, e)
  }

  /** A rename upload carries the version of the entry that was written for it at its destination. */
  ghost predicate Staged(op: UploadOp, writes: map<nat, (Path, SyncEntry)>, base: nat) {
    && Recent(op.renameVersion, base) && op.renameVersion in writes
    && writes[op.renameVersion].0 == op.path && StagedFor(op, writes[op.renameVersion].1)
  }

  /** No rename upload carries this version. */
  ghost predicate Unused(uploads: seq<UploadOp>, version: nat) {
    forall i :: 0 <= i < |uploads| && uploads[i].kind == UploadRename ==> uploads[i].renameVersion != version
  }

  ghost predicate RenamesStaged(uploads: seq<UploadOp>, writes: map<nat, (Path, SyncEntry)>, base: nat) {
    && (forall i :: 0 <= i < |uploads| && uploads[i].kind == UploadRename ==> Staged(uploads[i], writes, base))
    && (forall i, j :: 0 <= i < j < |uploads| && uploads[i].kind == UploadRename && uploads[j].kind == UploadRename ==>
                         uploads[i].renameVersion != uploads[j].renameVersion)
  }

  ghost predicate Versioned(s: State, base: nat) {
    && EntriesVersioned(s.entries, s.nextVersion, s.writes, base)
    && RenamesStaged(s.uploads, s.writes, base)
    && (s.deletions != [] ==> s.nextVersion >= 1)
    && DelayedAreDeletes(s)
  }

  /** What every reachable state satisfies; `base` is the version counter the run started from. */
  ghost predicate RenameInvariant(s: State, base: nat) {
    LinearState(s) && Versioned(s, base)
  }

  lemma WriteIsVersioned(s: State, path: Path, e: SyncEntry, now: int, base: nat)
    requires Versioned(s, base)
    ensures Versioned(Write(s, path, e, now), base)
    ensures Write(s, path, e, now).nextVersion >= 1
    ensures s.nextVersion in Write(s, path, e, now).writes && Write(s, path, e, now).writes[s.nextVersion].0 == path
    ensures Write(s, path, e, now).writes[s.nextVersion].1 == e.(lastSyncedAt := now, version := s.nextVersion)
  {
    hide StagedFor;
    var t := Write(s, path, e, now);
    forall i | 0 <= i < |t.uploads| && t.uploads[i].kind == UploadRename
      ensures Staged(t.uploads[i], t.writes, base)
    {
      assert Staged(s.uploads[i], s.writes, base);
    }
  }

  /** Versions not handed out yet are on no upload. */
  lemma NewVersionIsUnused(s: State, base: nat)
    requires Versioned(s, base)
    ensures Unused(s.uploads, s.nextVersion) && Unused(s.uploads, s.nextVersion + 1)
  {
    hide StagedFor;
    forall i | 0 <= i < |s.uploads| && s.uploads[i].kind == UploadRename
      ensures s.uploads[i].renameVersion < s.nextVersion
    {
      assert Staged(s.uploads[i], s.writes, base);
    }
  }

  lemma QueueIsVersioned(s: State, op: UploadOp, base: nat)
    requires Versioned(s, base)
    requires op.kind == UploadRename ==> Staged(op, s.writes, base) && Unused(s.uploads, op.renameVersion)
    ensures Versioned(Queue(s, op), base)
  {
    hide EntriesVersioned, Staged;
  }

  lemma FewerEntriesAreVersioned(s: State, fewer: map<Path, SyncEntry>, base: nat)
    requires Versioned(s, base) && forall p :: p in fewer ==> p in s.entries && fewer[p] == s.entries[p]
    ensures Versioned(s.(entries := fewer), base)
  {
    hide RenamesStaged;
  }

  lemma OtherFieldsAreVersioned(s: State, base: nat)
    ensures Versioned(s, base) ==>
              && (forall c :: Versioned(s.(candidates := c), base)) && Versioned(Sweep(s), base)
              && (forall d :: Versioned(QueueDownload(s, d), base)) && (forall e :: Versioned(s.(echo := e), base))
  {
    hide EntriesVersioned, RenamesStaged;
  }

  lemma DeleteIsVersioned(s: State, path: Path, now: int, base: nat)
    requires Versioned(s, base)
    ensures Versioned(HandleLocalDelete(s, path, now), base)
  {
    if path in s.entries {
      var prior := s.entries[path];
      WriteIsVersioned(s, path, prior.(deleted := true), now, base);
      QueueIsVersioned(Write(s, path, prior.(deleted := true), now), DeleteUpload(path, prior), base);
    }
    hide CandidateKey, EntriesVersioned, RenamesStaged, Write;
  }

  lemma {:induction false} DeleteAllIsVersioned(s: State, paths: seq<Path>, now: int, base: nat)
    requires Versioned(s, base)
    ensures Versioned(DeleteAll(s, paths, now), base)
    decreases |paths|
  {
    hide Versioned, HandleLocalDelete;
    if paths != [] {
      var n := |paths| - 1;
      DeleteAllIsVersioned(s, paths[..n], now, base);
      DeleteIsVersioned(DeleteAll(s, paths[..n], now), paths[n], now, base);
    }
  }

  /** The provisional entry of a rename is live and gets a version that the rollback can recognise. */
  lemma PendingRenameIsStaged(s: State, path: Path, c: Candidate, identity: Identity, now: int, base: nat, op: UploadOp)
    requires Versioned(s, base) && s.nextVersion >= 1
    requires op.path == path && op.renameVersion == s.nextVersion
    requires op.storedEntry == c.entry && op.localIdentity == identity
    ensures Staged(op, Write(s, path, PendingRename(c, identity), now).writes, base)
  {
    WriteIsVersioned(s, path, PendingRename(c, identity), now, base);
  }

  lemma RenameFileIsVersioned(s: State, path: Path, c: Candidate, f: Facts, look: FileLook, now: int, base: nat)
    requires Versioned(s, base) && s.nextVersion >= 1
    ensures Versioned(RenameFile(s, path, c, f, look, now), base)
  {
    var installed := Write(s, path, PendingRename(c, look.identity), now);
    var staged := Write(installed, path, FileEntry(f, look, c.entry), now);
    var early := RenameUpload(path, c, s.nextVersion, look.perm, "", look.identity, look.mtimeMs);
    var late := RenameUpload(path, c, installed.nextVersion, look.perm, "", look.identity, look.mtimeMs);
    var upload := FileUpload(path, f, look, c.entry, true);
    WriteIsVersioned(s, path, PendingRename(c, look.identity), now, base);
    PendingRenameIsStaged(s, path, c, look.identity, now, base, early);
    WriteIsVersioned(installed, path, FileEntry(f, look, c.entry), now, base);
    NewVersionIsUnused(s, base);
    FileUploadKind(path, f, look, c.entry, true);
    if f.hash != c.entry.localHash || look.perm != c.entry.mode {
      ChangedContentIsStaged(late, f, look, c.entry, now);
      assert Staged(late, staged.writes, base);
    }
    hide Versioned, Staged, Write, FileUpload, FileEntry, PendingRename, RenameUpload, Unused;
    if f.hash != c.entry.localHash || look.perm != c.entry.mode {
      QueueIsVersioned(staged, late, base);
    } else {
      QueueIsVersioned(installed, early, base);
    }
    if f.hash != c.entry.localHash || look.perm != c.entry.mode {
      QueueIsVersioned(Queue(staged, late), upload, base);
    }
  }

  lemma ChangedContentIsStaged(op: UploadOp, f: Facts, look: FileLook, from: SyncEntry, now: int)
    requires op.storedEntry == from && op.mode == look.perm && op.localIdentity == look.identity
    requires op.localMtimeMs == look.mtimeMs && (f.hash != from.localHash || look.perm != from.mode)
    ensures StagedFor(op, FileEntry(f, look, from).(lastSyncedAt := now, version := op.renameVersion))
  {
  }

  lemma FileIsVersioned(cfg: Config, s: State, path: Path, look: FileLook, order: seq<Key>, now: int, base: nat)
    requires ValidConfig(cfg) && RenameInvariant(s, base)
    ensures Versioned(HandleLocalFile(cfg, s, path, look, order, now), base)
  {
    var facts := FactsOf(cfg, look);
    if look.size <= cfg.maxFileBytes && facts.Some? {
      var f := facts.value;
      var key := KeyForLocalFile(look.identity, f.hash, f.size);
      var hasStored := path in s.entries;
      var k := TakeForFrom(s.candidates, order, key, path, FileKind, hasStored, now);
      var taken := TakeFor(s.candidates, order, key, path, FileKind, hasStored, now);
      assert taken.candidate.Some? ==> s.candidates[k].id < |s.deletions|;
      hide FactsOf, TakeFor, KeyForLocalFile, SubMap, FileUpload, LinearState, EntriesVersioned, RenamesStaged, RenameFile;
      OtherFieldsAreVersioned(s, base);
      var t := s.(candidates := taken.candidates);
      if taken.candidate.Some? {
        RenameFileIsVersioned(t, path, taken.candidate.value, f, look, now, base);
      } else {
        FileUploadKind(path, f, look, StoredAt(s, path), hasStored);
        QueueIsVersioned(t, FileUpload(path, f, look, StoredAt(s, path), hasStored), base);
      }
    }
  }

  lemma SymlinkIsVersioned(s: State, path: Path, target: string, identity: Identity, order: seq<Key>, now: int, base: nat)
    requires RenameInvariant(s, base)
    ensures Versioned(HandleLocalSymlink(s, path, target, identity, order, now), base)
  {
    var key := KeyForLocalSymlink(identity, target);
    var hasStored := path in s.entries;
    var k := TakeForFrom(s.candidates, order, key, path, SymlinkKind, hasStored, now);
    var taken := TakeFor(s.candidates, order, key, path, SymlinkKind, hasStored, now);
    assert taken.candidate.Some? ==> s.candidates[k].id < |s.deletions|;
    hide TakeFor, KeyForLocalSymlink, SubMap, LinearState, EntriesVersioned, RenamesStaged;
    OtherFieldsAreVersioned(s, base);
    var t := s.(candidates := taken.candidates);
    if taken.candidate.Some? {
      var c := taken.candidate.value;
      var op := RenameUpload(path, c, t.nextVersion, 0, target, identity, 0);
      WriteIsVersioned(t, path, PendingRename(c, identity), now, base);
      PendingRenameIsStaged(t, path, c, identity, now, base, op);
      NewVersionIsUnused(t, base);
      hide Write, Staged, PendingRename;
      QueueIsVersioned(Write(t, path, PendingRename(c, identity), now), op, base);
    } else {
      QueueIsVersioned(t, NO_OP.(kind := UploadSymlink, path := path, symlink := target, localIdentity := identity,
                                 storedEntry := StoredAt(s, path), hasStored := hasStored), base);
    }
  }

  lemma LocalEventIsVersioned(cfg: Config, s: State, path: Path, look: LocalLook, order: seq<Key>, now: int, base: nat)
    requires ValidConfig(cfg) && RenameInvariant(s, base)
    ensures Versioned(HandleLocalEvent(cfg, s, path, look, order, now), base)
  {
    OtherFieldsAreVersioned(s, base);
    var t := ConsumeEcho(s, path);
    assert RenameInvariant(t, base);
    hide Versioned, LinearState, HandleLocalFile, HandleLocalSymlink, HandleLocalDelete, DeleteAll;
    match look
    case Gone => DeleteIsVersioned(t, path, now, base);
    case FileAt(file) => FileIsVersioned(cfg, t, path, file, order, now, base);
    case LinkAt(target, identity) => SymlinkIsVersioned(t, path, target, identity, order, now, base);
    case DirAt(perm, scan) =>
      var missing := MissingFiles(t.entries, path, scan);
      DeleteAllIsVersioned(t, missing, now, base);
      QueueIsVersioned(DeleteAll(t, missing, now),
                       NO_OP.(kind := UploadMkdir, path := path, mode := perm, storedEntry := StoredAt(t, path),
                              hasStored := path in t.entries), base);
    case OtherAt =>
  }

  lemma TouchIsVersioned(s: State, path: Path, now: int, base: nat)
    requires Versioned(s, base)
    ensures Versioned(TouchEntry(s, path, now), base)
  {
    hide RenamesStaged;
  }

  lemma ApplyUploadIsVersioned(s: State, res: UploadResult, look: LocalLook, now: int, base: nat)
    requires Versioned(s, base)
    ensures Versioned(ApplyUpload(s, res, look, now), base)
  {
    var op := res.op;
    var identity := DefaultIdentity(op.localIdentity, IdentityAt(look));
    OtherFieldsAreVersioned(s, base);
    hide Write, UploadedFile, UploadedSymlink, RenamedEntry, CandidateKey, TouchEntry, Versioned;
    match op.kind
    case UploadFile => WriteIsVersioned(s, op.path, UploadedFile(op, res.remoteStat, identity), now, base);
    case UploadSymlink => WriteIsVersioned(s, op.path, UploadedSymlink(op, res.remoteStat, identity), now, base);
    case UploadMkdir => WriteIsVersioned(s, op.path, EMPTY_ENTRY.(kind := DirKind, mode := op.mode), now, base);
    case UploadDelete => TouchIsVersioned(ForgetCandidate(s, op.storedEntry), op.path, now, base);
    case UploadRename =>
      FewerEntriesAreVersioned(s, s.entries - {op.prevPath}, base);
      WriteIsVersioned(s.(entries := s.entries - {op.prevPath}), op.path, RenamedEntry(op, res.remoteStat, identity), now, base);
    case UploadChmod =>
      if op.path in s.entries {
        WriteIsVersioned(s, op.path, s.entries[op.path].(mode := op.mode), now, base);
      }
  }

  lemma UploadResultIsVersioned(s: State, res: UploadResult, look: LocalLook, now: int, base: nat)
    requires Versioned(s, base)
    ensures Versioned(HandleUploadResult(s, res, look, now), base)
  {
    hide ApplyUpload, UploadResultObsolete, Versioned;
    FewerEntriesAreVersioned(s, s.entries - {res.op.path}, base);
    OtherFieldsAreVersioned(s, base);
    OtherFieldsAreVersioned(RollBackRename(s, res.op), base);
    ApplyUploadIsVersioned(s, res, look, now, base);
  }

  lemma DownloadResultIsVersioned(s: State, res: D.DownloadResult, look: LocalLook, now: int, base: nat)
    requires Versioned(s, base)
    ensures Versioned(HandleDownloadResult(s, res, look, now), base)
  {
    var path := res.op.path;
    OtherFieldsAreVersioned(s, base);
    hide Versioned, Write, DownloadedFile;
    WriteIsVersioned(s, path, DownloadedFile(res, IdentityAt(look)), now, base);
    WriteIsVersioned(s, path, EMPTY_ENTRY.(kind := SymlinkKind, target := res.target, localIdentity := IdentityAt(look)), now, base);
    WriteIsVersioned(s, path, EMPTY_ENTRY.(kind := DirKind, mode := res.op.mode), now, base);
    if path in s.entries {
      WriteIsVersioned(s, path, s.entries[path].(deleted := true), now, base);
      WriteIsVersioned(s, path, s.entries[path].(mode := res.mode), now, base);
    }
  }

  lemma RemoteEventIsVersioned(s: State, path: Path, look: LocalLook, r: RemoteLook, now: int, base: nat)
    requires Versioned(s, base)
    ensures Versioned(HandleRemoteEvent(s, path, look, r, now), base)
  {
    OtherFieldsAreVersioned(s, base);
    hide Versioned, Write, DownloadFor, DetectConflict;
    if path in s.entries {
      WriteIsVersioned(s, path, s.entries[path].(deleted := true), now, base);
      OtherFieldsAreVersioned(Write(s, path, s.entries[path].(deleted := true), now), base);
    }
  }

  lemma ControlWriteIsVersioned(s: State, path: Path, w: ControlWrite, identity: Identity, now: int, base: nat)
    requires Versioned(s, base)
    ensures Versioned(HandleControlWrite(s, path, w, identity, now), base)
  {
    OtherFieldsAreVersioned(s, base);
    hide Versioned, Write;
    match w
    case ControlFile(mode, content, localMtimeMs, remoteMtimeMs) =>
      WriteIsVersioned(s.(echo := s.echo[path := D.EchoFile(Raw(content))]), path,
            EMPTY_ENTRY.(kind := FileKind, mode := mode, size := |content|, localHash := Raw(content), localIdentity := identity,
                         remoteHash := Raw(content), localMtimeMs := localMtimeMs, remoteMtimeMs := remoteMtimeMs), now, base);
    case ControlLink(target, mtimeMs) =>
      WriteIsVersioned(s.(echo := s.echo[path := D.EchoSymlink(target)]), path,
            EMPTY_ENTRY.(kind := SymlinkKind, target := target, localIdentity := identity, localMtimeMs := mtimeMs,
                         remoteMtimeMs := mtimeMs), now, base);
  }

  lemma TimerIsVersioned(s: State, i: nat, base: nat)
    requires Versioned(s, base) && i < |s.delayed|
    ensures Versioned(FireDelayedDelete(s, i), base)
  {
    var t := s.(delayed := s.delayed[..i] + s.delayed[i + 1..]);
    hide EntriesVersioned, RenamesStaged;
    assert Versioned(t, base);
    hide DelayedAreDeletes;
    assert s.delayed[i].op.kind == UploadDelete;
    QueueIsVersioned(t, s.delayed[i].op, base);
  }

  lemma StepKeepsRenameInvariant(cfg: Config, s: State, e: Event, now: int, base: nat)
    requires ValidConfig(cfg) && RenameInvariant(s, base) && Enabled(s, e)
    ensures RenameInvariant(Step(cfg, s, e, now), base)
  {
    StepIsLinear(cfg, s, e, now);
    OtherFieldsAreVersioned(s, base);
    hide LinearState, Versioned, HandleLocalEvent, DeleteAll, FireDelayedDelete, HandleRemoteEvent, HandleUploadResult,
         HandleDownloadResult, HandleControlWrite;
    match e
    case LocalEvent(path, look, order) => LocalEventIsVersioned(cfg, s, path, look, order, now, base);
    case SweepSymlinks(scan) => DeleteAllIsVersioned(s, MissingLinks(s.entries, scan), now, base);
    case DeleteTimer(i) => TimerIsVersioned(s, i, base);
    case RemoteEvent(path, look, remote) => RemoteEventIsVersioned(s, path, look, remote, now, base);
    case Uploaded(res, look) => UploadResultIsVersioned(s, res, look, now, base);
    case Downloaded(res, look) => DownloadResultIsVersioned(s, res, look, now, base);
    case Marked(path, echo) =>
    case Control(path, write, identity) => ControlWriteIsVersioned(s, path, write, identity, now, base);
  }

  /** A state as a daemon starts with it: loaded entries, nothing queued, no history. */
  ghost predicate Starting(s: State) {
    && s.candidates == map[] && s.delayed == [] && s.uploads == [] && s.downloads == []
    && s.writes == map[] && s.deletions == []
    && forall p :: p in s.entries ==> s.entries[p].version == 0 || s.entries[p].version < s.nextVersion
  }

  lemma {:induction false} RenameInvariantHoldsOverRuns(cfg: Config, states: seq<State>, events: seq<(Event, int)>)
    requires Run(cfg, states, events) && Starting(states[0])
    ensures forall i :: 0 <= i < |states| ==> RenameInvariant(states[i], states[0].nextVersion)
  {
    var base := states[0].nextVersion;
    assert RenameInvariant(states[0], base);
    hide RenameInvariant, Step, Enabled;
    for n := 0 to |events|
      invariant forall i :: 0 <= i <= n ==> RenameInvariant(states[i], base)
    {
      StepKeepsRenameInvariant(cfg, states[n], events[n].0, events[n].1, base);
    }
  }

  /** The entry at the destination is still the one the rename wrote there. */
  ghost predicate StillStaged(s: State, op: UploadOp) {
    op.path in s.entries && s.entries[op.path].version == op.renameVersion
  }

  /**
   A skipped rename takes back exactly what it staged. An entry is removed if and only if it
   carries the rename's version, and then it is the live entry staged for this rename and no
   other: its own source's baseline, moved, or the changed content at its destination. Any later
   entry at the path, a tombstone included, stays as it is.
   */
  lemma RollbackIsExact(s: State, res: UploadResult, look: LocalLook, now: int, base: nat)
    requires RenameInvariant(s, base) && res.op in s.uploads && res.op.kind == UploadRename && res.skipped
    ensures HandleUploadResult(s, res, look, now) ==
            Sweep(s.(entries := if StillStaged(s, res.op) then s.entries - {res.op.path} else s.entries))
    ensures StillStaged(s, res.op) ==>
              && StagedFor(res.op, s.entries[res.op.path]) && !s.entries[res.op.path].deleted
              && s.writes[res.op.renameVersion].0 == res.op.path
              && SameButSynced(s.writes[res.op.renameVersion].1, s.entries[res.op.path])
    ensures forall i :: 0 <= i < |s.uploads| && s.uploads[i].kind == UploadRename ==>
              (s.uploads[i].renameVersion == res.op.renameVersion <==> s.uploads[i] == res.op)
  {
    assert Staged(res.op, s.writes, base);
    hide LinearState;
    if StillStaged(s, res.op) {
      SyncTimeDoesNotMatter(res.op, s.writes[res.op.renameVersion].1, s.entries[res.op.path]);
    }
    var at :| 0 <= at < |s.uploads| && s.uploads[at] == res.op;
    forall i | 0 <= i < |s.uploads| && s.uploads[i].kind == UploadRename && s.uploads[i].renameVersion == res.op.renameVersion
      ensures i == at
    {
    }
    hide StagedFor;
  }

  lemma SyncTimeDoesNotMatter(op: UploadOp, a: SyncEntry, b: SyncEntry)
    requires StagedFor(op, a) && SameButSynced(a, b)
    ensures StagedFor(op, b) && !b.deleted
  {
  }

  /** Any two rename uploads of a reachable state were made from different remembered deletions. */
  lemma RenamesUseDistinctDeletions(s: State, base: nat, i: nat, j: nat)
    requires RenameInvariant(s, base) && i < j < |s.uploads|
    requires s.uploads[i].kind == UploadRename && s.uploads[j].kind == UploadRename
    ensures var a, b := s.uploads[i], s.uploads[j];
            && a.candidateId != b.candidateId && a.candidateId < |s.deletions| && b.candidateId < |s.deletions|
            && s.deletions[a.candidateId] == Deletion(a.prevPath, a.storedEntry)
            && s.deletions[b.candidateId] == Deletion(b.prevPath, b.storedEntry)
  {
    assert Backed(s.uploads[i], s.candidates, s.deletions) && Backed(s.uploads[j], s.candidates, s.deletions);
  }

  /** A candidate taken for a local file was a file, and one taken for a link was a link. */
  lemma TakenCandidateHasKind(s: State, order: seq<Key>, key: Key, rel: Path, kind: Kind, hasStored: bool, now: int)
    requires LinearState(s)
    requires key.InodeKey? ==> key.kind == kind
    requires key.HashKey? ==> kind == FileKind
    requires key.LinkKey? ==> kind == SymlinkKind
    ensures var t := TakeFor(s.candidates, order, key, rel, kind, hasStored, now);
            t.candidate.Some? ==> t.candidate.value.entry.kind == kind
  {
    var k := TakeForFrom(s.candidates, order, key, rel, kind, hasStored, now);
    hide TakeFor;
    if k in s.candidates {
      assert CandidateKey(s.candidates[k].entry) == k;
    }
  }

  /** A rename of a file queues the rename first and then at most its changed content. */
  lemma RenameFileQueues(s: State, path: Path, c: Candidate, f: Facts, look: FileLook, now: int)
    ensures var t := RenameFile(s, path, c, f, look, now);
            && |s.uploads| < |t.uploads| && t.uploads[..|s.uploads|] == s.uploads
            && t.uploads[|s.uploads|].kind == UploadRename && t.uploads[|s.uploads|].path == path
            && t.uploads[|s.uploads|].prevPath == c.path && t.uploads[|s.uploads|].storedEntry == c.entry
            && t.uploads[|s.uploads|].candidateId == c.id
            && (forall i :: |s.uploads| < i < |t.uploads| ==> t.uploads[i].kind == UploadFile)
            && (forall p :: p in s.entries ==> p in t.entries && (p != path ==> t.entries[p] == s.entries[p]))
  {
    FileUploadKind(path, f, look, c.entry, true);
    hide FileUpload, FileEntry, PendingRename;
  }

  /** Every rename that a step from `s` to `t` queues goes to `path` and comes from an entry of this kind. */
  ghost predicate NewRenamesFrom(s: State, t: State, path: Path, kind: Kind) {
    forall i :: |s.uploads| <= i < |t.uploads| && t.uploads[i].kind == UploadRename ==>
                  t.uploads[i].storedEntry.kind == kind && t.uploads[i].path == path
  }

  lemma RenameFileQueuesOneRename(s: State, path: Path, c: Candidate, f: Facts, look: FileLook, now: int)
    ensures NewRenamesFrom(s, RenameFile(s, path, c, f, look, now), path, c.entry.kind)
  {
    RenameFileQueues(s, path, c, f, look, now);
    hide RenameFile;
  }

  lemma FileRenameHasFileSource(cfg: Config, s: State, path: Path, look: FileLook, order: seq<Key>, now: int)
    requires ValidConfig(cfg) && LinearState(s)
    ensures NewRenamesFrom(s, HandleLocalFile(cfg, s, path, look, order, now), path, FileKind)
  {
    var facts := FactsOf(cfg, look);
    if look.size <= cfg.maxFileBytes && facts.Some? {
      var f, hasStored := facts.value, path in s.entries;
      var key := KeyForLocalFile(look.identity, f.hash, f.size);
      TakenCandidateHasKind(s, order, key, path, FileKind, hasStored, now);
      hide LinearState, FactsOf, RenameFile, KeyForLocalFile;
      var taken := TakeFor(s.candidates, order, key, path, FileKind, hasStored, now);
      if taken.candidate.Some? {
        RenameFileQueuesOneRename(s.(candidates := taken.candidates), path, taken.candidate.value, f, look, now);
      }
      FileUploadKind(path, f, look, StoredAt(s, path), hasStored);
      hide TakeFor, FileUpload;
    }
  }

  lemma LinkRenameHasLinkSource(s: State, path: Path, target: string, identity: Identity, order: seq<Key>, now: int)
    requires LinearState(s)
    ensures NewRenamesFrom(s, HandleLocalSymlink(s, path, target, identity, order, now), path, SymlinkKind)
  {
    TakenCandidateHasKind(s, order, KeyForLocalSymlink(identity, target), path, SymlinkKind, path in s.entries, now);
    hide LinearState, TakeFor, KeyForLocalSymlink, PendingRename;
  }

  // ------------------------------------------------------------------
  // Which uploads a deletion leads to
  // ------------------------------------------------------------------

  /**
   A file event uses candidate `k`: it is alive, and it is the one under the file's own key, or
   that key yields none, nothing is stored at the path and `k` alone has left this directory.
   */
  ghost predicate Chosen(c: map<Key, Candidate>, k: Key, key: Key, rel: Path, kind: Kind, hasStored: bool, now: int)
    requires k in c
  {
    && !Expired(c[k], now)
    && (k == key ||
        (!hasStored && !(key in c && !Expired(c[key], now)) && Fits(c[k], rel, kind) &&
         forall q :: q != key && Choosable(c, q, rel, kind, now) ==> q == k))
  }

  lemma TakesExactlyTheChosen(c: map<Key, Candidate>, order: seq<Key>, key: Key, rel: Path, kind: Kind, hasStored: bool, now: int, k: Key)
    requires Enumerates(order, c) && k in c && NoKey !in c
    requires forall q :: q in c && c[q] == c[k] ==> q == k
    ensures TakeFor(c, order, key, rel, kind, hasStored, now).candidate == Some(c[k]) <==>
            Chosen(c, k, key, rel, kind, hasStored, now)
  {
    var byKey := TakeCandidate(c, key, now);
    if byKey.candidate.None? && !hasStored {
      ScanYieldsTheOnlyOne(byKey.candidates, order, rel, kind, now, k, c[k]);
      hide Fits, ScanFallback;
      assert forall q :: Choosable(byKey.candidates, q, rel, kind, now) <==> q != key && Choosable(c, q, rel, kind, now);
    }
  }

  lemma ScanYieldsTheOnlyOne(c: map<Key, Candidate>, order: seq<Key>, rel: Path, kind: Kind, now: int, k: Key, who: Candidate)
    requires Enumerates(order, c) && forall q :: q in c && c[q] == who ==> q == k
    ensures ScanFallback(c, order, rel, kind, now, None).candidate == Some(who) <==>
            k in c && c[k] == who && Choosable(c, k, rel, kind, now) && forall q :: Choosable(c, q, rel, kind, now) ==> q == k
  {
    FallbackNeedsASingleCandidate(c, order, rel, kind, now);
    hide ScanFallback, Fits, Expired;
  }

  /** A step from `s` to `t` queues a rename made from remembered deletion `id`. */
  ghost predicate QueuesRenameOf(s: State, t: State, id: nat) {
    exists i :: |s.uploads| <= i < |t.uploads| && t.uploads[i].kind == UploadRename && t.uploads[i].candidateId == id
  }

  /** What a file event takes out of the candidates. */
  function TakenForFile(cfg: Config, s: State, path: Path, look: FileLook, order: seq<Key>, now: int): Taken
    requires ValidConfig(cfg) && FactsOf(cfg, look).Some?
  {
    var f := FactsOf(cfg, look).value;
    TakeFor(s.candidates, order, KeyForLocalFile(look.identity, f.hash, f.size), path, FileKind, path in s.entries, now)
  }

  lemma RenameFileFrame(s: State, path: Path, c: Candidate, f: Facts, look: FileLook, now: int)
    ensures var t := RenameFile(s, path, c, f, look, now); t.candidates == s.candidates && t.delayed == s.delayed
  {
    hide FileUpload, FileEntry, PendingRename;
  }

  /** A file event queues a rename of what it took, and of nothing else. */
  lemma FileEventRenamesWhatItTakes(cfg: Config, s: State, path: Path, look: FileLook, order: seq<Key>, now: int, id: nat)
    requires ValidConfig(cfg) && look.size <= cfg.maxFileBytes && FactsOf(cfg, look).Some?
    ensures var taken, t := TakenForFile(cfg, s, path, look, order, now), HandleLocalFile(cfg, s, path, look, order, now);
            && t.candidates == taken.candidates && t.delayed == s.delayed
            && (QueuesRenameOf(s, t, id) <==> taken.candidate.Some? && taken.candidate.value.id == id)
  {
    var f := FactsOf(cfg, look).value;
    var taken := TakenForFile(cfg, s, path, look, order, now);
    var u, t := s.(candidates := taken.candidates), HandleLocalFile(cfg, s, path, look, order, now);
    hide TakeFor, KeyForLocalFile, FactsOf;
    FileUploadKind(path, f, look, StoredAt(s, path), path in s.entries);
    if taken.candidate.Some? {
      var c := taken.candidate.value;
      RenameFileQueues(u, path, c, f, look, now);
      RenameFileFrame(u, path, c, f, look, now);
      hide RenameFile, FileUpload;
      if c.id == id {
        assert t.uploads[|s.uploads|].candidateId == id;
      }
    }
    hide FileUpload, RenameFile;
  }

  /** A file event turns a remembered deletion into a rename exactly if it chooses its candidate. */
  lemma FileEventRenamesTheChosen(cfg: Config, s: State, path: Path, look: FileLook, order: seq<Key>, now: int, k: Key)
    requires ValidConfig(cfg) && LinearState(s) && Enumerates(order, s.candidates) && k in s.candidates
    requires look.size <= cfg.maxFileBytes && FactsOf(cfg, look).Some?
    ensures var f := FactsOf(cfg, look).value;
            QueuesRenameOf(s, HandleLocalFile(cfg, s, path, look, order, now), s.candidates[k].id) <==>
            Chosen(s.candidates, k, KeyForLocalFile(look.identity, f.hash, f.size), path, FileKind, path in s.entries, now)
  {
    var f := FactsOf(cfg, look).value;
    var key := KeyForLocalFile(look.identity, f.hash, f.size);
    FileEventRenamesWhatItTakes(cfg, s, path, look, order, now, s.candidates[k].id);
    TakesExactlyTheChosen(s.candidates, order, key, path, FileKind, path in s.entries, now, k);
    var q := TakeForFrom(s.candidates, order, key, path, FileKind, path in s.entries, now);
    hide FactsOf, TakeFor, KeyForLocalFile, HandleLocalFile, QueuesRenameOf, Chosen, CandidateKey;
  }

  /** What the delayed delete adds when its timer fires: itself, or nothing once its candidate is gone or another's. */
  lemma TimerSendsWhilePending(s: State, i: nat)
    requires i < |s.delayed|
    ensures var d := s.delayed[i];
            FireDelayedDelete(s, i).uploads ==
            s.uploads + if d.key in s.candidates && s.candidates[d.key].path == d.path then [d.op] else []
  {
  }

  /**
   When a deletion is uploaded twice. If its timer fires first, the delete is sent, and a file
   that appears afterwards is sent as a rename from the same deletion exactly if it chooses the
   candidate that is still kept.
   */
  lemma DeleteAndRenameBothQueued(cfg: Config, s: State, from: Path, to: Path, look: FileLook, order: seq<Key>, t0: int, t1: int)
    requires ValidConfig(cfg) && LinearState(s) && from in s.entries && CandidateKey(s.entries[from]) != NoKey
    requires look.size <= cfg.maxFileBytes && FactsOf(cfg, look).Some?
    requires Enumerates(order, FireDelayedDelete(HandleLocalDelete(s, from, t0), |s.delayed|).candidates)
    ensures var fired := FireDelayedDelete(HandleLocalDelete(s, from, t0), |s.delayed|);
            var f, k := FactsOf(cfg, look).value, CandidateKey(s.entries[from]);
            && fired.uploads == s.uploads + [DeleteUpload(from, s.entries[from])]
            && k in fired.candidates && fired.candidates[k].id == |s.deletions| && fired.candidates[k].recordedAt == t0
            && (QueuesRenameOf(fired, HandleLocalFile(cfg, fired, to, look, order, t1), |s.deletions|) <==>
                Chosen(fired.candidates, k, KeyForLocalFile(look.identity, f.hash, f.size), to, FileKind,
                       to in fired.entries, t1))
  {
    var prior := s.entries[from];
    var deleted := HandleLocalDelete(s, from, t0);
    var k := CandidateKey(prior);
    assert deleted.delayed[|s.delayed|] == DelayedDelete(DeleteUpload(from, prior), k, from);
    TimerSendsWhilePending(deleted, |s.delayed|);
    var fired := FireDelayedDelete(deleted, |s.delayed|);
    DeleteIsLinear(s, from, t0);
    LinearIsAboutCandidates(deleted, fired, DeleteUpload(from, prior));
    hide HandleLocalDelete, FireDelayedDelete, CandidateKey, LinearState, FactsOf, Chosen, KeyForLocalFile;
    FileEventRenamesTheChosen(cfg, fired, to, look, order, t1, k);
  }

  lemma LinearIsAboutCandidates(s: State, t: State, op: UploadOp)
    requires LinearState(s) && op.kind != UploadRename
    requires t.candidates == s.candidates && t.deletions == s.deletions && t.uploads == s.uploads + [op]
    ensures LinearState(t)
  {
    OtherUploadIsLinear(s.candidates, s.deletions, s.uploads, op);
    hide Linear;
  }

  /** If the file appears before the timer fires and is sent as a rename, the delete is not sent. */
  lemma RenameReplacesTheDelete(cfg: Config, s: State, i: nat, path: Path, look: FileLook, order: seq<Key>, now: int)
    requires ValidConfig(cfg) && LinearState(s) && Enumerates(order, s.candidates)
    requires i < |s.delayed| && s.delayed[i].key in s.candidates
    requires QueuesRenameOf(s, HandleLocalFile(cfg, s, path, look, order, now), s.candidates[s.delayed[i].key].id)
    ensures var t := HandleLocalFile(cfg, s, path, look, order, now);
            t.delayed == s.delayed && FireDelayedDelete(t, i).uploads == t.uploads
  {
    var k := s.delayed[i].key;
    var t := HandleLocalFile(cfg, s, path, look, order, now);
    if look.size <= cfg.maxFileBytes && FactsOf(cfg, look).Some? {
      var f := FactsOf(cfg, look).value;
      FileEventRenamesWhatItTakes(cfg, s, path, look, order, now, s.candidates[k].id);
      var q := TakeForFrom(s.candidates, order, KeyForLocalFile(look.identity, f.hash, f.size), path, FileKind,
                           path in s.entries, now);
      hide TakeFor, KeyForLocalFile, CandidateKey, QueuesRenameOf, HandleLocalFile, FactsOf;
      TimerSendsWhilePending(t, i);
    }
  }

  /**
   Of two deletions waiting together, the first one's timer sends nothing exactly if both have
   the same candidate key: the second then took the first one's place.
   */
  lemma CollidingDeletionIsNotUploaded(s: State, first: Path, second: Path, t0: int, t1: int)
    requires first in s.entries && second in s.entries && first != second
    requires CandidateKey(s.entries[first]) != NoKey
    ensures var both := HandleLocalDelete(HandleLocalDelete(s, first, t0), second, t1);
            && |s.delayed| < |both.delayed|
            && FireDelayedDelete(both, |s.delayed|).uploads ==
               both.uploads + if CandidateKey(s.entries[first]) == CandidateKey(s.entries[second]) then []
                              else [DeleteUpload(first, s.entries[first])]
  {
    var a := HandleLocalDelete(s, first, t0);
    hide CandidateKey;
    assert a.entries[second] == s.entries[second];
    var both := HandleLocalDelete(a, second, t1);
    assert both.delayed[|s.delayed|] == DelayedDelete(DeleteUpload(first, s.entries[first]), CandidateKey(s.entries[first]), first);
    TimerSendsWhilePending(both, |s.delayed|);
  }
}
