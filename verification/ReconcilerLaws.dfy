/**
 Laws of every run of the reconciler: how a rename candidate is chosen, that chunk metadata stays
 consistent, and that every download it queues is one the downloader takes.
 */
module ReconcilerLaws {
  import opened ByteStrings
  import opened Digests
  import opened SyncTypes
  import opened ChunkDelta
  import opened ReconcilerState
  import D = Downloads

  // ------------------------------------------------------------------
  // Where a taken candidate comes from
  // ------------------------------------------------------------------

  ghost predicate SubMap(a: map<Key, Candidate>, b: map<Key, Candidate>) {
    forall k :: k in a ==> k in b && a[k] == b[k]
  }

  /** Candidate `k` was taken out of `c`. */
  ghost predicate TakenFrom(t: Taken, c: map<Key, Candidate>, k: Key, now: int) {
    t.candidate.Some? ==> k in c && c[k] == t.candidate.value && k !in t.candidates && !Expired(c[k], now)
  }

  lemma {:induction false} ScanTakesFrom(c: map<Key, Candidate>, order: seq<Key>, rel: Path, kind: Kind, now: int, found: Option<Key>)
    returns (k: Key)
    requires found.Some? ==> found.value in c && Fits(c[found.value], rel, kind) && !Expired(c[found.value], now)
    ensures var t := ScanFallback(c, order, rel, kind, now, found);
            SubMap(t.candidates, c) && TakenFrom(t, c, k, now) && (t.candidate.Some? ==> Fits(t.candidate.value, rel, kind))
    decreases |order|
  {
    k := NoKey;
    if order == [] {
      if found.Some? {
        k := found.value;
      }
    } else {
      var q, rest := order[0], order[1..];
      if q !in c || found == Some(q) {
        k := ScanTakesFrom(c, rest, rel, kind, now, found);
      } else if Expired(c[q], now) {
        k := ScanTakesFrom(c - {q}, rest, rel, kind, now, found);
      } else if !Fits(c[q], rel, kind) {
        k := ScanTakesFrom(c, rest, rel, kind, now, found);
      } else if found.None? {
        k := ScanTakesFrom(c, rest, rel, kind, now, Some(q));
      }
    }
  }

  lemma TakeForFrom(c: map<Key, Candidate>, order: seq<Key>, key: Key, rel: Path, kind: Kind, hasStored: bool, now: int)
    returns (k: Key)
    ensures var t := TakeFor(c, order, key, rel, kind, hasStored, now);
            SubMap(t.candidates, c) && TakenFrom(t, c, k, now) &&
            (t.candidate.Some? ==> (k == key && key != NoKey) || Fits(t.candidate.value, rel, kind))
  {
    var byKey := TakeCandidate(c, key, now);
    k := key;
    if byKey.candidate.None? && !hasStored {
      k := ScanTakesFrom(byKey.candidates, order, rel, kind, now, None);
    }
  }

  // ------------------------------------------------------------------
  // The fallback
  // ------------------------------------------------------------------

  /** A live candidate that the fallback may choose. */
  predicate Choosable(c: map<Key, Candidate>, k: Key, rel: Path, kind: Kind, now: int) {
    k in c && !Expired(c[k], now) && Fits(c[k], rel, kind)
  }

  ghost predicate Distinct(order: seq<Key>) {
    forall i, j :: 0 <= i < j < |order| ==> order[i] != order[j]
  }

  lemma {:induction false} ScanFindsTheOnlyOne(c: map<Key, Candidate>, order: seq<Key>, rel: Path, kind: Kind, now: int, found: Option<Key>)
    requires Distinct(order)
    requires found.Some? ==> Choosable(c, found.value, rel, kind, now) && found.value !in order
    requires forall k :: Choosable(c, k, rel, kind, now) ==> k in order || found == Some(k)
    ensures var t := ScanFallback(c, order, rel, kind, now, found);
            t.candidate.Some? <==>
            exists k :: Choosable(c, k, rel, kind, now) && forall q :: Choosable(c, q, rel, kind, now) ==> q == k
    decreases |order|
  {
    hide Fits, Expired;
    if order == [] {
      if found.Some? {
        assert Choosable(c, found.value, rel, kind, now);
      }
    } else {
      var q, rest := order[0], order[1..];
      assert q !in rest;
      assert forall k :: k in order ==> k == q || k in rest;
      if q !in c || found == Some(q) {
        ScanFindsTheOnlyOne(c, rest, rel, kind, now, found);
      } else if Expired(c[q], now) {
        forall k
          ensures Choosable(c - {q}, k, rel, kind, now) <==> Choosable(c, k, rel, kind, now)
        {
        }
        ScanFindsTheOnlyOne(c - {q}, rest, rel, kind, now, found);
      } else if !Fits(c[q], rel, kind) {
        ScanFindsTheOnlyOne(c, rest, rel, kind, now, found);
      } else {
        assert Choosable(c, q, rel, kind, now);
        if found.Some? {
          assert Choosable(c, found.value, rel, kind, now) && found.value != q;
        } else {
          ScanFindsTheOnlyOne(c, rest, rel, kind, now, Some(q));
        }
      }
    }
  }

  /**
   In whatever order the candidates are visited, the fallback fires exactly when one live
   candidate of the kind has left this directory, and it is that one.
   */
  lemma FallbackNeedsASingleCandidate(c: map<Key, Candidate>, order: seq<Key>, rel: Path, kind: Kind, now: int)
    requires Enumerates(order, c)
    ensures var t := ScanFallback(c, order, rel, kind, now, None);
            && (t.candidate.Some? <==>
                exists k :: Choosable(c, k, rel, kind, now) && forall q :: Choosable(c, q, rel, kind, now) ==> q == k)
            && (t.candidate.Some? ==> exists k :: Choosable(c, k, rel, kind, now) && c[k] == t.candidate.value)
  {
    ScanFindsTheOnlyOne(c, order, rel, kind, now, None);
    var k := ScanTakesFrom(c, order, rel, kind, now, None);
    if ScanFallback(c, order, rel, kind, now, None).candidate.Some? {
      assert Choosable(c, k, rel, kind, now);
    }
  }

  // ------------------------------------------------------------------
  // Chunk metadata
  // ------------------------------------------------------------------

  predicate UploadConsistent(op: UploadOp) {
    && (op.kind == UploadFile && op.chunkSize > 0 ==> op.localHash == CompositeHash(op.chunkHashes))
    && ChunkConsistent(op.storedEntry)
  }

  /** Wherever chunk metadata is kept or on its way, the hash stands for the manifest. */
  ghost predicate ChunksConsistent(s: State) {
    && (forall p :: p in s.entries ==> ChunkConsistent(s.entries[p]))
    && (forall k :: k in s.candidates ==> ChunkConsistent(s.candidates[k].entry))
    && (forall i :: 0 <= i < |s.uploads| ==> UploadConsistent(s.uploads[i]))
    && (forall i :: 0 <= i < |s.delayed| ==> UploadConsistent(s.delayed[i].op))
  }

  lemma WriteKeepsChunks(s: State, path: Path, e: SyncEntry, now: int)
    requires ChunksConsistent(s) && ChunkConsistent(e)
    ensures ChunksConsistent(Write(s, path, e, now))
  {
  }

  lemma QueueKeepsChunks(s: State, op: UploadOp)
    requires ChunksConsistent(s) && UploadConsistent(op)
    ensures ChunksConsistent(Queue(s, op))
  {
  }

  lemma FewerCandidatesKeepChunks(s: State, c: map<Key, Candidate>)
    requires ChunksConsistent(s) && SubMap(c, s.candidates)
    ensures ChunksConsistent(s.(candidates := c))
  {
  }

  lemma DeleteKeepsChunks(s: State, path: Path, now: int)
    requires ChunksConsistent(s)
    ensures ChunksConsistent(HandleLocalDelete(s, path, now))
  {
  }

  lemma {:induction false} DeleteAllKeepsChunks(s: State, paths: seq<Path>, now: int)
    requires ChunksConsistent(s)
    ensures ChunksConsistent(DeleteAll(s, paths, now))
    decreases |paths|
  {
    hide ChunksConsistent, HandleLocalDelete;
    if paths != [] {
      var n := |paths| - 1;
      DeleteAllKeepsChunks(s, paths[..n], now);
      DeleteKeepsChunks(DeleteAll(s, paths[..n], now), paths[n], now);
    }
  }

  lemma FileKeepsChunks(cfg: Config, s: State, path: Path, look: FileLook, order: seq<Key>, now: int)
    requires ValidConfig(cfg) && ChunksConsistent(s)
    ensures ChunksConsistent(HandleLocalFile(cfg, s, path, look, order, now))
  {
    var facts := FactsOf(cfg, look);
    if look.size <= cfg.maxFileBytes && facts.Some? {
      var f := facts.value;
      assert f.chunkSize > 0 ==> f.hash == CompositeHash(f.chunkHashes);
      var key := KeyForLocalFile(look.identity, f.hash, f.size);
      var k := TakeForFrom(s.candidates, order, key, path, FileKind, path in s.entries, now);
      var taken := TakeFor(s.candidates, order, key, path, FileKind, path in s.entries, now);
      var t := s.(candidates := taken.candidates);
      FewerCandidatesKeepChunks(s, taken.candidates);
      assert ChunkConsistent(StoredAt(s, path));
      assert taken.candidate.Some? ==> ChunkConsistent(taken.candidate.value.entry);
      hide ChunksConsistent, FactsOf, TakeFor, KeyForLocalFile, Write, Queue, DirtyChunks;
      if taken.candidate.Some? {
        RenameFileKeepsChunks(t, path, taken.candidate.value, f, look, now);
      } else {
        QueueKeepsChunks(t, FileUpload(path, f, look, StoredAt(s, path), path in s.entries));
      }
    }
  }

  lemma RenameFileKeepsChunks(s: State, path: Path, c: Candidate, f: Facts, look: FileLook, now: int)
    requires ChunksConsistent(s) && ChunkConsistent(c.entry)
    requires f.chunkSize > 0 ==> f.hash == CompositeHash(f.chunkHashes)
    ensures ChunksConsistent(RenameFile(s, path, c, f, look, now))
  {
    hide ChunksConsistent, DirtyChunks;
    WriteKeepsChunks(s, path, PendingRename(c, look.identity), now);
    var installed := Write(s, path, PendingRename(c, look.identity), now);
    var rename := RenameUpload(path, c, installed.nextVersion, look.perm, "", look.identity, look.mtimeMs);
    WriteKeepsChunks(installed, path, FileEntry(f, look, c.entry), now);
    var staged := Write(installed, path, FileEntry(f, look, c.entry), now);
    QueueKeepsChunks(staged, rename);
    QueueKeepsChunks(Queue(staged, rename), FileUpload(path, f, look, c.entry, true));
    QueueKeepsChunks(installed, RenameUpload(path, c, s.nextVersion, look.perm, "", look.identity, look.mtimeMs));
  }

  lemma SymlinkKeepsChunks(s: State, path: Path, target: string, identity: Identity, order: seq<Key>, now: int)
    requires ChunksConsistent(s)
    ensures ChunksConsistent(HandleLocalSymlink(s, path, target, identity, order, now))
  {
    var key := KeyForLocalSymlink(identity, target);
    var k := TakeForFrom(s.candidates, order, key, path, SymlinkKind, path in s.entries, now);
    var taken := TakeFor(s.candidates, order, key, path, SymlinkKind, path in s.entries, now);
    FewerCandidatesKeepChunks(s, taken.candidates);
    assert ChunkConsistent(StoredAt(s, path));
    hide TakeFor;
  }

  lemma LocalEventKeepsChunks(cfg: Config, s: State, path: Path, look: LocalLook, order: seq<Key>, now: int)
    requires ValidConfig(cfg) && ChunksConsistent(s)
    ensures ChunksConsistent(HandleLocalEvent(cfg, s, path, look, order, now))
  {
    var t := ConsumeEcho(s, path);
    assert ChunksConsistent(t);
    assert ChunkConsistent(StoredAt(t, path));
    hide ChunksConsistent, HandleLocalFile, HandleLocalSymlink, HandleLocalDelete, DeleteAll;
    match look
    case Gone => DeleteKeepsChunks(t, path, now);
    case FileAt(file) => FileKeepsChunks(cfg, t, path, file, order, now);
    case LinkAt(target, identity) => SymlinkKeepsChunks(t, path, target, identity, order, now);
    case DirAt(perm, scan) =>
      var missing := MissingFiles(t.entries, path, scan);
      DeleteAllKeepsChunks(t, missing, now);
      var u := DeleteAll(t, missing, now);
      QueueKeepsChunks(u, NO_OP.(kind := UploadMkdir, path := path, mode := perm, storedEntry := StoredAt(t, path),
                                 hasStored := path in t.entries));
    case OtherAt =>
  }

  lemma FewerEntriesKeepChunks(s: State, gone: set<Path>)
    requires ChunksConsistent(s)
    ensures ChunksConsistent(s.(entries := s.entries - gone))
  {
  }

  lemma RenamedEntryIsConsistent(op: UploadOp, stat: Option<D.RemoteStat>, identity: Identity)
    requires ChunkConsistent(op.storedEntry)
    ensures ChunkConsistent(RenamedEntry(op, stat, identity)) && ChunkConsistent(UploadedSymlink(op, stat, identity))
    ensures UploadConsistent(op) && op.kind == UploadFile ==> ChunkConsistent(UploadedFile(op, stat, identity))
  {
  }

  lemma ApplyUploadKeepsChunks(s: State, res: UploadResult, look: LocalLook, now: int)
    requires ChunksConsistent(s) && UploadConsistent(res.op)
    ensures ChunksConsistent(ApplyUpload(s, res, look, now))
  {
    var op := res.op;
    var identity := DefaultIdentity(op.localIdentity, IdentityAt(look));
    RenamedEntryIsConsistent(op, res.remoteStat, identity);
    assert op.path in s.entries ==> ChunkConsistent(s.entries[op.path]);
    hide Write, UploadedFile, UploadedSymlink, RenamedEntry, CandidateKey, TouchEntry, ChunksConsistent;
    match op.kind
    case UploadFile => WriteKeepsChunks(s, op.path, UploadedFile(op, res.remoteStat, identity), now);
    case UploadSymlink => WriteKeepsChunks(s, op.path, UploadedSymlink(op, res.remoteStat, identity), now);
    case UploadMkdir => WriteKeepsChunks(s, op.path, EMPTY_ENTRY.(kind := DirKind, mode := op.mode), now);
    case UploadDelete =>
      ForgetKeepsChunks(s, op.storedEntry);
      TouchKeepsChunks(ForgetCandidate(s, op.storedEntry), op.path, now);
    case UploadRename =>
      FewerEntriesKeepChunks(s, {op.prevPath});
      WriteKeepsChunks(s.(entries := s.entries - {op.prevPath}), op.path, RenamedEntry(op, res.remoteStat, identity), now);
    case UploadChmod =>
      if op.path in s.entries {
        WriteKeepsChunks(s, op.path, s.entries[op.path].(mode := op.mode), now);
      }
  }

  lemma ForgetKeepsChunks(s: State, e: SyncEntry)
    requires ChunksConsistent(s)
    ensures ChunksConsistent(ForgetCandidate(s, e))
  {
    FewerCandidatesKeepChunks(s, s.candidates - {CandidateKey(e)});
  }

  lemma UploadResultKeepsChunks(s: State, res: UploadResult, look: LocalLook, now: int)
    requires ChunksConsistent(s) && exists i :: 0 <= i < |s.uploads| && AnswersUpload(res.op, s.uploads[i])
    ensures ChunksConsistent(HandleUploadResult(s, res, look, now))
  {
    assert UploadConsistent(res.op);
    hide ApplyUpload, UploadResultObsolete, ChunksConsistent;
    FewerEntriesKeepChunks(s, {res.op.path});
    OtherFieldsDoNotMatter(s);
    OtherFieldsDoNotMatter(RollBackRename(s, res.op));
    ApplyUploadKeepsChunks(s, res, look, now);
  }

  lemma OtherFieldsDoNotMatter(s: State)
    ensures ChunksConsistent(s) ==> ChunksConsistent(Sweep(s)) && forall d :: ChunksConsistent(QueueDownload(s, d))
  {
  }

  lemma TouchKeepsChunks(s: State, path: Path, now: int)
    requires ChunksConsistent(s)
    ensures ChunksConsistent(TouchEntry(s, path, now))
  {
  }

  lemma DownloadResultKeepsChunks(s: State, res: D.DownloadResult, look: LocalLook, now: int)
    requires ChunksConsistent(s) && D.ResultConsistent(res)
    ensures ChunksConsistent(HandleDownloadResult(s, res, look, now))
  {
    var path := res.op.path;
    OtherFieldsDoNotMatter(s);
    assert res.op.kind.DownloadFile? && D.Succeeded(res) ==> ChunkConsistent(DownloadedFile(res, IdentityAt(look)));
    assert path in s.entries ==> ChunkConsistent(s.entries[path]);
    hide ChunksConsistent, Write, DownloadedFile;
    match res.op.kind
    case DownloadFile =>
      if D.Succeeded(res) {
        WriteKeepsChunks(s, path, DownloadedFile(res, IdentityAt(look)), now);
      }
    case DownloadSymlink =>
      WriteKeepsChunks(s, path, EMPTY_ENTRY.(kind := SymlinkKind, target := res.target, localIdentity := IdentityAt(look)), now);
    case DownloadMkdir => WriteKeepsChunks(s, path, EMPTY_ENTRY.(kind := DirKind, mode := res.op.mode), now);
    case DownloadDelete =>
      if path in s.entries {
        WriteKeepsChunks(s, path, s.entries[path].(deleted := true), now);
      }
    case DownloadChmod =>
      if path in s.entries {
        WriteKeepsChunks(s, path, s.entries[path].(mode := res.mode), now);
      }
  }

  lemma RemoteEventKeepsChunks(s: State, path: Path, look: LocalLook, r: RemoteLook, now: int)
    requires ChunksConsistent(s)
    ensures ChunksConsistent(HandleRemoteEvent(s, path, look, r, now))
  {
    OtherFieldsDoNotMatter(s);
    if path in s.entries {
      assert ChunkConsistent(s.entries[path]);
      WriteKeepsChunks(s, path, s.entries[path].(deleted := true), now);
      OtherFieldsDoNotMatter(Write(s, path, s.entries[path].(deleted := true), now));
    }
    hide ChunksConsistent, Write, DownloadFor, DetectConflict;
  }

  lemma ControlWriteKeepsChunks(s: State, path: Path, w: ControlWrite, identity: Identity, now: int)
    requires ChunksConsistent(s)
    ensures ChunksConsistent(HandleControlWrite(s, path, w, identity, now))
  {
  }

  lemma TimerKeepsChunks(s: State, i: nat)
    requires ChunksConsistent(s) && i < |s.delayed|
    ensures ChunksConsistent(FireDelayedDelete(s, i))
  {
  }

  /** Chunk metadata survives every step, the full-copy fallback of a download included. */
  lemma StepKeepsChunks(cfg: Config, s: State, e: Event, now: int)
    requires ValidConfig(cfg) && ChunksConsistent(s) && Enabled(s, e)
    ensures ChunksConsistent(Step(cfg, s, e, now))
  {
    hide HandleLocalEvent, DeleteAll, FireDelayedDelete, HandleRemoteEvent, HandleUploadResult, HandleDownloadResult, HandleControlWrite;
    match e
    case LocalEvent(path, look, order) => LocalEventKeepsChunks(cfg, s, path, look, order, now);
    case SweepSymlinks(scan) => DeleteAllKeepsChunks(s, MissingLinks(s.entries, scan), now);
    case DeleteTimer(i) => TimerKeepsChunks(s, i);
    case RemoteEvent(path, look, remote) => RemoteEventKeepsChunks(s, path, look, remote, now);
    case Uploaded(res, look) => UploadResultKeepsChunks(s, res, look, now);
    case Downloaded(res, look) => DownloadResultKeepsChunks(s, res, look, now);
    case Marked(path, echo) => assert ChunksConsistent(s.(echo := s.echo[path := echo]));
    case Control(path, write, identity) => ControlWriteKeepsChunks(s, path, write, identity, now);
  }

  lemma {:induction false} ChunkMetadataInvariant(cfg: Config, states: seq<State>, events: seq<(Event, int)>)
    requires Run(cfg, states, events) && ChunksConsistent(states[0])
    ensures forall i :: 0 <= i < |states| ==> ChunksConsistent(states[i])
  {
    hide ChunksConsistent, Step, Enabled;
    for n := 0 to |events|
      invariant forall i :: 0 <= i <= n ==> ChunksConsistent(states[i])
    {
      StepKeepsChunks(cfg, states[n], events[n].0, events[n].1);
    }
  }

  // ------------------------------------------------------------------
  // Queued downloads
  // ------------------------------------------------------------------

  ghost predicate DownloadsProcessable(s: State) {
    forall i :: 0 <= i < |s.downloads| ==> D.Processable(s.downloads[i])
  }

  lemma DeleteQueuesNoDownload(s: State, path: Path, now: int)
    ensures HandleLocalDelete(s, path, now).downloads == s.downloads
  {
  }

  lemma {:induction false} DeleteAllQueuesNoDownload(s: State, paths: seq<Path>, now: int)
    ensures DeleteAll(s, paths, now).downloads == s.downloads
    decreases |paths|
  {
    hide HandleLocalDelete;
    if paths != [] {
      DeleteAllQueuesNoDownload(s, paths[..|paths| - 1], now);
      DeleteQueuesNoDownload(DeleteAll(s, paths[..|paths| - 1], now), paths[|paths| - 1], now);
    }
  }

  lemma LocalFileQueuesNoDownload(cfg: Config, s: State, path: Path, look: FileLook, order: seq<Key>, now: int)
    requires ValidConfig(cfg)
    ensures HandleLocalFile(cfg, s, path, look, order, now).downloads == s.downloads
  {
    hide TakeFor, KeyForLocalFile, FactsOf, FileUpload, FileEntry, PendingRename;
  }

  lemma LocalEventQueuesNoDownload(cfg: Config, s: State, path: Path, look: LocalLook, order: seq<Key>, now: int)
    requires ValidConfig(cfg)
    ensures HandleLocalEvent(cfg, s, path, look, order, now).downloads == s.downloads
  {
    var t := ConsumeEcho(s, path);
    match look
    case Gone => DeleteQueuesNoDownload(t, path, now);
    case FileAt(file) => LocalFileQueuesNoDownload(cfg, t, path, file, order, now);
    case LinkAt(target, identity) =>
      hide TakeFor, KeyForLocalSymlink, PendingRename;
    case DirAt(perm, scan) => DeleteAllQueuesNoDownload(t, MissingFiles(t.entries, path, scan), now);
    case OtherAt =>
  }

  lemma UploadResultQueuesProcessable(s: State, res: UploadResult, look: LocalLook, now: int)
    requires DownloadsProcessable(s)
    ensures DownloadsProcessable(HandleUploadResult(s, res, look, now))
  {
    assert ApplyUpload(s, res, look, now).downloads == s.downloads by {
      hide UploadedFile, UploadedSymlink, RenamedEntry, CandidateKey, UploadResultObsolete;
    }
    hide ApplyUpload, UploadResultObsolete;
  }

  lemma RemoteEventQueuesProcessable(s: State, path: Path, look: LocalLook, r: RemoteLook, now: int)
    requires DownloadsProcessable(s)
    ensures DownloadsProcessable(HandleRemoteEvent(s, path, look, r, now))
  {
    hide DetectConflict, DirtyChunks;
  }

  /** Every step queues only downloads that the downloader takes. */
  lemma StepQueuesProcessable(cfg: Config, s: State, e: Event, now: int)
    requires ValidConfig(cfg) && DownloadsProcessable(s) && Enabled(s, e)
    ensures DownloadsProcessable(Step(cfg, s, e, now))
  {
    match e
    case LocalEvent(path, look, order) => LocalEventQueuesNoDownload(cfg, s, path, look, order, now);
    case SweepSymlinks(scan) => DeleteAllQueuesNoDownload(s, MissingLinks(s.entries, scan), now);
    case RemoteEvent(path, look, remote) => RemoteEventQueuesProcessable(s, path, look, remote, now);
    case Uploaded(res, look) => UploadResultQueuesProcessable(s, res, look, now);
    case Downloaded(res, look) =>
      hide DownloadedFile;
    case _ =>
      hide DeleteAll, HandleLocalEvent, HandleRemoteEvent, HandleUploadResult, HandleDownloadResult;
  }

  /**
   So a run may be read as one of both machines: what it queues the downloader takes, and what
   the downloader answers is consistent, which is all that the steps of a run assume of it.
   */
  lemma {:induction false} QueuedDownloadsAreProcessable(cfg: Config, states: seq<State>, events: seq<(Event, int)>)
    requires Run(cfg, states, events) && DownloadsProcessable(states[0])
    ensures forall i :: 0 <= i < |states| ==> DownloadsProcessable(states[i])
  {
    hide DownloadsProcessable, Step, Enabled;
    for n := 0 to |events|
      invariant forall i :: 0 <= i <= n ==> DownloadsProcessable(states[i])
    {
      StepQueuesProcessable(cfg, states[n], events[n].0, events[n].1);
    }
  }

  // ------------------------------------------------------------------
  // What results do to the baseline
  // ------------------------------------------------------------------

  /** The node that a look at a readable local file saw. */
  function NodeSeen(look: FileLook): D.Node
    requires look.content.Some?
  {
    D.Node(D.FileInfo(D.Regular, 0, look.perm, look.size, look.mtimeMs), look.content.value, "")
  }

  /**
   A late upload result does not replace a baseline that has become newer meanwhile, as long as
   the local file is at that newer baseline: exactly then, among live entries of files that the
   two sides agreed on, the result is obsolete.
   */
  lemma ObsoleteMeansAtNewerBaseline(s: State, res: UploadResult, look: LocalLook)
    requires res.op.path in s.entries
    requires var e := s.entries[res.op.path];
             && !e.deleted && e.kind == FileKind && e.mode < PERMISSIONS && ChunkConsistent(e)
             && e.localHash == e.remoteHash != NoHash && e.remoteHash != res.op.localHash
             && e.version != res.op.storedEntry.version
             && (res.remoteStat.Some? ==> e.remoteMtimeMs <= res.remoteStat.value.mtimeMs)
    ensures var e := s.entries[res.op.path];
            UploadResultObsolete(s, res, look) <==>
            look.FileAt? && look.look.content.Some? && look.look.mtimeMs == e.localMtimeMs &&
            D.AtBaseline(NodeSeen(look.look), true, e)
  {
    var e := s.entries[res.op.path];
    if look.FileAt? && look.look.content.Some? && e.chunkSize > 0 && Raw(look.look.content.value) == e.localHash {
      assert look.look.content.value == [];
    }
  }

  /** An obsolete result changes no entry; one that is not, and landed, becomes the baseline. */
  lemma ObsoleteResultsChangeNothing(s: State, res: UploadResult, look: LocalLook, now: int)
    requires res.op.kind == UploadFile && !res.skipped
    ensures UploadResultObsolete(s, res, look) ==> HandleUploadResult(s, res, look, now) == Sweep(s)
    ensures !UploadResultObsolete(s, res, look) && !res.err && !res.conflict ==>
              var t := HandleUploadResult(s, res, look, now);
              && res.op.path in t.entries && t.entries[res.op.path].localHash == res.op.localHash
              && t.entries[res.op.path].remoteHash == res.op.localHash && !t.entries[res.op.path].deleted
              && forall p :: p in s.entries && p != res.op.path ==> p in t.entries && t.entries[p] == s.entries[p]
  {
    hide UploadResultObsolete, IdentityAt;
  }

  /**
   A file download that found a directory or a link answers without a stat, and is recorded as a
   file without remote identity, whatever is at the path now.
   */
  lemma StatlessAnswerIsRecordedAsFile(s: State, res: D.DownloadResult, look: LocalLook, now: int)
    requires D.Succeeded(res) && res.op.kind == D.DownloadFile && res.remoteStat.None?
    requires !(res.op.path in s.entries && s.entries[res.op.path].deleted)
    ensures var t := HandleDownloadResult(s, res, look, now);
            && res.op.path in t.entries && t.entries[res.op.path].kind == FileKind
            && t.entries[res.op.path].remoteRevision == "" && t.entries[res.op.path].localHash == res.remoteHash
  {
  }

  // ------------------------------------------------------------------
  // Directory events
  // ------------------------------------------------------------------

  lemma {:induction false} DeleteAllTombstones(s: State, paths: seq<Path>, now: int, p: Path)
    ensures var t := DeleteAll(s, paths, now);
            && (p in t.entries <==> p in s.entries)
            && (p in s.entries && p in paths ==> t.entries[p].deleted)
            && (p in s.entries && p !in paths ==> t.entries[p] == s.entries[p])
    decreases |paths|
  {
    hide CandidateKey, Remember;
    if paths != [] {
      var n := |paths| - 1;
      DeleteAllTombstones(s, paths[..n], now, p);
      RememberKeepsEntries();
    }
  }

  lemma RememberKeepsEntries()
    ensures forall s, path, prior, key, now :: Remember(s, path, prior, key, now).entries == s.entries
  {
  }

  /** A directory event turns exactly the tracked files and links that are gone below it into tombstones. */
  lemma DirEventDeletesTheMissing(s: State, path: Path, perm: nat, scan: Scan, now: int, p: Path)
    requires Scans(scan, s.entries) && p in s.entries
    ensures var t := HandleLocalDir(s, path, perm, scan, now);
            && p in t.entries
            && (t.entries[p].deleted <==> s.entries[p].deleted || MissingBelow(s.entries, path, scan.gone, p))
            && (!MissingBelow(s.entries, path, scan.gone, p) ==> t.entries[p] == s.entries[p])
  {
    DeleteAllTombstones(s, MissingFiles(s.entries, path, scan), now, p);
    hide DeleteAll;
  }
}
