/**
 What a local event sends: which files, links, directories and deletions are uploaded, with what,
 and which events are the echo of the client's own writes.
 */
module LocalEventLaws {
  import opened ByteStrings
  import opened Digests
  import opened SyncTypes
  import opened ChunkDelta
  import opened ReconcilerState
  import opened ReconcilerLaws
  import opened RenameLaws
  import D = Downloads

  // ------------------------------------------------------------------
  // Echoes
  // ------------------------------------------------------------------

  /** The event shows just what the client itself wrote to the path. */
  predicate IsEcho(s: State, path: Path, look: LocalLook) {
    path in s.echo &&
    match s.echo[path]
    case NoEcho => false
    case EchoFile(hash) => look.FileAt? && look.look.content.Some? && hash == Raw(look.look.content.value)
    case EchoSymlink(target) => look.LinkAt? && look.target == target
    case EchoDir => look.DirAt?
    case EchoDelete => look.Gone?
  }

  /** An expectation is used up by the first event; the event is swallowed if it is what was expected. */
  lemma EchoIsSwallowed(cfg: Config, s: State, path: Path, look: LocalLook, order: seq<Key>, now: int)
    requires ValidConfig(cfg)
    ensures HandleLocalEvent(cfg, s, path, look, order, now).echo == s.echo - {path}
    ensures IsEcho(s, path, look) || look.OtherAt? ==>
              HandleLocalEvent(cfg, s, path, look, order, now) == s.(echo := s.echo - {path})
  {
    NoEchoIsHandled(cfg, s, path, look, order, now);
    EchoIsLeftAlone(cfg, s.(echo := s.echo - {path}), path, look, order, now);
    hide HandleLocalEvent, HandleLocalFile, HandleLocalSymlink, HandleLocalDir, HandleLocalDelete, IsEcho;
  }

  /** An event that is no echo goes to the handler of what is there. */
  lemma NoEchoIsHandled(cfg: Config, s: State, path: Path, look: LocalLook, order: seq<Key>, now: int)
    requires ValidConfig(cfg)
    ensures var t, u := HandleLocalEvent(cfg, s, path, look, order, now), s.(echo := s.echo - {path});
            if IsEcho(s, path, look) then t == u
            else match look
              case Gone => t == HandleLocalDelete(u, path, now)
              case FileAt(file) => t == HandleLocalFile(cfg, u, path, file, order, now)
              case LinkAt(target, identity) => t == HandleLocalSymlink(u, path, target, identity, order, now)
              case DirAt(perm, scan) => t == HandleLocalDir(u, path, perm, scan, now)
              case OtherAt => t == u
  {
    hide HandleLocalFile, HandleLocalSymlink, HandleLocalDir, HandleLocalDelete;
  }

  lemma EchoIsLeftAlone(cfg: Config, s: State, path: Path, look: LocalLook, order: seq<Key>, now: int)
    requires ValidConfig(cfg)
    ensures HandleLocalDelete(s, path, now).echo == s.echo
    ensures look.FileAt? ==> HandleLocalFile(cfg, s, path, look.look, order, now).echo == s.echo
    ensures look.LinkAt? ==> HandleLocalSymlink(s, path, look.target, look.identity, order, now).echo == s.echo
    ensures look.DirAt? ==> HandleLocalDir(s, path, look.perm, look.scan, now).echo == s.echo
  {
    DeleteIsLeftAlone(s, path, now);
    hide HandleLocalDelete;
    if look.FileAt? {
      FileLeavesEcho(cfg, s, path, look.look, order, now);
    }
    hide HandleLocalFile;
    if look.DirAt? {
      DeleteAllKeepsEcho(s, MissingFiles(s.entries, path, look.scan), now);
    }
    hide TakeFor, KeyForLocalSymlink, PendingRename, MissingFiles, DeleteAll;
  }

  lemma DeleteIsLeftAlone(s: State, path: Path, now: int)
    ensures HandleLocalDelete(s, path, now).echo == s.echo
  {
    hide CandidateKey;
  }

  lemma FileLeavesEcho(cfg: Config, s: State, path: Path, look: FileLook, order: seq<Key>, now: int)
    requires ValidConfig(cfg)
    ensures HandleLocalFile(cfg, s, path, look, order, now).echo == s.echo
  {
    hide TakeFor, KeyForLocalFile, FactsOf, FileUpload, FileEntry, PendingRename;
  }

  lemma {:induction false} DeleteAllKeepsEcho(s: State, paths: seq<Path>, now: int)
    ensures DeleteAll(s, paths, now).echo == s.echo
    decreases |paths|
  {
    hide CandidateKey;
    if paths != [] {
      DeleteAllKeepsEcho(s, paths[..|paths| - 1], now);
    }
  }

  // ------------------------------------------------------------------
  // Candidates
  // ------------------------------------------------------------------

  /** Some candidate is the one that an event for this key and path uses. */
  ghost predicate AnyChosen(c: map<Key, Candidate>, key: Key, rel: Path, kind: Kind, hasStored: bool, now: int) {
    exists k :: k in c && Chosen(c, k, key, rel, kind, hasStored, now)
  }

  /** The only live candidate that the fallback may use. */
  ghost predicate Only(c: map<Key, Candidate>, k: Key, rel: Path, kind: Kind, now: int) {
    Choosable(c, k, rel, kind, now) && forall q :: Choosable(c, q, rel, kind, now) ==> q == k
  }

  lemma ScanTakesTheOnly(c: map<Key, Candidate>, order: seq<Key>, rel: Path, kind: Kind, now: int)
    requires Enumerates(order, c)
    ensures var t := ScanFallback(c, order, rel, kind, now, None);
            && (t.candidate.Some? ==> exists k :: Only(c, k, rel, kind, now))
            && (forall k :: Only(c, k, rel, kind, now) ==> t.candidate == Some(c[k]))
  {
    FallbackNeedsASingleCandidate(c, order, rel, kind, now);
    hide ScanFallback, Fits, Expired;
    var t := ScanFallback(c, order, rel, kind, now, None);
    if t.candidate.Some? {
      var k :| Choosable(c, k, rel, kind, now) && forall q :: Choosable(c, q, rel, kind, now) ==> q == k;
      assert Only(c, k, rel, kind, now);
    }
  }

  lemma ChosenIsTheOnly(c: map<Key, Candidate>, rest: map<Key, Candidate>, key: Key, rel: Path, kind: Kind, now: int, k: Key)
    requires rest == c - {key} && !(key in c && !Expired(c[key], now))
    ensures Only(rest, k, rel, kind, now) <==> k in c && Chosen(c, k, key, rel, kind, false, now)
  {
    hide Fits, Expired;
    assert forall q :: Choosable(rest, q, rel, kind, now) <==> q != key && Choosable(c, q, rel, kind, now);
  }

  /** What is taken is the chosen candidate, and nothing is taken if there is none. */
  lemma TakesTheChosen(c: map<Key, Candidate>, order: seq<Key>, key: Key, rel: Path, kind: Kind, hasStored: bool, now: int)
    requires Enumerates(order, c) && NoKey !in c
    ensures var t := TakeFor(c, order, key, rel, kind, hasStored, now);
            && (t.candidate.Some? <==> AnyChosen(c, key, rel, kind, hasStored, now))
            && (forall k :: k in c && Chosen(c, k, key, rel, kind, hasStored, now) ==> t.candidate == Some(c[k]))
  {
    var byKey := TakeCandidate(c, key, now);
    var rest := byKey.candidates;
    if byKey.candidate.Some? {
      assert Chosen(c, key, key, rel, kind, hasStored, now);
    } else if !hasStored {
      assert rest == c - {key};
      ScanTakesTheOnly(rest, order, rel, kind, now);
      forall k
        ensures Only(rest, k, rel, kind, now) <==> k in c && Chosen(c, k, key, rel, kind, hasStored, now)
      {
        ChosenIsTheOnly(c, rest, key, rel, kind, now, k);
      }
      hide Fits, Expired, ScanFallback, Only, Chosen;
    }
  }

  // ------------------------------------------------------------------
  // Files
  // ------------------------------------------------------------------

  /** Above the threshold a file is told by its manifest, below by its content. */
  function HashSeen(cfg: Config, look: FileLook): Digest
    requires ValidConfig(cfg) && look.content.Some?
  {
    if look.size > cfg.chunkThreshold then CompositeHash(ChunkHashes(look.content.value, cfg.chunkSize))
    else Raw(look.content.value)
  }

  function SizeSeen(cfg: Config, look: FileLook): nat
    requires look.content.Some?
  {
    if look.size > cfg.chunkThreshold then |look.content.value| else look.size
  }

  function KeySeen(cfg: Config, look: FileLook): Key
    requires ValidConfig(cfg) && look.content.Some?
  {
    KeyForLocalFile(look.identity, HashSeen(cfg, look), SizeSeen(cfg, look))
  }

  /** The baseline holds a file of this content and mode. */
  predicate AtRest(cfg: Config, s: State, path: Path, look: FileLook)
    requires ValidConfig(cfg) && look.content.Some?
  {
    && path in s.entries && s.entries[path].kind == FileKind
    && s.entries[path].mode == look.perm && s.entries[path].localHash == HashSeen(cfg, look)
  }

  /** The upload carries the file as it was seen: its content, or the manifest with the chunks that `base` lacks. */
  ghost predicate Carries(cfg: Config, op: UploadOp, path: Path, look: FileLook, base: SyncEntry, hasBase: bool)
    requires ValidConfig(cfg) && look.content.Some?
  {
    var content := look.content.value;
    && op.kind == UploadFile && op.path == path && op.storedEntry == base && op.hasStored == hasBase
    && op.mode == look.perm && op.localIdentity == look.identity && op.localMtimeMs == look.mtimeMs
    && (op.chunked <==> look.size > cfg.chunkThreshold)
    && (!op.chunked ==> op.content == content && op.localHash == Raw(content) && op.chunkSize == 0 && op.chunkHashes == [])
    && (op.chunked ==>
          && op.fileSize == |content| && op.chunkSize == cfg.chunkSize && op.chunkHashes == ChunkHashes(content, cfg.chunkSize)
          && op.localHash == CompositeHash(op.chunkHashes)
          && forall i: nat :: i in op.dirtyChunks <==> Differs(base.chunkHashes, op.chunkHashes, i))
  }

  /** What a step uploads. */
  function Sent(s: State, t: State): seq<UploadOp> {
    if s.uploads <= t.uploads then t.uploads[|s.uploads|..] else []
  }

  /** The step did no more than upload, use up the path's echo and take candidates. */
  predicate OnlySent(s: State, t: State, path: Path) {
    && s.uploads <= t.uploads && t.candidates.Keys <= s.candidates.Keys
    && t == s.(uploads := t.uploads, candidates := t.candidates, echo := s.echo - {path})
  }

  lemma UploadCarries(cfg: Config, path: Path, look: FileLook, base: SyncEntry, hasBase: bool)
    requires ValidConfig(cfg) && look.content.Some?
    ensures Carries(cfg, FileUpload(path, FactsOf(cfg, look).value, look, base, hasBase), path, look, base, hasBase)
  {
    hide ChunkHashes;
  }

  lemma FactsSeen(cfg: Config, look: FileLook)
    requires ValidConfig(cfg)
    ensures FactsOf(cfg, look).Some? <==> look.content.Some?
    ensures look.content.Some? ==>
              var f := FactsOf(cfg, look).value; f.hash == HashSeen(cfg, look) && f.size == SizeSeen(cfg, look)
  {
  }

  lemma TakenAreFewer(c: map<Key, Candidate>, order: seq<Key>, key: Key, rel: Path, kind: Kind, hasStored: bool, now: int)
    ensures TakeFor(c, order, key, rel, kind, hasStored, now).candidates.Keys <= c.Keys
  {
    var k := TakeForFrom(c, order, key, rel, kind, hasStored, now);
    hide TakeFor;
  }

  /**
   A local file that continues no remembered deletion is uploaded exactly if it is readable,
   within the limit, off its baseline and no echo; the upload carries it as it was seen.
   */
  lemma FileOffBaselineIsUploaded(cfg: Config, s: State, path: Path, look: FileLook, order: seq<Key>, now: int)
    requires ValidConfig(cfg) && Enumerates(order, s.candidates) && NoKey !in s.candidates
    requires look.content.Some? && look.size <= cfg.maxFileBytes ==>
               !AnyChosen(s.candidates, KeySeen(cfg, look), path, FileKind, path in s.entries, now)
    ensures var t := HandleLocalEvent(cfg, s, path, FileAt(look), order, now);
            && OnlySent(s, t, path)
            && (Sent(s, t) != [] <==> look.content.Some? && look.size <= cfg.maxFileBytes && !AtRest(cfg, s, path, look) &&
                                      !IsEcho(s, path, FileAt(look)))
            && (Sent(s, t) != [] ==>
                  |Sent(s, t)| == 1 && Carries(cfg, Sent(s, t)[0], path, look, StoredAt(s, path), path in s.entries))
  {
    FactsSeen(cfg, look);
    NoEchoIsHandled(cfg, s, path, FileAt(look), order, now);
    hide HandleLocalEvent, IsEcho;
    if look.content.Some? {
      TakesTheChosen(s.candidates, order, KeySeen(cfg, look), path, FileKind, path in s.entries, now);
      TakenAreFewer(s.candidates, order, KeySeen(cfg, look), path, FileKind, path in s.entries, now);
      UploadCarries(cfg, path, look, StoredAt(s, path), path in s.entries);
    }
    hide FactsOf, TakeFor, KeyForLocalFile, FileUpload, RenameFile, AnyChosen, HashSeen, SizeSeen, Carries;
    var t := HandleLocalEvent(cfg, s, path, FileAt(look), order, now);
    assert t.uploads != s.uploads ==> Sent(s, t) == [t.uploads[|s.uploads|]];
  }

  /** The rename continues this deletion at `path`. */
  predicate Continues(op: UploadOp, path: Path, c: Candidate, identity: Identity) {
    && op.kind == UploadRename && op.path == path && op.prevPath == c.path && op.storedEntry == c.entry && op.hasStored
    && op.localIdentity == identity && op.candidateId == c.id
  }

  /** The deleted entry, live at its new place until the rename has landed. */
  predicate Moved(e: SyncEntry, from: SyncEntry, identity: Identity) {
    && e.localIdentity == (if identity == Unknown then from.localIdentity else identity)
    && e == from.(deleted := false, localIdentity := e.localIdentity, lastSyncedAt := e.lastSyncedAt, version := e.version)
  }

  /** The entry records the file as it was seen, over the remote side of the deleted one. */
  predicate Restaged(cfg: Config, e: SyncEntry, look: FileLook, from: SyncEntry)
    requires ValidConfig(cfg) && look.content.Some?
  {
    && e.kind == FileKind && !e.deleted && e.mode == look.perm && e.size == SizeSeen(cfg, look)
    && e.localHash == HashSeen(cfg, look) && e.localIdentity == look.identity && e.localMtimeMs == look.mtimeMs
    && e.remoteHash == from.remoteHash && e.remoteMtimeMs == from.remoteMtimeMs && e.remoteRevision == ""
    && (if look.size > cfg.chunkThreshold then
          e.chunkSize == cfg.chunkSize && e.chunkHashes == ChunkHashes(look.content.value, cfg.chunkSize)
        else e.chunkSize == 0 && e.chunkHashes == [])
  }

  /** The content or the mode is not what the deletion recorded. */
  predicate ChangedSince(cfg: Config, look: FileLook, from: SyncEntry)
    requires ValidConfig(cfg) && look.content.Some?
  {
    HashSeen(cfg, look) != from.localHash || look.perm != from.mode
  }

  /**
   The rename was sent, then the file itself exactly if it changed since; the entry is at the new
   path, under the version that the rename carries.
   */
  ghost predicate SentAsRename(cfg: Config, s: State, t: State, path: Path, c: Candidate, look: FileLook)
    requires ValidConfig(cfg) && look.content.Some?
  {
    var changed := ChangedSince(cfg, look, c.entry);
    && s.uploads <= t.uploads && |Sent(s, t)| == (if changed then 2 else 1)
    && Continues(Sent(s, t)[0], path, c, look.identity) && Sent(s, t)[0].mode == look.perm
    && (changed ==> Carries(cfg, Sent(s, t)[1], path, look, c.entry, true))
    && path in t.entries && t.entries == s.entries[path := t.entries[path]]
    && Sent(s, t)[0].renameVersion == t.entries[path].version
    && (if changed then Restaged(cfg, t.entries[path], look, c.entry) else Moved(t.entries[path], c.entry, look.identity))
  }

  lemma EntryIsRestaged(cfg: Config, look: FileLook, from: SyncEntry, now: int, version: nat)
    requires ValidConfig(cfg) && look.content.Some?
    ensures Restaged(cfg, FileEntry(FactsOf(cfg, look).value, look, from).(lastSyncedAt := now, version := version), look, from)
  {
    hide ChunkHashes;
  }

  lemma RenameFileEffects(cfg: Config, s: State, path: Path, c: Candidate, look: FileLook, now: int)
    requires ValidConfig(cfg) && look.content.Some?
    ensures var t := RenameFile(s, path, c, FactsOf(cfg, look).value, look, now);
            && SentAsRename(cfg, s, t, path, c, look)
            && t.candidates == s.candidates && t.downloads == s.downloads && t.delayed == s.delayed
  {
    FactsSeen(cfg, look);
    UploadCarries(cfg, path, look, c.entry, true);
    EntryIsRestaged(cfg, look, c.entry, now, s.nextVersion + 1);
    var t := RenameFile(s, path, c, FactsOf(cfg, look).value, look, now);
    hide FactsOf, HashSeen, SizeSeen, Carries, FileUpload, FileEntry, Restaged;
    assert t.entries == s.entries[path := t.entries[path]];
    if !ChangedSince(cfg, look, c.entry) {
      hide ChangedSince;
      assert Sent(s, t) == [t.uploads[|s.uploads|]];
    } else {
      hide ChangedSince, Moved;
      assert Sent(s, t) == [t.uploads[|s.uploads|], t.uploads[|s.uploads| + 1]];
    }
  }

  /**
   A local file that continues a remembered deletion is sent as a rename from there, followed by
   its content exactly if that or the mode has changed; the baseline is at the new path at once.
   */
  lemma ContinuedFileIsRenamed(cfg: Config, s: State, path: Path, look: FileLook, order: seq<Key>, now: int, k: Key)
    requires ValidConfig(cfg) && Enumerates(order, s.candidates) && NoKey !in s.candidates
    requires look.content.Some? && look.size <= cfg.maxFileBytes && !IsEcho(s, path, FileAt(look))
    requires k in s.candidates && Chosen(s.candidates, k, KeySeen(cfg, look), path, FileKind, path in s.entries, now)
    ensures var t := HandleLocalEvent(cfg, s, path, FileAt(look), order, now);
            && SentAsRename(cfg, s, t, path, s.candidates[k], look)
            && t.downloads == s.downloads && t.delayed == s.delayed
  {
    FactsSeen(cfg, look);
    TakesTheChosen(s.candidates, order, KeySeen(cfg, look), path, FileKind, path in s.entries, now);
    var taken := TakeFor(s.candidates, order, KeySeen(cfg, look), path, FileKind, path in s.entries, now);
    var u := s.(echo := s.echo - {path}, candidates := taken.candidates);
    NoEchoIsHandled(cfg, s, path, FileAt(look), order, now);
    RenameFileEffects(cfg, u, path, s.candidates[k], look, now);
    hide HandleLocalEvent, IsEcho, FactsOf, TakeFor, KeyForLocalFile, RenameFile, Chosen, HashSeen, SizeSeen, Carries, Continues,
      Moved, Restaged, ChangedSince;
    var t := HandleLocalEvent(cfg, s, path, FileAt(look), order, now);
    assert t == RenameFile(u, path, s.candidates[k], FactsOf(cfg, look).value, look, now);
  }

  /** The entry records a file of this content and mode, hashed as the client hashes its own files. */
  predicate Records(cfg: Config, e: SyncEntry, content: Bytes, mode: nat)
    requires ValidConfig(cfg)
  {
    e.kind == FileKind && e.mode == mode && e.localHash == HashSeen(cfg, FileLook(|content|, mode, Unknown, 0, Some(content)))
  }

  lemma SameHashSameContent(cfg: Config, look: FileLook, other: FileLook)
    requires ValidConfig(cfg) && look.content.Some? && look.size == |look.content.value|
    requires other.content.Some? && other.size == |other.content.value|
    ensures HashSeen(cfg, look) == HashSeen(cfg, other) <==> look.content == other.content
  {
    var a, b := look.content.value, other.content.value;
    RawIsNotComposite(a, b, cfg.chunkSize);
    RawIsNotComposite(b, a, cfg.chunkSize);
    hide ChunkHashes;
    if CompositeHash(ChunkHashes(a, cfg.chunkSize)) == CompositeHash(ChunkHashes(b, cfg.chunkSize)) {
      ManifestDeterminesContent(a, b, cfg.chunkSize);
    }
  }

  /** In terms of the bytes: a file is at rest exactly if it has the content and mode that were recorded. */
  lemma AtRestMeansUnchanged(cfg: Config, s: State, path: Path, look: FileLook, content: Bytes, mode: nat)
    requires ValidConfig(cfg) && look.content.Some? && look.size == |look.content.value|
    requires path in s.entries && Records(cfg, s.entries[path], content, mode)
    ensures AtRest(cfg, s, path, look) <==> look.content.value == content && look.perm == mode
  {
    SameHashSameContent(cfg, look, FileLook(|content|, mode, Unknown, 0, Some(content)));
    hide HashSeen;
  }

  /** The chunks an upload sends, laid over the file that its base recorded, give the local file. */
  lemma SentChunksRebuildTheFile(cfg: Config, op: UploadOp, path: Path, look: FileLook, before: Bytes, chunks: map<nat, Bytes>)
    requires ValidConfig(cfg) && look.content.Some? && op.chunked
    requires Carries(cfg, op, path, look, op.storedEntry, op.hasStored)
    requires op.storedEntry.chunkHashes == ChunkHashes(before, cfg.chunkSize)
    requires forall i: nat :: i in chunks <==> i in op.dirtyChunks
    requires forall i: nat :: i in chunks ==> chunks[i] == ChunkAt(look.content.value, cfg.chunkSize, i)
    ensures Patched(before, chunks, op.chunkSize, op.fileSize) == look.content.value
  {
    var content := look.content.value;
    hide ChunkHashes, ChunkAt, Patched;
    forall i: nat | i in chunks && i < |op.chunkHashes|
      ensures Raw(chunks[i]) == op.chunkHashes[i]
    {
      ManifestIndex(content, cfg.chunkSize, i);
    }
    DeltaEqualsFullCopy(before, content, chunks, cfg.chunkSize, op.fileSize);
  }

  // ------------------------------------------------------------------
  // Links
  // ------------------------------------------------------------------

  /**
   A local link that continues no remembered deletion is uploaded exactly if the baseline holds
   no link to that target there, and it is no echo.
   */
  lemma LinkOffBaselineIsUploaded(cfg: Config, s: State, path: Path, target: string, identity: Identity, order: seq<Key>, now: int)
    requires ValidConfig(cfg) && Enumerates(order, s.candidates) && NoKey !in s.candidates
    requires !AnyChosen(s.candidates, KeyForLocalSymlink(identity, target), path, SymlinkKind, path in s.entries, now)
    ensures var t := HandleLocalEvent(cfg, s, path, LinkAt(target, identity), order, now);
            && OnlySent(s, t, path)
            && (Sent(s, t) != [] <==> !IsEcho(s, path, LinkAt(target, identity)) &&
                                      !(path in s.entries && s.entries[path].kind == SymlinkKind && s.entries[path].target == target))
            && (Sent(s, t) != [] ==>
                  var op := Sent(s, t)[0];
                  && Sent(s, t) == [op] && op.kind == UploadSymlink && op.path == path && op.symlink == target
                  && op.localIdentity == identity && op.storedEntry == StoredAt(s, path) && op.hasStored == (path in s.entries))
  {
    var key := KeyForLocalSymlink(identity, target);
    TakesTheChosen(s.candidates, order, key, path, SymlinkKind, path in s.entries, now);
    TakenAreFewer(s.candidates, order, key, path, SymlinkKind, path in s.entries, now);
    NoEchoIsHandled(cfg, s, path, LinkAt(target, identity), order, now);
    hide HandleLocalEvent, IsEcho, TakeFor, KeyForLocalSymlink, AnyChosen, Write;
    var t := HandleLocalEvent(cfg, s, path, LinkAt(target, identity), order, now);
    assert t.uploads != s.uploads ==> Sent(s, t) == [t.uploads[|s.uploads|]];
  }

  /** A local link that continues a remembered deletion is sent as a rename from there, with its target. */
  lemma ContinuedLinkIsRenamed(cfg: Config, s: State, path: Path, target: string, identity: Identity, order: seq<Key>, now: int, k: Key)
    requires ValidConfig(cfg) && Enumerates(order, s.candidates) && NoKey !in s.candidates
    requires !IsEcho(s, path, LinkAt(target, identity)) && k in s.candidates
    requires Chosen(s.candidates, k, KeyForLocalSymlink(identity, target), path, SymlinkKind, path in s.entries, now)
    ensures var t, c := HandleLocalEvent(cfg, s, path, LinkAt(target, identity), order, now), s.candidates[k];
            && s.uploads <= t.uploads && |Sent(s, t)| == 1
            && Continues(Sent(s, t)[0], path, c, identity) && Sent(s, t)[0].symlink == target
            && path in t.entries && t.entries == s.entries[path := t.entries[path]]
            && Sent(s, t)[0].renameVersion == t.entries[path].version && Moved(t.entries[path], c.entry, identity)
            && t.downloads == s.downloads && t.delayed == s.delayed
  {
    TakesTheChosen(s.candidates, order, KeyForLocalSymlink(identity, target), path, SymlinkKind, path in s.entries, now);
    NoEchoIsHandled(cfg, s, path, LinkAt(target, identity), order, now);
    hide HandleLocalEvent, IsEcho, TakeFor, KeyForLocalSymlink, Chosen;
    var t := HandleLocalEvent(cfg, s, path, LinkAt(target, identity), order, now);
    assert t.entries == s.entries[path := t.entries[path]];
  }

  // ------------------------------------------------------------------
  // Deletions and directories
  // ------------------------------------------------------------------

  /** The operation deletes `path`, which was `prior`. */
  predicate Deletes(op: UploadOp, path: Path, prior: SyncEntry) {
    op.kind == UploadDelete && op.path == path && op.storedEntry == prior && op.hasStored
  }

  /** The entry is `prior` with a tombstone's mark. */
  predicate Buried(e: SyncEntry, prior: SyncEntry) {
    e == prior.(deleted := true, lastSyncedAt := e.lastSyncedAt, version := e.version)
  }

  /**
   A local deletion of a tracked path leaves its tombstone. It is sent at once if nothing could
   tell the path again elsewhere; otherwise it waits as a rename candidate.
   */
  lemma DeletionIsSentOrWaits(s: State, path: Path, now: int)
    requires path in s.entries
    ensures var t, prior := HandleLocalDelete(s, path, now), s.entries[path];
            var key := CandidateKey(prior);
            && path in t.entries && t.entries == s.entries[path := t.entries[path]] && Buried(t.entries[path], prior)
            && t.downloads == s.downloads
            && (if key == NoKey then
                  && t.delayed == s.delayed && t.candidates == s.candidates
                  && s.uploads <= t.uploads && |Sent(s, t)| == 1 && Deletes(Sent(s, t)[0], path, prior)
                else
                  && t.uploads == s.uploads && |t.delayed| == |s.delayed| + 1 && t.delayed[..|s.delayed|] == s.delayed
                  && Deletes(t.delayed[|s.delayed|].op, path, prior)
                  && t.delayed[|s.delayed|].key == key && t.delayed[|s.delayed|].path == path
                  && key in t.candidates && t.candidates[key].path == path && t.candidates[key].entry == prior
                  && t.candidates[key].recordedAt == now && t.candidates == s.candidates[key := t.candidates[key]])
  {
    hide CandidateKey;
    var t := HandleLocalDelete(s, path, now);
    assert t.entries == s.entries[path := t.entries[path]];
  }

  /** The event of a missing path: an echo or an untracked path does nothing more than use up the echo. */
  lemma MissingPathIsDeleted(cfg: Config, s: State, path: Path, order: seq<Key>, now: int)
    requires ValidConfig(cfg)
    ensures HandleLocalEvent(cfg, s, path, Gone, order, now) ==
            if path in s.entries && !IsEcho(s, path, Gone) then HandleLocalDelete(s.(echo := s.echo - {path}), path, now)
            else s.(echo := s.echo - {path})
  {
  }

  /** Which deletes wait after a step that did not wait before. */
  function Waiting(s: State, t: State): seq<DelayedDelete> {
    if s.delayed <= t.delayed then t.delayed[|s.delayed|..] else []
  }

  /** Each of these operations deletes one of the paths, as it was. */
  ghost predicate AllDelete(ops: seq<UploadOp>, s: State, paths: set<Path>) {
    forall op :: op in ops ==> op.path in paths && op.path in s.entries && Deletes(op, op.path, s.entries[op.path])
  }

  ghost predicate AllWait(waiting: seq<DelayedDelete>, s: State, paths: set<Path>) {
    forall d :: d in waiting ==> d.path in paths && d.path in s.entries && Deletes(d.op, d.path, s.entries[d.path])
  }

  /** Every delete that the step sent or delayed is of one of these paths, as it was. */
  ghost predicate OnlyDeleted(s: State, t: State, paths: set<Path>) {
    && s.uploads <= t.uploads && s.delayed <= t.delayed
    && AllDelete(Sent(s, t), s, paths) && AllWait(Waiting(s, t), s, paths)
  }

  /** The delete of this path was sent, or waits. */
  ghost predicate IsAnnounced(s: State, t: State, p: Path) {
    (exists op :: op in Sent(s, t) && op.path == p) || exists d :: d in Waiting(s, t) && d.path == p
  }

  /** The step announced the deletion of exactly these paths, each as it was, at once or waiting. */
  ghost predicate Announced(s: State, t: State, paths: set<Path>) {
    OnlyDeleted(s, t, paths) && forall p :: p in paths ==> IsAnnounced(s, t, p)
  }

  /** The second of two steps sent or delayed one delete more. */
  predicate OneMore(t: State, u: State, path: Path, prior: SyncEntry) {
    || (u.delayed == t.delayed && t.uploads <= u.uploads && |Sent(t, u)| == 1 && Deletes(Sent(t, u)[0], path, prior))
    || (u.uploads == t.uploads && t.delayed <= u.delayed && |Waiting(t, u)| == 1 &&
        Waiting(t, u)[0].path == path && Deletes(Waiting(t, u)[0].op, path, prior))
  }

  lemma DeletionIsOneMore(t: State, path: Path, now: int)
    requires path in t.entries
    ensures OneMore(t, HandleLocalDelete(t, path, now), path, t.entries[path])
  {
    DeletionIsSentOrWaits(t, path, now);
    hide HandleLocalDelete, CandidateKey;
  }

  lemma OneMoreDelete(ops: seq<UploadOp>, op: UploadOp, s: State, paths: set<Path>, path: Path)
    requires AllDelete(ops, s, paths) && path in s.entries && Deletes(op, path, s.entries[path])
    ensures AllDelete(ops + [op], s, paths + {path})
  {
    assert op.path == path;
    hide Deletes;
  }

  lemma OneMoreWaits(waiting: seq<DelayedDelete>, d: DelayedDelete, s: State, paths: set<Path>, path: Path)
    requires AllWait(waiting, s, paths) && path in s.entries && d.path == path && Deletes(d.op, path, s.entries[path])
    ensures AllWait(waiting + [d], s, paths + {path})
  {
    hide Deletes;
  }

  lemma SentOneMore(s: State, t: State, u: State, paths: set<Path>, path: Path)
    requires OnlyDeleted(s, t, paths) && path in s.entries && u.delayed == t.delayed && t.uploads <= u.uploads
    requires |Sent(t, u)| == 1 && Deletes(Sent(t, u)[0], path, s.entries[path])
    ensures OnlyDeleted(s, u, paths + {path}) && IsAnnounced(s, u, path)
  {
    SinceTheFirst(s, t, u);
    OneMoreDelete(Sent(s, t), Sent(t, u)[0], s, paths, path);
    assert Sent(t, u) == [Sent(t, u)[0]] && Waiting(t, u) == [];
    assert Sent(t, u)[0].path == path && Sent(t, u)[0] in Sent(s, u);
    hide Sent, Deletes, AllDelete;
  }

  lemma WaitsOneMore(s: State, t: State, u: State, paths: set<Path>, path: Path)
    requires OnlyDeleted(s, t, paths) && path in s.entries && u.uploads == t.uploads && t.delayed <= u.delayed
    requires |Waiting(t, u)| == 1 && Waiting(t, u)[0].path == path && Deletes(Waiting(t, u)[0].op, path, s.entries[path])
    ensures OnlyDeleted(s, u, paths + {path}) && IsAnnounced(s, u, path)
  {
    SinceTheFirst(s, t, u);
    OneMoreWaits(Waiting(s, t), Waiting(t, u)[0], s, paths, path);
    assert Waiting(t, u) == [Waiting(t, u)[0]] && Sent(t, u) == [];
    assert Waiting(t, u)[0] in Waiting(s, u);
    hide Waiting, Deletes, AllWait;
  }

  lemma AnnouncedStays(s: State, t: State, u: State, p: Path)
    requires s.uploads <= t.uploads <= u.uploads && s.delayed <= t.delayed <= u.delayed && IsAnnounced(s, t, p)
    ensures IsAnnounced(s, u, p)
  {
    SinceTheFirst(s, t, u);
    if op :| op in Sent(s, t) && op.path == p {
      assert op in Sent(s, u);
    } else {
      var d :| d in Waiting(s, t) && d.path == p;
      assert d in Waiting(s, u);
    }
  }

  lemma OneMoreAnnounced(s: State, t: State, u: State, paths: set<Path>, path: Path)
    requires Announced(s, t, paths) && path in s.entries && OneMore(t, u, path, s.entries[path])
    ensures Announced(s, u, paths + {path})
  {
    assert t.uploads <= u.uploads && t.delayed <= u.delayed && s.uploads <= t.uploads && s.delayed <= t.delayed;
    if u.delayed == t.delayed && |Sent(t, u)| == 1 && Deletes(Sent(t, u)[0], path, s.entries[path]) {
      SentOneMore(s, t, u, paths, path);
    } else {
      WaitsOneMore(s, t, u, paths, path);
    }
    hide OnlyDeleted, OneMore;
    forall p | p in paths
      ensures IsAnnounced(s, u, p)
    {
      AnnouncedStays(s, t, u, p);
    }
    hide IsAnnounced;
  }

  lemma SinceTheFirst(s: State, t: State, u: State)
    requires s.uploads <= t.uploads <= u.uploads && s.delayed <= t.delayed <= u.delayed
    ensures Sent(s, u) == Sent(s, t) + Sent(t, u) && Waiting(s, u) == Waiting(s, t) + Waiting(t, u)
    ensures (t.uploads == u.uploads ==> Sent(t, u) == []) && (t.delayed == u.delayed ==> Waiting(t, u) == [])
  {
  }

  predicate EachOnce(paths: seq<Path>) {
    forall i, j :: 0 <= i < j < |paths| ==> paths[i] != paths[j]
  }

  lemma {:induction false} DeleteAllAnnounces(s: State, paths: seq<Path>, now: int)
    requires EachOnce(paths) && forall p :: p in paths ==> p in s.entries
    ensures Announced(s, DeleteAll(s, paths, now), set p | p in paths)
    decreases |paths|
  {
    hide HandleLocalDelete, Announced, OneMore;
    if paths == [] {
      NothingAnnounced(s);
      assert (set p | p in paths) == {};
    } else {
      var n := |paths| - 1;
      DeleteAllAnnounces(s, paths[..n], now);
      DeleteAllTombstones(s, paths[..n], now, paths[n]);
      var t := DeleteAll(s, paths[..n], now);
      DeletionIsOneMore(t, paths[n], now);
      OneMoreAnnounced(s, t, DeleteAll(s, paths, now), (set p | p in paths[..n]), paths[n]);
      assert (set p | p in paths) == (set p | p in paths[..n]) + {paths[n]};
    }
  }

  lemma NothingAnnounced(s: State)
    ensures Announced(s, s, {})
  {
  }

  lemma {:induction false} MissingAreDistinct(entries: map<Path, SyncEntry>, dir: Path, scan: Scan)
    requires EachOnce(scan.order)
    ensures EachOnce(MissingFiles(entries, dir, scan))
    decreases |scan.order|
  {
    hide MissingBelow;
    if scan.order != [] {
      var n := |scan.order| - 1;
      var front := MissingFiles(entries, dir, scan.(order := scan.order[..n]));
      MissingAreDistinct(entries, dir, scan.(order := scan.order[..n]));
      assert scan.order[n] !in scan.order[..n];
      forall i | 0 <= i < |front|
        ensures front[i] != scan.order[n]
      {
        assert front[i] in front;
      }
      var missing := MissingFiles(entries, dir, scan);
      assert missing == front || missing == front + [scan.order[n]];
    }
  }

  /** The live tracked paths below a directory, but for directories, that a scan did not find. */
  ghost function Vanished(s: State, dir: Path, scan: Scan): set<Path> {
    set p | p in s.entries && !s.entries[p].deleted && s.entries[p].kind != DirKind && Under(dir, p) && p in scan.gone
  }

  ghost function VanishedLinks(s: State, scan: Scan): set<Path> {
    set p | p in s.entries && !s.entries[p].deleted && s.entries[p].kind == SymlinkKind && p in scan.gone
  }

  lemma {:induction false} MissingLinksAreDistinct(entries: map<Path, SyncEntry>, scan: Scan)
    requires EachOnce(scan.order)
    ensures EachOnce(MissingLinks(entries, scan))
    decreases |scan.order|
  {
    hide MissingLink;
    if scan.order != [] {
      var n := |scan.order| - 1;
      var front := MissingLinks(entries, scan.(order := scan.order[..n]));
      MissingLinksAreDistinct(entries, scan.(order := scan.order[..n]));
      assert scan.order[n] !in scan.order[..n];
      forall i | 0 <= i < |front|
        ensures front[i] != scan.order[n]
      {
        assert front[i] in front;
      }
      var missing := MissingLinks(entries, scan);
      assert missing == front || missing == front + [scan.order[n]];
    }
  }

  /** The sweep announces the deletion of exactly the live tracked links that are gone, and buries exactly those. */
  lemma LinkSweepSends(cfg: Config, s: State, scan: Scan, now: int, p: Path)
    requires ValidConfig(cfg) && Scans(scan, s.entries) && p in s.entries
    ensures var t := Step(cfg, s, SweepSymlinks(scan), now);
            && Announced(s, t, VanishedLinks(s, scan)) && t.downloads == s.downloads
            && p in t.entries && (p !in VanishedLinks(s, scan) ==> t.entries[p] == s.entries[p])
            && (t.entries[p].deleted <==> s.entries[p].deleted || p in VanishedLinks(s, scan))
  {
    var missing := MissingLinks(s.entries, scan);
    MissingLinksAreDistinct(s.entries, scan);
    DeleteAllAnnounces(s, missing, now);
    DeleteAllTombstones(s, missing, now, p);
    DeleteAllQueuesNoDownload(s, missing, now);
    assert (set q | q in missing) == VanishedLinks(s, scan);
    hide DeleteAll, Announced;
  }

  /**
   The event of a directory announces the deletion of exactly the tracked files and links below it
   that are gone, and then sends the directory, unless the baseline has one there.
   */
  lemma DirectoryEventSends(cfg: Config, s: State, path: Path, perm: nat, scan: Scan, order: seq<Key>, now: int)
    requires ValidConfig(cfg) && Scans(scan, s.entries) && !IsEcho(s, path, DirAt(perm, scan))
    ensures var t := HandleLocalEvent(cfg, s, path, DirAt(perm, scan), order, now);
            if path in s.entries && s.entries[path].kind == DirKind then Announced(s, t, Vanished(s, path, scan))
            else
              && s.uploads < t.uploads
              && Announced(s, t.(uploads := t.uploads[..|t.uploads| - 1]), Vanished(s, path, scan))
              && var op := t.uploads[|t.uploads| - 1];
                 && op.kind == UploadMkdir && op.path == path && op.mode == perm
                 && op.storedEntry == StoredAt(s, path) && op.hasStored == (path in s.entries)
  {
    var u := s.(echo := s.echo - {path});
    var missing := MissingFiles(s.entries, path, scan);
    NoEchoIsHandled(cfg, s, path, DirAt(perm, scan), order, now);
    MissingAreDistinct(s.entries, path, scan);
    DeleteAllAnnounces(u, missing, now);
    assert (set p | p in missing) == Vanished(s, path, scan);
    AnnouncedAfterEcho(s, u, DeleteAll(u, missing, now), Vanished(s, path, scan));
    hide HandleLocalEvent, IsEcho, DeleteAll, MissingFiles, Vanished;
    var t := HandleLocalEvent(cfg, s, path, DirAt(perm, scan), order, now);
    var done := DeleteAll(u, missing, now);
    if !(path in s.entries && s.entries[path].kind == DirKind) {
      assert t.uploads[..|t.uploads| - 1] == done.uploads && s.uploads <= done.uploads;
      assert t.(uploads := t.uploads[..|t.uploads| - 1]) == done;
    }
  }

  lemma AnnouncedAfterEcho(s: State, u: State, t: State, paths: set<Path>)
    requires u.uploads == s.uploads && u.delayed == s.delayed && u.entries == s.entries
    requires Announced(u, t, paths)
    ensures Announced(s, t, paths)
  {
    assert Sent(u, t) == Sent(s, t) && Waiting(u, t) == Waiting(s, t);
  }

  // ------------------------------------------------------------------
  // Which deletion a path continues
  // ------------------------------------------------------------------

  /** A file has the key of a deleted entry: the same inode, or, where neither is known, the same hash and size. */
  lemma FileKeysMeet(e: SyncEntry, identity: Identity, hash: Digest, size: nat)
    ensures CandidateKey(e) == KeyForLocalFile(identity, hash, size) != NoKey <==>
            e.kind == FileKind && e.localIdentity == identity &&
            (identity == Unknown ==> e.localHash == hash != NoHash && e.size == size)
  {
  }

  lemma LinkKeysMeet(e: SyncEntry, identity: Identity, target: string)
    ensures CandidateKey(e) == KeyForLocalSymlink(identity, target) != NoKey <==>
            e.kind == SymlinkKind && e.localIdentity == identity && (identity == Unknown ==> e.target == target != "")
  {
  }

  /** Two deletions have one key: the same kind and inode, or, without inodes, the same content or target. */
  lemma DeletionKeysMeet(a: SyncEntry, b: SyncEntry)
    ensures CandidateKey(a) == CandidateKey(b) != NoKey <==>
            a.kind == b.kind && a.localIdentity == b.localIdentity &&
            (a.localIdentity == Unknown ==>
               || (a.kind == FileKind && a.localHash == b.localHash != NoHash && a.size == b.size)
               || (a.kind == SymlinkKind && a.target == b.target != ""))
  {
  }

  /** The directory of a path is what stands before its last slash. */
  lemma {:induction false} DirectoryOfChild(dir: Path, name: string)
    requires '/' !in name
    ensures DirOf(dir + "/" + name) == dir && DirOf(name) == "."
    decreases |name|
  {
    var p := dir + "/" + name;
    if name == "" {
      assert p == dir + "/" && p[..|p| - 1] == dir;
    } else {
      var n := |name| - 1;
      DirectoryOfChild(dir, name[..n]);
      assert p[..|p| - 1] == dir + "/" + name[..n] && p[|p| - 1] == name[n];
    }
  }

  /** A deletion fits a new path of its kind if it left the same directory under another name, and only then. */
  lemma SiblingsFit(c: Candidate, dir: Path, name: string, newDir: Path, newName: string, kind: Kind)
    requires '/' !in name && '/' !in newName && c.path == dir + "/" + name
    ensures Fits(c, newDir + "/" + newName, kind) <==> c.entry.kind == kind && dir == newDir && name != newName
  {
    DirectoryOfChild(dir, name);
    DirectoryOfChild(newDir, newName);
    if dir == newDir && c.path == newDir + "/" + newName {
      assert name == c.path[|dir| + 1..] == newName;
    }
    hide DirOf;
  }

  /** Only a deletion of the last five seconds is continued; one under the path's own key always is. */
  lemma ChosenWithinFiveSeconds(c: map<Key, Candidate>, k: Key, key: Key, rel: Path, kind: Kind, hasStored: bool, now: int)
    requires k in c
    ensures Chosen(c, k, key, rel, kind, hasStored, now) ==> now <= c[k].recordedAt + 5000
    ensures k == key && now <= c[k].recordedAt + 5000 ==> Chosen(c, k, key, rel, kind, hasStored, now)
  {
    hide Fits;
  }

  // ------------------------------------------------------------------
  // Below a directory
  // ------------------------------------------------------------------

  /** What is below a directory begins with its path, one slash at the end or not, and a slash. */
  lemma UnderMeansBelow(dir: Path, p: Path)
    ensures Under(".", p)
    ensures dir != "." && (dir == "" || dir[|dir| - 1] != '/') ==>
              (Under(dir, p) <==> exists rest: Path :: p == dir + "/" + rest) && (Under(dir + "/", p) <==> Under(dir, p))
  {
    var d := dir + "/";
    if dir != "." && (dir == "" || dir[|dir| - 1] != '/') {
      assert d[|d| - 1] == '/' && d[..|d| - 1] == dir && d != ".";
      if d <= p {
        assert p == d + p[|d|..];
      }
    }
  }

  // ------------------------------------------------------------------
  // Deleted and created anew
  // ------------------------------------------------------------------

  /**
   A file is deleted, and one with another inode appears at the path before the delayed delete is
   sent. The new file is uploaded exactly if its content or mode differs from what the deletion
   recorded; the tombstone stays and the delete is sent after that in either case. So a file put
   back unchanged is sent by none of these steps: what helps it is that the uploader skips the
   delete of a path it finds, and a skipped result asks for a full sweep.
   */
  lemma FilePutBackIsLeftToTheSweep(cfg: Config, s: State, path: Path, look: FileLook, order: seq<Key>, t0: int, t1: int,
                                    answer: UploadResult, found: LocalLook, t2: int)
    requires ValidConfig(cfg) && path in s.entries && s.entries[path].kind == FileKind && NoKey !in s.candidates
    requires CandidateKey(s.entries[path]) != NoKey && path !in s.echo
    requires look.content.Some? && look.size <= cfg.maxFileBytes
    requires Enumerates(order, HandleLocalDelete(s, path, t0).candidates)
    requires KeySeen(cfg, look) !in s.candidates && KeySeen(cfg, look) != CandidateKey(s.entries[path])
    requires answer.skipped && Deletes(answer.op, path, s.entries[path])
    ensures var gone := HandleLocalDelete(s, path, t0);
            var back := HandleLocalEvent(cfg, gone, path, FileAt(look), order, t1);
            && |s.delayed| < |back.delayed| && path in back.entries && back.entries[path].deleted
            && gone.uploads == s.uploads <= back.uploads && path in gone.entries
            && (if ChangedSince(cfg, look, s.entries[path]) then
                  |Sent(gone, back)| == 1 && Carries(cfg, Sent(gone, back)[0], path, look, gone.entries[path], true)
                else back.uploads == gone.uploads)
            && var fired := FireDelayedDelete(back, |s.delayed|);
               && fired.uploads == back.uploads + [back.delayed[|s.delayed|].op]
               && Deletes(back.delayed[|s.delayed|].op, path, s.entries[path])
               && HandleUploadResult(fired, answer, found, t2) == fired.(sweeps := fired.sweeps + 1)
  {
    var gone := HandleLocalDelete(s, path, t0);
    DeletionIsSentOrWaits(s, path, t0);
    DeleteIsLeftAlone(s, path, t0);
    hide HandleLocalDelete, CandidateKey;
    var back := HandleLocalEvent(cfg, gone, path, FileAt(look), order, t1);
    FileOffBaselineIsUploaded(cfg, gone, path, look, order, t1);
    KnownPathTakesByKeyOnly(cfg, gone, path, look, order, t1);
    TimerSendsWhilePending(back, |s.delayed|);
    hide HandleLocalEvent, FireDelayedDelete, Carries, HashSeen, KeySeen, ApplyUpload, UploadResultObsolete;
  }

  lemma KnownPathTakesByKeyOnly(cfg: Config, s: State, path: Path, look: FileLook, order: seq<Key>, now: int)
    requires ValidConfig(cfg) && look.content.Some? && path in s.entries && KeySeen(cfg, look) !in s.candidates
    ensures HandleLocalEvent(cfg, s, path, FileAt(look), order, now).candidates == s.candidates
  {
    FactsSeen(cfg, look);
    NoEchoIsHandled(cfg, s, path, FileAt(look), order, now);
    hide HandleLocalEvent, IsEcho, FactsOf, KeyForLocalFile, ScanFallback, FileUpload, HashSeen, SizeSeen;
  }
}
