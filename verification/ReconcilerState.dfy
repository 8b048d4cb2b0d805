/**
 The reconciler's handlers as functions on its state. The state also keeps a history that the
 program does not need: every version handed out with the entry it was handed to, and every
 deletion remembered as a possible rename source.
 */
module ReconcilerState {
  import opened ByteStrings
  import opened Digests
  import opened SyncTypes
  import opened ChunkDelta
  import D = Downloads

  type Path = string

  datatype Config = Config(maxFileBytes: nat, chunkSize: nat, chunkThreshold: nat)

  ghost predicate ValidConfig(cfg: Config) {
    cfg.chunkSize > 0
  }

  // ------------------------------------------------------------------
  // Rename candidates
  // ------------------------------------------------------------------

  datatype Key = NoKey | InodeKey(kind: Kind, identity: Identity) | HashKey(hash: Digest, size: nat) | LinkKey(target: string)

  datatype Candidate = Candidate(path: Path, entry: SyncEntry, recordedAt: int, id: nat)

  datatype Deletion = Deletion(path: Path, entry: SyncEntry)

  const CANDIDATE_LIFETIME_MS: int := 5000

  function CandidateKey(e: SyncEntry): Key {
    if e.localIdentity != Unknown then InodeKey(e.kind, e.localIdentity)
    else match e.kind
      case FileKind => if e.localHash != NoHash then HashKey(e.localHash, e.size) else NoKey
      case SymlinkKind => if e.target != "" then LinkKey(e.target) else NoKey
      case _ => NoKey
  }

  function KeyForLocalFile(identity: Identity, hash: Digest, size: nat): Key {
    if identity != Unknown then InodeKey(FileKind, identity)
    else if hash != NoHash then HashKey(hash, size)
    else NoKey
  }

  function KeyForLocalSymlink(identity: Identity, target: string): Key {
    if identity != Unknown then InodeKey(SymlinkKind, identity)
    else if target != "" then LinkKey(target)
    else NoKey
  }

  /** The directory part of a slash-separated path. */
  function DirOf(path: Path): Path {
    if path == "" then "."
    else if path[|path| - 1] == '/' then path[..|path| - 1]
    else DirOf(path[..|path| - 1])
  }

  // ------------------------------------------------------------------
  // Queued work
  // ------------------------------------------------------------------

  datatype UploadKind = UploadFile | UploadSymlink | UploadMkdir | UploadDelete | UploadChmod | UploadRename

  /** `candidateId` tells which remembered deletion a rename was made from. */
  datatype UploadOp = UploadOp(
    kind: UploadKind,
    path: Path,
    prevPath: Path,
    content: Bytes,
    mode: nat,
    symlink: string,
    localHash: Digest,
    localIdentity: Identity,
    localMtimeMs: int,
    storedEntry: SyncEntry,
    hasStored: bool,
    renameVersion: nat,
    candidateId: nat,
    chunked: bool,
    fileSize: nat,
    chunkSize: nat,
    chunkHashes: seq<Digest>,
    dirtyChunks: seq<nat>)

  const NO_OP := UploadOp(UploadMkdir, "", "", [], 0, "", NoHash, Unknown, 0, EMPTY_ENTRY, false, 0, 0, false, 0, 0, [], [])

  /** A delete upload waits a moment for the deletion to turn out to be half of a rename. */
  datatype DelayedDelete = DelayedDelete(op: UploadOp, key: Key, path: Path)

  /** `writes` and `deletions` are history; `uploads` and `downloads` list all that was ever queued. */
  datatype State = State(
    entries: map<Path, SyncEntry>,
    nextVersion: nat,
    candidates: map<Key, Candidate>,
    delayed: seq<DelayedDelete>,
    uploads: seq<UploadOp>,
    downloads: seq<D.DownloadOp>,
    echo: map<Path, D.Echo>,
    sweeps: nat,
    writes: map<nat, (Path, SyncEntry)>,
    deletions: seq<Deletion>)

  function StoredAt(s: State, path: Path): SyncEntry {
    if path in s.entries then s.entries[path] else EMPTY_ENTRY
  }

  /** Stores an entry under the next version. */
  function Write(s: State, path: Path, entry: SyncEntry, now: int): State {
    var e := entry.(lastSyncedAt := now, version := s.nextVersion);
    s.(entries := s.entries[path := e], nextVersion := s.nextVersion + 1, writes := s.writes[s.nextVersion := (path, e)])
  }

  function Queue(s: State, op: UploadOp): State {
    s.(uploads := s.uploads + [op])
  }

  function QueueDownload(s: State, op: D.DownloadOp): State {
    s.(downloads := s.downloads + [op])
  }

  function Sweep(s: State): State {
    s.(sweeps := s.sweeps + 1)
  }

  // ------------------------------------------------------------------
  // Taking a candidate
  // ------------------------------------------------------------------

  predicate Expired(c: Candidate, now: int) {
    now - c.recordedAt > CANDIDATE_LIFETIME_MS
  }

  datatype Taken = Taken(candidates: map<Key, Candidate>, candidate: Option<Candidate>)

  function TakeCandidate(c: map<Key, Candidate>, key: Key, now: int): Taken {
    if key == NoKey || key !in c then Taken(c, None)
    else Taken(c - {key}, if Expired(c[key], now) then None else Some(c[key]))
  }

  /** A live candidate of the wanted kind that left the directory of `rel` under another name. */
  predicate Fits(c: Candidate, rel: Path, kind: Kind) {
    c.entry.kind == kind && c.path != rel && DirOf(c.path) == DirOf(rel)
  }

  /** The scan visits the candidates in some order, drops expired ones, and gives up at a second fit. */
  function ScanFallback(c: map<Key, Candidate>, order: seq<Key>, rel: Path, kind: Kind, now: int, found: Option<Key>): Taken
    requires found.Some? ==> found.value in c
  {
    if order == [] then
      if found.Some? then Taken(c - {found.value}, Some(c[found.value])) else Taken(c, None)
    else
      var k, rest := order[0], order[1..];
      if k !in c || found == Some(k) then ScanFallback(c, rest, rel, kind, now, found)
      else if Expired(c[k], now) then ScanFallback(c - {k}, rest, rel, kind, now, found)
      else if !Fits(c[k], rel, kind) then ScanFallback(c, rest, rel, kind, now, found)
      else if found.Some? then Taken(c, None)
      else ScanFallback(c, rest, rel, kind, now, Some(k))
  }

  function TakeFor(c: map<Key, Candidate>, order: seq<Key>, key: Key, rel: Path, kind: Kind, hasStored: bool, now: int): Taken {
    var byKey := TakeCandidate(c, key, now);
    if byKey.candidate.Some? || hasStored then byKey
    else ScanFallback(byKey.candidates, order, rel, kind, now, None)
  }

  // ------------------------------------------------------------------
  // Local events
  // ------------------------------------------------------------------

  /** What the handler sees of a local file; `content` is missing when it cannot be read. */
  datatype FileLook = FileLook(size: nat, perm: nat, identity: Identity, mtimeMs: int, content: Option<Bytes>)

  /** A look at every tracked path, in the order the map yields them: `gone` is what lstat does not find. */
  datatype Scan = Scan(order: seq<Path>, gone: set<Path>)

  datatype LocalLook =
    | Gone
    | FileAt(look: FileLook)
    | LinkAt(target: string, identity: Identity)
    | DirAt(perm: nat, scan: Scan)
    | OtherAt

  datatype Facts = Facts(hash: Digest, size: nat, chunked: bool, chunkSize: nat, chunkHashes: seq<Digest>, content: Bytes)

  /** What is recorded of a file: its manifest above the threshold, its content below. */
  function FactsOf(cfg: Config, look: FileLook): Option<Facts>
    requires ValidConfig(cfg)
  {
    if look.content.None? then None
    else if look.size > cfg.chunkThreshold then
      var hashes := ChunkHashes(look.content.value, cfg.chunkSize);
      Some(Facts(CompositeHash(hashes), |look.content.value|, true, cfg.chunkSize, hashes, []))
    else Some(Facts(Raw(look.content.value), look.size, false, 0, [], look.content.value))
  }

  function FileEntry(f: Facts, look: FileLook, from: SyncEntry): SyncEntry {
    EMPTY_ENTRY.(kind := FileKind, mode := look.perm, size := f.size, localHash := f.hash, localIdentity := look.identity,
                 remoteHash := from.remoteHash, localMtimeMs := look.mtimeMs, remoteMtimeMs := from.remoteMtimeMs,
                 chunkSize := f.chunkSize, chunkHashes := f.chunkHashes)
  }

  function FileUpload(path: Path, f: Facts, look: FileLook, stored: SyncEntry, hasStored: bool): UploadOp {
    NO_OP.(kind := UploadFile, path := path, content := f.content, mode := look.perm, localHash := f.hash,
           localIdentity := look.identity, localMtimeMs := look.mtimeMs, storedEntry := stored, hasStored := hasStored,
           chunked := f.chunked, fileSize := if f.chunked then f.size else 0, chunkSize := f.chunkSize,
           chunkHashes := f.chunkHashes, dirtyChunks := DirtyChunks(if f.chunked then stored.chunkHashes else [], f.chunkHashes))
  }

  function RenameUpload(path: Path, c: Candidate, version: nat, mode: nat, symlink: string, identity: Identity, mtimeMs: int): UploadOp {
    NO_OP.(kind := UploadRename, path := path, prevPath := c.path, mode := mode, symlink := symlink,
           localHash := if c.entry.kind == FileKind then c.entry.localHash else NoHash,
           localIdentity := identity, localMtimeMs := mtimeMs, storedEntry := c.entry, hasStored := true,
           renameVersion := version, candidateId := c.id)
  }

  /** The source's baseline, moved to the destination until the rename has landed. */
  function PendingRename(c: Candidate, identity: Identity): SyncEntry {
    c.entry.(deleted := false, localIdentity := DefaultIdentity(identity, c.entry.localIdentity))
  }

  function RenameFile(s: State, path: Path, c: Candidate, f: Facts, look: FileLook, now: int): State {
    var installed := Write(s, path, PendingRename(c, look.identity), now);
    if f.hash != c.entry.localHash || look.perm != c.entry.mode then
      var staged := Write(installed, path, FileEntry(f, look, c.entry), now);
      Queue(Queue(staged, RenameUpload(path, c, installed.nextVersion, look.perm, "", look.identity, look.mtimeMs)),
            FileUpload(path, f, look, c.entry, true))
    else
      Queue(installed, RenameUpload(path, c, s.nextVersion, look.perm, "", look.identity, look.mtimeMs))
  }

  function HandleLocalFile(cfg: Config, s: State, path: Path, look: FileLook, order: seq<Key>, now: int): State
    requires ValidConfig(cfg)
  {
    var facts := FactsOf(cfg, look);
    if look.size > cfg.maxFileBytes || facts.None? then s
    else
      var f, hasStored, stored := facts.value, path in s.entries, StoredAt(s, path);
      var taken := TakeFor(s.candidates, order, KeyForLocalFile(look.identity, f.hash, f.size), path, FileKind, hasStored, now);
      var t := s.(candidates := taken.candidates);
      if taken.candidate.Some? then RenameFile(t, path, taken.candidate.value, f, look, now)
      else if hasStored && stored.localHash == f.hash && stored.kind == FileKind && stored.mode == look.perm then t
      else Queue(t, FileUpload(path, f, look, stored, hasStored))
  }

  function HandleLocalSymlink(s: State, path: Path, target: string, identity: Identity, order: seq<Key>, now: int): State {
    var hasStored, stored := path in s.entries, StoredAt(s, path);
    var taken := TakeFor(s.candidates, order, KeyForLocalSymlink(identity, target), path, SymlinkKind, hasStored, now);
    var t := s.(candidates := taken.candidates);
    if taken.candidate.Some? then
      var c := taken.candidate.value;
      Queue(Write(t, path, PendingRename(c, identity), now), RenameUpload(path, c, t.nextVersion, 0, target, identity, 0))
    else if hasStored && stored.kind == SymlinkKind && stored.target == target then t
    else Queue(t, NO_OP.(kind := UploadSymlink, path := path, symlink := target, localIdentity := identity,
                         storedEntry := stored, hasStored := hasStored))
  }

  function DeleteUpload(path: Path, prior: SyncEntry): UploadOp {
    NO_OP.(kind := UploadDelete, path := path, storedEntry := prior, hasStored := true)
  }

  /** Remembers a deletion as a possible rename source; an earlier one with the same key is forgotten. */
  function Remember(s: State, path: Path, prior: SyncEntry, key: Key, now: int): State {
    s.(candidates := s.candidates[key := Candidate(path, prior, now, |s.deletions|)],
       deletions := s.deletions + [Deletion(path, prior)],
       delayed := s.delayed + [DelayedDelete(DeleteUpload(path, prior), key, path)])
  }

  function HandleLocalDelete(s: State, path: Path, now: int): State {
    if path !in s.entries then s
    else
      var prior := s.entries[path];
      var t := Write(s, path, prior.(deleted := true), now);
      var key := CandidateKey(prior);
      if key == NoKey then Queue(t, DeleteUpload(path, prior)) else Remember(t, path, prior, key, now)
  }

  function DeleteAll(s: State, paths: seq<Path>, now: int): State {
    if paths == [] then s else HandleLocalDelete(DeleteAll(s, paths[..|paths| - 1], now), paths[|paths| - 1], now)
  }

  predicate Under(dir: Path, p: Path) {
    dir == "." || (if dir != "" && dir[|dir| - 1] == '/' then dir[..|dir| - 1] else dir) + "/" <= p
  }

  /** A live tracked path below the directory, no directory itself, that is gone. */
  predicate MissingBelow(entries: map<Path, SyncEntry>, dir: Path, gone: set<Path>, p: Path) {
    p in entries && !entries[p].deleted && entries[p].kind != DirKind && Under(dir, p) && p in gone
  }

  function MissingFiles(entries: map<Path, SyncEntry>, dir: Path, scan: Scan): (missing: seq<Path>)
    ensures forall p :: p in missing <==> p in scan.order && MissingBelow(entries, dir, scan.gone, p)
    decreases |scan.order|
  {
    if scan.order == [] then []
    else
      var n := |scan.order| - 1;
      var front := MissingFiles(entries, dir, scan.(order := scan.order[..n]));
      if MissingBelow(entries, dir, scan.gone, scan.order[n]) then front + [scan.order[n]] else front
  }

  predicate MissingLink(entries: map<Path, SyncEntry>, gone: set<Path>, p: Path) {
    p in entries && !entries[p].deleted && entries[p].kind == SymlinkKind && p in gone
  }

  function MissingLinks(entries: map<Path, SyncEntry>, scan: Scan): (missing: seq<Path>)
    ensures forall p :: p in missing <==> p in scan.order && MissingLink(entries, scan.gone, p)
    decreases |scan.order|
  {
    if scan.order == [] then []
    else
      var n := |scan.order| - 1;
      var front := MissingLinks(entries, scan.(order := scan.order[..n]));
      if MissingLink(entries, scan.gone, scan.order[n]) then front + [scan.order[n]] else front
  }

  function HandleLocalDir(s: State, path: Path, perm: nat, scan: Scan, now: int): State {
    var hasStored, stored := path in s.entries, StoredAt(s, path);
    var t := DeleteAll(s, MissingFiles(s.entries, path, scan), now);
    if hasStored && stored.kind == DirKind then t
    else Queue(t, NO_OP.(kind := UploadMkdir, path := path, mode := perm, storedEntry := stored, hasStored := hasStored))
  }

  /** The event is what the downloader itself caused. Content is always hashed whole here. */
  predicate EchoMatches(look: LocalLook, e: D.Echo) {
    match e
    case EchoFile(hash) => look.FileAt? && look.look.content.Some? && Raw(look.look.content.value) == hash
    case EchoSymlink(target) => look.LinkAt? && look.target == target
    case EchoDir => look.DirAt?
    case _ => false
  }

  function ConsumeEcho(s: State, path: Path): State {
    s.(echo := s.echo - {path})
  }

  function HandleLocalEvent(cfg: Config, s: State, path: Path, look: LocalLook, order: seq<Key>, now: int): State
    requires ValidConfig(cfg)
  {
    var e := if path in s.echo then s.echo[path] else D.NoEcho;
    var t := ConsumeEcho(s, path);
    match look
    case Gone => if e.EchoDelete? then t else HandleLocalDelete(t, path, now)
    case FileAt(file) => if EchoMatches(look, e) then t else HandleLocalFile(cfg, t, path, file, order, now)
    case LinkAt(target, identity) => if EchoMatches(look, e) then t else HandleLocalSymlink(t, path, target, identity, order, now)
    case DirAt(perm, scan) => if EchoMatches(look, e) then t else HandleLocalDir(t, path, perm, scan, now)
    case OtherAt => t
  }

  /** The delayed delete is sent if its candidate is still there, under this path. */
  function FireDelayedDelete(s: State, i: nat): State
    requires i < |s.delayed|
  {
    var d := s.delayed[i];
    var t := s.(delayed := s.delayed[..i] + s.delayed[i + 1..]);
    if d.key in s.candidates && s.candidates[d.key].path == d.path then Queue(t, d.op) else t
  }

  // ------------------------------------------------------------------
  // Remote events
  // ------------------------------------------------------------------

  /** What the remote answers: the stat, the stat after the cache was flushed, link target and chunk metadata. */
  datatype RemoteLook = RemoteLook(
    stat: D.Reply<Option<D.RemoteStat>>,
    again: D.Reply<Option<D.RemoteStat>>,
    readlink: D.Reply<string>,
    chunkMeta: D.Reply<(nat, seq<Digest>)>)

  /** Both sides moved off the baseline, as far as a whole-content hash can tell. */
  predicate DetectConflict(hasStored: bool, stored: SyncEntry, look: LocalLook) {
    match look
    case FileAt(file) => hasStored && file.content.Some? && stored.localHash != NoHash && Raw(file.content.value) != stored.localHash
    case LinkAt(target, _) => hasStored && stored.kind == SymlinkKind && stored.target != target
    case _ => false
  }

  const NO_DOWNLOAD := D.DownloadOp(D.DownloadFile, "", 0, "", EMPTY_ENTRY, false, false, false, 0, 0, [], [])

  function DownloadFor(path: Path, stat: D.RemoteStat, stored: SyncEntry, hasStored: bool, conflict: bool, r: RemoteLook):
    Option<D.DownloadOp>
  {
    var base := NO_DOWNLOAD.(path := path, storedEntry := stored, hasStored := hasStored);
    match stat.kind
    case DirKind => Some(base.(kind := D.DownloadMkdir, mode := stat.mode))
    case SymlinkKind =>
      if r.readlink.Failed? then None
      else Some(base.(kind := D.DownloadSymlink, symlink := r.readlink.value, conflict := conflict))
    case FileKind =>
      if r.chunkMeta.Answer? && r.chunkMeta.value.0 > 0 && |r.chunkMeta.value.1| > 0 then
        Some(base.(mode := stat.mode, conflict := conflict, chunked := true, fileSize := stat.size,
                   chunkSize := r.chunkMeta.value.0, chunkHashes := r.chunkMeta.value.1,
                   dirtyChunks := DirtyChunks(stored.chunkHashes, r.chunkMeta.value.1)))
      else Some(base.(mode := stat.mode, conflict := conflict))
    case _ => None
  }

  function HandleRemoteEvent(s: State, path: Path, look: LocalLook, r: RemoteLook, now: int): State {
    var hasStored, stored := path in s.entries, StoredAt(s, path);
    if (hasStored && stored.deleted) || r.stat.Failed? then s
    else
      var gone := r.stat.value.None?;
      if gone && !hasStored then s
      else if gone && !(r.again.Answer? && r.again.value.Some?) then
        QueueDownload(Write(s, path, stored.(deleted := true), now),
                      NO_DOWNLOAD.(kind := D.DownloadDelete, path := path, storedEntry := stored, hasStored := true))
      else
        var stat := if gone then r.again.value.value else r.stat.value.value;
        var op := DownloadFor(path, stat, stored, hasStored, DetectConflict(hasStored, stored, look), r);
        if op.None? then s else QueueDownload(s, op.value)
  }

  // ------------------------------------------------------------------
  // Upload results
  // ------------------------------------------------------------------

  datatype UploadResult = UploadResult(op: UploadOp, err: bool, conflict: bool, skipped: bool, remoteStat: Option<D.RemoteStat>)

  /** A newer baseline that the local file still agrees with must not be replaced by a late result. */
  predicate UploadResultObsolete(s: State, res: UploadResult, look: LocalLook) {
    res.op.path in s.entries &&
    var e := s.entries[res.op.path];
    if e.deleted then true
    else if res.remoteStat.Some? && e.remoteMtimeMs > res.remoteStat.value.mtimeMs then true
    else if e.version == res.op.storedEntry.version || e.remoteHash == NoHash || e.remoteHash == res.op.localHash ||
            e.localHash != e.remoteHash then false
    else
      && look.FileAt? && look.look.size == e.size && look.look.mtimeMs == e.localMtimeMs && look.look.perm == e.mode
      && look.look.content.Some?
      && (if e.chunkSize > 0 then CompositeHash(ChunkHashes(look.look.content.value, e.chunkSize)) == e.localHash
          else Raw(look.look.content.value) == e.localHash)
  }

  function IdentityAt(look: LocalLook): Identity {
    match look
    case FileAt(file) => file.identity
    case LinkAt(_, identity) => identity
    case _ => Unknown
  }

  function WithStat(e: SyncEntry, stat: Option<D.RemoteStat>, localMtimeMs: int): SyncEntry {
    if stat.None? then e
    else e.(remoteMtimeMs := stat.value.mtimeMs, remoteRevision := stat.value.revision, remoteInode := stat.value.inode,
            localMtimeMs := localMtimeMs)
  }

  function StatMtime(stat: Option<D.RemoteStat>): int {
    if stat.Some? then stat.value.mtimeMs else 0
  }

  /** Undoes a rename that did not land: its provisional entry goes, if it is still that one. */
  function RollBackRename(s: State, op: UploadOp): State {
    if op.path in s.entries && !s.entries[op.path].deleted && op.renameVersion != 0 &&
       s.entries[op.path].version == op.renameVersion
    then s.(entries := s.entries - {op.path})
    else s
  }

  function ForgetCandidate(s: State, e: SyncEntry): State {
    s.(candidates := s.candidates - {CandidateKey(e)})
  }

  function TouchEntry(s: State, path: Path, now: int): State {
    if path in s.entries then s.(entries := s.entries[path := s.entries[path].(lastSyncedAt := now)]) else s
  }

  function UploadedFile(op: UploadOp, stat: Option<D.RemoteStat>, identity: Identity): SyncEntry {
    WithStat(EMPTY_ENTRY.(kind := FileKind, mode := op.mode, size := if op.chunked then op.fileSize else |op.content|,
                          localHash := op.localHash, localIdentity := DefaultIdentity(identity, op.storedEntry.localIdentity),
                          remoteHash := op.localHash, chunkSize := op.chunkSize, chunkHashes := op.chunkHashes),
             stat, op.localMtimeMs)
  }

  function UploadedSymlink(op: UploadOp, stat: Option<D.RemoteStat>, identity: Identity): SyncEntry {
    WithStat(EMPTY_ENTRY.(kind := SymlinkKind, target := op.symlink,
                          localIdentity := DefaultIdentity(identity, op.storedEntry.localIdentity)),
             stat, StatMtime(stat))
  }

  function RenamedEntry(op: UploadOp, stat: Option<D.RemoteStat>, identity: Identity): SyncEntry {
    WithStat(op.storedEntry.(deleted := false, localIdentity := DefaultIdentity(identity, op.storedEntry.localIdentity)),
             stat, StatMtime(stat))
  }

  function ApplyUpload(s: State, res: UploadResult, look: LocalLook, now: int): State {
    var op := res.op;
    var identity := DefaultIdentity(op.localIdentity, IdentityAt(look));
    match op.kind
    case UploadFile => Write(s, op.path, UploadedFile(op, res.remoteStat, identity), now)
    case UploadSymlink => Write(s, op.path, UploadedSymlink(op, res.remoteStat, identity), now)
    case UploadMkdir => Write(s, op.path, EMPTY_ENTRY.(kind := DirKind, mode := op.mode), now)
    case UploadDelete => TouchEntry(ForgetCandidate(s, op.storedEntry), op.path, now)
    case UploadRename =>
      Write(s.(entries := s.entries - {op.prevPath}), op.path, RenamedEntry(op, res.remoteStat, identity), now)
    case UploadChmod => if op.path in s.entries then Write(s, op.path, s.entries[op.path].(mode := op.mode), now) else s
  }

  function HandleUploadResult(s: State, res: UploadResult, look: LocalLook, now: int): State {
    if res.skipped then Sweep(if res.op.kind == UploadRename then RollBackRename(s, res.op) else s)
    else if res.op.kind == UploadFile && UploadResultObsolete(s, res, look) then Sweep(s)
    else if res.err then s
    else if res.conflict then
      QueueDownload(s, NO_DOWNLOAD.(path := res.op.path, storedEntry := res.op.storedEntry, hasStored := res.op.hasStored,
                                    conflict := true))
    else ApplyUpload(s, res, look, now)
  }

  // ------------------------------------------------------------------
  // Download results and control writes
  // ------------------------------------------------------------------

  function DownloadedFile(res: D.DownloadResult, identity: Identity): SyncEntry {
    var e := EMPTY_ENTRY.(kind := FileKind, mode := res.mode, size := res.size, localHash := res.remoteHash,
                          localIdentity := identity, remoteHash := res.remoteHash, localMtimeMs := res.localMtimeMs,
                          remoteMtimeMs := res.mtimeMs, chunkSize := res.op.chunkSize, chunkHashes := res.op.chunkHashes);
    if res.remoteStat.None? then e
    else e.(remoteRevision := res.remoteStat.value.revision, remoteInode := res.remoteStat.value.inode)
  }

  function ApplyDownload(s: State, res: D.DownloadResult, look: LocalLook, now: int): State {
    var path := res.op.path;
    match res.op.kind
    case DownloadFile => Write(s, path, DownloadedFile(res, IdentityAt(look)), now)
    case DownloadSymlink =>
      Write(s, path, EMPTY_ENTRY.(kind := SymlinkKind, target := res.target, localIdentity := IdentityAt(look)), now)
    case DownloadMkdir => Write(s, path, EMPTY_ENTRY.(kind := DirKind, mode := res.op.mode), now)
    case DownloadDelete => if path in s.entries then Write(s, path, s.entries[path].(deleted := true), now) else s
    case DownloadChmod => if path in s.entries then Write(s, path, s.entries[path].(mode := res.mode), now) else s
  }

  /** A result for a path deleted meanwhile is discarded. */
  function HandleDownloadResult(s: State, res: D.DownloadResult, look: LocalLook, now: int): State {
    if res.skipped then Sweep(s)
    else if res.err then s
    else if res.op.path in s.entries && s.entries[res.op.path].deleted then s
    else ApplyDownload(s, res, look, now)
  }

  /** An exclusive create or an undelete writes both sides and records the result. */
  datatype ControlWrite =
    | ControlFile(mode: nat, content: Bytes, localMtimeMs: int, remoteMtimeMs: int)
    | ControlLink(target: string, mtimeMs: int)

  function HandleControlWrite(s: State, path: Path, w: ControlWrite, identity: Identity, now: int): State {
    match w
    case ControlFile(mode, content, localMtimeMs, remoteMtimeMs) =>
      Write(s.(echo := s.echo[path := D.EchoFile(Raw(content))]), path,
            EMPTY_ENTRY.(kind := FileKind, mode := mode, size := |content|, localHash := Raw(content), localIdentity := identity,
                         remoteHash := Raw(content), localMtimeMs := localMtimeMs, remoteMtimeMs := remoteMtimeMs), now)
    case ControlLink(target, mtimeMs) =>
      Write(s.(echo := s.echo[path := D.EchoSymlink(target)]), path,
            EMPTY_ENTRY.(kind := SymlinkKind, target := target, localIdentity := identity, localMtimeMs := mtimeMs,
                         remoteMtimeMs := mtimeMs), now)
  }

  // ------------------------------------------------------------------
  // Runs
  // ------------------------------------------------------------------

  datatype Event =
    | LocalEvent(path: Path, look: LocalLook, order: seq<Key>)
    | SweepSymlinks(scan: Scan)
    | DeleteTimer(i: nat)
    | RemoteEvent(path: Path, look: LocalLook, remote: RemoteLook)
    | Uploaded(upload: UploadResult, look: LocalLook)
    | Downloaded(download: D.DownloadResult, look: LocalLook)
    | Marked(path: Path, echo: D.Echo)
    | Control(path: Path, write: ControlWrite, identity: Identity)

  /** The order a scan takes through the candidates: every one of them, and none twice. */
  ghost predicate Enumerates(order: seq<Key>, c: map<Key, Candidate>) {
    && (forall k :: k in c ==> k in order)
    && forall i, j :: 0 <= i < j < |order| ==> order[i] != order[j]
  }

  /** A scan looks at every tracked path, and at none twice. */
  ghost predicate Scans(scan: Scan, entries: map<Path, SyncEntry>) {
    && (forall p :: p in scan.order <==> p in entries)
    && forall i, j :: 0 <= i < j < |scan.order| ==> scan.order[i] != scan.order[j]
  }

  /** The operation of a result is one that was queued; a file's content and mode the uploader may have filled in. */
  predicate AnswersUpload(op: UploadOp, queued: UploadOp) {
    if queued.kind == UploadFile then op == queued.(content := op.content, mode := op.mode) else op == queued
  }

  /** What can happen in a state: results belong to queued operations, timers to waiting deletes. */
  ghost predicate Enabled(s: State, e: Event) {
    match e
    case LocalEvent(_, look, order) => Enumerates(order, s.candidates) && (look.DirAt? ==> Scans(look.scan, s.entries))
    case SweepSymlinks(scan) => Scans(scan, s.entries)
    case DeleteTimer(i) => i < |s.delayed|
    case Uploaded(res, _) => exists i :: 0 <= i < |s.uploads| && AnswersUpload(res.op, s.uploads[i])
    case Downloaded(res, _) => D.ResultConsistent(res)
    case _ => true
  }

  function Step(cfg: Config, s: State, e: Event, now: int): State
    requires ValidConfig(cfg)
    requires e.DeleteTimer? ==> e.i < |s.delayed|
  {
    match e
    case LocalEvent(path, look, order) => HandleLocalEvent(cfg, s, path, look, order, now)
    case SweepSymlinks(scan) => DeleteAll(s, MissingLinks(s.entries, scan), now)
    case DeleteTimer(i) => FireDelayedDelete(s, i)
    case RemoteEvent(path, look, remote) => HandleRemoteEvent(s, path, look, remote, now)
    case Uploaded(res, look) => HandleUploadResult(s, res, look, now)
    case Downloaded(res, look) => HandleDownloadResult(s, res, look, now)
    case Marked(path, echo) => s.(echo := s.echo[path := echo])
    case Control(path, write, identity) => HandleControlWrite(s, path, write, identity, now)
  }

  /** A run: a state after every event, each event enabled where it happens. */
  ghost predicate Run(cfg: Config, states: seq<State>, events: seq<(Event, int)>) {
    && ValidConfig(cfg) && |states| == |events| + 1
    && forall i :: 0 <= i < |events| ==>
         Enabled(states[i], events[i].0) && states[i + 1] == Step(cfg, states[i], events[i].0, events[i].1)
  }
}
