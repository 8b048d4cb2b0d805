/**
 Downloads as values: local nodes and the edits that change them, operations and the answers of
 the remote, and what a stored baseline says of a local node.
 */
module Downloads {
  import opened ByteStrings
  import opened Digests
  import opened SyncTypes
  import opened ChunkDelta

  // ------------------------------------------------------------------
  // Local nodes
  // ------------------------------------------------------------------

  datatype NodeKind = Regular | Symlink | Directory | Special

  /** What lstat shows: type, inode, permissions, size and modification time. */
  datatype FileInfo = FileInfo(kind: NodeKind, inode: nat, perm: nat, size: nat, mtimeMs: int)

  datatype Node = Node(info: FileInfo, content: Bytes, target: string)

  /** A node whose loss would lose data. */
  predicate IsData(n: Node) {
    n.info.kind == Regular || n.info.kind == Symlink
  }

  datatype Edit = Put(node: Node) | Vanish

  /** The path after some edits; an edit that would reuse an identity does not happen. */
  function Edits(node: Option<Node>, seen: set<FileInfo>, edits: seq<Edit>): (r: (Option<Node>, set<FileInfo>)) {
    if edits == [] then (node, seen)
    else
      var (n, s) := Edits(node, seen, edits[..|edits| - 1]);
      match edits[|edits| - 1]
      case Vanish => (None, s)
      case Put(p) => if p.info in s then (n, s) else (Some(p), s + {p.info})
  }

  // ------------------------------------------------------------------
  // Operations and answers
  // ------------------------------------------------------------------

  datatype OpKind = DownloadFile | DownloadSymlink | DownloadMkdir | DownloadDelete | DownloadChmod

  datatype DownloadOp = DownloadOp(
    kind: OpKind,
    path: string,
    mode: nat,
    symlink: string,
    storedEntry: SyncEntry,
    hasStored: bool,
    conflict: bool,
    chunked: bool,
    fileSize: nat,
    chunkSize: nat,
    chunkHashes: seq<Digest>,
    dirtyChunks: seq<nat>)

  /** The operations the downloader takes: chunk fields belong to chunked file downloads. */
  predicate Processable(op: DownloadOp) {
    if op.chunked then op.kind == DownloadFile && op.chunkSize > 0 else op.chunkSize == 0
  }

  datatype RemoteStat = RemoteStat(kind: Kind, mode: nat, size: nat, mtimeMs: int, revision: string, inode: nat)

  datatype FileSnapshot = FileSnapshot(stat: RemoteStat, content: Bytes)

  datatype Reply<+T> = Failed | Answer(value: T)

  /** What every remote call of one operation returns; the remote may change between calls. */
  datatype Answers = Answers(
    stat: Reply<Option<RemoteStat>>,
    readlink: Reply<string>,
    readlinkAgain: Reply<string>,
    snapshot: Reply<Option<FileSnapshot>>,
    chunkStat: Reply<Option<RemoteStat>>,
    freshStat: Reply<Option<RemoteStat>>,
    chunkMeta: Reply<(nat, seq<Digest>)>,
    manifestSnapshot: Reply<Option<FileSnapshot>>,
    chunks: Reply<map<nat, Bytes>>,
    statAfter: Reply<Option<RemoteStat>>)

  datatype DownloadResult = DownloadResult(
    op: DownloadOp,
    err: bool,
    skipped: bool,
    remoteHash: Digest,
    remoteStat: Option<RemoteStat>,
    movedAside: bool,
    mode: nat,
    size: nat,
    mtimeMs: int,
    localMtimeMs: int,
    target: string)

  datatype Echo = NoEcho | EchoFile(hash: Digest) | EchoSymlink(target: string) | EchoDir | EchoDelete

  const READ_ONLY_MODE: nat := 292

  function Outcome(op: DownloadOp): DownloadResult {
    DownloadResult(op, false, false, NoHash, None, false, 0, 0, 0, 0, "")
  }

  predicate Succeeded(r: DownloadResult) {
    !r.err && !r.skipped
  }

  /** Drops the chunk fields: the whole file is fetched instead. */
  function WithoutChunks(op: DownloadOp): DownloadOp {
    op.(chunked := false, fileSize := 0, chunkSize := 0, chunkHashes := [], dirtyChunks := [])
  }

  // ------------------------------------------------------------------
  // The local snapshot
  // ------------------------------------------------------------------

  datatype Snapshot = Snapshot(info: Option<FileInfo>, hash: Digest, baselineHash: Digest, target: string)

  /** The snapshot an undisturbed look at a node gives. */
  function SnapshotOf(n: Node, stored: SyncEntry): Snapshot {
    if n.info.kind == Regular then
      Snapshot(Some(n.info), Raw(n.content),
               if stored.chunkSize > 0 then CompositeHash(ChunkHashes(n.content, stored.chunkSize)) else Raw(n.content), "")
    else if n.info.kind == Symlink then Snapshot(Some(n.info), NoHash, NoHash, n.target)
    else Snapshot(Some(n.info), NoHash, NoHash, "")
  }

  predicate MatchesStored(s: Snapshot, hasStored: bool, stored: SyncEntry) {
    if s.info.None? then !hasStored || stored.deleted
    else if !hasStored || stored.deleted then false
    else
      match s.info.value.kind
      case Regular =>
        && stored.kind == FileKind && s.info.value.perm == Perm(stored.mode) && s.info.value.size == stored.size
        && stored.localHash != NoHash && (s.hash == stored.localHash || s.baselineHash == stored.localHash)
      case Symlink => stored.kind == SymlinkKind && s.target == stored.target
      case Directory => stored.kind == DirKind && s.info.value.perm == Perm(stored.mode)
      case Special => false
  }

  /** The node holds what the stored baseline recorded. */
  predicate AtBaseline(n: Node, hasStored: bool, stored: SyncEntry) {
    MatchesStored(SnapshotOf(n, stored), hasStored, stored)
  }

  /** A baseline determines the data: two nodes that match it hold the same. */
  lemma BaselineDeterminesData(a: Node, b: Node, hasStored: bool, stored: SyncEntry)
    requires IsData(a) && IsData(b) && AtBaseline(a, hasStored, stored) && AtBaseline(b, hasStored, stored)
    ensures a.info.kind == b.info.kind
    ensures a.info.kind == Regular ==> a.content == b.content
    ensures a.info.kind == Symlink ==> a.target == b.target
  {
    var size := stored.chunkSize;
    if a.info.kind == Regular && size > 0 {
      RawIsNotComposite(a.content, b.content, size);
      RawIsNotComposite(b.content, a.content, size);
      hide ChunkHashes;
      if CompositeHash(ChunkHashes(a.content, size)) == CompositeHash(ChunkHashes(b.content, size)) {
        ManifestDeterminesContent(a.content, b.content, size);
      }
    }
  }

  /** In terms of bytes: a file is at a live file baseline exactly with the same permissions and the same content. */
  lemma FileAtBaseline(n: Node, hasStored: bool, stored: SyncEntry, before: Bytes)
    requires n.info.kind == Regular && n.info.size == |n.content| && stored.size == |before|
    requires stored.localHash == if stored.chunkSize > 0 then CompositeHash(ChunkHashes(before, stored.chunkSize)) else Raw(before)
    ensures AtBaseline(n, hasStored, stored) <==>
            hasStored && !stored.deleted && stored.kind == FileKind && n.info.perm == Perm(stored.mode) && n.content == before
  {
    if stored.chunkSize > 0 {
      RawIsNotComposite(n.content, before, stored.chunkSize);
      hide ChunkHashes;
      if CompositeHash(ChunkHashes(n.content, stored.chunkSize)) == CompositeHash(ChunkHashes(before, stored.chunkSize)) {
        ManifestDeterminesContent(n.content, before, stored.chunkSize);
      }
    }
  }

  /** A link is at a live link baseline exactly with its target, a directory exactly with its permissions, anything else never. */
  lemma OtherNodeAtBaseline(n: Node, hasStored: bool, stored: SyncEntry)
    requires n.info.kind != Regular
    ensures AtBaseline(n, hasStored, stored) <==>
            && hasStored && !stored.deleted
            && ((n.info.kind == Symlink && stored.kind == SymlinkKind && n.target == stored.target) ||
                (n.info.kind == Directory && stored.kind == DirKind && n.info.perm == Perm(stored.mode)))
  {
  }

  // ------------------------------------------------------------------
  // The downloader
  // ------------------------------------------------------------------

  function ContentOf(n: Option<Node>): Bytes {
    if n.Some? then n.value.content else []
  }

  datatype Source = Whole(data: Bytes) | Patch(chunks: map<nat, Bytes>, chunkSize: nat, fileSize: nat)

  ghost predicate FromSource(content: Bytes, source: Source, base: Option<Node>)
    requires source.Patch? ==> source.chunkSize > 0
  {
    match source
    case Whole(data) => content == data
    case Patch(chunks, chunkSize, fileSize) => content == Patched(ContentOf(base), chunks, chunkSize, fileSize)
  }

  datatype Verdict = Current | Obsolete | Unreachable

  datatype WriteError = Written | LocalChanged | WriteFailed

  /** The chunks a reader may return: none that was not asked for, none longer than a chunk. */
  ghost predicate FetchContract(op: DownloadOp, a: Answers) {
    a.chunks.Answer? ==>
      forall i :: i in a.chunks.value ==> i in op.dirtyChunks && |a.chunks.value[i]| <= op.chunkSize
  }

  /** The kind the first stat of an operation saw, if it saw anything. */
  function RemoteKind(a: Answers): Kind {
    if a.stat.Answer? && a.stat.value.Some? then a.stat.value.value.kind else NoKind
  }

  /** The dirty chunks of `op` are those in which `remote` differs from the stored manifest. */
  ghost predicate DeltaFor(op: DownloadOp, remote: Bytes) {
    && op.chunkSize > 0 && op.chunkHashes == ChunkHashes(remote, op.chunkSize)
    && ChunkConsistent(op.storedEntry)
    && forall i: nat :: i in op.dirtyChunks <==> Differs(op.storedEntry.chunkHashes, op.chunkHashes, i)
  }

  /** A successful chunked result carries the hash of its own manifest. */
  predicate ResultConsistent(r: DownloadResult) {
    Succeeded(r) && r.op.kind == DownloadFile && r.op.chunkSize > 0 ==> r.remoteHash == CompositeHash(r.op.chunkHashes)
  }

  /** Every chunk that was asked for arrived and hashes to its place in the manifest. */
  predicate ChunksVerified(op: DownloadOp, chunks: map<nat, Bytes>) {
    forall k :: 0 <= k < |op.dirtyChunks| ==> ChunkVerified(op, chunks, op.dirtyChunks[k])
  }

  predicate ChunkVerified(op: DownloadOp, chunks: map<nat, Bytes>, i: nat) {
    i < |op.chunkHashes| && Raw(if i in chunks then chunks[i] else []) == op.chunkHashes[i]
  }

  /** A baseline file patched with verified chunks is the remote file, if the announced size is its size. */
  lemma PatchedBaselineIsRemote(n: Node, op: DownloadOp, chunks: map<nat, Bytes>, remote: Bytes)
    requires n.info.kind == Regular && AtBaseline(n, op.hasStored, op.storedEntry)
    requires op.storedEntry.chunkSize == op.chunkSize && DeltaFor(op, remote)
    requires ChunksVerified(op, chunks) && forall i :: i in chunks ==> i in op.dirtyChunks
    ensures Patched(n.content, chunks, op.chunkSize, op.fileSize) == remote <==> op.fileSize == |remote|
  {
    var size := op.chunkSize;
    BaselineManifest(n, op);
    hide AtBaseline, ChunkHashes, Patched;
    forall i: nat
      ensures i in chunks <==> Differs(op.storedEntry.chunkHashes, op.chunkHashes, i)
      ensures i in chunks && i < |op.chunkHashes| ==> Raw(chunks[i]) == op.chunkHashes[i]
    {
      if i in op.dirtyChunks {
        var k :| 0 <= k < |op.dirtyChunks| && op.dirtyChunks[k] == i;
        assert ChunkVerified(op, chunks, op.dirtyChunks[k]);
        ManifestIndex(remote, size, i);
        ChunkIsNotEmpty(remote, size, i);
      }
    }
    DeltaEqualsFullCopy(n.content, remote, chunks, size, op.fileSize);
  }

  lemma ChunkIsNotEmpty(content: Bytes, size: nat, i: nat)
    requires size > 0 && i < |ChunkHashes(content, size)|
    ensures ChunkAt(content, size, i) != []
  {
    ManifestIndex(content, size, i);
    hide Offset;
  }

  /** A file at a chunked baseline has the manifest that the baseline stores. */
  lemma BaselineManifest(n: Node, op: DownloadOp)
    requires n.info.kind == Regular && AtBaseline(n, op.hasStored, op.storedEntry)
    requires op.storedEntry.chunkSize > 0 && ChunkConsistent(op.storedEntry)
    ensures op.storedEntry.chunkHashes == ChunkHashes(n.content, op.storedEntry.chunkSize)
  {
    var manifest := ChunkHashes(n.content, op.storedEntry.chunkSize);
    if Raw(n.content) == op.storedEntry.localHash {
      assert n.content == [] && op.storedEntry.chunkHashes == [];
    }
  }
}
