/**
 How an operation ends when nothing interferes: no step fails, nobody edits, and every remote call
 answers. The answer and the path are then determined by the node that was there, the baseline and
 what the remote said.
 */
module DownloadOutcomes {
  import opened ByteStrings
  import opened Digests
  import opened SyncTypes
  import opened ChunkDelta
  import opened Downloads
  import opened DownloadHistory

  /** The path and the expected echo before and after, and the answer. */
  datatype Ending = Ending(before: PathState, after: PathState, r: DownloadResult, expected: Echo, echo: Echo)

  /** Every remote call gets an answer. */
  predicate AllAnswer(a: Answers) {
    && a.stat.Answer? && a.readlink.Answer? && a.readlinkAgain.Answer? && a.snapshot.Answer? && a.chunkStat.Answer?
    && a.freshStat.Answer? && a.chunkMeta.Answer? && a.manifestSnapshot.Answer? && a.chunks.Answer? && a.statAfter.Answer?
  }

  /** What is there is what the baseline recorded; nothing there, if it recorded nothing or a tombstone. */
  ghost predicate AsRecorded(n: Option<Node>, op: DownloadOp) {
    match n
    case None => !op.hasStored || op.storedEntry.deleted
    case Some(node) => AtBaseline(node, op.hasStored, op.storedEntry)
  }

  /** A conflict may take the place of anything, any other download only of what was recorded. */
  ghost predicate MayReplace(n: Option<Node>, op: DownloadOp) {
    op.conflict || AsRecorded(n, op)
  }

  predicate IsDirectory(n: Option<Node>) {
    n.Some? && n.value.info.kind == Directory
  }

  predicate IsFile(n: Option<Node>, content: Bytes, mode: nat) {
    IsFileWith(n, content) && n.value.info.perm == Perm(mode)
  }

  /** A file's size is the number of its bytes. */
  predicate Sized(n: Option<Node>) {
    n.Some? && n.value.info.kind == Regular ==> n.value.info.size == |n.value.content|
  }

  predicate IsLink(n: Option<Node>, target: string) {
    n.Some? && n.value.info.kind == Symlink && n.value.target == target
  }

  /** Nothing was done to the path, and no echo is expected that was not. */
  predicate Unmoved(e: Ending) {
    e.after == e.before && !e.r.movedAside && e.echo == e.expected
  }

  /** What was there is the one new conflict copy, if this is a conflict and something was there. */
  predicate CopiedAside(e: Ending, op: DownloadOp) {
    && (e.r.movedAside <==> op.conflict && e.before.node.Some?)
    && e.after.copies == e.before.copies + if e.r.movedAside then [e.before.node.value] else []
  }

  function ModeFor(readonly: bool, mode: nat): nat {
    if readonly then READ_ONLY_MODE else mode
  }

  /** The answer of a file download: the hash and size of the content, and the stat it came with. */
  predicate TellsFile(e: Ending, op: DownloadOp, hash: Digest, stat: RemoteStat, mode: nat, size: nat) {
    && e.r.op == op && e.r.remoteHash == hash && e.r.remoteStat == Some(stat) && e.r.mode == mode
    && e.r.size == size && e.r.mtimeMs == stat.mtimeMs
    && e.after.node.Some? && e.r.localMtimeMs == e.after.node.value.info.mtimeMs
  }

  /** Content can be staged: chunks only over a file, or where nothing is. */
  predicate CanStage(source: Source, n: Option<Node>) {
    source.Whole? || n.None? || n.value.info.kind == Regular
  }

  /** The staged node is at the path, or nothing happened because a directory is in the way. */
  predicate Commits(before: PathState, after: PathState, op: DownloadOp, staged: Node, ok: bool, moved: bool) {
    && (ok <==> op.conflict || !IsDirectory(before.node)) && (!ok ==> after == before && !moved)
    && (ok ==> after.node == Some(staged) && moved == (op.conflict && before.node.Some?))
    && after.copies == before.copies + if moved then [before.node.value] else []
  }

  /** The file was replaced, or a directory was in the way. */
  ghost predicate FileReplaced(e: Ending, op: DownloadOp, got: FileSnapshot, mode: nat) {
    && !e.r.skipped && (e.r.err <==> !op.conflict && IsDirectory(e.before.node)) && (e.r.err ==> Unmoved(e))
    && (!e.r.err ==> IsFile(e.after.node, got.content, mode) && Sized(e.after.node) && CopiedAside(e, op) &&
                     e.echo == EchoFile(Raw(got.content)) &&
                     TellsFile(e, op, Raw(got.content), got.stat, mode, |got.content|))
  }

  predicate LinkReplaced(e: Ending, op: DownloadOp, target: string) {
    && Succeeded(e.r) && e.r.op == op.(symlink := target) && IsLink(e.after.node, target) && e.r.target == target && e.r.remoteStat.None?
    && e.r.localMtimeMs == e.after.node.value.info.mtimeMs && CopiedAside(e, op) && e.echo == EchoSymlink(target)
  }

  /**
   A whole file was fetched. If it is there already, it stays. Otherwise the download is skipped
   where it may not replace what is there, fails on a directory, and installs the file anywhere else.
   */
  ghost predicate FileEnds(e: Ending, op: DownloadOp, got: FileSnapshot, mode: nat) {
    var already := IsFile(e.before.node, got.content, mode);
    && (e.r.skipped <==> !already && !MayReplace(e.before.node, op))
    && (e.r.err <==> !already && MayReplace(e.before.node, op) && !op.conflict && IsDirectory(e.before.node))
    && (already || !Succeeded(e.r) ==> Unmoved(e))
    && (Succeeded(e.r) ==> IsFile(e.after.node, got.content, mode) &&
                           TellsFile(e, op, Raw(got.content), got.stat, mode, |got.content|))
    && (Succeeded(e.r) && !already ==> Sized(e.after.node) && CopiedAside(e, op) && e.echo == EchoFile(Raw(got.content)))
  }

  /** A link to `target`: as with a file, except that an empty directory gives way to it. */
  ghost predicate LinkEnds(e: Ending, op: DownloadOp, target: string) {
    var already := IsLink(e.before.node, target);
    && !e.r.err && (e.r.skipped <==> !already && !MayReplace(e.before.node, op))
    && (already || e.r.skipped ==> Unmoved(e))
    && (!e.r.skipped ==> e.r.op == op.(symlink := target) && IsLink(e.after.node, target) && e.r.target == target && e.r.remoteStat.None? &&
                         e.r.localMtimeMs == e.after.node.value.info.mtimeMs)
    && (!e.r.skipped && !already ==> CopiedAside(e, op) && e.echo == EchoSymlink(target))
  }

  /** Nothing is left, and the event of what was there will be an echo. */
  predicate Removes(e: Ending) {
    e.after.node.None? && e.echo == if e.before.node.Some? then EchoDelete else e.expected
  }

  /** The remote is gone: what was recorded goes too, and anything else stays. */
  ghost predicate VanishedEnds(e: Ending, op: DownloadOp) {
    && !e.r.err && !e.r.movedAside && e.after.copies == e.before.copies
    && (e.r.skipped <==> !AsRecorded(e.before.node, op))
    && (if e.r.skipped then Unmoved(e) else Removes(e) && e.r.op == op.(kind := DownloadDelete))
  }

  /** A directory is made where nothing is, and found where there is one or a link to one. */
  predicate DirectoryEnds(e: Ending, op: DownloadOp, linked: bool) {
    && !e.r.skipped && !e.r.movedAside && e.r.op == op && e.after.copies == e.before.copies
    && (e.r.err <==> e.before.node.Some? && !LeadsThere(e.before.node, linked))
    && (e.before.node.Some? ==> e.after.node == e.before.node)
    && (e.before.node.None? ==> IsDirectory(e.after.node))
    && e.echo == (if e.r.err then e.expected else EchoDir)
  }

  predicate LeadsThere(n: Option<Node>, linked: bool) {
    IsDirectory(n) || (n.Some? && n.value.info.kind == Symlink && linked)
  }

  /** A file download ends as what it finds at the remote. */
  ghost predicate FetchEnds(e: Ending, op: DownloadOp, a: Answers, readonly: bool, linked: bool)
    requires AllAnswer(a)
  {
    if a.stat.value.None? then VanishedEnds(e, op)
    else
      match a.stat.value.value.kind
      case DirKind => DirectoryEnds(e, op, linked)
      case SymlinkKind => LinkEnds(e, op, if a.readlink.value == "" then a.readlinkAgain.value else a.readlink.value)
      case _ =>
        if a.snapshot.value.None? then SkippedEnds(e)
        else FileEnds(e, op, a.snapshot.value.value, ModeFor(readonly, a.snapshot.value.value.stat.mode))
  }

  // ------------------------------------------------------------------
  // Deltas
  // ------------------------------------------------------------------

  /** There is a local file cut as the remote one is, so that chunks can be patched into it. */
  predicate HasDeltaBase(n: Option<Node>, op: DownloadOp) {
    !op.conflict && n.Some? && op.hasStored && op.storedEntry.chunkSize == op.chunkSize
  }

  /** The stat of a remote whose manifest, stored or derived from its content, is the operation's. */
  function TrustedStat(op: DownloadOp, a: Answers): Option<RemoteStat>
    requires AllAnswer(a) && op.chunkSize > 0
  {
    if a.freshStat.value.None? || a.chunkMeta.value == (op.chunkSize, op.chunkHashes) then a.freshStat.value
    else if a.manifestSnapshot.value.Some? &&
            ChunkHashes(a.manifestSnapshot.value.value.content, op.chunkSize) == op.chunkHashes then
      Some(a.manifestSnapshot.value.value.stat)
    else None
  }

  /** The remote kept one trusted revision throughout, and every chunk arrived as the manifest has it. */
  predicate Delivered(op: DownloadOp, a: Answers)
    requires AllAnswer(a) && op.chunkSize > 0
  {
    TrustedStat(op, a).Some? && a.statAfter.value == TrustedStat(op, a) && ChunksVerified(op, a.chunks.value)
  }

  /** The local file has the remote manifest already, with the announced size and the permissions. */
  predicate HasDelta(n: Node, op: DownloadOp, mode: nat)
    requires op.chunkSize > 0
  {
    && n.info.kind == Regular && ChunkHashes(n.content, op.chunkSize) == op.chunkHashes
    && n.info.size == op.fileSize && n.info.perm == Perm(mode)
  }

  /** Verified chunks end in the patched file, unless it was that already or is none. */
  ghost predicate PatchEnds(e: Ending, op: DownloadOp, stat: RemoteStat, mode: nat, chunks: map<nat, Bytes>)
    requires op.chunkSize > 0 && e.before.node.Some?
  {
    var n := e.before.node.value;
    && !e.r.skipped && !e.r.movedAside && e.after.copies == e.before.copies
    && (e.r.err <==> n.info.kind != Regular)
    && (HasDelta(n, op, mode) || e.r.err ==> Unmoved(e))
    && (!HasDelta(n, op, mode) && !e.r.err ==>
          && IsFile(e.after.node, Patched(n.content, chunks, op.chunkSize, op.fileSize), mode) && Sized(e.after.node)
          && e.echo == EchoFile(CompositeHash(op.chunkHashes)))
    && (!e.r.err ==> TellsFile(e, op, CompositeHash(op.chunkHashes), stat, mode, op.fileSize))
  }

  /** The same where the file has not got it already. */
  ghost predicate Patches(e: Ending, op: DownloadOp, stat: RemoteStat, mode: nat, chunks: map<nat, Bytes>)
    requires op.chunkSize > 0 && e.before.node.Some?
  {
    var n := e.before.node.value;
    && !e.r.skipped && !e.r.movedAside && e.after.copies == e.before.copies
    && (e.r.err <==> n.info.kind != Regular)
    && (e.r.err ==> Unmoved(e))
    && (!e.r.err ==> && IsFile(e.after.node, Patched(n.content, chunks, op.chunkSize, op.fileSize), mode)
                     && Sized(e.after.node) && e.echo == EchoFile(CompositeHash(op.chunkHashes))
                     && TellsFile(e, op, CompositeHash(op.chunkHashes), stat, mode, op.fileSize))
  }

  predicate SkippedEnds(e: Ending) {
    e.r.skipped && !e.r.err && Unmoved(e)
  }

  /**
   Chunks were fetched for a local file. The download is skipped where that file has left the
   baseline or the remote did not deliver. Otherwise the file stays, if it has the manifest, size and
   permissions already, or else is patched and cut to the announced size.
   */
  ghost predicate DeltaEnds(e: Ending, op: DownloadOp, a: Answers, readonly: bool)
    requires AllAnswer(a) && op.chunkSize > 0 && e.before.node.Some?
  {
    if !AtBaseline(e.before.node.value, op.hasStored, op.storedEntry) then SkippedEnds(e)
    else if a.chunkStat.value.None? then VanishedEnds(e, op)
    else if !Delivered(op, a) then SkippedEnds(e)
    else
      var stat := TrustedStat(op, a).value;
      PatchEnds(e, op, stat, ModeFor(readonly, stat.mode), a.chunks.value)
  }

  /** A chunked download patches where it can, and otherwise fetches the whole file. */
  ghost predicate ChunkedEnds(e: Ending, op: DownloadOp, a: Answers, readonly: bool, linked: bool)
    requires AllAnswer(a) && op.chunkSize > 0
  {
    if HasDeltaBase(e.before.node, op) then DeltaEnds(e, op, a, readonly)
    else FetchEnds(e, WithoutChunks(op), a, readonly, linked)
  }

  /** A plain delete leaves nothing, whatever was there. */
  predicate DeleteEnds(e: Ending, op: DownloadOp) {
    Succeeded(e.r) && e.r.op == op && !e.r.movedAside && Removes(e) && e.after.copies == e.before.copies
  }

  /** A change of mode fails exactly where nothing is; a link itself stays as it is. */
  predicate ChmodEnds(e: Ending, op: DownloadOp) {
    && !e.r.skipped && !e.r.movedAside && e.r.op == op && (e.r.err <==> e.before.node.None?) && e.echo == e.expected
    && (!e.r.err ==> e.r.mode == op.mode)
    && e.after == if e.r.err || e.before.node.value.info.kind == Symlink then e.before else WithMode(e.before, Perm(op.mode))
  }

  ghost predicate OperationEnds(e: Ending, op: DownloadOp, a: Answers, readonly: bool, linked: bool)
    requires AllAnswer(a) && Processable(op)
  {
    match op.kind
    case DownloadFile => if op.chunked then ChunkedEnds(e, op, a, readonly, linked) else FetchEnds(e, op, a, readonly, linked)
    case DownloadSymlink => LinkEnds(e, op, if op.symlink == "" then a.readlinkAgain.value else op.symlink)
    case DownloadMkdir => DirectoryEnds(e, op, linked)
    case DownloadDelete => DeleteEnds(e, op)
    case DownloadChmod => ChmodEnds(e, op)
  }

  // ------------------------------------------------------------------
  // What a snapshot of the node tells of the ending
  // ------------------------------------------------------------------

  predicate Shown(n: Option<Node>, info: Option<FileInfo>) {
    match info
    case None => n.None?
    case Some(i) => n.Some? && n.value.info == i
  }

  lemma SnapshotTells(path: PathState, s: Snapshot, op: DownloadOp)
    requires Faithful(path, s, op.storedEntry) && Shown(path.node, s.info)
    ensures MatchesStored(s, op.hasStored, op.storedEntry) <==> AsRecorded(path.node, op)
  {
    hide SnapshotOf;
  }

  lemma SnapshotTellsFile(path: PathState, s: Snapshot, stored: SyncEntry, content: Bytes, mode: nat)
    requires Faithful(path, s, stored) && Shown(path.node, s.info)
    ensures s.info.Some? && s.info.value.kind == Regular && s.hash == Raw(content) && s.info.value.perm == Perm(mode) <==>
            IsFile(path.node, content, mode)
  {
    hide ChunkHashes;
  }

  lemma SnapshotTellsLink(path: PathState, s: Snapshot, stored: SyncEntry, target: string)
    requires Faithful(path, s, stored) && Shown(path.node, s.info)
    ensures s.info.Some? && s.info.value.kind == Symlink && s.target == target <==> IsLink(path.node, target)
  {
    hide ChunkHashes;
  }

  lemma SnapshotTellsManifest(path: PathState, s: Snapshot, op: DownloadOp)
    requires Faithful(path, s, op.storedEntry) && Shown(path.node, s.info) && s.info.Some?
    requires op.chunkSize > 0 && op.storedEntry.chunkSize == op.chunkSize
    ensures s.baselineHash == CompositeHash(op.chunkHashes) <==>
            path.node.value.info.kind == Regular && ChunkHashes(path.node.value.content, op.chunkSize) == op.chunkHashes
  {
    hide ChunkHashes;
  }

  // ------------------------------------------------------------------
  // Branches of an operation
  // ------------------------------------------------------------------

  lemma FileStays(e: Ending, op: DownloadOp, got: FileSnapshot, mode: nat)
    requires IsFile(e.before.node, got.content, mode) && Succeeded(e.r) && Unmoved(e)
    requires TellsFile(e, op, Raw(got.content), got.stat, mode, |got.content|)
    ensures FileEnds(e, op, got, mode)
  {
    hide AsRecorded;
  }

  lemma FileIsSkipped(e: Ending, op: DownloadOp, got: FileSnapshot, mode: nat)
    requires !IsFile(e.before.node, got.content, mode) && !MayReplace(e.before.node, op) && SkippedEnds(e)
    ensures FileEnds(e, op, got, mode)
  {
    hide AsRecorded;
  }

  lemma FileIsReplaced(e: Ending, op: DownloadOp, got: FileSnapshot, mode: nat)
    requires !IsFile(e.before.node, got.content, mode) && MayReplace(e.before.node, op) && FileReplaced(e, op, got, mode)
    ensures FileEnds(e, op, got, mode)
  {
    hide AsRecorded;
  }

  lemma LinkStays(e: Ending, op: DownloadOp, target: string)
    requires IsLink(e.before.node, target) && Succeeded(e.r) && e.r.op == op.(symlink := target) && Unmoved(e)
    requires e.r.target == target && e.r.remoteStat.None?
    requires e.r.localMtimeMs == e.before.node.value.info.mtimeMs
    ensures LinkEnds(e, op, target)
  {
    hide AsRecorded;
  }

  lemma LinkIsSkipped(e: Ending, op: DownloadOp, target: string)
    requires !IsLink(e.before.node, target) && !MayReplace(e.before.node, op) && SkippedEnds(e)
    ensures LinkEnds(e, op, target)
  {
    hide AsRecorded;
  }

  lemma LinkIsReplaced(e: Ending, op: DownloadOp, target: string)
    requires !IsLink(e.before.node, target) && MayReplace(e.before.node, op) && LinkReplaced(e, op, target)
    ensures LinkEnds(e, op, target)
  {
    hide AsRecorded;
  }

  lemma LinkEndsForOther(e: Ending, op: DownloadOp, other: DownloadOp, target: string)
    requires op.(symlink := target) == other.(symlink := target) && LinkEnds(e, op, target)
    ensures LinkEnds(e, other, target)
  {
    hide AtBaseline;
  }

  lemma DeltaIsSkipped(e: Ending, op: DownloadOp, a: Answers, readonly: bool)
    requires AllAnswer(a) && op.chunkSize > 0 && e.before.node.Some? && !AsRecorded(e.before.node, op) && SkippedEnds(e)
    ensures DeltaEnds(e, op, a, readonly)
  {
    hide AtBaseline;
  }

  lemma DeltaStays(e: Ending, op: DownloadOp, stat: RemoteStat, mode: nat, chunks: map<nat, Bytes>)
    requires op.chunkSize > 0 && e.before.node.Some? && HasDelta(e.before.node.value, op, mode)
    requires Succeeded(e.r) && Unmoved(e) && TellsFile(e, op, CompositeHash(op.chunkHashes), stat, mode, op.fileSize)
    ensures PatchEnds(e, op, stat, mode, chunks)
  {
    hide ChunkHashes;
  }

  lemma DeltaIsPatched(e: Ending, op: DownloadOp, stat: RemoteStat, mode: nat, chunks: map<nat, Bytes>)
    requires op.chunkSize > 0 && e.before.node.Some? && !HasDelta(e.before.node.value, op, mode)
    requires Patches(e, op, stat, mode, chunks)
    ensures PatchEnds(e, op, stat, mode, chunks)
  {
    hide ChunkHashes, Patched;
  }
}
