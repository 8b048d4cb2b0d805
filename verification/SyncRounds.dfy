/**
 Rounds of both machines: a remote change, or an upload that met one, is queued by the reconciler,
 carried out by the downloader while nothing interferes, and recorded again.
 */
module SyncRounds {
  import opened ByteStrings
  import opened Digests
  import opened SyncTypes
  import opened ChunkDelta
  import opened DownloadHistory
  import opened DownloadOutcomes
  import opened ReconcilerState
  import opened RemoteEventLaws
  import opened ResultLaws
  import Downloader
  import D = Downloads

  /** What a look at the path shows of the node there. */
  predicate Sees(look: LocalLook, n: Option<D.Node>) {
    if n.None? then look.Gone?
    else
      match n.value.info.kind
      case Regular => look.FileAt? && look.look.content == Some(n.value.content)
      case Symlink => look.LinkAt? && look.target == n.value.target
      case Directory => look.DirAt?
      case Special => look.OtherAt?
  }

  /** The remote has this file, and answers so throughout. */
  predicate RemoteHas(a: D.Answers, got: D.FileSnapshot) {
    && AllAnswer(a) && a.snapshot == D.Answer(Some(got)) && a.stat.value.Some? && a.stat.value.value.kind == FileKind
    && a.chunks.value == map[]
  }

  /** The baseline of the path is the remote file, and the local node is at it. */
  ghost predicate InAgreement(t: State, path: Path, n: Option<D.Node>, got: D.FileSnapshot, mode: nat) {
    && path in t.entries && n.Some? && D.AtBaseline(n.value, true, t.entries[path])
    && t.entries[path].kind == FileKind && !t.entries[path].deleted && t.entries[path].mode == mode
    && t.entries[path].localHash == t.entries[path].remoteHash == Raw(got.content)
    && t.entries[path].remoteMtimeMs == got.stat.mtimeMs && t.entries[path].remoteRevision == got.stat.revision
  }

  lemma RecordedAgreement(s: State, e: Ending, op: D.DownloadOp, look: LocalLook, now: int, got: D.FileSnapshot, mode: nat)
    requires D.Succeeded(e.r) && op.kind == D.DownloadFile && op.chunkSize == 0 && !Buried(s, op.path)
    requires IsFile(e.after.node, got.content, mode) && TellsFile(e, op, Raw(got.content), got.stat, mode, |got.content|)
    requires Sized(e.after.node)
    ensures var t := HandleDownloadResult(s, e.r, look, now);
            && InAgreement(t, op.path, e.after.node, got, mode)
            && t.entries == s.entries[op.path := t.entries[op.path]] && t.sweeps == s.sweeps && t.uploads == s.uploads
  {
    DownloadedFileIsRecorded(s, e.r, look, now);
    hide HandleDownloadResult;
  }

  /** The operation puts the remote file over this node: it may replace it, and a directory is no bar. */
  ghost predicate MayInstall(n: Option<D.Node>, op: D.DownloadOp) {
    MayReplace(n, op) && (op.conflict || !IsDirectory(n))
  }

  lemma FileEndsRecorded(s: State, e: Ending, op: D.DownloadOp, look: LocalLook, now: int, got: D.FileSnapshot, mode: nat)
    requires FileEnds(e, op, got, mode) && op.kind == D.DownloadFile && op.chunkSize == 0 && !Buried(s, op.path)
    requires Sized(e.before.node)
    ensures var t, already := HandleDownloadResult(s, e.r, look, now), IsFile(e.before.node, got.content, mode);
            && (IsFile(e.after.node, got.content, mode) <==> already || MayInstall(e.before.node, op))
            && (already || MayInstall(e.before.node, op) ==>
                  && InAgreement(t, op.path, e.after.node, got, mode)
                  && t.entries == s.entries[op.path := t.entries[op.path]] && t.sweeps == s.sweeps && t.uploads == s.uploads)
            && (!already && !MayInstall(e.before.node, op) ==>
                  t == if MayReplace(e.before.node, op) then s else s.(sweeps := s.sweeps + 1))
            && (already || !MayInstall(e.before.node, op) ==> e.after.node == e.before.node && e.after.copies == e.before.copies)
            && (!already && MayInstall(e.before.node, op) ==>
                  e.after.copies == e.before.copies + if op.conflict && e.before.node.Some? then [e.before.node.value] else [])
  {
    if D.Succeeded(e.r) {
      RecordedAgreement(s, e, op, look, now, got, mode);
    } else {
      OtherDownloadResults(s, e.r, look, now);
    }
    hide HandleDownloadResult, InAgreement, AsRecorded;
  }

  /** A queued whole-file download is carried out, and its result recorded. */
  method FetchAndRecord(s: State, op: D.DownloadOp, d: Downloader.Downloader, a: D.Answers, got: D.FileSnapshot,
                        after: LocalLook, now: int) returns (t: State)
    requires op.kind == D.DownloadFile && !op.chunked && op.chunkSize == 0 && !Buried(s, op.path)
    requires d.Valid() && d.Calm() && Sized(d.node) && RemoteHas(a, got)
    modifies d
    ensures var mode, n := ModeFor(d.readonly, got.stat.mode), old(d.node);
            var already, installs := IsFile(n, got.content, mode), MayInstall(n, op);
            && (IsFile(d.node, got.content, mode) <==> already || installs)
            && (already || installs ==>
                  && InAgreement(t, op.path, d.node, got, mode)
                  && t.entries == s.entries[op.path := t.entries[op.path]] && t.sweeps == s.sweeps && t.uploads == s.uploads)
            && (!already && !installs ==> t == if MayReplace(n, op) then s else s.(sweeps := s.sweeps + 1))
            && (already || !installs ==> d.node == n && d.copies == old(d.copies))
            && (!already && installs ==> d.copies == old(d.copies) + if op.conflict && n.Some? then [n.value] else [])
  {
    hide FileEnds, IsFile, InAgreement, MayReplace, IsDirectory, MayInstall, HandleDownloadResult, NoEditLost, D.AtBaseline, Sized;
    d.Process(op, a, []);
    var e := d.Ends();
    FileEndsRecorded(s, e, op, after, now, got, ModeFor(d.readonly, got.stat.mode));
    t := HandleDownloadResult(s, d.Last(), after, now);
  }

  /** The node is not the baseline's, as far as its plain hash or its target tell. */
  predicate HasLeft(n: D.Node, e: SyncEntry) {
    || (n.info.kind == D.Regular && e.localHash != NoHash && e.localHash != Raw(n.content))
    || (n.info.kind == D.Symlink && e.kind == SymlinkKind && e.target != n.target)
  }

  /**
   A remote file gets to a path exactly if it is there already, or nothing is there and nothing is
   tracked, or what is there is either plainly another content than the tracked one or, but for a
   directory, at its baseline. It does not get to a tracked path whose local side is gone, onto an
   untracked local file, or over a file of which only the mode has changed.
   */
  ghost predicate Arrives(s: State, path: Path, n: Option<D.Node>, got: D.FileSnapshot, mode: nat) {
    || IsFile(n, got.content, mode)
    || match n
       case None => path !in s.entries
       case Some(node) =>
         && path in s.entries
         && (HasLeft(node, s.entries[path]) || (D.AtBaseline(node, true, s.entries[path]) && node.info.kind != D.Directory))
  }

  lemma ArrivesIfInstalled(s: State, path: Path, look: LocalLook, n: Option<D.Node>, op: D.DownloadOp, got: D.FileSnapshot, mode: nat)
    requires !Buried(s, path) && Sees(look, n) && Against(op, s, path)
    requires op.conflict == LocallyChanged(s, path, look)
    ensures Arrives(s, path, n, got, mode) <==> IsFile(n, got.content, mode) || MayInstall(n, op)
    ensures op.conflict && n.Some? <==> n.Some? && path in s.entries && HasLeft(n.value, s.entries[path])
  {
    if n.Some? && path !in s.entries {
      assert !D.AtBaseline(n.value, false, EMPTY_ENTRY);
    }
    hide D.AtBaseline, IsFile;
  }

  /**
   A remote change of a file, without chunk metadata, goes round: event, download, result. It ends
   in agreement on the remote file exactly where that file arrives, with a local file that had left
   the baseline as the one new conflict copy; anywhere else the path stays as it was.
   */
  method RemoteFileGoesRound(s: State, path: Path, look: LocalLook, r: RemoteLook, stat: D.RemoteStat, d: Downloader.Downloader,
                             a: D.Answers, got: D.FileSnapshot, after: LocalLook, t0: int, t1: int) returns (t: State)
    requires !Buried(s, path) && FoundAs(s, path, r, stat) && stat.kind == FileKind && !HasManifest(r)
    requires d.Valid() && d.Calm() && Sized(d.node) && Sees(look, d.node) && RemoteHas(a, got)
    modifies d
    ensures var mode, n := ModeFor(d.readonly, got.stat.mode), old(d.node);
            && (IsFile(d.node, got.content, mode) <==> Arrives(s, path, n, got, mode))
            && (Arrives(s, path, n, got, mode) ==>
                  InAgreement(t, path, d.node, got, mode) && t.entries == s.entries[path := t.entries[path]])
            && (!Arrives(s, path, n, got, mode) ==> d.node == n && t.entries == s.entries)
            && d.copies == old(d.copies) +
                 if !IsFile(n, got.content, mode) && n.Some? && path in s.entries && HasLeft(n.value, s.entries[path]) then [n.value]
                 else []
  {
    ghost var n, mode := d.node, ModeFor(d.readonly, got.stat.mode);
    FoundPathIsDownloaded(s, path, look, r, t0, stat);
    var mid := HandleRemoteEvent(s, path, look, r, t0);
    var op := mid.downloads[|s.downloads|];
    assert op == Fetched(s, mid)[0];
    ArrivesIfInstalled(s, path, look, n, op, got, mode);
    hide HandleRemoteEvent, LocallyChanged, Sees, IsFile, InAgreement, MayReplace, MayInstall, Arrives, D.AtBaseline, HasLeft;
    t := FetchAndRecord(mid, op, d, a, got, after, t1);
  }

  /**
   An upload that met a changed remote goes round: the remote file wins, the local one is kept as the
   one new conflict copy, and the baseline is the remote file.
   */
  method ConflictGoesRound(s: State, res: UploadResult, look: LocalLook, d: Downloader.Downloader, a: D.Answers,
                           got: D.FileSnapshot, after: LocalLook, t0: int, t1: int) returns (t: State)
    requires res.conflict && !res.skipped && !res.err && !TooLate(s, res, look) && !Buried(s, res.op.path)
    requires d.Valid() && d.Calm() && Sized(d.node) && RemoteHas(a, got)
    modifies d
    ensures var mode, n := ModeFor(d.readonly, got.stat.mode), old(d.node);
            && IsFile(d.node, got.content, mode) && InAgreement(t, res.op.path, d.node, got, mode)
            && t.entries == s.entries[res.op.path := t.entries[res.op.path]]
            && d.copies == old(d.copies) + if n.Some? && !IsFile(n, got.content, mode) then [n.value] else []
  {
    ConflictIsDownloadedAgain(s, res, look, t0);
    var mid := HandleUploadResult(s, res, look, t0);
    var op := mid.downloads[|s.downloads|];
    assert op == Fetched(s, mid)[0];
    hide HandleUploadResult, TooLate, IsFile, InAgreement, D.AtBaseline;
    t := FetchAndRecord(mid, op, d, a, got, after, t1);
  }
}
