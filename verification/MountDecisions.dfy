/**
 Which decision a path gets, told by what the scans show and what the baseline recorded: when a
 side still stands as it was recorded, what every combination of sides leads to, and what an
 adopted baseline says.
 */
module MountDecisions {
  import opened ByteStrings
  import opened Digests
  import opened SyncTypes
  import opened MountPlan

  predicate Syncable(k: Kind) {
    k == FileKind || k == DirKind || k == SymlinkKind
  }

  /** The local side shows all that a live entry recorded of it. */
  predicate LocalStands(l: Meta, e: SyncEntry) {
    && !e.deleted && l.kind == e.kind && Syncable(l.kind)
    && (l.kind == FileKind ==> l.size == e.size && (e.localMtimeMs == 0 || l.mtimeMs == e.localMtimeMs))
    && (l.kind == DirKind ==> l.mode == 0 || e.mode == 0 || l.mode == e.mode)
    && (l.kind == SymlinkKind ==> l.target == e.target)
  }

  /** The remote side does; a revision counts only where both the entry and the scan have one. */
  predicate RemoteStands(r: Meta, e: SyncEntry) {
    && !e.deleted && r.kind == e.kind && Syncable(r.kind)
    && (r.kind == FileKind ==>
          && r.size == e.size && (e.remoteMtimeMs == 0 || r.mtimeMs == e.remoteMtimeMs)
          && (e.remoteRevision == "" || r.revision == "" || (r.revision == e.remoteRevision && r.inode == e.remoteInode)))
    && (r.kind == DirKind ==> r.mode == 0 || e.mode == 0 || r.mode == e.mode)
    && (r.kind == SymlinkKind ==> r.target == e.target)
  }

  /** The plan may send this to the remote. */
  predicate Sendable(cfg: Config, l: Meta) {
    !cfg.readonly && (l.kind == FileKind && cfg.maxFileBytes > 0 ==> l.size <= cfg.maxFileBytes)
  }

  /** Both sides are files of one size, and one of them cannot be read. */
  predicate Undecidable(s: Scans, p: Path)
    requires p in s.local && p in s.remote
  {
    && s.local[p].kind == FileKind && s.remote[p].kind == FileKind && s.local[p].size == s.remote[p].size
    && (p !in s.localData || p !in s.remoteData)
  }

  /** Both sides hold the same: two directories, two links to one target, or two files with the same bytes. */
  predicate Alike(s: Scans, p: Path)
    requires p in s.local && p in s.remote
  {
    && s.local[p].kind == s.remote[p].kind && Syncable(s.local[p].kind)
    && (s.local[p].kind == SymlinkKind ==> s.local[p].target == s.remote[p].target)
    && (s.local[p].kind == FileKind ==>
          && s.local[p].size == s.remote[p].size && p in s.localData && p in s.remoteData
          && s.localData[p] == s.remoteData[p])
  }

  lemma MovedMeansNotStanding(m: Meta, e: SyncEntry)
    ensures ObservedChangedFromStored(m, e, true) <==> !LocalStands(m, e)
    ensures ObservedChangedFromStored(m, e, false) <==> !RemoteStands(m, e)
  {
  }

  lemma ComparedSides(s: Scans, p: Path)
    requires p in s.local && p in s.remote
    ensures var d := MountBaselineEntry(s, p, s.local[p], s.remote[p]);
            && (d.Adopt? <==> Alike(s, p)) && (d.Unreadable? <==> Undecidable(s, p))
            && (d.Conflict? <==> !Alike(s, p) && !Undecidable(s, p))
  {
  }

  /**
   A path on both sides with a baseline. It is the same exactly if neither side moved. A local
   move alone is uploaded unless the plan may not send it; a remote one alone is downloaded; if
   both moved, the contents decide, except that the remote wins in a read-only plan.
   */
  lemma KnownPathOnBothSides(cfg: Config, s: Scans, p: Path)
    requires p in s.local && p in s.remote && p in s.entries
    ensures var d, l, e := Decide(cfg, s, p), s.local[p], s.entries[p];
            var localMoved, remoteMoved := !LocalStands(l, e), !RemoteStands(s.remote[p], e);
            && (d.Same? <==> !localMoved && !remoteMoved)
            && (d.Upload? <==> localMoved && !remoteMoved && Sendable(cfg, l))
            && (d.Skip? <==> localMoved && !remoteMoved && !Sendable(cfg, l))
            && (d.Download? <==> remoteMoved && (!localMoved || cfg.readonly))
            && (d.Adopt? <==> localMoved && remoteMoved && !cfg.readonly && Alike(s, p))
            && (d.Unreadable? <==> localMoved && remoteMoved && !cfg.readonly && Undecidable(s, p))
            && (d.Conflict? <==> localMoved && remoteMoved && !cfg.readonly && !Alike(s, p) && !Undecidable(s, p))
  {
    MovedMeansNotStanding(s.local[p], s.entries[p]);
    MovedMeansNotStanding(s.remote[p], s.entries[p]);
    ComparedSides(s, p);
    assert s.entries != map[];
    hide ObservedChangedFromStored, MountBaselineEntry, LocalStands, RemoteStands, Alike, Undecidable;
  }

  /** A path on both sides that the baseline does not know: the contents decide, or a read-only plan takes the remote. */
  lemma NewPathOnBothSides(cfg: Config, s: Scans, p: Path)
    requires p in s.local && p in s.remote && p !in s.entries
    ensures var d, remoteWins := Decide(cfg, s, p), cfg.readonly && s.entries != map[];
            && (d.Adopt? <==> Alike(s, p)) && (d.Unreadable? <==> Undecidable(s, p))
            && (d.Download? <==> !Alike(s, p) && !Undecidable(s, p) && remoteWins)
            && (d.Conflict? <==> !Alike(s, p) && !Undecidable(s, p) && !remoteWins)
  {
    ComparedSides(s, p);
    hide ObservedChangedFromStored, MountBaselineEntry, Alike, Undecidable;
  }

  /**
   A path on the local side only. With a live baseline the remote deleted it, so it goes, moved or
   not; otherwise it is new, and sent if the plan may send it.
   */
  lemma PathOnLocalSideOnly(cfg: Config, s: Scans, p: Path)
    requires p in s.local && p !in s.remote
    ensures var d, known := Decide(cfg, s, p), p in s.entries && !s.entries[p].deleted;
            && (d.DeleteLocal? <==> known)
            && (d.Import? <==> !known && Sendable(cfg, s.local[p]) && s.entries == map[])
            && (d.Upload? <==> !known && Sendable(cfg, s.local[p]) && s.entries != map[])
            && (d.Skip? <==> !known && !Sendable(cfg, s.local[p]))
  {
  }

  /** The path without one trailing slash. */
  function Bare(dir: Path): Path {
    if dir != "" && dir[|dir| - 1] == '/' then dir[..|dir| - 1] else dir
  }

  predicate Below(dir: Path, child: Path) {
    |Bare(dir)| < |child| && child[..|Bare(dir)|] == Bare(dir) && child[|Bare(dir)|] == '/'
  }

  /** The remote has something below the directory whose deletion is not pending. */
  ghost predicate HasLiveChildren(s: Scans, dir: Path) {
    exists child :: child in s.remote && Below(dir, child) && (child in s.entries ==> !s.entries[child].deleted)
  }

  lemma PrefixMeansBelow(dir: Path, child: Path)
    ensures DirPrefix(dir) <= child <==> Below(dir, child)
  {
    var n := |Bare(dir)|;
    if Below(dir, child) {
      assert child[..n + 1] == child[..n] + [child[n]];
    }
  }

  lemma LiveChildren(s: Scans, p: Path)
    ensures HasLiveDescendants(s, p) <==> HasLiveChildren(s, p)
  {
    forall child
      ensures DirPrefix(p) <= child <==> Below(p, child)
    {
      PrefixMeansBelow(p, child);
    }
    hide DirPrefix, Below;
    if HasLiveDescendants(s, p) {
      var child :| LiveDescendant(s, p, child);
      assert Below(p, child);
    }
    if HasLiveChildren(s, p) {
      var child :| child in s.remote && Below(p, child) && (child in s.entries ==> !s.entries[child].deleted);
      assert LiveDescendant(s, p, child);
    }
  }

  /**
   A path on the remote side only. A new one is downloaded. A pending local deletion goes through,
   unless live children keep a directory. Where the local side was deleted while unmounted, the
   remote goes too if it still stands as recorded, and asks if it moved. A read-only plan never
   deletes there: it downloads again, or skips a pending deletion.
   */
  lemma PathOnRemoteSideOnly(cfg: Config, s: Scans, p: Path)
    requires p !in s.local && p in s.remote
    ensures var d, r := Decide(cfg, s, p), s.remote[p];
            var pending := p in s.entries && s.entries[p].deleted && !(r.kind == DirKind && HasLiveChildren(s, p));
            var known := p in s.entries && !s.entries[p].deleted;
            && (d.Download? <==> !pending && (!known || cfg.readonly))
            && (d.Skip? <==> pending && cfg.readonly)
            && (d.DeleteRemote? <==> !cfg.readonly && (pending || (known && RemoteStands(r, s.entries[p]))))
            && (d.Conflict? <==> !cfg.readonly && known && !RemoteStands(r, s.entries[p]))
  {
    LiveChildren(s, p);
    if p in s.entries {
      MovedMeansNotStanding(s.remote[p], s.entries[p]);
      assert s.entries != map[];
    }
    hide HasLiveDescendants, HasLiveChildren, ObservedChangedFromStored, RemoteStands;
  }

  /**
   An adopted entry records both sides as they are, with the hashes of the two contents, so that both
   sides stand as recorded. Only a directory's local mode may be another than the recorded one.
   */
  lemma AdoptedEntryRecordsBothSides(cfg: Config, s: Scans, p: Path)
    requires Decide(cfg, s, p).Adopt?
    ensures p in s.local && p in s.remote && Alike(s, p)
    ensures var e, l, r := Decide(cfg, s, p).entry, s.local[p], s.remote[p];
            && e.kind == l.kind && !e.deleted && e.lastSyncedAt == s.now && e.chunkSize == 0 && e.chunkHashes == []
            && (l.kind == FileKind ==>
                  && e.localHash == Raw(s.localData[p]) && e.remoteHash == Raw(s.remoteData[p]) && e.size == l.size
                  && e.mode == (if r.mode == 0 then l.mode else r.mode))
            && (l.kind == DirKind ==> e.mode == r.mode)
            && (l.kind == SymlinkKind ==> e.target == l.target == r.target)
            && (l.kind != SymlinkKind ==> e.localMtimeMs == l.mtimeMs && e.remoteMtimeMs == r.mtimeMs)
            && RemoteStands(r, e) && (LocalStands(l, e) <==> (l.kind == DirKind ==> l.mode == 0 || r.mode == 0 || l.mode == r.mode))
  {
    hide HasLiveDescendants, ObservedChangedFromStored;
    if p in s.local && p in s.remote {
      ComparedSides(s, p);
    }
  }
}
