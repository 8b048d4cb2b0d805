/**
 What a mount plan promises: it partitions the scanned paths, a read-only plan leaves the
 remote alone, an executed plan makes the sides agree and leaves nothing to plan, and the
 exact cases in which a plan throws a change away.
 */
module MountPlanLaws {
  import opened ByteStrings
  import opened Digests
  import opened SyncTypes
  import opened Ordering
  import opened MountPlan
  import opened MountDecisions

  ghost predicate AllReadable(cfg: Config, s: Scans) {
    forall p :: p in PlannedPaths(s) ==> !Decide(cfg, s, p).Unreadable?
  }

  // ------------------------------------------------------------------
  // Partition
  // ------------------------------------------------------------------

  function OpsWithCode(ops: seq<Operation>, c: Code): nat {
    if ops == [] then 0
    else OpsWithCode(ops[..|ops| - 1], c) + if ops[|ops| - 1].code == c then 1 else 0
  }

  lemma {:induction false} OpsByCode(ops: seq<Operation>)
    ensures |ops| == OpsWithCode(ops, I) + OpsWithCode(ops, U) + OpsWithCode(ops, D) + OpsWithCode(ops, DL) +
                     OpsWithCode(ops, DR) + OpsWithCode(ops, C) + OpsWithCode(ops, S)
  {
    if ops != [] {
      OpsByCode(ops[..|ops| - 1]);
    }
  }

  lemma ListWithoutLast(ops: seq<Operation>, cfg: Config, s: Scans, paths: set<Path>)
    requires ops != [] && Listed(ops, cfg, s, paths)
    ensures var last := ops[|ops| - 1];
            last.path in paths && CodeOf(Decide(cfg, s, last.path)) == Some(last.code) &&
            Listed(ops[..|ops| - 1], cfg, s, paths - {last.path})
  {
    hide Decide, ShownKind;
    var n := |ops| - 1;
    var rest, last := ops[..n], ops[n];
    assert last in ops;
    forall op | op in rest
      ensures op in ops && op.path != last.path
    {
      var j :| 0 <= j < n && rest[j] == op;
      assert ops[j] == op;
      LessIsIrreflexive(op.path);
    }
    forall p | p in paths - {last.path} && CodeOf(Decide(cfg, s, p)).Some?
      ensures Operation(CodeOf(Decide(cfg, s, p)).value, p, ShownKind(cfg, s, p)) in rest
    {
      var op := Operation(CodeOf(Decide(cfg, s, p)).value, p, ShownKind(cfg, s, p));
      assert op in ops && op != last;
    }
  }

  lemma NothingListed(cfg: Config, s: Scans, paths: set<Path>, c: Code)
    requires Listed([], cfg, s, paths)
    ensures |WithCode(cfg, s, paths, c)| == 0
  {
    hide Decide, ShownKind;
    assert WithCode(cfg, s, paths, c) == {};
  }

  /** The number of listed operations of each code is the number of paths decided that way. */
  lemma {:induction false} OperationsMatchCounters(ops: seq<Operation>, cfg: Config, s: Scans, paths: set<Path>, c: Code)
    requires Listed(ops, cfg, s, paths)
    ensures OpsWithCode(ops, c) == |WithCode(cfg, s, paths, c)|
    decreases |ops|
  {
    hide Decide, ShownKind, Listed, WithCode;
    if ops == [] {
      NothingListed(cfg, s, paths, c);
    } else {
      var last := ops[|ops| - 1];
      ListWithoutLast(ops, cfg, s, paths);
      OperationsMatchCounters(ops[..|ops| - 1], cfg, s, paths - {last.path}, c);
      CountOneMore(cfg, s, paths - {last.path}, last.path);
      assert paths - {last.path} + {last.path} == paths;
    }
  }

  lemma SameAndCodedCover(cfg: Config, s: Scans)
    requires AllReadable(cfg, s)
    ensures Union(s) == WithSame(cfg, s, PlannedPaths(s)) +
                        set p | p in PlannedPaths(s) && CodeOf(Decide(cfg, s, p)).Some?
    ensures WithSame(cfg, s, PlannedPaths(s)) !! set p | p in PlannedPaths(s) && CodeOf(Decide(cfg, s, p)).Some?
  {
    forall p | p in PlannedPaths(s)
      ensures p in Union(s) <==> IsSame(Decide(cfg, s, p)) || CodeOf(Decide(cfg, s, p)).Some?
    {
      DecisionCases(cfg, s, p);
    }
  }

  lemma DecisionCases(cfg: Config, s: Scans, p: Path)
    ensures p !in Union(s) <==> Decide(cfg, s, p) == Neither
  {
    hide HasLiveDescendants, ObservedChangedFromStored;
    if p in s.local && p in s.remote {
      BaselineCases(s, p, s.local[p], s.remote[p]);
      hide MountBaselineEntry;
    }
  }

  lemma CodedPathsByCode(cfg: Config, s: Scans, paths: set<Path>)
    ensures |set p | p in paths && CodeOf(Decide(cfg, s, p)).Some?| ==
            |WithCode(cfg, s, paths, I)| + |WithCode(cfg, s, paths, U)| + |WithCode(cfg, s, paths, D)| +
            |WithCode(cfg, s, paths, DL)| + |WithCode(cfg, s, paths, DR)| + |WithCode(cfg, s, paths, C)| +
            |WithCode(cfg, s, paths, S)|
    decreases paths
  {
    hide Decide;
    var coded := set p | p in paths && CodeOf(Decide(cfg, s, p)).Some?;
    if paths == {} {
      assert coded == {} && forall c :: WithCode(cfg, s, paths, c) == {};
    } else {
      var p :| p in paths;
      var rest := paths - {p};
      CodedPathsByCode(cfg, s, rest);
      CountOneMore(cfg, s, rest, p);
      assert rest + {p} == paths;
      hide WithCode;
      var fewer := set q | q in rest && CodeOf(Decide(cfg, s, q)).Some?;
      assert coded == if CodeOf(Decide(cfg, s, p)).Some? then fewer + {p} else fewer;
    }
  }

  /** The counters of everything that is not the same. */
  function Differing(plan: MountReconcilePlan): nat
    reads plan
  {
    plan.importCount + plan.uploadCount + plan.downloadCount + plan.deleteLocalCount +
    plan.deleteRemoteCount + plan.conflictCount + plan.skippedCount
  }

  lemma CountersAreCounts(plan: MountReconcilePlan, i: nat, u: nat, d: nat, dl: nat, dr: nat, c: nat, k: nat)
    requires plan.CountOf(I) == i && plan.CountOf(U) == u && plan.CountOf(D) == d && plan.CountOf(DL) == dl
    requires plan.CountOf(DR) == dr && plan.CountOf(C) == c && plan.CountOf(S) == k
    ensures Differing(plan) == i + u + d + dl + dr + c + k
  {
  }

  lemma CountersSumToOperations(plan: MountReconcilePlan)
    requires forall c :: plan.CountOf(c) == OpsWithCode(plan.operations, c)
    ensures Differing(plan) == |plan.operations|
  {
    var ops := plan.operations;
    OpsByCode(ops);
    CountersAreCounts(plan, OpsWithCode(ops, I), OpsWithCode(ops, U), OpsWithCode(ops, D), OpsWithCode(ops, DL),
                      OpsWithCode(ops, DR), OpsWithCode(ops, C), OpsWithCode(ops, S));
    hide OpsWithCode;
  }

  lemma CountersSumToPaths(plan: MountReconcilePlan, cfg: Config, s: Scans)
    requires AllReadable(cfg, s) && plan.Holds(cfg, s, PlannedPaths(s))
    ensures plan.sameCount + Differing(plan) == |Union(s)|
  {
    hide Decide, Listed, Adopted, WithCode, WithSame;
    var all := PlannedPaths(s);
    SameAndCodedCover(cfg, s);
    CodedPathsByCode(cfg, s, all);
    CountersAreCounts(plan, |WithCode(cfg, s, all, I)|, |WithCode(cfg, s, all, U)|, |WithCode(cfg, s, all, D)|,
                      |WithCode(cfg, s, all, DL)|, |WithCode(cfg, s, all, DR)|, |WithCode(cfg, s, all, C)|,
                      |WithCode(cfg, s, all, S)|);
  }

  /**
   Every scanned path is counted in exactly one counter: the counters sum to the number of
   paths in local or remote, and every path that is not the same has exactly one operation.
   */
  lemma PlanPartitionsPaths(plan: MountReconcilePlan, cfg: Config, s: Scans)
    requires AllReadable(cfg, s) && plan.Holds(cfg, s, PlannedPaths(s))
    ensures plan.sameCount + plan.importCount + plan.uploadCount + plan.downloadCount + plan.deleteLocalCount +
            plan.deleteRemoteCount + plan.conflictCount + plan.skippedCount == |Union(s)|
    ensures plan.sameCount + |plan.operations| == |Union(s)|
    ensures forall c :: plan.CountOf(c) == OpsWithCode(plan.operations, c)
  {
    forall c
      ensures plan.CountOf(c) == OpsWithCode(plan.operations, c)
    {
      OperationsMatchCounters(plan.operations, cfg, s, PlannedPaths(s), c);
    }
    CountersSumToPaths(plan, cfg, s);
    CountersSumToOperations(plan);
    hide Decide, Listed, Adopted, WithCode, WithSame, OpsWithCode;
  }

  lemma ReportableMeansListed(plan: MountReconcilePlan, cfg: Config, s: Scans)
    requires AllReadable(cfg, s) && plan.Holds(cfg, s, PlannedPaths(s))
    ensures plan.HasReportableChanges() <==> plan.operations != []
  {
    PlanPartitionsPaths(plan, cfg, s);
    hide Decide, Listed, Adopted, WithCode, WithSame, OpsWithCode;
  }

  /** Nothing is reportable exactly when every scanned path is the same on both sides. */
  lemma QuietPlanIsAllSame(plan: MountReconcilePlan, cfg: Config, s: Scans)
    requires AllReadable(cfg, s) && plan.Holds(cfg, s, PlannedPaths(s))
    ensures plan.operations == [] <==> forall p :: p in Union(s) ==> IsSame(Decide(cfg, s, p))
    ensures plan.HasReportableChanges() <==> plan.operations != []
  {
    ReportableMeansListed(plan, cfg, s);
    SameAndCodedCover(cfg, s);
    hide Decide, ShownKind;
    if plan.operations != [] {
      var op := plan.operations[0];
      assert op in plan.operations && op.path in PlannedPaths(s);
    }
  }

  // ------------------------------------------------------------------
  // Read-only plans
  // ------------------------------------------------------------------

  lemma ReadonlyDecision(cfg: Config, s: Scans, p: Path)
    requires cfg.readonly
    ensures var d := Decide(cfg, s, p);
            !d.Import? && !d.Upload? && !d.DeleteRemote? && (s.entries != map[] ==> !d.Conflict?)
  {
    hide HasLiveDescendants, ObservedChangedFromStored;
    if p in s.local && p in s.remote {
      BaselineCases(s, p, s.local[p], s.remote[p]);
      hide MountBaselineEntry;
    }
  }

  lemma ReadonlyHasNone(cfg: Config, s: Scans, c: Code)
    requires cfg.readonly && (c == I || c == U || c == DR || (c == C && s.entries != map[]))
    ensures |WithCode(cfg, s, PlannedPaths(s), c)| == 0
  {
    hide Decide;
    forall p
      ensures CodeOf(Decide(cfg, s, p)) != Some(c)
    {
      ReadonlyDecision(cfg, s, p);
    }
    assert WithCode(cfg, s, PlannedPaths(s), c) == {};
  }

  /** A read-only plan never writes to the remote, and with a baseline it never asks either. */
  lemma ReadonlyPlanLeavesRemoteAlone(plan: MountReconcilePlan, cfg: Config, s: Scans)
    requires cfg.readonly && plan.Holds(cfg, s, PlannedPaths(s))
    ensures plan.importCount == plan.uploadCount == plan.deleteRemoteCount == 0
    ensures s.entries != map[] ==> plan.conflictCount == 0
  {
    hide Decide, Listed, Adopted, WithCode, WithSame;
    assert plan.CountOf(I) == 0 by { ReadonlyHasNone(cfg, s, I); }
    assert plan.CountOf(U) == 0 by { ReadonlyHasNone(cfg, s, U); }
    assert plan.CountOf(DR) == 0 by { ReadonlyHasNone(cfg, s, DR); }
    if s.entries != map[] {
      assert plan.CountOf(C) == 0 by { ReadonlyHasNone(cfg, s, C); }
    }
  }

  // ------------------------------------------------------------------
  // What a plan throws away
  // ------------------------------------------------------------------

  /** The side differs from what the baseline recorded of it, a tombstone taken for what it was before. */
  predicate Differs(m: Meta, stored: SyncEntry, localSide: bool) {
    var live := stored.(deleted := false);
    !(if localSide then LocalStands(m, live) else RemoteStands(m, live))
  }

  /** The local side holds something the baseline does not, and the plan removes or replaces it. */
  ghost predicate DiscardsLocalChange(cfg: Config, s: Scans, p: Path) {
    && p in s.local
    && (p in s.entries ==> Differs(s.local[p], s.entries[p], true))
    && (Decide(cfg, s, p).DeleteLocal? || Decide(cfg, s, p).Download?)
  }

  ghost predicate DiscardsRemoteChange(cfg: Config, s: Scans, p: Path) {
    && p in s.remote
    && (p in s.entries ==> Differs(s.remote[p], s.entries[p], false))
    && (Decide(cfg, s, p).DeleteRemote? || Decide(cfg, s, p).Upload? || Decide(cfg, s, p).Import?)
  }

  /**
   A writable plan is not a symmetric merge. It throws a local change away exactly where the
   remote deleted a path that was changed locally, and a remote one exactly where a path with
   a pending local deletion was changed remotely since (a directory with live children excepted).
   */
  lemma WhatAWritablePlanDiscards(cfg: Config, s: Scans, p: Path)
    requires !cfg.readonly
    ensures DiscardsLocalChange(cfg, s, p) <==>
            && p in s.local && p !in s.remote && p in s.entries && !s.entries[p].deleted
            && Differs(s.local[p], s.entries[p], true)
    ensures DiscardsRemoteChange(cfg, s, p) <==>
            && p !in s.local && p in s.remote && p in s.entries && s.entries[p].deleted
            && Differs(s.remote[p], s.entries[p], false)
            && !(s.remote[p].kind == DirKind && HasLiveDescendants(s, p))
  {
    if p in s.entries {
      assert s.entries[p].deleted || s.entries[p].(deleted := false) == s.entries[p];
    }
    assert p in s.local && p in s.entries && s.entries[p].deleted ==> ObservedChangedFromStored(s.local[p], s.entries[p], true);
    assert p in s.remote && p in s.entries && s.entries[p].deleted ==> ObservedChangedFromStored(s.remote[p], s.entries[p], false);
    hide HasLiveDescendants, ObservedChangedFromStored;
    if p in s.local && p in s.remote {
      BaselineCases(s, p, s.local[p], s.remote[p]);
      hide MountBaselineEntry;
    }
  }

  // ------------------------------------------------------------------
  // Executing a plan
  // ------------------------------------------------------------------

  datatype Node = Node(meta: Meta, data: Bytes)

  datatype World = World(local: map<Path, Node>, remote: map<Path, Node>, entries: map<Path, SyncEntry>)

  function ScansOf(w: World, now: int): Scans {
    Scans(map p | p in w.local :: w.local[p].meta, map p | p in w.remote :: w.remote[p].meta, w.entries,
          map p | p in w.local :: w.local[p].data, map p | p in w.remote :: w.remote[p].data, now)
  }

  ghost predicate WellScanned(n: Node) {
    && (n.meta.kind == FileKind || n.meta.kind == DirKind || n.meta.kind == SymlinkKind)
    && (n.meta.kind == FileKind ==> n.meta.size == |n.data|)
  }

  /** Metadata that did not move off a live baseline means content that did not move. */
  ghost predicate TrustedAt(w: World, p: Path) {
    p in w.local && p in w.remote && p in w.entries && w.local[p].meta.kind == FileKind
    && LocalStands(w.local[p].meta, w.entries[p]) && RemoteStands(w.remote[p].meta, w.entries[p])
    ==> w.local[p].data == w.remote[p].data
  }

  ghost predicate Plannable(w: World) {
    && (forall p :: p in w.local ==> WellScanned(w.local[p]))
    && (forall p :: p in w.remote ==> WellScanned(w.remote[p]))
    && (forall p :: p in w.local ==> TrustedAt(w, p))
  }

  /** The metadata a fresh write gets on the side it lands on. */
  datatype Stamp = Stamp(mtimeMs: int, revision: string, inode: nat)

  datatype Sides = Sides(local: Option<Node>, remote: Option<Node>, stored: Option<SyncEntry>)

  function Record(l: Node, r: Node, now: int): SyncEntry {
    EMPTY_ENTRY.(kind := l.meta.kind, mode := l.meta.mode, size := l.meta.size, target := l.meta.target,
                 localHash := Raw(l.data), remoteHash := Raw(r.data), lastSyncedAt := now,
                 localMtimeMs := l.meta.mtimeMs, remoteMtimeMs := r.meta.mtimeMs,
                 remoteRevision := r.meta.revision, remoteInode := r.meta.inode)
  }

  function Tombstone(stored: Option<SyncEntry>): Option<SyncEntry> {
    match stored
    case None => None
    case Some(e) => Some(e.(deleted := true))
  }

  /** Carries one decision out: makes the sides equal and records what both then show. */
  function Execute(d: Decision, sides: Sides, st: Stamp, now: int): Sides {
    match d
    case Adopt(entry) => sides.(stored := Some(entry))
    case Import => PushUp(sides, st, now)
    case Upload => PushUp(sides, st, now)
    case Download =>
      if sides.remote.None? then sides
      else
        var r := sides.remote.value;
        var l := Node(r.meta.(mtimeMs := st.mtimeMs, revision := "", inode := 0), r.data);
        Sides(Some(l), Some(r), Some(Record(l, r, now)))
    case DeleteLocal => Sides(None, sides.remote, Tombstone(sides.stored))
    case DeleteRemote => Sides(sides.local, None, Tombstone(sides.stored))
    case _ => sides
  }

  function PushUp(sides: Sides, st: Stamp, now: int): Sides {
    if sides.local.None? then sides
    else
      var l := sides.local.value;
      var r := Node(l.meta.(mtimeMs := st.mtimeMs, revision := st.revision, inode := st.inode), l.data);
      Sides(Some(l), Some(r), Some(Record(l, r, now)))
  }

  function SidesAt(w: World, p: Path): Sides {
    Sides(Lookup(w.local, p), Lookup(w.remote, p), Lookup(w.entries, p))
  }

  /** `after` is `w` with the plan carried out at every path, with some stamps for the writes. */
  ghost predicate Executed(cfg: Config, w: World, after: World, stamps: map<Path, Stamp>, now: int) {
    var s := ScansOf(w, now);
    && after.local.Keys + after.remote.Keys + after.entries.Keys <= PlannedPaths(s)
    && stamps.Keys == PlannedPaths(s)
    && forall p :: p in PlannedPaths(s) ==>
         SidesAt(after, p) == Execute(Decide(cfg, s, p), SidesAt(w, p), stamps[p], now)
  }

  ghost predicate AllClear(cfg: Config, s: Scans) {
    forall p :: p in PlannedPaths(s) ==>
                  var d := Decide(cfg, s, p); !d.Conflict? && !d.Skip? && !d.Unreadable?
  }

  ghost predicate SameContent(l: Node, r: Node) {
    && l.meta.kind == r.meta.kind
    && (l.meta.kind == FileKind ==> l.data == r.data)
    && (l.meta.kind == SymlinkKind ==> l.meta.target == r.meta.target)
  }

  ghost predicate AgreeAt(sides: Sides) {
    match (sides.local, sides.remote)
    case (None, None) => true
    case (Some(l), Some(r)) => SameContent(l, r)
    case _ => false
  }

  lemma SidesInScans(w: World, now: int, p: Path)
    ensures var s := ScansOf(w, now);
            && (p in s.local <==> p in w.local) && (p in s.remote <==> p in w.remote) && s.entries == w.entries
            && (p in w.local ==> s.local[p] == w.local[p].meta && p in s.localData && s.localData[p] == w.local[p].data)
            && (p in w.remote ==> s.remote[p] == w.remote[p].meta && p in s.remoteData && s.remoteData[p] == w.remote[p].data)
  {
  }

  lemma WorldsAreReadable(cfg: Config, w: World, now: int)
    ensures AllReadable(cfg, ScansOf(w, now))
  {
    var s := ScansOf(w, now);
    forall p
      ensures !Decide(cfg, s, p).Unreadable?
    {
      SidesInScans(w, now, p);
      hide HasLiveDescendants, ObservedChangedFromStored;
    }
  }

  lemma DecisionAt(cfg: Config, w: World, now: int, p: Path, st: Stamp)
    requires !cfg.readonly && Plannable(w)
    requires var d := Decide(cfg, ScansOf(w, now), p); !d.Conflict? && !d.Skip? && !d.Unreadable?
    ensures AgreeAt(Execute(Decide(cfg, ScansOf(w, now), p), SidesAt(w, p), st, now))
  {
    SidesInScans(w, now, p);
    hide HasLiveDescendants;
    if p in w.local {
      assert TrustedAt(w, p);
    }
  }

  /** After a clear writable plan is carried out, both sides hold the same content at every path. */
  lemma ExecutedPlanConverges(cfg: Config, w: World, after: World, stamps: map<Path, Stamp>, now: int, p: Path)
    requires !cfg.readonly && Plannable(w) && Executed(cfg, w, after, stamps, now)
    requires AllClear(cfg, ScansOf(w, now))
    ensures AgreeAt(SidesAt(after, p))
  {
    hide Decide, Execute, Plannable;
    if p in PlannedPaths(ScansOf(w, now)) {
      DecisionAt(cfg, w, now, p, stamps[p]);
    }
  }

  /** An adopted directory whose two modes are both known and differ. */
  ghost predicate DisputedMode(cfg: Config, w: World, now: int, p: Path) {
    && Decide(cfg, ScansOf(w, now), p).Adopt? && p in w.local && p in w.remote
    && w.local[p].meta.kind == DirKind
    && w.local[p].meta.mode != 0 && w.remote[p].meta.mode != 0 && w.local[p].meta.mode != w.remote[p].meta.mode
  }

  /** Where a decision can come from. */
  lemma DecisionSources(cfg: Config, s: Scans, p: Path)
    ensures var d := Decide(cfg, s, p);
            && (d.Same? ==> && p in s.local && p in s.remote && p in s.entries
                            && !ObservedChangedFromStored(s.local[p], s.entries[p], true)
                            && !ObservedChangedFromStored(s.remote[p], s.entries[p], false))
            && (d.Adopt? ==> p in s.local && p in s.remote && d == MountBaselineEntry(s, p, s.local[p], s.remote[p]))
            && (d.Import? || d.Upload? ==> p in s.local)
            && (d.Download? ==> p in s.remote)
            && (d.DeleteLocal? ==> p !in s.remote && p in s.entries)
            && (d.DeleteRemote? ==> p !in s.local && p in s.entries)
            && (d.Neither? ==> p !in s.local && p !in s.remote)
  {
    hide HasLiveDescendants, ObservedChangedFromStored;
    if p in s.local && p in s.remote {
      BaselineCases(s, p, s.local[p], s.remote[p]);
      hide MountBaselineEntry;
    }
  }

  /** With a baseline and an unmoved remote, a path is the same exactly when its local side did not move. */
  lemma SameAgain(cfg: Config, s: Scans, p: Path)
    requires p in s.local && p in s.remote && p in s.entries
    requires !ObservedChangedFromStored(s.remote[p], s.entries[p], false)
    ensures IsSame(Decide(cfg, s, p)) <==> !ObservedChangedFromStored(s.local[p], s.entries[p], true)
    ensures !Decide(cfg, s, p).Neither?
  {
    hide HasLiveDescendants, ObservedChangedFromStored, MountBaselineEntry;
    assert s.entries != map[];
  }

  lemma RecordedIsUnmoved(l: Node, r: Node, now: int)
    requires WellScanned(l) && SameContent(l, r) && l.meta.mode == r.meta.mode && l.meta.size == r.meta.size
    ensures !ObservedChangedFromStored(l.meta, Record(l, r, now), true)
    ensures !ObservedChangedFromStored(r.meta, Record(l, r, now), false)
  {
  }

  lemma AdoptedIsUnmoved(s: Scans, p: Path, l: Meta, r: Meta)
    requires MountBaselineEntry(s, p, l, r).Adopt?
    ensures var e := MountBaselineEntry(s, p, l, r).entry;
            && !ObservedChangedFromStored(r, e, false)
            && (ObservedChangedFromStored(l, e, true) <==>
                l.kind == DirKind && l.mode != 0 && r.mode != 0 && l.mode != r.mode)
  {
  }

  /** What carrying one decision out leaves at its path. */
  lemma ExecutedSides(cfg: Config, w: World, now: int, p: Path, st: Stamp)
    requires Plannable(w)
    requires var d := Decide(cfg, ScansOf(w, now), p); !d.Conflict? && !d.Skip? && !d.Unreadable?
    ensures var sides := Execute(Decide(cfg, ScansOf(w, now), p), SidesAt(w, p), st, now);
            if sides.local.Some? && sides.remote.Some? then
              && sides.stored.Some?
              && !ObservedChangedFromStored(sides.remote.value.meta, sides.stored.value, false)
              && (ObservedChangedFromStored(sides.local.value.meta, sides.stored.value, true) <==>
                  DisputedMode(cfg, w, now, p))
            else sides.local.None? && sides.remote.None? && !DisputedMode(cfg, w, now, p)
  {
    var s := ScansOf(w, now);
    var d := Decide(cfg, s, p);
    SidesInScans(w, now, p);
    DecisionSources(cfg, s, p);
    var sides := Execute(d, SidesAt(w, p), st, now);
    assert p in w.local ==> WellScanned(w.local[p]);
    assert p in w.remote ==> WellScanned(w.remote[p]);
    if d.Adopt? {
      AdoptedIsUnmoved(s, p, s.local[p], s.remote[p]);
    }
    hide Decide, MountBaselineEntry, ObservedChangedFromStored, Plannable, Record;
    if d.Import? || d.Upload? || d.Download? {
      RecordedIsUnmoved(sides.local.value, sides.remote.value, now);
    }
  }

  lemma ReplanAt(cfg: Config, w: World, after: World, stamps: map<Path, Stamp>, now: int, later: int, p: Path)
    requires !cfg.readonly && Plannable(w) && Executed(cfg, w, after, stamps, now)
    requires AllClear(cfg, ScansOf(w, now)) && p in PlannedPaths(ScansOf(w, now))
    ensures var d := Decide(cfg, ScansOf(after, later), p);
            IsSame(d) || d.Neither? <==> !DisputedMode(cfg, w, now, p)
  {
    ExecutedSides(cfg, w, now, p, stamps[p]);
    assert SidesAt(after, p) == Execute(Decide(cfg, ScansOf(w, now), p), SidesAt(w, p), stamps[p], now);
    SidesInScans(after, later, p);
    hide Decide, Execute, ObservedChangedFromStored, DisputedMode, Executed, AllClear, Plannable;
    if p in after.local {
      SameAgain(cfg, ScansOf(after, later), p);
    } else {
      DecisionCases(cfg, ScansOf(after, later), p);
    }
  }

  lemma NothingScannedNothingFound(cfg: Config, w: World, after: World, stamps: map<Path, Stamp>, now: int, p: Path)
    requires Executed(cfg, w, after, stamps, now) && p !in Union(ScansOf(w, now))
    ensures p !in after.local && p !in after.remote
  {
    var s := ScansOf(w, now);
    if p in PlannedPaths(s) {
      DecisionCases(cfg, s, p);
      SidesInScans(w, now, p);
      assert SidesAt(after, p) == SidesAt(w, p);
    }
  }

  /**
   Planning again right after a clear writable plan was carried out finds nothing to do,
   unless an adopted directory has two known and different modes: the adopted baseline takes
   the remote mode, so the local directory then counts as changed.
   */
  lemma ReplanIsQuiet(cfg: Config, w: World, after: World, stamps: map<Path, Stamp>, now: int, later: int)
    requires !cfg.readonly && Plannable(w) && Executed(cfg, w, after, stamps, now)
    requires AllClear(cfg, ScansOf(w, now))
    ensures (forall p :: p in Union(ScansOf(after, later)) ==> IsSame(Decide(cfg, ScansOf(after, later), p))) <==>
            (forall p :: p in PlannedPaths(ScansOf(w, now)) ==> !DisputedMode(cfg, w, now, p))
  {
    var s, s' := ScansOf(w, now), ScansOf(after, later);
    forall p
      ensures p in Union(s') ==> p in PlannedPaths(s) && (IsSame(Decide(cfg, s', p)) <==> !DisputedMode(cfg, w, now, p))
      ensures p in PlannedPaths(s) && DisputedMode(cfg, w, now, p) ==> p in Union(s')
    {
      SidesInScans(after, later, p);
      DecisionCases(cfg, s', p);
      if p in Union(s) {
        ReplanAt(cfg, w, after, stamps, now, later, p);
      } else {
        NothingScannedNothingFound(cfg, w, after, stamps, now, p);
        DecisionCases(cfg, s, p);
      }
      hide Decide, Execute, Plannable, Executed, AllClear;
    }
    hide Decide, Execute, Plannable, Executed, AllClear, DisputedMode;
  }

  /** Every world has an executed successor, so the laws above are about something. */
  lemma PlansCanBeExecuted(cfg: Config, w: World, stamps: map<Path, Stamp>, now: int) returns (after: World)
    requires stamps.Keys == PlannedPaths(ScansOf(w, now))
    ensures Executed(cfg, w, after, stamps, now)
  {
    var s := ScansOf(w, now);
    hide Decide, Execute;
    var sides := map p | p in PlannedPaths(s) :: Execute(Decide(cfg, s, p), SidesAt(w, p), stamps[p], now);
    after := World(map p | p in sides && sides[p].local.Some? :: sides[p].local.value,
                   map p | p in sides && sides[p].remote.Some? :: sides[p].remote.value,
                   map p | p in sides && sides[p].stored.Some? :: sides[p].stored.value);
  }

  /** The rebuilt plan lists nothing exactly when no adopted directory disputes its mode. */
  lemma RebuiltPlanIsEmpty(cfg: Config, w: World, after: World, stamps: map<Path, Stamp>, now: int, later: int,
                           rebuilt: MountReconcilePlan)
    requires !cfg.readonly && Plannable(w) && Executed(cfg, w, after, stamps, now)
    requires AllClear(cfg, ScansOf(w, now))
    requires rebuilt.Holds(cfg, ScansOf(after, later), PlannedPaths(ScansOf(after, later)))
    ensures rebuilt.operations == [] <==>
            forall p :: p in PlannedPaths(ScansOf(w, now)) ==> !DisputedMode(cfg, w, now, p)
  {
    WorldsAreReadable(cfg, after, later);
    QuietPlanIsAllSame(rebuilt, cfg, ScansOf(after, later));
    ReplanIsQuiet(cfg, w, after, stamps, now, later);
    hide Decide, Execute, Plannable, Executed, AllClear, DisputedMode, Listed, Adopted;
  }
}
