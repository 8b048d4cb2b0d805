/**
 The mount planner: a per-path three-way decision over the local scan, the remote scan and
 the stored baseline, collected into counters, an operation list and an adopted baseline.
 */
module MountPlan {
  import opened ByteStrings
  import opened Digests
  import opened SyncTypes
  import opened Ordering

  type Path = string

  /** What a scan observes of one path; revision and inode are set on the remote side only. */
  datatype Meta = Meta(kind: Kind, mode: nat, size: nat, mtimeMs: int, target: string, revision: string, inode: nat)

  datatype Config = Config(readonly: bool, maxFileBytes: int)

  /** Everything one planning pass reads; a path missing from a content map cannot be read. */
  datatype Scans = Scans(
    local: map<Path, Meta>,
    remote: map<Path, Meta>,
    entries: map<Path, SyncEntry>,
    localData: map<Path, Bytes>,
    remoteData: map<Path, Bytes>,
    now: int)

  datatype Decision =
    | Neither
    | Same
    | Adopt(entry: SyncEntry)
    | Import
    | Upload
    | Download
    | DeleteLocal
    | DeleteRemote
    | Conflict
    | Skip
    | Unreadable

  function Lookup<T>(m: map<Path, T>, p: Path): Option<T> {
    if p in m then Some(m[p]) else None
  }

  // ------------------------------------------------------------------
  // The decision for one path
  // ------------------------------------------------------------------

  /** Did this side move off what the baseline recorded? Unknown metadata counts as unmoved. */
  predicate ObservedChangedFromStored(m: Meta, stored: SyncEntry, localSide: bool) {
    if stored.deleted || m.kind != stored.kind then true
    else match m.kind
      case DirKind => stored.mode != 0 && m.mode != 0 && m.mode != stored.mode
      case SymlinkKind => m.target != stored.target
      case FileKind =>
        if m.size != stored.size then true
        else if localSide then stored.localMtimeMs != 0 && m.mtimeMs != stored.localMtimeMs
        else
          || (stored.remoteRevision != "" && m.revision != "" &&
              (m.revision != stored.remoteRevision || m.inode != stored.remoteInode))
          || (stored.remoteMtimeMs != 0 && m.mtimeMs != stored.remoteMtimeMs)
      case _ => true
  }

  /** Adopts a path whose two sides already agree, comparing contents where metadata is not enough. */
  function MountBaselineEntry(s: Scans, path: Path, l: Meta, r: Meta): Decision {
    if l.kind != r.kind then Conflict
    else match l.kind
      case DirKind =>
        Adopt(EMPTY_ENTRY.(kind := DirKind, mode := r.mode, localMtimeMs := l.mtimeMs,
                           remoteMtimeMs := r.mtimeMs, lastSyncedAt := s.now))
      case SymlinkKind =>
        if l.target != r.target then Conflict
        else Adopt(EMPTY_ENTRY.(kind := SymlinkKind, target := l.target, lastSyncedAt := s.now))
      case FileKind =>
        if l.size != r.size then Conflict
        else if path !in s.localData || path !in s.remoteData then Unreadable
        else if Raw(s.localData[path]) != Raw(s.remoteData[path]) then Conflict
        else
          Adopt(EMPTY_ENTRY.(kind := FileKind, mode := if r.mode == 0 then l.mode else r.mode, size := l.size,
                             localHash := Raw(s.localData[path]), remoteHash := Raw(s.remoteData[path]),
                             localMtimeMs := l.mtimeMs, remoteMtimeMs := r.mtimeMs, lastSyncedAt := s.now))
      case _ => Conflict
  }

  predicate Oversized(cfg: Config, m: Meta) {
    m.kind == FileKind && cfg.maxFileBytes > 0 && m.size > cfg.maxFileBytes
  }

  function Push(cfg: Config, m: Meta, accepted: Decision): Decision {
    if cfg.readonly || Oversized(cfg, m) then Skip else accepted
  }

  /** Without any baseline the two sides are merged as they are found. */
  function FreshDecision(cfg: Config, s: Scans, path: Path): Decision {
    match (Lookup(s.local, path), Lookup(s.remote, path))
    case (None, None) => Neither
    case (Some(l), None) => Push(cfg, l, Import)
    case (None, Some(_)) => Download
    case (Some(l), Some(r)) => MountBaselineEntry(s, path, l, r)
  }

  function DirPrefix(path: Path): Path {
    (if |path| > 0 && path[|path| - 1] == '/' then path[..|path| - 1] else path) + "/"
  }

  predicate LiveDescendant(s: Scans, path: Path, child: Path) {
    && child in s.remote && DirPrefix(path) <= child
    && !(child in s.entries && s.entries[child].deleted)
  }

  ghost predicate HasLiveDescendants(s: Scans, path: Path) {
    exists child :: LiveDescendant(s, path, child)
  }

  function RemoteOnly(cfg: Config, s: Scans, r: Meta, stored: Option<SyncEntry>, live: bool): Decision {
    if stored.None? then Download
    else if stored.value.deleted then
      if r.kind == DirKind && live then Download
      else if cfg.readonly then Skip
      else DeleteRemote
    else if cfg.readonly then Download
    else if ObservedChangedFromStored(r, stored.value, false) then Conflict
    else DeleteRemote
  }

  function BothSides(cfg: Config, s: Scans, path: Path, l: Meta, r: Meta, stored: Option<SyncEntry>): Decision {
    if stored.None? then
      var baseline := MountBaselineEntry(s, path, l, r);
      if baseline.Conflict? && cfg.readonly then Download else baseline
    else
      var localChanged := ObservedChangedFromStored(l, stored.value, true);
      var remoteChanged := ObservedChangedFromStored(r, stored.value, false);
      if !localChanged && !remoteChanged then Same
      else if !remoteChanged then Push(cfg, l, Upload)
      else if !localChanged || cfg.readonly then Download
      else MountBaselineEntry(s, path, l, r)
  }

  ghost function KnownDecision(cfg: Config, s: Scans, path: Path): Decision {
    var stored := Lookup(s.entries, path);
    match (Lookup(s.local, path), Lookup(s.remote, path))
    case (None, None) => Neither
    case (Some(l), None) => if stored.Some? && !stored.value.deleted then DeleteLocal else Push(cfg, l, Upload)
    case (None, Some(r)) => RemoteOnly(cfg, s, r, stored, HasLiveDescendants(s, path))
    case (Some(l), Some(r)) => BothSides(cfg, s, path, l, r, stored)
  }

  ghost function Decide(cfg: Config, s: Scans, path: Path): Decision {
    if s.entries == map[] then FreshDecision(cfg, s, path) else KnownDecision(cfg, s, path)
  }

  // ------------------------------------------------------------------
  // The plan
  // ------------------------------------------------------------------

  datatype Code = I | U | D | DL | DR | C | S

  datatype Operation = Operation(code: Code, path: Path, kind: Kind)

  function CodeOf(d: Decision): Option<Code> {
    match d
    case Import => Some(I)
    case Upload => Some(U)
    case Download => Some(D)
    case DeleteLocal => Some(DL)
    case DeleteRemote => Some(DR)
    case Conflict => Some(C)
    case Skip => Some(S)
    case _ => None
  }

  predicate IsSame(d: Decision) {
    d.Same? || d.Adopt?
  }

  /** The kind an operation shows: the local one where there is a local side that decided it. */
  ghost function ShownKind(cfg: Config, s: Scans, path: Path): Kind {
    var d := Decide(cfg, s, path);
    if d.Conflict? then
      if s.entries == map[] && path in s.local then s.local[path].kind else NoKind
    else if d.Download? || path !in s.local then
      if path in s.remote then s.remote[path].kind else NoKind
    else s.local[path].kind
  }

  ghost function WithCode(cfg: Config, s: Scans, paths: set<Path>, c: Code): set<Path> {
    set p | p in paths && CodeOf(Decide(cfg, s, p)) == Some(c)
  }

  ghost function WithSame(cfg: Config, s: Scans, paths: set<Path>): set<Path> {
    set p | p in paths && IsSame(Decide(cfg, s, p))
  }

  /** The operations are exactly those decided, in ascending order of their paths. */
  ghost predicate Listed(ops: seq<Operation>, cfg: Config, s: Scans, paths: set<Path>) {
    && (forall i, j :: 0 <= i < j < |ops| ==> Less(ops[i].path, ops[j].path))
    && (forall op :: op in ops ==>
          && op.path in paths && CodeOf(Decide(cfg, s, op.path)) == Some(op.code)
          && op.kind == ShownKind(cfg, s, op.path))
    && (forall p :: p in paths && CodeOf(Decide(cfg, s, p)).Some? ==>
          Operation(CodeOf(Decide(cfg, s, p)).value, p, ShownKind(cfg, s, p)) in ops)
  }

  /** The baseline the plan proposes is what the decisions adopt. */
  ghost predicate Adopted(baseline: map<Path, SyncEntry>, cfg: Config, s: Scans, paths: set<Path>) {
    baseline == map p | p in paths && Decide(cfg, s, p).Adopt? :: Decide(cfg, s, p).entry
  }

  ghost predicate AllBefore(ops: seq<Operation>, path: Path) {
    forall op :: op in ops ==> Less(op.path, path)
  }

  lemma ListOneMore(cfg: Config, s: Scans, ops: seq<Operation>, paths: set<Path>, path: Path)
    requires path !in paths && AllBefore(ops, path) && Listed(ops, cfg, s, paths)
    ensures var c := CodeOf(Decide(cfg, s, path));
            var more := if c.Some? then ops + [Operation(c.value, path, ShownKind(cfg, s, path))] else ops;
            Listed(more, cfg, s, paths + {path})
  {
    hide Decide, ShownKind;
    var c := CodeOf(Decide(cfg, s, path));
    if c.Some? {
      var op := Operation(c.value, path, ShownKind(cfg, s, path));
      assert (ops + [op])[|ops|] == op;
    }
  }

  lemma AdoptOneMore(cfg: Config, s: Scans, baseline: map<Path, SyncEntry>, paths: set<Path>, path: Path)
    requires path !in paths && Adopted(baseline, cfg, s, paths)
    ensures var d := Decide(cfg, s, path);
            Adopted(if d.Adopt? then baseline[path := d.entry] else baseline, cfg, s, paths + {path})
  {
    hide Decide;
  }

  lemma CountOneMore(cfg: Config, s: Scans, paths: set<Path>, path: Path)
    requires path !in paths
    ensures forall c :: |WithCode(cfg, s, paths + {path}, c)| ==
                        |WithCode(cfg, s, paths, c)| + (if CodeOf(Decide(cfg, s, path)) == Some(c) then 1 else 0)
    ensures |WithSame(cfg, s, paths + {path})| ==
            |WithSame(cfg, s, paths)| + (if IsSame(Decide(cfg, s, path)) then 1 else 0)
  {
    hide Decide;
    var d := Decide(cfg, s, path);
    forall c
      ensures |WithCode(cfg, s, paths + {path}, c)| ==
              |WithCode(cfg, s, paths, c)| + (if CodeOf(d) == Some(c) then 1 else 0)
    {
      var before, after := WithCode(cfg, s, paths, c), WithCode(cfg, s, paths + {path}, c);
      assert after == if CodeOf(d) == Some(c) then before + {path} else before;
    }
    var before, after := WithSame(cfg, s, paths), WithSame(cfg, s, paths + {path});
    assert after == if IsSame(d) then before + {path} else before;
  }

  /** What planning one more path does to every part of the plan. */
  lemma PlanOneMore(cfg: Config, s: Scans, ops: seq<Operation>, baseline: map<Path, SyncEntry>,
                    paths: set<Path>, path: Path)
    requires path !in paths && AllBefore(ops, path)
    requires Listed(ops, cfg, s, paths) && Adopted(baseline, cfg, s, paths)
    ensures var d := Decide(cfg, s, path);
            var c := CodeOf(d);
            var all := paths + {path};
            && Listed(if c.Some? then ops + [Operation(c.value, path, ShownKind(cfg, s, path))] else ops, cfg, s, all)
            && Adopted(if d.Adopt? then baseline[path := d.entry] else baseline, cfg, s, all)
            && (forall k :: |WithCode(cfg, s, all, k)| == |WithCode(cfg, s, paths, k)| + (if c == Some(k) then 1 else 0))
            && |WithSame(cfg, s, all)| == |WithSame(cfg, s, paths)| + (if IsSame(d) then 1 else 0)
  {
    hide Decide, ShownKind, Listed, Adopted, WithCode, WithSame;
    ListOneMore(cfg, s, ops, paths, path);
    AdoptOneMore(cfg, s, baseline, paths, path);
    CountOneMore(cfg, s, paths, path);
  }

  function Union(s: Scans): set<Path> {
    s.local.Keys + s.remote.Keys
  }

  class MountReconcilePlan {
    var sameCount: nat
    var importCount: nat
    var uploadCount: nat
    var downloadCount: nat
    var deleteLocalCount: nat
    var deleteRemoteCount: nat
    var conflictCount: nat
    var skippedCount: nat
    var operations: seq<Operation>
    var baseline: map<Path, SyncEntry>

    constructor ()
      ensures sameCount == importCount == uploadCount == downloadCount == 0
      ensures deleteLocalCount == deleteRemoteCount == conflictCount == skippedCount == 0
      ensures operations == [] && baseline == map[]
    {
      sameCount, importCount, uploadCount, downloadCount := 0, 0, 0, 0;
      deleteLocalCount, deleteRemoteCount, conflictCount, skippedCount := 0, 0, 0, 0;
      operations, baseline := [], map[];
    }

    function CountOf(c: Code): nat
      reads this
    {
      match c
      case I => importCount
      case U => uploadCount
      case D => downloadCount
      case DL => deleteLocalCount
      case DR => deleteRemoteCount
      case C => conflictCount
      case S => skippedCount
    }

    /** The plan holds what was decided for `paths`, and nothing else. */
    ghost predicate Holds(cfg: Config, s: Scans, paths: set<Path>)
      reads this
    {
      && sameCount == |WithSame(cfg, s, paths)|
      && (forall c :: CountOf(c) == |WithCode(cfg, s, paths, c)|)
      && Listed(operations, cfg, s, paths)
      && Adopted(baseline, cfg, s, paths)
    }

    /** Counts one operation and appends it. */
    method Add(code: Code, path: Path, kind: Kind)
      modifies this
      ensures operations == old(operations) + [Operation(code, path, kind)]
      ensures baseline == old(baseline) && sameCount == old(sameCount)
      ensures forall c :: CountOf(c) == old(CountOf(c)) + (if c == code then 1 else 0)
    {
      match code {
        case I => importCount := importCount + 1;
        case U => uploadCount := uploadCount + 1;
        case D => downloadCount := downloadCount + 1;
        case DL => deleteLocalCount := deleteLocalCount + 1;
        case DR => deleteRemoteCount := deleteRemoteCount + 1;
        case C => conflictCount := conflictCount + 1;
        case S => skippedCount := skippedCount + 1;
      }
      operations := operations + [Operation(code, path, kind)];
    }

    /** Every listed path precedes `path`. */
    ghost predicate Before(path: Path)
      reads this
    {
      AllBefore(operations, path)
    }

    /** One more path is planned as decided. */
    method AddDecided(cfg: Config, s: Scans, ghost paths: set<Path>, code: Code, path: Path, kind: Kind)
      requires Holds(cfg, s, paths) && Before(path) && path !in paths
      requires CodeOf(Decide(cfg, s, path)) == Some(code) && kind == ShownKind(cfg, s, path)
      modifies this
      ensures Holds(cfg, s, paths + {path})
    {
      hide Decide, ShownKind, WithCode, WithSame, Listed, Adopted;
      PlanOneMore(cfg, s, operations, baseline, paths, path);
      Add(code, path, kind);
    }

    method AddLocalOnly(cfg: Config, s: Scans, ghost paths: set<Path>, path: Path, m: Meta)
      requires Holds(cfg, s, paths) && Before(path) && path !in paths
      requires Decide(cfg, s, path) == Push(cfg, m, Import) && m.kind == ShownKind(cfg, s, path)
      modifies this
      ensures Holds(cfg, s, paths + {path})
    {
      if cfg.readonly {
        AddDecided(cfg, s, paths, S, path, m.kind);
        return;
      }
      if m.kind == FileKind && cfg.maxFileBytes > 0 && m.size > cfg.maxFileBytes {
        AddDecided(cfg, s, paths, S, path, m.kind);
        return;
      }
      AddDecided(cfg, s, paths, I, path, m.kind);
    }

    method AddKnownUpload(cfg: Config, s: Scans, ghost paths: set<Path>, path: Path, m: Meta)
      requires Holds(cfg, s, paths) && Before(path) && path !in paths
      requires Decide(cfg, s, path) == Push(cfg, m, Upload) && m.kind == ShownKind(cfg, s, path)
      modifies this
      ensures Holds(cfg, s, paths + {path})
    {
      if cfg.readonly {
        AddDecided(cfg, s, paths, S, path, m.kind);
        return;
      }
      if m.kind == FileKind && cfg.maxFileBytes > 0 && m.size > cfg.maxFileBytes {
        AddDecided(cfg, s, paths, S, path, m.kind);
        return;
      }
      AddDecided(cfg, s, paths, U, path, m.kind);
    }

    /** One more path is in sync; `adopted` is the baseline entry the plan proposes for it, if any. */
    method AddSame(cfg: Config, s: Scans, ghost paths: set<Path>, path: Path, adopted: Option<SyncEntry>)
      requires Holds(cfg, s, paths) && Before(path) && path !in paths
      requires Decide(cfg, s, path) == if adopted.Some? then Adopt(adopted.value) else Same
      modifies this
      ensures Holds(cfg, s, paths + {path})
    {
      hide Decide, ShownKind, WithCode, WithSame, Listed, Adopted;
      PlanOneMore(cfg, s, operations, baseline, paths, path);
      sameCount := sameCount + 1;
      if adopted.Some? {
        baseline := baseline[path := adopted.value];
      }
    }

    /** A path that only the baseline still mentions adds nothing. */
    lemma SkipStateOnly(cfg: Config, s: Scans, paths: set<Path>, path: Path)
      requires Holds(cfg, s, paths) && Before(path) && path !in paths && Decide(cfg, s, path) == Neither
      ensures Holds(cfg, s, paths + {path})
    {
      hide Decide, ShownKind, WithCode, WithSame, Listed, Adopted;
      PlanOneMore(cfg, s, operations, baseline, paths, path);
    }

    lemma StartsEmpty(cfg: Config, s: Scans)
      requires sameCount == importCount == uploadCount == downloadCount == 0
      requires deleteLocalCount == deleteRemoteCount == conflictCount == skippedCount == 0
      requires operations == [] && baseline == map[]
      ensures Holds(cfg, s, {})
    {
    }

    /** There is something to report to the user. */
    predicate HasReportableChanges()
      reads this
    {
      importCount > 0 || uploadCount > 0 || downloadCount > 0 || deleteLocalCount > 0 ||
      deleteRemoteCount > 0 || conflictCount > 0 || skippedCount > 0
    }
  }

  method MountRemoteDirHasLiveDescendants(s: Scans, path: Path) returns (b: bool)
    ensures b <==> HasLiveDescendants(s, path)
  {
    var prefix := DirPrefix(path);
    var rest := s.remote.Keys;
    while rest != {}
      invariant forall child :: LiveDescendant(s, path, child) ==> child in rest
      decreases rest
    {
      var child :| child in rest;
      rest := rest - {child};
      if !(prefix <= child) {
        continue;
      }
      if child in s.entries && s.entries[child].deleted {
        continue;
      }
      assert child in s.remote ==> LiveDescendant(s, path, child);
      if child in s.remote {
        return true;
      }
    }
    return false;
  }

  /** Plans one path against the stored baseline; false reports a content that could not be read. */
  method PlanKnownPath(cfg: Config, s: Scans, ghost paths: set<Path>, path: Path, plan: MountReconcilePlan)
    returns (ok: bool)
    requires s.entries != map[]
    requires plan.Holds(cfg, s, paths) && plan.Before(path) && path !in paths
    modifies plan
    ensures ok <==> !Decide(cfg, s, path).Unreadable?
    ensures ok ==> plan.Holds(cfg, s, paths + {path})
  {
    hide MountReconcilePlan.Holds, MountReconcilePlan.Before, HasLiveDescendants, MountBaselineEntry, ObservedChangedFromStored;
    var hasStored := path in s.entries;
    if path in s.local && path !in s.remote {
      var l := s.local[path];
      if hasStored && !s.entries[path].deleted {
        plan.AddDecided(cfg, s, paths, DL, path, l.kind);
        return true;
      }
      plan.AddKnownUpload(cfg, s, paths, path, l);
      return true;
    } else if path !in s.local && path in s.remote {
      PlanRemoteOnly(cfg, s, paths, path, plan);
      return true;
    } else if path in s.local && path in s.remote {
      ok := PlanBothSides(cfg, s, paths, path, plan);
    } else {
      plan.SkipStateOnly(cfg, s, paths, path);
      return true;
    }
  }

  method PlanRemoteOnly(cfg: Config, s: Scans, ghost paths: set<Path>, path: Path, plan: MountReconcilePlan)
    requires s.entries != map[] && path !in s.local && path in s.remote
    requires plan.Holds(cfg, s, paths) && plan.Before(path) && path !in paths
    modifies plan
    ensures !Decide(cfg, s, path).Unreadable? && plan.Holds(cfg, s, paths + {path})
  {
    hide MountReconcilePlan.Holds, MountReconcilePlan.Before, HasLiveDescendants, ObservedChangedFromStored;
    var hasStored := path in s.entries;
    var r := s.remote[path];
    if hasStored && s.entries[path].deleted {
      if r.kind == DirKind {
        var live := MountRemoteDirHasLiveDescendants(s, path);
        if live {
          plan.AddDecided(cfg, s, paths, D, path, r.kind);
          return;
        }
      }
      if cfg.readonly {
        plan.AddDecided(cfg, s, paths, S, path, r.kind);
        return;
      }
      plan.AddDecided(cfg, s, paths, DR, path, r.kind);
      return;
    }
    if hasStored {
      if cfg.readonly {
        plan.AddDecided(cfg, s, paths, D, path, r.kind);
        return;
      }
      if ObservedChangedFromStored(r, s.entries[path], false) {
        plan.AddDecided(cfg, s, paths, C, path, NoKind);
        return;
      }
      plan.AddDecided(cfg, s, paths, DR, path, r.kind);
      return;
    }
    plan.AddDecided(cfg, s, paths, D, path, r.kind);
  }

  method PlanBothSides(cfg: Config, s: Scans, ghost paths: set<Path>, path: Path, plan: MountReconcilePlan)
    returns (ok: bool)
    requires s.entries != map[] && path in s.local && path in s.remote
    requires plan.Holds(cfg, s, paths) && plan.Before(path) && path !in paths
    modifies plan
    ensures ok <==> !Decide(cfg, s, path).Unreadable?
    ensures ok ==> plan.Holds(cfg, s, paths + {path})
  {
    BaselineCases(s, path, s.local[path], s.remote[path]);
    hide MountReconcilePlan.Holds, MountReconcilePlan.Before, MountBaselineEntry, ObservedChangedFromStored;
    var l, r := s.local[path], s.remote[path];
    if path !in s.entries {
      var baseline := MountBaselineEntry(s, path, l, r);
      if baseline.Unreadable? {
        return false;
      }
      if baseline.Adopt? {
        plan.AddSame(cfg, s, paths, path, Some(baseline.entry));
        return true;
      }
      if cfg.readonly {
        plan.AddDecided(cfg, s, paths, D, path, r.kind);
        return true;
      }
      plan.AddDecided(cfg, s, paths, C, path, NoKind);
      return true;
    }
    var localChanged := ObservedChangedFromStored(l, s.entries[path], true);
    var remoteChanged := ObservedChangedFromStored(r, s.entries[path], false);
    if !localChanged && !remoteChanged {
      plan.AddSame(cfg, s, paths, path, None);
    } else if localChanged && !remoteChanged {
      plan.AddKnownUpload(cfg, s, paths, path, l);
    } else if !localChanged && remoteChanged {
      plan.AddDecided(cfg, s, paths, D, path, r.kind);
    } else {
      if cfg.readonly {
        plan.AddDecided(cfg, s, paths, D, path, r.kind);
        return true;
      }
      var baseline := MountBaselineEntry(s, path, l, r);
      if baseline.Unreadable? {
        return false;
      }
      if baseline.Adopt? {
        plan.AddSame(cfg, s, paths, path, Some(baseline.entry));
        return true;
      }
      plan.AddDecided(cfg, s, paths, C, path, NoKind);
    }
    return true;
  }

  lemma BaselineCases(s: Scans, path: Path, l: Meta, r: Meta)
    ensures var b := MountBaselineEntry(s, path, l, r); b.Adopt? || b.Conflict? || b.Unreadable?
  {
  }

  /** Plans one path without any baseline. */
  method PlanFreshPath(cfg: Config, s: Scans, ghost paths: set<Path>, path: Path, plan: MountReconcilePlan)
    returns (ok: bool)
    requires s.entries == map[] && path in Union(s)
    requires plan.Holds(cfg, s, paths) && plan.Before(path) && path !in paths
    modifies plan
    ensures ok <==> !Decide(cfg, s, path).Unreadable?
    ensures ok ==> plan.Holds(cfg, s, paths + {path})
  {
    hide MountReconcilePlan.Holds, MountReconcilePlan.Before, MountBaselineEntry;
    if path in s.local && path !in s.remote {
      plan.AddLocalOnly(cfg, s, paths, path, s.local[path]);
    } else if path !in s.local && path in s.remote {
      plan.AddDecided(cfg, s, paths, D, path, s.remote[path].kind);
    } else {
      var l, r := s.local[path], s.remote[path];
      BaselineCases(s, path, l, r);
      var baseline := MountBaselineEntry(s, path, l, r);
      if baseline.Unreadable? {
        return false;
      }
      if baseline.Adopt? {
        plan.AddSame(cfg, s, paths, path, Some(baseline.entry));
        return true;
      }
      plan.AddDecided(cfg, s, paths, C, path, l.kind);
    }
    return true;
  }

  function PlannedPaths(s: Scans): set<Path> {
    Union(s) + s.entries.Keys
  }

  /**
   Builds the plan, or stops at the first content that cannot be read. It walks local and
   remote paths, and with a baseline also the paths that only the baseline mentions.
   */
  method BuildMountReconcilePlan(cfg: Config, s: Scans) returns (ok: bool, plan: MountReconcilePlan)
    ensures fresh(plan)
    ensures ok <==> forall p :: p in PlannedPaths(s) ==> !Decide(cfg, s, p).Unreadable?
    ensures ok ==> plan.Holds(cfg, s, PlannedPaths(s))
  {
    plan := new MountReconcilePlan();
    plan.StartsEmpty(cfg, s);
    var paths := SortedStrings(PlannedPaths(s));
    ok := true;
    assert Prefix(paths, 0) == {};
    for i := 0 to |paths|
      invariant fresh(plan)
      invariant plan.Holds(cfg, s, Prefix(paths, i))
      invariant forall p :: p in Prefix(paths, i) ==> !Decide(cfg, s, p).Unreadable?
    {
      PrefixGrows(paths, i);
      NextIsBehind(cfg, s, paths, i, plan);
      hide MountReconcilePlan.Holds, MountReconcilePlan.Before, Decide, Prefix;
      if s.entries == map[] {
        ok := PlanFreshPath(cfg, s, Prefix(paths, i), paths[i], plan);
      } else {
        ok := PlanKnownPath(cfg, s, Prefix(paths, i), paths[i], plan);
      }
      if !ok {
        assert paths[i] in paths;
        return;
      }
    }
    assert Prefix(paths, |paths|) == PlannedPaths(s);
  }

  ghost function Prefix(paths: seq<Path>, n: nat): set<Path>
    requires n <= |paths|
  {
    set p | p in paths[..n]
  }

  lemma PrefixGrows(paths: seq<Path>, n: nat)
    requires n < |paths|
    ensures Prefix(paths, n + 1) == Prefix(paths, n) + {paths[n]}
  {
    assert paths[..n + 1] == paths[..n] + [paths[n]];
  }

  lemma NextIsBehind(cfg: Config, s: Scans, paths: seq<Path>, i: nat, plan: MountReconcilePlan)
    requires i < |paths| && StrictlySorted(paths)
    requires plan.Holds(cfg, s, Prefix(paths, i))
    ensures plan.Before(paths[i]) && paths[i] !in Prefix(paths, i)
  {
    hide Decide, ShownKind, WithCode, WithSame;
    LessIsIrreflexive(paths[i]);
    forall p | p in Prefix(paths, i)
      ensures Less(p, paths[i])
    {
      var j :| 0 <= j < i && paths[..i][j] == p;
    }
  }
}
