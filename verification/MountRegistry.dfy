/**
 The registry of mounted workspaces: which record a path or a reference stands for, and the
 guards that keep mounts away from each other.
 */
module MountRegistry {
  import opened Texts
  import opened SyncTypes

  // ------------------------------------------------------------------
  // Paths
  // ------------------------------------------------------------------

  /** An absolute path, as the names between its slashes. */
  type Raw = seq<string>

  const HERE := "."
  const UP := ".."

  predicate IsPlain(p: Raw) {
    forall i :: 0 <= i < |p| ==> p[i] != "" && p[i] != HERE && p[i] != UP
  }

  /** Resolves empty names, `.` and `..`; above the root is the root. */
  function Clean(raw: Raw): (p: Raw)
    ensures IsPlain(p)
  {
    if raw == [] then []
    else
      var front, last := Clean(raw[..|raw| - 1]), raw[|raw| - 1];
      if last == "" || last == HERE then front
      else if last == UP then (if front == [] then [] else front[..|front| - 1])
      else front + [last]
  }

  lemma {:induction false} PlainIsClean(p: Raw)
    requires IsPlain(p)
    ensures Clean(p) == p
  {
    if p != [] {
      PlainIsClean(p[..|p| - 1]);
    }
  }

  /** Cleaning the first part of a path early does not change where the whole leads. */
  lemma {:induction false} CleaningEarlyIsTheSame(first: Raw, rest: Raw)
    ensures Clean(Clean(first) + rest) == Clean(first + rest)
  {
    if rest == [] {
      assert Clean(first) + rest == Clean(first) && first + rest == first;
      PlainIsClean(Clean(first));
    } else {
      var n := |rest| - 1;
      assert (Clean(first) + rest)[..|Clean(first) + rest| - 1] == Clean(first) + rest[..n];
      assert (first + rest)[..|first + rest| - 1] == first + rest[..n];
      CleaningEarlyIsTheSame(first, rest[..n]);
    }
  }

  /** A name followed by `..` leads back. */
  lemma UpLeadsBack(path: Raw, name: string)
    requires name != "" && name != HERE && name != UP
    ensures Clean(path + [name, UP]) == Clean(path)
  {
    var down := path + [name];
    assert (path + [name, UP])[..|path| + 1] == down && down[..|path|] == path;
  }

  function CommonLength(a: Raw, b: Raw): (n: nat)
    ensures n <= |a| && n <= |b| && a[..n] == b[..n]
    ensures n < |a| && n < |b| ==> a[n] != b[n]
  {
    if a == [] || b == [] || a[0] != b[0] then 0
    else
      var n := CommonLength(a[1..], b[1..]);
      assert a[..n + 1] == [a[0]] + a[1..][..n] && b[..n + 1] == [b[0]] + b[1..][..n];
      n + 1
  }

  /** The way from one clean path to another: up to their common ancestor, then down. */
  function Rel(from: Raw, to: Raw): Raw {
    var n := CommonLength(from, to);
    seq(|from| - n, _ => UP) + to[n..]
  }

  predicate PathContains(parent: Raw, child: Raw) {
    var rel := Rel(Clean(parent), Clean(child));
    rel != [] && rel[0] != UP
  }

  predicate Below(p: Raw, parent: Raw) {
    |parent| < |p| && p[..|parent|] == parent
  }

  lemma ContainsMeansBelow(parent: Raw, child: Raw)
    ensures PathContains(parent, child) <==> Below(Clean(child), Clean(parent))
  {
    var a, b := Clean(parent), Clean(child);
    var n := CommonLength(a, b);
    assert n < |a| <= |b| ==> b[..|a|][n] == b[n];
  }

  predicate Overlapping(a: Raw, b: Raw) {
    a == b || Below(a, b) || Below(b, a)
  }

  // ------------------------------------------------------------------
  // Records
  // ------------------------------------------------------------------

  /** `details` stands for the fields that identify nothing. */
  datatype Record = Record(workspace: string, workspaceId: string, localPath: Raw, details: string)

  predicate At(rec: Record, path: Raw) {
    Clean(rec.localPath) == Clean(path)
  }

  /** A non-blank reference names a record by its workspace's name or id. */
  predicate NamedBy(rec: Record, ref: string) {
    TrimSpace(rec.workspace) == TrimSpace(ref) || TrimSpace(rec.workspaceId) == TrimSpace(ref)
  }

  predicate PathClash(rec: Record, path: Raw) {
    Overlapping(Clean(rec.localPath), Clean(path))
  }

  predicate WorkspaceClash(rec: Record, id: string, name: string) {
    || (TrimSpace(id) != "" && TrimSpace(rec.workspaceId) == TrimSpace(id))
    || (TrimSpace(name) != "" && TrimSpace(rec.workspace) == TrimSpace(name))
  }

  ghost predicate Separate(a: Record, b: Record) {
    && !Overlapping(Clean(a.localPath), Clean(b.localPath))
    && (TrimSpace(a.workspaceId) != "" ==> TrimSpace(a.workspaceId) != TrimSpace(b.workspaceId))
    && (TrimSpace(a.workspace) != "" ==> TrimSpace(a.workspace) != TrimSpace(b.workspace))
  }

  /** No two mounts share a place, an id or a name. */
  ghost predicate Disjoint(mounts: seq<Record>) {
    forall i, j :: 0 <= i < j < |mounts| ==> Separate(mounts[i], mounts[j])
  }

  function Without(mounts: seq<Record>, i: nat): seq<Record>
    requires i < |mounts|
  {
    mounts[..i] + mounts[i + 1..]
  }

  lemma RemovalKeepsDisjoint(mounts: seq<Record>, i: nat)
    requires i < |mounts| && Disjoint(mounts)
    ensures Disjoint(Without(mounts, i))
  {
    hide Separate;
    var rest := Without(mounts, i);
    forall j, k | 0 <= j < k < |rest|
      ensures Separate(rest[j], rest[k])
    {
      var j', k' := if j < i then j else j + 1, if k < i then k else k + 1;
      assert rest[j] == mounts[j'] && rest[k] == mounts[k'];
    }
  }

  /** The guards refuse exactly the mounts that would touch another one. */
  lemma GuardsAreExact(mounts: seq<Record>, rec: Record)
    requires Disjoint(mounts)
    ensures Disjoint(mounts + [rec]) <==>
              forall i :: 0 <= i < |mounts| ==>
                !PathClash(mounts[i], rec.localPath) && !WorkspaceClash(mounts[i], rec.workspaceId, rec.workspace)
  {
    hide Overlapping;
    var all := mounts + [rec];
    forall i | 0 <= i < |mounts|
      ensures Separate(mounts[i], rec) <==>
                !PathClash(mounts[i], rec.localPath) && !WorkspaceClash(mounts[i], rec.workspaceId, rec.workspace)
    {
    }
    hide Separate, PathClash, WorkspaceClash;
    assert all[|mounts|] == rec;
    if Disjoint(all) {
      forall i | 0 <= i < |mounts|
        ensures Separate(mounts[i], rec)
      {
        assert Separate(all[i], all[|mounts|]);
      }
    }
  }

  /** Places are unique among disjoint mounts. */
  lemma OneMountAtAPath(mounts: seq<Record>, path: Raw, i: nat, j: nat)
    requires Disjoint(mounts) && i < j < |mounts|
    ensures !(At(mounts[i], path) && At(mounts[j], path))
  {
    assert Separate(mounts[i], mounts[j]);
  }

  // ------------------------------------------------------------------
  // Searching
  // ------------------------------------------------------------------

  /** The first record at the path, or the number of records. */
  function IndexAt(mounts: seq<Record>, path: Raw): (i: nat)
    ensures i <= |mounts| && (i < |mounts| ==> At(mounts[i], path))
    ensures forall j :: 0 <= j < i ==> !At(mounts[j], path)
  {
    if mounts == [] || At(mounts[0], path) then 0 else 1 + IndexAt(mounts[1..], path)
  }

  /** The positions of the records that a reference names. */
  function Named(mounts: seq<Record>, ref: string): (found: seq<nat>)
    ensures forall k :: 0 <= k < |found| ==> found[k] < |mounts| && NamedBy(mounts[found[k]], ref)
    ensures forall i: nat :: i < |mounts| && NamedBy(mounts[i], ref) ==> i in found
    ensures forall k, l :: 0 <= k < l < |found| ==> found[k] < found[l]
  {
    if mounts == [] then []
    else
      var n := |mounts| - 1;
      var front := Named(mounts[..n], ref);
      front + if NamedBy(mounts[n], ref) then [n] else []
  }

  /** A mount goes by its workspace's name and id, white space around them aside, and by nothing else. */
  lemma MountGoesByNameAndId(mounts: seq<Record>, i: nat, ref: string)
    requires i < |mounts|
    ensures i in Named(mounts, ref) <==> TrimSpace(ref) in [TrimSpace(mounts[i].workspace), TrimSpace(mounts[i].workspaceId)]
  {
    hide TrimSpace;
    if i in Named(mounts, ref) {
      var k :| 0 <= k < |Named(mounts, ref)| && Named(mounts, ref)[k] == i;
    }
  }

  ghost predicate NameAndId(a: Record, b: Record, ref: string) {
    || TrimSpace(a.workspace) == TrimSpace(b.workspaceId) == TrimSpace(ref)
    || TrimSpace(a.workspaceId) == TrimSpace(b.workspace) == TrimSpace(ref)
  }

  lemma NamedByOneRef(a: Record, b: Record, ref: string)
    requires Separate(a, b) && NamedBy(a, ref) && NamedBy(b, ref) && TrimSpace(ref) != ""
    ensures NameAndId(a, b, ref)
    ensures TrimSpace(a.workspace) == TrimSpace(ref) <==> TrimSpace(b.workspace) != TrimSpace(ref)
  {
  }

  /** A reference is ambiguous only as the name of one workspace and the id of another. */
  lemma AmbiguousReference(mounts: seq<Record>, ref: string)
    requires Disjoint(mounts) && TrimSpace(ref) != ""
    ensures var found := Named(mounts, ref);
            |found| <= 2 && (|found| == 2 ==> NameAndId(mounts[found[0]], mounts[found[1]], ref))
  {
    hide NamedBy, Separate, TrimSpace;
    var found := Named(mounts, ref);
    forall k, l | 0 <= k < l < |found|
      ensures NameAndId(mounts[found[k]], mounts[found[l]], ref)
      ensures TrimSpace(mounts[found[k]].workspace) == TrimSpace(ref)
         <==> TrimSpace(mounts[found[l]].workspace) != TrimSpace(ref)
    {
      NamedByOneRef(mounts[found[k]], mounts[found[l]], ref);
    }
  }

  // ------------------------------------------------------------------
  // The registry
  // ------------------------------------------------------------------

  ghost predicate IsRemoval(before: seq<Record>, after: seq<Record>, rec: Record) {
    exists i :: 0 <= i < |before| && rec == before[i] && after == Without(before, i)
  }

  datatype Mounting = Mounted | PathTaken(other: Record) | WorkspaceTaken(other: Record)

  datatype Removal = NotFound | Removed(rec: Record) | Ambiguous(paths: seq<Raw>)

  class Registry {
    var mounts: seq<Record>

    constructor ()
      ensures mounts == []
    {
      mounts := [];
    }

    method RemoveMountByPath(path: Raw) returns (rec: Option<Record>)
      modifies this
      ensures var i := IndexAt(old(mounts), path);
              if i < |old(mounts)| then rec == Some(old(mounts)[i]) && mounts == Without(old(mounts), i)
              else rec == None && mounts == old(mounts)
    {
      for i := 0 to |mounts|
        invariant mounts == old(mounts)
        invariant forall j :: 0 <= j < i ==> !At(mounts[j], path)
      {
        if At(mounts[i], path) {
          rec := Some(mounts[i]);
          mounts := mounts[..i] + mounts[i + 1..];
          return;
        }
      }
      return None;
    }

    /** A blank reference names nothing; one that names several mounts removes none. */
    method RemoveMountByWorkspaceRef(ref: string) returns (r: Removal)
      modifies this
      ensures var found := if TrimSpace(ref) == "" then [] else Named(old(mounts), ref);
              match |found| {
                case 0 => r == NotFound && mounts == old(mounts)
                case 1 => r == Removed(old(mounts)[found[0]]) && mounts == Without(old(mounts), found[0])
                case _ => r == Ambiguous(PathsOf(old(mounts), found)) && mounts == old(mounts)
              }
    {
      if TrimSpace(ref) == "" {
        return NotFound;
      }
      var found: seq<nat> := [];
      for i := 0 to |mounts|
        invariant found == Named(mounts[..i], ref)
      {
        assert mounts[..i + 1][..i] == mounts[..i];
        if NamedBy(mounts[i], ref) {
          found := found + [i];
        }
      }
      assert mounts[..|mounts|] == mounts;
      if |found| == 0 {
        return NotFound;
      }
      if |found| == 1 {
        var i := found[0];
        r := Removed(mounts[i]);
        mounts := mounts[..i] + mounts[i + 1..];
        return;
      }
      return Ambiguous(PathsOf(mounts, found));
    }

    /** Replaces the record at the path, or adds one. */
    method UpsertMount(rec: Record)
      modifies this
      ensures var i, cleaned := IndexAt(old(mounts), rec.localPath), rec.(localPath := Clean(rec.localPath));
              mounts == if i < |old(mounts)| then old(mounts)[i := cleaned] else old(mounts) + [cleaned]
    {
      var cleaned := rec.(localPath := Clean(rec.localPath));
      PlainIsClean(cleaned.localPath);
      for i := 0 to |mounts|
        invariant mounts == old(mounts)
        invariant forall j :: 0 <= j < i ==> !At(mounts[j], rec.localPath)
      {
        if Clean(mounts[i].localPath) == cleaned.localPath {
          mounts := mounts[i := cleaned];
          return;
        }
      }
      mounts := mounts + [cleaned];
    }

    /** Some mount at, above or below the path; none exactly when the path is free. */
    method MountPathConflict(path: Raw) returns (conflict: Option<Record>)
      ensures conflict.Some? ==> conflict.value in mounts && PathClash(conflict.value, path)
      ensures conflict.None? ==> forall i :: 0 <= i < |mounts| ==> !PathClash(mounts[i], path)
    {
      var target := Clean(path);
      PlainIsClean(target);
      for i := 0 to |mounts|
        invariant forall j :: 0 <= j < i ==> !PathClash(mounts[j], path)
      {
        var existing := Clean(mounts[i].localPath);
        PlainIsClean(existing);
        ContainsMeansBelow(existing, target);
        ContainsMeansBelow(target, existing);
        if existing == target || PathContains(existing, target) || PathContains(target, existing) {
          return Some(mounts[i]);
        }
      }
      return None;
    }

    method MountWorkspaceConflict(id: string, name: string) returns (conflict: Option<Record>)
      ensures conflict.Some? ==> conflict.value in mounts && WorkspaceClash(conflict.value, id, name)
      ensures conflict.None? ==> forall i :: 0 <= i < |mounts| ==> !WorkspaceClash(mounts[i], id, name)
    {
      for i := 0 to |mounts|
        invariant forall j :: 0 <= j < i ==> !WorkspaceClash(mounts[j], id, name)
      {
        if TrimSpace(id) != "" && TrimSpace(mounts[i].workspaceId) == TrimSpace(id) {
          return Some(mounts[i]);
        }
        if TrimSpace(name) != "" && TrimSpace(mounts[i].workspace) == TrimSpace(name) {
          return Some(mounts[i]);
        }
      }
      return None;
    }

    /**
     Mounting behind both guards. Into a disjoint registry everything is mounted that leaves it
     disjoint, at its end; what would not is refused, and changes nothing.
     */
    method Mount(rec: Record) returns (r: Mounting)
      requires Disjoint(mounts)
      modifies this
      ensures Disjoint(mounts)
      ensures r.Mounted? <==> Disjoint(old(mounts) + [rec])
      ensures mounts == if r.Mounted? then old(mounts) + [rec.(localPath := Clean(rec.localPath))] else old(mounts)
      ensures r.PathTaken? ==> r.other in mounts && PathClash(r.other, rec.localPath)
      ensures r.WorkspaceTaken? ==> forall i :: 0 <= i < |mounts| ==> !PathClash(mounts[i], rec.localPath)
      ensures r.WorkspaceTaken? ==> r.other in mounts && WorkspaceClash(r.other, rec.workspaceId, rec.workspace)
    {
      hide PathClash, WorkspaceClash, Disjoint;
      GuardsAreExact(mounts, rec);
      var conflict := MountPathConflict(rec.localPath);
      if conflict.Some? {
        return PathTaken(conflict.value);
      }
      conflict := MountWorkspaceConflict(rec.workspaceId, rec.workspace);
      if conflict.Some? {
        return WorkspaceTaken(conflict.value);
      }
      FreePathIsUnused(mounts, rec.localPath);
      UpsertMount(rec);
      CleanedRecord(old(mounts), rec);
      return Mounted;
    }

    /** Unmounting by what was typed: a path first if it looks like one, a reference first otherwise. */
    method Unmount(target: string, path: Option<Raw>, looksLikePath: bool) returns (r: Removal)
      requires Disjoint(mounts)
      modifies this
      ensures Disjoint(mounts)
      ensures r.Removed? ==>
                IsRemoval(old(mounts), mounts, r.rec)
                && ((path.Some? && At(r.rec, path.value)) || (TrimSpace(target) != "" && NamedBy(r.rec, target)))
      ensures !r.Removed? ==> mounts == old(mounts)
      ensures looksLikePath && TrimSpace(target) != "" && path.Some? ==>
                var i := IndexAt(old(mounts), path.value); i < |old(mounts)| ==> r == Removed(old(mounts)[i])
      ensures !looksLikePath && TrimSpace(target) != "" ==>
                var found := Named(old(mounts), target); |found| == 1 ==> r == Removed(old(mounts)[found[0]])
      ensures r.Ambiguous? ==> |Named(old(mounts), target)| > 1
      ensures r.NotFound? && TrimSpace(target) != "" && path.Some? ==>
                Named(old(mounts), target) == [] && IndexAt(old(mounts), path.value) == |old(mounts)|
    {
      hide Disjoint, Without, IsRemoval, NamedBy, At, TrimSpace;
      if TrimSpace(target) == "" {
        return NotFound;
      }
      ghost var all := mounts;
      NamedRemoval(all, target);
      if path.Some? {
        PathRemoval(all, path.value);
      }
      if looksLikePath {
        if path.None? {
          return NotFound;
        }
        var rec := RemoveMountByPath(path.value);
        if rec.Some? {
          return Removed(rec.value);
        }
        r := RemoveMountByWorkspaceRef(target);
        return;
      }
      r := RemoveMountByWorkspaceRef(target);
      if r.NotFound? && path.Some? {
        var rec := RemoveMountByPath(path.value);
        if rec.Some? {
          return Removed(rec.value);
        }
      }
    }
  }

  lemma NamedRemoval(mounts: seq<Record>, ref: string)
    requires Disjoint(mounts)
    ensures var found := Named(mounts, ref);
            |found| == 1 ==>
              var rest := Without(mounts, found[0]);
              Disjoint(rest) && IsRemoval(mounts, rest, mounts[found[0]]) && NamedBy(mounts[found[0]], ref)
  {
    var found := Named(mounts, ref);
    if |found| == 1 {
      RemovalKeepsDisjoint(mounts, found[0]);
    }
  }

  lemma PathRemoval(mounts: seq<Record>, path: Raw)
    requires Disjoint(mounts)
    ensures var i := IndexAt(mounts, path);
            i < |mounts| ==>
              Disjoint(Without(mounts, i)) && IsRemoval(mounts, Without(mounts, i), mounts[i]) && At(mounts[i], path)
  {
    var i := IndexAt(mounts, path);
    if i < |mounts| {
      RemovalKeepsDisjoint(mounts, i);
    }
  }

  lemma FreePathIsUnused(mounts: seq<Record>, path: Raw)
    requires forall i :: 0 <= i < |mounts| ==> !PathClash(mounts[i], path)
    ensures IndexAt(mounts, path) == |mounts|
  {
    forall i | 0 <= i < |mounts|
      ensures !At(mounts[i], path)
    {
      assert !PathClash(mounts[i], path);
    }
  }

  /** Cleaning the path of the last record changes no distance. */
  lemma CleanedRecord(mounts: seq<Record>, rec: Record)
    requires Disjoint(mounts + [rec])
    ensures Disjoint(mounts + [rec.(localPath := Clean(rec.localPath))])
  {
    hide Overlapping;
    var cleaned := rec.(localPath := Clean(rec.localPath));
    PlainIsClean(cleaned.localPath);
    var was, now := mounts + [rec], mounts + [cleaned];
    forall i, j | 0 <= i < j < |now|
      ensures Separate(now[i], now[j])
    {
      assert Separate(was[i], was[j]);
    }
  }

  function PathsOf(mounts: seq<Record>, found: seq<nat>): seq<Raw>
    requires forall k :: 0 <= k < |found| ==> found[k] < |mounts|
  {
    seq(|found|, k requires 0 <= k < |found| => mounts[found[k]].localPath)
  }

  // ------------------------------------------------------------------
  // Runs
  // ------------------------------------------------------------------

  datatype Command =
    | MountCommand(rec: Record)
    | UnmountCommand(target: string, path: Option<Raw>, looksLikePath: bool)
    | UnmountSelected(place: Raw)

  /** Whatever is mounted and unmounted, one command after another, the mounts stay apart. */
  method RunCommands(registry: Registry, commands: seq<Command>)
    requires Disjoint(registry.mounts)
    modifies registry
    ensures Disjoint(registry.mounts)
  {
    for i := 0 to |commands|
      invariant Disjoint(registry.mounts)
    {
      match commands[i] {
        case MountCommand(rec) =>
          var _ := registry.Mount(rec);
        case UnmountCommand(target, path, looksLikePath) =>
          var _ := registry.Unmount(target, path, looksLikePath);
        case UnmountSelected(place) =>
          PathRemoval(registry.mounts, place);
          var _ := registry.RemoveMountByPath(place);
      }
    }
  }

  /** Unmounting the path just mounted gives back the registry as it was. */
  lemma MountThenUnmount(mounts: seq<Record>, rec: Record)
    requires Disjoint(mounts + [rec])
    ensures var all := mounts + [rec.(localPath := Clean(rec.localPath))];
            IndexAt(all, rec.localPath) == |mounts| && Without(all, |mounts|) == mounts
  {
    var cleaned := rec.(localPath := Clean(rec.localPath));
    var all := mounts + [cleaned];
    PlainIsClean(cleaned.localPath);
    CleanedRecord(mounts, rec);
    assert all[|mounts|] == cleaned;
    forall i | 0 <= i < |mounts|
      ensures !At(all[i], rec.localPath)
    {
      OneMountAtAPath(all, rec.localPath, i, |mounts|);
    }
  }
}
