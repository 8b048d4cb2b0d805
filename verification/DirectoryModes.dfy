/**
 Temporary directory permissions of a full reconcile: directories on the way to a change are
 opened for their owner, and every one gets its own mode back afterwards, deepest first.

 A directory is named by the list of names that leads to it from the sync root.
 */
module DirectoryModes {
  import opened Ordering

  type Path = seq<string>

  /** Permission bits as chmod takes them. */
  type Mode = bv12

  const OWNER_ALL: Mode := 0x1C0
  const OWNER_SEARCH: Mode := 0x40

  datatype Node = Dir(inode: nat, mode: Mode) | Other(inode: nat, mode: Mode)

  type Tree = map<Path, Node>

  function Opened(m: Mode): Mode {
    m | OWNER_ALL
  }

  predicate OwnerHasAll(m: Mode) {
    m & OWNER_ALL == OWNER_ALL
  }

  predicate Searchable(m: Mode) {
    m & OWNER_SEARCH == OWNER_SEARCH
  }

  lemma OpenedModes(m: Mode)
    ensures OwnerHasAll(Opened(m)) && Searchable(Opened(m))
    ensures OwnerHasAll(m) ==> Searchable(m) && Opened(m) == m
    ensures Opened(m) & !OWNER_ALL == m & !OWNER_ALL
  {
  }

  // ------------------------------------------------------------------
  // Paths as strings
  // ------------------------------------------------------------------

  function Render(p: Path): string {
    if p == [] then "" else Render(p[..|p| - 1]) + "/" + p[|p| - 1]
  }

  ghost predicate ProperAncestor(a: Path, p: Path) {
    |a| < |p| && p[..|a|] == a
  }

  /** An ancestor's name is a proper prefix, so it sorts first. */
  lemma {:induction false} AncestorSortsFirst(a: Path, p: Path)
    requires ProperAncestor(a, p)
    ensures Less(Render(a), Render(p))
    decreases |p|
  {
    var parent, name := p[..|p| - 1], p[|p| - 1];
    PrefixIsLess(Render(parent), "/" + name);
    assert Render(p) == Render(parent) + ("/" + name);
    if |a| < |parent| {
      assert parent[..|a|] == p[..|a|];
      AncestorSortsFirst(a, parent);
      LessIsTransitive(Render(a), Render(parent), Render(p));
    } else {
      assert parent == a;
    }
  }

  // ------------------------------------------------------------------
  // The directory tree
  // ------------------------------------------------------------------

  /** The owner can look a path up: every directory above it exists and may be searched. */
  ghost predicate Reachable(t: Tree, p: Path) {
    forall n :: 0 < n < |p| ==> p[..n] in t && t[p[..n]].Dir? && Searchable(t[p[..n]].mode)
  }

  /** Nothing lies below a path that is missing or no directory. */
  ghost predicate Rooted(t: Tree) {
    forall p, n :: p in t && 0 < n < |p| ==> p[..n] in t && t[p[..n]].Dir?
  }

  datatype Look = Missing | Found(node: Node) | Denied

  class Disk {
    var tree: Tree

    constructor (tree: Tree)
      ensures this.tree == tree
    {
      this.tree := tree;
    }

    /** A lookup; an ancestor that may not be searched, or is no directory, denies it. */
    method Lstat(p: Path) returns (look: Look)
      ensures Reachable(tree, p) ==> look == if p in tree then Found(tree[p]) else Missing
      ensures look.Found? ==> p in tree && look.node == tree[p] && Reachable(tree, p)
      ensures look.Missing? && Rooted(tree) ==> p !in tree
      ensures look.Denied? ==>
                exists n :: 0 < n < |p| && p[..n] in tree && !(tree[p[..n]].Dir? && Searchable(tree[p[..n]].mode))
    {
      var n := 1;
      while n < |p|
        invariant 1 <= n
        invariant forall k :: 0 < k < n && k < |p| ==> p[..k] in tree && tree[p[..k]].Dir? && Searchable(tree[p[..k]].mode)
      {
        if p[..n] !in tree {
          return Missing;
        }
        if !tree[p[..n]].Dir? || !Searchable(tree[p[..n]].mode) {
          return Denied;
        }
        n := n + 1;
      }
      return if p in tree then Found(tree[p]) else Missing;
    }

    method Chmod(p: Path, mode: Mode) returns (ok: bool)
      modifies this
      ensures ok ==> p in old(tree) && tree == old(tree)[p := old(tree)[p].(mode := mode)]
      ensures !ok ==> tree == old(tree)
      ensures Reachable(old(tree), p) && p in old(tree) ==> ok
    {
      var look := Lstat(p);
      if !look.Found? {
        return false;
      }
      tree := tree[p := tree[p].(mode := mode)];
      return true;
    }
  }

  // ------------------------------------------------------------------
  // Opening and restoring
  // ------------------------------------------------------------------

  /** A path lies under the sync root, or it does not. */
  datatype Target = Inside(path: Path) | Outside

  /** Something on the way to `p`, or `p` itself, is not a directory. */
  ghost predicate Blocked(t: Tree, p: Path) {
    exists n :: 0 < n <= |p| && p[..n] in t && t[p[..n]].Other?
  }

  /** The directory is still the one that was opened, with the mode it was given. */
  predicate AsOpened(now: Node, before: Node) {
    now.Dir? && now.inode == before.inode && now.mode == Opened(before.mode)
  }

  /** Somebody replaced the directory or gave it another mode. */
  predicate DisturbedAt(t: Tree, changed: map<Path, Node>, p: Path)
    requires p in changed
  {
    p in t && !AsOpened(t[p], changed[p])
  }

  /** Undisturbed is the very directory, with its own mode and the three owner bits, and nothing else. */
  lemma DisturbedMeans(t: Tree, changed: map<Path, Node>, p: Path)
    requires p in changed && p in t
    ensures DisturbedAt(t, changed, p) <==> t[p] != Dir(changed[p].inode, changed[p].mode | 0x1C0)
  {
  }

  /** Deepest first, as far as names tell. */
  ghost predicate Descending(paths: seq<Path>) {
    forall i, j :: 0 <= i < j < |paths| ==> !Less(Render(paths[i]), Render(paths[j]))
  }

  method Greatest(s: set<Path>) returns (g: Path)
    requires s != {}
    ensures g in s && forall x :: x in s ==> !Less(Render(g), Render(x))
  {
    g :| g in s;
    var rest := s - {g};
    LessIsIrreflexive(Render(g));
    while rest != {}
      invariant g in s && rest <= s
      invariant forall x :: x in s && x !in rest ==> !Less(Render(g), Render(x))
      decreases rest
    {
      var x :| x in rest;
      rest := rest - {x};
      LessIsIrreflexive(Render(x));
      if Less(Render(g), Render(x)) {
        forall y | y in s && y !in rest
          ensures !Less(Render(x), Render(y))
        {
          if Less(Render(x), Render(y)) {
            LessIsTransitive(Render(g), Render(x), Render(y));
          }
        }
        g := x;
      }
    }
  }

  method ReverseSorted(s: set<Path>) returns (paths: seq<Path>)
    ensures Descending(paths)
    ensures forall p :: p in paths <==> p in s
    ensures forall i, j :: 0 <= i < j < |paths| ==> paths[i] != paths[j]
  {
    paths := [];
    var rest := s;
    while rest != {}
      invariant rest <= s && Descending(paths)
      invariant forall p :: p in paths <==> p in s && p !in rest
      invariant forall i, x :: 0 <= i < |paths| && x in rest ==> !Less(Render(paths[i]), Render(x))
      invariant forall i, j :: 0 <= i < j < |paths| ==> paths[i] != paths[j]
      decreases rest
    {
      var g := Greatest(rest);
      paths := paths + [g];
      rest := rest - {g};
    }
  }

  /** No lookup of the path is denied. */
  ghost predicate Passable(t: Tree, p: Path) {
    forall n :: 0 < n < |p| && p[..n] in t ==> t[p[..n]].Dir? && Searchable(t[p[..n]].mode)
  }

  lemma PassableIsReachable(t: Tree, p: Path)
    requires Rooted(t)
    ensures Passable(t, p) && p in t ==> Reachable(t, p)
  {
  }

  /**
   What opening has made of the tree that is wanted: the original one with the reconcile's own
   creations and deletions. `open` are the paths where the directory that was opened still is.
   */
  ghost predicate OpenedFrom(t: Tree, wanted: Tree, changed: map<Path, Node>, open: set<Path>) {
    && Rooted(wanted) && t.Keys == wanted.Keys && open <= changed.Keys && open <= wanted.Keys
    && (forall p :: p in wanted ==> t[p] == if p in open then wanted[p].(mode := Opened(wanted[p].mode)) else wanted[p])
    && (forall p :: p in open ==> changed[p] == wanted[p] && wanted[p].Dir? && !OwnerHasAll(wanted[p].mode) && Passable(t, p))
    && (forall p :: p in changed && p in t && p !in open ==> !AsOpened(t[p], changed[p]))
  }

  /**
   The books: what was prepared is closed under ancestors, and is a directory open to its owner,
   unless it was deleted or made anew since.
   */
  ghost predicate OnTheBooks(t: Tree, changed: map<Path, Node>, prepared: set<Path>, remade: set<Path>) {
    && changed.Keys <= prepared
    && (forall p, n :: p in prepared && 0 < n < |p| ==> p[..n] in prepared)
    && (forall p :: p in prepared && p in t && p !in remade ==> t[p].Dir? && OwnerHasAll(t[p].mode))
  }

  /** Nothing on the way was made anew while it was on the books. */
  ghost predicate Untouched(remade: set<Path>, p: Path) {
    forall n :: 0 < n <= |p| ==> p[..n] !in remade
  }

  lemma PreparedIsPassable(t: Tree, wanted: Tree, changed: map<Path, Node>, open: set<Path>, prepared: set<Path>, remade: set<Path>, p: Path)
    requires OpenedFrom(t, wanted, changed, open) && OnTheBooks(t, changed, prepared, remade) && Untouched(remade, p)
    requires forall n :: 0 < n < |p| && p[..n] in wanted ==> p[..n] in prepared
    ensures Passable(t, p)
  {
    forall n | 0 < n < |p| && p[..n] in t
      ensures t[p[..n]].Dir? && Searchable(t[p[..n]].mode)
    {
      assert p[..n] in prepared;
      OpenedModes(t[p[..n]].mode);
    }
  }

  // ------------------------------------------------------------------
  // The reconcile's own changes
  // ------------------------------------------------------------------

  datatype Change = Created(path: Path, node: Node) | Removed(path: Path)

  /** The tree without a path and everything below it. */
  function Pruned(t: Tree, p: Path): Tree {
    map q | q in t && !(|p| <= |q| && q[..|p|] == p) :: t[q]
  }

  function Changed(t: Tree, c: Change): Tree {
    match c
    case Created(p, node) => t[p := node]
    case Removed(p) => Pruned(t, p)
  }

  function ChangedAll(t: Tree, changes: seq<Change>): Tree {
    if changes == [] then t else Changed(ChangedAll(t, changes[..|changes| - 1]), changes[|changes| - 1])
  }

  /** There is a directory to create it in, and nothing at the path yet. */
  predicate Creatable(t: Tree, p: Path) {
    p != [] && p !in t && (|p| == 1 || (p[..|p| - 1] in t && t[p[..|p| - 1]].Dir?))
  }

  lemma CreatingKeepsRooted(t: Tree, p: Path, node: Node)
    requires Rooted(t) && Creatable(t, p)
    ensures Rooted(t[p := node])
  {
    var u := t[p := node];
    forall q, n | q in u && 0 < n < |q|
      ensures q[..n] in u && u[q[..n]].Dir?
    {
      if q == p && n < |p| - 1 {
        assert p[..|p| - 1][..n] == p[..n];
      }
    }
  }

  lemma PruningKeepsRooted(t: Tree, p: Path)
    requires Rooted(t)
    ensures Rooted(Pruned(t, p))
  {
    var u := Pruned(t, p);
    forall q, n | q in u && 0 < n < |q|
      ensures q[..n] in u && u[q[..n]].Dir?
    {
      assert |p| <= n ==> q[..n][..|p|] == q[..|p|];
    }
  }

  lemma OpeningKeepsTree(t: Tree, wanted: Tree, changed: map<Path, Node>, open: set<Path>, p: Path)
    requires OpenedFrom(t, wanted, changed, open) && p !in changed
    requires p in t && t[p].Dir? && !OwnerHasAll(t[p].mode) && Reachable(t, p)
    ensures OpenedFrom(t[p := t[p].(mode := Opened(t[p].mode))], wanted, changed[p := t[p]], open + {p})
  {
    OpenedModes(t[p].mode);
    var u := t[p := t[p].(mode := Opened(t[p].mode))];
    forall q | q in open + {p}
      ensures Passable(u, q)
    {
      assert q in open ==> Passable(t, q);
    }
  }

  lemma CreatingKeepsTree(t: Tree, wanted: Tree, changed: map<Path, Node>, open: set<Path>, p: Path, node: Node)
    requires OpenedFrom(t, wanted, changed, open) && Creatable(t, p) && (p in changed ==> !AsOpened(node, changed[p]))
    ensures OpenedFrom(t[p := node], wanted[p := node], changed, open)
  {
    CreatingKeepsRooted(wanted, p, node);
    var u := t[p := node];
    forall q | q in open
      ensures Passable(u, q)
    {
      assert forall n :: 0 < n < |q| ==> q[..n] in wanted;
    }
  }

  lemma PruningKeepsTree(t: Tree, wanted: Tree, changed: map<Path, Node>, open: set<Path>, p: Path)
    requires OpenedFrom(t, wanted, changed, open)
    ensures OpenedFrom(Pruned(t, p), Pruned(wanted, p), changed, open * Pruned(wanted, p).Keys)
  {
    PruningKeepsRooted(wanted, p);
    var u := Pruned(t, p);
    forall q | q in open * Pruned(wanted, p).Keys
      ensures Passable(u, q)
    {
      assert Passable(t, q);
    }
  }

  class SyncDirectoryModes {
    const disk: Disk
    /** What the tree would be had nothing been opened. */
    ghost var wanted: Tree
    ghost var open: set<Path>
    ghost var remade: set<Path>
    var prepared: set<Path>
    var changed: map<Path, Node>
    /** A full sweep has been asked for. */
    var sweep: bool

    constructor (disk: Disk)
      requires Rooted(disk.tree)
      ensures this.disk == disk && wanted == disk.tree && Undisturbed() && changed == map[] && remade == {} && !sweep
    {
      this.disk, wanted := disk, disk.tree;
      prepared, changed, sweep := {}, map[], false;
      open, remade := {}, {};
    }

    /** Nobody but this object and the reconcile itself changed the tree. */
    ghost predicate Undisturbed()
      reads this, disk
    {
      OpenedFrom(disk.tree, wanted, changed, open) && OnTheBooks(disk.tree, changed, prepared, remade)
    }

    lemma StaysRooted()
      requires Undisturbed()
      ensures Rooted(disk.tree)
    {
      RootedAbove(disk.tree, wanted, changed, open, []);
    }

    /** Opens what is on the way to the path; nothing is wanted otherwise than before. */
    method Prepare(p: Path) returns (err: bool)
      requires Undisturbed()
      modifies this, disk
      ensures Undisturbed() && sweep == old(sweep) && wanted == old(wanted) && remade == old(remade)
      ensures old(prepared) <= prepared && forall q :: q in prepared && q !in old(prepared) ==> |q| <= |p|
      ensures Untouched(remade, p) ==> (err <==> Blocked(wanted, p))
      ensures !err ==> forall n :: 0 < n <= |p| && p[..n] in wanted ==> p[..n] in prepared
      decreases |p|
    {
      if p == [] {
        return false;
      }
      if p in prepared {
        AlreadyPrepared(disk.tree, wanted, changed, open, prepared, remade, p);
        return false;
      }
      var parent := p[..|p| - 1];
      PrefixesOfParent(p);
      if Untouched(remade, p) {
        UntouchedAbove(remade, p);
      }
      err := Prepare(parent);
      if err {
        if Untouched(remade, p) {
          ghost var n :| 0 < n <= |parent| && parent[..n] in wanted && wanted[parent[..n]].Other?;
          assert p[..n] == parent[..n];
        }
        return;
      }
      err := PrepareBelow(p);
    }

    /** The parent is prepared, or missing: looks at the path itself and opens it if needed. */
    method PrepareBelow(p: Path) returns (err: bool)
      requires Undisturbed() && p != [] && p !in prepared
      requires Untouched(remade, p) ==> !Blocked(wanted, p[..|p| - 1])
      requires forall n :: 0 < n < |p| && p[..n] in wanted ==> p[..n] in prepared
      modifies this, disk
      ensures Undisturbed() && sweep == old(sweep) && wanted == old(wanted) && remade == old(remade)
      ensures old(prepared) <= prepared <= old(prepared) + {p}
      ensures Untouched(remade, p) ==> (err <==> Blocked(wanted, p))
      ensures !err ==> forall n :: 0 < n <= |p| && p[..n] in wanted ==> p[..n] in prepared
    {
      assert p[..|p|] == p;
      var look := disk.Lstat(p);
      WhatLookTells(disk.tree, wanted, changed, open, prepared, remade, p, look);
      hide OpenedFrom, OnTheBooks, Untouched, Blocked;
      if look.Missing? {
        return false;
      }
      if look.Denied? || look.node.Other? {
        return true;
      }
      PutOnTheBooks(p, look.node);
      return false;
    }

    /** Opens a directory if it is not open to its owner, and remembers that it was looked after. */
    method PutOnTheBooks(p: Path, node: Node)
      requires Undisturbed() && p !in prepared && p in disk.tree && disk.tree[p] == node && node.Dir? && Reachable(disk.tree, p)
      requires forall n :: 0 < n < |p| && p[..n] in wanted ==> p[..n] in prepared
      modifies this, disk
      ensures Undisturbed() && sweep == old(sweep) && wanted == old(wanted) && remade == old(remade)
      ensures prepared == old(prepared) + {p}
    {
      RootedAbove(disk.tree, wanted, changed, open, p);
      OnTheBooksWith(disk.tree, changed, prepared, remade, p);
      assert p !in changed;
      if node.mode & OWNER_ALL != OWNER_ALL {
        OpeningKeepsTree(disk.tree, wanted, changed, open, p);
        hide OpenedFrom, OnTheBooks;
        var ok := disk.Chmod(p, Opened(node.mode));
        assert ok;
        changed := changed[p := node];
        open := open + {p};
      }
      prepared := prepared + {p};
    }

    method PrepareTarget(target: Target) returns (err: bool)
      requires Undisturbed()
      modifies this, disk
      ensures Undisturbed() && sweep == old(sweep) && wanted == old(wanted) && remade == old(remade)
      ensures target.Outside? ==> err
      ensures target.Inside? && Untouched(remade, target.path) ==> (err <==> Blocked(wanted, target.path))
    {
      if target.Outside? {
        return true;
      }
      err := Prepare(target.path);
    }

    /**
     A change of the reconcile itself. What was opened or prepared stays on the books even when it
     is deleted. The one thing that would not survive the restore is a directory made anew with the
     very identity and mode of the one that was opened there: it would be taken for it.
     */
    method Carry(c: Change) returns (ok: bool)
      requires Undisturbed()
      modifies this, disk
      ensures Undisturbed() && prepared == old(prepared) && changed == old(changed) && sweep == old(sweep)
      ensures wanted == if ok then Changed(old(wanted), c) else old(wanted)
      ensures remade == old(remade) + if ok && c.Created? && c.path in prepared then {c.path} else {}
      ensures ok <==> c.Removed? ||
                      (Creatable(old(disk.tree), c.path) && !(c.path in changed && AsOpened(c.node, changed[c.path])))
    {
      match c {
        case Created(p, node) =>
          if !Creatable(disk.tree, p) || (p in changed && AsOpened(node, changed[p])) {
            return false;
          }
          CreatingKeepsTree(disk.tree, wanted, changed, open, p, node);
          disk.tree := disk.tree[p := node];
          wanted := wanted[p := node];
          if p in prepared {
            remade := remade + {p};
          }
        case Removed(p) =>
          PruningKeepsTree(disk.tree, wanted, changed, open, p);
          disk.tree := Pruned(disk.tree, p);
          wanted := Pruned(wanted, p);
          open := open * wanted.Keys;
      }
      hide OpenedFrom;
      ok := true;
    }

    /**
     Gives every opened directory its own mode back. Whatever happened to the tree meanwhile, a
     directory that was replaced or given another mode is left as it is, and nothing else is
     touched; without an error, every other opened directory has its mode again. With nobody else
     about, the tree is the wanted one, and only lookups of what was deleted, behind a directory
     made anew, can be denied.
     */
    method Restore() returns (errors: nat)
      requires Rooted(disk.tree)
      modifies disk, `sweep
      ensures disk.tree.Keys == old(disk.tree).Keys
      ensures forall p :: p in disk.tree && !(p in changed && AsOpened(old(disk.tree)[p], changed[p])) ==>
                disk.tree[p] == old(disk.tree)[p]
      ensures errors == 0 ==> forall p :: p in disk.tree && p in changed && AsOpened(old(disk.tree)[p], changed[p]) ==>
                disk.tree[p] == old(disk.tree)[p].(mode := changed[p].mode)
      ensures errors == 0 ==>
                (sweep <==> old(sweep) || exists p :: p in changed && DisturbedAt(old(disk.tree), changed, p))
      ensures old(Undisturbed()) ==> disk.tree == wanted && (remade == {} ==> errors == 0)
    {
      errors := 0;
      var paths := ReverseSorted(changed.Keys);
      ghost var before := disk.tree;
      ghost var quiet := Undisturbed();
      assert RestoredSoFar(before, paths, 0, 0, quiet);
      SomeDisturbedNone(before, changed, paths);
      hide OpenedFrom, OnTheBooks, QuietlyRestored, Passable, AsOpened, SomeDisturbed, Restored, Descending;
      for i := 0 to |paths|
        invariant RestoredSoFar(before, paths, i, errors, quiet)
        invariant errors == 0 ==> (sweep <==> old(sweep) || SomeDisturbed(before, changed, paths, i))
      {
        SomeDisturbedNext(before, changed, paths, i);
        var e := RestoreNext(before, paths, i, errors, quiet);
        errors := errors + e;
      }
      if quiet {
        RestoredTreeIsWanted(disk.tree, before, wanted, changed, open, paths);
      }
      RestoredMeans(disk.tree, before, changed, paths, errors);
      SomeDisturbedAll(before, changed, paths);
    }

    /** How far restoring is, and that it goes as wanted when nobody else is about. */
    ghost predicate RestoredSoFar(before: Tree, paths: seq<Path>, i: nat, errors: nat, quiet: bool)
      reads this, disk
      requires i <= |paths|
    {
      && PartlyRestored(disk.tree, before, paths, i, errors)
      && (quiet ==>
            && OpenedFrom(before, wanted, changed, open) && OnTheBooks(before, changed, prepared, remade)
            && QuietlyRestored(disk.tree, before, wanted, open, paths, i) && (remade == {} ==> errors == 0))
    }

    method RestoreNext(ghost before: Tree, paths: seq<Path>, i: nat, ghost errors: nat, ghost quiet: bool) returns (e: nat)
      requires i < |paths| && Descending(paths) && paths[i] in changed && forall k :: 0 <= k < i ==> paths[k] != paths[i]
      requires RestoredSoFar(before, paths, i, errors, quiet)
      modifies disk, `sweep
      ensures RestoredSoFar(before, paths, i + 1, errors + e, quiet)
      ensures e == 0 ==> (sweep <==> old(sweep) || DisturbedAt(before, changed, paths[i]))
    {
      ghost var t := disk.tree;
      if quiet {
        NextIsPassable(t, before, wanted, changed, open, prepared, remade, paths, i);
      }
      e := RestoreOne(paths[i], before, paths, i, errors);
      if quiet {
        QuietlyOneMore(t, disk.tree, before, wanted, changed, open, paths, i);
      }
      hide Passable, OpenedFrom, OnTheBooks, QuietlyRestored;
    }

    /** The first `i` paths have been dealt with; the rest of the tree is as before. */
    ghost predicate PartlyRestored(t: Tree, before: Tree, paths: seq<Path>, i: nat, errors: nat)
      reads this
      requires i <= |paths|
    {
      && Restored(t, before, changed, paths, i, errors) && Rooted(t)
    }

    method RestoreOne(p: Path, ghost before: Tree, ghost paths: seq<Path>, ghost i: nat, ghost errors: nat)
      returns (e: nat)
      requires i < |paths| && paths[i] == p && p in changed
      requires forall k :: 0 <= k < i ==> paths[k] != p
      requires PartlyRestored(disk.tree, before, paths, i, errors)
      modifies disk, `sweep
      ensures PartlyRestored(disk.tree, before, paths, i + 1, errors + e)
      ensures disk.tree == old(disk.tree) || disk.tree == RestoredAt(old(disk.tree), p, changed[p])
      ensures e == 0 ==> (sweep <==> old(sweep) || DisturbedAt(before, changed, p))
      ensures Passable(old(disk.tree), p) ==> e == 0 && disk.tree == RestoredAt(old(disk.tree), p, changed[p])
    {
      PassableIsReachable(disk.tree, p);
      var look := disk.Lstat(p);
      assert paths[..i + 1] == paths[..i] + [p];
      if look.Missing? {
        return 0;
      }
      if look.Denied? {
        return 1;
      }
      var was := changed[p];
      assert p !in paths[..i];
      if !AsOpened(look.node, was) {
        sweep := true;
        return 0;
      }
      var ok := disk.Chmod(p, was.mode);
      assert ok;
      return 0;
    }
  }

  /** One of the first `n` paths was replaced or given another mode by somebody. */
  ghost predicate SomeDisturbed(t: Tree, changed: map<Path, Node>, paths: seq<Path>, n: nat) {
    exists k :: 0 <= k < n && k < |paths| && paths[k] in changed && DisturbedAt(t, changed, paths[k])
  }

  lemma SomeDisturbedNone(t: Tree, changed: map<Path, Node>, paths: seq<Path>)
    ensures !SomeDisturbed(t, changed, paths, 0)
  {
  }

  lemma SomeDisturbedNext(t: Tree, changed: map<Path, Node>, paths: seq<Path>, n: nat)
    requires n < |paths| && paths[n] in changed
    ensures SomeDisturbed(t, changed, paths, n + 1) <==>
              SomeDisturbed(t, changed, paths, n) || DisturbedAt(t, changed, paths[n])
  {
    hide DisturbedAt;
  }

  lemma SomeDisturbedAll(t: Tree, changed: map<Path, Node>, paths: seq<Path>)
    requires forall p :: p in paths <==> p in changed
    ensures SomeDisturbed(t, changed, paths, |paths|) <==> exists p :: p in changed && DisturbedAt(t, changed, p)
  {
    hide DisturbedAt;
    if p :| p in changed && DisturbedAt(t, changed, p) {
      var k :| 0 <= k < |paths| && paths[k] == p;
      assert paths[k] in changed && DisturbedAt(t, changed, paths[k]);
    }
  }

  lemma AlreadyPrepared(t: Tree, wanted: Tree, changed: map<Path, Node>, open: set<Path>, prepared: set<Path>, remade: set<Path>, p: Path)
    requires OpenedFrom(t, wanted, changed, open) && OnTheBooks(t, changed, prepared, remade) && p in prepared
    ensures forall n :: 0 < n <= |p| ==> p[..n] in prepared
    ensures Untouched(remade, p) ==> !Blocked(wanted, p)
  {
    assert p[..|p|] == p;
    forall n | 0 < n <= |p|
      ensures p[..n] in prepared && (p[..n] in wanted && p[..n] !in remade ==> wanted[p[..n]].Dir?)
    {
      assert p[..n] in prepared;
    }
  }

  lemma UntouchedAbove(remade: set<Path>, p: Path)
    requires p != [] && Untouched(remade, p)
    ensures Untouched(remade, p[..|p| - 1])
  {
    var parent := p[..|p| - 1];
    forall n | 0 < n <= |parent|
      ensures parent[..n] !in remade
    {
      assert parent[..n] == p[..n];
    }
  }

  /** What looking at a path tells about it, where its parents were prepared. */
  lemma WhatLookTells(t: Tree, wanted: Tree, changed: map<Path, Node>, open: set<Path>, prepared: set<Path>, remade: set<Path>, p: Path, look: Look)
    requires OpenedFrom(t, wanted, changed, open) && OnTheBooks(t, changed, prepared, remade)
    requires p != [] && p !in prepared && (Untouched(remade, p) ==> !Blocked(wanted, p[..|p| - 1]))
    requires forall n :: 0 < n < |p| && p[..n] in wanted ==> p[..n] in prepared
    requires look.Found? ==> p in t && look.node == t[p]
    requires look.Missing? && Rooted(t) ==> p !in t
    requires look.Denied? ==> exists n :: 0 < n < |p| && p[..n] in t && !(t[p[..n]].Dir? && Searchable(t[p[..n]].mode))
    ensures look.Missing? ==> p !in wanted
    ensures look.Found? ==> p !in changed
    ensures Untouched(remade, p) ==> !look.Denied? && (Blocked(wanted, p) <==> look.Found? && look.node.Other?)
  {
    RootedAbove(t, wanted, changed, open, p);
    assert p[..|p|] == p;
    if Untouched(remade, p) {
      PreparedIsPassable(t, wanted, changed, open, prepared, remade, p);
      if !(look.Found? && look.node.Other?) {
        NotBlocked(wanted, p);
      }
    }
  }

  lemma RootedAbove(t: Tree, wanted: Tree, changed: map<Path, Node>, open: set<Path>, p: Path)
    requires OpenedFrom(t, wanted, changed, open)
    ensures Rooted(t) && (p in t <==> p in wanted) && (p in t ==> (t[p].Dir? <==> wanted[p].Dir?))
  {
    forall q, n | q in t && 0 < n < |q|
      ensures q[..n] in t && t[q[..n]].Dir?
    {
      assert q[..n] in wanted && wanted[q[..n]].Dir?;
    }
  }

  /** One more path on the books, opened if it was not open. */
  lemma OnTheBooksWith(t: Tree, changed: map<Path, Node>, prepared: set<Path>, remade: set<Path>, p: Path)
    requires OnTheBooks(t, changed, prepared, remade) && p in t && t[p].Dir? && p !in prepared && Rooted(t)
    requires forall n :: 0 < n < |p| && p[..n] in t ==> p[..n] in prepared
    ensures OwnerHasAll(t[p].mode) ==> OnTheBooks(t, changed, prepared + {p}, remade)
    ensures OnTheBooks(t[p := t[p].(mode := Opened(t[p].mode))], changed[p := t[p]], prepared + {p}, remade)
  {
    OpenedModes(t[p].mode);
  }

  lemma PrefixesOfParent(p: Path)
    requires p != []
    ensures forall n :: 0 <= n < |p| ==> p[..|p| - 1][..n] == p[..n]
  {
  }

  lemma NotBlocked(t: Tree, p: Path)
    requires p != [] && !Blocked(t, p[..|p| - 1]) && (p in t ==> t[p].Dir?)
    ensures !Blocked(t, p)
  {
    forall n | 0 < n <= |p| && p[..n] in t
      ensures t[p[..n]].Dir?
    {
      if n == |p| {
        assert p[..n] == p;
      } else {
        assert p[..|p| - 1][..n] == p[..n];
      }
    }
  }

  /** Where restoring stands: of the first `i` paths those as opened have their mode back, unless there were errors. */
  ghost predicate Restored(t: Tree, before: Tree, changed: map<Path, Node>, paths: seq<Path>, i: nat, errors: nat)
    requires i <= |paths|
  {
    && t.Keys == before.Keys
    && (forall p :: p in t && !(p in paths[..i] && p in changed && AsOpened(before[p], changed[p])) ==> t[p] == before[p])
    && (forall p :: p in t && p in paths[..i] && p in changed && AsOpened(before[p], changed[p]) ==>
          t[p] == before[p].(mode := changed[p].mode) || (errors > 0 && t[p] == before[p]))
  }

  /** What is restored in the end. */
  lemma RestoredMeans(t: Tree, before: Tree, changed: map<Path, Node>, paths: seq<Path>, errors: nat)
    requires Restored(t, before, changed, paths, |paths|, errors) && forall p :: p in paths <==> p in changed
    ensures t.Keys == before.Keys
    ensures forall p :: p in t && !(p in changed && AsOpened(before[p], changed[p])) ==> t[p] == before[p]
    ensures errors == 0 ==> forall p :: p in t && p in changed && AsOpened(before[p], changed[p]) ==>
              t[p] == before[p].(mode := changed[p].mode)
  {
    hide AsOpened;
    assert paths[..|paths|] == paths;
  }

  /** With nobody else about: of the first `i` paths those still open are as wanted, and the rest as before. */
  ghost predicate QuietlyRestored(t: Tree, before: Tree, wanted: Tree, open: set<Path>, paths: seq<Path>, i: nat)
    requires i <= |paths| && open <= wanted.Keys
  {
    t.Keys == before.Keys && forall q :: q in t ==> t[q] == if q in open && q in paths[..i] then wanted[q] else before[q]
  }

  /** Ancestors are restored later, so they still let the owner through to what is open. */
  lemma NextIsPassable(t: Tree, before: Tree, wanted: Tree, changed: map<Path, Node>, open: set<Path>, prepared: set<Path>,
    remade: set<Path>, paths: seq<Path>, i: nat)
    requires i < |paths| && Descending(paths) && paths[i] in changed
    requires OpenedFrom(before, wanted, changed, open) && OnTheBooks(before, changed, prepared, remade)
    requires QuietlyRestored(t, before, wanted, open, paths, i)
    ensures paths[i] in open || remade == {} ==> Passable(t, paths[i])
  {
    var p := paths[i];
    forall n | 0 < n < |p| && p[..n] in t && (p in open || remade == {})
      ensures t[p[..n]].Dir? && Searchable(t[p[..n]].mode)
    {
      var a := p[..n];
      assert a in prepared;
      OpenedModes(before[a].mode);
      if a in paths[..i] {
        var j :| 0 <= j < i && paths[j] == a;
        AncestorSortsFirst(a, p);
        assert false;
      }
    }
  }

  /** What restoring one path does to the tree. */
  function RestoredAt(t: Tree, p: Path, was: Node): Tree {
    if p in t && AsOpened(t[p], was) then t[p := t[p].(mode := was.mode)] else t
  }

  lemma QuietlyOneMore(t: Tree, u: Tree, before: Tree, wanted: Tree, changed: map<Path, Node>, open: set<Path>, paths: seq<Path>, i: nat)
    requires i < |paths| && paths[i] in changed && forall k :: 0 <= k < i ==> paths[k] != paths[i]
    requires OpenedFrom(before, wanted, changed, open) && QuietlyRestored(t, before, wanted, open, paths, i)
    requires u == t || u == RestoredAt(t, paths[i], changed[paths[i]])
    requires Passable(t, paths[i]) ==> u == RestoredAt(t, paths[i], changed[paths[i]])
    requires paths[i] in open ==> Passable(t, paths[i])
    ensures QuietlyRestored(u, before, wanted, open, paths, i + 1)
  {
    hide Passable;
    var p := paths[i];
    assert paths[..i + 1] == paths[..i] + [p] && p !in paths[..i];
    assert p in open ==> AsOpened(t[p], changed[p]);
  }

  lemma RestoredTreeIsWanted(t: Tree, before: Tree, wanted: Tree, changed: map<Path, Node>, open: set<Path>, paths: seq<Path>)
    requires OpenedFrom(before, wanted, changed, open) && QuietlyRestored(t, before, wanted, open, paths, |paths|)
    requires forall p :: p in paths <==> p in changed
    ensures t == wanted
  {
    hide Passable;
    assert paths[..|paths|] == paths;
  }

  /** What a reconcile does in turn: it opens a path, or changes the tree itself. */
  datatype Step = Opening(target: Target) | Changing(change: Change)

  /** The changes among the first `n` steps, but for those refused. */
  function Carried(steps: seq<Step>, refused: set<nat>, n: nat): seq<Change>
    requires n <= |steps|
  {
    if n == 0 then []
    else
      var before := Carried(steps, refused, n - 1);
      if steps[n - 1].Changing? && n - 1 !in refused then before + [steps[n - 1].change] else before
  }

  lemma CarriedSoFar(steps: seq<Step>, refused: set<nat>, n: nat, later: nat)
    requires n <= |steps| && n <= later
    ensures Carried(steps, refused + {later}, n) == Carried(steps, refused, n)
  {
  }

  lemma ChangedOnce(t: Tree, changes: seq<Change>, c: Change)
    ensures ChangedAll(t, changes + [c]) == Changed(ChangedAll(t, changes), c)
  {
    assert (changes + [c])[..|changes|] == changes;
  }

  /**
   A whole reconcile: paths are opened and things created and deleted in any order, and one
   restore ends it. The tree is then the original one with exactly the changes carried out:
   every directory that was there all along has its original mode.
   */
  method ReconcileThenRestore(disk: Disk, steps: seq<Step>) returns (refused: set<nat>)
    requires Rooted(disk.tree)
    modifies disk
    ensures disk.tree == ChangedAll(old(disk.tree), Carried(steps, refused, |steps|))
    ensures forall i :: i in refused ==> i < |steps| && steps[i].Changing? && steps[i].change.Created?
  {
    hide OpenedFrom, OnTheBooks, Blocked;
    var modes := new SyncDirectoryModes(disk);
    refused := {};
    for i := 0 to |steps|
      invariant modes.disk == disk && fresh(modes) && modes.Undisturbed()
      invariant modes.wanted == ChangedAll(old(disk.tree), Carried(steps, refused, i))
      invariant forall k :: k in refused ==> k < i && steps[k].Changing? && steps[k].change.Created?
    {
      match steps[i]
      case Opening(target) =>
        var _ := modes.PrepareTarget(target);
      case Changing(change) =>
        var ok := modes.Carry(change);
        if ok {
          ChangedOnce(old(disk.tree), Carried(steps, refused, i), change);
        } else {
          CarriedSoFar(steps, refused, i, i);
          refused := refused + {i};
        }
    }
    modes.StaysRooted();
    var _ := modes.Restore();
  }

  /** Any number of prepared directories, then one restore: every directory has its original mode. */
  method PrepareAllThenRestore(disk: Disk, targets: seq<Target>) returns (failed: set<nat>)
    requires Rooted(disk.tree)
    modifies disk
    ensures disk.tree == old(disk.tree)
    ensures forall i :: i in failed <==>
              0 <= i < |targets| && (targets[i].Outside? || Blocked(old(disk.tree), targets[i].path))
  {
    hide OpenedFrom, OnTheBooks, Blocked;
    var modes := new SyncDirectoryModes(disk);
    failed := {};
    for i := 0 to |targets|
      invariant modes.disk == disk && modes.wanted == old(disk.tree) && fresh(modes) && modes.Undisturbed() && modes.remade == {}
      invariant forall k :: k in failed <==>
                  0 <= k < i && (targets[k].Outside? || Blocked(old(disk.tree), targets[k].path))
    {
      var err := modes.PrepareTarget(targets[i]);
      if err {
        failed := failed + {i};
      }
    }
    modes.StaysRooted();
    var _ := modes.Restore();
  }
}
