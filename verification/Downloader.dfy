/**
 The downloader: applies one remote change to one local path while the user keeps editing it.
 */
module Downloader {
  import opened ByteStrings
  import opened Digests
  import opened SyncTypes
  import opened ChunkDelta
  import opened Downloads
  import opened DownloadHistory
  import opened DownloadOutcomes

  class Downloader {
    const readonly: bool
    const newInode: nat
    const newMtimeMs: int

    // The local path, its conflict copies, and what the reconciler hears.
    var node: Option<Node>
    var copies: seq<Node>
    var echo: Echo
    var results: seq<DownloadResult>

    // The environment: edits between steps, edits in the unguarded gaps, which steps fail, whether a
    // link at the path leads to a directory, and every identity the path has shown.
    const linkedDirectory: bool
    var script: seq<seq<Edit>>
    var gaps: seq<seq<Edit>>
    var faults: seq<bool>
    var seen: set<FileInfo>

    /** Everything that happened to the path. */
    ghost var trace: seq<Event>

    constructor (readonly: bool, newInode: nat, newMtimeMs: int, linkedDirectory: bool, node: Option<Node>,
                 script: seq<seq<Edit>>, gaps: seq<seq<Edit>>, faults: seq<bool>)
      ensures Valid() && this.readonly == readonly && this.linkedDirectory == linkedDirectory
      ensures this.newInode == newInode && this.newMtimeMs == newMtimeMs && results == []
      ensures this.node == node && copies == [] && seen == (if node.Some? then {node.value.info} else {})
      ensures this.script == script && this.gaps == gaps && this.faults == faults && trace == []
    {
      this.readonly, this.node, this.script, this.gaps, this.faults := readonly, node, script, gaps, faults;
      this.newInode, this.newMtimeMs, this.linkedDirectory := newInode, newMtimeMs, linkedDirectory;
      copies, echo, results := [], NoEcho, [];
      seen := if node.Some? then {node.value.info} else {};
      trace := [];
    }

    ghost function Path(): PathState
      reads this
    {
      PathState(node, copies, seen)
    }

    ghost function Now(): Moment
      reads this
    {
      Moment(Path(), script, gaps, echo, trace)
    }

    ghost predicate Valid()
      reads this
    {
      Sane(Path())
    }

    /** Everything since the method began. */
    twostate function New(): seq<Event>
      reads this
    {
      Since(old(Now()), Now())
    }

    twostate predicate Edited()
      reads this
    {
      OnlyEdited(old(Now()), Now())
    }

    twostate predicate Answered()
      reads this
    {
      |results| == |old(results)| + 1 && results[..|old(results)|] == old(results)
    }

    function Last(): DownloadResult
      requires results != []
      reads this
    {
      results[|results| - 1]
    }

    predicate Shows(info: Option<FileInfo>)
      reads this
    {
      Shown(node, info)
    }

    /** Nothing interferes: no step fails, and nobody edits. */
    predicate Calm()
      reads `faults, `script, `gaps
    {
      faults == [] && NoEdits(script) && NoEdits(gaps)
    }

    /** In calm, a step that only looks leaves the path as it is. */
    twostate predicate Still()
      reads this
    {
      old(Calm()) ==> Calm() && Path() == old(Path()) && echo == old(echo)
    }

    /** How the operation ended, told from where the method began. */
    twostate function Ends(): Ending
      requires results != []
      reads this
    {
      Ending(old(Path()), Path(), Last(), old(echo), echo)
    }

    // --- single events ---------------------------------------------------

    twostate predicate Did(e: Event)
      reads this
    {
      Path() == After(old(Path()), e) && trace == old(trace) + [e]
    }

    /** Plays a batch of edits; an edit that would reuse an identity does not happen. */
    method Play(gap: bool, edits: seq<Edit>)
      modifies `node, `seen, `trace
      ensures Did(Played(gap, edits))
    {
      for i := 0 to |edits|
        invariant (node, seen) == Edits(old(node), old(seen), edits[..i]) && trace == old(trace)
      {
        assert edits[..i + 1][..i] == edits[..i];
        match edits[i] {
          case Vanish =>
            node := None;
          case Put(n) =>
            if n.info !in seen {
              node, seen := Some(n), seen + {n.info};
            }
        }
      }
      assert edits[..|edits|] == edits;
      trace := trace + [Played(gap, edits)];
    }

    method Place(staged: Node)
      modifies `node, `seen, `trace
      ensures Did(Placed(staged))
    {
      node, seen := Some(staged), seen + {staged.info};
      trace := trace + [Placed(staged)];
    }

    method MoveAside()
      requires node.Some?
      modifies `node, `copies, `trace
      ensures Did(MovedAside)
    {
      copies, node := copies + [node.value], None;
      trace := trace + [MovedAside];
    }

    method Remove()
      modifies `node, `trace
      ensures Did(Removed)
    {
      node := None;
      trace := trace + [Removed];
    }

    method Make(directory: Node)
      modifies `node, `seen, `trace
      ensures Did(Made(directory))
    {
      node, seen := Some(directory), seen + {directory.info};
      trace := trace + [Made(directory)];
    }

    method Chmod(perm: nat)
      requires node.Some?
      modifies `node, `seen, `trace
      ensures Did(Chmodded(perm))
    {
      node := Some(node.value.(info := node.value.info.(perm := perm)));
      seen := seen + {node.value.info};
      trace := trace + [Chmodded(perm)];
    }

    // --- the environment -------------------------------------------------

    /** Edits between two steps. */
    method Interleave()
      requires Valid()
      modifies `node, `seen, `script, `trace
      ensures Valid() && Edited() && GapNodes(old(Path()), New()) == {} && GapsQuiet(old(Path()), New()) && Still()
    {
      ghost var first := Now();
      NothingHappened(first);
      if NoEdits(script) {
        NothingIsPlayed(Path(), script);
      }
      if script != [] {
        var batch := script[0];
        script := script[1..];
        Play(false, batch);
        OneEvent(first, Played(false, batch), Now());
        EditedFacts(first, Now());
        assert New()[..0] == [];
      }
    }

    /** What the next gap leaves at the path. */
    function AfterGap(): Option<Node>
      reads this
    {
      if gaps == [] then node else Edits(node, seen, gaps[0]).0
    }

    /** Edits in a stretch that no later check can notice. */
    method Gap()
      requires Valid()
      modifies `node, `seen, `gaps, `trace
      ensures Valid() && Edited() && New() == GapEvents(old(gaps)) && node == old(AfterGap())
      ensures EntryOrGap(old(Now()), Now()) && (GapsQuiet(old(Path()), New()) ==> node == old(node)) && Still()
    {
      hide Edits, GapNodes, GapsQuiet, EntryOrGap, Replay, Batches, Brought;
      ghost var first := Now();
      NothingHappened(first);
      if NoEdits(gaps) {
        NothingIsPlayed(Path(), gaps);
      }
      if gaps != [] {
        var batch := gaps[0];
        gaps := gaps[1..];
        Play(true, batch);
        OneEvent(first, Played(true, batch), Now());
        EditedFacts(first, Now());
      }
      GapIsEntryOrGap(first, Now());
    }

    /** Does the next fallible step (a system call, a cancellation check) fail? */
    method Fails() returns (b: bool)
      modifies `faults
      ensures b == (old(faults) != [] && old(faults)[0])
      ensures old(faults) == [] ==> faults == []
    {
      if faults == [] {
        return false;
      }
      b := faults[0];
      faults := faults[1..];
    }

    // --- looking ---------------------------------------------------------

    method TakeSnapshot(stored: SyncEntry) returns (ok: bool, s: Snapshot)
      requires Valid()
      modifies `node, `seen, `script, `faults, `trace
      ensures Valid() && Edited() && Faithful(Path(), s, stored)
      ensures Still() && (old(Calm()) ==> ok && Shows(s.info))
    {
      ghost var first := Now();
      s := Snapshot(None, NoHash, NoHash, "");
      Interleave();
      ghost var second := Now();
      var failed := Fails();
      if failed {
        return false, s;
      }
      if node.None? {
        return true, s;
      }
      hide ChunkHashes, OnlyEdited, Calm;
      var info := node.value.info;
      s := s.(info := Some(info));
      if info.kind == Symlink {
        ok, s := ReadTarget(s, stored);
        EditedTwice(first, second, Now());
      } else if info.kind == Regular {
        ok, s := ReadContent(s, stored);
        EditedTwice(first, second, Now());
      } else {
        ok := true;
      }
    }

    method ReadTarget(s0: Snapshot, stored: SyncEntry) returns (ok: bool, s: Snapshot)
      requires Valid() && s0.info.Some? && s0.info.value.kind == Symlink
      requires s0 == Snapshot(s0.info, NoHash, NoHash, "") && Shows(s0.info)
      modifies `node, `seen, `script, `faults, `trace
      ensures Valid() && Edited() && Faithful(Path(), s, stored)
      ensures Still() && (old(Calm()) ==> ok && Shows(s.info))
    {
      ghost var first := Now();
      Interleave();
      EditedFacts(first, Now());
      var failed := Fails();
      if failed || node.None? || node.value.info.kind != Symlink {
        return false, Snapshot(None, NoHash, NoHash, "");
      }
      hide OnlyEdited;
      return true, s0.(target := node.value.target);
    }

    /** Hashes the file, and once more by chunks when the baseline is chunked; edits may come in between. */
    method ReadContent(s0: Snapshot, stored: SyncEntry) returns (ok: bool, s: Snapshot)
      requires Valid() && s0.info.Some? && s0.info.value.kind == Regular
      requires s0 == Snapshot(s0.info, NoHash, NoHash, "") && Shows(s0.info)
      modifies `node, `seen, `script, `faults, `trace
      ensures Valid() && Edited() && Faithful(Path(), s, stored)
      ensures Still() && (old(Calm()) ==> ok && Shows(s.info))
    {
      hide ChunkHashes, OnlyEdited;
      ghost var first := Now();
      var none := Snapshot(None, NoHash, NoHash, "");
      Interleave();
      ghost var second := Now();
      EditedFacts(first, second);
      var failed := Fails();
      if failed || node.None? || !IsData(node.value) {
        return false, none;
      }
      s := s0.(hash := Raw(node.value.content), baselineHash := Raw(node.value.content));
      if stored.chunkSize > 0 {
        Interleave();
        EditedFacts(second, Now());
        EditedTwice(first, second, Now());
        failed := Fails();
        if failed || node.None? || !IsData(node.value) {
          return false, none;
        }
        var hashes, _ := StreamChunkHashes(node.value.content, stored.chunkSize);
        s := s.(baselineHash := CompositeHash(hashes));
      }
      return true, s;
    }

    method Unchanged(s: Snapshot) returns (b: bool)
      requires Valid()
      modifies `node, `seen, `script, `faults, `trace
      ensures Valid() && Edited() && (b ==> Shows(s.info)) && Still() && (old(Calm()) ==> b == Shows(s.info))
      ensures GapNodes(old(Path()), New()) == {} && GapsQuiet(old(Path()), New())
    {
      hide OnlyEdited;
      Interleave();
      var failed := Fails();
      b := !failed && Shows(s.info);
    }

    // --- answering -------------------------------------------------------

    method Send(r: DownloadResult)
      modifies `results
      ensures Answered() && Last() == r
    {
      results := results + [r];
    }

    /** An answer after nothing but edits since `first`. */
    method Answer(ghost first: Moment, op: DownloadOp, r: DownloadResult)
      requires Sane(first.path) && OnlyEdited(first, Now()) && !r.movedAside && ResultConsistent(r)
      modifies `results
      ensures Answered() && Last() == r && Over(first, Now(), op, r)
    {
      OverWithoutAction(first, Now(), op, r);
      hide Over, OnlyEdited;
      Send(r);
    }

    method Cancelled(ghost first: Moment, op: DownloadOp) returns (c: bool)
      requires Sane(first.path) && OnlyEdited(first, Now())
      modifies `faults, `results
      ensures c ==> Answered() && Last() == Outcome(op).(err := true) && Over(first, Now(), op, Last())
      ensures !c ==> results == old(results)
      ensures old(faults) == [] ==> !c && faults == []
    {
      hide Over, OnlyEdited;
      c := Fails();
      if c {
        Answer(first, op, Outcome(op).(err := true));
      }
    }

    method SendFileResult(op: DownloadOp, stat: RemoteStat, hash: Digest, moved: bool, mode: nat, size: nat)
      requires Valid()
      modifies `node, `seen, `script, `faults, `results, `trace
      ensures Valid() && Edited() && Answered()
      ensures GapsQuiet(old(Path()), New())
      ensures Last().op == op && !Last().skipped
      ensures if Succeeded(Last()) then
                Last().remoteHash == hash && Last().remoteStat == Some(stat) &&
                Last().movedAside == moved && Last().mode == mode && Last().size == size &&
                Last().mtimeMs == stat.mtimeMs
              else !Last().movedAside
      ensures Still() && (old(Calm()) && node.Some? ==> Succeeded(Last()) && Last().localMtimeMs == node.value.info.mtimeMs)
    {
      hide OnlyEdited, GapsQuiet, GapNodes;
      Interleave();
      var failed := Fails();
      if failed || node.None? {
        Send(Outcome(op).(err := true));
        return;
      }
      Send(DownloadResult(op, false, false, hash, Some(stat), moved, mode, size, stat.mtimeMs,
                          node.value.info.mtimeMs, ""));
    }

    // --- changing the path -----------------------------------------------

    /** Renames the local node to its conflict copy; a missing one is no error. */
    method MoveLocalToConflict(ghost op: DownloadOp) returns (ok: bool, moved: bool)
      requires Valid() && op.conflict
      modifies `node, `seen, `gaps, `faults, `copies, `trace
      ensures Valid() && Acted(old(Now()), Now(), op, moved, {})
      ensures New() == AfterGapEvent(old(gaps), moved, MovedAside)
      ensures ok ==> node.None? && moved == old(AfterGap()).Some?
      ensures !ok ==> !moved
      ensures old(Calm()) ==> Calm() && ok && moved == old(node).Some? &&
                              copies == old(copies) + if moved then [old(node).value] else []
    {
      hide Edits, OnlyEdited, EntryOrGap, GapsQuiet, GapNodes, GapEvents, Acted;
      ghost var first := Now();
      Gap();
      ghost var second := Now();
      EditedIsActed(first, second, op, {});
      var failed := Fails();
      if failed {
        return false, false;
      }
      if node.None? {
        return true, false;
      }
      failed := Fails();
      if failed {
        return false, false;
      }
      MoveAside();
      ActedOnce(first, second, MovedAside, Now(), op, {});
      return true, true;
    }

    /** Renames a staged node over the path; a directory in the way makes the rename fail. */
    method Rename(op: DownloadOp, staged: Node, ghost excused: set<Node>) returns (ok: bool)
      requires Valid() && (node.Some? ==> Justified(node.value, op, excused))
      modifies `node, `seen, `gaps, `faults, `trace
      ensures Valid() && Acted(old(Now()), Now(), op, false, excused)
      ensures New() == AfterGapEvent(old(gaps), ok, Placed(staged))
      ensures ok ==> node == Some(staged)
      ensures ok <==> !(old(faults) != [] && old(faults)[0]) &&
                      !(old(AfterGap()).Some? && old(AfterGap()).value.info.kind == Directory)
      ensures old(Calm()) ==> Calm() && (ok <==> !IsDirectory(old(node))) && (!ok ==> Path() == old(Path()))
    {
      hide Edits, OnlyEdited, EntryOrGap, GapsQuiet, GapNodes, GapEvents, Acted, Justified, NoEdits;
      ghost var first := Now();
      Gap();
      ghost var second := Now();
      EditedIsActed(first, second, op, excused);
      var failed := Fails();
      if failed || (node.Some? && node.value.info.kind == Directory) {
        return false;
      }
      GapNodeIsJustified(first, second, op, excused);
      Place(staged);
      ActedOnce(first, second, Placed(staged), Now(), op, excused);
      return true;
    }

    // --- writing a file --------------------------------------------------

    /** The bytes to stage: the data itself, or the local file with the fetched chunks patched in. */
    method Stage(source: Source) returns (ok: bool, content: Bytes)
      requires source.Patch? ==> source.chunkSize > 0
      requires source.Patch? ==> forall i :: i in source.chunks ==> |source.chunks[i]| <= source.chunkSize
      modifies `faults
      ensures ok && source.Whole? ==> content == source.data
      ensures ok && source.Patch? ==>
                content == Patched(ContentOf(node), source.chunks, source.chunkSize, source.fileSize)
      ensures ok && source.Patch? && node.Some? ==> node.value.info.kind == Regular
      ensures old(faults) == [] ==> faults == [] && (ok <==> CanStage(source, node))
    {
      var failed := Fails();
      if failed {
        return false, [];
      }
      match source
      case Whole(data) =>
        return true, data;
      case Patch(chunks, chunkSize, fileSize) =>
        if node.Some? && node.value.info.kind != Regular {
          return false, [];
        }
        content := PatchChunks(ContentOf(node), chunks, chunkSize, fileSize);
        ok := true;
    }

    /**
     The writer up to its final check. `base` is the node whose bytes were patched: the one on
     entry, unless an edit fell between the caller's check and the second stat.
     */
    method StageFile(source: Source) returns (e: WriteError, content: Bytes, ghost base: Option<Node>)
      requires Valid()
      requires source.Patch? ==> source.chunkSize > 0
      requires source.Patch? ==> forall i :: i in source.chunks ==> |source.chunks[i]| <= source.chunkSize
      modifies `node, `seen, `script, `gaps, `faults, `trace
      ensures Valid() && Edited()
      ensures e == Written ==> EntryOrGap(old(Now()), Now()) && FromSource(content, source, base)
      ensures e == Written && GapsQuiet(old(Path()), New()) && old(node).Some? ==> base == old(node)
      ensures e == Written && source.Patch? && base.Some? ==> base.value.info.kind == Regular
      ensures Still() && (old(Calm()) ==> e == if CanStage(source, old(node)) then Written else WriteFailed)
      ensures old(Calm()) && e == Written && old(node).Some? ==> base == old(node)
    {
      hide Patched, OnlyEdited, EntryOrGap, Later, GapsQuiet, GapNodes;
      ghost var first := Now();
      NothingHappened(first);
      content, base := [], None;
      // Cancellation, or the parent directory cannot be made.
      var failed := Fails();
      if failed {
        return WriteFailed, content, base;
      }
      Gap();
      ghost var second := Now();
      failed := Fails();
      if failed {
        return WriteFailed, content, base;
      }
      e, content, base := StageAndCheck(source);
      EditedTwice(first, second, Now());
      if e == Written {
        GapThenSame(first, second, Now());
        GapsConcat(first.path, Since(first, second), Since(second, Now()));
        EditedIsLater(first, second);
      }
    }

    /** From the second stat to the final check: the node shown then is still there. */
    method StageAndCheck(source: Source) returns (e: WriteError, content: Bytes, ghost base: Option<Node>)
      requires Valid()
      requires source.Patch? ==> source.chunkSize > 0
      requires source.Patch? ==> forall i :: i in source.chunks ==> |source.chunks[i]| <= source.chunkSize
      modifies `node, `seen, `script, `faults, `trace
      ensures Valid() && Edited() && (e == Written ==> node == old(node) && FromSource(content, source, base))
      ensures e == Written && old(node).Some? ==> base == old(node)
      ensures e == Written && source.Patch? && base.Some? ==> base.value.info.kind == Regular
      ensures Still() && (old(Calm()) ==> e == if CanStage(source, old(node)) then Written else WriteFailed)
    {
      hide Patched, OnlyEdited, GapNodes, GapsQuiet;
      ghost var first := Now();
      content, base := [], None;
      var info := if node.None? then None else Some(node.value.info);
      Interleave();
      ghost var second := Now();
      base := node;
      var ok;
      ok, content := Stage(source);
      if !ok {
        return WriteFailed, content, base;
      }
      // Permissions, sync, close, cancellation.
      var failed := Fails();
      if failed {
        return WriteFailed, content, base;
      }
      var same := Unchanged(Snapshot(info, NoHash, NoHash, ""));
      EditedTwice(first, second, Now());
      if !same {
        return LocalChanged, content, base;
      }
      SameIdentitySameNode(first, second, Now());
      return Written, content, base;
    }

    /** Moves a conflicting local file aside and puts the staged file in place. */
    method Commit(op: DownloadOp, staged: Node, ghost excused: set<Node>) returns (ok: bool, moved: bool)
      requires Valid() && (node.Some? ==> op.conflict || Justified(node.value, op, excused))
      modifies `node, `seen, `gaps, `faults, `copies, `trace
      ensures Valid() && Acted(old(Now()), Now(), op, moved, excused) && (moved ==> op.conflict)
      ensures Placements(New()) == if ok then [staged] else []
      ensures old(Calm()) ==> Calm() && Commits(old(Path()), Path(), op, staged, ok, moved)
    {
      ghost var first := Now();
      hide Acted, Justified, GapNodes, Edits, Placements, AfterGapEvent, GapEvents, Replay, Batches, Calm, AfterGap;
      moved := false;
      if op.conflict {
        ok, moved := MoveLocalToConflict(op);
        ActedMore(first, Now(), op, moved, {}, excused);
        GapEventsPlaceNothing(first.gaps, moved);
        if !ok {
          return;
        }
        ghost var second := Now();
        ok := Rename(op, staged, {});
        RenamePlaces(second.gaps, staged, ok);
        ActedTwice(first, second, Now(), op, moved, false, excused, {});
        PlacementsConcat(Since(first, second), Since(second, Now()));
      } else {
        ok := Rename(op, staged, excused);
        RenamePlaces(first.gaps, staged, ok);
      }
    }

    /**
     Stages the content beside the destination, checks the destination once more, moves a
     conflicting local file aside and renames.
     */
    method WriteLocalFile(op: DownloadOp, mode: nat, source: Source)
      returns (e: WriteError, moved: bool, ghost base: Option<Node>)
      requires Valid() && (node.Some? ==> op.conflict || Justified(node.value, op, {}))
      requires source.Patch? ==> source.chunkSize > 0
      requires source.Patch? ==> forall i :: i in source.chunks ==> |source.chunks[i]| <= source.chunkSize
      modifies `node, `seen, `script, `gaps, `faults, `copies, `trace
      ensures Valid() && Acted(old(Now()), Now(), op, moved, {})
      ensures e != Written ==> Placements(New()) == []
      ensures e == LocalChanged ==> Edited() && !moved
      ensures e == Written ==> exists n: Node :: Placements(New()) == [n] && n.info.kind == Regular &&
                                                 n.info.perm == Perm(mode) && FromSource(n.content, source, base)
      ensures e == Written && GapsQuiet(old(Path()), New()) && old(node).Some? ==> base == old(node)
      ensures e == Written && source.Patch? && base.Some? ==> base.value.info.kind == Regular
      ensures old(Calm()) ==>
                && Calm() && e != LocalChanged
                && (e == Written <==> CanStage(source, old(node)) && (op.conflict || !IsDirectory(old(node))))
                && (e != Written ==> Path() == old(Path()) && !moved)
                && (e == Written ==> && node.Some? && Commits(old(Path()), Path(), op, node.value, true, moved)
                                     && node.value.info.kind == Regular && node.value.info.perm == Perm(mode) && Sized(node)
                                     && FromSource(node.value.content, source, base)
                                     && (old(node).Some? ==> base == old(node)))
    {
      hide AtBaseline, OnlyEdited, Acted, Justified, EntryOrGap, GapNodes, GapsQuiet, FromSource, OnlyEdits, Placements, Replay,
        Batches, Calm, CanStage;
      ghost var first := Now();
      moved := false;
      var content;
      e, content, base := StageFile(source);
      ghost var second := Now();
      EditedPlacesNothing(first, second);
      if e != Written {
        EditedIsActed(first, second, op, {});
        return;
      }
      ghost var excused := {} + GapNodes(first.path, Since(first, second));
      EntryIsJustified(first, second, op, {});
      var staged := Node(FileInfo(Regular, newInode, Perm(mode), |content|, newMtimeMs), content, "");
      var ok;
      ok, moved := Commit(op, staged, excused);
      ActedAfterEdits(first, second, Now(), op, moved, excused);
      PlacementsConcat(Since(first, second), Since(second, Now()));
      GapsConcat(first.path, Since(first, second), Since(second, Now()));
      EditedIsLater(first, second);
      e := if ok then Written else WriteFailed;
      assert ok ==> Placements(New()) == [staged];
    }

    // --- the operations --------------------------------------------------

    /** One operation is over: one answer, and what `Over` says of everything since. */
    twostate predicate Done(op: DownloadOp)
      reads this
    {
      Valid() && Answered() && Over(old(Now()), Now(), op, Last())
    }

    /** What a positive answer with a remote stat says: the path held the content with its hash. */
    twostate predicate ContentTold()
      reads this
    {
      results != [] && Succeeded(Last()) && Last().remoteStat.Some? ==>
        Last().remoteHash.Raw? && PlacedOrPresent(old(Now()), Now(), Last().remoteHash.content)
    }

    /** Makes a directory unless there is one, or a link that leads to one. */
    method ProcessMkdir(op: DownloadOp)
      requires Valid() && op.chunkSize == 0
      modifies `node, `seen, `faults, `results, `echo, `trace
      ensures Done(op) && Last().op == op && Last().remoteStat.None? && !Last().skipped
      ensures Succeeded(Last()) ==> echo == EchoDir && LeadsThere(node, linkedDirectory)
      ensures old(node).Some? || !Succeeded(Last()) ==> node == old(node)
      ensures old(faults) == [] ==> DirectoryEnds(Ends(), op, linkedDirectory)
    {
      ghost var first := Now();
      NothingHappened(first);
      hide OnlyEdited, Over;
      var cancelled := Cancelled(first, op);
      if cancelled {
        return;
      }
      var failed := Fails();
      if failed || (node.Some? && !LeadsThere(node, linkedDirectory)) {
        Answer(first, op, Outcome(op).(err := true));
        return;
      }
      MakeDirectory(op);
      Send(Outcome(op));
      OverAfterAction(first, Now(), op, false, Last());
    }

    method MakeDirectory(op: DownloadOp)
      requires Valid() && (node.None? || LeadsThere(node, linkedDirectory))
      modifies `node, `seen, `echo, `trace
      ensures Valid() && Acted(old(Now()), Now(), op, false, {})
      ensures echo == EchoDir && LeadsThere(node, linkedDirectory)
      ensures if old(node).Some? then node == old(node) else IsDirectory(node)
    {
      ghost var first := Now();
      NothingHappened(first);
      EditedIsActed(first, first, op, {});
      if node.None? {
        var directory := Node(FileInfo(Directory, newInode, Perm(493), 0, newMtimeMs), [], "");
        Make(directory);
        ActedOnce(first, first, Made(directory), Now(), op, {});
      }
      hide Acted;
      EchoDoesNotMatter(first, Now(), op, false, {}, EchoDir);
      echo := EchoDir;
    }

    /** Removes whatever is at the path; only the identity-blind stat just before says what that is. */
    method RemoveLocalFile() returns (err: bool, ghost removed: bool)
      requires Valid()
      modifies `node, `seen, `gaps, `faults, `echo, `trace
      ensures Valid() && Later(old(Now()), Now())
      ensures New() == AfterGapEvent(old(gaps), removed, Removed)
      ensures removed ==> old(AfterGap()).Some? && node.None?
      ensures !removed ==> node == old(AfterGap())
      ensures old(faults) == [] ==> !err && removed == old(AfterGap()).Some?
      ensures old(faults) == [] ==> echo == if removed then EchoDelete else old(echo)
    {
      hide Edits, OnlyEdited, EntryOrGap, GapsQuiet, GapNodes, GapEvents, Calm, Still, AfterGap, Replay, Batches;
      ghost var first := Now();
      Gap();
      EditedIsLater(first, Now());
      hide Later;
      removed := false;
      var failed := Fails();
      if failed {
        return true, removed;
      }
      failed := Fails();
      if failed || node.None? {
        return false, removed;
      }
      failed := Fails();
      if failed {
        return true, removed;
      }
      failed := Fails();
      if !failed {
        ghost var second := Now();
        Remove();
        LaterByRemoval(first, second, Now());
        removed := true;
      }
      EchoIsNoEvent(first, Now(), EchoDelete);
      echo := EchoDelete;
      return false, removed;
    }

    /**
     A plain delete removes what it finds. With no failing call and no edit, that loses an edit
     exactly if it was data off the baseline.
     */
    method ProcessDelete(op: DownloadOp)
      requires Valid() && op.kind == DownloadDelete
      modifies `node, `seen, `gaps, `faults, `echo, `results, `trace
      ensures Valid() && Answered() && Later(old(Now()), Now()) && Deleted(New(), old(gaps))
      ensures Last().op == op && !Last().skipped && !Last().movedAside && Last().remoteStat.None?
      ensures old(faults) == [] ==> Succeeded(Last()) && node.None?
      ensures old(Calm()) ==> DeleteEnds(Ends(), op)
      ensures old(faults) == [] && old(gaps) == [] ==>
                (Harmless(old(Path()), New(), op, {}) <==> old(node.Some? ==> Justified(node.value, op, {})))
      ensures old(node.Some? ==> Justified(node.value, op, {})) ==> Done(op)
    {
      hide Justified, Edits, Acted, Harmless, GapEvents, Over, Later;
      ghost var first := Now();
      if NoEdits(gaps) {
        NothingIsPlayed(Path(), gaps);
      }
      var err, removed := RemoveLocalFile();
      Send(Outcome(op).(err := err));
      RemovalIsHarmless(first, Now(), op, removed);
      if first.path.node.None? || Justified(first.path.node.value, op, {}) {
        OverAfterAction(first, Now(), op, false, Last());
      }
    }

    method ProcessSymlink(op: DownloadOp, a: Answers)
      requires Valid() && op.chunkSize == 0 && op.kind != DownloadChmod
      modifies this
      ensures Done(op) && (Succeeded(Last()) ==> Last().remoteStat.None?)
      ensures Last().op == op.(symlink := Last().op.symlink)
      ensures old(Calm()) && a.readlinkAgain.Answer? ==>
                LinkEnds(Ends(), op, if op.symlink == "" then a.readlinkAgain.value else op.symlink)
    {
      ghost var first := Now();
      hide OnlyEdited, Over, Faithful, NoEdits, LinkEnds;
      var ok, local := TakeSnapshot(op.storedEntry);
      ghost var second := Now();
      if !ok || (op.symlink == "" && a.readlinkAgain.Failed?) {
        Answer(first, op, Outcome(op).(err := true));
        return;
      }
      var linked := op.(symlink := if op.symlink == "" then a.readlinkAgain.value else op.symlink);
      LinkTo(linked, local);
      OverForOther(second, Now(), linked, op, Last());
      OverAfterEdits(first, second, Now(), op, Last());
      if LinkEnds(Ends(), linked, linked.symlink) {
        LinkEndsForOther(Ends(), linked, op, linked.symlink);
      }
    }

    /** Makes the path a link to the operation's target, unless it is one already. */
    method LinkTo(op: DownloadOp, local: Snapshot)
      requires Valid() && op.chunkSize == 0 && op.kind != DownloadChmod && Faithful(Path(), local, op.storedEntry)
      modifies this
      ensures Done(op) && (Succeeded(Last()) ==> Last().remoteStat.None?) && Last().op == op
      ensures old(Calm() && Shows(local.info)) ==> LinkEnds(Ends(), op, op.symlink)
    {
      ghost var first := Now();
      NothingHappened(first);
      if Shows(local.info) {
        SnapshotTellsLink(Path(), local, op.storedEntry, op.symlink);
      }
      hide OnlyEdited, Over, Faithful, MatchesStored, NoEdits, LinkEnds, IsLink;
      ghost var calm := Calm() && Shows(local.info);
      var cancelled := Cancelled(first, op);
      if cancelled {
        return;
      }
      var same := Unchanged(local);
      ghost var second := Now();
      if !same {
        Answer(first, op, Outcome(op).(skipped := true));
        return;
      }
      if local.info.Some? && local.info.value.kind == Symlink && local.target == op.symlink {
        Answer(first, op, Outcome(op).(target := op.symlink, localMtimeMs := local.info.value.mtimeMs));
        if calm {
          LinkStays(Ends(), op, op.symlink);
        }
        return;
      }
      FaithfulAfterEdits(first, second, local, op.storedEntry);
      ReplaceIfAllowed(op, local);
      OverAfterEdits(first, second, Now(), op, Last());
    }

    /** Without a conflict, only what the baseline recorded may give way to the link. */
    method ReplaceIfAllowed(op: DownloadOp, local: Snapshot)
      requires Valid() && op.chunkSize == 0 && op.kind != DownloadChmod && Faithful(Path(), local, op.storedEntry)
      requires Shows(local.info)
      modifies this
      ensures Done(op) && (Succeeded(Last()) ==> Last().remoteStat.None?) && Last().op == op
      ensures old(Calm() && !IsLink(node, op.symlink)) ==> LinkEnds(Ends(), op, op.symlink)
    {
      ghost var first := Now();
      NothingHappened(first);
      SnapshotTells(Path(), local, op);
      hide OnlyEdited, Over, Faithful, MatchesStored, NoEdits, AsRecorded, LinkEnds, IsLink, LinkReplaced;
      ghost var calm := Calm() && !IsLink(node, op.symlink);
      if !op.conflict && !MatchesStored(local, op.hasStored, op.storedEntry) {
        Answer(first, op, Outcome(op).(skipped := true));
        if calm {
          LinkIsSkipped(Ends(), op, op.symlink);
        }
        return;
      }
      PlaceSymlink(op, local);
      if calm {
        LinkIsReplaced(Ends(), op, op.symlink);
      }
    }

    /** Stages the link and checks the destination once more. */
    method PlaceSymlink(op: DownloadOp, local: Snapshot)
      requires Valid() && op.chunkSize == 0 && Faithful(Path(), local, op.storedEntry)
      requires op.conflict || MatchesStored(local, op.hasStored, op.storedEntry)
      modifies this
      ensures Done(op) && (Succeeded(Last()) ==> Last().remoteStat.None?) && Last().op == op
      ensures old(Calm() && Shows(local.info)) ==> LinkReplaced(Ends(), op, op.symlink)
    {
      ghost var first := Now();
      NothingHappened(first);
      hide OnlyEdited, Over, Faithful, MatchesStored, NoEdits, LinkReplaced;
      // The parent directory, cancellation, the random suffix, the staged link.
      var failed := Fails();
      if failed {
        Answer(first, op, Outcome(op).(err := true));
        return;
      }
      Interleave();
      ghost var second := Now();
      var cancelled := Cancelled(first, op);
      if cancelled {
        return;
      }
      FaithfulAfterEdits(first, second, local, op.storedEntry);
      ReplaceIfUnchanged(op, local);
      OverAfterEdits(first, second, Now(), op, Last());
    }

    method ReplaceIfUnchanged(op: DownloadOp, local: Snapshot)
      requires Valid() && op.chunkSize == 0 && Faithful(Path(), local, op.storedEntry)
      requires op.conflict || MatchesStored(local, op.hasStored, op.storedEntry)
      modifies this
      ensures Done(op) && (Succeeded(Last()) ==> Last().remoteStat.None?) && Last().op == op
      ensures old(Calm() && Shows(local.info)) ==> LinkReplaced(Ends(), op, op.symlink)
    {
      ghost var first := Now();
      hide OnlyEdited, Over, Faithful, MatchesStored, Justified, AtBaseline, NoEdits, LinkReplaced;
      var same := Unchanged(local);
      ghost var second := Now();
      if !same {
        Answer(first, op, Outcome(op).(skipped := true));
        return;
      }
      FaithfulAfterEdits(first, second, local, op.storedEntry);
      if !op.conflict {
        UnchangedMatchIsJustified(second.path, local, op);
      }
      ReplaceBySymlink(op, local.info.Some? && local.info.value.kind == Directory);
      OverAfterEdits(first, second, Now(), op, Last());
    }

    /** Clears the destination, a conflicting node aside and an empty directory away, and renames. */
    method ReplaceBySymlink(op: DownloadOp, wasDirectory: bool)
      requires Valid() && op.chunkSize == 0 && (node.Some? ==> op.conflict || Justified(node.value, op, {}))
      modifies this
      ensures Done(op) && (Succeeded(Last()) ==> Last().remoteStat.None?) && Last().op == op && !Last().skipped
      ensures old(Calm() && wasDirectory == IsDirectory(node)) ==> LinkReplaced(Ends(), op, op.symlink)
    {
      ghost var first := Now();
      hide OnlyEdited, Over, Acted, Justified, NoEdits;
      var ok, moved := PutSymlink(op, wasDirectory);
      if !ok {
        Send(Outcome(op).(err := true));
        OverAfterAction(first, Now(), op, moved, Last());
        return;
      }
      ghost var second := Now();
      Interleave();
      ActedThenEdited(first, second, Now(), op, moved);
      var failed := Fails();
      if failed || node.None? {
        Send(Outcome(op).(err := true));
      } else {
        Send(Outcome(op).(target := op.symlink, movedAside := moved, localMtimeMs := node.value.info.mtimeMs));
      }
      OverAfterAction(first, Now(), op, moved, Last());
    }

    function StagedLink(target: string): Node {
      Node(FileInfo(Symlink, newInode, Perm(511), |target|, newMtimeMs), [], target)
    }

    method PutSymlink(op: DownloadOp, wasDirectory: bool) returns (ok: bool, moved: bool)
      requires Valid() && (node.Some? ==> op.conflict || Justified(node.value, op, {}))
      modifies `node, `seen, `gaps, `faults, `copies, `echo, `trace
      ensures Valid() && Acted(old(Now()), Now(), op, moved, {})
      ensures Placements(New()) == if ok then [StagedLink(op.symlink)] else []
      ensures echo == if ok then EchoSymlink(op.symlink) else old(echo)
      ensures old(Calm() && wasDirectory == IsDirectory(node)) ==>
                && Calm() && ok && node == Some(StagedLink(op.symlink)) && moved == (op.conflict && old(node).Some?)
                && copies == old(copies) + if moved then [old(node).value] else []
    {
      ghost var first := Now();
      hide Acted, Justified, OnlyEdited, NoEdits;
      moved := false;
      if !op.conflict && wasDirectory {
        ok := RemoveEmptyDirectory(op);
        if !ok {
          return;
        }
      }
      ghost var second := Now();
      ok, moved := Commit(op, StagedLink(op.symlink), {});
      if !op.conflict && wasDirectory {
        ActedTwice(first, second, Now(), op, false, false, {}, {});
        PlacementsConcat(Since(first, second), Since(second, Now()));
      }
      if ok {
        EchoDoesNotMatter(first, Now(), op, moved, {}, EchoSymlink(op.symlink));
        echo := EchoSymlink(op.symlink);
      }
    }

    method RemoveEmptyDirectory(op: DownloadOp) returns (ok: bool)
      requires Valid() && (node.Some? ==> Justified(node.value, op, {})) && !op.conflict
      modifies `node, `seen, `gaps, `faults, `trace
      ensures Valid() && Acted(old(Now()), Now(), op, false, {})
      ensures ok ==> node.None?
      ensures Placements(New()) == [] && (old(Calm()) ==> Calm() && ok == old(node).Some?)
    {
      hide OnlyEdited, Edits, Justified, EntryOrGap, GapsQuiet, GapNodes, GapEvents, Acted, NoEdits;
      ghost var first := Now();
      Gap();
      ghost var second := Now();
      EditedIsActed(first, second, op, {});
      EditedPlacesNothing(first, second);
      var failed := Fails();
      if failed || node.None? {
        return false;
      }
      GapNodeIsJustified(first, second, op, {});
      Remove();
      ActedOnce(first, second, Removed, Now(), op, {});
      return true;
    }

    /** A whole-file download, or what it turns into when the remote is no longer a file. */
    method ProcessFile(op: DownloadOp, a: Answers)
      requires Valid() && op.kind == DownloadFile && !op.chunked && op.chunkSize == 0
      modifies this
      ensures Done(op) && ContentTold() && !Last().op.chunked && Last().op.chunkSize == 0
      ensures Succeeded(Last()) && Last().op.kind == DownloadFile ==>
                (Last().remoteStat.Some? <==> RemoteKind(a) != DirKind && RemoteKind(a) != SymlinkKind)
      ensures old(Calm()) && AllAnswer(a) ==> FetchEnds(Ends(), op, a, readonly, linkedDirectory)
    {
      ghost var first := Now();
      hide OnlyEdited, Over, Faithful, PlacedOrPresent, NoEdits, FetchEnds;
      var ok, local := TakeSnapshot(op.storedEntry);
      ghost var second := Now();
      if !ok || a.stat.Failed? {
        Answer(first, op, Outcome(op).(err := true));
        return;
      }
      FollowStat(op, local, a);
      ContentToldAfterEdits(first, second, Now(), op, Last());
    }

    method FollowStat(op: DownloadOp, local: Snapshot, a: Answers)
      requires Valid() && op.kind == DownloadFile && !op.chunked && op.chunkSize == 0
      requires Faithful(Path(), local, op.storedEntry) && a.stat.Answer?
      modifies this
      ensures Done(op) && ContentTold() && !Last().op.chunked && Last().op.chunkSize == 0
      ensures Succeeded(Last()) && Last().op.kind == DownloadFile ==>
                (Last().remoteStat.Some? <==> RemoteKind(a) != DirKind && RemoteKind(a) != SymlinkKind)
      ensures old(Calm() && Shows(local.info)) && AllAnswer(a) ==> FetchEnds(Ends(), op, a, readonly, linkedDirectory)
    {
      ghost var first := Now();
      hide OnlyEdited, Over, Faithful, PlacedOrPresent, NoEdits, FetchEnds;
      Interleave();
      ghost var second := Now();
      FaithfulAfterEdits(first, second, local, op.storedEntry);
      var cancelled := Cancelled(first, op);
      if cancelled {
        return;
      }
      FollowKind(op, local, a);
      ContentToldAfterEdits(first, second, Now(), op, Last());
    }

    /** Goes on as the kind of the remote asks for. */
    method FollowKind(op: DownloadOp, local: Snapshot, a: Answers)
      requires Valid() && op.kind == DownloadFile && !op.chunked && op.chunkSize == 0
      requires Faithful(Path(), local, op.storedEntry) && a.stat.Answer?
      modifies this
      ensures Done(op) && ContentTold() && !Last().op.chunked && Last().op.chunkSize == 0
      ensures Succeeded(Last()) && Last().op.kind == DownloadFile ==>
                (Last().remoteStat.Some? <==> RemoteKind(a) != DirKind && RemoteKind(a) != SymlinkKind)
      ensures old(Calm() && Shows(local.info)) && AllAnswer(a) ==> FetchEnds(Ends(), op, a, readonly, linkedDirectory)
    {
      ghost var first := Now();
      NothingHappened(first);
      hide OnlyEdited, Over, Faithful, PlacedOrPresent, NoEdits, FileEnds, LinkEnds, VanishedEnds, DirectoryEnds;
      var stat := a.stat.value;
      if stat.None? {
        FileVanished(op, local);
      } else if stat.value.kind == DirKind {
        ProcessMkdir(op);
      } else if stat.value.kind == SymlinkKind {
        if a.readlink.Failed? {
          Answer(first, op, Outcome(op).(err := true));
          return;
        }
        FollowLink(op, a);
      } else {
        FetchWhole(op, local, a);
      }
    }

    method FollowLink(op: DownloadOp, a: Answers)
      requires Valid() && op.kind == DownloadFile && !op.chunked && op.chunkSize == 0 && a.readlink.Answer?
      modifies this
      ensures Done(op) && (Succeeded(Last()) ==> Last().remoteStat.None?) && Last().op == op.(symlink := Last().op.symlink)
      ensures old(Calm()) && a.readlinkAgain.Answer? ==>
                LinkEnds(Ends(), op, if a.readlink.value == "" then a.readlinkAgain.value else a.readlink.value)
    {
      ghost var first := Now();
      hide Over, LinkEnds, NoEdits;
      var linked := op.(symlink := a.readlink.value);
      ProcessSymlink(linked, a);
      OverForOther(first, Now(), linked, op, Last());
      if a.readlinkAgain.Answer? && LinkEnds(Ends(), linked, if a.readlink.value == "" then a.readlinkAgain.value else a.readlink.value) {
        LinkEndsForOther(Ends(), linked, op, if a.readlink.value == "" then a.readlinkAgain.value else a.readlink.value);
      }
    }

    /** The remote is gone: the local file goes too, if it is still what the baseline recorded. */
    method FileVanished(op: DownloadOp, local: Snapshot)
      requires Valid() && op.kind == DownloadFile && op.chunkSize == 0 && Faithful(Path(), local, op.storedEntry)
      modifies this
      ensures Done(op) && (Succeeded(Last()) ==> Last().op.kind == DownloadDelete && Last().remoteStat.None?)
      ensures Last().op == op.(kind := Last().op.kind)
      ensures old(Calm() && Shows(local.info)) ==> VanishedEnds(Ends(), op)
    {
      ghost var first := Now();
      if Shows(local.info) {
        SnapshotTells(Path(), local, op);
      }
      hide OnlyEdited, Over, Faithful, MatchesStored, Justified, NoEdits, AsRecorded;
      var same := Unchanged(local);
      ghost var second := Now();
      if !same || !MatchesStored(local, op.hasStored, op.storedEntry) {
        Answer(first, op, Outcome(op).(skipped := true));
        return;
      }
      FaithfulAfterEdits(first, second, local, op.storedEntry);
      UnchangedMatchIsJustified(second.path, local, op);
      RemoveVanished(op);
      OverAfterEdits(first, second, Now(), op, Last());
    }

    method RemoveVanished(op: DownloadOp)
      requires Valid() && op.kind == DownloadFile && (node.Some? ==> Justified(node.value, op, {}))
      modifies this
      ensures Done(op) && Last().op == op.(kind := DownloadDelete) && Last().remoteStat.None?
      ensures old(Calm()) ==> DeleteEnds(Ends(), op.(kind := DownloadDelete))
    {
      hide Over, AtBaseline;
      ghost var first := Now();
      var asDelete := op.(kind := DownloadDelete);
      ProcessDelete(asDelete);
      OverForOther(first, Now(), asDelete, op, Last());
    }

    /** Fetches the remote file and writes it, unless the local one already is that file. */
    method FetchWhole(op: DownloadOp, local: Snapshot, a: Answers)
      requires Valid() && op.kind == DownloadFile && op.chunkSize == 0 && Faithful(Path(), local, op.storedEntry)
      modifies this
      ensures Done(op) && ContentTold() && Last().op == op && (Succeeded(Last()) ==> Last().remoteStat.Some?)
      ensures old(Calm() && Shows(local.info)) && a.snapshot.Answer? ==>
                if a.snapshot.value.None? then SkippedEnds(Ends())
                else FileEnds(Ends(), op, a.snapshot.value.value, ModeFor(readonly, a.snapshot.value.value.stat.mode))
    {
      ghost var first := Now();
      NothingHappened(first);
      hide OnlyEdited, Over, Faithful, PlacedOrPresent, NoEdits, FileEnds;
      if a.snapshot.Failed? {
        Answer(first, op, Outcome(op).(err := true));
        return;
      }
      if a.snapshot.value.None? {
        Answer(first, op, Outcome(op).(skipped := true));
        return;
      }
      Interleave();
      ghost var second := Now();
      FaithfulAfterEdits(first, second, local, op.storedEntry);
      var cancelled := Cancelled(first, op);
      if cancelled {
        return;
      }
      WriteWhole(op, local, a.snapshot.value.value);
      ContentToldAfterEdits(first, second, Now(), op, Last());
    }

    method WriteWhole(op: DownloadOp, local: Snapshot, snapshot: FileSnapshot)
      requires Valid() && op.kind == DownloadFile && op.chunkSize == 0 && Faithful(Path(), local, op.storedEntry)
      modifies this
      ensures Done(op) && ContentTold() && Last().op == op && (Succeeded(Last()) ==> Last().remoteStat.Some?)
      ensures old(Calm() && Shows(local.info)) ==> FileEnds(Ends(), op, snapshot, ModeFor(readonly, snapshot.stat.mode))
    {
      ghost var first := Now();
      var hash := Raw(snapshot.content);
      var mode := if readonly then READ_ONLY_MODE else snapshot.stat.mode;
      if Shows(local.info) {
        SnapshotTellsFile(Path(), local, op.storedEntry, snapshot.content, mode);
      }
      hide OnlyEdited, Over, Faithful, PlacedOrPresent, NoEdits, IsFile, TellsFile, FileEnds;
      ghost var calm := Calm() && Shows(local.info);
      var same := Unchanged(local);
      ghost var second := Now();
      if !same {
        Answer(first, op, Outcome(op).(skipped := true));
        return;
      }
      FaithfulAfterEdits(first, second, local, op.storedEntry);
      if local.info.Some? && local.info.value.kind == Regular && local.hash == hash && local.info.value.perm == Perm(mode) {
        KeepFile(op, local, snapshot, mode);
        if calm {
          FileStays(Ends(), op, snapshot, mode);
        }
      } else {
        WriteIfAllowed(op, local, snapshot, mode);
      }
      ContentToldAfterEdits(first, second, Now(), op, Last());
    }

    /** Without a conflict, only what the baseline recorded may give way to the file. */
    method WriteIfAllowed(op: DownloadOp, local: Snapshot, snapshot: FileSnapshot, mode: nat)
      requires Valid() && op.kind == DownloadFile && op.chunkSize == 0 && Faithful(Path(), local, op.storedEntry)
      requires Shows(local.info)
      modifies this
      ensures Done(op) && ContentTold() && Last().op == op && (Succeeded(Last()) ==> Last().remoteStat.Some?)
      ensures old(Calm() && !IsFile(node, snapshot.content, mode)) ==> FileEnds(Ends(), op, snapshot, mode)
    {
      ghost var first := Now();
      NothingHappened(first);
      SnapshotTells(Path(), local, op);
      hide OnlyEdited, Over, Faithful, MatchesStored, Justified, PlacedOrPresent, NoEdits, AsRecorded, IsFile, FileEnds, FileReplaced;
      ghost var calm := Calm() && !IsFile(node, snapshot.content, mode);
      if !op.conflict {
        if !MatchesStored(local, op.hasStored, op.storedEntry) {
          Answer(first, op, Outcome(op).(skipped := true));
          if calm {
            FileIsSkipped(Ends(), op, snapshot, mode);
          }
          return;
        }
        UnchangedMatchIsJustified(first.path, local, op);
      }
      ReplaceByFile(op, snapshot.stat, mode, snapshot.content);
      if calm {
        FileIsReplaced(Ends(), op, snapshot, mode);
      }
    }

    /** The local file already is the remote one. */
    method KeepFile(op: DownloadOp, local: Snapshot, snapshot: FileSnapshot, mode: nat)
      requires Valid() && op.kind == DownloadFile && op.chunkSize == 0 && Faithful(Path(), local, op.storedEntry)
      requires local.info.Some? && Shows(local.info) && local.info.value.kind == Regular && local.hash == Raw(snapshot.content)
      modifies this
      ensures Done(op) && ContentTold() && Last().op == op && (Succeeded(Last()) ==> Last().remoteStat.Some?)
      ensures old(Calm()) ==>
                && Succeeded(Last()) && Unmoved(Ends())
                && TellsFile(Ends(), op, Raw(snapshot.content), snapshot.stat, mode, |snapshot.content|)
    {
      ghost var first := Now();
      assert IsFileWith(node, snapshot.content);
      hide Faithful, OnlyEdited, NoEdits;
      SendFileResult(op, snapshot.stat, Raw(snapshot.content), false, mode, |snapshot.content|);
      PresentBeforeEdits(first, Now(), snapshot.content);
      OverWithoutAction(first, Now(), op, Last());
    }

    method ReplaceByFile(op: DownloadOp, stat: RemoteStat, mode: nat, data: Bytes)
      requires Valid() && op.kind == DownloadFile && op.chunkSize == 0
      requires node.Some? ==> op.conflict || Justified(node.value, op, {})
      modifies this
      ensures Done(op) && ContentTold() && Last().op == op && (Succeeded(Last()) ==> Last().remoteStat.Some?)
      ensures old(Calm()) ==> FileReplaced(Ends(), op, FileSnapshot(stat, data), mode)
    {
      ghost var first := Now();
      hide OnlyEdited, Over, Justified, Acted, GapsQuiet, Placements, NoEdits;
      var e, moved, _ := WriteLocalFile(op, mode, Whole(data));
      if e != Written {
        Send(Outcome(op).(skipped := e == LocalChanged, err := true));
        OverAfterAction(first, Now(), op, moved, Last());
        return;
      }
      EchoDoesNotMatter(first, Now(), op, moved, {}, EchoFile(Raw(data)));
      echo := EchoFile(Raw(data));
      ghost var second := Now();
      SendFileResult(op, stat, Raw(data), moved, mode, |data|);
      ActedThenEdited(first, second, Now(), op, moved);
      PlacementsStay(first, second, Now(), op, moved);
      OverAfterAction(first, Now(), op, moved, Last());
    }

    // --- chunked downloads -----------------------------------------------

    /** A delta that went in put exactly the remote content there, size permitting; otherwise it was there. */
    twostate predicate DeltaTold(op: DownloadOp, remote: Bytes)
      reads this
    {
      results != [] ==> DeltaTells(old(Now()), Now(), op, Last(), remote)
    }

    /**
     A chunked download. A conflict, a missing local file or a baseline cut differently falls
     back to the whole file, with the chunk fields cleared.
     */
    method ProcessChunkedFile(op: DownloadOp, a: Answers, ghost remote: Bytes)
      requires Valid() && op.kind == DownloadFile && op.chunked && op.chunkSize > 0 && FetchContract(op, a)
      modifies this
      ensures Done(op) && DeltaTold(op, remote)
      ensures !Last().op.chunked ==> Last().op.chunkSize == 0 && ContentTold()
      ensures old(Calm()) && AllAnswer(a) ==> ChunkedEnds(Ends(), op, a, readonly, linkedDirectory)
    {
      ghost var first := Now();
      NothingHappened(first);
      hide OnlyEdited, Over, Faithful, MatchesStored, PlacedOrPresent, DeltaFor, GapsQuiet, Held, Placements, NoEdits, AsRecorded,
        DeltaEnds, FetchEnds;
      ghost var second := first;
      if !op.conflict {
        var ok, local := TakeSnapshot(op.storedEntry);
        second := Now();
        if Shows(local.info) {
          SnapshotTells(Path(), local, op);
        }
        if !ok {
          Answer(first, op, Outcome(op).(err := true));
          return;
        }
        if local.info.Some? && op.hasStored && op.storedEntry.chunkSize == op.chunkSize {
          if !MatchesStored(local, op.hasStored, op.storedEntry) {
            Answer(first, op, Outcome(op).(skipped := true));
            if old(Calm()) && AllAnswer(a) {
              DeltaIsSkipped(Ends(), op, a, readonly);
            }
            return;
          }
          FetchDelta(op, local, a, remote);
          DeltaToldAfterEdits(first, second, Now(), op, Last(), remote);
          return;
        }
      }
      ProcessFile(WithoutChunks(op), a);
      OverForOther(second, Now(), WithoutChunks(op), op, Last());
      ContentToldAfterEdits(first, second, Now(), op, Last());
    }

    /** The remote behind a delta is looked at first; if it is gone, so is the unchanged local file. */
    method FetchDelta(op: DownloadOp, local: Snapshot, a: Answers, ghost remote: Bytes)
      requires Valid() && !op.conflict && op.kind == DownloadFile && op.chunked && op.chunkSize > 0 && FetchContract(op, a)
      requires op.storedEntry.chunkSize == op.chunkSize && local.info.Some?
      requires Faithful(Path(), local, op.storedEntry) && MatchesStored(local, op.hasStored, op.storedEntry)
      modifies this
      ensures Done(op) && DeltaTold(op, remote) && Last().op == op.(kind := Last().op.kind)
      ensures old(Calm() && Shows(local.info)) && AllAnswer(a) ==> DeltaEnds(Ends(), op, a, readonly)
    {
      ghost var first := Now();
      if Shows(local.info) {
        SnapshotTells(Path(), local, op);
      }
      hide OnlyEdited, Over, Faithful, MatchesStored, DeltaFor, GapsQuiet, Held, Placements, NoEdits, PatchEnds, VanishedEnds, Delivered;
      Interleave();
      ghost var second := Now();
      FaithfulAfterEdits(first, second, local, op.storedEntry);
      if a.chunkStat.Failed? {
        Answer(first, op, Outcome(op).(err := true));
        return;
      }
      var cancelled := Cancelled(first, op);
      if cancelled {
        return;
      }
      if a.chunkStat.value.None? {
        DeltaSourceVanished(op, local);
        OverAfterEdits(first, second, Now(), op, Last());
      } else {
        FetchChunks(op, local, a, remote);
        DeltaToldAfterEdits(first, second, Now(), op, Last(), remote);
      }
    }

    method DeltaSourceVanished(op: DownloadOp, local: Snapshot)
      requires Valid() && op.kind == DownloadFile
      requires Faithful(Path(), local, op.storedEntry) && MatchesStored(local, op.hasStored, op.storedEntry)
      modifies this
      ensures Done(op) && Last().op == op.(kind := Last().op.kind)
      ensures Succeeded(Last()) ==> Last().op.kind == DownloadDelete
      ensures old(Calm() && Shows(local.info)) ==> VanishedEnds(Ends(), op)
    {
      ghost var first := Now();
      if Shows(local.info) {
        SnapshotTells(Path(), local, op);
      }
      hide OnlyEdited, Over, Faithful, MatchesStored, Justified, NoEdits, AsRecorded;
      var same := Unchanged(local);
      ghost var second := Now();
      if !same {
        Answer(first, op, Outcome(op).(skipped := true));
        return;
      }
      FaithfulAfterEdits(first, second, local, op.storedEntry);
      UnchangedMatchIsJustified(second.path, local, op);
      RemoveVanished(op);
      OverAfterEdits(first, second, Now(), op, Last());
    }

    /** Fetches the dirty chunks from a remote that kept one revision from its stat to the one after. */
    method FetchChunks(op: DownloadOp, local: Snapshot, a: Answers, ghost remote: Bytes)
      requires Valid() && !op.conflict && op.kind == DownloadFile && op.chunked && op.chunkSize > 0 && FetchContract(op, a)
      requires op.storedEntry.chunkSize == op.chunkSize && local.info.Some?
      requires Faithful(Path(), local, op.storedEntry) && MatchesStored(local, op.hasStored, op.storedEntry)
      modifies this
      ensures Done(op) && DeltaTold(op, remote) && Last().op == op
      ensures old(Calm() && Shows(local.info)) && AllAnswer(a) ==>
                if Delivered(op, a) then
                  PatchEnds(Ends(), op, TrustedStat(op, a).value, ModeFor(readonly, TrustedStat(op, a).value.mode), a.chunks.value)
                else SkippedEnds(Ends())
    {
      ghost var first := Now();
      NothingHappened(first);
      hide OnlyEdited, Over, Faithful, MatchesStored, DeltaFor, GapsQuiet, Held, Placements, NoEdits, PatchEnds, TrustedStat,
        ChunksVerified;
      var verdict, stat := CurrentStat(op, a);
      if verdict != Current || a.chunks.Failed? {
        Answer(first, op, Outcome(op).(skipped := verdict == Obsolete, err := verdict != Obsolete));
        return;
      }
      Interleave();
      ghost var second := Now();
      FaithfulAfterEdits(first, second, local, op.storedEntry);
      var cancelled := Cancelled(first, op);
      if cancelled {
        return;
      }
      if a.statAfter.Failed? || a.statAfter.value != Some(stat) {
        Answer(first, op, Outcome(op).(skipped := !a.statAfter.Failed?, err := a.statAfter.Failed?));
        return;
      }
      ApplyDelta(op, local, stat, a.chunks.value, remote);
      DeltaToldAfterEdits(first, second, Now(), op, Last(), remote);
    }

    /** The stat to trust: of a remote whose manifest, stored or derived, is the operation's. */
    method CurrentStat(op: DownloadOp, a: Answers) returns (verdict: Verdict, stat: RemoteStat)
      requires op.chunkSize > 0
      ensures verdict == Current ==> (a.freshStat.Answer? && a.freshStat.value == Some(stat)) ||
                                     (a.manifestSnapshot.Answer? && a.manifestSnapshot.value.Some? &&
                                      a.manifestSnapshot.value.value.stat == stat)
      ensures verdict == Current && a.chunkMeta.Answer? && a.chunkMeta.value.1 != op.chunkHashes ==>
                a.manifestSnapshot.Answer? && a.manifestSnapshot.value.Some? &&
                op.chunkHashes == ChunkHashes(a.manifestSnapshot.value.value.content, op.chunkSize)
      ensures AllAnswer(a) ==> verdict == (if TrustedStat(op, a).Some? then Current else Obsolete)
      ensures AllAnswer(a) && verdict == Current ==> TrustedStat(op, a) == Some(stat)
    {
      stat := RemoteStat(NoKind, 0, 0, 0, "", 0);
      if a.freshStat.Failed? {
        return Unreachable, stat;
      }
      if a.freshStat.value.None? {
        return Obsolete, stat;
      }
      stat := a.freshStat.value.value;
      if a.chunkMeta.Failed? {
        return Unreachable, stat;
      }
      if a.chunkMeta.value.0 != op.chunkSize || CompositeHash(a.chunkMeta.value.1) != CompositeHash(op.chunkHashes) {
        if a.manifestSnapshot.Failed? {
          return Unreachable, stat;
        }
        if a.manifestSnapshot.value.None? {
          return Obsolete, stat;
        }
        var hashes := UploadChunkHashes(a.manifestSnapshot.value.value.content, op.chunkSize);
        if CompositeHash(hashes) != CompositeHash(op.chunkHashes) {
          return Obsolete, stat;
        }
        stat := a.manifestSnapshot.value.value.stat;
      }
      verdict := Current;
    }

    method VerifyChunks(op: DownloadOp, chunks: map<nat, Bytes>) returns (b: bool)
      ensures b <==> ChunksVerified(op, chunks)
    {
      for k := 0 to |op.dirtyChunks|
        invariant forall j :: 0 <= j < k ==> ChunkVerified(op, chunks, op.dirtyChunks[j])
      {
        var idx := op.dirtyChunks[k];
        if idx >= |op.chunkHashes| || Raw(if idx in chunks then chunks[idx] else []) != op.chunkHashes[idx] {
          assert !ChunkVerified(op, chunks, op.dirtyChunks[k]);
          return false;
        }
      }
      return true;
    }

    /** Checks the local file and the fetched chunks, and patches unless there is nothing to change. */
    method ApplyDelta(op: DownloadOp, local: Snapshot, stat: RemoteStat, chunks: map<nat, Bytes>, ghost remote: Bytes)
      requires Valid() && !op.conflict && op.kind == DownloadFile && op.chunked && op.chunkSize > 0
      requires op.storedEntry.chunkSize == op.chunkSize && local.info.Some?
      requires Faithful(Path(), local, op.storedEntry) && MatchesStored(local, op.hasStored, op.storedEntry)
      requires forall i :: i in chunks ==> i in op.dirtyChunks && |chunks[i]| <= op.chunkSize
      modifies this
      ensures Done(op) && DeltaTold(op, remote) && Last().op == op
      ensures old(Calm() && Shows(local.info)) ==>
                if ChunksVerified(op, chunks) then PatchEnds(Ends(), op, stat, ModeFor(readonly, stat.mode), chunks)
                else SkippedEnds(Ends())
    {
      ghost var first := Now();
      if Shows(local.info) {
        SnapshotTellsManifest(Path(), local, op);
      }
      hide OnlyEdited, Over, Faithful, MatchesStored, DeltaFor, AtBaseline, ChunksVerified, GapsQuiet, Held, Placements, Justified,
        NoEdits, TellsFile, Patched, ChunkHashes, PatchEnds, Patches;
      ghost var calm := Calm() && Shows(local.info);
      var same := Unchanged(local);
      ghost var second := Now();
      if !same {
        Answer(first, op, Outcome(op).(skipped := true));
        return;
      }
      FaithfulAfterEdits(first, second, local, op.storedEntry);
      UnchangedMatchIsJustified(second.path, local, op);
      var verified := VerifyChunks(op, chunks);
      if !verified {
        Answer(first, op, Outcome(op).(skipped := true));
        return;
      }
      var mode := if readonly then READ_ONLY_MODE else stat.mode;
      if local.baselineHash == CompositeHash(op.chunkHashes) && local.info.value.size == op.fileSize &&
         local.info.value.perm == Perm(mode) {
        KeepChunkedFile(op, local, stat, mode, remote);
        if calm {
          DeltaStays(Ends(), op, stat, mode, chunks);
        }
      } else {
        WriteDelta(op, stat, mode, chunks, remote);
        if calm {
          DeltaIsPatched(Ends(), op, stat, mode, chunks);
        }
      }
      DeltaToldAfterEdits(first, second, Now(), op, Last(), remote);
    }

    /** The local file already has the remote manifest, so it is the remote file. */
    method KeepChunkedFile(op: DownloadOp, local: Snapshot, stat: RemoteStat, mode: nat, ghost remote: Bytes)
      requires Valid() && op.kind == DownloadFile && op.chunked && op.chunkSize > 0
      requires op.storedEntry.chunkSize == op.chunkSize && local.info.Some? && Shows(local.info)
      requires Faithful(Path(), local, op.storedEntry) && local.baselineHash == CompositeHash(op.chunkHashes)
      modifies this
      ensures Done(op) && DeltaTold(op, remote) && Last().op == op
      ensures old(Calm()) ==>
                Succeeded(Last()) && Unmoved(Ends()) && TellsFile(Ends(), op, CompositeHash(op.chunkHashes), stat, mode, op.fileSize)
    {
      ghost var first := Now();
      SameManifestSameFile(first.path, local, op, remote);
      hide Faithful, OnlyEdited, DeltaFor;
      SendFileResult(op, stat, CompositeHash(op.chunkHashes), false, mode, op.fileSize);
      if DeltaFor(op, remote) {
        PresentBeforeEdits(first, Now(), remote);
      }
      OverWithoutAction(first, Now(), op, Last());
      hide Held, Over;
    }

    method WriteDelta(op: DownloadOp, stat: RemoteStat, mode: nat, chunks: map<nat, Bytes>, ghost remote: Bytes)
      requires Valid() && !op.conflict && op.kind == DownloadFile && op.chunked && op.chunkSize > 0
      requires op.storedEntry.chunkSize == op.chunkSize
      requires node.Some? && AtBaseline(node.value, op.hasStored, op.storedEntry)
      requires ChunksVerified(op, chunks)
      requires forall i :: i in chunks ==> i in op.dirtyChunks && |chunks[i]| <= op.chunkSize
      modifies this
      ensures Done(op) && DeltaTold(op, remote) && Last().op == op
      ensures old(Calm()) ==> Patches(Ends(), op, stat, mode, chunks)
    {
      ghost var first := Now();
      hide OnlyEdited, Over, AtBaseline, ChunksVerified, DeltaFor, Acted, GapsQuiet, Placements, Held, NoEdits, Patched;
      var e, moved := PutDelta(op, mode, chunks, remote);
      if e != Written {
        Send(Outcome(op).(skipped := e == LocalChanged, err := true));
        OverAfterAction(first, Now(), op, moved, Last());
        return;
      }
      EchoDoesNotMatter(first, Now(), op, moved, {}, EchoFile(CompositeHash(op.chunkHashes)));
      echo := EchoFile(CompositeHash(op.chunkHashes));
      ghost var second := Now();
      SendFileResult(op, stat, CompositeHash(op.chunkHashes), moved, mode, op.fileSize);
      ActedThenEdited(first, second, Now(), op, moved);
      PlacementsStay(first, second, Now(), op, moved);
      OverAfterAction(first, Now(), op, moved, Last());
    }

    method PutDelta(op: DownloadOp, mode: nat, chunks: map<nat, Bytes>, ghost remote: Bytes)
      returns (e: WriteError, moved: bool)
      requires Valid() && !op.conflict && op.chunkSize > 0 && op.storedEntry.chunkSize == op.chunkSize
      requires node.Some? && AtBaseline(node.value, op.hasStored, op.storedEntry)
      requires ChunksVerified(op, chunks)
      requires forall i :: i in chunks ==> i in op.dirtyChunks && |chunks[i]| <= op.chunkSize
      modifies `node, `seen, `script, `gaps, `faults, `copies, `trace
      ensures Valid() && Acted(old(Now()), Now(), op, moved, {})
      ensures e == LocalChanged ==> Edited() && !moved
      ensures e == Written ==>
                exists n: Node ::
                  && Placements(New()) == [n] && n.info.kind == Regular
                  && (GapsQuiet(old(Path()), New()) && DeltaFor(op, remote) ==> (n.content == remote <==> op.fileSize == |remote|))
      ensures old(Calm()) ==>
                && Calm() && !moved && e == (if old(node).value.info.kind == Regular then Written else WriteFailed)
                && copies == old(copies) && (e != Written ==> Path() == old(Path()))
                && (e == Written ==> IsFile(node, Patched(old(node).value.content, chunks, op.chunkSize, op.fileSize), mode) && Sized(node))
    {
      ghost var base := node.value;
      if base.info.kind == Regular && DeltaFor(op, remote) {
        PatchedBaselineIsRemote(base, op, chunks, remote);
      }
      hide AtBaseline, ChunksVerified, DeltaFor, Patched, Acted, GapsQuiet, Placements, OnlyEdited, NoEdits;
      ghost var patched;
      e, moved, patched := WriteLocalFile(op, mode, Patch(chunks, op.chunkSize, op.fileSize));
      assert e == Written && GapsQuiet(old(Path()), New()) ==> patched == Some(base);
    }

    /** Gives the node another mode; for a link that is its target's, and the link stays as it is. */
    method ProcessChmod(op: DownloadOp)
      requires Valid() && op.kind == DownloadChmod
      modifies `node, `seen, `faults, `results, `trace
      ensures Done(op) && Last().op == op && !Last().skipped && Last().remoteStat.None?
      ensures Succeeded(Last()) ==> old(node).Some?
      ensures old(faults) == [] ==> ChmodEnds(Ends(), op)
      ensures Path() == if Succeeded(Last()) && old(node).value.info.kind != Symlink then WithMode(old(Path()), Perm(op.mode))
                        else old(Path())
    {
      ghost var first := Now();
      NothingHappened(first);
      EditedIsActed(first, first, op, {});
      hide OnlyEdited, Over;
      // Cancellation, or the call fails.
      var failed := Fails();
      if failed || node.None? {
        Answer(first, op, Outcome(op).(err := true));
        return;
      }
      if node.value.info.kind != Symlink {
        Chmod(Perm(op.mode));
        ActedOnce(first, first, Chmodded(Perm(op.mode)), Now(), op, {});
      }
      Send(Outcome(op).(mode := op.mode));
      OverAfterAction(first, Now(), op, false, Last());
    }

    /**
     One operation from the queue. For downloads no local edit is lost, in any interleaving:
     whenever a file or link leaves the path, the user replaced it, it is a conflict copy, or the
     baseline or a gap accounts for it. With nobody editing, a file off the baseline is still there
     or a conflict copy, and a copy that the answer tells of is the file that was there. A plain
     delete destroys what it finds.
     */
    method Process(op: DownloadOp, a: Answers, ghost remote: Bytes)
      requires Valid() && Processable(op) && FetchContract(op, a)
      modifies this
      ensures Valid() && Answered() && ResultConsistent(Last()) && Later(old(Now()), Now())
      ensures op.kind != DownloadDelete ==> Done(op) && NoEditLost(old(Now()), Now(), op)
      ensures op.kind != DownloadDelete && op.kind != DownloadChmod && Idle(old(Now())) && old(node).Some? &&
              IsData(old(node).value) && !AtBaseline(old(node).value, op.hasStored, op.storedEntry) ==>
                node == old(node) || old(node).value in copies
      ensures Last().movedAside && Idle(old(Now())) ==>
                op.conflict && old(node).Some? && copies == old(copies) + [old(node).value]
      ensures !op.conflict || op.kind == DownloadDelete ==> copies == old(copies)
      ensures op.kind == DownloadFile && op.chunked ==> DeltaTold(op, remote)
      ensures op.kind == DownloadFile && !Last().op.chunked ==> ContentTold()
      ensures op.kind == DownloadDelete ==> New() == [] || Deleted(New(), old(gaps))
      ensures op.kind == DownloadDelete && old(faults) == [] && old(gaps) == [] ==>
                (Harmless(old(Path()), New(), op, {}) <==> old(node.Some? ==> Justified(node.value, op, {})))
      ensures old(Calm()) && AllAnswer(a) ==> OperationEnds(Ends(), op, a, readonly, linkedDirectory)
    {
      ghost var first := Now();
      NothingHappened(first);
      hide NoEdits, FetchEnds, ChunkedEnds, LinkEnds, DirectoryEnds, DeleteEnds, ChmodEnds;
      hide OnlyEdited, Later, Over, DeltaFor, GapsQuiet, Held, Placements, PlacedOrPresent, Harmless, Deleted, AtBaseline, NoEditLost;
      var cancelled := Cancelled(first, op);
      if !cancelled {
        match op.kind
        case DownloadFile =>
          if op.chunked {
            ProcessChunkedFile(op, a, remote);
          } else {
            ProcessFile(op, a);
          }
        case DownloadSymlink => ProcessSymlink(op, a);
        case DownloadMkdir => ProcessMkdir(op);
        case DownloadDelete => ProcessDelete(op);
        case DownloadChmod => ProcessChmod(op);
      }
      if cancelled || op.kind != DownloadDelete {
        NoEditIsLost(first, Now(), op, Last());
        OverFacts(first, Now(), op, Last());
      }
    }
  }

  /**
   The gaps are real: any file or link that an edit brings in during the last gap is destroyed
   by the rename, even when there is no baseline it could be equal to.
   */
  method EditInTheLastGapIsLost(edited: Node, op: DownloadOp, staged: Node) returns (d: Downloader)
    requires IsData(edited) && !op.hasStored
    ensures fresh(d) && d.trace == [Played(true, [Put(edited)]), Placed(staged)] && d.node == Some(staged)
    ensures Replay(PathState(None, [], {}), d.trace[..1]).node == Some(edited)
    ensures edited !in d.copies && !AtBaseline(edited, op.hasStored, op.storedEntry)
  {
    var edits := [Put(edited)];
    d := new Downloader(false, 0, 0, false, None, [], [edits], []);
    assert edits[..0] == [] && edits[|edits| - 1] == Put(edited);
    assert Edits(None, {}, edits[..0]) == (None, {});
    assert Edits(None, {}, edits).0 == Some(edited);
    ghost var first := d.Now();
    var ok := d.Rename(op, staged, {});
    var one := [Played(true, edits)];
    assert d.trace == one + [Placed(staged)] && d.trace[..1] == one;
    assert one[..0] == [] && Replay(PathState(None, [], {}), one) == After(PathState(None, [], {}), one[0]);
  }
}
