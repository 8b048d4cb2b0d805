/**
 The history of a path during downloads: a trace of everything that happened to it, and what an
 operation may add to the trace without losing an edit.

 Local edits come in batches, which the disk plays between any two steps of the downloader. Three
 stretches of the code cannot notice an edit: from the last check to the second stat of the
 writer, from the final check to the removal or rename, and from moving a conflict copy aside
 to the rename. Edits there come from batches of their own, so that what they cost is stated.
 */
module DownloadHistory {
  import opened ByteStrings
  import opened Digests
  import opened SyncTypes
  import opened ChunkDelta
  import opened Downloads

  // ------------------------------------------------------------------
  // Traces
  // ------------------------------------------------------------------

  /** The path: its node, its conflict copies, and every identity it has shown. */
  datatype PathState = PathState(node: Option<Node>, copies: seq<Node>, seen: set<FileInfo>)

  /** A batch of edits, in a gap or not, or something the downloader did. */
  datatype Event =
    | Played(gap: bool, edits: seq<Edit>)
    | Placed(staged: Node)
    | MovedAside
    | Removed
    | Made(directory: Node)
    | Chmodded(perm: nat)

  function After(s: PathState, e: Event): PathState {
    match e
    case Played(_, edits) => var (node, seen) := Edits(s.node, s.seen, edits); PathState(node, s.copies, seen)
    case Placed(staged) => PathState(Some(staged), s.copies, s.seen + {staged.info})
    case MovedAside => if s.node.Some? then PathState(None, s.copies + [s.node.value], s.seen) else s
    case Removed => s.(node := None)
    case Made(directory) => PathState(Some(directory), s.copies, s.seen + {directory.info})
    case Chmodded(perm) => if s.node.Some? then WithMode(s, perm) else s
  }

  function WithMode(s: PathState, perm: nat): PathState
    requires s.node.Some?
  {
    var after := s.node.value.(info := s.node.value.info.(perm := perm));
    PathState(Some(after), s.copies, s.seen + {after.info})
  }

  /** What a trace makes of a path. */
  function Replay(s: PathState, events: seq<Event>): PathState {
    if events == [] then s else After(Replay(s, events[..|events| - 1]), events[|events| - 1])
  }

  /** The batches of edits in a trace, those in gaps or the others. */
  function Batches(events: seq<Event>, gap: bool): seq<seq<Edit>> {
    if events == [] then []
    else
      var before, last := Batches(events[..|events| - 1], gap), events[|events| - 1];
      if last.Played? && last.gap == gap then before + [last.edits] else before
  }

  /** The nodes that edits brought. */
  ghost function Brought(events: seq<Event>): set<Node> {
    if events == [] then {}
    else
      var last := events[|events| - 1];
      Brought(events[..|events| - 1]) + if last.Played? then set e | e in last.edits && e.Put? :: e.node else {}
  }

  /** The nodes that edits in a gap left at the path. */
  function GapNodes(s: PathState, events: seq<Event>): set<Node> {
    if events == [] then {}
    else
      var front, last := events[..|events| - 1], events[|events| - 1];
      var was, now := Replay(s, front).node, Replay(s, events).node;
      GapNodes(s, front) + if last.Played? && last.gap && now.Some? && now != was then {now.value} else {}
  }

  /** No edit in a gap changed the path. */
  predicate GapsQuiet(s: PathState, events: seq<Event>) {
    events == [] ||
    var front, last := events[..|events| - 1], events[|events| - 1];
    GapsQuiet(s, front) && (last.Played? && last.gap ==> Replay(s, events).node == Replay(s, front).node)
  }

  /** The nodes that the downloader put at the path, in order. */
  function Placements(events: seq<Event>): seq<Node> {
    if events == [] then []
    else
      var before, last := Placements(events[..|events| - 1]), events[|events| - 1];
      if last.Placed? then before + [last.staged] else before
  }

  predicate OnlyEdits(events: seq<Event>) {
    forall i :: 0 <= i < |events| ==> events[i].Played?
  }

  /** At some moment, first and last included, the path was a file with this content. */
  predicate Held(s: PathState, events: seq<Event>, content: Bytes) {
    IsFileWith(Replay(s, events).node, content) || (events != [] && Held(s, events[..|events| - 1], content))
  }

  predicate IsFileWith(n: Option<Node>, content: Bytes) {
    n.Some? && n.value.info.kind == Regular && n.value.content == content
  }

  // ------------------------------------------------------------------
  // Harmless traces
  // ------------------------------------------------------------------

  /** Losing the node is no loss of an edit: it is at the baseline, or one of those excused. */
  ghost predicate Justified(n: Node, op: DownloadOp, excused: set<Node>) {
    IsData(n) ==> n in excused || AtBaseline(n, op.hasStored, op.storedEntry)
  }

  /** The downloader may do this where the path is `s`, nodes that a gap brought being excused. */
  ghost predicate Allowed(s: PathState, e: Event, op: DownloadOp, excused: set<Node>) {
    match e
    case Played(_, _) => true
    case Placed(_) => s.node.Some? ==> Justified(s.node.value, op, excused)
    case Removed => s.node.Some? ==> Justified(s.node.value, op, excused)
    case MovedAside => op.conflict
    case Made(_) => s.node.None?
    case Chmodded(_) => op.kind == DownloadChmod
  }

  ghost predicate Harmless(s: PathState, events: seq<Event>, op: DownloadOp, excused: set<Node>) {
    events == [] ||
    var front, last := events[..|events| - 1], events[|events| - 1];
    Harmless(s, front, op, excused) && Allowed(Replay(s, front), last, op, excused + GapNodes(s, front))
  }

  // One trace after another.

  lemma {:induction false} ReplayConcat(s: PathState, a: seq<Event>, b: seq<Event>)
    ensures Replay(s, a + b) == Replay(Replay(s, a), b)
  {
    if b == [] {
      assert a + b == a;
    } else {
      assert (a + b)[..|a + b| - 1] == a + b[..|b| - 1];
      ReplayConcat(s, a, b[..|b| - 1]);
    }
  }

  lemma {:induction false} BatchesConcat(a: seq<Event>, b: seq<Event>, gap: bool)
    ensures Batches(a + b, gap) == Batches(a, gap) + Batches(b, gap)
  {
    if b == [] {
      assert a + b == a;
    } else {
      assert (a + b)[..|a + b| - 1] == a + b[..|b| - 1];
      BatchesConcat(a, b[..|b| - 1], gap);
    }
  }

  lemma {:induction false} BroughtConcat(a: seq<Event>, b: seq<Event>)
    ensures Brought(a + b) == Brought(a) + Brought(b)
  {
    if b == [] {
      assert a + b == a;
    } else {
      assert (a + b)[..|a + b| - 1] == a + b[..|b| - 1];
      BroughtConcat(a, b[..|b| - 1]);
    }
  }

  lemma {:induction false} GapsConcat(s: PathState, a: seq<Event>, b: seq<Event>)
    ensures GapNodes(s, a + b) == GapNodes(s, a) + GapNodes(Replay(s, a), b)
    ensures GapsQuiet(s, a + b) <==> GapsQuiet(s, a) && GapsQuiet(Replay(s, a), b)
  {
    hide After;
    if b == [] {
      assert a + b == a;
    } else {
      var front := b[..|b| - 1];
      assert (a + b)[..|a + b| - 1] == a + front && (a + b)[|a + b| - 1] == b[|b| - 1];
      GapsConcat(s, a, front);
      ReplayConcat(s, a, b);
      ReplayConcat(s, a, front);
    }
  }

  lemma {:induction false} PlacementsConcat(a: seq<Event>, b: seq<Event>)
    ensures Placements(a + b) == Placements(a) + Placements(b)
  {
    if b == [] {
      assert a + b == a;
    } else {
      assert (a + b)[..|a + b| - 1] == a + b[..|b| - 1];
      PlacementsConcat(a, b[..|b| - 1]);
    }
  }

  lemma {:induction false} HeldConcat(s: PathState, a: seq<Event>, b: seq<Event>, content: Bytes)
    ensures Held(s, a + b, content) <==> Held(s, a, content) || Held(Replay(s, a), b, content)
  {
    hide After, IsFileWith;
    ReplayConcat(s, a, b);
    if b == [] {
      assert a + b == a;
    } else {
      assert (a + b)[..|a + b| - 1] == a + b[..|b| - 1];
      HeldConcat(s, a, b[..|b| - 1], content);
    }
  }

  lemma {:induction false} HarmlessConcat(s: PathState, a: seq<Event>, b: seq<Event>, op: DownloadOp, excused: set<Node>)
    ensures Harmless(s, a + b, op, excused) <==>
            Harmless(s, a, op, excused) && Harmless(Replay(s, a), b, op, excused + GapNodes(s, a))
  {
    hide After, Allowed;
    if b == [] {
      assert a + b == a;
    } else {
      var front := b[..|b| - 1];
      assert (a + b)[..|a + b| - 1] == a + front && (a + b)[|a + b| - 1] == b[|b| - 1];
      HarmlessConcat(s, a, front, op, excused);
      ReplayConcat(s, a, front);
      GapsConcat(s, a, front);
      assert excused + GapNodes(s, a + front) == (excused + GapNodes(s, a)) + GapNodes(Replay(s, a), front);
    }
  }

  lemma {:induction false} MoreExcused(s: PathState, events: seq<Event>, op: DownloadOp, few: set<Node>, many: set<Node>)
    requires few <= many && Harmless(s, events, op, few)
    ensures Harmless(s, events, op, many)
  {
    hide After, AtBaseline;
    if events != [] {
      MoreExcused(s, events[..|events| - 1], op, few, many);
    }
  }

  lemma {:induction false} EditsAreHarmless(s: PathState, events: seq<Event>, op: DownloadOp, excused: set<Node>)
    requires OnlyEdits(events)
    ensures Harmless(s, events, op, excused)
  {
    if events != [] {
      EditsAreHarmless(s, events[..|events| - 1], op, excused);
    }
  }

  lemma {:induction false} EditsPlaceNothing(events: seq<Event>)
    requires OnlyEdits(events)
    ensures Placements(events) == []
  {
    if events != [] {
      EditsPlaceNothing(events[..|events| - 1]);
    }
  }

  // What edits can do.

  /** The path shows only what it has recorded as seen. */
  predicate Sane(s: PathState) {
    s.node.Some? ==> s.node.value.info in s.seen
  }

  lemma {:induction false} EditsBring(node: Option<Node>, seen: set<FileInfo>, edits: seq<Edit>)
    ensures var (n, more) := Edits(node, seen, edits);
            && seen <= more
            && (n == node || n.None? || (n.value.info !in seen && n.value.info in more && Put(n.value) in edits))
  {
    if edits != [] {
      EditsBring(node, seen, edits[..|edits| - 1]);
    }
  }

  lemma {:induction false} ReplayIsSane(s: PathState, events: seq<Event>)
    requires Sane(s)
    ensures Sane(Replay(s, events)) && s.seen <= Replay(s, events).seen
    ensures s.copies <= Replay(s, events).copies
  {
    if events != [] {
      var front, last := events[..|events| - 1], events[|events| - 1];
      ReplayIsSane(s, front);
      var t := Replay(s, front);
      if last.Played? {
        EditsBring(t.node, t.seen, last.edits);
      }
    }
  }

  /** After edits the node is as it was, gone, or one that an edit brought with a new identity. */
  lemma {:induction false} NodeAfterEdits(s: PathState, events: seq<Event>)
    requires Sane(s) && OnlyEdits(events)
    ensures var t := Replay(s, events);
            && t.copies == s.copies
            && (t.node == s.node || t.node.None? || (t.node.value in Brought(events) && t.node.value.info !in s.seen))
  {
    if events != [] {
      var front, last := events[..|events| - 1], events[|events| - 1];
      NodeAfterEdits(s, front);
      ReplayIsSane(s, front);
      var t := Replay(s, front);
      EditsBring(t.node, t.seen, last.edits);
    }
  }

  // ------------------------------------------------------------------
  // Moments
  // ------------------------------------------------------------------

  /** The path at one moment, the edits still to come, the expected echo, and the trace so far. */
  datatype Moment = Moment(path: PathState, script: seq<seq<Edit>>, gaps: seq<seq<Edit>>, echo: Echo, trace: seq<Event>)

  /** What happened from one moment to a later one. */
  function Since(a: Moment, b: Moment): seq<Event> {
    if a.trace <= b.trace then b.trace[|a.trace|..] else []
  }

  /** The trace tells all: replayed it gives the path, and its edits are exactly the batches used up. */
  ghost predicate Later(a: Moment, b: Moment) {
    && a.trace <= b.trace
    && b.path == Replay(a.path, Since(a, b))
    && a.script == Batches(Since(a, b), false) + b.script
    && a.gaps == Batches(Since(a, b), true) + b.gaps
  }

  /** Only the user acted. */
  ghost predicate OnlyEdited(a: Moment, b: Moment) {
    Later(a, b) && OnlyEdits(Since(a, b)) && b.echo == a.echo
  }

  /** The node was at the path at first, or an edit brought it since. */
  ghost predicate FromPath(a: Moment, b: Moment, n: Node) {
    a.path.node == Some(n) || n in Brought(Since(a, b))
  }

  /** The node is as it was, gone, or one that an edit in a gap left there since. */
  ghost predicate EntryOrGap(a: Moment, b: Moment) {
    b.path.node == a.path.node || b.path.node.None? || b.path.node.value in GapNodes(a.path, Since(a, b))
  }

  /** The conflict copies as an answer tells them: one more, of a node from the path, or none. */
  ghost predicate CopiesTell(a: Moment, b: Moment, moved: bool) {
    if moved then exists n :: b.path.copies == a.path.copies + [n] && FromPath(a, b, n) else b.path.copies == a.path.copies
  }

  /** What the downloader did for an operation without losing an edit, some nodes being excused. */
  ghost predicate Acted(a: Moment, b: Moment, op: DownloadOp, moved: bool, excused: set<Node>) {
    && Later(a, b) && Harmless(a.path, Since(a, b), op, excused)
    && CopiesTell(a, b, moved) && (moved ==> op.conflict)
  }

  /**
   One operation is over: no edit lost, nothing done when it was skipped, and the conflict copies
   are as the answer says. A failed answer may leave a copy behind, but tells of none.
   */
  ghost predicate Over(a: Moment, b: Moment, op: DownloadOp, r: DownloadResult) {
    && (Acted(a, b, op, false, {}) || Acted(a, b, op, true, {}))
    && (r.movedAside ==> Succeeded(r)) && (Succeeded(r) ==> Acted(a, b, op, r.movedAside, {}))
    && ResultConsistent(r) && (r.skipped ==> OnlyEdited(a, b))
  }

  /** The node was there before event `i`, and not after it. */
  ghost predicate LeavesAt(s: PathState, events: seq<Event>, i: nat, n: Node)
    requires i < |events|
  {
    Replay(s, events[..i]).node == Some(n) && Replay(s, events[..i + 1]).node != Some(n)
  }

  /**
   No edit is lost: whenever a file or link leaves the path, the user replaced it, or it is a
   conflict copy, or only its mode changed, or it was at the baseline or came in a gap.
   */
  ghost predicate NoEditLost(a: Moment, b: Moment, op: DownloadOp) {
    forall i, n :: 0 <= i < |Since(a, b)| && IsData(n) && LeavesAt(a.path, Since(a, b), i, n) ==>
      || Since(a, b)[i].Played? || Since(a, b)[i].Chmodded? || n in b.path.copies
      || Justified(n, op, GapNodes(a.path, Since(a, b)))
  }

  lemma SinceSplits(a: Moment, b: Moment, c: Moment)
    requires a.trace <= b.trace <= c.trace
    ensures Since(a, c) == Since(a, b) + Since(b, c)
  {
  }

  lemma LaterIsTransitive(a: Moment, b: Moment, c: Moment)
    requires Later(a, b) && Later(b, c)
    ensures Later(a, c) && Since(a, c) == Since(a, b) + Since(b, c)
  {
    SinceSplits(a, b, c);
    ReplayConcat(a.path, Since(a, b), Since(b, c));
    BatchesConcat(Since(a, b), Since(b, c), false);
    BatchesConcat(Since(a, b), Since(b, c), true);
    Regroup(Batches(Since(a, b), false), Batches(Since(b, c), false), c.script);
    Regroup(Batches(Since(a, b), true), Batches(Since(b, c), true), c.gaps);
    hide Replay, Batches, Since;
  }

  lemma Regroup(a: seq<seq<Edit>>, b: seq<seq<Edit>>, c: seq<seq<Edit>>)
    ensures a + (b + c) == (a + b) + c
  {
  }

  lemma NothingHappened(m: Moment)
    ensures Later(m, m) && Since(m, m) == [] && OnlyEdited(m, m) && EntryOrGap(m, m) && CopiesTell(m, m, false)
    ensures forall op, excused :: Harmless(m.path, Since(m, m), op, excused)
  {
  }

  lemma OneEvent(a: Moment, e: Event, b: Moment)
    requires b.trace == a.trace + [e] && b.path == After(a.path, e)
    requires a.script == (if e.Played? && !e.gap then [e.edits] else []) + b.script
    requires a.gaps == (if e.Played? && e.gap then [e.edits] else []) + b.gaps
    ensures Later(a, b) && Since(a, b) == [e]
  {
    var events := Since(a, b);
    assert events == [e] && events[..0] == [];
    assert Replay(a.path, events) == After(Replay(a.path, events[..0]), e);
  }

  lemma EditedTwice(a: Moment, b: Moment, c: Moment)
    requires OnlyEdited(a, b) && OnlyEdited(b, c)
    ensures OnlyEdited(a, c) && Since(a, c) == Since(a, b) + Since(b, c)
  {
    LaterIsTransitive(a, b, c);
    hide Later;
  }

  /** What only edits can have done. */
  lemma EditedFacts(a: Moment, b: Moment)
    requires Sane(a.path) && OnlyEdited(a, b)
    ensures Sane(b.path) && a.path.seen <= b.path.seen && b.path.copies == a.path.copies && CopiesTell(a, b, false)
    ensures b.path.node == a.path.node || b.path.node.None? ||
            (FromPath(a, b, b.path.node.value) && b.path.node.value.info !in a.path.seen)
  {
    NodeAfterEdits(a.path, Since(a, b));
    ReplayIsSane(a.path, Since(a, b));
  }

  /** An identity that is shown again was never given up: the node is the same, and was all along. */
  lemma SameIdentitySameNode(a: Moment, b: Moment, c: Moment)
    requires Sane(a.path) && OnlyEdited(a, b) && OnlyEdited(b, c)
    requires match a.path.node { case None => c.path.node.None? case Some(n) => c.path.node.Some? && c.path.node.value.info == n.info }
    ensures c.path.node == a.path.node && (a.path.node.Some? ==> b.path.node == a.path.node)
  {
    EditedFacts(a, b);
    EditedFacts(b, c);
    hide OnlyEdited;
  }

  lemma GapThenSame(a: Moment, b: Moment, c: Moment)
    requires OnlyEdited(a, b) && EntryOrGap(a, b) && OnlyEdited(b, c) && c.path.node == b.path.node
    ensures EntryOrGap(a, c)
  {
    LaterIsTransitive(a, b, c);
    GapsConcat(a.path, Since(a, b), Since(b, c));
    hide Later, GapNodes;
  }

  lemma CopiesTellAfterEdits(a: Moment, b: Moment, c: Moment, moved: bool)
    requires Sane(a.path) && OnlyEdited(a, b) && Later(b, c) && CopiesTell(b, c, moved)
    ensures CopiesTell(a, c, moved)
  {
    SinceSplits(a, b, c);
    EditedFacts(a, b);
    BroughtConcat(Since(a, b), Since(b, c));
    hide Brought, Replay, Batches;
    if moved {
      var n :| c.path.copies == b.path.copies + [n] && FromPath(b, c, n);
      assert FromPath(a, c, n);
    }
  }

  lemma CopiesTellThenEdited(a: Moment, b: Moment, c: Moment, moved: bool)
    requires Sane(b.path) && Later(a, b) && CopiesTell(a, b, moved) && OnlyEdited(b, c)
    ensures CopiesTell(a, c, moved)
  {
    SinceSplits(a, b, c);
    EditedFacts(b, c);
    BroughtConcat(Since(a, b), Since(b, c));
    hide Brought, Replay, Batches;
    if moved {
      var n :| b.path.copies == a.path.copies + [n] && FromPath(a, b, n);
      assert FromPath(a, c, n);
    }
  }

  /** What a gap left before the action may be excused in it. */
  lemma ActedAfterEdits(a: Moment, b: Moment, c: Moment, op: DownloadOp, moved: bool, excused: set<Node>)
    requires Sane(a.path) && OnlyEdited(a, b) && Acted(b, c, op, moved, excused)
    requires excused <= GapNodes(a.path, Since(a, b))
    ensures Acted(a, c, op, moved, {}) && Since(a, c) == Since(a, b) + Since(b, c)
  {
    LaterIsTransitive(a, b, c);
    CopiesTellAfterEdits(a, b, c, moved);
    EditsAreHarmless(a.path, Since(a, b), op, {});
    MoreExcused(b.path, Since(b, c), op, excused, {} + GapNodes(a.path, Since(a, b)));
    HarmlessConcat(a.path, Since(a, b), Since(b, c), op, {});
    assert b.path == Replay(a.path, Since(a, b));
    hide Later, Harmless, CopiesTell, GapNodes;
  }

  lemma ActedThenEdited(a: Moment, b: Moment, c: Moment, op: DownloadOp, moved: bool)
    requires Sane(b.path) && Acted(a, b, op, moved, {}) && OnlyEdited(b, c)
    ensures Acted(a, c, op, moved, {}) && Since(a, c) == Since(a, b) + Since(b, c)
  {
    LaterIsTransitive(a, b, c);
    CopiesTellThenEdited(a, b, c, moved);
    EditsAreHarmless(b.path, Since(b, c), op, {} + GapNodes(a.path, Since(a, b)));
    HarmlessConcat(a.path, Since(a, b), Since(b, c), op, {});
    assert b.path == Replay(a.path, Since(a, b));
    hide Later, Harmless, CopiesTell, GapNodes;
  }

  /** One action after another, of which neither made a copy, or only the last or only the first did. */
  lemma ActedTwice(a: Moment, b: Moment, c: Moment, op: DownloadOp, first: bool, second: bool, excused: set<Node>, later: set<Node>)
    requires Acted(a, b, op, first, excused) && Acted(b, c, op, second, later) && !(first && second)
    requires later <= excused + GapNodes(a.path, Since(a, b))
    requires second ==> b.path.node == a.path.node || b.path.node.None?
    ensures Acted(a, c, op, first || second, excused) && Since(a, c) == Since(a, b) + Since(b, c)
  {
    LaterIsTransitive(a, b, c);
    MoreExcused(b.path, Since(b, c), op, later, excused + GapNodes(a.path, Since(a, b)));
    HarmlessConcat(a.path, Since(a, b), Since(b, c), op, excused);
    assert b.path == Replay(a.path, Since(a, b));
    BroughtConcat(Since(a, b), Since(b, c));
    hide Later, Harmless, GapNodes, Brought, Replay;
    if second {
      var n :| c.path.copies == b.path.copies + [n] && FromPath(b, c, n);
      assert FromPath(a, c, n);
    } else if first {
      var n :| b.path.copies == a.path.copies + [n] && FromPath(a, b, n);
      assert FromPath(a, c, n);
    }
  }

  lemma EditedIsActed(a: Moment, b: Moment, op: DownloadOp, excused: set<Node>)
    requires Sane(a.path) && OnlyEdited(a, b)
    ensures Acted(a, b, op, false, excused)
  {
    EditedFacts(a, b);
    EditsAreHarmless(a.path, Since(a, b), op, excused);
  }

  lemma OverAfterEdits(a: Moment, b: Moment, c: Moment, op: DownloadOp, r: DownloadResult)
    requires Sane(a.path) && OnlyEdited(a, b) && Over(b, c, op, r)
    ensures Over(a, c, op, r) && Since(a, c) == Since(a, b) + Since(b, c)
  {
    if moved: bool :| Acted(b, c, op, moved, {}) {
      ActedAfterEdits(a, b, c, op, moved, {});
    }
    if Succeeded(r) {
      ActedAfterEdits(a, b, c, op, r.movedAside, {});
    }
    if r.skipped {
      EditedTwice(a, b, c);
    }
    hide Acted, OnlyEdited;
  }

  /** An answer that tells of no copy, after nothing but edits. */
  lemma OverWithoutAction(a: Moment, b: Moment, op: DownloadOp, r: DownloadResult)
    requires Sane(a.path) && OnlyEdited(a, b) && !r.movedAside && ResultConsistent(r)
    ensures Over(a, b, op, r)
  {
    EditedIsActed(a, b, op, {});
    hide Acted;
  }

  /** An answer after the path was changed: true, if it is positive. */
  lemma OverAfterAction(a: Moment, b: Moment, op: DownloadOp, moved: bool, r: DownloadResult)
    requires Acted(a, b, op, moved, {}) && ResultConsistent(r) && (r.skipped ==> OnlyEdited(a, b))
    requires if Succeeded(r) then r.movedAside == moved else !r.movedAside
    ensures Over(a, b, op, r)
  {
    hide Acted;
  }

  /** Two operations that differ in nothing the history depends on. */
  predicate SameRecord(op: DownloadOp, other: DownloadOp) {
    && op.conflict == other.conflict && op.hasStored == other.hasStored && op.storedEntry == other.storedEntry
    && op.kind != DownloadChmod
  }

  lemma {:induction false} HarmlessForOther(s: PathState, events: seq<Event>, op: DownloadOp, other: DownloadOp, excused: set<Node>)
    requires SameRecord(op, other) && Harmless(s, events, op, excused)
    ensures Harmless(s, events, other, excused)
  {
    hide AtBaseline, After;
    if events != [] {
      HarmlessForOther(s, events[..|events| - 1], op, other, excused);
    }
  }

  lemma OverForOther(a: Moment, b: Moment, op: DownloadOp, other: DownloadOp, r: DownloadResult)
    requires Over(a, b, op, r) && SameRecord(op, other)
    ensures Over(a, b, other, r)
  {
    HarmlessForOther(a.path, Since(a, b), op, other, {});
    hide Harmless, CopiesTell, ResultConsistent, OnlyEdited;
  }

  lemma EchoDoesNotMatter(a: Moment, b: Moment, op: DownloadOp, moved: bool, excused: set<Node>, echo: Echo)
    requires Acted(a, b, op, moved, excused)
    ensures Acted(a, b.(echo := echo), op, moved, excused) && Since(a, b.(echo := echo)) == Since(a, b)
  {
    var c := b.(echo := echo);
    assert Since(a, c) == Since(a, b);
    hide Harmless;
    if moved {
      var n :| b.path.copies == a.path.copies + [n] && FromPath(a, b, n);
      assert FromPath(a, c, n);
    }
  }

  lemma ActedMore(a: Moment, b: Moment, op: DownloadOp, moved: bool, few: set<Node>, many: set<Node>)
    requires Acted(a, b, op, moved, few) && few <= many
    ensures Acted(a, b, op, moved, many)
  {
    MoreExcused(a.path, Since(a, b), op, few, many);
  }

  /** A node that the entry justified, or that a gap brought, is justified with the gap's nodes excused. */
  lemma EntryIsJustified(a: Moment, b: Moment, op: DownloadOp, excused: set<Node>)
    requires EntryOrGap(a, b) && (a.path.node.Some? ==> op.conflict || Justified(a.path.node.value, op, excused))
    ensures b.path.node.Some? ==> op.conflict || Justified(b.path.node.value, op, excused + GapNodes(a.path, Since(a, b)))
  {
    hide AtBaseline;
  }

  // ------------------------------------------------------------------
  // Steps of the downloader
  // ------------------------------------------------------------------

  /** The next batch of a gap, if there is one. */
  function GapEvents(gaps: seq<seq<Edit>>): seq<Event> {
    if gaps == [] then [] else [Played(true, gaps[0])]
  }

  /** What a step adds to the trace if it is taken right after a gap. */
  function AfterGapEvent(gaps: seq<seq<Edit>>, taken: bool, e: Event): seq<Event> {
    if taken then GapEvents(gaps) + [e] else GapEvents(gaps)
  }

  lemma GapIsEntryOrGap(a: Moment, b: Moment)
    requires Later(a, b) && Since(a, b) == GapEvents(a.gaps)
    ensures EntryOrGap(a, b)
    ensures GapsQuiet(a.path, Since(a, b)) ==> b.path.node == a.path.node
  {
    var events := Since(a, b);
    if events != [] {
      assert events[..0] == [];
    }
  }

  /** One step of the downloader after a gap. */
  lemma ActedOnce(a: Moment, b: Moment, e: Event, c: Moment, op: DownloadOp, excused: set<Node>)
    requires Sane(a.path) && OnlyEdited(a, b) && EntryOrGap(a, b) && !e.Played?
    requires c.trace == b.trace + [e] && c.path == After(b.path, e) && c.script == b.script && c.gaps == b.gaps
    requires Allowed(b.path, e, op, excused + GapNodes(a.path, Since(a, b))) && (e.MovedAside? ==> b.path.node.Some?)
    ensures Acted(a, c, op, e.MovedAside?, excused) && Since(a, c) == Since(a, b) + [e]
    ensures Placements(Since(a, c)) == if e.Placed? then [e.staged] else []
  {
    OneEvent(b, e, c);
    LaterIsTransitive(a, b, c);
    EditedFacts(a, b);
    EditsAreHarmless(a.path, Since(a, b), op, excused);
    EditsPlaceNothing(Since(a, b));
    var events := Since(a, c);
    assert events[..|events| - 1] == Since(a, b) && events[|events| - 1] == e;
    BroughtConcat(Since(a, b), [e]);
    hide Allowed, Brought, GapNodes;
    if e.MovedAside? {
      assert FromPath(a, c, b.path.node.value);
    }
  }

  /** The path held this content: it was put there as a file, or found there and left alone. */
  ghost predicate PlacedOrPresent(a: Moment, b: Moment, content: Bytes) {
    || (exists n: Node :: Placements(Since(a, b)) == [n] && n.info.kind == Regular && n.content == content)
    || (OnlyEdits(Since(a, b)) && Held(a.path, Since(a, b), content))
  }

  lemma PlacedOrPresentAfterEdits(a: Moment, b: Moment, c: Moment, content: Bytes)
    requires OnlyEdited(a, b) && Later(b, c) && PlacedOrPresent(b, c, content)
    ensures PlacedOrPresent(a, c, content)
  {
    LaterIsTransitive(a, b, c);
    EditsPlaceNothing(Since(a, b));
    PlacementsConcat(Since(a, b), Since(b, c));
    HeldConcat(a.path, Since(a, b), Since(b, c), content);
    hide Held, Replay, Batches, Placements;
  }

  /** A delta that went in put the remote content there, size permitting; one that found nothing to do found it there. */
  ghost predicate DeltaTells(a: Moment, b: Moment, op: DownloadOp, r: DownloadResult, remote: Bytes) {
    Succeeded(r) && r.op.chunked && r.op.kind == DownloadFile && DeltaFor(op, remote) && GapsQuiet(a.path, Since(a, b)) ==>
      || (exists n: Node :: Placements(Since(a, b)) == [n] && n.info.kind == Regular &&
                            (n.content == remote <==> op.fileSize == |remote|))
      || (OnlyEdits(Since(a, b)) && Held(a.path, Since(a, b), remote))
  }

  lemma DeltaTellsAfterEdits(a: Moment, b: Moment, c: Moment, op: DownloadOp, r: DownloadResult, remote: Bytes)
    requires OnlyEdited(a, b) && Later(b, c) && DeltaTells(b, c, op, r, remote)
    ensures DeltaTells(a, c, op, r, remote)
  {
    LaterIsTransitive(a, b, c);
    EditsPlaceNothing(Since(a, b));
    PlacementsConcat(Since(a, b), Since(b, c));
    HeldConcat(a.path, Since(a, b), Since(b, c), remote);
    GapsConcat(a.path, Since(a, b), Since(b, c));
    hide Held, Replay, Batches, Placements, GapsQuiet, DeltaFor;
  }

  lemma EditedIsLater(a: Moment, b: Moment)
    requires OnlyEdited(a, b)
    ensures Later(a, b) && b.path == Replay(a.path, Since(a, b))
  {
  }

  lemma EditedPlacesNothing(a: Moment, b: Moment)
    requires OnlyEdited(a, b)
    ensures Placements(Since(a, b)) == []
  {
    EditsPlaceNothing(Since(a, b));
  }

  lemma GapEventsPlaceNothing(gaps: seq<seq<Edit>>, moved: bool)
    ensures Placements(AfterGapEvent(gaps, moved, MovedAside)) == []
  {
    PlacementsConcat(GapEvents(gaps), [MovedAside]);
    EditsPlaceNothing(GapEvents(gaps));
  }

  lemma RenamePlaces(gaps: seq<seq<Edit>>, staged: Node, ok: bool)
    ensures Placements(AfterGapEvent(gaps, ok, Placed(staged))) == if ok then [staged] else []
  {
    PlacementsConcat(GapEvents(gaps), [Placed(staged)]);
    EditsPlaceNothing(GapEvents(gaps));
  }

  /** What a gap left is justified there, if what was there before it was. */
  lemma GapNodeIsJustified(a: Moment, b: Moment, op: DownloadOp, excused: set<Node>)
    requires EntryOrGap(a, b) && (a.path.node.Some? ==> Justified(a.path.node.value, op, excused))
    ensures b.path.node.Some? ==> Justified(b.path.node.value, op, excused + GapNodes(a.path, Since(a, b)))
  {
    hide AtBaseline;
  }

  /** Edits after a placement change neither what was placed, nor whether the gaps were quiet. */
  lemma PlacementsStay(a: Moment, b: Moment, c: Moment, op: DownloadOp, moved: bool)
    requires Acted(a, b, op, moved, {}) && OnlyEdited(b, c)
    ensures Placements(Since(a, c)) == Placements(Since(a, b))
    ensures GapsQuiet(a.path, Since(a, c)) ==> GapsQuiet(a.path, Since(a, b))
  {
    SinceSplits(a, b, c);
    PlacementsConcat(Since(a, b), Since(b, c));
    GapsConcat(a.path, Since(a, b), Since(b, c));
    EditedPlacesNothing(b, c);
  }

  lemma {:induction false} HeldAtFirst(s: PathState, events: seq<Event>, content: Bytes)
    requires IsFileWith(s.node, content)
    ensures Held(s, events, content)
  {
    if events != [] {
      HeldAtFirst(s, events[..|events| - 1], content);
    }
  }

  lemma PresentBeforeEdits(a: Moment, b: Moment, content: Bytes)
    requires OnlyEdited(a, b) && IsFileWith(a.path.node, content)
    ensures OnlyEdits(Since(a, b)) && Held(a.path, Since(a, b), content) && PlacedOrPresent(a, b, content)
  {
    HeldAtFirst(a.path, Since(a, b), content);
  }

  /** A file with the remote manifest is the remote file. */
  lemma SameManifestSameFile(path: PathState, s: Snapshot, op: DownloadOp, remote: Bytes)
    requires op.chunkSize > 0 && op.storedEntry.chunkSize == op.chunkSize && s.info.Some?
    requires path.node.Some? && path.node.value.info == s.info.value
    requires Faithful(path, s, op.storedEntry) && s.baselineHash == CompositeHash(op.chunkHashes)
    ensures DeltaFor(op, remote) ==> IsFileWith(path.node, remote)
  {
    hide ChunkHashes;
    if DeltaFor(op, remote) && path.node.value.info.kind == Regular {
      ManifestDeterminesContent(path.node.value.content, remote, op.chunkSize);
    }
  }

  lemma ContentToldAfterEdits(a: Moment, b: Moment, c: Moment, op: DownloadOp, r: DownloadResult)
    requires Sane(a.path) && OnlyEdited(a, b) && Over(b, c, op, r)
    ensures Over(a, c, op, r)
    ensures r.remoteHash.Raw? && PlacedOrPresent(b, c, r.remoteHash.content) ==> PlacedOrPresent(a, c, r.remoteHash.content)
  {
    OverAfterEdits(a, b, c, op, r);
    assert Later(b, c);
    if r.remoteHash.Raw? && PlacedOrPresent(b, c, r.remoteHash.content) {
      PlacedOrPresentAfterEdits(a, b, c, r.remoteHash.content);
    }
    hide Over, PlacedOrPresent;
  }

  lemma DeltaToldAfterEdits(a: Moment, b: Moment, c: Moment, op: DownloadOp, r: DownloadResult, remote: Bytes)
    requires Sane(a.path) && OnlyEdited(a, b) && Over(b, c, op, r) && DeltaTells(b, c, op, r, remote)
    ensures Over(a, c, op, r) && DeltaTells(a, c, op, r, remote)
  {
    OverAfterEdits(a, b, c, op, r);
    assert Later(b, c);
    DeltaTellsAfterEdits(a, b, c, op, r, remote);
    hide Over, DeltaTells;
  }

  lemma EchoIsNoEvent(a: Moment, b: Moment, echo: Echo)
    requires Later(a, b)
    ensures Later(a, b.(echo := echo)) && Since(a, b.(echo := echo)) == Since(a, b)
  {
  }

  lemma LaterByRemoval(a: Moment, b: Moment, c: Moment)
    requires Later(a, b)
    requires c.trace == b.trace + [Removed] && c.path == After(b.path, Removed) && c.script == b.script && c.gaps == b.gaps
    ensures Later(a, c) && Since(a, c) == Since(a, b) + [Removed]
  {
    OneEvent(b, Removed, c);
    LaterIsTransitive(a, b, c);
  }

  /** What a plain delete does: a gap, and perhaps the removal. */
  predicate Deleted(events: seq<Event>, gaps: seq<seq<Edit>>) {
    events == GapEvents(gaps) || events == GapEvents(gaps) + [Removed]
  }

  /** A removal is harmless if what was there is justified; without an edit in the gap, exactly then. */
  lemma RemovalIsHarmless(a: Moment, b: Moment, op: DownloadOp, removed: bool)
    requires Sane(a.path) && Later(a, b) && Since(a, b) == AfterGapEvent(a.gaps, removed, Removed)
    ensures (a.path.node.Some? ==> Justified(a.path.node.value, op, {})) ==> Acted(a, b, op, false, {})
    ensures (removed || a.path.node.None?) && a.gaps == [] ==>
              (Harmless(a.path, Since(a, b), op, {}) <==> (a.path.node.Some? ==> Justified(a.path.node.value, op, {})))
  {
    var gap, events := GapEvents(a.gaps), Since(a, b);
    var mid := Moment(Replay(a.path, gap), a.script, if a.gaps == [] then [] else a.gaps[1..], a.echo, a.trace + gap);
    if gap == [] {
      assert mid == a;
      NothingHappened(a);
    } else {
      assert gap[..0] == [] && Replay(a.path, gap) == After(Replay(a.path, gap[..0]), gap[0]);
      OneEvent(a, gap[0], mid);
    }
    GapIsEntryOrGap(a, mid);
    GapNodeIsJustifiedIf(a, mid, op);
    NodeAfterEdits(a.path, gap);
    EditsAreHarmless(a.path, gap, op, {});
    if removed {
      assert events[..|events| - 1] == gap && events[|events| - 1] == Removed;
    } else {
      assert events == gap;
    }
    hide AtBaseline, GapNodes;
  }

  lemma GapNodeIsJustifiedIf(a: Moment, b: Moment, op: DownloadOp)
    requires EntryOrGap(a, b)
    ensures (a.path.node.Some? ==> Justified(a.path.node.value, op, {})) ==>
              (b.path.node.Some? ==> Justified(b.path.node.value, op, {} + GapNodes(a.path, Since(a, b))))
  {
    hide AtBaseline;
  }

  lemma OverFacts(a: Moment, b: Moment, op: DownloadOp, r: DownloadResult)
    requires Over(a, b, op, r)
    ensures Later(a, b) && ResultConsistent(r)
    ensures !op.conflict ==> b.path.copies == a.path.copies
    ensures r.movedAside && Idle(a) ==> op.conflict && a.path.node.Some? && b.path.copies == a.path.copies + [a.path.node.value]
    ensures op.kind != DownloadChmod && Idle(a) && a.path.node.Some? && IsData(a.path.node.value) &&
            !AtBaseline(a.path.node.value, op.hasStored, op.storedEntry) ==>
              b.path.node == a.path.node || a.path.node.value in b.path.copies
  {
    hide AtBaseline, Harmless;
    if r.movedAside && Idle(a) {
      CopyWithoutEdits(a, b, op);
    }
    if op.kind != DownloadChmod && Idle(a) && a.path.node.Some? && IsData(a.path.node.value) &&
       !AtBaseline(a.path.node.value, op.hasStored, op.storedEntry) {
      UneditedDataIsKept(a, b, op, a.path.node.value);
    }
  }

  // ------------------------------------------------------------------
  // What harmless traces promise
  // ------------------------------------------------------------------

  lemma {:induction false} HarmlessAt(s: PathState, events: seq<Event>, op: DownloadOp, excused: set<Node>, i: nat)
    requires i < |events| && Harmless(s, events, op, excused)
    ensures Allowed(Replay(s, events[..i]), events[i], op, excused + GapNodes(s, events))
    ensures Replay(s, events[..i + 1]).copies <= Replay(s, events).copies
  {
    hide Allowed;
    var front := events[..|events| - 1];
    AllowedMonotone(Replay(s, front), events[|events| - 1], op, excused + GapNodes(s, front), excused + GapNodes(s, events));
    if i < |front| {
      HarmlessAt(s, front, op, excused, i);
      assert front[..i] == events[..i] && front[..i + 1] == events[..i + 1];
      AllowedMonotone(Replay(s, events[..i]), events[i], op, excused + GapNodes(s, front), excused + GapNodes(s, events));
    } else {
      assert events[..i] == front && events[..i + 1] == events;
    }
  }

  lemma AllowedMonotone(s: PathState, e: Event, op: DownloadOp, few: set<Node>, many: set<Node>)
    requires few <= many
    ensures Allowed(s, e, op, few) ==> Allowed(s, e, op, many)
  {
    hide AtBaseline;
  }

  /** No edit is lost in an operation. */
  lemma NoEditIsLost(a: Moment, b: Moment, op: DownloadOp, r: DownloadResult)
    requires Over(a, b, op, r)
    ensures NoEditLost(a, b, op)
  {
    var events := Since(a, b);
    hide Replay, GapNodes, AtBaseline, Harmless;
    forall i, n | 0 <= i < |events| && IsData(n) && LeavesAt(a.path, events, i, n)
      ensures events[i].Played? || events[i].Chmodded? || n in b.path.copies || Justified(n, op, GapNodes(a.path, events))
    {
      HarmlessAt(a.path, events, op, {}, i);
      NextMoment(a.path, events, i);
      assert {} + GapNodes(a.path, events) == GapNodes(a.path, events);
      if events[i].MovedAside? {
        var made := Replay(a.path, events[..i + 1]).copies;
        assert made[|made| - 1] == n && made <= b.path.copies;
      }
    }
  }

  lemma NextMoment(s: PathState, events: seq<Event>, i: nat)
    requires i < |events|
    ensures Replay(s, events[..i + 1]) == After(Replay(s, events[..i]), events[i])
  {
    assert events[..i + 1][..i] == events[..i];
  }

  /** Nobody edits: all batches still to come are empty. */
  predicate Idle(m: Moment) {
    NoEdits(m.script) && NoEdits(m.gaps)
  }

  predicate NoEdits(batches: seq<seq<Edit>>) {
    forall i :: 0 <= i < |batches| ==> batches[i] == []
  }

  /** An empty batch leaves the path as it is, and an idle environment idle. */
  lemma NothingIsPlayed(path: PathState, batches: seq<seq<Edit>>)
    requires NoEdits(batches)
    ensures Edits(path.node, path.seen, []) == (path.node, path.seen)
    ensures batches != [] ==> batches[0] == [] && NoEdits(batches[1..])
  {
  }

  lemma {:induction false} EmptyBatches(s: PathState, events: seq<Event>)
    requires forall i :: 0 <= i < |Batches(events, false)| ==> Batches(events, false)[i] == []
    requires forall i :: 0 <= i < |Batches(events, true)| ==> Batches(events, true)[i] == []
    ensures Brought(events) == {} && GapNodes(s, events) == {} && GapsQuiet(s, events)
    ensures forall i :: 0 <= i < |events| && events[i].Played? ==> events[i].edits == []
  {
    if events != [] {
      var front, last := events[..|events| - 1], events[|events| - 1];
      if last.Played? {
        assert Batches(events, last.gap) == Batches(front, last.gap) + [last.edits];
        assert Batches(events, last.gap)[|Batches(front, last.gap)|] == last.edits;
      }
      assert forall g, i :: 0 <= i < |Batches(front, g)| ==> Batches(front, g)[i] == Batches(events, g)[i];
      EmptyBatches(s, front);
    }
  }

  lemma IdleTrace(a: Moment, b: Moment)
    requires Later(a, b) && Idle(a)
    ensures Brought(Since(a, b)) == {} && GapNodes(a.path, Since(a, b)) == {} && GapsQuiet(a.path, Since(a, b))
    ensures forall i :: 0 <= i < |Since(a, b)| && Since(a, b)[i].Played? ==> Since(a, b)[i].edits == []
  {
    var script, gaps := Batches(Since(a, b), false), Batches(Since(a, b), true);
    assert forall i :: 0 <= i < |script| ==> script[i] == a.script[i];
    assert forall i :: 0 <= i < |gaps| ==> gaps[i] == a.gaps[i];
    EmptyBatches(a.path, Since(a, b));
  }

  /** With nobody editing, a copy that an answer tells of is the node that was at the path. */
  lemma CopyWithoutEdits(a: Moment, b: Moment, op: DownloadOp)
    requires Acted(a, b, op, true, {}) && Idle(a)
    ensures op.conflict && a.path.node.Some? && b.path.copies == a.path.copies + [a.path.node.value]
  {
    IdleTrace(a, b);
    var n :| b.path.copies == a.path.copies + [n] && FromPath(a, b, n);
  }

  /** With nobody editing, a file or link off the baseline is still there, or a conflict copy. */
  lemma UneditedDataIsKept(a: Moment, b: Moment, op: DownloadOp, n: Node)
    requires Later(a, b) && Harmless(a.path, Since(a, b), op, {}) && Idle(a) && op.kind != DownloadChmod
    requires a.path.node == Some(n) && IsData(n) && !AtBaseline(n, op.hasStored, op.storedEntry)
    ensures b.path.node == Some(n) || n in b.path.copies
  {
    IdleTrace(a, b);
    UneditedDataStays(a.path, Since(a, b), op, n);
  }

  lemma {:induction false} UneditedDataStays(s: PathState, events: seq<Event>, op: DownloadOp, n: Node)
    requires Harmless(s, events, op, {}) && GapNodes(s, events) == {} && op.kind != DownloadChmod
    requires forall i :: 0 <= i < |events| && events[i].Played? ==> events[i].edits == []
    requires s.node == Some(n) && IsData(n) && !AtBaseline(n, op.hasStored, op.storedEntry)
    ensures Replay(s, events).node == Some(n) || n in Replay(s, events).copies
  {
    hide AtBaseline;
    if events != [] {
      UneditedDataStays(s, events[..|events| - 1], op, n);
    }
  }

  // ------------------------------------------------------------------
  // Snapshots
  // ------------------------------------------------------------------

  /** As long as the path shows the identity the snapshot saw, the snapshot describes its node. */
  ghost predicate Faithful(path: PathState, s: Snapshot, stored: SyncEntry) {
    s.info.Some? ==>
      && s.info.value in path.seen
      && (path.node.Some? && path.node.value.info == s.info.value ==> s == SnapshotOf(path.node.value, stored))
  }

  lemma FaithfulAfterEdits(a: Moment, b: Moment, s: Snapshot, stored: SyncEntry)
    requires Sane(a.path) && OnlyEdited(a, b) && Faithful(a.path, s, stored)
    ensures Faithful(b.path, s, stored)
  {
    EditedFacts(a, b);
    hide SnapshotOf, OnlyEdited;
  }

  /** A node that matched the stored baseline when it was last looked at is no loss. */
  lemma UnchangedMatchIsJustified(path: PathState, s: Snapshot, op: DownloadOp)
    requires Faithful(path, s, op.storedEntry) && MatchesStored(s, op.hasStored, op.storedEntry)
    requires path.node.Some? ==> s.info == Some(path.node.value.info)
    ensures path.node.Some? ==> AtBaseline(path.node.value, op.hasStored, op.storedEntry)
    ensures path.node.Some? ==> Justified(path.node.value, op, {})
  {
    hide SnapshotOf, MatchesStored;
  }
}
