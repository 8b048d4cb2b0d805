/**
 Importing a folder: walked entries are collected into batches under an entry cap and a byte
 cap, and each full batch is written in one round trip.
 */
module ImportBatching {

  datatype Entry =
    | DirEntry(redisPath: string)
    | FileEntry(redisPath: string, size: int)
    | LinkEntry(redisPath: string, target: string)

  /** What the walk comes upon: something to look at, something ignored, or an error. */
  datatype Visit = Item(entry: Entry) | Ignored | WalkError

  datatype Caps = Caps(maxEntries: nat, maxBytes: nat)

  const DIR_CAPS := Caps(256, 0x10_0000)
  const FILE_CAPS := Caps(64, 0x40_0000)

  /** What an entry adds to its batch; even an empty file adds something. */
  function EntryWeight(e: Entry): (w: nat)
    ensures w > 0
  {
    match e
    case FileEntry(_, size) => if size <= 0 then 1 else size
    case LinkEntry(_, target) => |target| + 256
    case DirEntry(path) => |path| + 256
  }

  function Weight(batch: seq<Entry>): nat {
    if batch == [] then 0 else Weight(batch[..|batch| - 1]) + EntryWeight(batch[|batch| - 1])
  }

  function Concat(batches: seq<seq<Entry>>): seq<Entry> {
    if batches == [] then [] else batches[0] + Concat(batches[1..])
  }

  function TextOf(batch: seq<Entry>): nat {
    if batch == [] then 0
    else
      var n := |batch| - 1;
      TextOf(batch[..n]) + match batch[n]
                           case FileEntry(_, _) => 0
                           case LinkEntry(_, target) => |target|
                           case DirEntry(path) => |path|
  }

  /** Files weigh their bytes, and one each where they are empty; directories and links weigh their text and 256 each. */
  lemma {:induction false} WhatBatchesWeigh(batch: seq<Entry>)
    ensures (forall k :: 0 <= k < |batch| ==> batch[k].FileEntry? && batch[k].size > 0) ==> Weight(batch) == SizeOfFiles(batch)
    ensures (forall k :: 0 <= k < |batch| ==> batch[k].FileEntry? && batch[k].size == 0) ==> Weight(batch) == |batch|
    ensures (forall k :: 0 <= k < |batch| ==> !batch[k].FileEntry?) ==> Weight(batch) == TextOf(batch) + 256 * |batch|
  {
    if batch != [] {
      WhatBatchesWeigh(batch[..|batch| - 1]);
    }
  }

  // ------------------------------------------------------------------
  // What a good batching is
  // ------------------------------------------------------------------

  /** A batch keeps both caps, except that a single entry may be as heavy as it is. */
  predicate Fits(batch: seq<Entry>, caps: Caps) {
    0 < |batch| <= caps.maxEntries && (|batch| == 1 || Weight(batch) <= caps.maxBytes)
  }

  ghost predicate AllFit(batches: seq<seq<Entry>>, caps: Caps) {
    forall i :: 0 <= i < |batches| ==> Fits(batches[i], caps)
  }

  /** The next batch begins with an entry that did not fit any more. */
  predicate ClosedBy(batch: seq<Entry>, next: seq<Entry>, caps: Caps) {
    next != [] && !Fits(batch + [next[0]], caps)
  }

  /** No batch was closed while the next entry would still have fitted. */
  ghost predicate Greedy(batches: seq<seq<Entry>>, caps: Caps) {
    && AllFit(batches, caps)
    && forall i, j :: 0 <= i && j == i + 1 && j < |batches| ==> ClosedBy(batches[i], batches[j], caps)
  }

  lemma {:induction false} WeightOfConcat(a: seq<Entry>, b: seq<Entry>)
    ensures Weight(a + b) == Weight(a) + Weight(b)
  {
    if b == [] {
      assert a + b == a;
    } else {
      assert (a + b)[..|a + b| - 1] == a + b[..|b| - 1];
      WeightOfConcat(a, b[..|b| - 1]);
    }
  }

  lemma {:induction false} ConcatOfAppend(batches: seq<seq<Entry>>, last: seq<Entry>)
    ensures Concat(batches + [last]) == Concat(batches) + last
  {
    if batches == [] {
      assert batches + [last] == [last];
      assert Concat([last]) == last + Concat([]);
    } else {
      assert (batches + [last])[1..] == batches[1..] + [last];
      ConcatOfAppend(batches[1..], last);
    }
  }

  /** A piece of a batch that keeps the caps keeps them too. */
  lemma PieceFits(whole: seq<Entry>, from: nat, to: nat, caps: Caps)
    requires Fits(whole, caps) && from < to <= |whole|
    ensures Fits(whole[from..to], caps)
  {
    var before, piece, rest := whole[..from], whole[from..to], whole[to..];
    WeightOfConcat(before, piece + rest);
    WeightOfConcat(piece, rest);
    assert whole == before + (piece + rest);
    hide Weight;
  }

  lemma GreedyTail(batches: seq<seq<Entry>>, caps: Caps)
    requires batches != [] && Greedy(batches, caps)
    ensures Greedy(batches[1..], caps) && Fits(batches[0], caps)
    ensures Concat(batches) == batches[0] + Concat(batches[1..])
    ensures |batches| > 1 ==> ClosedBy(batches[0], batches[1], caps) && Fits(batches[1], caps)
    ensures |batches| > 1 ==> Concat(batches[1..]) != [] && Concat(batches[1..])[0] == batches[1][0]
  {
    hide Fits, ClosedBy;
    var rest := batches[1..];
    assert forall i :: 0 <= i < |rest| ==> rest[i] == batches[i + 1];
    assert Fits(batches[0], caps);
    if |batches| > 1 {
      assert ClosedBy(batches[0], batches[1], caps) && Fits(batches[1], caps);
      ConcatStartsWith(rest, caps);
    } else {
      assert rest == [];
    }
  }

  lemma ConcatStartsWith(batches: seq<seq<Entry>>, caps: Caps)
    requires batches != [] && Fits(batches[0], caps)
    ensures batches[0] != [] && Concat(batches) != [] && Concat(batches)[0] == batches[0][0]
  {
    assert Concat(batches) == batches[0] + Concat(batches[1..]);
  }

  /** The first batch takes as much as any batch could. */
  lemma FirstBatchIsLongest(batches: seq<seq<Entry>>, caps: Caps, n: nat)
    requires batches != [] && Greedy(batches, caps)
    requires n <= |Concat(batches)| && Fits(Concat(batches)[..n], caps)
    ensures n <= |batches[0]|
  {
    GreedyTail(batches, caps);
    var all, first := Concat(batches), batches[0];
    if n > |first| {
      assert |batches| > 1;
      assert all[..n][..|first| + 1] == first + [batches[1][0]];
      PieceFits(all[..n], 0, |first| + 1, caps);
    }
  }

  /** The caps and the rule leave no choice: the entries determine the batches. */
  lemma {:induction false} GreedyIsUnique(a: seq<seq<Entry>>, b: seq<seq<Entry>>, caps: Caps)
    requires Greedy(a, caps) && Greedy(b, caps) && Concat(a) == Concat(b)
    ensures a == b
    decreases |a|
  {
    if a != [] && b != [] {
      GreedyTail(a, caps);
      GreedyTail(b, caps);
      assert Concat(a)[..|a[0]|] == a[0] && Concat(b)[..|b[0]|] == b[0];
      FirstBatchIsLongest(a, caps, |b[0]|);
      FirstBatchIsLongest(b, caps, |a[0]|);
      assert Concat(a[1..]) == Concat(a)[|a[0]|..] == Concat(b[1..]);
      GreedyIsUnique(a[1..], b[1..], caps);
      assert a == [a[0]] + a[1..] && b == [b[0]] + b[1..];
    } else if a != [] {
      GreedyTail(a, caps);
    } else if b != [] {
      GreedyTail(b, caps);
    }
  }

  /** No way of cutting the same entries, or more, into batches within the caps takes fewer round trips. */
  lemma {:induction false} GreedyIsOptimal(batches: seq<seq<Entry>>, other: seq<seq<Entry>>, skip: nat, caps: Caps)
    requires Greedy(batches, caps) && AllFit(other, caps)
    requires skip <= |Concat(other)| && Concat(other)[skip..] == Concat(batches)
    ensures |batches| <= |other|
    decreases |other|
  {
    if batches != [] {
      GreedyTail(batches, caps);
      assert Fits(batches[0], caps);
      var p, first, all := other[0], batches[0], Concat(batches);
      var rest := Concat(other[1..]);
      assert Concat(other) == p + rest;
      if skip >= |p| {
        assert (p + rest)[skip..] == rest[skip - |p|..];
        GreedyIsOptimal(batches, other[1..], skip - |p|, caps);
      } else {
        var n := |p| - skip;
        assert all == p[skip..] + rest;
        assert all[..n] == p[skip..];
        assert Fits(p, caps);
        PieceFits(p, skip, |p|, caps);
        assert p[skip..|p|] == p[skip..];
        FirstBatchIsLongest(batches, caps, n);
        assert Concat(batches[1..]) == all[|first|..] == rest[|first| - n..];
        GreedyIsOptimal(batches[1..], other[1..], |first| - n, caps);
      }
    }
  }

  /**
   All batches but the last were closed for one of two reasons: `full` of them held the most
   entries allowed, and each of the `heavy` ones weighs too much together with its successor.
   */
  lemma {:induction false} ReasonsForFlushing(batches: seq<seq<Entry>>, caps: Caps) returns (full: nat, heavy: nat)
    requires batches != [] && Greedy(batches, caps)
    ensures |batches| == full + heavy + 1
    ensures full * caps.maxEntries <= |Concat(batches)|
    ensures heavy * caps.maxBytes <= 2 * Weight(Concat(batches)) - Weight(batches[0])
    decreases |batches|
  {
    GreedyTail(batches, caps);
    var first, rest := batches[0], batches[1..];
    WeightOfConcat(first, Concat(rest));
    if |batches| == 1 {
      return 0, 0;
    }
    full, heavy := ReasonsForFlushing(rest, caps);
    if |first| == caps.maxEntries {
      assert (full + 1) * caps.maxEntries == full * caps.maxEntries + caps.maxEntries;
      full := full + 1;
    } else {
      var next := batches[1];
      WeightOfConcat(first, [next[0]]);
      WeightOfConcat([next[0]], next[1..]);
      assert next == [next[0]] + next[1..] && next == rest[0];
      assert (heavy + 1) * caps.maxBytes == heavy * caps.maxBytes + caps.maxBytes;
      heavy := heavy + 1;
    }
  }

  lemma QuotientBound(k: nat, d: nat, n: nat)
    requires d > 0 && k * d <= n
    ensures k <= n / d
  {
    var q := n / d;
    assert k > q ==> (k - q - 1) * d >= 0;
  }

  /** The number of round trips is bounded by the number and the weight of the entries. */
  lemma FlushBound(batches: seq<seq<Entry>>, caps: Caps)
    requires Greedy(batches, caps) && caps.maxEntries > 0 && caps.maxBytes > 0
    ensures |batches| <= |Concat(batches)| / caps.maxEntries + 2 * Weight(Concat(batches)) / caps.maxBytes + 1
  {
    if batches != [] {
      var full, heavy := ReasonsForFlushing(batches, caps);
      QuotientBound(full, caps.maxEntries, |Concat(batches)|);
      QuotientBound(heavy, caps.maxBytes, 2 * Weight(Concat(batches)));
    }
  }

  // ------------------------------------------------------------------
  // Totals
  // ------------------------------------------------------------------

  /** What has been imported; links do not count towards the bytes. */
  datatype Stats = Stats(dirs: nat, files: nat, links: nat, bytes: int)

  const NO_STATS := Stats(0, 0, 0, 0)

  function Tally(stats: Stats, e: Entry): Stats {
    match e
    case DirEntry(_) => stats.(dirs := stats.dirs + 1)
    case FileEntry(_, size) => stats.(files := stats.files + 1, bytes := stats.bytes + size)
    case LinkEntry(_, _) => stats.(links := stats.links + 1)
  }

  function TallyAll(entries: seq<Entry>): Stats {
    if entries == [] then NO_STATS else Tally(TallyAll(entries[..|entries| - 1]), entries[|entries| - 1])
  }

  function SizeOfFiles(entries: seq<Entry>): int {
    if entries == [] then 0
    else SizeOfFiles(entries[..|entries| - 1]) + if entries[|entries| - 1].FileEntry? then entries[|entries| - 1].size else 0
  }

  datatype Kind = DirKind | FileKind | LinkKind

  function KindOf(e: Entry): Kind {
    match e
    case DirEntry(_) => DirKind
    case FileEntry(_, _) => FileKind
    case LinkEntry(_, _) => LinkKind
  }

  ghost function Places(entries: seq<Entry>, kind: Kind): set<nat> {
    set i: nat | i < |entries| && KindOf(entries[i]) == kind
  }

  lemma PlacesOfAppend(entries: seq<Entry>, kind: Kind)
    requires entries != []
    ensures var n := |entries| - 1;
            |Places(entries, kind)| == |Places(entries[..n], kind)| + if KindOf(entries[n]) == kind then 1 else 0
  {
    var n := |entries| - 1;
    var before := Places(entries[..n], kind);
    assert Places(entries, kind) == before + if KindOf(entries[n]) == kind then {n} else {};
    assert n !in before;
  }

  lemma {:induction false} TotalsAreCounts(entries: seq<Entry>)
    ensures var t := TallyAll(entries);
            && t.dirs == |Places(entries, DirKind)|
            && t.files == |Places(entries, FileKind)|
            && t.links == |Places(entries, LinkKind)|
            && t.dirs + t.files + t.links == |entries|
            && t.bytes == SizeOfFiles(entries)
  {
    if entries != [] {
      TotalsAreCounts(entries[..|entries| - 1]);
      PlacesOfAppend(entries, DirKind);
      PlacesOfAppend(entries, FileKind);
      PlacesOfAppend(entries, LinkKind);
    }
  }

  lemma TallyOfNext(a: seq<Entry>, b: seq<Entry>, k: nat)
    requires k < |b|
    ensures TallyAll(a + b[..k + 1]) == Tally(TallyAll(a + b[..k]), b[k])
  {
    var whole := a + b[..k + 1];
    assert whole[..|whole| - 1] == a + b[..k];
  }

  /** Adding directories adds their number. */
  lemma {:induction false} TallyOfDirectories(a: seq<Entry>, b: seq<Entry>)
    requires forall k :: 0 <= k < |b| ==> b[k].DirEntry?
    ensures var t := TallyAll(a); TallyAll(a + b) == t.(dirs := t.dirs + |b|)
  {
    if b == [] {
      assert a + b == a;
    } else {
      var n := |b| - 1;
      TallyOfDirectories(a, b[..n]);
      TallyOfNext(a, b, n);
      assert b[..n + 1] == b;
    }
  }

  // ------------------------------------------------------------------
  // The import
  // ------------------------------------------------------------------

  /** The pass over the directories, or the one over everything else. */
  datatype Pass = Directories | Files

  function CapsOf(pass: Pass): Caps {
    if pass.Directories? then DIR_CAPS else FILE_CAPS
  }

  predicate Wanted(pass: Pass, v: Visit) {
    v.Item? && v.entry.DirEntry? == pass.Directories?
  }

  /** The entries a pass takes from a walk, up to the first error. */
  function Selected(pass: Pass, walk: seq<Visit>): seq<Entry> {
    if walk == [] || walk[0].WalkError? then []
    else (if Wanted(pass, walk[0]) then [walk[0].entry] else []) + Selected(pass, walk[1..])
  }

  lemma {:induction false} SelectedOfStep(pass: Pass, walk: seq<Visit>, k: nat)
    requires k < |walk| && forall i :: 0 <= i < k ==> !walk[i].WalkError?
    ensures Selected(pass, walk[..k + 1])
         == Selected(pass, walk[..k]) + if Wanted(pass, walk[k]) then [walk[k].entry] else []
  {
    if k > 0 {
      hide Wanted;
      assert walk[..k + 1][1..] == walk[1..][..k] && walk[..k][1..] == walk[1..][..k - 1];
      assert forall i :: 0 <= i < k - 1 ==> walk[1..][i] == walk[i + 1];
      SelectedOfStep(pass, walk[1..], k - 1);
    } else {
      assert walk[..1][1..] == [] && Selected(pass, walk[..1][1..]) == [];
    }
  }

  lemma {:induction false} SelectedUpToError(pass: Pass, walk: seq<Visit>, k: nat)
    requires k < |walk| && walk[k].WalkError?
    ensures Selected(pass, walk) == Selected(pass, walk[..k])
  {
    if k > 0 {
      assert walk[..k][1..] == walk[1..][..k - 1];
      SelectedUpToError(pass, walk[1..], k - 1);
    }
  }

  function Items(walk: seq<Visit>): seq<Entry> {
    if walk == [] || walk[0].WalkError? then []
    else (if walk[0].Item? then [walk[0].entry] else []) + Items(walk[1..])
  }

  /** The two passes share the walk: the first takes exactly the directories, the second exactly all else. */
  lemma {:induction false} PassesShareTheWalk(walk: seq<Visit>)
    ensures multiset(Selected(Directories, walk)) + multiset(Selected(Files, walk)) == multiset(Items(walk))
    ensures forall e :: e in Selected(Directories, walk) ==> e.DirEntry?
    ensures forall e :: e in Selected(Files, walk) ==> !e.DirEntry?
  {
    if walk != [] && !walk[0].WalkError? {
      PassesShareTheWalk(walk[1..]);
    }
  }

  /** In numbers: at most 256 directories or 64 others a batch, and at most 1 or 4 MiB where it is more than one. */
  lemma BatchesInNumbers(pass: Pass, batches: seq<seq<Entry>>, i: nat)
    requires i < |batches| && AllFit(batches, CapsOf(pass))
    ensures 0 < |batches[i]| <= if pass.Directories? then 256 else 64
    ensures |batches[i]| > 1 ==> Weight(batches[i]) <= (if pass.Directories? then 1 else 4) * 1024 * 1024
  {
    assert Fits(batches[i], CapsOf(pass));
  }

  class Importer {
    const pass: Pass
    /** The store's answers to successive requests, after its retries; later ones succeed. */
    const answers: seq<bool>
    var asked: nat
    var batch: seq<Entry>
    var batchBytes: nat
    /** The batches the store took. */
    var flushed: seq<seq<Entry>>
    var stats: Stats
    var progress: seq<Stats>
    /** What the import added to the workspace's counters. */
    var counters: Stats

    constructor (pass: Pass, answers: seq<bool>)
      ensures this.pass == pass && this.answers == answers
      ensures Valid() && Taken() == [] && flushed == [] && counters == NO_STATS
    {
      this.pass, this.answers, asked := pass, answers, 0;
      batch, batchBytes, flushed := [], 0, [];
      stats, progress, counters := NO_STATS, [], NO_STATS;
    }

    predicate Accepts(k: nat) {
      k < |answers| ==> answers[k]
    }

    ghost function Batches(): seq<seq<Entry>>
      reads this
    {
      if batch == [] then flushed else flushed + [batch]
    }

    ghost function Taken(): seq<Entry>
      reads this
    {
      Concat(flushed) + batch
    }

    ghost predicate Valid()
      reads this
    {
      && Greedy(Batches(), CapsOf(pass))
      && batchBytes == Weight(batch)
      && (forall k :: 0 <= k < |batch| ==> batch[k].DirEntry? == pass.Directories?)
      && Reported()
      && asked == |flushed| && (forall k: nat :: k < asked ==> Accepts(k))
    }

    /** After each write a report of everything imported so far. */
    ghost predicate Reported()
      reads this
    {
      && stats == TallyAll(Concat(flushed))
      && |progress| == |flushed|
      && forall i :: 0 <= i < |progress| ==> progress[i] == TallyAll(Concat(flushed[..i + 1]))
    }

    method Flush() returns (ok: bool)
      requires Valid()
      modifies this
      ensures counters == old(counters)
      ensures ok ==> Valid() && flushed == old(Batches()) && batch == []
      ensures !ok ==> !Accepts(|flushed|) && flushed == old(flushed) && Reported()
    {
      hide Greedy, Weight, TallyAll, Concat, CapsOf;
      if batch == [] {
        return true;
      }
      ok := Accepts(asked);
      asked := asked + 1;
      if !ok {
        return;
      }
      stats := TallyBatch();
      ConcatOfAppend(flushed, batch);
      progress := progress + [stats];
      flushed := flushed + [batch];
      assert flushed[..|flushed|] == flushed;
      assert forall n :: 0 <= n < |flushed| ==> flushed[..n] == old(flushed)[..n];
      batch, batchBytes := [], 0;
      NothingWeighsNothing();
    }

    method TallyBatch() returns (total: Stats)
      requires stats == TallyAll(Concat(flushed))
      requires forall k :: 0 <= k < |batch| ==> batch[k].DirEntry? == pass.Directories?
      ensures total == TallyAll(Concat(flushed) + batch)
    {
      hide TallyAll, Concat;
      total := stats;
      if pass.Directories? {
        TallyOfDirectories(Concat(flushed), batch);
        return total.(dirs := total.dirs + |batch|);
      }
      assert Concat(flushed) + batch[..0] == Concat(flushed);
      for k := 0 to |batch|
        invariant total == TallyAll(Concat(flushed) + batch[..k])
      {
        TallyOfNext(Concat(flushed), batch, k);
        match batch[k] {
          case FileEntry(_, size) =>
            total := total.(files := total.files + 1, bytes := total.bytes + size);
          case LinkEntry(_, _) =>
            total := total.(links := total.links + 1);
        }
      }
      assert batch[..|batch|] == batch;
    }

    method Take(entry: Entry) returns (ok: bool)
      requires Valid() && (batch == [] ==> flushed == [])
      requires entry.DirEntry? == pass.Directories?
      modifies this
      ensures counters == old(counters)
      ensures ok ==> Valid() && batch != [] && Taken() == old(Taken()) + [entry]
      ensures !ok ==> !Accepts(|flushed|) && flushed == old(flushed) && Reported()
    {
      hide Weight, Greedy, TallyAll, Concat, CapsOf;
      var caps := CapsOf(pass);
      var weight := EntryWeight(entry);
      CapsArePositive(pass);
      WhenToFlush(batch, entry, caps);
      if |batch| >= caps.maxEntries || (batchBytes > 0 && batchBytes + weight > caps.maxBytes) {
        ConcatOfAppend(flushed, batch);
        ok := Flush();
        if !ok {
          return;
        }
        GreedyNext(flushed, entry, caps);
        assert batch + [entry] == [entry];
      } else {
        GreedyGrows(flushed, batch, entry, caps);
      }
      batch := batch + [entry];
      batchBytes := batchBytes + weight;
      return true;
    }

    method FlushLast() returns (ok: bool)
      requires Valid()
      modifies this
      ensures counters == old(counters) && Reported()
      ensures ok ==> Valid() && Concat(flushed) == old(Taken()) && Batches() == flushed
      ensures !ok ==> !Accepts(|flushed|) && Concat(flushed) <= old(Taken())
    {
      ConcatOfAppend(flushed, batch);
      ok := Flush();
    }

    /** Nothing is pending but what `Take` left there, and all that was wanted so far is taken. */
    ghost predicate UpTo(walk: seq<Visit>, k: nat)
      reads this
      requires k <= |walk|
    {
      && Valid() && (batch == [] ==> flushed == []) && counters == NO_STATS
      && Taken() == Selected(pass, walk[..k])
      && forall i :: 0 <= i < k ==> !walk[i].WalkError?
    }

    /** Looks at one thing the walk came upon. */
    method See(walk: seq<Visit>, k: nat) returns (ok: bool)
      requires k < |walk| && UpTo(walk, k) && !walk[k].WalkError?
      modifies this
      ensures ok ==> UpTo(walk, k + 1)
      ensures !ok ==> !Accepts(|flushed|) && Concat(flushed) <= Selected(pass, walk) && Reported() && counters == NO_STATS
    {
      hide Greedy, TallyAll, Concat, Selected, Valid;
      SelectedOfStep(pass, walk, k);
      if !Wanted(pass, walk[k]) {
        return true;
      }
      SelectedGrows(pass, walk, k);
      TakenBegins();
      ok := Take(walk[k].entry);
    }

    lemma TakenBegins()
      ensures Concat(flushed) <= Taken()
    {
    }

    /** One pass over the walk. */
    method Import(walk: seq<Visit>) returns (ok: bool)
      requires Valid() && flushed == [] && batch == [] && counters == NO_STATS
      modifies this
      ensures ok <==> (forall k :: 0 <= k < |walk| ==> !walk[k].WalkError?) && forall k: nat :: k <= |flushed| ==> Accepts(k)
      ensures ok ==> Concat(flushed) == Selected(pass, walk) && Greedy(flushed, CapsOf(pass))
      ensures ok ==> counters == TallyAll(Selected(pass, walk))
      ensures !ok ==> Concat(flushed) <= Selected(pass, walk) && counters == NO_STATS
      ensures Reported()
    {
      assert UpTo(walk, 0) by {
        assert walk[..0] == [] && Concat([]) == [];
      }
      hide Greedy, TallyAll, Concat, Selected, UpTo, Valid, Reported;
      for k := 0 to |walk|
        invariant UpTo(walk, k)
      {
        WhatIsTaken(walk, k);
        if walk[k].WalkError? {
          SelectedUpToError(pass, walk, k);
          return false;
        }
        ok := See(walk, k);
        if !ok {
          return;
        }
      }
      WhatIsTaken(walk, |walk|);
      ok := Finish(walk);
    }

    lemma WhatIsTaken(walk: seq<Visit>, k: nat)
      requires k <= |walk| && UpTo(walk, k)
      ensures Valid() && Reported() && counters == NO_STATS && forall i :: 0 <= i < k ==> !walk[i].WalkError?
      ensures Concat(flushed) <= Selected(pass, walk[..k])
      ensures k == |walk| ==> Taken() == Selected(pass, walk)
    {
      hide Greedy, TallyAll, Concat, Selected;
      assert k == |walk| ==> walk[..k] == walk;
    }

    /** Writes the last batch and adds the totals to the workspace's counters. */
    method Finish(walk: seq<Visit>) returns (ok: bool)
      requires Valid() && Taken() == Selected(pass, walk) && counters == NO_STATS
      modifies this
      ensures ok <==> forall k: nat :: k <= |flushed| ==> Accepts(k)
      ensures ok ==> Concat(flushed) == Selected(pass, walk) && Greedy(flushed, CapsOf(pass))
      ensures ok ==> counters == TallyAll(Selected(pass, walk))
      ensures !ok ==> Concat(flushed) <= Selected(pass, walk) && counters == NO_STATS
      ensures Reported()
    {
      hide Greedy, TallyAll, Concat, Selected;
      ok := FlushLast();
      if ok {
        ok := Accepts(asked);
        counters := if ok then stats else counters;
      }
    }
  }

  lemma NothingWeighsNothing()
    ensures Weight([]) == 0
  {
  }

  lemma CapsArePositive(pass: Pass)
    ensures CapsOf(pass).maxEntries > 0
  {
  }

  /** The test on the running total decides whether the batch has room for the entry. */
  lemma WhenToFlush(batch: seq<Entry>, entry: Entry, caps: Caps)
    requires caps.maxEntries > 0
    ensures Weight(batch + [entry]) == Weight(batch) + EntryWeight(entry)
    ensures Weight([entry]) == EntryWeight(entry) && Weight([]) == 0
    ensures !Fits(batch + [entry], caps) <==>
              |batch| >= caps.maxEntries || (Weight(batch) > 0 && Weight(batch) + EntryWeight(entry) > caps.maxBytes)
  {
    WeightOfConcat(batch, [entry]);
    assert [entry][..0] == [] && Weight([entry]) == Weight([]) + EntryWeight(entry);
  }

  lemma {:induction false} SelectedGrows(pass: Pass, walk: seq<Visit>, k: nat)
    requires k <= |walk| && forall i :: 0 <= i < k ==> !walk[i].WalkError?
    ensures Selected(pass, walk[..k]) <= Selected(pass, walk)
    decreases |walk| - k
  {
    if k == |walk| {
      assert walk[..k] == walk;
    } else if walk[k].WalkError? {
      SelectedUpToError(pass, walk, k);
    } else {
      SelectedOfStep(pass, walk, k);
      SelectedGrows(pass, walk, k + 1);
    }
  }

  lemma GreedyNext(flushed: seq<seq<Entry>>, entry: Entry, caps: Caps)
    requires Greedy(flushed, caps) && caps.maxEntries > 0
    requires flushed != [] ==> ClosedBy(flushed[|flushed| - 1], [entry], caps)
    ensures Greedy(flushed + [[entry]], caps)
  {
  }

  lemma GreedyGrows(flushed: seq<seq<Entry>>, batch: seq<Entry>, entry: Entry, caps: Caps)
    requires if batch == [] then flushed == [] else Greedy(flushed + [batch], caps)
    requires Fits(batch + [entry], caps)
    ensures Greedy(flushed + [batch + [entry]], caps)
  {
    var was, now := flushed + [batch], flushed + [batch + [entry]];
    forall i, j | 0 <= i && j == i + 1 && j < |now|
      ensures ClosedBy(now[i], now[j], caps)
    {
      assert ClosedBy(was[i], was[j], caps);
    }
    forall i | 0 <= i < |now|
      ensures Fits(now[i], caps)
    {
      assert i < |flushed| ==> Fits(was[i], caps);
    }
  }
}
