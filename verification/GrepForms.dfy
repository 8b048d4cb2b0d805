/**
 Searching one file: the three forms of a result (is there a match, how many, which lines) and
 the printed report are all readings of the same list of selected lines.
 */
module GrepForms {
  import opened ByteStrings
  import opened GlobMatch

  const NEWLINE: byte := 10
  const BINARY_PREFIX: nat := 8192

  // ------------------------------------------------------------------
  // Lines
  // ------------------------------------------------------------------

  function NewlineAt(s: Bytes): (i: nat)
    ensures i <= |s| && NEWLINE !in s[..i] && (i < |s| ==> s[i] == NEWLINE)
  {
    if s == [] || s[0] == NEWLINE then 0 else 1 + NewlineAt(s[1..])
  }

  /** Cuts at every newline; a text without any is one line. */
  function SplitLines(s: Bytes): (lines: seq<Bytes>)
    ensures lines != []
    decreases |s|
  {
    var i := NewlineAt(s);
    if i == |s| then [s] else [s[..i]] + SplitLines(s[i + 1..])
  }

  function JoinLines(lines: seq<Bytes>): Bytes {
    if |lines| == 0 then [] else if |lines| == 1 then lines[0] else lines[0] + [NEWLINE] + JoinLines(lines[1..])
  }

  lemma JoinOfFirst(first: Bytes, others: seq<Bytes>)
    requires others != []
    ensures JoinLines([first] + others) == first + [NEWLINE] + JoinLines(others)
  {
    assert ([first] + others)[1..] == others;
  }

  lemma {:induction false} SplittingLosesNothing(s: Bytes)
    ensures JoinLines(SplitLines(s)) == s
    ensures forall line :: line in SplitLines(s) ==> NEWLINE !in line
    decreases |s|
  {
    var i := NewlineAt(s);
    if i < |s| {
      SplittingLosesNothing(s[i + 1..]);
      JoinOfFirst(s[..i], SplitLines(s[i + 1..]));
      assert s == s[..i] + [NEWLINE] + s[i + 1..];
    } else {
      assert s[..i] == s;
    }
  }

  predicate BinaryPrefix(content: Bytes) {
    0 in content[..if |content| > BINARY_PREFIX then BINARY_PREFIX else |content|]
  }

  /** A file is taken for binary exactly if there is a zero byte among its first 8192. */
  lemma BinaryMeansEarlyZero(content: Bytes)
    ensures BinaryPrefix(content) <==> exists i: nat :: i < |content| && i < 8192 && content[i] == 0
  {
    var prefix := content[..if |content| > BINARY_PREFIX then BINARY_PREFIX else |content|];
    if i: nat :| i < |content| && i < 8192 && content[i] == 0 {
      assert prefix[i] == 0;
    }
    if 0 in prefix {
      var i: nat :| i < |prefix| && prefix[i] == 0;
      assert content[i] == 0;
    }
  }

  // ------------------------------------------------------------------
  // The matcher
  // ------------------------------------------------------------------

  /** Compiled patterns; `lower` stands for the folding of case, a regular expression for its language. */
  datatype Matcher = Matcher(
    regexps: seq<Bytes -> bool>,
    glob: bool,
    ignoreCase: bool,
    lower: Bytes -> Bytes,
    patterns: seq<Bytes>,
    lowerPatterns: seq<Bytes>)

  ghost predicate FoundBy(glob: bool, pattern: Bytes, text: Bytes) {
    if glob then Matches(pattern, text) else Contains(text, pattern)
  }

  ghost predicate OneFinds(glob: bool, patterns: seq<Bytes>, text: Bytes) {
    exists k :: 0 <= k < |patterns| && FoundBy(glob, patterns[k], text)
  }

  /** One of the patterns finds the text. */
  ghost predicate Finds(m: Matcher, text: Bytes) {
    if |m.regexps| > 0 then exists k :: 0 <= k < |m.regexps| && m.regexps[k](text)
    else if m.ignoreCase then OneFinds(m.glob, m.lowerPatterns, m.lower(text))
    else OneFinds(m.glob, m.patterns, text)
  }

  method ContainsBytes(s: Bytes, text: Bytes) returns (ok: bool)
    ensures ok <==> Contains(s, text)
  {
    if |s| < |text| {
      return false;
    }
    for i := 0 to |s| - |text| + 1
      invariant forall k: nat :: k < i ==> !OccursAt(s, text, k)
    {
      if s[i..i + |text|] == text {
        assert OccursAt(s, text, i);
        return true;
      }
    }
    return false;
  }

  method Match(m: Matcher, text: Bytes) returns (ok: bool)
    ensures ok <==> Finds(m, text)
  {
    if |m.regexps| > 0 {
      for k := 0 to |m.regexps|
        invariant forall j :: 0 <= j < k ==> !m.regexps[j](text)
      {
        if m.regexps[k](text) {
          return true;
        }
      }
      return false;
    }
    var t, patterns := text, m.patterns;
    if m.ignoreCase {
      t, patterns := m.lower(text), m.lowerPatterns;
    }
    for k := 0 to |patterns|
      invariant forall j :: 0 <= j < k ==> !FoundBy(m.glob, patterns[j], t)
    {
      if m.glob {
        ok := AfsGlobMatch(patterns[k], t);
      } else {
        ok := ContainsBytes(t, patterns[k]);
      }
      if ok {
        assert FoundBy(m.glob, patterns[k], t);
        return;
      }
    }
    return false;
  }

  // ------------------------------------------------------------------
  // Selected lines
  // ------------------------------------------------------------------

  datatype Options = Options(invert: bool, filesWithMatches: bool, countOnly: bool, showLineNumbers: bool, maxCount: int)

  ghost predicate Selects(m: Matcher, o: Options, line: Bytes) {
    Finds(m, line) != o.invert
  }

  /** The indices of the selected lines among the first `n`. */
  ghost function SelectedIn(m: Matcher, o: Options, lines: seq<Bytes>, n: nat): seq<nat>
    requires n <= |lines|
  {
    if n == 0 then []
    else SelectedIn(m, o, lines, n - 1) + if Selects(m, o, lines[n - 1]) then [n - 1] else []
  }

  /** The binary verdict ignores lines, and inverting it never selects. */
  ghost predicate BinaryHit(m: Matcher, o: Options, content: Bytes) {
    !o.invert && Finds(m, content)
  }

  function Capped(hits: seq<nat>, maxCount: int): seq<nat> {
    if 0 < maxCount < |hits| then hits[..maxCount] else hits
  }

  /** The lines a search of a text file is about. */
  ghost function Hits(m: Matcher, o: Options, content: Bytes): seq<nat> {
    var lines := SplitLines(content);
    Capped(SelectedIn(m, o, lines, |lines|), o.maxCount)
  }

  lemma {:induction false} SelectedInOrder(m: Matcher, o: Options, lines: seq<Bytes>, n: nat)
    requires n <= |lines|
    ensures var hits := SelectedIn(m, o, lines, n);
            && (forall k :: k in hits ==> k < n && Selects(m, o, lines[k]))
            && (forall k: nat :: k < n && Selects(m, o, lines[k]) ==> k in hits)
            && (forall i, j :: 0 <= i < j < |hits| ==> hits[i] < hits[j])
  {
    hide Selects;
    if n > 0 {
      SelectedInOrder(m, o, lines, n - 1);
      var before := SelectedIn(m, o, lines, n - 1);
      assert forall i :: 0 <= i < |before| ==> before[i] in before;
    }
  }

  lemma {:induction false} SelectedGrow(m: Matcher, o: Options, lines: seq<Bytes>, n: nat, upto: nat)
    requires n <= upto <= |lines|
    ensures SelectedIn(m, o, lines, n) <= SelectedIn(m, o, lines, upto)
  {
    if n < upto {
      SelectedGrow(m, o, lines, n, upto - 1);
    }
  }

  /** The hits are the first selected lines, in order: no selected line is passed over. */
  lemma HitsAreTheFirst(m: Matcher, o: Options, content: Bytes)
    ensures var hits, lines := Hits(m, o, content), SplitLines(content);
            && (forall k :: k in hits ==> 0 <= k < |lines| && Selects(m, o, lines[k]))
            && (forall i, j :: 0 <= i < j < |hits| ==> hits[i] < hits[j])
            && (forall k: nat :: k < |lines| && Selects(m, o, lines[k]) && k !in hits ==>
                  |hits| == o.maxCount && forall i :: 0 <= i < |hits| ==> hits[i] < k)
  {
    var lines := SplitLines(content);
    SelectedInOrder(m, o, lines, |lines|);
    var all := SelectedIn(m, o, lines, |lines|);
    hide SelectedIn, Selects;
    var hits := Hits(m, o, content);
    assert forall i :: 0 <= i < |hits| ==> hits[i] == all[i] && all[i] in all;
    forall k: nat | k < |lines| && Selects(m, o, lines[k]) && k !in hits
      ensures |hits| == o.maxCount && forall i :: 0 <= i < |hits| ==> hits[i] < k
    {
      var at :| 0 <= at < |all| && all[at] == k;
      assert at >= |hits|;
    }
  }

  /** Each line of a text is selected either by a search or by the inverted one. */
  lemma InvertedSearchTakesTheRest(m: Matcher, o: Options, lines: seq<Bytes>, n: nat)
    requires n <= |lines|
    ensures |SelectedIn(m, o, lines, n)| + |SelectedIn(m, o.(invert := !o.invert), lines, n)| == n
    ensures forall k :: k in SelectedIn(m, o, lines, n) ==> k !in SelectedIn(m, o.(invert := !o.invert), lines, n)
  {
    InvertedCount(m, o, lines, n);
    SelectedInOrder(m, o, lines, n);
    SelectedInOrder(m, o.(invert := !o.invert), lines, n);
    hide Finds, SelectedIn;
  }

  lemma {:induction false} InvertedCount(m: Matcher, o: Options, lines: seq<Bytes>, n: nat)
    requires n <= |lines|
    ensures |SelectedIn(m, o, lines, n)| + |SelectedIn(m, o.(invert := !o.invert), lines, n)| == n
  {
    hide Finds;
    if n > 0 {
      InvertedCount(m, o, lines, n - 1);
    }
  }

  // ------------------------------------------------------------------
  // The three forms
  // ------------------------------------------------------------------

  datatype GrepMatch = LineMatch(path: string, line: nat, text: Bytes) | BinaryMatch(path: string)

  ghost predicate HasMatch(m: Matcher, o: Options, content: Bytes) {
    if BinaryPrefix(content) then BinaryHit(m, o, content)
    else exists k :: 0 <= k < |SplitLines(content)| && Selects(m, o, SplitLines(content)[k])
  }

  ghost function MatchCount(m: Matcher, o: Options, content: Bytes): nat {
    if BinaryPrefix(content) then (if BinaryHit(m, o, content) then 1 else 0)
    else |Hits(m, o, content)|
  }

  /** Line numbers count from one. */
  function MatchesOf(path: string, lines: seq<Bytes>, hits: seq<nat>): seq<GrepMatch> {
    seq(|hits|, i requires 0 <= i < |hits| =>
      LineMatch(path, hits[i] + 1, if hits[i] < |lines| then lines[hits[i]] else []))
  }

  lemma OneMoreMatch(path: string, m: Matcher, o: Options, lines: seq<Bytes>, k: nat)
    requires k < |lines|
    ensures var was, now := SelectedIn(m, o, lines, k), SelectedIn(m, o, lines, k + 1);
            if Selects(m, o, lines[k]) then
              && |now| == |was| + 1
              && MatchesOf(path, lines, now) == MatchesOf(path, lines, was) + [LineMatch(path, k + 1, lines[k])]
            else now == was
  {
    hide Selects;
  }

  ghost function Collected(path: string, m: Matcher, o: Options, content: Bytes): seq<GrepMatch> {
    if BinaryPrefix(content) then (if BinaryHit(m, o, content) then [BinaryMatch(path)] else [])
    else
      MatchesOf(path, SplitLines(content), Hits(m, o, content))
  }

  /** The three forms agree, and a positive limit caps the last two. */
  lemma FormsAgree(path: string, m: Matcher, o: Options, content: Bytes)
    ensures |Collected(path, m, o, content)| == MatchCount(m, o, content)
    ensures HasMatch(m, o, content) <==> MatchCount(m, o, content) > 0
    ensures o.maxCount > 0 ==> MatchCount(m, o, content) <= o.maxCount
    ensures BinaryPrefix(content) ==> MatchCount(m, o, content) <= 1
  {
    var lines := SplitLines(content);
    var all := SelectedIn(m, o, lines, |lines|);
    SelectedInOrder(m, o, lines, |lines|);
    hide SelectedIn, Selects;
    if all != [] {
      var first := all[0];
      assert first in all;
      assert Selects(m, o, lines[first]);
    }
  }

  method GrepFileHasMatch(content: Bytes, o: Options, m: Matcher) returns (ok: bool)
    ensures ok <==> HasMatch(m, o, content)
  {
    if BinaryPrefix(content) {
      var found := Match(m, content);
      return found && !o.invert;
    }
    var lines := SplitLines(content);
    for k := 0 to |lines|
      invariant forall j :: 0 <= j < k ==> !Selects(m, o, lines[j])
    {
      var found := Match(m, lines[k]);
      if found != o.invert {
        assert Selects(m, o, lines[k]);
        return true;
      }
    }
    return false;
  }

  /** The limit has been reached: later lines cannot change the hits. */
  lemma LimitReached(m: Matcher, o: Options, lines: seq<Bytes>, n: nat)
    requires n <= |lines| && 0 < o.maxCount == |SelectedIn(m, o, lines, n)|
    ensures Capped(SelectedIn(m, o, lines, |lines|), o.maxCount) == SelectedIn(m, o, lines, n)
  {
    SelectedGrow(m, o, lines, n, |lines|);
  }

  method GrepFileMatchCount(content: Bytes, o: Options, m: Matcher) returns (count: nat)
    ensures count == MatchCount(m, o, content)
  {
    if BinaryPrefix(content) {
      var hit := GrepFileHasMatch(content, o, m);
      return if hit then 1 else 0;
    }
    count := 0;
    var lines := SplitLines(content);
    for k := 0 to |lines|
      invariant count == |SelectedIn(m, o, lines, k)| && (o.maxCount > 0 ==> count < o.maxCount)
    {
      var found := Match(m, lines[k]);
      if found != o.invert {
        count := count + 1;
        if o.maxCount > 0 && count >= o.maxCount {
          LimitReached(m, o, lines, k + 1);
          return;
        }
      }
    }
  }

  method GrepCollectMatches(path: string, content: Bytes, o: Options, m: Matcher) returns (matches: seq<GrepMatch>)
    ensures matches == Collected(path, m, o, content)
  {
    hide SelectedIn, Finds;
    if BinaryPrefix(content) {
      var hit := GrepFileHasMatch(content, o, m);
      return if hit then [BinaryMatch(path)] else [];
    }
    matches := [];
    var lines := SplitLines(content);
    NothingSelectedYet(m, o, lines);
    for k := 0 to |lines|
      invariant matches == MatchesOf(path, lines, SelectedIn(m, o, lines, k))
      invariant o.maxCount > 0 ==> |matches| < o.maxCount
    {
      OneMoreMatch(path, m, o, lines, k);
      var found := Match(m, lines[k]);
      if found == o.invert {
        continue;
      }
      matches := matches + [LineMatch(path, k + 1, lines[k])];
      if o.maxCount > 0 && |matches| >= o.maxCount {
        LimitReached(m, o, lines, k + 1);
        return;
      }
    }
  }

  lemma NothingSelectedYet(m: Matcher, o: Options, lines: seq<Bytes>)
    ensures SelectedIn(m, o, lines, 0) == []
  {
  }

  // ------------------------------------------------------------------
  // The printed report
  // ------------------------------------------------------------------

  datatype Output =
    | FileName(path: string)
    | PlainLine(path: string, text: Bytes)
    | NumberedLine(path: string, line: nat, text: Bytes)
    | CountLine(path: string, count: nat)
    | BinaryLine(path: string)

  /** How one match is printed. */
  function Printed(o: Options, match': GrepMatch): Output {
    match match'
    case LineMatch(path, line, text) => if o.showLineNumbers then NumberedLine(path, line, text) else PlainLine(path, text)
    case BinaryMatch(path) => BinaryLine(path)
  }

  function PrintedAll(o: Options, matches: seq<GrepMatch>): seq<Output> {
    seq(|matches|, i requires 0 <= i < |matches| => Printed(o, matches[i]))
  }

  /**
   The report in terms of the three forms. Naming files comes before counting, so with both a
   file that has no match still gets its count of zero.
   */
  ghost function Report(path: string, m: Matcher, o: Options, content: Bytes): seq<Output> {
    if o.filesWithMatches && HasMatch(m, o, content) then [FileName(path)]
    else if o.countOnly then [CountLine(path, MatchCount(m, o, content))]
    else PrintedAll(o, Collected(path, m, o, content))
  }

  method GrepProcessBinaryFile(path: string, content: Bytes, o: Options, m: Matcher) returns (out: seq<Output>)
    requires BinaryPrefix(content)
    ensures out == Report(path, m, o, content)
  {
    var selected := Match(m, content);
    if o.invert {
      selected := false;
    }
    if !selected {
      return if o.countOnly then [CountLine(path, 0)] else [];
    }
    if o.filesWithMatches {
      return [FileName(path)];
    }
    if o.countOnly {
      return [CountLine(path, 1)];
    }
    return [BinaryLine(path)];
  }

  method GrepProcessFile(path: string, content: Bytes, o: Options, m: Matcher) returns (out: seq<Output>)
    ensures out == Report(path, m, o, content)
  {
    hide SelectedIn, Finds, MatchesOf, PrintedAll;
    if BinaryPrefix(content) {
      out := GrepProcessBinaryFile(path, content, o, m);
      return;
    }
    out := [];
    var lines := SplitLines(content);
    var matches := 0;
    NothingSelectedYet(m, o, lines);
    FormsAgree(path, m, o, content);
    NothingPrintedYet(path, o, lines);
    for k := 0 to |lines|
      invariant matches == |SelectedIn(m, o, lines, k)| && (o.maxCount > 0 ==> matches < o.maxCount)
      invariant out == if o.countOnly then [] else PrintedAll(o, MatchesOf(path, lines, SelectedIn(m, o, lines, k)))
      invariant o.filesWithMatches ==> matches == 0
    {
      OneMoreMatch(path, m, o, lines, k);
      var found := Match(m, lines[k]);
      if found == o.invert {
        continue;
      }
      matches := matches + 1;
      if o.filesWithMatches {
        return [FileName(path)];
      }
      if !o.countOnly {
        OneMorePrinted(o, MatchesOf(path, lines, SelectedIn(m, o, lines, k)), LineMatch(path, k + 1, lines[k]));
        out := out + [if o.showLineNumbers then NumberedLine(path, k + 1, lines[k]) else PlainLine(path, lines[k])];
      }
      if o.maxCount > 0 && matches >= o.maxCount {
        LimitReached(m, o, lines, k + 1);
        break;
      }
    }
    if o.countOnly {
      out := out + [CountLine(path, matches)];
    }
  }

  lemma NothingPrintedYet(path: string, o: Options, lines: seq<Bytes>)
    ensures PrintedAll(o, MatchesOf(path, lines, [])) == []
  {
  }

  lemma OneMorePrinted(o: Options, matches: seq<GrepMatch>, one: GrepMatch)
    ensures PrintedAll(o, matches + [one]) == PrintedAll(o, matches) + [Printed(o, one)]
  {
  }

  // ------------------------------------------------------------------
  // Literal searches
  // ------------------------------------------------------------------

  ghost predicate LineContains(lines: seq<Bytes>, text: Bytes) {
    exists k :: 0 <= k < |lines| && Contains(lines[k], text)
  }

  /** A text without newlines is in the content exactly when it is in one of the lines. */
  lemma {:induction false} LinesContainWhatTheContentDoes(content: Bytes, text: Bytes)
    requires NEWLINE !in text
    ensures Contains(content, text) <==> LineContains(SplitLines(content), text)
    decreases |content|
  {
    hide Contains, OccursAt;
    var i, lines := NewlineAt(content), SplitLines(content);
    if i == |content| {
      assert lines[0] == content;
    } else {
      var first, rest := content[..i], content[i + 1..];
      LinesContainWhatTheContentDoes(rest, text);
      assert content == first + [NEWLINE] + rest;
      NoMatchAcrossNewline(first, rest, text);
      assert lines == [first] + SplitLines(rest);
      FirstOrLaterLine(first, SplitLines(rest), text);
    }
  }

  lemma FirstOrLaterLine(first: Bytes, others: seq<Bytes>, text: Bytes)
    ensures LineContains([first] + others, text) <==> Contains(first, text) || LineContains(others, text)
  {
    hide Contains;
    var lines := [first] + others;
    assert lines[0] == first;
    if k :| 0 <= k < |others| && Contains(others[k], text) {
      assert lines[k + 1] == others[k];
    }
  }

  lemma NoMatchAcrossNewline(first: Bytes, rest: Bytes, text: Bytes)
    requires NEWLINE !in text
    ensures Contains(first + [NEWLINE] + rest, text) <==> Contains(first, text) || Contains(rest, text)
  {
    hide OccursAt;
    var whole, n := first + [NEWLINE] + rest, |first| + 1;
    if j: nat :| OccursAt(whole, text, j) {
      OccurrenceIsInOnePart(first, rest, text, j);
    }
    if j: nat :| OccursAt(first, text, j) {
      OccurrenceInPart(whole, first, 0, text, j);
    }
    if j: nat :| OccursAt(rest, text, j) {
      OccurrenceInPart(whole, rest, n, text, j);
    }
  }

  lemma OccurrenceInPart(whole: Bytes, part: Bytes, from: nat, text: Bytes, j: nat)
    requires from + |part| <= |whole| && whole[from..from + |part|] == part
    requires OccursAt(part, text, j)
    ensures OccursAt(whole, text, from + j)
  {
    forall x | 0 <= x < |text|
      ensures whole[from + j + x] == text[x]
    {
      assert part[j + x] == whole[from..from + |part|][j + x];
      assert part[j..j + |text|][x] == part[j + x];
    }
  }

  lemma OccurrenceIsInOnePart(first: Bytes, rest: Bytes, text: Bytes, j: nat)
    requires NEWLINE !in text && OccursAt(first + [NEWLINE] + rest, text, j)
    ensures OccursAt(first, text, j) || (j > |first| && OccursAt(rest, text, j - |first| - 1))
  {
    var whole, n := first + [NEWLINE] + rest, |first| + 1;
    var k := if j <= |first| < j + |text| then |first| - j else 0;
    assert |text| > 0 ==> whole[j..j + |text|][k] == whole[j + k] && text[k] in text;
    assert j + |text| <= |first| || j >= n || |text| == 0;
    if j + |text| <= |first| {
      assert first[j..j + |text|] == whole[j..j + |text|];
    } else if j >= n {
      assert whole[n..] == rest;
      assert whole[j..j + |text|] == whole[n..][j - n..j - n + |text|];
    }
  }

  /** A search for literal texts without newlines finds a file by its lines exactly when its bytes contain one. */
  lemma LiteralSearchSeesTheBytes(m: Matcher, o: Options, content: Bytes)
    requires m.regexps == [] && !m.glob && !m.ignoreCase && !o.invert
    requires forall k :: 0 <= k < |m.patterns| ==> NEWLINE !in m.patterns[k]
    ensures HasMatch(m, o, content) <==> Finds(m, content)
  {
    hide Contains, BinaryPrefix, SplitLines;
    var lines := SplitLines(content);
    if Finds(m, content) {
      var k :| 0 <= k < |m.patterns| && FoundBy(false, m.patterns[k], content);
      LinesContainWhatTheContentDoes(content, m.patterns[k]);
      var j :| 0 <= j < |lines| && Contains(lines[j], m.patterns[k]);
      assert FoundBy(false, m.patterns[k], lines[j]);
      assert Selects(m, o, lines[j]);
    }
    if j :| 0 <= j < |lines| && Selects(m, o, lines[j]) {
      var k :| 0 <= k < |m.patterns| && FoundBy(false, m.patterns[k], lines[j]);
      LinesContainWhatTheContentDoes(content, m.patterns[k]);
      assert FoundBy(false, m.patterns[k], content);
    }
  }

  /** The glob search for the escaped patterns. */
  function AsGlob(m: Matcher): Matcher {
    m.(glob := true, patterns := seq(|m.patterns|, k requires 0 <= k < |m.patterns| => LiteralGlobPattern(m.patterns[k])))
  }

  /** A literal search and the glob search for its escaped patterns give the same results. */
  lemma LiteralSearchAsGlob(path: string, m: Matcher, o: Options, content: Bytes)
    requires m.regexps == [] && !m.glob && !m.ignoreCase
    ensures Report(path, AsGlob(m), o, content) == Report(path, m, o, content)
    ensures Collected(path, AsGlob(m), o, content) == Collected(path, m, o, content)
  {
    forall text
      ensures Finds(AsGlob(m), text) <==> Finds(m, text)
    {
      FindsAsGlob(m, text);
    }
    SameFinderSameHits(AsGlob(m), m, o, SplitLines(content), |SplitLines(content)|);
  }

  lemma FindsAsGlob(m: Matcher, text: Bytes)
    requires m.regexps == [] && !m.glob && !m.ignoreCase
    ensures Finds(AsGlob(m), text) <==> Finds(m, text)
  {
    var g := AsGlob(m);
    hide Matches, Contains;
    forall k | 0 <= k < |m.patterns|
      ensures FoundBy(true, g.patterns[k], text) <==> FoundBy(false, m.patterns[k], text)
    {
      LiteralGlobMatchesSubstrings(m.patterns[k], text);
    }
    if OneFinds(false, m.patterns, text) {
      var k :| 0 <= k < |m.patterns| && FoundBy(false, m.patterns[k], text);
      assert FoundBy(true, g.patterns[k], text);
    }
    if OneFinds(true, g.patterns, text) {
      var k :| 0 <= k < |g.patterns| && FoundBy(true, g.patterns[k], text);
      assert FoundBy(false, m.patterns[k], text);
    }
  }

  lemma {:induction false} SameFinderSameHits(a: Matcher, b: Matcher, o: Options, lines: seq<Bytes>, n: nat)
    requires n <= |lines| && forall text :: Finds(a, text) <==> Finds(b, text)
    ensures SelectedIn(a, o, lines, n) == SelectedIn(b, o, lines, n)
  {
    if n > 0 {
      SameFinderSameHits(a, b, o, lines, n - 1);
    }
  }
}
