/**
 Query results as shown to a user: hits of one file that overlap or adjoin become one, and a
 listing by file keeps the best hit of each.
 */
module QueryCoalesce {
  import opened Texts

  /** A hit; a start line that is not positive means that the lines are unknown. */
  datatype Hit = Hit(
    path: string,
    chunk: string,
    startLine: int,
    endLine: int,
    score: real,
    snippet: string,
    types: seq<string>)

  // ------------------------------------------------------------------
  // Lines
  // ------------------------------------------------------------------

  /** The last line; an end before the start is read as the start. */
  function LastLine(h: Hit): int {
    if h.endLine < h.startLine then h.startLine else h.endLine
  }

  predicate HasLine(h: Hit, line: int) {
    0 < h.startLine <= line <= LastLine(h)
  }

  predicate WellFormed(h: Hit) {
    h.startLine > 0 ==> h.startLine <= h.endLine
  }

  /** Hits that can be joined with others at all. */
  predicate Placed(h: Hit) {
    h.path != "" && h.startLine > 0
  }

  predicate Overlap(a: Hit, b: Hit) {
    && Placed(a) && Placed(b) && a.path == b.path
    && b.startLine <= LastLine(a) + 1 && a.startLine <= LastLine(b) + 1
  }

  /** Joining `b` to `a` forgets the only line of `a`: its end is before its start and stays there. */
  predicate Forgets(a: Hit, b: Hit) {
    a.endLine < a.startLine && b.startLine < a.startLine && LastLine(b) <= a.startLine
  }

  // ------------------------------------------------------------------
  // Texts and search types
  // ------------------------------------------------------------------

  predicate OccursAt(s: string, part: string, i: nat) {
    i + |part| <= |s| && s[i..i + |part|] == part
  }

  predicate Contains(s: string, part: string) {
    exists i :: 0 <= i <= |s| && OccursAt(s, part, i)
  }

  function TrimNewlines(s: string): string {
    if s != "" && s[|s| - 1] == '\n' then TrimNewlines(s[..|s| - 1]) else s
  }

  const ELLIPSIS := "\n...\n"

  function MergedSnippet(first: string, second: string): string {
    var a, b := TrimNewlines(first), TrimNewlines(second);
    if Blank(a) then b
    else if Blank(b) then a
    else if Contains(a, b) then a
    else if Contains(b, a) then b
    else a + ELLIPSIS + b
  }

  lemma ContainsPart(s: string, part: string, i: nat)
    requires OccursAt(s, part, i)
    ensures Contains(s, part)
  {
  }

  lemma ContainsIsTransitive(s: string, t: string, part: string)
    requires Contains(s, t) && Contains(t, part)
    ensures Contains(s, part)
  {
    var i :| 0 <= i <= |s| && OccursAt(s, t, i);
    var j :| 0 <= j <= |t| && OccursAt(t, part, j);
    forall x | 0 <= x < |part|
      ensures s[i + j + x] == part[x]
    {
      assert s[i..i + |t|][j + x] == s[i + (j + x)];
      assert t[j..j + |part|][x] == t[j + x];
    }
    ContainsPart(s, part, i + j);
  }

  lemma {:induction false} TrimmedIsPrefix(s: string)
    ensures TrimNewlines(s) <= s
    ensures forall i :: |TrimNewlines(s)| <= i < |s| ==> s[i] == '\n'
    ensures var t := TrimNewlines(s); t != "" ==> t[|t| - 1] != '\n'
  {
    if s != "" && s[|s| - 1] == '\n' {
      TrimmedIsPrefix(s[..|s| - 1]);
    }
  }

  /** A text worth showing: more than white space, and without line breaks at its end. */
  predicate IsText(part: string) {
    part != "" && part[|part| - 1] != '\n' && !Blank(part)
  }

  lemma TrimmingKeepsText(s: string, part: string)
    requires IsText(part) && Contains(s, part)
    ensures Contains(TrimNewlines(s), part) && !Blank(TrimNewlines(s))
  {
    TrimmedIsPrefix(s);
    var t := TrimNewlines(s);
    var i :| 0 <= i <= |s| && OccursAt(s, part, i);
    assert s[i + |part| - 1] == part[|part| - 1];
    assert i + |part| <= |t|;
    assert t[i..i + |part|] == s[i..i + |part|];
    ContainsPart(t, part, i);
    var k :| 0 <= k < |part| && !IsSpace(part[k]);
    assert t[i..i + |part|][k] == t[i + k];
  }

  lemma MergedSnippetKeepsText(a: string, b: string, part: string)
    requires IsText(part) && (Contains(a, part) || Contains(b, part))
    ensures Contains(MergedSnippet(a, b), part)
  {
    hide IsText, Blank, Contains;
    var s, t := TrimNewlines(a), TrimNewlines(b);
    if Contains(a, part) {
      TrimmingKeepsText(a, part);
      if Contains(t, s) {
        ContainsIsTransitive(t, s, part);
      }
      ContainsPart(s + ELLIPSIS + t, s, 0);
      ContainsIsTransitive(s + ELLIPSIS + t, s, part);
    } else {
      TrimmingKeepsText(b, part);
      if Contains(s, t) {
        ContainsIsTransitive(s, t, part);
      }
      ContainsPart(s + ELLIPSIS + t, t, |s + ELLIPSIS|);
      ContainsIsTransitive(s + ELLIPSIS + t, t, part);
    }
  }

  /** A joined snippet says nothing twice: it is one of the two, if that contains the other or the other is blank, else both in order. */
  lemma MergedSnippetSaysNothingTwice(a: string, b: string)
    ensures var s, t, m := TrimNewlines(a), TrimNewlines(b), MergedSnippet(a, b);
            && (!Blank(s) && (Blank(t) || Contains(s, t)) ==> m == s)
            && (!Blank(t) && (Blank(s) || Contains(t, s)) ==> Contains(m, t) && |m| == |t|)
            && (!Blank(s) && !Blank(t) && !Contains(s, t) && !Contains(t, s) ==> m == s + "\n...\n" + t)
  {
    var s, t := TrimNewlines(a), TrimNewlines(b);
    assert OccursAt(t, t, 0) && Contains(t, t);
    hide Blank, TrimNewlines;
    if Contains(s, t) && Contains(t, s) {
      var i :| 0 <= i <= |s| && OccursAt(s, t, i);
      var j :| 0 <= j <= |t| && OccursAt(t, s, j);
      assert s == t;
    }
  }

  /** The non-empty strings of a list in the order of their first occurrence. */
  function FirstOccurrences(s: seq<string>): seq<string> {
    if s == [] then []
    else
      var front, last := FirstOccurrences(s[..|s| - 1]), s[|s| - 1];
      if last == "" || last in front then front else front + [last]
  }

  function MergedTypes(a: seq<string>, b: seq<string>): seq<string> {
    if a == [] then b else FirstOccurrences(a + b)
  }

  lemma {:induction false} FirstOccurrencesAreDistinct(s: seq<string>)
    ensures forall t :: t in FirstOccurrences(s) <==> t != "" && t in s
    ensures forall i, j :: 0 <= i < j < |FirstOccurrences(s)| ==> FirstOccurrences(s)[i] != FirstOccurrences(s)[j]
  {
    if s != [] {
      FirstOccurrencesAreDistinct(s[..|s| - 1]);
      assert forall t :: t in s <==> t in s[..|s| - 1] || t == s[|s| - 1];
    }
  }

  method MergeWorkspaceQuerySearchTypes(a: seq<string>, b: seq<string>) returns (out: seq<string>)
    ensures out == MergedTypes(a, b)
  {
    if |a| == 0 {
      return b;
    }
    var all := a + b;
    out := [];
    for k := 0 to |all|
      invariant out == FirstOccurrences(all[..k])
    {
      assert all[..k + 1][..k] == all[..k];
      if all[k] == "" || all[k] in out {
        continue;
      }
      out := out + [all[k]];
    }
    assert all[..|all|] == all;
  }

  // ------------------------------------------------------------------
  // Joining two hits
  // ------------------------------------------------------------------

  function Merged(a: Hit, b: Hit): Hit {
    a.(startLine := if b.startLine < a.startLine then b.startLine else a.startLine,
       endLine := if LastLine(b) > LastLine(a) then LastLine(b) else a.endLine,
       score := if b.score > a.score then b.score else a.score,
       snippet := MergedSnippet(a.snippet, b.snippet),
       types := MergedTypes(a.types, b.types))
  }

  method MergeWorkspaceQueryResults(a: Hit, b: Hit) returns (m: Hit)
    ensures m == Merged(a, b)
  {
    m := a;
    if b.startLine < a.startLine {
      m := m.(startLine := b.startLine);
    }
    if LastLine(b) > LastLine(a) {
      m := m.(endLine := LastLine(b));
    }
    if b.score > m.score {
      m := m.(score := b.score);
    }
    var types := MergeWorkspaceQuerySearchTypes(a.types, b.types);
    m := m.(snippet := MergedSnippet(a.snippet, b.snippet), types := types);
  }

  ghost predicate SameLines(m: Hit, a: Hit, b: Hit) {
    forall line :: HasLine(m, line) <==> HasLine(a, line) || HasLine(b, line)
  }

  /** Joining keeps the lines of both hits and adds none, unless it forgets the first one's. */
  lemma MergedLines(a: Hit, b: Hit)
    requires Overlap(a, b)
    ensures SameLines(Merged(a, b), a, b) <==> !Forgets(a, b)
    ensures Forgets(a, b) ==> HasLine(a, a.startLine) && !HasLine(Merged(a, b), a.startLine)
    ensures WellFormed(a) ==> WellFormed(Merged(a, b)) && !Forgets(a, b)
    ensures !WellFormed(Merged(a, b)) && !Forgets(a, b) ==>
              Merged(a, b).startLine == a.startLine && Merged(a, b).endLine == a.endLine
  {
    if Forgets(a, b) {
      assert HasLine(a, a.startLine) && !HasLine(Merged(a, b), a.startLine);
    }
  }

  // ------------------------------------------------------------------
  // What coalescing keeps
  // ------------------------------------------------------------------

  /**
   How hits went into outputs: `home` gives each hit its output, `founder` each output its
   first hit, in order.
   */
  ghost predicate Grouped(hits: seq<Hit>, out: seq<Hit>, home: seq<nat>, founder: seq<nat>) {
    && |home| == |hits| && |founder| == |out|
    && (forall k :: 0 <= k < |hits| ==> home[k] < |out|)
    && (forall i :: 0 <= i < |out| ==> founder[i] < |hits| && home[founder[i]] == i)
    && (forall k :: 0 <= k < |hits| ==> founder[home[k]] <= k)
    && (forall i, j :: 0 <= i < j < |out| ==> founder[i] < founder[j])
  }

  /** An output is of the same file as its hits, and otherwise its first hit; hits without lines stay alone. */
  ghost predicate Described(hits: seq<Hit>, out: seq<Hit>, home: seq<nat>, founder: seq<nat>)
    requires Grouped(hits, out, home, founder)
  {
    && (forall k :: 0 <= k < |hits| ==> hits[k].path == out[home[k]].path)
    && (forall i :: 0 <= i < |out| ==> out[i].chunk == hits[founder[i]].chunk)
    && (forall k :: 0 <= k < |hits| && !Placed(hits[k]) ==> out[home[k]] == hits[k] && founder[home[k]] == k)
    && (forall k :: 0 <= k < |hits| && founder[home[k]] != k ==> Placed(hits[k]) && Placed(out[home[k]]))
    && (forall i :: 0 <= i < |out| && Placed(hits[founder[i]]) ==> Placed(out[i]))
  }

  ghost predicate Attained(hits: seq<Hit>, home: seq<nat>, i: nat, score: real)
    requires |home| == |hits|
  {
    exists k :: 0 <= k < |hits| && home[k] == i && hits[k].score == score
  }

  ghost predicate BestScores(hits: seq<Hit>, out: seq<Hit>, home: seq<nat>)
    requires |home| == |hits| && forall k :: 0 <= k < |hits| ==> home[k] < |out|
  {
    && (forall k :: 0 <= k < |hits| ==> hits[k].score <= out[home[k]].score)
    && (forall i :: 0 <= i < |out| ==> Attained(hits, home, i, out[i].score))
  }

  ghost predicate TextsKept(hits: seq<Hit>, out: seq<Hit>, home: seq<nat>)
    requires |home| == |hits| && forall k :: 0 <= k < |hits| ==> home[k] < |out|
  {
    && (forall k, part :: 0 <= k < |hits| && IsText(part) && Contains(hits[k].snippet, part) ==>
          Contains(out[home[k]].snippet, part))
    && (forall k, t :: 0 <= k < |hits| && t != "" && t in hits[k].types ==> t in out[home[k]].types)
    && (forall i, t :: 0 <= i < |out| && t in out[i].types ==>
          exists k :: 0 <= k < |hits| && home[k] == i && t in hits[k].types)
  }

  /** Each output has exactly the lines of its hits. */
  ghost predicate LinesKept(hits: seq<Hit>, out: seq<Hit>, home: seq<nat>)
    requires |home| == |hits| && forall k :: 0 <= k < |hits| ==> home[k] < |out|
  {
    && (forall k, line :: 0 <= k < |hits| && HasLine(hits[k], line) ==> HasLine(out[home[k]], line))
    && (forall i, line :: 0 <= i < |out| && HasLine(out[i], line) ==>
          exists k :: 0 <= k < |hits| && home[k] == i && HasLine(hits[k], line))
  }

  /** No hit with its end before its start is followed by one that would make it forgotten. */
  ghost predicate NoneForgotten(hits: seq<Hit>) {
    forall k, j :: 0 <= k < j < |hits| ==> !(Overlap(hits[k], hits[j]) && Forgets(hits[k], hits[j]))
  }

  /** An output with its end before its start still has the lines its first hit gave it. */
  ghost predicate EndsInherited(hits: seq<Hit>, out: seq<Hit>, home: seq<nat>, founder: seq<nat>)
    requires Grouped(hits, out, home, founder)
  {
    forall i :: 0 <= i < |out| && !WellFormed(out[i]) ==>
      out[i].startLine == hits[founder[i]].startLine && out[i].endLine == hits[founder[i]].endLine
  }

  /** Outputs do not touch each other. */
  ghost predicate Apart(out: seq<Hit>) {
    forall i, j :: 0 <= i < j < |out| ==> !Overlap(out[i], out[j])
  }

  /** Hits of one file come in the order of their lines. */
  ghost predicate InLineOrder(hits: seq<Hit>) {
    && (forall k :: 0 <= k < |hits| ==> WellFormed(hits[k]))
    && (forall k, j :: 0 <= k < j < |hits| && hits[k].path == hits[j].path ==> hits[k].startLine <= hits[j].startLine)
  }

  ghost predicate StartsInherited(hits: seq<Hit>, out: seq<Hit>, home: seq<nat>, founder: seq<nat>)
    requires Grouped(hits, out, home, founder)
  {
    forall i :: 0 <= i < |out| ==> out[i].startLine == hits[founder[i]].startLine && WellFormed(out[i])
  }

  /** Everything coalescing keeps for any hits whatever. */
  ghost predicate Coalesced(hits: seq<Hit>, out: seq<Hit>, home: seq<nat>, founder: seq<nat>) {
    && Grouped(hits, out, home, founder)
    && Described(hits, out, home, founder)
    && BestScores(hits, out, home)
    && TextsKept(hits, out, home)
    && (NoneForgotten(hits) ==> LinesKept(hits, out, home) && EndsInherited(hits, out, home, founder))
    && (InLineOrder(hits) ==> StartsInherited(hits, out, home, founder) && Apart(out))
  }

  // ------------------------------------------------------------------
  // One more hit
  // ------------------------------------------------------------------

  lemma JoinDescribed(hits: seq<Hit>, out: seq<Hit>, home: seq<nat>, founder: seq<nat>, h: Hit, i: nat)
    requires Grouped(hits, out, home, founder) && Described(hits, out, home, founder)
    requires i < |out| && Overlap(out[i], h)
    ensures Grouped(hits + [h], out[i := Merged(out[i], h)], home + [i], founder)
    ensures Described(hits + [h], out[i := Merged(out[i], h)], home + [i], founder)
  {
    JoinGrouped(hits, out, home, founder, h, i, Merged(out[i], h));
    hide MergedSnippet, MergedTypes, LastLine, Grouped;
  }

  lemma JoinGrouped(hits: seq<Hit>, out: seq<Hit>, home: seq<nat>, founder: seq<nat>, h: Hit, i: nat, m: Hit)
    requires Grouped(hits, out, home, founder) && i < |out|
    ensures Grouped(hits + [h], out[i := m], home + [i], founder)
  {
  }

  lemma AttainedLater(hits: seq<Hit>, home: seq<nat>, i: nat, score: real, h: Hit, at: nat)
    requires |home| == |hits|
    requires Attained(hits, home, i, score) || (at == i && h.score == score)
    ensures Attained(hits + [h], home + [at], i, score)
  {
    var all, homes := hits + [h], home + [at];
    if Attained(hits, home, i, score) {
      var k :| 0 <= k < |hits| && home[k] == i && hits[k].score == score;
      assert all[k] == hits[k] && homes[k] == i;
    } else {
      assert all[|hits|] == h && homes[|hits|] == at;
    }
  }

  lemma JoinScores(hits: seq<Hit>, out: seq<Hit>, home: seq<nat>, founder: seq<nat>, h: Hit, i: nat)
    requires Grouped(hits, out, home, founder) && BestScores(hits, out, home)
    requires i < |out|
    ensures BestScores(hits + [h], out[i := Merged(out[i], h)], home + [i])
  {
    hide MergedSnippet, MergedTypes, LastLine, Attained;
    var all, now, homes := hits + [h], out[i := Merged(out[i], h)], home + [i];
    forall k | 0 <= k < |all|
      ensures all[k].score <= now[homes[k]].score
    {
      assert k < |hits| ==> hits[k].score <= out[home[k]].score;
    }
    forall j | 0 <= j < |now|
      ensures Attained(all, homes, j, now[j].score)
    {
      assert Attained(hits, home, j, out[j].score);
      AttainedLater(hits, home, j, now[j].score, h, i);
    }
  }

  lemma MergedTypesLaw(a: seq<string>, b: seq<string>)
    ensures forall t :: t in a || t in b ==> t == "" || t in MergedTypes(a, b)
    ensures forall t :: t in MergedTypes(a, b) ==> t in a || t in b
  {
    FirstOccurrencesAreDistinct(a + b);
  }

  lemma JoinTexts(hits: seq<Hit>, out: seq<Hit>, home: seq<nat>, founder: seq<nat>, h: Hit, i: nat)
    requires Grouped(hits, out, home, founder) && TextsKept(hits, out, home)
    requires i < |out|
    ensures TextsKept(hits + [h], out[i := Merged(out[i], h)], home + [i])
  {
    hide MergedSnippet, MergedTypes, LastLine, Contains, IsText;
    var all, now, homes := hits + [h], out[i := Merged(out[i], h)], home + [i];
    MergedTypesLaw(out[i].types, h.types);
    forall k, part | 0 <= k < |all| && IsText(part) && Contains(all[k].snippet, part)
      ensures Contains(now[homes[k]].snippet, part)
    {
      if homes[k] == i {
        MergedSnippetKeepsText(out[i].snippet, h.snippet, part);
      }
    }
    forall j, t | 0 <= j < |now| && t in now[j].types
      ensures exists k :: 0 <= k < |all| && homes[k] == j && t in all[k].types
    {
      if t in out[j].types {
        var k :| 0 <= k < |hits| && home[k] == j && t in hits[k].types;
        assert homes[k] == j && all[k] == hits[k];
      } else {
        assert homes[|hits|] == i && all[|hits|] == h;
      }
    }
  }

  lemma JoinLines(hits: seq<Hit>, out: seq<Hit>, home: seq<nat>, founder: seq<nat>, h: Hit, i: nat)
    requires Grouped(hits, out, home, founder) && Described(hits, out, home, founder)
    requires LinesKept(hits, out, home) && EndsInherited(hits, out, home, founder)
    requires i < |out| && Overlap(out[i], h) && NoneForgotten(hits + [h])
    ensures Grouped(hits + [h], out[i := Merged(out[i], h)], home + [i], founder)
    ensures LinesKept(hits + [h], out[i := Merged(out[i], h)], home + [i])
    ensures EndsInherited(hits + [h], out[i := Merged(out[i], h)], home + [i], founder)
  {
    JoinForgetsNothing(hits, out, home, founder, h, i);
    MergedLines(out[i], h);
    JoinDescribed(hits, out, home, founder, h, i);
    hide HasLine, Merged, WellFormed, Overlap, Forgets, NoneForgotten, Described;
    var m := Merged(out[i], h);
    var all, now, homes := hits + [h], out[i := m], home + [i];
    forall j, line | 0 <= j < |now| && HasLine(now[j], line)
      ensures exists k :: 0 <= k < |all| && homes[k] == j && HasLine(all[k], line)
    {
      if HasLine(out[j], line) {
        var k :| 0 <= k < |hits| && home[k] == j && HasLine(hits[k], line);
        assert homes[k] == j && all[k] == hits[k];
      } else {
        assert homes[|hits|] == i && all[|hits|] == h;
      }
    }
    forall k, line | 0 <= k < |all| && HasLine(all[k], line)
      ensures HasLine(now[homes[k]], line)
    {
      assert k < |hits| ==> HasLine(out[home[k]], line);
    }
  }

  lemma JoinForgetsNothing(hits: seq<Hit>, out: seq<Hit>, home: seq<nat>, founder: seq<nat>, h: Hit, i: nat)
    requires Grouped(hits, out, home, founder) && Described(hits, out, home, founder)
    requires EndsInherited(hits, out, home, founder)
    requires i < |out| && Overlap(out[i], h) && NoneForgotten(hits + [h])
    ensures !Forgets(out[i], h)
  {
    if Forgets(out[i], h) {
      var all, k := hits + [h], founder[i];
      assert all[k] == hits[k] && all[|hits|] == h;
      assert Overlap(all[k], all[|hits|]) && Forgets(all[k], all[|hits|]);
    }
  }

  lemma JoinApart(hits: seq<Hit>, out: seq<Hit>, home: seq<nat>, founder: seq<nat>, h: Hit, i: nat)
    requires Grouped(hits, out, home, founder) && Described(hits, out, home, founder)
    requires StartsInherited(hits, out, home, founder) && Apart(out)
    requires i < |out| && Overlap(out[i], h) && InLineOrder(hits + [h])
    ensures Grouped(hits + [h], out[i := Merged(out[i], h)], home + [i], founder)
    ensures StartsInherited(hits + [h], out[i := Merged(out[i], h)], home + [i], founder)
    ensures Apart(out[i := Merged(out[i], h)])
  {
    hide MergedSnippet, MergedTypes;
    var all, m := hits + [h], Merged(out[i], h);
    var now := out[i := m];
    assert all[|hits|] == h;
    forall j | 0 <= j < |out| && out[j].path == h.path
      ensures out[j].startLine <= h.startLine
    {
      assert all[founder[j]] == hits[founder[j]];
    }
    forall j, k | 0 <= j < k < |now|
      ensures !Overlap(now[j], now[k])
    {
      assert !Overlap(out[j], out[k]);
    }
  }

  lemma JoinHit(hits: seq<Hit>, out: seq<Hit>, home: seq<nat>, founder: seq<nat>, h: Hit, i: nat)
    requires Coalesced(hits, out, home, founder)
    requires i < |out| && Overlap(out[i], h)
    ensures Coalesced(hits + [h], out[i := Merged(out[i], h)], home + [i], founder)
  {
    hide Overlap, Merged, Grouped, Described, BestScores, TextsKept, LinesKept, EndsInherited, StartsInherited, Apart,
      NoneForgotten, InLineOrder;
    PrefixGuards(hits, h);
    JoinDescribed(hits, out, home, founder, h, i);
    JoinScores(hits, out, home, founder, h, i);
    JoinTexts(hits, out, home, founder, h, i);
    if NoneForgotten(hits + [h]) {
      JoinLines(hits, out, home, founder, h, i);
    }
    if InLineOrder(hits + [h]) {
      JoinApart(hits, out, home, founder, h, i);
    }
  }

  lemma PrefixGuards(hits: seq<Hit>, h: Hit)
    ensures NoneForgotten(hits + [h]) ==> NoneForgotten(hits)
    ensures InLineOrder(hits + [h]) ==> InLineOrder(hits)
  {
    hide Overlap, Forgets, WellFormed;
    assert forall k :: 0 <= k < |hits| ==> (hits + [h])[k] == hits[k];
  }

  lemma NewGrouped(hits: seq<Hit>, out: seq<Hit>, home: seq<nat>, founder: seq<nat>, h: Hit)
    requires Grouped(hits, out, home, founder)
    ensures Grouped(hits + [h], out + [h], home + [|out|], founder + [|hits|])
  {
  }

  lemma NewDescribed(hits: seq<Hit>, out: seq<Hit>, home: seq<nat>, founder: seq<nat>, h: Hit)
    requires Grouped(hits, out, home, founder) && Described(hits, out, home, founder)
    requires Grouped(hits + [h], out + [h], home + [|out|], founder + [|hits|])
    ensures Described(hits + [h], out + [h], home + [|out|], founder + [|hits|])
  {
    hide Placed;
  }

  lemma NewScores(hits: seq<Hit>, out: seq<Hit>, home: seq<nat>, founder: seq<nat>, h: Hit)
    requires Grouped(hits, out, home, founder) && BestScores(hits, out, home)
    ensures BestScores(hits + [h], out + [h], home + [|out|])
  {
    hide Attained;
    var all, now, homes := hits + [h], out + [h], home + [|out|];
    forall k | 0 <= k < |all|
      ensures all[k].score <= now[homes[k]].score
    {
      assert k < |hits| ==> hits[k].score <= out[home[k]].score;
    }
    forall j | 0 <= j < |now|
      ensures Attained(all, homes, j, now[j].score)
    {
      assert j < |out| ==> Attained(hits, home, j, out[j].score);
      AttainedLater(hits, home, j, now[j].score, h, |out|);
    }
  }

  lemma NewTexts(hits: seq<Hit>, out: seq<Hit>, home: seq<nat>, founder: seq<nat>, h: Hit)
    requires Grouped(hits, out, home, founder) && TextsKept(hits, out, home)
    ensures TextsKept(hits + [h], out + [h], home + [|out|])
  {
    hide Contains, IsText;
    var all, now, homes := hits + [h], out + [h], home + [|out|];
    forall j, t | 0 <= j < |now| && t in now[j].types
      ensures exists k :: 0 <= k < |all| && homes[k] == j && t in all[k].types
    {
      if j < |out| {
        assert t in out[j].types;
        var k :| 0 <= k < |hits| && home[k] == j && t in hits[k].types;
        assert homes[k] == j && all[k] == hits[k];
      } else {
        assert homes[|hits|] == j && all[|hits|] == h;
      }
    }
  }

  lemma NewLines(hits: seq<Hit>, out: seq<Hit>, home: seq<nat>, founder: seq<nat>, h: Hit)
    requires Grouped(hits, out, home, founder)
    requires Grouped(hits + [h], out + [h], home + [|out|], founder + [|hits|])
    requires LinesKept(hits, out, home) && EndsInherited(hits, out, home, founder)
    ensures LinesKept(hits + [h], out + [h], home + [|out|])
    ensures EndsInherited(hits + [h], out + [h], home + [|out|], founder + [|hits|])
  {
    hide HasLine, WellFormed;
    var all, now, homes := hits + [h], out + [h], home + [|out|];
    forall j, line | 0 <= j < |now| && HasLine(now[j], line)
      ensures exists k :: 0 <= k < |all| && homes[k] == j && HasLine(all[k], line)
    {
      if j < |out| {
        assert HasLine(out[j], line);
        var k :| 0 <= k < |hits| && home[k] == j && HasLine(hits[k], line);
        assert homes[k] == j && all[k] == hits[k];
      } else {
        assert homes[|hits|] == j && all[|hits|] == h;
      }
    }
  }

  lemma NewApart(hits: seq<Hit>, out: seq<Hit>, home: seq<nat>, founder: seq<nat>, h: Hit)
    requires Grouped(hits, out, home, founder)
    requires Grouped(hits + [h], out + [h], home + [|out|], founder + [|hits|])
    requires StartsInherited(hits, out, home, founder) && Apart(out) && InLineOrder(hits + [h])
    requires forall i :: 0 <= i < |out| ==> !Overlap(out[i], h)
    ensures StartsInherited(hits + [h], out + [h], home + [|out|], founder + [|hits|])
    ensures Apart(out + [h])
  {
    hide Overlap, WellFormed;
    assert (hits + [h])[|hits|] == h;
  }

  lemma NewHit(hits: seq<Hit>, out: seq<Hit>, home: seq<nat>, founder: seq<nat>, h: Hit)
    requires Coalesced(hits, out, home, founder)
    requires forall i :: 0 <= i < |out| ==> !Overlap(out[i], h)
    ensures Coalesced(hits + [h], out + [h], home + [|out|], founder + [|hits|])
  {
    hide Overlap, Merged, Grouped, Described, BestScores, TextsKept, LinesKept, EndsInherited, StartsInherited, Apart,
      NoneForgotten, InLineOrder;
    PrefixGuards(hits, h);
    NewGrouped(hits, out, home, founder, h);
    NewDescribed(hits, out, home, founder, h);
    NewScores(hits, out, home, founder, h);
    NewTexts(hits, out, home, founder, h);
    if NoneForgotten(hits + [h]) {
      NewLines(hits, out, home, founder, h);
    }
    if InLineOrder(hits + [h]) {
      NewApart(hits, out, home, founder, h);
    }
  }

  // ------------------------------------------------------------------
  // Coalescing
  // ------------------------------------------------------------------

  /** The first output that the hit touches, or none. */
  function FirstOverlap(out: seq<Hit>, h: Hit): (i: nat)
    ensures i <= |out| && (i < |out| ==> Overlap(out[i], h))
    ensures forall j :: 0 <= j < i ==> !Overlap(out[j], h)
  {
    if out == [] || Overlap(out[0], h) then 0 else 1 + FirstOverlap(out[1..], h)
  }

  function Placing(out: seq<Hit>, h: Hit): seq<Hit> {
    var i := FirstOverlap(out, h);
    if i < |out| then out[i := Merged(out[i], h)] else out + [h]
  }

  lemma PlacingAt(out: seq<Hit>, h: Hit, i: nat)
    requires i <= |out| && (i < |out| ==> Overlap(out[i], h))
    requires forall j :: 0 <= j < i ==> !Overlap(out[j], h)
    ensures Placing(out, h) == if i < |out| then out[i := Merged(out[i], h)] else out + [h]
  {
    hide Overlap, Merged;
  }

  function Coalesce(hits: seq<Hit>): seq<Hit> {
    if hits == [] then [] else Placing(Coalesce(hits[..|hits| - 1]), hits[|hits| - 1])
  }

  method CoalesceWorkspaceQueryResults(hits: seq<Hit>) returns (out: seq<Hit>)
    ensures out == Coalesce(hits)
  {
    hide Overlap, Merged;
    out := [];
    for k := 0 to |hits|
      invariant out == Coalesce(hits[..k])
    {
      assert hits[..k + 1][..k] == hits[..k];
      var result := hits[k];
      var merged := false;
      var i := 0;
      ghost var before := out;
      while i < |out| && !merged
        invariant i <= |out|
        invariant if merged then out == Placing(before, result) else out == before
        invariant !merged ==> forall j :: 0 <= j < i ==> !Overlap(out[j], result)
        decreases |out| - i, !merged
      {
        if Overlap(out[i], result) {
          var m := MergeWorkspaceQueryResults(out[i], result);
          PlacingAt(out, result, i);
          out, merged := out[i := m], true;
        } else {
          i := i + 1;
        }
      }
      if !merged {
        PlacingAt(out, result, |out|);
        out := out + [result];
      }
    }
    assert hits[..|hits|] == hits;
  }

  lemma NothingCoalesced(hits: seq<Hit>, home: seq<nat>)
    requires hits == [] && home == []
    ensures Coalesced(hits, hits, home, home)
  {
  }

  /** Whatever the hits: every hit has its output, which keeps what the hit says. */
  lemma {:induction false} CoalesceKeeps(hits: seq<Hit>) returns (home: seq<nat>, founder: seq<nat>)
    ensures Coalesced(hits, Coalesce(hits), home, founder)
  {
    hide Coalesced, Overlap, Merged;
    if hits == [] {
      NothingCoalesced(hits, []);
      return [], [];
    }
    var n := |hits| - 1;
    home, founder := CoalesceKeeps(hits[..n]);
    assert hits == hits[..n] + [hits[n]];
    var before := Coalesce(hits[..n]);
    var i := FirstOverlap(before, hits[n]);
    if i < |before| {
      JoinHit(hits[..n], before, home, founder, hits[n], i);
      home := home + [i];
    } else {
      NewHit(hits[..n], before, home, founder, hits[n]);
      home, founder := home + [|before|], founder + [n];
    }
  }

  /** A hit of a file has the line. */
  ghost predicate Covers(hits: seq<Hit>, path: string, line: int) {
    exists k :: 0 <= k < |hits| && hits[k].path == path && HasLine(hits[k], line)
  }

  ghost predicate SameCoverage(out: seq<Hit>, hits: seq<Hit>) {
    forall path, line :: Covers(out, path, line) <==> Covers(hits, path, line)
  }

  /** The lines covered, file by file, are the same before and after. */
  lemma CoverageIsKept(hits: seq<Hit>)
    requires NoneForgotten(hits)
    ensures SameCoverage(Coalesce(hits), hits)
  {
    var home, founder := CoalesceKeeps(hits);
    var out := Coalesce(hits);
    hide HasLine, BestScores, TextsKept, NoneForgotten, EndsInherited, Coalesce;
    forall path, line
      ensures Covers(out, path, line) <==> Covers(hits, path, line)
    {
      if Covers(out, path, line) {
        var i :| 0 <= i < |out| && out[i].path == path && HasLine(out[i], line);
        var k :| 0 <= k < |hits| && home[k] == i && HasLine(hits[k], line);
        assert hits[k].path == path;
      }
      if Covers(hits, path, line) {
        var k :| 0 <= k < |hits| && hits[k].path == path && HasLine(hits[k], line);
        assert HasLine(out[home[k]], line) && out[home[k]].path == path;
      }
    }
  }

  /** The lines that joining `b` to `a` forgets, if it forgets any. */
  predicate IsForgotten(a: Hit, b: Hit, line: int) {
    Forgets(a, b) && b.startLine < line <= a.startLine && a.endLine < line
  }

  /** Every line that placing the hit forgets, another output has. */
  ghost predicate NothingLost(out: seq<Hit>, h: Hit) {
    var i := FirstOverlap(out, h);
    i < |out| ==> forall line :: IsForgotten(out[i], h, line) ==>
      exists j :: 0 <= j < |out| && j != i && out[j].path == h.path && HasLine(out[j], line)
  }

  /** What a joined hit covers: the lines of both, but for the forgotten ones. */
  lemma JoinedLines(a: Hit, b: Hit, line: int)
    requires Overlap(a, b)
    ensures HasLine(Merged(a, b), line) <==> (HasLine(a, line) || HasLine(b, line)) && !IsForgotten(a, b, line)
    ensures IsForgotten(a, b, line) ==> HasLine(a, line) || HasLine(b, line)
  {
  }

  /** One more hit keeps the covered lines exactly if every line it makes forgotten is also elsewhere. */
  lemma PlacingKeepsCoverage(out: seq<Hit>, h: Hit)
    ensures SameCoverage(Placing(out, h), out + [h]) <==> NothingLost(out, h)
  {
    var i, now, all := FirstOverlap(out, h), Placing(out, h), out + [h];
    hide HasLine, Merged, IsForgotten, Overlap;
    if i == |out| {
      assert now == all;
    } else {
      forall path, line
        ensures Covers(now, path, line) <==>
                Covers(all, path, line) && !(path == h.path && IsForgotten(out[i], h, line) && !CoveredElsewhere(out, i, path, line))
      {
        PlacingCovers(out, h, i, path, line);
      }
      if SameCoverage(now, all) {
        forall line | IsForgotten(out[i], h, line)
          ensures CoveredElsewhere(out, i, h.path, line)
        {
          JoinedLines(out[i], h, line);
          OverlapSharesPath(out[i], h);
          assert Covers(all, h.path, line) by {
            assert all[i] == out[i] && all[|out|] == h;
          }
          assert Covers(now, h.path, line);
        }
      }
    }
  }

  lemma OverlapSharesPath(a: Hit, b: Hit)
    requires Overlap(a, b)
    ensures a.path == b.path && Merged(a, b).path == a.path
  {
  }

  ghost predicate CoveredElsewhere(out: seq<Hit>, i: nat, path: string, line: int) {
    exists j :: 0 <= j < |out| && j != i && out[j].path == path && HasLine(out[j], line)
  }

  lemma PlacingCovers(out: seq<Hit>, h: Hit, i: nat, path: string, line: int)
    requires i < |out| && Overlap(out[i], h)
    ensures Covers(out[i := Merged(out[i], h)], path, line) <==>
              Covers(out + [h], path, line) &&
              !(path == h.path && IsForgotten(out[i], h, line) && !CoveredElsewhere(out, i, path, line))
  {
    JoinedLines(out[i], h, line);
    OverlapSharesPath(out[i], h);
    hide HasLine, Merged, IsForgotten, Overlap;
    CoversSplit(out[i := Merged(out[i], h)], i, path, line);
    CoversSplit(out + [h], i, path, line);
    var now, all := out[i := Merged(out[i], h)], out + [h];
    assert CoveredElsewhere(now, i, path, line) <==> CoveredElsewhere(out, i, path, line) by {
      SameElsewhere(out, now, i, path, line);
      SameElsewhere(now, out, i, path, line);
    }
    ElsewhereOrLast(out, h, i, path, line);
  }

  lemma CoversSplit(hits: seq<Hit>, i: nat, path: string, line: int)
    requires i < |hits|
    ensures Covers(hits, path, line) <==> (hits[i].path == path && HasLine(hits[i], line)) || CoveredElsewhere(hits, i, path, line)
  {
    hide HasLine;
  }

  lemma SameElsewhere(a: seq<Hit>, b: seq<Hit>, i: nat, path: string, line: int)
    requires |a| == |b| && forall j :: 0 <= j < |a| && j != i ==> a[j] == b[j]
    ensures CoveredElsewhere(a, i, path, line) ==> CoveredElsewhere(b, i, path, line)
  {
    hide HasLine;
    if j :| 0 <= j < |a| && j != i && a[j].path == path && HasLine(a[j], line) {
      assert b[j] == a[j];
    }
  }

  lemma ElsewhereOrLast(out: seq<Hit>, h: Hit, i: nat, path: string, line: int)
    requires i < |out|
    ensures CoveredElsewhere(out + [h], i, path, line) <==>
              CoveredElsewhere(out, i, path, line) || (h.path == path && HasLine(h, line))
  {
    hide HasLine;
    var all := out + [h];
    if j :| 0 <= j < |out| && j != i && out[j].path == path && HasLine(out[j], line) {
      assert all[j] == out[j];
    }
    assert all[|out|] == h;
  }

  lemma CoversOneMore(a: seq<Hit>, b: seq<Hit>, h: Hit)
    requires SameCoverage(a, b)
    ensures SameCoverage(a + [h], b + [h])
  {
    hide HasLine;
    forall path, line
      ensures Covers(a + [h], path, line) <==> Covers(b + [h], path, line)
    {
      CoversLast(a, h, path, line);
      CoversLast(b, h, path, line);
    }
  }

  lemma CoversLast(hits: seq<Hit>, h: Hit, path: string, line: int)
    ensures Covers(hits + [h], path, line) <==> Covers(hits, path, line) || (h.path == path && HasLine(h, line))
  {
    hide HasLine;
    var all := hits + [h];
    assert all[|hits|] == h;
    if k :| 0 <= k < |hits| && hits[k].path == path && HasLine(hits[k], line) {
      assert all[k] == hits[k];
    }
  }

  /** The first `n` hits are covered as they should be. */
  ghost predicate CoveredAt(hits: seq<Hit>, n: nat)
    requires n <= |hits|
  {
    SameCoverage(Coalesce(hits[..n]), hits[..n])
  }

  /** Hit `n`, in its turn, loses no line. */
  ghost predicate LosesNothingAt(hits: seq<Hit>, n: nat)
    requires n < |hits|
  {
    NothingLost(Coalesce(hits[..n]), hits[n])
  }

  lemma {:induction false} CoveredUpTo(hits: seq<Hit>, n: nat)
    requires n <= |hits| && forall k :: 0 <= k < n ==> LosesNothingAt(hits, k)
    ensures CoveredAt(hits, n)
  {
    if n == 0 {
      assert hits[..0] == [];
    } else {
      CoveredUpTo(hits, n - 1);
      CoverageStep(hits, n - 1);
    }
  }

  /** For a list of any hits, the covered lines are kept throughout exactly if no hit, in its turn, loses one. */
  lemma CoverageThroughout(hits: seq<Hit>)
    ensures (forall n :: 0 <= n <= |hits| ==> CoveredAt(hits, n)) <==> (forall n :: 0 <= n < |hits| ==> LosesNothingAt(hits, n))
  {
    hide CoveredAt, LosesNothingAt;
    if forall n :: 0 <= n < |hits| ==> LosesNothingAt(hits, n) {
      forall n | 0 <= n <= |hits|
        ensures CoveredAt(hits, n)
      {
        CoveredUpTo(hits, n);
      }
    } else {
      var n :| 0 <= n < |hits| && !LosesNothingAt(hits, n);
      var behind := n + 1;
      if CoveredAt(hits, n) {
        CoverageStep(hits, n);
        assert !CoveredAt(hits, behind);
      }
    }
  }

  lemma CoverageStep(hits: seq<Hit>, n: nat)
    requires n < |hits| && CoveredAt(hits, n)
    ensures CoveredAt(hits, n + 1) <==> LosesNothingAt(hits, n)
  {
    var front, h := hits[..n], hits[n];
    var out := Coalesce(front);
    assert hits[..n + 1] == front + [h] && (front + [h])[..n] == front;
    PlacingKeepsCoverage(out, h);
    CoversOneMore(out, front, h);
    hide NothingLost, Placing, Covers;
  }

  /** For a pair of hits the condition is exact: whenever it fails, a line is lost. */
  lemma CoverageOfAPair(a: Hit, b: Hit)
    ensures SameCoverage(Coalesce([a, b]), [a, b]) <==> NoneForgotten([a, b])
  {
    var pair := [a, b];
    if NoneForgotten(pair) {
      CoverageIsKept(pair);
    } else {
      assert Overlap(pair[0], pair[1]) && Forgets(pair[0], pair[1]);
      assert pair[..1] == [a] && Coalesce([a]) == [a];
      var m := Merged(a, b);
      assert Coalesce(pair) == [m];
      MergedLines(a, b);
      assert HasLine(pair[0], a.startLine);
      assert Covers(pair, a.path, a.startLine) && !Covers([m], a.path, a.startLine);
    }
  }

  /** The hit closes a gap: it touches two outputs, but joins only the first of them. */
  ghost predicate Bridges(out: seq<Hit>, h: Hit) {
    exists i, j :: 0 <= i < j < |out| && Overlap(out[i], h) && Overlap(out[j], h)
  }

  /** A joined hit reaches from the first line of the two to the last. */
  lemma MergedRange(a: Hit, b: Hit)
    requires Overlap(a, b) && !Forgets(a, b)
    ensures var m := Merged(a, b);
            && m.path == a.path && Placed(m)
            && m.startLine == (if b.startLine < a.startLine then b.startLine else a.startLine)
            && LastLine(m) == (if LastLine(b) > LastLine(a) then LastLine(b) else LastLine(a))
  {
  }

  /** What is apart from an output touches its joined form exactly if it touches the hit that joined. */
  lemma TouchesTheJoined(a: Hit, h: Hit, other: Hit)
    requires Overlap(a, h) && !Forgets(a, h) && !Overlap(a, other)
    ensures Overlap(other, Merged(a, h)) <==> Overlap(other, h)
    ensures Overlap(Merged(a, h), other) <==> Overlap(other, h)
  {
    MergedRange(a, h);
    hide Merged;
  }

  /** Two outputs, in whatever order, touch. */
  ghost predicate Touch(out: seq<Hit>, i: nat, j: nat) {
    i < |out| && j < |out| && i != j && Overlap(out[i], out[j])
  }

  lemma TouchIsNotApart(out: seq<Hit>, i: nat, j: nat)
    requires Touch(out, i, j)
    ensures !Apart(out)
  {
    OverlapIsSymmetric(out[i], out[j]);
    hide Overlap;
    assert if i < j then Overlap(out[i], out[j]) else Overlap(out[j], out[i]);
  }

  lemma TwoTouchedAreBridged(out: seq<Hit>, h: Hit, i: nat, j: nat)
    requires i < |out| && j < |out| && i != j && Overlap(out[i], h) && Overlap(out[j], h)
    ensures Bridges(out, h)
  {
    hide Overlap;
    if i < j {
      assert Overlap(out[i], h) && Overlap(out[j], h);
    } else {
      assert Overlap(out[j], h) && Overlap(out[i], h);
    }
  }

  /** What the joined output touches is what the hit touched. */
  lemma JoinedTouches(out: seq<Hit>, h: Hit, i: nat, j: nat)
    requires Apart(out) && i < |out| && j < |out| && i != j && Overlap(out[i], h) && !Forgets(out[i], h)
    ensures var now := out[i := Merged(out[i], h)];
            (Touch(now, i, j) <==> Overlap(out[j], h)) && (Touch(now, j, i) <==> Overlap(out[j], h))
  {
    if Overlap(out[i], out[j]) {
      TouchIsNotApart(out, i, j);
    }
    TouchesTheJoined(out[i], h, out[j]);
    hide Overlap, Merged, Forgets;
  }

  /** One more hit leaves the outputs apart exactly if it does not touch two of them. */
  lemma PlacingKeepsApart(out: seq<Hit>, h: Hit)
    requires Apart(out)
    requires var i := FirstOverlap(out, h); i < |out| ==> !Forgets(out[i], h)
    ensures Apart(Placing(out, h)) <==> !Bridges(out, h)
  {
    hide Merged, Forgets, Overlap;
    var i := FirstOverlap(out, h);
    if i < |out| {
      if Bridges(out, h) {
        var p, q :| 0 <= p < q < |out| && Overlap(out[p], h) && Overlap(out[q], h);
        var j := if p == i then q else p;
        JoinedTouches(out, h, i, j);
        TouchIsNotApart(Placing(out, h), i, j);
      }
      JoiningKeepsApart(out, h, i);
    }
  }

  lemma JoiningKeepsApart(out: seq<Hit>, h: Hit, i: nat)
    requires Apart(out) && i < |out| && Overlap(out[i], h) && !Forgets(out[i], h)
    ensures !Bridges(out, h) ==> Apart(out[i := Merged(out[i], h)])
  {
    hide Merged, Forgets, Overlap;
    var now := out[i := Merged(out[i], h)];
    forall p, q | 0 <= p < q < |now| && !Bridges(out, h)
      ensures !Overlap(now[p], now[q])
    {
      if p != i && q != i {
        assert !Overlap(out[p], out[q]);
      } else {
        var j := if p == i then q else p;
        JoinedTouches(out, h, i, j);
        if Overlap(out[j], h) {
          TwoTouchedAreBridged(out, h, i, j);
        }
      }
    }
    hide Bridges;
  }

  lemma OverlapIsSymmetric(a: Hit, b: Hit)
    ensures Overlap(a, b) <==> Overlap(b, a)
  {
  }

  /** Outputs that touch go on touching. */
  lemma TouchingStays(out: seq<Hit>, h: Hit)
    requires !Apart(out)
    requires var i := FirstOverlap(out, h); i < |out| ==> !Forgets(out[i], h)
    ensures !Apart(Placing(out, h))
  {
    var i, now := FirstOverlap(out, h), Placing(out, h);
    var p, q :| 0 <= p < q < |out| && Overlap(out[p], out[q]);
    if i < |out| {
      MergedRange(out[i], h);
    }
    hide Merged, Forgets;
    assert Overlap(now[p], now[q]);
  }

  lemma FirstOverlapForgetsNothing(hits: seq<Hit>, h: Hit)
    requires NoneForgotten(hits + [h])
    ensures var out := Coalesce(hits); var i := FirstOverlap(out, h); i < |out| ==> !Forgets(out[i], h)
  {
    var home, founder := CoalesceKeeps(hits);
    var out := Coalesce(hits);
    var i := FirstOverlap(out, h);
    PrefixGuards(hits, h);
    hide Forgets, LinesKept, BestScores, TextsKept, Apart, StartsInherited, InLineOrder, Coalesce, NoneForgotten;
    if i < |out| {
      JoinForgetsNothing(hits, out, home, founder, h, i);
    }
  }

  /** In the hit's file, line `line` is free between two covered ones, both in the hit's reach. */
  ghost predicate FreeBetween(hits: seq<Hit>, h: Hit, first: int, line: int, last: int) {
    && h.startLine - 1 <= first < line < last <= LastLine(h) + 1
    && Covers(hits, h.path, first) && !Covers(hits, h.path, line) && Covers(hits, h.path, last)
  }

  /** The hit reaches across lines that no hit before it has. */
  ghost predicate ClosesGap(hits: seq<Hit>, h: Hit) {
    Placed(h) && exists first, line, last :: FreeBetween(hits, h, first, line, last)
  }

  lemma CoversBy(hits: seq<Hit>, k: nat, line: int)
    requires k < |hits| && HasLine(hits[k], line)
    ensures Covers(hits, hits[k].path, line)
  {
  }

  /** Two outputs that are apart leave a line free between them, which no third one has. */
  lemma FreeLineBetween(out: seq<Hit>, h: Hit, i: nat, j: nat)
    requires Apart(out) && i < |out| && j < |out| && Overlap(out[i], h) && Overlap(out[j], h)
    requires LastLine(out[i]) + 1 < out[j].startLine
    ensures ClosesGap(out, h)
  {
    var line := LastLine(out[i]) + 1;
    CoversBy(out, i, LastLine(out[i]));
    CoversBy(out, j, out[j].startLine);
    forall k | 0 <= k < |out| && out[k].path == h.path
      ensures !HasLine(out[k], line)
    {
      if HasLine(out[k], line) {
        assert Overlap(out[i], out[k]);
        TouchIsNotApart(out, i, k);
      }
    }
    assert FreeBetween(out, h, LastLine(out[i]), line, out[j].startLine);
  }

  /** Among outputs that are apart, a hit bridges two of them exactly if it closes a gap. */
  lemma BridgesMeansClosesGap(out: seq<Hit>, h: Hit)
    requires Apart(out)
    ensures Bridges(out, h) <==> ClosesGap(out, h)
  {
    if Bridges(out, h) {
      var i, j :| 0 <= i < j < |out| && Overlap(out[i], h) && Overlap(out[j], h);
      assert !Overlap(out[i], out[j]);
      if LastLine(out[i]) + 1 < out[j].startLine {
        FreeLineBetween(out, h, i, j);
      } else {
        FreeLineBetween(out, h, j, i);
      }
    }
    if ClosesGap(out, h) {
      var first, line, last :| FreeBetween(out, h, first, line, last);
      var i :| 0 <= i < |out| && out[i].path == h.path && HasLine(out[i], first);
      var j :| 0 <= j < |out| && out[j].path == h.path && HasLine(out[j], last);
      assert !HasLine(out[i], line);
      TwoTouchedAreBridged(out, h, i, j);
    }
  }

  lemma ClosesGapByCoverage(a: seq<Hit>, b: seq<Hit>, h: Hit)
    requires SameCoverage(a, b)
    ensures ClosesGap(a, h) <==> ClosesGap(b, h)
  {
    hide Covers, Placed, LastLine;
    if first, line, last :| FreeBetween(a, h, first, line, last) {
      assert FreeBetween(b, h, first, line, last);
    }
    if first, line, last :| FreeBetween(b, h, first, line, last) {
      assert FreeBetween(a, h, first, line, last);
    }
  }

  /** No hit, when its turn comes, closes a gap between the lines of those before it. */
  ghost predicate GapsStayOpen(hits: seq<Hit>) {
    forall n :: 0 <= n < |hits| ==> !ClosesGap(hits[..n], hits[n])
  }

  lemma GapsStayOpenStep(hits: seq<Hit>, h: Hit)
    ensures GapsStayOpen(hits + [h]) <==> GapsStayOpen(hits) && !ClosesGap(hits, h)
  {
    hide ClosesGap;
    var all := hits + [h];
    assert all[..|hits|] == hits && all[|hits|] == h;
    assert forall n :: 0 <= n < |hits| ==> all[..n] == hits[..n] && all[n] == hits[n];
    if GapsStayOpen(all) {
      assert !ClosesGap(all[..|hits|], all[|hits|]);
      forall n | 0 <= n < |hits|
        ensures !ClosesGap(hits[..n], hits[n])
      {
        assert !ClosesGap(all[..n], all[n]);
      }
    }
  }

  /**
   The outputs of a list come out apart exactly if no hit closes a gap between the lines of the
   hits before it: if none has, in reach of it, a free line between two lines they cover.
   */
  lemma {:induction false} OutputsComeOutApart(hits: seq<Hit>)
    requires NoneForgotten(hits)
    ensures Apart(Coalesce(hits)) <==> GapsStayOpen(hits)
  {
    if hits != [] {
      var front, last := hits[..|hits| - 1], hits[|hits| - 1];
      assert hits == front + [last];
      PrefixGuards(front, last);
      FirstOverlapForgetsNothing(front, last);
      OutputsComeOutApart(front);
      GapsStayOpenStep(front, last);
      CoverageIsKept(front);
      ClosesGapByCoverage(Coalesce(front), front, last);
      hide NoneForgotten, GapsStayOpen, ClosesGap, Bridges, Placing, Apart, SameCoverage;
      if Apart(Coalesce(front)) {
        BridgesMeansClosesGap(Coalesce(front), last);
        PlacingKeepsApart(Coalesce(front), last);
      } else {
        TouchingStays(Coalesce(front), last);
      }
    }
  }

  /** Hits in the order of their lines come out apart from each other. */
  lemma HitsInOrderComeOutApart(hits: seq<Hit>)
    requires InLineOrder(hits)
    ensures Apart(Coalesce(hits))
  {
    var home, founder := CoalesceKeeps(hits);
  }

  /** In another order outputs may touch: a later hit closes the gap between two of them. */
  lemma OutputsMayTouch(path: string, chunk: string, score: real, snippet: string, types: seq<string>)
    requires path != ""
    ensures var hit := (first, last) => Hit(path, chunk, first, last, score, snippet, types);
            !Apart(Coalesce([hit(1, 2), hit(5, 6), hit(3, 4)]))
  {
    var a, b, c := Hit(path, chunk, 1, 2, score, snippet, types), Hit(path, chunk, 5, 6, score, snippet, types),
      Hit(path, chunk, 3, 4, score, snippet, types);
    var two, three := [a, b], [a, b, c];
    assert two[..1] == [a] && three[..2] == two;
    assert Coalesce([a]) == [a];
    assert Coalesce(two) == [a, b];
    assert Coalesce(three) == [Merged(a, c), b];
    assert Overlap(Coalesce(three)[0], Coalesce(three)[1]);
  }

  lemma WellFormedHitsForgetNothing(hits: seq<Hit>)
    requires forall k :: 0 <= k < |hits| ==> WellFormed(hits[k])
    ensures NoneForgotten(hits)
  {
  }

  lemma WellFormedHitsStayWellFormed(hits: seq<Hit>)
    requires forall k :: 0 <= k < |hits| ==> WellFormed(hits[k])
    ensures forall i :: 0 <= i < |Coalesce(hits)| ==> WellFormed(Coalesce(hits)[i])
  {
    var home, founder := CoalesceKeeps(hits);
    var out := Coalesce(hits);
    WellFormedHitsForgetNothing(hits);
    forall i | 0 <= i < |out|
      ensures WellFormed(out[i])
    {
      var first := hits[founder[i]];
      assert WellFormed(first);
    }
  }

  // ------------------------------------------------------------------
  // One hit for each file
  // ------------------------------------------------------------------

  /** `best[i]` is where output `i` comes from, `founder[i]` the first hit of its file. */
  ghost predicate OnePerFile(hits: seq<Hit>, key: string -> string, out: seq<Hit>, best: seq<nat>, founder: seq<nat>) {
    && |best| == |founder| == |out|
    && (forall i :: 0 <= i < |out| ==> founder[i] <= best[i] < |hits| && out[i] == hits[best[i]])
    && (forall i :: 0 <= i < |out| ==> key(hits[founder[i]].path) == key(out[i].path))
    && (forall i, j :: 0 <= i < j < |out| ==> founder[i] < founder[j])
  }

  /** The hit has the file's highest score, and is the first one with it. */
  ghost predicate IsBest(hits: seq<Hit>, key: string -> string, b: nat, first: nat)
    requires b < |hits|
  {
    forall k :: 0 <= k < |hits| && key(hits[k].path) == key(hits[b].path) ==>
      first <= k && hits[k].score <= hits[b].score && (k < b ==> hits[k].score < hits[b].score)
  }

  ghost predicate AllBest(hits: seq<Hit>, key: string -> string, best: seq<nat>, founder: seq<nat>)
    requires |best| == |founder| && forall i :: 0 <= i < |best| ==> best[i] < |hits|
  {
    forall i :: 0 <= i < |best| ==> IsBest(hits, key, best[i], founder[i])
  }

  /** The keys seen so far and where their hits are. */
  ghost predicate Indexed(hits: seq<Hit>, key: string -> string, out: seq<Hit>, positions: map<string, nat>) {
    && (forall i :: 0 <= i < |out| ==> key(out[i].path) in positions && positions[key(out[i].path)] == i)
    && (forall p :: p in positions ==> positions[p] < |out| && key(out[positions[p]].path) == p)
    && (forall k :: 0 <= k < |hits| ==> key(hits[k].path) in positions)
  }

  lemma BestOfOneMore(hits: seq<Hit>, key: string -> string, b: nat, first: nat, h: Hit)
    requires b < |hits| && IsBest(hits, key, b, first) && first <= |hits|
    requires key(h.path) == key(hits[b].path) ==> h.score <= hits[b].score
    ensures IsBest(hits + [h], key, b, first)
  {
  }

  lemma BetterThanBest(hits: seq<Hit>, key: string -> string, b: nat, first: nat, h: Hit)
    requires b < |hits| && IsBest(hits, key, b, first) && first <= |hits|
    requires key(h.path) == key(hits[b].path) && h.score > hits[b].score
    ensures IsBest(hits + [h], key, |hits|, first)
  {
    assert (hits + [h])[|hits|] == h;
  }

  lemma FirstIsBest(hits: seq<Hit>, key: string -> string, h: Hit)
    requires forall k :: 0 <= k < |hits| ==> key(hits[k].path) != key(h.path)
    ensures IsBest(hits + [h], key, |hits|, |hits|)
  {
    assert (hits + [h])[|hits|] == h;
  }

  lemma OthersStayBest(hits: seq<Hit>, key: string -> string, out: seq<Hit>, best: seq<nat>, founder: seq<nat>, h: Hit, i: nat)
    requires OnePerFile(hits, key, out, best, founder) && AllBest(hits, key, best, founder)
    requires forall j :: 0 <= j < |out| && key(out[j].path) == key(h.path) ==> j == i
    ensures forall j :: 0 <= j < |best| && j != i ==> IsBest(hits + [h], key, best[j], founder[j])
  {
    hide IsBest;
    forall j | 0 <= j < |best| && j != i
      ensures IsBest(hits + [h], key, best[j], founder[j])
    {
      assert out[j] == hits[best[j]];
      BestOfOneMore(hits, key, best[j], founder[j], h);
    }
  }

  ghost predicate HasFile(out: seq<Hit>, key: string -> string, path: string) {
    exists i :: 0 <= i < |out| && key(out[i].path) == key(path)
  }

  /** Where the listing stands after some hits. */
  ghost predicate Listing(hits: seq<Hit>, key: string -> string, out: seq<Hit>, best: seq<nat>, founder: seq<nat>,
    positions: map<string, nat>)
  {
    && OnePerFile(hits, key, out, best, founder) && AllBest(hits, key, best, founder)
    && Indexed(hits, key, out, positions)
  }

  lemma HitIsNoBetter(hits: seq<Hit>, key: string -> string, out: seq<Hit>, best: seq<nat>, founder: seq<nat>,
    positions: map<string, nat>, h: Hit)
    requires Listing(hits, key, out, best, founder, positions)
    requires key(h.path) in positions && positions[key(h.path)] < |out| && h.score <= out[positions[key(h.path)]].score
    ensures Listing(hits + [h], key, out, best, founder, positions)
  {
    hide IsBest;
    var i := positions[key(h.path)];
    OthersStayBest(hits, key, out, best, founder, h, i);
    BestOfOneMore(hits, key, best[i], founder[i], h);
  }

  lemma HitIsBetter(hits: seq<Hit>, key: string -> string, out: seq<Hit>, best: seq<nat>, founder: seq<nat>,
    positions: map<string, nat>, h: Hit)
    requires Listing(hits, key, out, best, founder, positions)
    requires key(h.path) in positions && positions[key(h.path)] < |out| && h.score > out[positions[key(h.path)]].score
    ensures var i := positions[key(h.path)];
            Listing(hits + [h], key, out[i := h], best[i := |hits|], founder, positions)
  {
    hide IsBest;
    var i := positions[key(h.path)];
    OthersStayBest(hits, key, out, best, founder, h, i);
    BetterThanBest(hits, key, best[i], founder[i], h);
    assert Indexed(hits + [h], key, out[i := h], positions);
  }

  lemma HitIsOfNewFile(hits: seq<Hit>, key: string -> string, out: seq<Hit>, best: seq<nat>, founder: seq<nat>,
    positions: map<string, nat>, h: Hit)
    requires Listing(hits, key, out, best, founder, positions)
    requires key(h.path) !in positions
    ensures Listing(hits + [h], key, out + [h], best + [|hits|], founder + [|hits|], positions[key(h.path) := |out|])
  {
    hide IsBest;
    OthersStayBest(hits, key, out, best, founder, h, |out|);
    FirstIsBest(hits, key, h);
    assert Indexed(hits + [h], key, out + [h], positions[key(h.path) := |out|]);
  }

  /** One output a file, in the order in which the files first appear. */
  method WorkspaceQueryFileResults(hits: seq<Hit>, key: string -> string)
    returns (out: seq<Hit>, ghost best: seq<nat>, ghost founder: seq<nat>)
    ensures OnePerFile(hits, key, out, best, founder) && AllBest(hits, key, best, founder)
    ensures forall k :: 0 <= k < |hits| ==> HasFile(out, key, hits[k].path)
  {
    out, best, founder := [], [], [];
    var positions: map<string, nat> := map[];
    hide Listing;
    assert Listing([], key, out, best, founder, positions) by {
      NothingListed(key);
    }
    for k := 0 to |hits|
      invariant Listing(hits[..k], key, out, best, founder, positions)
    {
      assert hits[..k + 1] == hits[..k] + [hits[k]];
      PositionsAreOutputs(hits[..k], key, out, best, founder, positions);
      var pathKey := key(hits[k].path);
      if pathKey in positions {
        var index := positions[pathKey];
        if hits[k].score > out[index].score {
          HitIsBetter(hits[..k], key, out, best, founder, positions, hits[k]);
          out, best := out[index := hits[k]], best[index := k];
        } else {
          HitIsNoBetter(hits[..k], key, out, best, founder, positions, hits[k]);
        }
        continue;
      }
      HitIsOfNewFile(hits[..k], key, out, best, founder, positions, hits[k]);
      positions := positions[pathKey := |out|];
      out, best, founder := out + [hits[k]], best + [k], founder + [k];
    }
    assert hits[..|hits|] == hits;
    PositionsAreOutputs(hits, key, out, best, founder, positions);
  }

  lemma NothingListed(key: string -> string)
    ensures Listing([], key, [], [], [], map[])
  {
  }

  lemma PositionsAreOutputs(hits: seq<Hit>, key: string -> string, out: seq<Hit>, best: seq<nat>, founder: seq<nat>,
    positions: map<string, nat>)
    requires Listing(hits, key, out, best, founder, positions)
    ensures |best| == |founder| == |out|
    ensures OnePerFile(hits, key, out, best, founder) && AllBest(hits, key, best, founder)
    ensures forall p :: p in positions ==> positions[p] < |out|
    ensures forall k :: 0 <= k < |hits| ==> HasFile(out, key, hits[k].path)
  {
    forall k | 0 <= k < |hits|
      ensures HasFile(out, key, hits[k].path)
    {
      var i := positions[key(hits[k].path)];
      assert key(out[i].path) == key(hits[k].path);
    }
  }

  /** The listing of coalesced hits shows for each file the highest score of all its original hits. */
  lemma FileScoreIsHighest(hits: seq<Hit>, key: string -> string, out: seq<Hit>, best: seq<nat>, founder: seq<nat>, i: nat)
    requires OnePerFile(Coalesce(hits), key, out, best, founder) && AllBest(Coalesce(hits), key, best, founder)
    requires i < |out|
    ensures forall k :: 0 <= k < |hits| && key(hits[k].path) == key(out[i].path) ==> hits[k].score <= out[i].score
    ensures exists k :: 0 <= k < |hits| && key(hits[k].path) == key(out[i].path) && hits[k].score == out[i].score
  {
    var joined := Coalesce(hits);
    var home, first := CoalesceKeeps(hits);
    assert IsBest(joined, key, best[i], founder[i]) && out[i] == joined[best[i]];
    hide Coalesce, TextsKept, LinesKept, EndsInherited, StartsInherited, Apart, NoneForgotten, InLineOrder, Placed, OnePerFile, AllBest;
    forall k | 0 <= k < |hits| && key(hits[k].path) == key(out[i].path)
      ensures hits[k].score <= out[i].score
    {
      assert joined[home[k]].path == hits[k].path && hits[k].score <= joined[home[k]].score;
    }
    assert Attained(hits, home, best[i], out[i].score);
    var k :| 0 <= k < |hits| && home[k] == best[i] && hits[k].score == out[i].score;
    assert joined[home[k]].path == hits[k].path;
  }
}
