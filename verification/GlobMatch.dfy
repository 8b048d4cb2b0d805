/**
 The grep glob: an index-juggling matcher that remembers only the last star, proved
 against the language its pattern denotes, and the escaping that turns arbitrary text
 into a pattern for "contains this text".
 */
module GlobMatch {
  import opened ByteStrings

  const STAR: byte := 42
  const ANY: byte := 63
  const OPEN: byte := 91
  const CLOSE: byte := 93
  const BACKSLASH: byte := 92
  const DASH: byte := 45
  const BANG: byte := 33
  const CARET: byte := 94

  // ------------------------------------------------------------------
  // What a pattern means
  // ------------------------------------------------------------------

  datatype Range = Range(lo: byte, hi: byte)

  /** `Never` is an unterminated class or a trailing backslash: it accepts no byte. */
  datatype Token =
    | Star
    | AnyByte
    | Literal(b: byte)
    | Class(negate: bool, ranges: seq<Range>)
    | Never

  datatype Item = Item(range: Range, next: nat)
  datatype Members = Unterminated | Members(ranges: seq<Range>, next: nat)
  datatype Parsed = Parsed(token: Token, next: nat)

  predicate InRanges(ranges: seq<Range>, ch: byte) {
    exists r | r in ranges :: r.lo <= ch <= r.hi
  }

  predicate Accepts(token: Token, ch: byte) {
    match token
    case Star => false
    case AnyByte => true
    case Literal(b) => b == ch
    case Class(negate, ranges) => negate != InRanges(ranges, ch)
    case Never => false
  }

  /** The index of the byte that a possibly escaped class character at `i` stands for. */
  function Unescaped(p: Bytes, i: nat): (j: nat)
    requires i < |p|
    ensures i <= j < |p|
  {
    if p[i] == BACKSLASH && i + 1 < |p| then i + 1 else i
  }

  /** One class member, `c` or `c-d`; a range may be written in either order. */
  function ItemAt(p: Bytes, i: nat): (item: Item)
    requires i < |p|
    ensures i < item.next <= |p|
  {
    var c, next := p[Unescaped(p, i)], Unescaped(p, i) + 1;
    if next + 1 < |p| && p[next] == DASH && p[next + 1] != CLOSE then
      var d, last := p[Unescaped(p, next + 1)], Unescaped(p, next + 1);
      Item(if c > d then Range(d, c) else Range(c, d), last + 1)
    else
      Item(Range(c, c), next)
  }

  /** The members of a class up to its closing bracket; a bracket that comes first is a member. */
  function MembersAt(p: Bytes, i: nat, first: bool): (m: Members)
    requires i <= |p|
    ensures m.Members? ==> i < m.next <= |p|
    decreases |p| - i
  {
    if i == |p| then Unterminated
    else if p[i] == CLOSE && !first then Members([], i + 1)
    else
      var item := ItemAt(p, i);
      match MembersAt(p, item.next, false)
      case Unterminated => Unterminated
      case Members(ranges, next) => Members([item.range] + ranges, next)
  }

  predicate Negated(p: Bytes, i: nat) {
    i < |p| && (p[i] == BANG || p[i] == CARET)
  }

  function TokenAt(p: Bytes, i: nat): (t: Parsed)
    requires i < |p|
    ensures i < t.next <= |p|
  {
    if p[i] == STAR then Parsed(Star, i + 1)
    else if p[i] == ANY then Parsed(AnyByte, i + 1)
    else if p[i] == OPEN then
      var negate := Negated(p, i + 1);
      match MembersAt(p, if negate then i + 2 else i + 1, true)
      case Unterminated => Parsed(Never, |p|)
      case Members(ranges, next) => Parsed(Class(negate, ranges), next)
    else if p[i] == BACKSLASH then
      if i + 1 < |p| then Parsed(Literal(p[i + 1]), i + 2) else Parsed(Never, i + 1)
    else Parsed(Literal(p[i]), i + 1)
  }

  function Parse(p: Bytes, i: nat): seq<Token>
    requires i <= |p|
    decreases |p| - i
  {
    if i == |p| then [] else var t := TokenAt(p, i); [t.token] + Parse(p, t.next)
  }

  /** The language of a token list: a star stands for any run of bytes. */
  ghost predicate Denotes(tokens: seq<Token>, s: Bytes) {
    if tokens == [] then s == []
    else if tokens[0].Star? then exists k :: 0 <= k <= |s| && Denotes(tokens[1..], s[k..])
    else s != [] && Accepts(tokens[0], s[0]) && Denotes(tokens[1..], s[1..])
  }

  ghost predicate Matches(p: Bytes, s: Bytes) {
    Denotes(Parse(p, 0), s)
  }

  // ------------------------------------------------------------------
  // The class matcher
  // ------------------------------------------------------------------

  /** The members found from `px` on, behind those already scanned. */
  function After(done: seq<Range>, p: Bytes, px: nat, first: bool): Members
    requires px <= |p|
  {
    match MembersAt(p, px, first)
    case Unterminated => Unterminated
    case Members(ranges, next) => Members(done + ranges, next)
  }

  lemma AfterOneItem(done: seq<Range>, p: Bytes, px: nat, first: bool)
    requires px < |p| && (p[px] == CLOSE ==> first)
    ensures var item := ItemAt(p, px);
            After(done, p, px, first) == After(done + [item.range], p, item.next, false)
  {
    var item := ItemAt(p, px);
    var tail := MembersAt(p, item.next, false);
    assert tail.Members? ==> done + ([item.range] + tail.ranges) == done + [item.range] + tail.ranges;
  }

  lemma AfterLastItem(done: seq<Range>, p: Bytes, px: nat)
    requires px <= |p|
    ensures px == |p| ==> forall first :: After(done, p, px, first) == Unterminated
    ensures px < |p| && p[px] == CLOSE ==> After(done, p, px, false) == Members(done, px + 1)
  {
  }

  lemma InRangesOfSnoc(done: seq<Range>, r: Range, ch: byte)
    ensures InRanges(done + [r], ch) <==> InRanges(done, ch) || r.lo <= ch <= r.hi
  {
    if InRanges(done, ch) {
      var q :| q in done && q.lo <= ch <= q.hi;
      assert q in done + [r];
    }
    if r.lo <= ch <= r.hi {
      assert r in done + [r];
    }
  }

  /** A class token read to its end decides by the members seen; one without an end never matches. */
  lemma ClassResult(p: Bytes, start: nat, px: nat, negate: bool, ch: byte)
    requires start < |p| && p[start] == OPEN
    requires negate == Negated(p, start + 1) && px == if negate then start + 2 else start + 1
    ensures var t, m := TokenAt(p, start), After([], p, px, true);
            if m.Members? then t.next == m.next && (Accepts(t.token, ch) <==> negate != InRanges(m.ranges, ch))
            else t.next == |p| && !Accepts(t.token, ch)
  {
    var m := MembersAt(p, px, true);
    assert m.Members? ==> [] + m.ranges == m.ranges;
  }

  /** Reads one class character, skipping the backslash that escapes it. */
  method ClassByte(pattern: Bytes, start: nat) returns (c: byte, next: nat)
    requires start < |pattern|
    ensures next == Unescaped(pattern, start) + 1 && c == pattern[next - 1]
  {
    next := start;
    c := pattern[next];
    if c == BACKSLASH && next + 1 < |pattern| {
      next := next + 1;
      c := pattern[next];
    }
    next := next + 1;
  }

  /** Reads one member, a byte or a range, and tests `ch` against it. */
  method ClassMember(pattern: Bytes, start: nat, ch: byte) returns (hit: bool, px: nat)
    requires start < |pattern|
    ensures var item := ItemAt(pattern, start);
            hit == (item.range.lo <= ch <= item.range.hi) && px == item.next
  {
    var c;
    c, px := ClassByte(pattern, start);

    if px + 1 < |pattern| && pattern[px] == DASH && pattern[px + 1] != CLOSE {
      var d;
      d, px := ClassByte(pattern, px + 1);

      var lo, hi := c, d;
      if lo > hi {
        lo, hi := hi, lo;
      }
      hit := lo <= ch && ch <= hi;
    } else {
      hit := ch == c;
    }
  }

  method AfsMatchClass(pattern: Bytes, start: nat, ch: byte) returns (ok: bool, next: nat)
    ensures start >= |pattern| || pattern[start] != OPEN ==> !ok && next == start
    ensures start < |pattern| && pattern[start] == OPEN ==>
              var t := TokenAt(pattern, start);
              ok == Accepts(t.token, ch) && next == t.next
  {
    assert !InRanges([], ch);
    hide After, InRanges, MembersAt, TokenAt, ItemAt, Accepts;
    var px := start;
    if px >= |pattern| || pattern[px] != OPEN {
      return false, px;
    }
    px := px + 1;

    var negate := false;
    if px < |pattern| && (pattern[px] == BANG || pattern[px] == CARET) {
      negate := true;
      px := px + 1;
    }
    ClassResult(pattern, start, px, negate, ch);

    var matched := false;
    var first := true;
    ghost var whole := After([], pattern, px, true);
    ghost var done: seq<Range> := [];
    while px < |pattern|
      invariant px <= |pattern|
      invariant whole == After(done, pattern, px, first)
      invariant matched == InRanges(done, ch)
      decreases |pattern| - px
    {
      AfterLastItem(done, pattern, px);
      if pattern[px] == CLOSE && !first {
        px := px + 1;
        if negate {
          return !matched, px;
        }
        return matched, px;
      }
      AfterOneItem(done, pattern, px, first);
      InRangesOfSnoc(done, ItemAt(pattern, px).range, ch);
      done := done + [ItemAt(pattern, px).range];
      first := false;

      var hit;
      hit, px := ClassMember(pattern, px, ch);
      if hit {
        matched := true;
      }
    }
    AfterLastItem(done, pattern, px);
    return false, px;
  }

  // ------------------------------------------------------------------
  // The matcher
  // ------------------------------------------------------------------

  /** The rest of the pattern from `px` matches the rest of the text from `sx`. */
  ghost predicate Rest(p: Bytes, px: nat, s: Bytes, sx: nat)
    requires px <= |p| && sx <= |s|
  {
    Denotes(Parse(p, px), s[sx..])
  }

  lemma RestAtEnd(p: Bytes, s: Bytes, sx: nat)
    requires sx <= |s|
    ensures Rest(p, |p|, s, sx) <==> sx == |s|
  {
  }

  lemma RestAtStar(p: Bytes, px: nat, s: Bytes, sx: nat)
    requires px < |p| && sx <= |s| && p[px] == STAR
    ensures var behind := px + 1;
            Rest(p, px, s, sx) <==> exists k :: sx <= k <= |s| && Rest(p, behind, s, k)
  {
    var behind := px + 1;
    var tokens, text := Parse(p, px), s[sx..];
    assert tokens[1..] == Parse(p, behind);
    if Rest(p, px, s, sx) {
      var k :| 0 <= k <= |text| && Denotes(tokens[1..], text[k..]);
      assert text[k..] == s[sx + k..];
      assert Rest(p, behind, s, sx + k);
    }
    if k :| sx <= k <= |s| && Rest(p, behind, s, k) {
      assert text[k - sx..] == s[k..];
    }
  }

  /** Every token but a star takes exactly one byte, so its end depends on the pattern alone. */
  lemma RestAtToken(p: Bytes, px: nat, s: Bytes, sx: nat)
    requires px < |p| && sx <= |s| && p[px] != STAR
    ensures var t := TokenAt(p, px);
            Rest(p, px, s, sx) <==> sx < |s| && Accepts(t.token, s[sx]) && Rest(p, t.next, s, sx + 1)
  {
    assert Parse(p, px)[1..] == Parse(p, TokenAt(p, px).next);
    if sx < |s| {
      assert s[sx..][1..] == s[sx + 1..];
    }
  }

  /**
   What the last star still allows: the text from any later start `k` that matches the
   pattern behind the star also matches from the position the scan has reached.
   */
  ghost predicate StarWindow(p: Bytes, starPx: nat, px: nat, s: Bytes, starSx: nat, sx: nat)
    requires starPx < |p| && px <= |p| && starSx <= sx <= |s|
  {
    var behind := starPx + 1;
    forall k :: starSx <= k <= |s| && Rest(p, behind, s, k) ==>
                  k + (sx - starSx) <= |s| && Rest(p, px, s, k + (sx - starSx))
  }

  /** What the scan knows; a negative `starPx` says that no star has been passed. */
  ghost predicate Scanning(p: Bytes, s: Bytes, px: nat, sx: nat, starPx: int, starSx: int) {
    && px <= |p| && sx <= |s|
    && if starPx < 0 then
         starSx == -1 && starPx == -1 && (Matches(p, s) <==> Rest(p, px, s, sx))
       else
         && starPx < px && p[starPx] == STAR && 0 <= starSx <= sx
         && (Matches(p, s) <==> Rest(p, starPx, s, starSx))
         && (Rest(p, px, s, sx) ==> Rest(p, starPx + 1, s, starSx))
         && StarWindow(p, starPx, px, s, starSx, sx)
  }

  lemma ScanStarts(p: Bytes, s: Bytes)
    ensures Scanning(p, s, 0, 0, -1, -1)
  {
    assert s[0..] == s;
  }

  lemma ScanTakesToken(p: Bytes, s: Bytes, px: nat, sx: nat, starPx: int, starSx: int)
    requires Scanning(p, s, px, sx, starPx, starSx) && px < |p| && sx < |s| && p[px] != STAR
    ensures var t := TokenAt(p, px);
            if Accepts(t.token, s[sx]) then Scanning(p, s, t.next, sx + 1, starPx, starSx)
            else !Rest(p, px, s, sx)
    ensures p[px] == ANY ==> Scanning(p, s, px + 1, sx + 1, starPx, starSx)
  {
    var t := TokenAt(p, px);
    RestAtToken(p, px, s, sx);
    hide Rest, Matches, TokenAt;
    if Accepts(t.token, s[sx]) && starPx >= 0 {
      var behind := starPx + 1;
      forall k | starSx <= k <= |s| && Rest(p, behind, s, k)
        ensures k + (sx + 1 - starSx) <= |s| && Rest(p, t.next, s, k + (sx + 1 - starSx))
      {
        RestAtToken(p, px, s, k + (sx - starSx));
      }
    }
  }

  /** A new star makes the older one superfluous: whatever the older allowed, the new one allows. */
  lemma ScanTakesStar(p: Bytes, s: Bytes, px: nat, sx: nat, starPx: int, starSx: int)
    requires Scanning(p, s, px, sx, starPx, starSx) && px < |p| && p[px] == STAR
    ensures Scanning(p, s, px + 1, sx, px, sx)
  {
    hide Rest, Matches;
    if starPx >= 0 {
      RestAtStar(p, starPx, s, starSx);
      RestAtStar(p, px, s, sx);
      var behind := starPx + 1;
      if k :| starSx <= k <= |s| && Rest(p, behind, s, k) {
        RestAtStar(p, px, s, k + (sx - starSx));
      }
    }
  }

  /** A failed attempt moves the star's start by one byte and loses nothing. */
  lemma ScanFails(p: Bytes, s: Bytes, px: nat, sx: nat, starPx: int, starSx: int)
    requires Scanning(p, s, px, sx, starPx, starSx) && sx < |s| && !Rest(p, px, s, sx)
    ensures if starPx < 0 then !Matches(p, s)
            else Scanning(p, s, starPx + 1, starSx + 1, starPx, starSx + 1)
  {
    hide Rest, Matches;
    if starPx >= 0 {
      RestAtStar(p, starPx, s, starSx);
      RestAtStar(p, starPx, s, starSx + 1);
    }
  }

  lemma ScanEnds(p: Bytes, s: Bytes, px: nat, starPx: int, starSx: int)
    requires Scanning(p, s, px, |s|, starPx, starSx)
    ensures Matches(p, s) <==> Rest(p, px, s, |s|)
  {
    hide Rest, Matches;
    if starPx >= 0 {
      RestAtStar(p, starPx, s, starSx);
    }
  }

  /** The matcher decides the pattern's language, for every pattern and every text. */
  method AfsGlobMatch(pattern: Bytes, str: Bytes) returns (ok: bool)
    ensures ok <==> Matches(pattern, str)
  {
    hide Scanning;
    var px: nat, sx: nat := 0, 0;
    var starPx, starSx := -1, -1;
    ScanStarts(pattern, str);

    while sx < |str|
      invariant px <= |pattern| && sx <= |str| && starPx < |pattern|
      invariant starSx <= sx && (starPx >= 0 ==> starPx < px)
      invariant Scanning(pattern, str, px, sx, starPx, starSx)
      decreases |str| - starSx, |pattern| - starPx, |pattern| - px
    {
      ghost var px0 := px;
      if px < |pattern| {
        ghost var t := TokenAt(pattern, px);
        if pattern[px] != STAR {
          ScanTakesToken(pattern, str, px, sx, starPx, starSx);
        }
        if pattern[px] == STAR {
          ScanTakesStar(pattern, str, px, sx, starPx, starSx);
          starPx := px;
          starSx := sx;
          px := px + 1;
          continue;
        } else if pattern[px] == ANY {
          px := px + 1;
          sx := sx + 1;
          continue;
        } else if pattern[px] == OPEN {
          var matched, newPx := AfsMatchClass(pattern, px, str[sx]);
          if matched {
            px := newPx;
            sx := sx + 1;
            assert px == t.next;
            continue;
          }
        } else if pattern[px] == BACKSLASH {
          px := px + 1;
          if px < |pattern| && pattern[px] == str[sx] {
            px := px + 1;
            sx := sx + 1;
            assert t == Parsed(Literal(pattern[px - 1]), px);
            continue;
          }
        } else {
          if pattern[px] == str[sx] {
            px := px + 1;
            sx := sx + 1;
            assert t == Parsed(Literal(pattern[px - 1]), px);
            continue;
          }
        }
      } else {
        RestAtEnd(pattern, str, sx);
      }
      ScanFails(pattern, str, px0, sx, starPx, starSx);
      if starPx >= 0 {
        px := starPx + 1;
        starSx := starSx + 1;
        sx := starSx;
        continue;
      }
      return false;
    }

    ScanEnds(pattern, str, px, starPx, starSx);
    while px < |pattern| && pattern[px] == STAR
      invariant px <= |pattern|
      invariant Matches(pattern, str) <==> Rest(pattern, px, str, |str|)
    {
      RestAtStar(pattern, px, str, |str|);
      px := px + 1;
    }
    if px < |pattern| {
      RestAtToken(pattern, px, str, |str|);
    } else {
      RestAtEnd(pattern, str, |str|);
    }
    return px == |pattern|;
  }

  // ------------------------------------------------------------------
  // Escaping
  // ------------------------------------------------------------------

  predicate Special(b: byte) {
    b == BACKSLASH || b == STAR || b == ANY || b == OPEN || b == CLOSE
  }

  function EscapeGlobLiteral(text: Bytes): Bytes {
    if text == [] then []
    else (if Special(text[0]) then [BACKSLASH, text[0]] else [text[0]]) + EscapeGlobLiteral(text[1..])
  }

  function LiteralGlobPattern(text: Bytes): Bytes {
    [STAR] + EscapeGlobLiteral(text) + [STAR]
  }

  function Literals(text: Bytes): (tokens: seq<Token>) {
    seq(|text|, i requires 0 <= i < |text| => Literal(text[i]))
  }

  ghost predicate OccursAt(s: Bytes, text: Bytes, i: nat) {
    i + |text| <= |s| && s[i..i + |text|] == text
  }

  ghost predicate Contains(s: Bytes, text: Bytes) {
    exists i: nat :: OccursAt(s, text, i)
  }

  /** Parsing an escaped text behind any prefix gives the text back, byte by byte. */
  lemma {:induction false} ParseOfEscaped(before: Bytes, text: Bytes, after: Bytes)
    ensures var p := before + EscapeGlobLiteral(text) + after;
            Parse(p, |before|) == Literals(text) + Parse(p, |before| + |EscapeGlobLiteral(text)|)
    decreases |text|
  {
    var p := before + EscapeGlobLiteral(text) + after;
    if text != [] {
      var head := if Special(text[0]) then [BACKSLASH, text[0]] else [text[0]];
      assert p == (before + head) + EscapeGlobLiteral(text[1..]) + after;
      assert p[|before|] == head[0] && p[|before| + |head| - 1] == text[0];
      ParseOfEscaped(before + head, text[1..], after);
      assert TokenAt(p, |before|) == Parsed(Literal(text[0]), |before| + |head|);
      assert Literals(text) == [Literal(text[0])] + Literals(text[1..]);
    } else {
      assert Literals(text) == [];
    }
  }

  lemma {:induction false} DenotesLiterals(text: Bytes, rest: seq<Token>, s: Bytes)
    ensures Denotes(Literals(text) + rest, s) <==>
            |text| <= |s| && s[..|text|] == text && Denotes(rest, s[|text|..])
    decreases |text|
  {
    var tokens := Literals(text) + rest;
    if text == [] {
      assert tokens == rest && s[0..] == s;
    } else {
      assert tokens[0] == Literal(text[0]);
      assert tokens[1..] == Literals(text[1..]) + rest;
      if s != [] {
        DenotesLiterals(text[1..], rest, s[1..]);
        if |text| <= |s| {
          assert s[1..][|text| - 1..] == s[|text|..];
          assert s[..|text|] == [s[0]] + s[1..][..|text| - 1];
        }
      }
    }
  }

  lemma DenotesOneStar(s: Bytes)
    ensures Denotes([Star], s)
  {
    assert s[|s|..] == [] && Denotes([Star][1..], s[|s|..]);
  }

  lemma ParseOfLiteralGlob(text: Bytes)
    ensures Parse(LiteralGlobPattern(text), 0) == [Star] + Literals(text) + [Star]
  {
    var e := EscapeGlobLiteral(text);
    var p := LiteralGlobPattern(text);
    ParseOfEscaped([STAR], text, [STAR]);
    assert p == [STAR] + e + [STAR];
    assert Parse(p, |p|) == [];
    assert Parse(p, 1 + |e|) == [Star];
    assert Parse(p, 0) == [Star] + Parse(p, 1);
  }

  /** Escaping inverts matching: the pattern built from `text` finds exactly the texts that contain it. */
  lemma LiteralGlobMatchesSubstrings(text: Bytes, s: Bytes)
    ensures Matches(LiteralGlobPattern(text), s) <==> Contains(s, text)
  {
    ParseOfLiteralGlob(text);
    var tokens := [Star] + Literals(text) + [Star];
    assert tokens[1..] == Literals(text) + [Star];
    if Matches(LiteralGlobPattern(text), s) {
      var k :| 0 <= k <= |s| && Denotes(tokens[1..], s[k..]);
      DenotesLiterals(text, [Star], s[k..]);
      assert s[k..][..|text|] == s[k..k + |text|];
      assert OccursAt(s, text, k);
    }
    if Contains(s, text) {
      var i: nat :| OccursAt(s, text, i);
      assert s[i..][..|text|] == s[i..i + |text|];
      DenotesOneStar(s[i..][|text|..]);
      DenotesLiterals(text, [Star], s[i..]);
    }
  }

  // ------------------------------------------------------------------
  // Writing a class
  // ------------------------------------------------------------------

  /** A range as it is written in a class, both ends escaped. */
  function RangeText(r: Range): Bytes {
    [BACKSLASH, r.lo, DASH, BACKSLASH, r.hi]
  }

  function RangeTexts(ranges: seq<Range>): Bytes {
    if ranges == [] then [] else RangeText(ranges[0]) + RangeTexts(ranges[1..])
  }

  function ClassText(mark: Bytes, ranges: seq<Range>): Bytes {
    [OPEN] + mark + RangeTexts(ranges) + [CLOSE]
  }

  /** The lower end first. */
  function Ordered(r: Range): Range {
    if r.lo > r.hi then Range(r.hi, r.lo) else r
  }

  function AllOrdered(ranges: seq<Range>): (o: seq<Range>)
    ensures |o| == |ranges|
  {
    seq(|ranges|, i requires 0 <= i < |ranges| => Ordered(ranges[i]))
  }

  lemma RangeIsItem(before: Bytes, r: Range, after: Bytes)
    requires after != []
    ensures ItemAt(before + RangeText(r) + after, |before|) == Item(Ordered(r), |before| + 5)
  {
    var p, n := before + RangeText(r) + after, |before|;
    assert p[n] == BACKSLASH && p[n + 1] == r.lo && p[n + 2] == DASH && p[n + 3] == BACKSLASH && p[n + 4] == r.hi;
  }

  lemma {:induction false} RangesAreMembers(before: Bytes, ranges: seq<Range>, after: Bytes, first: bool)
    requires first ==> ranges != []
    ensures var p := before + RangeTexts(ranges) + [CLOSE] + after;
            MembersAt(p, |before|, first) == Members(AllOrdered(ranges), |before| + |RangeTexts(ranges)| + 1)
    decreases |ranges|
  {
    var p := before + RangeTexts(ranges) + [CLOSE] + after;
    if ranges == [] {
      assert p[|before|] == CLOSE && AllOrdered(ranges) == [];
    } else {
      var r, rest := ranges[0], ranges[1..];
      assert p == before + RangeText(r) + (RangeTexts(rest) + [CLOSE] + after);
      assert p == (before + RangeText(r)) + RangeTexts(rest) + [CLOSE] + after;
      RangeIsItem(before, r, RangeTexts(rest) + [CLOSE] + after);
      RangesAreMembers(before + RangeText(r), rest, after, false);
      assert p[|before|] == BACKSLASH;
      assert AllOrdered(ranges) == [Ordered(r)] + AllOrdered(rest);
      hide ItemAt;
    }
  }

  ghost predicate Between(ranges: seq<Range>, ch: byte) {
    exists i :: 0 <= i < |ranges| && (ranges[i].lo <= ch <= ranges[i].hi || ranges[i].hi <= ch <= ranges[i].lo)
  }

  lemma OrderedRanges(ranges: seq<Range>, ch: byte)
    ensures InRanges(AllOrdered(ranges), ch) <==> Between(ranges, ch)
  {
    var o := AllOrdered(ranges);
    if InRanges(o, ch) {
      var r :| r in o && r.lo <= ch <= r.hi;
      var i :| 0 <= i < |o| && o[i] == r;
      assert ranges[i].lo <= ch <= ranges[i].hi || ranges[i].hi <= ch <= ranges[i].lo;
    }
    if i :| 0 <= i < |ranges| && (ranges[i].lo <= ch <= ranges[i].hi || ranges[i].hi <= ch <= ranges[i].lo) {
      assert o[i] in o;
    }
  }

  lemma ClassBegins(before: Bytes, mark: Bytes, ranges: seq<Range>, after: Bytes)
    requires ranges != [] && (mark == [] || mark == [BANG] || mark == [CARET])
    ensures var p := before + ClassText(mark, ranges) + after;
            && p == (before + [OPEN] + mark) + RangeTexts(ranges) + [CLOSE] + after
            && |before| < |p| && p[|before|] == OPEN && (Negated(p, |before| + 1) <==> mark != [])
  {
    var texts := RangeTexts(ranges);
    assert texts[0] == RangeText(ranges[0])[0] == BACKSLASH;
    hide RangeTexts;
    var p := before + ClassText(mark, ranges) + after;
    assert p == (before + [OPEN] + mark) + texts + [CLOSE] + after;
    assert p[|before|] == OPEN && p[|before| + 1] == (mark + texts)[0];
  }

  lemma ClassAt(p: Bytes, i: nat, negate: bool, ranges: seq<Range>, next: nat)
    requires i < |p| && p[i] == OPEN && Negated(p, i + 1) == negate
    requires MembersAt(p, if negate then i + 2 else i + 1, true) == Members(ranges, next)
    ensures TokenAt(p, i) == Parsed(Class(negate, ranges), next)
  {
    hide MembersAt, Negated;
  }

  /**
   A written class, inside any pattern, is one token that ends at its bracket. It accepts exactly
   the bytes between the ends of one of its ranges, in either order; with `!` or `^` exactly the others.
   */
  lemma WrittenClass(before: Bytes, mark: Bytes, ranges: seq<Range>, after: Bytes, ch: byte)
    requires ranges != [] && (mark == [] || mark == [BANG] || mark == [CARET])
    ensures var p := before + ClassText(mark, ranges) + after;
            var t := TokenAt(p, |before|);
            && t.next == |before| + |ClassText(mark, ranges)|
            && (Accepts(t.token, ch) <==> (mark != []) != Between(ranges, ch))
  {
    var p := before + ClassText(mark, ranges) + after;
    assert |ClassText(mark, ranges)| == 2 + |mark| + |RangeTexts(ranges)|;
    ClassBegins(before, mark, ranges, after);
    RangesAreMembers(before + [OPEN] + mark, ranges, after, true);
    OrderedRanges(ranges, ch);
    hide MembersAt, InRanges, Between, RangeTexts, AllOrdered, Negated, ClassText, TokenAt;
    assert |before + [OPEN] + mark| == if mark != [] then |before| + 2 else |before| + 1;
    ClassAt(p, |before|, mark != [], AllOrdered(ranges), |before| + 2 + |mark| + |RangeTexts(ranges)|);
  }
}
