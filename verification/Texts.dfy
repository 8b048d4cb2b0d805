/** White space in strings. */
module Texts {

  predicate IsSpace(c: char) {
    || '\t' <= c <= '\r' || c == ' ' || c == '\U{85}' || c == '\U{A0}' || c == '\U{1680}'
    || '\U{2000}' <= c <= '\U{200A}' || c == '\U{2028}' || c == '\U{2029}' || c == '\U{202F}'
    || c == '\U{205F}' || c == '\U{3000}'
  }

  predicate Blank(s: string) {
    forall i :: 0 <= i < |s| ==> IsSpace(s[i])
  }

  /** Without white space at either end. */
  function TrimSpace(s: string): string {
    if s != "" && IsSpace(s[0]) then TrimSpace(s[1..])
    else if s != "" && IsSpace(s[|s| - 1]) then TrimSpace(s[..|s| - 1])
    else s
  }

  lemma BlankOneMore(c: char, s: string)
    requires IsSpace(c) && Blank(s)
    ensures Blank([c] + s) && Blank(s + [c])
  {
    hide IsSpace;
  }

  /** Trimming cuts white space off both ends, all of it and nothing else. */
  lemma {:induction false} TrimmedIsTheMiddle(s: string) returns (from: nat, to: nat)
    ensures from <= to <= |s| && TrimSpace(s) == s[from..to] && Blank(s[..from]) && Blank(s[to..])
    ensures from < to ==> !IsSpace(s[from]) && !IsSpace(s[to - 1])
    decreases |s|
  {
    hide IsSpace;
    from, to := 0, |s|;
    if s != "" && IsSpace(s[0]) {
      var f, t := TrimmedIsTheMiddle(s[1..]);
      from, to := f + 1, t + 1;
      BlankOneMore(s[0], s[1..][..f]);
      assert s[..from] == [s[0]] + s[1..][..f] && s[to..] == s[1..][t..] && s[from..to] == s[1..][f..t];
      hide Blank;
    } else if s != "" && IsSpace(s[|s| - 1]) {
      var n := |s| - 1;
      from, to := TrimmedIsTheMiddle(s[..n]);
      BlankOneMore(s[n], s[..n][to..]);
      hide Blank;
      assert s[..from] == s[..n][..from] && s[to..] == s[..n][to..] + [s[n]] && s[from..to] == s[..n][from..to];
    }
  }
}
