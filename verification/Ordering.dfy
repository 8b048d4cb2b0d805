/** Byte-wise string order and the sorting of a set of paths. */
module Ordering {

  predicate Less(a: string, b: string) {
    b != "" && (a == "" || a[0] < b[0] || (a[0] == b[0] && Less(a[1..], b[1..])))
  }

  lemma {:induction false} LessIsTransitive(a: string, b: string, c: string)
    requires Less(a, b) && Less(b, c)
    ensures Less(a, c)
    decreases |a|
  {
    if a != "" && a[0] == b[0] == c[0] {
      LessIsTransitive(a[1..], b[1..], c[1..]);
    }
  }

  lemma {:induction false} LessIsIrreflexive(a: string)
    ensures !Less(a, a)
    decreases |a|
  {
    if a != "" {
      LessIsIrreflexive(a[1..]);
    }
  }

  lemma {:induction false} LessIsTotal(a: string, b: string)
    ensures a == b || Less(a, b) || Less(b, a)
    decreases |a|
  {
    if a != "" && b != "" && a[0] == b[0] {
      LessIsTotal(a[1..], b[1..]);
      assert a == [a[0]] + a[1..] && b == [b[0]] + b[1..];
    }
  }

  lemma {:induction false} PrefixIsLess(a: string, rest: string)
    requires rest != ""
    ensures Less(a, a + rest)
    decreases |a|
  {
    if a == "" {
      assert a + rest == rest;
    } else {
      PrefixIsLess(a[1..], rest);
      assert (a + rest)[1..] == a[1..] + rest;
    }
  }

  ghost predicate StrictlySorted(paths: seq<string>) {
    forall i, j :: 0 <= i < j < |paths| ==> Less(paths[i], paths[j])
  }

  /** The least element of a non-empty set. */
  method Least(s: set<string>) returns (least: string)
    requires s != {}
    ensures least in s && forall x :: x in s ==> x == least || Less(least, x)
  {
    least :| least in s;
    var rest := s - {least};
    while rest != {}
      invariant least in s && rest <= s
      invariant forall x :: x in s && x !in rest ==> x == least || Less(least, x)
      decreases rest
    {
      var x :| x in rest;
      rest := rest - {x};
      LessIsTotal(least, x);
      if Less(x, least) {
        forall y | y in s && y !in rest
          ensures y == x || Less(x, y)
        {
          if y != least && y != x {
            LessIsTransitive(x, least, y);
          }
        }
        least := x;
      }
    }
  }

  /** Collects a set into ascending order without repetition. */
  method SortedStrings(s: set<string>) returns (sorted: seq<string>)
    ensures StrictlySorted(sorted)
    ensures forall x :: x in sorted <==> x in s
  {
    sorted := [];
    var rest := s;
    while rest != {}
      invariant rest <= s && StrictlySorted(sorted)
      invariant forall x :: x in sorted <==> x in s && x !in rest
      invariant forall i, x :: 0 <= i < |sorted| && x in rest ==> Less(sorted[i], x)
      decreases rest
    {
      var least := Least(rest);
      sorted := sorted + [least];
      rest := rest - {least};
    }
  }
}
