/** Characters and the regular-expression runs that the tokenizing code is built on. */
module Text {
  import opened Prelude

  datatype Chars = Chars(lower: char -> char, isWord: char -> bool, isDigit: char -> bool, isSpace: char -> bool) {
    /** `[\w-]` */
    predicate IsToken(c: char) { isWord(c) || c == '-' }

    /** Lowercasing moves no character into or out of `[\w-]`, white space is outside it, and the
        ASCII characters that the patterns name are what they should be. */
    ghost predicate Sane() {
      && (forall c :: IsToken(lower(c)) == IsToken(c))
      && (forall c :: isSpace(c) ==> !IsToken(c))
      && isSpace(' ') && isSpace('\t') && isSpace('\n')
      && (forall c :: IsEnd(c) ==> !IsToken(c))
    }

    function Lower(s: string): string { Map(s, lower) }
  }

  predicate IsEnd(c: char) { c == '.' || c == '!' || c == '?' }

  /** The length of the longest prefix of characters in `p`. */
  function Span(s: string, p: char -> bool): (n: nat)
    ensures n <= |s| && forall k :: 0 <= k < n ==> p(s[k])
    ensures n < |s| ==> !p(s[n])
  {
    if s == "" || !p(s[0]) then 0
    else
      var n := Span(s[1..], p);
      assert forall k :: 0 <= k < n ==> s[1..][k] == s[k + 1];
      n + 1
  }

  /** `findall` of `[p]+`: the maximal runs of characters in `p`. */
  function Runs(s: string, p: char -> bool): seq<string> {
    if s == "" then []
    else if !p(s[0]) then Runs(s[1..], p)
    else var n := Span(s, p); [s[..n]] + Runs(s[n..], p)
  }

  lemma {:induction false} SpanConcat(a: string, b: string, p: char -> bool)
    ensures Span(a, p) < |a| ==> Span(a + b, p) == Span(a, p)
    ensures Span(a, p) == |a| && (b == "" || !p(b[0])) ==> Span(a + b, p) == |a|
  {
    if a == "" {
      assert a + b == b;
    } else {
      assert (a + b)[1..] == a[1..] + b;
      SpanConcat(a[1..], b, p);
    }
  }

  lemma CutConcat(a: string, b: string, n: nat)
    requires n <= |a|
    ensures (a + b)[..n] == a[..n] && (a + b)[n..] == a[n..] + b
  {
  }

  /** Runs split wherever the cut does not separate two characters of `p`. */
  lemma {:induction false} RunsConcat(a: string, b: string, p: char -> bool)
    requires a == "" || b == "" || !p(a[|a| - 1]) || !p(b[0])
    ensures Runs(a + b, p) == Runs(a, p) + Runs(b, p)
    decreases |a|
  {
    if a == "" {
      assert a + b == b;
    } else if !p(a[0]) {
      CutConcat(a, b, 1);
      RunsConcat(a[1..], b, p);
    } else {
      RunsConcatRun(a, b, p);
      RunsConcat(a[Span(a, p)..], b, p);
    }
  }

  lemma RunsConcatRun(a: string, b: string, p: char -> bool)
    requires a != "" && p(a[0]) && (b == "" || !p(a[|a| - 1]) || !p(b[0]))
    ensures var n := Span(a, p); n > 0 && Runs(a + b, p) == [a[..n]] + Runs(a[n..] + b, p)
  {
    SpanConcat(a, b, p);
    CutConcat(a, b, Span(a, p));
    assert (a + b)[0] == a[0];
  }

  lemma {:induction false} NoRuns(s: string, p: char -> bool)
    requires forall k :: 0 <= k < |s| ==> !p(s[k])
    ensures Runs(s, p) == []
  {
    if s != "" {
      NoRuns(s[1..], p);
    }
  }
}
