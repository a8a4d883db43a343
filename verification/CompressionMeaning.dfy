/** What the compressor's patterns match and which tier it takes (compressor/engine.py, compressor/guard.py), in
    terms of the characters themselves. */
module CompressionMeaning {
  import opened Prelude
  import opened Text
  import opened Tokenizer
  import opened Compressor

  // ---------------------------------------------------------------- runs

  /** s[i..j] is a longest stretch of characters in p. */
  ghost predicate Longest(s: string, p: char -> bool, i: int, j: int) {
    && 0 <= i < j <= |s| && (forall k :: i <= k < j ==> p(s[k]))
    && (i == 0 || !p(s[i - 1])) && (j == |s| || !p(s[j]))
  }

  /** A longest stretch at or after `low` reads t. */
  ghost predicate Found(s: string, p: char -> bool, t: string, low: nat) {
    exists i, j :: low <= i && Longest(s, p, i, j) && s[i..j] == t
  }

  /** `findall` of `[p]+` finds exactly the longest stretches. */
  lemma {:induction false} RunsAreLongest(s: string, p: char -> bool, t: string)
    ensures t in Runs(s, p) <==> Found(s, p, t, 0)
    decreases |s|
  {
    if s == "" {
    } else if !p(s[0]) {
      RunsAreLongest(s[1..], p, t);
      ShiftLongest(s, p, 1, t);
      if Found(s, p, t, 0) {
        var i, j :| 0 <= i && Longest(s, p, i, j) && s[i..j] == t;
        assert i > 0;
      }
    } else {
      var n := Span(s, p);
      RunsAreLongest(s[n..], p, t);
      ShiftLongest(s, p, n, t);
      FirstLongest(s, p, t);
      assert t in [s[..n]] + Runs(s[n..], p) <==> t == s[..n] || t in Runs(s[n..], p);
    }
  }

  lemma ShiftOne(s: string, p: char -> bool, n: nat, i: int, j: int)
    requires 0 < n <= |s| && (n == |s| || !p(s[n - 1]) || !p(s[n])) && 0 <= i < j <= |s| - n
    ensures Longest(s[n..], p, i, j) <==> Longest(s, p, n + i, n + j)
    ensures s[n..][i..j] == s[n + i..n + j]
  {
    assert forall k :: 0 <= k < |s| - n ==> s[n..][k] == s[n + k];
    if Longest(s[n..], p, i, j) {
      forall k | n + i <= k < n + j ensures p(s[k]) { assert s[n..][k - n] == s[k]; }
    }
  }

  lemma ShiftLongest(s: string, p: char -> bool, n: nat, t: string)
    requires 0 < n <= |s| && (n == |s| || !p(s[n - 1]) || !p(s[n]))
    ensures Found(s[n..], p, t, 0) <==> Found(s, p, t, n)
  {
    if Found(s[n..], p, t, 0) {
      var i, j :| 0 <= i && Longest(s[n..], p, i, j) && s[n..][i..j] == t;
      ShiftOne(s, p, n, i, j);
      assert Longest(s, p, n + i, n + j) && s[n + i..n + j] == t;
    }
    if Found(s, p, t, n) {
      var i, j :| n <= i && Longest(s, p, i, j) && s[i..j] == t;
      ShiftOne(s, p, n, i - n, j - n);
      assert Longest(s[n..], p, i - n, j - n);
    }
  }

  lemma FirstLongest(s: string, p: char -> bool, t: string)
    requires s != "" && p(s[0])
    ensures Found(s, p, t, 0) <==> t == s[..Span(s, p)] || Found(s, p, t, Span(s, p))
  {
    var n := Span(s, p);
    assert Longest(s, p, 0, n) && s[0..n] == s[..n];
    assert forall k :: 0 <= k < n ==> p(s[k]);
    assert forall i, j :: Longest(s, p, i, j) && i < n ==> i == 0 && j == n;
  }

  // ---------------------------------------------------------------- facts and words

  /** The facts of a text are the longest stretches of word characters and hyphens, in lower case, that hold a
      digit. */
  lemma FactsMeaning(cs: Chars, s: string, t: string)
    ensures t in Facts(cs, s) <==>
      && Found(Map(s, cs.lower), (c: char) => cs.isWord(c) || c == '-', t, 0)
      && exists k :: 0 <= k < |t| && cs.isDigit(t[k])
  {
    var (p, p') := ((c: char) => cs.IsToken(c), (c: char) => cs.isWord(c) || c == '-');
    var low := Map(s, cs.lower);
    RunsAreLongest(low, p, t);
    assert forall i, j :: Longest(low, p, i, j) <==> Longest(low, p', i, j);
  }

  /** Its words are the longest stretches of the letters a to z and of digits, in lower case. */
  lemma WordsMeaning(cs: Chars, s: string, t: string)
    ensures t in Words(cs, s) <==>
      Found(Map(s, cs.lower), (c: char) => 'a' <= c <= 'z' || '0' <= c <= '9', t, 0)
  {
    var (p, p') := (AsciiWord, (c: char) => 'a' <= c <= 'z' || '0' <= c <= '9');
    var low := Map(s, cs.lower);
    RunsAreLongest(low, p, t);
    assert forall i, j :: Longest(low, p, i, j) <==> Longest(low, p', i, j);
  }

  // ---------------------------------------------------------------- tiers

  /** A summary that is taken: it is called for, not empty, makes up no fact and is no longer than what
      extraction left. */
  ghost predicate Taken(cs: Chars, text: string, extract: string, target: int, count: Counter, llm: Summarizer) {
    && llm.Answers? && count(extract) > target && Strip(cs, llm.text) != ""
    && (forall t :: t in Facts(cs, Strip(cs, llm.text)) ==> t in Facts(cs, text))
    && count(Strip(cs, llm.text)) <= count(extract)
  }

  /** Which tier is taken, and what it returns: the tidied text when it fits the target; or else the stripped
      summary, when there is one to take; or else the extract of the tidied text. */
  lemma TierMeaning(cs: Chars, text: string, target: int, count: Counter, query: string, llm: Summarizer)
    requires cs.Sane()
    ensures var (tidy, b) := (Structural(cs, text), Compressed(cs, text, target, count, query, llm));
      var extract := Extract(cs, tidy, target, count, query);
      && (count(tidy) <= target ==> b.text == tidy && b.tier == if tidy == text then NoTier else StructuralTier)
      && (count(tidy) > target && Taken(cs, text, extract, target, count, llm) ==>
            b.text == Strip(cs, llm.text) && b.tier == AbstractiveTier)
      && (count(tidy) > target && !Taken(cs, text, extract, target, count, llm) ==>
            b.text == extract && b.tier == ExtractiveTier)
  {
    var tidy := Structural(cs, text);
    StructuralKeepsFacts(cs, text);
    ExtractKeepsFacts(cs, tidy, target, count, query);
  }

  // ---------------------------------------------------------------- white space

  lemma {:induction false} TidyBlanksStay(s: string)
    requires NoTab(s) && NoPair(s, IsBlank)
    ensures CollapseBlanks(s) == s
    decreases |s|
  {
    if s != "" {
      NoPairSuffix(s, 1);
      TidyBlanksStay(s[1..]);
      if IsBlank(s[0]) {
        assert Span(s, IsBlank) == 1 by {
          assert |s| > 1 ==> !(IsBlank(s[0]) && IsBlank(s[1]));
        }
      }
      assert s == [s[0]] + s[1..];
    }
  }

  lemma NoTripleSuffix(s: string, n: nat)
    requires NoTriple(s, IsNewline) && n <= |s|
    ensures NoTriple(s[n..], IsNewline)
  {
    forall i, j, k | 0 <= i < j < k < |s| - n && k == i + 2
      ensures !(IsNewline(s[n..][i]) && IsNewline(s[n..][j]) && IsNewline(s[n..][k])) {
      assert s[n..][i] == s[n + i] && s[n..][j] == s[n + j] && s[n..][k] == s[n + k];
    }
  }

  lemma AtMostTwo(s: string)
    requires NoTriple(s, IsNewline)
    ensures Span(s, IsNewline) <= 2
  {
    assert |s| >= 3 ==> !(IsNewline(s[0]) && IsNewline(s[1]) && IsNewline(s[2]));
  }

  lemma {:induction false} TidyNewlinesStay(s: string)
    requires NoTriple(s, IsNewline)
    ensures CollapseNewlines(s) == s
    decreases |s|
  {
    if s != "" {
      if IsNewline(s[0]) {
        var n := Span(s, IsNewline);
        AtMostTwo(s);
        NoTripleSuffix(s, n);
        TidyNewlinesStay(s[n..]);
        assert s == s[..n] + s[n..];
      } else {
        NoTripleSuffix(s, 1);
        TidyNewlinesStay(s[1..]);
        assert s == [s[0]] + s[1..];
      }
    }
  }

  /** The structural tier leaves a tidy text as it is; so doing it again changes nothing. */
  lemma TidyTextStays(cs: Chars, s: string)
    requires Tidy(s) && Trim(cs, s)
    ensures Structural(cs, s) == s
  {
    TidyBlanksStay(s);
    TidyNewlinesStay(s);
  }

  lemma StructuralTwice(cs: Chars, s: string)
    ensures Structural(cs, Structural(cs, s)) == Structural(cs, s)
  {
    StructuralIsTidy(cs, s);
    TidyTextStays(cs, Structural(cs, s));
  }

  ghost predicate Only(s: string, p: char -> bool) { forall k :: 0 <= k < |s| ==> p(s[k]) }

  lemma {:induction false} SpanOfRun(run: string, t: string, p: char -> bool)
    requires Only(run, p) && (t == "" || !p(t[0]))
    ensures Span(run + t, p) == |run| && (run + t)[|run|..] == t
  {
    if run == "" {
      assert run + t == t;
    } else {
      assert (run + t)[1..] == run[1..] + t;
      SpanOfRun(run[1..], t, p);
    }
  }

  lemma CutRun(a: string, run: string, t: string, n: nat)
    requires n <= |a|
    ensures (a + run + t)[n..] == a[n..] + run + t && (a + run + t)[..n] == a[..n]
    ensures n < |a| ==> a[n..][|a| - n - 1] == a[|a| - 1]
  {
  }

  lemma SpanStays(a: string, b: string, p: char -> bool)
    requires a != "" && !p(a[|a| - 1])
    ensures Span(a + b, p) == Span(a, p) < |a|
  {
    SpanConcat(a, b, p);
  }

  lemma Prepend(head: string, x: string, y: string, z: string)
    ensures head + (x + y + z) == head + x + y + z
  {
  }

  /** How much of a text one step of collapsing takes, and what it makes of it. */
  function Taking(s: string, p: char -> bool): (n: nat)
    requires s != ""
    ensures 0 < n <= |s|
  {
    if p(s[0]) then Span(s, p) else 1
  }

  function BlankHead(s: string): string
    requires s != ""
  {
    if IsBlank(s[0]) then " " else [s[0]]
  }

  function NewlineHead(s: string): string
    requires s != ""
  {
    if IsNewline(s[0]) && Span(s, IsNewline) >= 3 then "\n\n" else s[..Taking(s, IsNewline)]
  }

  lemma BlankStep(s: string)
    requires s != ""
    ensures CollapseBlanks(s) == BlankHead(s) + CollapseBlanks(s[Taking(s, IsBlank)..])
  {
  }

  lemma NewlineStep(s: string)
    requires s != ""
    ensures CollapseNewlines(s) == NewlineHead(s) + CollapseNewlines(s[Taking(s, IsNewline)..])
  {
    assert s[..1] == [s[0]];
  }

  lemma TakingStays(a: string, run: string, t: string, p: char -> bool)
    requires a != "" && !p(a[|a| - 1])
    ensures a + run + t != "" && (a + run + t)[0] == a[0] && Taking(a + run + t, p) == Taking(a, p)
    ensures p(a[0]) ==> Span(a + run + t, p) == Span(a, p)
  {
    assert a + run + t == a + (run + t);
    SpanStays(a, run + t, p);
  }

  /** A stretch of blanks and tabs becomes one space, wherever it stands. */
  lemma {:induction false} BlanksBecomeOne(a: string, run: string, t: string)
    requires run != "" && Only(run, IsBlank) && (a == "" || !IsBlank(a[|a| - 1])) && (t == "" || !IsBlank(t[0]))
    ensures CollapseBlanks(a + run + t) == CollapseBlanks(a) + " " + CollapseBlanks(t)
    decreases |a|
  {
    if a == "" {
      SpanOfRun(run, t, IsBlank);
      assert a + run + t == run + t;
    } else {
      var n := Taking(a, IsBlank);
      TakingStays(a, run, t, IsBlank);
      BlankStep(a + run + t);
      BlankStep(a);
      CutRun(a, run, t, n);
      BlanksBecomeOne(a[n..], run, t);
      Prepend(BlankHead(a), CollapseBlanks(a[n..]), " ", CollapseBlanks(t));
    }
  }

  /** Three newlines or more become two, fewer stay, wherever they stand. */
  lemma {:induction false} NewlinesBecomeTwo(a: string, run: string, t: string)
    requires run != "" && Only(run, IsNewline)
    requires (a == "" || !IsNewline(a[|a| - 1])) && (t == "" || !IsNewline(t[0]))
    ensures CollapseNewlines(a + run + t)
         == CollapseNewlines(a) + (if |run| >= 3 then "\n\n" else run) + CollapseNewlines(t)
    decreases |a|
  {
    if a == "" {
      SpanOfRun(run, t, IsNewline);
      assert a + run + t == run + t && (run + t)[..|run|] == run;
    } else {
      var n := Taking(a, IsNewline);
      TakingStays(a, run, t, IsNewline);
      NewlineStep(a + run + t);
      NewlineStep(a);
      CutRun(a, run, t, n);
      NewlinesBecomeTwo(a[n..], run, t);
      Prepend(NewlineHead(a), CollapseNewlines(a[n..]), if |run| >= 3 then "\n\n" else run, CollapseNewlines(t));
    }
  }

  // ---------------------------------------------------------------- sentences

  function Flat(parts: seq<string>): string { if parts == [] then "" else parts[0] + Flat(parts[1..]) }

  /** A sentence: not empty, and an end of a sentence stands nowhere but at its end. */
  ghost predicate OneSentenceLong(t: string) { t != "" && forall k :: 0 <= k < |t| - 1 ==> !IsEnd(t[k]) }

  ghost predicate Closed(t: string) { t != "" && IsEnd(t[|t| - 1]) }

  /** Splitting cuts behind each end of a sentence and nowhere else: the pieces spell the text, unless ends follow
      one another or come first, where there is no sentence between them. */
  lemma {:induction false} SentencesSpell(s: string)
    requires NoPair(s, IsEnd) && (s == "" || !IsEnd(s[0]))
    ensures var parts := RawSentences(s);
      && Flat(parts) == s && (forall i :: 0 <= i < |parts| ==> OneSentenceLong(parts[i]))
      && (forall i :: 0 <= i < |parts| - 1 ==> Closed(parts[i]))
    decreases |s|
  {
    if s != "" {
      var m := SentenceEnd(s);
      FirstSentence(s);
      RawStep(s);
      SentencesSpell(s[m..]);
      PiecesCons(s[..m], RawSentences(s[m..]));
      assert s == s[..m] + s[m..];
    }
  }

  /** The end of the first sentence. */
  function SentenceEnd(s: string): (m: nat)
    ensures m <= |s|
  {
    var n := Span(s, InSentence); if n < |s| then n + 1 else n
  }

  lemma RawStep(s: string)
    requires s != "" && !IsEnd(s[0])
    ensures 0 < SentenceEnd(s) && RawSentences(s) == [s[..SentenceEnd(s)]] + RawSentences(s[SentenceEnd(s)..])
  {
  }

  lemma FirstSentence(s: string)
    requires NoPair(s, IsEnd) && s != "" && !IsEnd(s[0])
    ensures var m := SentenceEnd(s);
      && 0 < m && OneSentenceLong(s[..m]) && (m < |s| ==> Closed(s[..m]))
      && NoPair(s[m..], IsEnd) && (m < |s| ==> !IsEnd(s[m]))
  {
    var m := SentenceEnd(s);
    PairSuffix(s, m);
    CutSentence(s, Span(s, InSentence), m);
    if m < |s| {
      NoneBehind(s, m);
    }
  }

  lemma CutSentence(s: string, n: nat, m: nat)
    requires n == Span(s, InSentence) > 0 && m == if n < |s| then n + 1 else n
    ensures m <= |s| && OneSentenceLong(s[..m]) && (m < |s| ==> IsEnd(s[m - 1]) && Closed(s[..m]))
  {
    assert forall k :: 0 <= k < n ==> InSentence(s[k]);
  }

  lemma NoneBehind(s: string, m: nat)
    requires NoPair(s, IsEnd) && 0 < m < |s| && IsEnd(s[m - 1])
    ensures !IsEnd(s[m])
  {
  }

  lemma PiecesCons(x: string, rest: seq<string>)
    requires OneSentenceLong(x) && forall i :: 0 <= i < |rest| ==> OneSentenceLong(rest[i])
    requires (rest != [] ==> Closed(x)) && forall i :: 0 <= i < |rest| - 1 ==> Closed(rest[i])
    ensures var parts := [x] + rest;
      && Flat(parts) == x + Flat(rest) && (forall i :: 0 <= i < |parts| ==> OneSentenceLong(parts[i]))
      && (forall i :: 0 <= i < |parts| - 1 ==> Closed(parts[i]))
  {
    assert ([x] + rest)[1..] == rest;
  }

  lemma PairSuffix(s: string, n: nat)
    requires NoPair(s, IsEnd) && n <= |s|
    ensures NoPair(s[n..], IsEnd)
  {
    forall i, j | 0 <= i < j < |s| - n && j == i + 1 ensures !(IsEnd(s[n..][i]) && IsEnd(s[n..][j])) {
      assert s[n..][i] == s[n + i] && s[n..][j] == s[n + j];
    }
  }

  /** An end of a sentence with no sentence before it is dropped. */
  lemma StrayEndsDropped(s: string)
    requires s != "" && IsEnd(s[0])
    ensures RawSentences(s) == RawSentences(s[1..])
  {
  }
}
