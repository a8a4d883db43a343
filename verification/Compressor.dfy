/** The tiered compressor and its fact guard (compressor/engine.py, compressor/guard.py).

    Character classes and per-character lowercasing are parameters (`Text.Chars`). */
module Compressor {
  import opened Prelude
  import opened Messages
  import opened Mmr
  import opened Text
  import opened Tokenizer

  predicate IsBlank(c: char) { c == ' ' || c == '\t' }

  // ---------------------------------------------------------------- regular expressions

  /** `[ \t]+` to one space. */
  function CollapseBlanks(s: string): string {
    if s == "" then ""
    else if IsBlank(s[0]) then " " + CollapseBlanks(s[Span(s, IsBlank)..])
    else [s[0]] + CollapseBlanks(s[1..])
  }

  predicate IsNewline(c: char) { c == '\n' }

  /** `\n{3,}` to two newlines. */
  function CollapseNewlines(s: string): string {
    if s == "" then ""
    else if IsNewline(s[0]) then
      var n := Span(s, IsNewline);
      (if n >= 3 then "\n\n" else s[..n]) + CollapseNewlines(s[n..])
    else [s[0]] + CollapseNewlines(s[1..])
  }

  function LStrip(cs: Chars, s: string): string { s[Span(s, cs.isSpace)..] }

  function RStrip(cs: Chars, s: string): string {
    if s == "" || !cs.isSpace(s[|s| - 1]) then s else RStrip(cs, s[..|s| - 1])
  }

  function Strip(cs: Chars, s: string): string { RStrip(cs, LStrip(cs, s)) }

  function Structural(cs: Chars, s: string): string { Strip(cs, CollapseNewlines(CollapseBlanks(s))) }

  predicate InSentence(c: char) { !IsEnd(c) }

  /** `findall` of `[^.!?]+[.!?]?`. */
  function RawSentences(s: string): seq<string> {
    if s == "" then []
    else if IsEnd(s[0]) then RawSentences(s[1..])
    else
      var n := Span(s, InSentence);
      var m := if n < |s| then n + 1 else n;
      [s[..m]] + RawSentences(s[m..])
  }

  function Cleaned(cs: Chars, raw: seq<string>): seq<string> {
    if raw == [] then []
    else
      var t := Strip(cs, raw[0]);
      (if t != "" then [t] else []) + Cleaned(cs, raw[1..])
  }

  function Sentences(cs: Chars, s: string): seq<string> { Cleaned(cs, RawSentences(s)) }

  // ---------------------------------------------------------------- facts

  /** The lowercased `[\w-]+` tokens of a text, in order. */
  function Toks(cs: Chars, s: string): seq<string> { Runs(cs.Lower(s), (c: char) => cs.IsToken(c)) }

  predicate HasDigit(cs: Chars, t: string) { exists k :: 0 <= k < |t| && cs.isDigit(t[k]) }

  function Facts(cs: Chars, s: string): set<string> { set t | t in Toks(cs, s) && HasDigit(cs, t) }

  /** `_facts` as the loop computes it. */
  method CollectFacts(cs: Chars, s: string) returns (facts: set<string>)
    ensures facts == Facts(cs, s)
  {
    var toks := Toks(cs, s);
    facts := {};
    for i := 0 to |toks|
      invariant facts == set t | t in toks[..i] && HasDigit(cs, t)
    {
      assert toks[..i + 1] == toks[..i] + [toks[i]];
      if HasDigit(cs, toks[i]) {
        facts := facts + {toks[i]};
      }
    }
    assert toks[..|toks|] == toks;
  }

  // ---------------------------------------------------------------- tokens of a concatenation

  ghost predicate NoTokens(cs: Chars, s: string) { forall k :: 0 <= k < |s| ==> !cs.IsToken(s[k]) }

  lemma ToksConcat(cs: Chars, a: string, b: string)
    requires cs.Sane()
    requires a == "" || b == "" || !cs.IsToken(a[|a| - 1]) || !cs.IsToken(b[0])
    ensures Toks(cs, a + b) == Toks(cs, a) + Toks(cs, b)
  {
    assert cs.Lower(a + b) == cs.Lower(a) + cs.Lower(b);
    RunsConcat(cs.Lower(a), cs.Lower(b), (c: char) => cs.IsToken(c));
  }

  lemma ToksNone(cs: Chars, s: string)
    requires cs.Sane() && NoTokens(cs, s)
    ensures Toks(cs, s) == []
  {
    NoRuns(cs.Lower(s), (c: char) => cs.IsToken(c));
  }

  /** A stretch without token characters between two texts counts for nothing. */
  lemma ToksGap(cs: Chars, a: string, gap: string, b: string)
    requires cs.Sane() && NoTokens(cs, gap) && gap != ""
    ensures Toks(cs, a + gap + b) == Toks(cs, a) + Toks(cs, b)
  {
    Regroup(a, gap + b, |gap|, gap, b);
    ToksAfterGap(cs, gap, b);
    ToksConcat(cs, a, gap + b);
  }

  lemma ToksAfterGap(cs: Chars, gap: string, b: string)
    requires cs.Sane() && NoTokens(cs, gap) && gap != ""
    ensures Toks(cs, gap + b) == Toks(cs, b)
  {
    ToksConcat(cs, gap, b);
    ToksNone(cs, gap);
  }

  lemma SwapGap(cs: Chars, p: string, gap: string, a: string, gap': string, a': string)
    requires cs.Sane() && NoTokens(cs, gap) && gap != "" && NoTokens(cs, gap') && gap' != ""
    requires Toks(cs, "" + a) == Toks(cs, "" + a')
    ensures Toks(cs, p + gap + a) == Toks(cs, p + gap' + a')
  {
    ToksGap(cs, p, gap, a);
    ToksGap(cs, p, gap', a');
    assert "" + a == a && "" + a' == a';
  }

  // ---------------------------------------------------------------- the structural tier

  lemma Regroup(p: string, s: string, n: nat, gap: string, t: string)
    requires n <= |s|
    ensures p + s == p + s[..n] + s[n..] && p + (gap + t) == p + gap + t
  {
  }

  lemma BlankRun(cs: Chars, p: string, s: string)
    requires cs.Sane() && s != "" && IsBlank(s[0])
    requires var rest := s[Span(s, IsBlank)..]; Toks(cs, "" + CollapseBlanks(rest)) == Toks(cs, "" + rest)
    ensures Toks(cs, p + CollapseBlanks(s)) == Toks(cs, p + s)
  {
    var n := Span(s, IsBlank);
    Regroup(p, s, n, " ", CollapseBlanks(s[n..]));
    SwapGap(cs, p, s[..n], s[n..], " ", CollapseBlanks(s[n..]));
  }

  lemma NewlineRun(cs: Chars, p: string, s: string)
    requires cs.Sane() && s != "" && IsNewline(s[0])
    requires var rest := s[Span(s, IsNewline)..]; Toks(cs, "" + CollapseNewlines(rest)) == Toks(cs, "" + rest)
    ensures Toks(cs, p + CollapseNewlines(s)) == Toks(cs, p + s)
  {
    var n := Span(s, IsNewline);
    var gap := if n >= 3 then "\n\n" else s[..n];
    Regroup(p, s, n, gap, CollapseNewlines(s[n..]));
    SwapGap(cs, p, s[..n], s[n..], gap, CollapseNewlines(s[n..]));
  }

  lemma AppendChar(p: string, s: string, t: string)
    requires s != ""
    ensures p + s == p + [s[0]] + s[1..] && p + ([s[0]] + t) == p + [s[0]] + t
  {
    assert s == [s[0]] + s[1..];
  }

  /** Collapsing blanks after any started text `p` changes no token. */
  lemma {:induction false} BlanksKeepToks(cs: Chars, p: string, s: string)
    requires cs.Sane()
    ensures Toks(cs, p + CollapseBlanks(s)) == Toks(cs, p + s)
    decreases |s|
  {
    if s == "" {
    } else if IsBlank(s[0]) {
      BlanksKeepToks(cs, "", s[Span(s, IsBlank)..]);
      BlankRun(cs, p, s);
    } else {
      BlanksKeepToks(cs, p + [s[0]], s[1..]);
      AppendChar(p, s, CollapseBlanks(s[1..]));
    }
  }

  lemma {:induction false} NewlinesKeepToks(cs: Chars, p: string, s: string)
    requires cs.Sane()
    ensures Toks(cs, p + CollapseNewlines(s)) == Toks(cs, p + s)
    decreases |s|
  {
    if s == "" {
    } else if IsNewline(s[0]) {
      NewlinesKeepToks(cs, "", s[Span(s, IsNewline)..]);
      NewlineRun(cs, p, s);
    } else {
      NewlinesKeepToks(cs, p + [s[0]], s[1..]);
      AppendChar(p, s, CollapseNewlines(s[1..]));
    }
  }

  lemma {:induction false} RStripKeepsToks(cs: Chars, s: string)
    requires cs.Sane()
    ensures Toks(cs, RStrip(cs, s)) == Toks(cs, s)
    decreases |s|
  {
    if s == "" || !cs.isSpace(s[|s| - 1]) {
    } else {
      var n := |s| - 1;
      assert s == s[..n] + [s[n]];
      RStripKeepsToks(cs, s[..n]);
      ToksConcat(cs, s[..n], [s[n]]);
      ToksNone(cs, [s[n]]);
    }
  }

  lemma StripKeepsToks(cs: Chars, s: string)
    requires cs.Sane()
    ensures Toks(cs, Strip(cs, s)) == Toks(cs, s)
  {
    var n := Span(s, cs.isSpace);
    assert s == s[..n] + s[n..];
    ToksConcat(cs, s[..n], s[n..]);
    ToksNone(cs, s[..n]);
    RStripKeepsToks(cs, LStrip(cs, s));
  }

  /** White space collapse keeps every token, hence the set of facts. */
  lemma StructuralKeepsFacts(cs: Chars, s: string)
    requires cs.Sane()
    ensures Toks(cs, Structural(cs, s)) == Toks(cs, s)
    ensures Facts(cs, Structural(cs, s)) == Facts(cs, s)
  {
    CollapseKeepsToks(cs, s);
    StripKeepsToks(cs, CollapseNewlines(CollapseBlanks(s)));
  }

  lemma CollapseKeepsToks(cs: Chars, s: string)
    requires cs.Sane()
    ensures Toks(cs, CollapseNewlines(CollapseBlanks(s))) == Toks(cs, s)
  {
    var t := CollapseBlanks(s);
    var u := CollapseNewlines(t);
    BlanksKeepToks(cs, "", s);
    NewlinesKeepToks(cs, "", t);
    assert "" + s == s && "" + t == t && "" + u == u;
  }

  // ---------------------------------------------------------------- tidiness

  ghost predicate NoTab(s: string) { forall i :: 0 <= i < |s| ==> s[i] != '\t' }

  /** No two neighbours both in p. */
  ghost predicate NoPair(s: string, p: char -> bool) {
    forall i, j :: 0 <= i < j < |s| && j == i + 1 ==> !(p(s[i]) && p(s[j]))
  }

  ghost predicate NoTriple(s: string, p: char -> bool) {
    forall i, j, k :: 0 <= i < j < k < |s| && k == i + 2 ==> !(p(s[i]) && p(s[j]) && p(s[k]))
  }

  lemma PairCons(c: char, t: string, p: char -> bool)
    requires NoPair(t, p) && (t == "" || !(p(c) && p(t[0])))
    ensures NoPair([c] + t, p)
  {
    var s := [c] + t;
    forall i, j | 0 <= i < j < |s| && j == i + 1 ensures !(p(s[i]) && p(s[j])) {
      if i > 0 {
        assert s[i] == t[i - 1] && s[j] == t[j - 1];
      }
    }
  }

  lemma TripleCons(c: char, t: string, p: char -> bool)
    requires NoTriple(t, p) && (|t| < 2 || !(p(c) && p(t[0]) && p(t[1])))
    ensures NoTriple([c] + t, p)
  {
    var s := [c] + t;
    forall i, j, k | 0 <= i < j < k < |s| && k == i + 2 ensures !(p(s[i]) && p(s[j]) && p(s[k])) {
      if i > 0 {
        assert s[i] == t[i - 1] && s[j] == t[j - 1] && s[k] == t[k - 1];
      }
    }
  }

  lemma {:induction false} BlanksAreTidy(s: string)
    ensures var t := CollapseBlanks(s);
      && NoTab(t) && NoPair(t, IsBlank) && |t| <= |s|
      && (t == "" <==> s == "") && (t != "" ==> t[0] == if IsBlank(s[0]) then ' ' else s[0])
    decreases |s|
  {
    if s != "" {
      var rest := if IsBlank(s[0]) then s[Span(s, IsBlank)..] else s[1..];
      BlanksAreTidy(rest);
      PairCons(if IsBlank(s[0]) then ' ' else s[0], CollapseBlanks(rest), IsBlank);
    }
  }

  /** No tab, no two blanks and no three newlines in a row. */
  ghost predicate Tidy(t: string) { NoTab(t) && NoPair(t, IsBlank) && NoTriple(t, IsNewline) }

  lemma TidyCons(c: char, t: string)
    requires Tidy(t) && c != '\t' && (t == "" || !(IsBlank(c) && IsBlank(t[0])))
    requires |t| < 2 || !(IsNewline(c) && IsNewline(t[0]) && IsNewline(t[1]))
    ensures Tidy([c] + t)
  {
    PairCons(c, t, IsBlank);
    TripleCons(c, t, IsNewline);
  }

  lemma TidyBreak(run: string, t: string)
    requires Tidy(t) && (t == "" || !IsNewline(t[0]))
    requires run == "\n" || run == "\n\n"
    ensures Tidy(run + t)
  {
    TidyCons('\n', t);
    if run == "\n\n" {
      TidyCons('\n', ['\n'] + t);
      assert run + t == ['\n'] + (['\n'] + t);
    }
  }

  /** What collapsing newlines leaves: no three in a row, and pairs of blanks only where they were. */
  lemma {:induction false} NewlinesAreTidy(s: string)
    requires NoTab(s) && NoPair(s, IsBlank)
    ensures var t := CollapseNewlines(s);
      Tidy(t) && |t| <= |s| && (t == "" <==> s == "") && (t != "" ==> t[0] == s[0])
    decreases |s|
  {
    if s != "" {
      if IsNewline(s[0]) {
        var n := Span(s, IsNewline);
        NoPairSuffix(s, n);
        NewlinesAreTidy(s[n..]);
        var run := ShortRun(s);
        TidyBreak(run, CollapseNewlines(s[n..]));
      } else {
        NoPairSuffix(s, 1);
        NewlinesAreTidy(s[1..]);
        TidyCons(s[0], CollapseNewlines(s[1..]));
      }
    }
  }

  /** The first run of newlines, as the collapse leaves it. */
  lemma ShortRun(s: string) returns (run: string)
    requires s != "" && IsNewline(s[0])
    ensures run == "\n" || run == "\n\n"
    ensures var n := Span(s, IsNewline); run == if n >= 3 then "\n\n" else s[..n]
    ensures |run| <= Span(s, IsNewline)
  {
    var n := Span(s, IsNewline);
    run := if n >= 3 then "\n\n" else s[..n];
    assert forall i :: 0 <= i < |run| ==> run[i] == '\n';
  }

  lemma NoPairSuffix(s: string, n: nat)
    requires NoTab(s) && NoPair(s, IsBlank) && n <= |s|
    ensures NoTab(s[n..]) && NoPair(s[n..], IsBlank)
  {
    forall i, j | 0 <= i < j < |s| - n && j == i + 1 ensures !(IsBlank(s[n..][i]) && IsBlank(s[n..][j])) {
      assert s[n..][i] == s[n + i] && s[n..][j] == s[n + j];
    }
  }

  /** A stretch of a tidy text is tidy. */
  lemma CutsAreTidy(u: string, a: nat, b: nat)
    requires a <= b <= |u| && Tidy(u)
    ensures Tidy(u[a..b])
  {
    var t := u[a..b];
    forall i, j | 0 <= i < j < |t| && j == i + 1 ensures !(IsBlank(t[i]) && IsBlank(t[j])) {
      assert t[i] == u[a + i] && t[j] == u[a + j];
    }
    forall i, j, k | 0 <= i < j < k < |t| && k == i + 2
      ensures !(IsNewline(t[i]) && IsNewline(t[j]) && IsNewline(t[k])) {
      assert t[i] == u[a + i] && t[j] == u[a + j] && t[k] == u[a + k];
    }
  }

  /** Stripping cuts out a stretch with no white space at either end. */
  lemma {:induction false} RStripCuts(cs: Chars, s: string)
    ensures RStrip(cs, s) <= s && (RStrip(cs, s) != "" ==> !cs.isSpace(RStrip(cs, s)[|RStrip(cs, s)| - 1]))
    decreases |s|
  {
    if s != "" && cs.isSpace(s[|s| - 1]) {
      RStripCuts(cs, s[..|s| - 1]);
    }
  }

  ghost predicate Trim(cs: Chars, t: string) { t != "" ==> !cs.isSpace(t[0]) && !cs.isSpace(t[|t| - 1]) }

  lemma StripCuts(cs: Chars, s: string) returns (a: nat, b: nat)
    ensures a <= b <= |s| && Strip(cs, s) == s[a..b] && Trim(cs, s[a..b])
  {
    a := Span(s, cs.isSpace);
    RStripCuts(cs, s[a..]);
    b := a + |Strip(cs, s)|;
  }

  lemma CollapseIsTidy(s: string)
    ensures var u := CollapseNewlines(CollapseBlanks(s)); |u| <= |s| && Tidy(u)
  {
    BlanksAreTidy(s);
    NewlinesAreTidy(CollapseBlanks(s));
  }

  lemma StripIsTidy(cs: Chars, u: string)
    requires Tidy(u)
    ensures var t := Strip(cs, u); |t| <= |u| && Tidy(t) && Trim(cs, t)
  {
    var a, b := StripCuts(cs, u);
    CutsAreTidy(u, a, b);
  }

  /** The structural tier never lengthens a text, and leaves no tab, no two blanks in a row, no three
      newlines in a row and no white space at either end. */
  lemma StructuralIsTidy(cs: Chars, s: string)
    ensures var t := Structural(cs, s); |t| <= |s| && Tidy(t) && Trim(cs, t)
  {
    CollapseIsTidy(s);
    StripIsTidy(cs, CollapseNewlines(CollapseBlanks(s)));
  }

  // ---------------------------------------------------------------- sentences

  ghost function AllToks(cs: Chars, parts: seq<string>): seq<string> {
    if parts == [] then [] else Toks(cs, parts[0]) + AllToks(cs, parts[1..])
  }

  lemma SentenceCut(cs: Chars, s: string)
    requires cs.Sane() && s != "" && !IsEnd(s[0])
    ensures var n := Span(s, InSentence);
      var m := if n < |s| then n + 1 else n;
      m > 0 && Toks(cs, s) == Toks(cs, s[..m]) + Toks(cs, s[m..])
  {
    var n := Span(s, InSentence);
    if n < |s| {
      CutAfterEnd(cs, s, n);
    } else {
      assert s[..n] == s && s[n..] == "";
      ToksNone(cs, "");
    }
  }

  lemma CutAfterEnd(cs: Chars, s: string, n: nat)
    requires cs.Sane() && n < |s| && IsEnd(s[n])
    ensures Toks(cs, s) == Toks(cs, s[..n + 1]) + Toks(cs, s[n + 1..])
  {
    assert s == s[..n + 1] + s[n + 1..];
    ToksConcat(cs, s[..n + 1], s[n + 1..]);
  }

  lemma {:induction false} RawSentencesKeepToks(cs: Chars, s: string)
    requires cs.Sane()
    ensures AllToks(cs, RawSentences(s)) == Toks(cs, s)
    decreases |s|
  {
    if s == "" {
    } else if IsEnd(s[0]) {
      RawSentencesKeepToks(cs, s[1..]);
      assert s == [s[0]] + s[1..];
      ToksAfterGap(cs, [s[0]], s[1..]);
    } else {
      var n := Span(s, InSentence);
      var m := if n < |s| then n + 1 else n;
      SentenceCut(cs, s);
      RawSentencesKeepToks(cs, s[m..]);
      assert RawSentences(s)[1..] == RawSentences(s[m..]);
    }
  }

  lemma {:induction false} CleanedKeepsToks(cs: Chars, raw: seq<string>)
    requires cs.Sane()
    ensures AllToks(cs, Cleaned(cs, raw)) == AllToks(cs, raw)
  {
    if raw != [] {
      CleanedKeepsToks(cs, raw[1..]);
      StripKeepsToks(cs, raw[0]);
      var t := Strip(cs, raw[0]);
      assert ([t] + Cleaned(cs, raw[1..]))[1..] == Cleaned(cs, raw[1..]);
      assert [] + Cleaned(cs, raw[1..]) == Cleaned(cs, raw[1..]);
    }
  }

  /** Splitting into sentences cuts no token and loses none. */
  lemma SentencesKeepToks(cs: Chars, s: string)
    requires cs.Sane()
    ensures AllToks(cs, Sentences(cs, s)) == Toks(cs, s)
  {
    RawSentencesKeepToks(cs, s);
    CleanedKeepsToks(cs, RawSentences(s));
  }

  lemma {:induction false} JoinKeepsToks(cs: Chars, parts: seq<string>, sep: string)
    requires cs.Sane() && NoTokens(cs, sep) && sep != ""
    ensures Toks(cs, Join(parts, sep)) == AllToks(cs, parts)
  {
    if parts == [] {
    } else if |parts| == 1 {
      assert AllToks(cs, parts[1..]) == [];
    } else {
      JoinKeepsToks(cs, parts[1..], sep);
      ToksGap(cs, parts[0], sep, Join(parts[1..], sep));
    }
  }

  // ---------------------------------------------------------------- the extractive tier

  predicate AsciiWord(c: char) { 'a' <= c <= 'z' || '0' <= c <= '9' }

  function Words(cs: Chars, s: string): set<string> { set t | t in Runs(cs.Lower(s), AsciiWord) }

  /** How many distinct words a sentence shares with the query. */
  function Overlap(cs: Chars, query: string, s: string): nat { |Words(cs, s) * Words(cs, query)| }

  /** Query overlap plus a slight lead bias. */
  function SentenceScore(cs: Chars, query: string, s: string, i: nat): real {
    Overlap(cs, query, s) as real + 0.1 / (i + 1) as real
  }

  function ScoreAt(cs: Chars, query: string, sents: seq<string>, i: nat): real {
    if i < |sents| then SentenceScore(cs, query, sents[i], i) else 0.0
  }

  /** The lead bias only breaks ties: more query words always win, and between equals the earlier
      sentence does. */
  lemma OverlapThenLead(cs: Chars, query: string, sents: seq<string>, i: nat, j: nat)
    requires i < |sents| && j < |sents| && i != j
    ensures var (a, b) := (Overlap(cs, query, sents[i]), Overlap(cs, query, sents[j]));
      ScoreAt(cs, query, sents, i) > ScoreAt(cs, query, sents, j) <==> a > b || (a == b && i < j)
  {
    BiasIsSmall(i, j);
    BiasIsSmall(j, i);
  }

  lemma BiasIsSmall(i: nat, j: nat)
    ensures 0.0 < 0.1 / (i + 1) as real <= 0.1
    ensures i < j ==> 0.1 / (i + 1) as real > 0.1 / (j + 1) as real
  {
    var (x, y) := (0.1 / (i + 1) as real, 0.1 / (j + 1) as real);
    assert x * (i + 1) as real == 0.1 && y * (j + 1) as real == 0.1;
  }

  /** The order in which the sentences are considered: best score first. */
  function ReadingOrder(cs: Chars, query: string, sents: seq<string>): seq<nat> {
    Sort(Range(|sents|), (i: nat, j: nat) => ScoreAt(cs, query, sents, i) >= ScoreAt(cs, query, sents, j))
  }

  /** The greedy choice: skip what does not fit, except the very first; stop at the target. */
  function Keep(order: seq<nat>, sents: seq<string>, target: int, count: Counter, kept: set<nat>, used: int): set<nat>
    requires forall k :: 0 <= k < |order| ==> order[k] < |sents|
  {
    if order == [] then kept
    else
      var t := count(sents[order[0]]);
      if used + t > target && kept != {} then Keep(order[1..], sents, target, count, kept, used)
      else if used + t >= target then kept + {order[0]}
      else Keep(order[1..], sents, target, count, kept + {order[0]}, used + t)
  }

  /** The kept sentences from index i on, in their original order. */
  function Chosen(sents: seq<string>, kept: set<nat>, i: nat): seq<string>
    requires i <= |sents|
    decreases |sents| - i
  {
    if i == |sents| then [] else (if i in kept then [sents[i]] else []) + Chosen(sents, kept, i + 1)
  }

  lemma OrderInRange(cs: Chars, query: string, sents: seq<string>)
    ensures var order := ReadingOrder(cs, query, sents);
      |order| == |sents| && Distinct(order) && forall k :: 0 <= k < |order| ==> order[k] < |sents|
  {
    var le := (i: nat, j: nat) => ScoreAt(cs, query, sents, i) >= ScoreAt(cs, query, sents, j);
    SortPermutes(Range(|sents|), le);
    forall x ensures multiset(Range(|sents|))[x] <= 1 { AtMostOne(Range(|sents|), x); }
    var order := ReadingOrder(cs, query, sents);
    PermutationKeepsDistinct(Range(|sents|), order);
    forall k | 0 <= k < |order| ensures order[k] < |sents| {
      assert order[k] in Range(|sents|);
    }
  }

  function KeptSet(cs: Chars, text: string, target: int, count: Counter, query: string): set<nat> {
    var sents := Sentences(cs, text);
    OrderInRange(cs, query, sents);
    Keep(ReadingOrder(cs, query, sents), sents, target, count, {}, 0)
  }

  function Extract(cs: Chars, text: string, target: int, count: Counter, query: string): string {
    var sents := Sentences(cs, text);
    if sents == [] then text else Join(Chosen(sents, KeptSet(cs, text, target, count, query), 0), " ")
  }

  method Extractive(cs: Chars, text: string, target: int, count: Counter, query: string) returns (r: string)
    ensures r == Extract(cs, text, target, count, query)
  {
    var sents := Sentences(cs, text);
    if sents == [] {
      return text;
    }
    OrderInRange(cs, query, sents);
    var kept := KeepLoop(ReadingOrder(cs, query, sents), sents, target, count);
    r := Join(Chosen(sents, kept, 0), " ");
  }

  method KeepLoop(order: seq<nat>, sents: seq<string>, target: int, count: Counter) returns (kept: set<nat>)
    requires forall k :: 0 <= k < |order| ==> order[k] < |sents|
    ensures kept == Keep(order, sents, target, count, {}, 0)
  {
    kept := {};
    var used, k := 0, 0;
    assert order[0..] == order;
    while k < |order|
      invariant 0 <= k <= |order|
      invariant Keep(order[k..], sents, target, count, kept, used) == Keep(order, sents, target, count, {}, 0)
    {
      assert order[k..][1..] == order[k + 1..];
      var t := count(sents[order[k]]);
      if !(used + t > target && kept != {}) {
        kept, used := kept + {order[k]}, used + t;
        if used >= target {
          return;
        }
      }
      k := k + 1;
    }
  }

  lemma {:induction false} ChosenToks(cs: Chars, sents: seq<string>, kept: set<nat>, i: nat, t: string)
    requires i <= |sents| && t in AllToks(cs, Chosen(sents, kept, i))
    ensures t in AllToks(cs, sents[i..])
    decreases |sents| - i
  {
    if i < |sents| {
      var rest := Chosen(sents, kept, i + 1);
      assert sents[i..] == [sents[i]] + sents[i + 1..];
      assert ([sents[i]] + rest)[1..] == rest && [] + rest == rest;
      if t in AllToks(cs, rest) {
        ChosenToks(cs, sents, kept, i + 1, t);
      }
    }
  }

  /** Extraction never makes up a token, whatever is kept: so it always passes the guard. */
  lemma ExtractKeepsFacts(cs: Chars, text: string, target: int, count: Counter, query: string)
    requires cs.Sane()
    ensures Facts(cs, Extract(cs, text, target, count, query)) <= Facts(cs, text)
  {
    var sents := Sentences(cs, text);
    if sents != [] {
      var kept := KeptSet(cs, text, target, count, query);
      var chosen := Chosen(sents, kept, 0);
      JoinKeepsToks(cs, chosen, " ");
      SentencesKeepToks(cs, text);
      forall t | t in Toks(cs, Join(chosen, " ")) ensures t in Toks(cs, text) {
        ChosenToks(cs, sents, kept, 0, t);
        assert sents[0..] == sents;
      }
    }
  }

  // ---------------------------------------------------------------- compression

  datatype Tier = NoTier | StructuralTier | ExtractiveTier | AbstractiveTier

  datatype Block = Block(text: string, originalTokens: nat, compressedTokens: nat, tier: Tier, guardPassed: bool)

  /** The optional summarizing backend: what its one call would do. */
  datatype Summarizer = Absent | Failing | Answers(text: string)

  predicate RetentionOk(cs: Chars, original: string, compressed: string) {
    Facts(cs, compressed) <= Facts(cs, original)
  }

  method Compress(cs: Chars, text: string, target: int, count: Counter, query: string, llm: Summarizer)
    returns (r: Block)
    ensures r == Compressed(cs, text, target, count, query, llm)
  {
    var structural := Structural(cs, text);
    var sTok := count(structural);
    if sTok <= target {
      return Block(structural, count(text), sTok, if structural != text then StructuralTier else NoTier, true);
    }
    var extractive := Extractive(cs, structural, target, count, query);
    var original := CollectFacts(cs, text);
    var kept := CollectFacts(cs, extractive);
    if !(kept <= original) {
      return Block(structural, count(text), sTok, StructuralTier, false);
    }
    var eTok := count(extractive);
    if llm.Answers? && eTok > target {
      var abstractive := Strip(cs, llm.text);
      if abstractive != "" {
        var facts := CollectFacts(cs, abstractive);
        if facts <= original && count(abstractive) <= eTok {
          return Block(abstractive, count(text), count(abstractive), AbstractiveTier, true);
        }
      }
    }
    r := Block(extractive, count(text), eTok, ExtractiveTier, true);
  }

  function Compressed(cs: Chars, text: string, target: int, count: Counter, query: string, llm: Summarizer): Block {
    var structural := Structural(cs, text);
    var sTok := count(structural);
    if sTok <= target then
      Block(structural, count(text), sTok, if structural != text then StructuralTier else NoTier, true)
    else
      var extractive := Extract(cs, structural, target, count, query);
      var eTok := count(extractive);
      if !RetentionOk(cs, text, extractive) then Block(structural, count(text), sTok, StructuralTier, false)
      else if llm.Answers? && eTok > target && Strip(cs, llm.text) != "" && RetentionOk(cs, text, Strip(cs, llm.text))
              && count(Strip(cs, llm.text)) <= eTok
      then Block(Strip(cs, llm.text), count(text), count(Strip(cs, llm.text)), AbstractiveTier, true)
      else Block(extractive, count(text), eTok, ExtractiveTier, true)
  }

  /** On every return path the facts of the result are among the original's; the lossless tiers keep
      them all; and the fallback for a failed guard is never taken. */
  lemma CompressionNeverFabricates(cs: Chars, text: string, target: int, count: Counter, query: string, llm: Summarizer)
    requires cs.Sane()
    ensures var b := Compressed(cs, text, target, count, query, llm);
      && Facts(cs, b.text) <= Facts(cs, text)
      && (b.tier == NoTier || b.tier == StructuralTier ==>
            Facts(cs, b.text) == Facts(cs, text) && b.compressedTokens <= target)
      && b.guardPassed
      && b.originalTokens == count(text) && b.compressedTokens == count(b.text)
  {
    StructuralKeepsFacts(cs, text);
    ExtractKeepsFacts(cs, Structural(cs, text), target, count, query);
  }

  // ---------------------------------------------------------------- the extractive budget

  function TotalTokens(parts: seq<string>, count: Counter): int { SumBy(parts, (p: string) => count(p)) }

  lemma {:induction false} ChosenAdd(sents: seq<string>, kept: set<nat>, j: nat, i: nat, count: Counter)
    requires j < |sents| && i <= |sents| && j !in kept
    ensures var (a, b) := (Chosen(sents, kept, i), Chosen(sents, kept + {j}, i));
      if i <= j then |b| == |a| + 1 && TotalTokens(b, count) == TotalTokens(a, count) + count(sents[j]) else b == a
    decreases |sents| - i
  {
    if i < |sents| {
      ChosenAdd(sents, kept, j, i + 1, count);
      var (a, b) := (Chosen(sents, kept, i + 1), Chosen(sents, kept + {j}, i + 1));
      assert ([sents[i]] + a)[1..] == a && ([sents[i]] + b)[1..] == b;
      assert [] + a == a && [] + b == b;
    }
  }

  lemma {:induction false} ChosenNone(sents: seq<string>, i: nat)
    requires i <= |sents|
    ensures Chosen(sents, {}, i) == []
    decreases |sents| - i
  {
    if i < |sents| {
      ChosenNone(sents, i + 1);
    }
  }

  /** Never more than the target, except for a single sentence that is too long by itself. */
  ghost predicate WithinTarget(sents: seq<string>, kept: set<nat>, target: int, count: Counter) {
    var chosen := Chosen(sents, kept, 0);
    |chosen| == 1 || (|chosen| > 1 && TotalTokens(chosen, count) <= target)
  }

  lemma {:induction false} KeepWithinTarget(order: seq<nat>, sents: seq<string>, target: int, count: Counter,
                                            kept: set<nat>, used: int)
    requires Distinct(order) && forall k :: 0 <= k < |order| ==> order[k] < |sents| && order[k] !in kept
    requires used == TotalTokens(Chosen(sents, kept, 0), count)
    requires if kept == {} then order != [] else used < target && Chosen(sents, kept, 0) != []
    ensures WithinTarget(sents, Keep(order, sents, target, count, kept, used), target, count)
    decreases |order|
  {
    if order != [] {
      var (i, t) := (order[0], count(sents[order[0]]));
      if kept == {} {
        ChosenNone(sents, 0);
      }
      ChosenAdd(sents, kept, i, 0, count);
      if used + t > target && kept != {} {
        KeepWithinTarget(order[1..], sents, target, count, kept, used);
      } else if used + t < target {
        KeepWithinTarget(order[1..], sents, target, count, kept + {i}, used + t);
      }
    }
  }

  /** What extraction keeps is one sentence, or several that total at most the target. */
  lemma ExtractiveBudget(cs: Chars, text: string, target: int, count: Counter, query: string)
    requires Sentences(cs, text) != []
    ensures WithinTarget(Sentences(cs, text), KeptSet(cs, text, target, count, query), target, count)
  {
    var sents := Sentences(cs, text);
    OrderInRange(cs, query, sents);
    ChosenNone(sents, 0);
    KeepWithinTarget(ReadingOrder(cs, query, sents), sents, target, count, {}, 0);
  }

  lemma {:induction false} LengthsRoundUp(parts: seq<string>)
    ensures SumBy(parts, (p: string) => |p|) <= 4 * TotalTokens(parts, HeuristicCount)
  {
    if parts != [] {
      LengthsRoundUp(parts[1..]);
      assert TotalTokens(parts, HeuristicCount) == HeuristicCount(parts[0]) + TotalTokens(parts[1..], HeuristicCount);
      assert |parts[0]| <= 4 * HeuristicCount(parts[0]);
    }
  }

  /** Under the four-characters heuristic, m > 1 kept sentences joined by spaces count at most
      target + ceil((m - 1) / 4). */
  lemma ExtractiveOverhead(cs: Chars, text: string, target: int, query: string)
    requires Sentences(cs, text) != []
    ensures var chosen := Chosen(Sentences(cs, text), KeptSet(cs, text, target, HeuristicCount, query), 0);
      && Extract(cs, text, target, HeuristicCount, query) == Join(chosen, " ")
      && (|chosen| > 1 ==>
            HeuristicCount(Extract(cs, text, target, HeuristicCount, query)) <= target + (|chosen| - 1 + 3) / 4)
  {
    ExtractiveBudget(cs, text, target, HeuristicCount, query);
    var chosen := Chosen(Sentences(cs, text), KeptSet(cs, text, target, HeuristicCount, query), 0);
    JoinLength(chosen, " ");
    LengthsRoundUp(chosen);
  }

  // ---------------------------------------------------------------- the pipeline's compress loop

  /** The compressed candidate: replaced only when that saves tokens. */
  function CompressOne(cs: Chars, c: Candidate, target: int, count: Counter, query: string): Candidate {
    var b := Compressed(cs, c.content, target, count, query, Absent);
    if b.compressedTokens < b.originalTokens then c.(content := b.text) else c
  }

  ghost predicate Shrinks(cs: Chars, c: Candidate, c': Candidate, count: Counter) {
    && count(c'.content) <= count(c.content)
    && Facts(cs, c'.content) <= Facts(cs, c.content)
    && c' == c.(content := c'.content)
  }

  method CompressCandidate(cs: Chars, c: Candidate, target: int, count: Counter, query: string)
    returns (c': Candidate, gain: nat)
    requires cs.Sane()
    ensures c' == CompressOne(cs, c, target, count, query)
    ensures gain == count(c.content) - count(c'.content)
  {
    var block := Compress(cs, c.content, target, count, query, Absent);
    CompressionNeverFabricates(cs, c.content, target, count, query, Absent);
    if block.compressedTokens < block.originalTokens {
      return c.(content := block.text), block.originalTokens - block.compressedTokens;
    }
    return c, 0;
  }

  /** No candidate grows, none gains a fact, only contents change, and `saved` is exactly the drop
      in the total token count. */
  method CompressAll(cs: Chars, cands: seq<Candidate>, target: int, count: Counter, query: string)
    returns (out: seq<Candidate>, saved: int)
    requires cs.Sane()
    ensures out == Map(cands, (c: Candidate) => CompressOne(cs, c, target, count, query))
    ensures saved == CandidateTokens(cands, count) - CandidateTokens(out, count) && saved >= 0
    ensures forall i :: 0 <= i < |cands| ==> Shrinks(cs, cands[i], out[i], count)
  {
    ghost var whole := Map(cands, (c: Candidate) => CompressOne(cs, c, target, count, query));
    out, saved := [], 0;
    for i := 0 to |cands|
      invariant out == whole[..i] && saved >= 0
      invariant saved == CandidateTokens(cands[..i], count) - CandidateTokens(out, count)
    {
      var next, gain := CompressCandidate(cs, cands[i], target, count, query);
      TakeSnoc(cands, i);
      TakeSnoc(whole, i);
      SumBySnoc(cands[..i], cands[i], (c: Candidate) => count(c.content));
      SumBySnoc(out, next, (c: Candidate) => count(c.content));
      out, saved := out + [next], saved + gain;
    }
    assert cands[..|cands|] == cands;
    forall i | 0 <= i < |cands| ensures Shrinks(cs, cands[i], out[i], count) {
      CompressOneShrinks(cs, cands[i], target, count, query);
    }
  }

  lemma CompressOneShrinks(cs: Chars, c: Candidate, target: int, count: Counter, query: string)
    requires cs.Sane()
    ensures Shrinks(cs, c, CompressOne(cs, c, target, count, query), count)
  {
    CompressionNeverFabricates(cs, c.content, target, count, query, Absent);
  }

  // ---------------------------------------------------------------- what compression leaves alone

  /** No white space and no end of a sentence. */
  ghost predicate Solid(cs: Chars, s: string) {
    forall i :: 0 <= i < |s| ==> !cs.isSpace(s[i]) && !IsBlank(s[i]) && !IsNewline(s[i]) && !IsEnd(s[i])
  }

  lemma {:induction false} CollapseLeavesSolid(cs: Chars, s: string)
    requires Solid(cs, s)
    ensures CollapseBlanks(s) == s && CollapseNewlines(s) == s
  {
    if s != "" {
      CollapseLeavesSolid(cs, s[1..]);
      assert s == [s[0]] + s[1..];
    }
  }

  lemma StructuralLeavesSolid(cs: Chars, s: string)
    requires Solid(cs, s)
    ensures Strip(cs, s) == s && Structural(cs, s) == s
  {
    CollapseLeavesSolid(cs, s);
    assert Span(s, cs.isSpace) == 0 || s == "";
  }

  lemma OneSentence(cs: Chars, s: string)
    requires Solid(cs, s) && s != ""
    ensures Sentences(cs, s) == [s]
  {
    var n := Span(s, InSentence);
    assert n == |s| && s[..n] == s && s[n..] == "";
    StructuralLeavesSolid(cs, s);
    assert RawSentences(s) == [s] && Cleaned(cs, [s][1..]) == [];
  }

  lemma ExtractLeavesSolid(cs: Chars, s: string, target: int, count: Counter, query: string)
    requires Solid(cs, s)
    ensures Extract(cs, s, target, count, query) == s
  {
    if s != "" {
      OneSentence(cs, s);
      ExtractiveBudget(cs, s, target, count, query);
      var kept := KeptSet(cs, s, target, count, query);
      assert Chosen([s], kept, 1) == [];
      assert Chosen([s], kept, 0) == [s];
    }
  }

  lemma CompressedSolid(cs: Chars, s: string, target: int, count: Counter, query: string)
    requires Structural(cs, s) == s && Extract(cs, s, target, count, query) == s
    ensures var b := Compressed(cs, s, target, count, query, Absent);
      b.text == s && b.compressedTokens == b.originalTokens
  {
  }

  /** A text without white space and without an end of a sentence comes through as it is, whatever the
      target: no tier can shorten it. */
  lemma CompressionLeavesSolid(cs: Chars, c: Candidate, target: int, count: Counter, query: string)
    requires Solid(cs, c.content)
    ensures CompressOne(cs, c, target, count, query) == c
  {
    StructuralLeavesSolid(cs, c.content);
    ExtractLeavesSolid(cs, c.content, target, count, query);
    CompressedSolid(cs, c.content, target, count, query);
  }
}
