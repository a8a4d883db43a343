/** The two-tier response cache (cache/keys.py, cache/backend.py, cache/engine.py).

    The hash, the embedder and the cosine are parameters; a failing embedder (`None`) exercises the
    fail-open paths. Clock readings are inputs and need not even be monotone. */
module Cache {
  import opened Prelude
  import opened Dict
  import opened Text
  import opened Messages

  datatype Env = Env(sha: string -> string, chars: Chars, embed: string -> Option<Vec>,
                     cosine: (Vec, Vec) -> real, threshold: real, defaultTtl: int) {
    /** Collision-free, with digests that hold no separator. */
    ghost predicate HashOk() {
      && (forall x, y :: sha(x) == sha(y) ==> x == y)
      && (forall x :: UNIT_SEP !in sha(x))
    }
  }

  // ---------------------------------------------------------------- keys

  function WordsOf(cs: Chars, q: string): seq<string> { Runs(cs.Lower(q), (c: char) => !cs.isSpace(c)) }

  /** `" ".join(query.lower().split())` */
  function Normalize(cs: Chars, q: string): string { Join(WordsOf(cs, q), " ") }

  datatype Partition = Partition(tenant: string, namespace: string, model: string, sysver: string, factsver: string) {
    function Fields(): seq<string> { [tenant, namespace, model, sysver, factsver] }

    /** What tells partitions apart inside one tenant's dictionary. */
    function Rest(): seq<string> { [namespace, model, sysver, factsver] }
  }

  function PartitionText(p: Partition): string { Join(p.Fields(), [UNIT_SEP]) }

  function Prefilter(env: Env, p: Partition): string { env.sha(PartitionText(p)) }

  function ExactKey(env: Env, p: Partition, q: string): string {
    env.sha(Join([Prefilter(env, p), Normalize(env.chars, q)], [UNIT_SEP]))
  }

  /** `s.split("\x1f")` */
  function SplitSep(s: string): (r: seq<string>)
    ensures r != []
  {
    if s == "" then [""]
    else
      var r := SplitSep(s[1..]);
      if s[0] == UNIT_SEP then [""] + r else [[s[0]] + r[0]] + r[1..]
  }

  ghost predicate SepFree(parts: seq<string>) { forall i :: 0 <= i < |parts| ==> UNIT_SEP !in parts[i] }

  lemma {:induction false} SplitHead(a: string, t: string)
    requires UNIT_SEP !in a
    ensures SplitSep(a + [UNIT_SEP] + t) == [a] + SplitSep(t) && SplitSep(a) == [a]
  {
    if a == "" {
      assert a + [UNIT_SEP] + t == [UNIT_SEP] + t && ([UNIT_SEP] + t)[1..] == t;
    } else {
      SplitHead(a[1..], t);
      assert a == [a[0]] + a[1..];
      assert (a + [UNIT_SEP] + t)[1..] == a[1..] + [UNIT_SEP] + t;
    }
  }

  lemma {:induction false} SplitPiecesAreFree(s: string)
    ensures SepFree(SplitSep(s))
  {
    if s != "" {
      SplitPiecesAreFree(s[1..]);
    }
  }

  /** Splitting undoes joining exactly when no part holds the separator. */
  lemma {:induction false} SplitInvertsJoin(parts: seq<string>)
    requires parts != []
    ensures SplitSep(Join(parts, [UNIT_SEP])) == parts <==> SepFree(parts)
  {
    SplitPiecesAreFree(Join(parts, [UNIT_SEP]));
    if SepFree(parts) {
      JoinThenSplit(parts);
    }
  }

  lemma {:induction false} JoinThenSplit(parts: seq<string>)
    requires parts != [] && SepFree(parts)
    ensures SplitSep(Join(parts, [UNIT_SEP])) == parts
  {
    SplitHead(parts[0], if |parts| > 1 then Join(parts[1..], [UNIT_SEP]) else "");
    assert parts == [parts[0]] + parts[1..];
    if |parts| > 1 {
      JoinThenSplit(parts[1..]);
    }
  }

  // ---------------------------------------------------------------- what a join determines

  lemma ConsTail(c: char, a: string, t: string)
    requires a != "" && a[0] == c
    ensures (a + [UNIT_SEP] + t)[1..] == a[1..] + [UNIT_SEP] + t && (a + [UNIT_SEP] + t)[0] == c
  {
  }

  lemma HeadMerge(h: string, r: seq<string>, t: seq<string>)
    requires r != []
    ensures (r + t)[0] == r[0] && [h] + (r + t)[1..] == [h] + r[1..] + t
  {
  }

  lemma {:induction false} SplitConcat(a: string, t: string)
    ensures SplitSep(a + [UNIT_SEP] + t) == SplitSep(a) + SplitSep(t)
  {
    if a == "" {
      assert a + [UNIT_SEP] + t == [UNIT_SEP] + t && ([UNIT_SEP] + t)[1..] == t;
    } else {
      SplitConcat(a[1..], t);
      ConsTail(a[0], a, t);
      var r := SplitSep(a[1..]);
      HeadMerge([a[0]] + r[0], r, SplitSep(t));
      assert [""] + (r + SplitSep(t)) == [""] + r + SplitSep(t);
    }
  }

  lemma {:induction false} SplitOne(a: string)
    ensures |SplitSep(a)| == 1 <==> UNIT_SEP !in a
  {
    if a != "" {
      SplitOne(a[1..]);
      assert a == [a[0]] + a[1..];
    }
  }

  /** Splitting a join gives at least as many pieces as there were parts, and exactly as many only
      when no part holds the separator. */
  lemma {:induction false} PiecesOfJoin(parts: seq<string>)
    requires parts != []
    ensures |SplitSep(Join(parts, [UNIT_SEP]))| >= |parts|
    ensures |SplitSep(Join(parts, [UNIT_SEP]))| == |parts| <==> SepFree(parts)
  {
    SplitOne(parts[0]);
    if |parts| > 1 {
      PiecesOfJoin(parts[1..]);
      SplitConcat(parts[0], Join(parts[1..], [UNIT_SEP]));
      assert SepFree(parts) <==> UNIT_SEP !in parts[0] && SepFree(parts[1..]) by { SepFreeCons(parts); }
    }
  }

  lemma SepFreeCons(parts: seq<string>)
    requires parts != []
    ensures SepFree(parts) <==> UNIT_SEP !in parts[0] && SepFree(parts[1..])
  {
    if UNIT_SEP !in parts[0] && SepFree(parts[1..]) {
      forall i | 0 <= i < |parts| ensures UNIT_SEP !in parts[i] {
        assert i > 0 ==> parts[i] == parts[1..][i - 1];
      }
    }
  }

  lemma ConsAssoc(h: string, pre: seq<string>, x: seq<string>, post: seq<string>)
    ensures [h] + pre + x + post == [h] + (pre + x + post)
  {
  }

  /** Two neighbours join like the one part that holds both. */
  lemma {:induction false} JoinPair(pre: seq<string>, x: string, y: string, post: seq<string>)
    ensures Join(pre + [x, y] + post, [UNIT_SEP]) == Join(pre + [x + [UNIT_SEP] + y] + post, [UNIT_SEP])
  {
    if pre == [] {
      var (a, b) := ([x, y] + post, [x + [UNIT_SEP] + y] + post);
      assert pre + [x, y] + post == a && pre + [x + [UNIT_SEP] + y] + post == b;
      assert a[1..] == [y] + post && b[1..] == post && a[1..][1..] == post;
      if post == [] {
        assert Join(a[1..], [UNIT_SEP]) == y;
      } else {
        assert x + [UNIT_SEP] + (y + [UNIT_SEP] + Join(post, [UNIT_SEP]))
            == x + [UNIT_SEP] + y + [UNIT_SEP] + Join(post, [UNIT_SEP]);
      }
    } else {
      var (h, rest) := (pre[0], pre[1..]);
      JoinPair(rest, x, y, post);
      assert pre == [h] + rest;
      ConsAssoc(h, rest, [x, y], post);
      ConsAssoc(h, rest, [x + [UNIT_SEP] + y], post);
      JoinCons(h, rest + [x, y] + post);
      JoinCons(h, rest + [x + [UNIT_SEP] + y] + post);
    }
  }

  lemma JoinCons(h: string, parts: seq<string>)
    requires parts != []
    ensures Join([h] + parts, [UNIT_SEP]) == h + [UNIT_SEP] + Join(parts, [UNIT_SEP])
  {
    assert ([h] + parts)[1..] == parts;
  }

  /** `s` cut at a separator inside it. */
  lemma CutAt(s: string) returns (a: string, b: string)
    requires UNIT_SEP in s
    ensures s == a + [UNIT_SEP] + b && |a| < |s|
  {
    var k :| 0 <= k < |s| && s[k] == UNIT_SEP;
    a, b := s[..k], s[k + 1..];
  }

  /** What follows a separator inside a part moves over to the neighbour, and nobody can tell. */
  lemma OtherParts(parts: seq<string>, i: nat) returns (other: seq<string>)
    requires |parts| >= 2 && i < |parts| && UNIT_SEP in parts[i]
    ensures |other| == |parts| && other != parts && Join(other, [UNIT_SEP]) == Join(parts, [UNIT_SEP])
  {
    var a, b := CutAt(parts[i]);
    if i + 1 < |parts| {
      var (pre, c, post) := (parts[..i], parts[i + 1], parts[i + 2..]);
      other := pre + [a, b + [UNIT_SEP] + c] + post;
      assert parts == pre + [parts[i], c] + post && other[i] == a;
      MoveRight(pre, a, b, c, post);
    } else {
      var (pre, c) := (parts[..i - 1], parts[i - 1]);
      other := pre + [c + [UNIT_SEP] + a, b];
      assert parts == pre + [c, parts[i]] && other[i - 1] == c + [UNIT_SEP] + a;
      assert |other[i - 1]| > |parts[i - 1]|;
      MoveLeft(pre, c, a, b);
    }
  }

  lemma MoveRight(pre: seq<string>, a: string, b: string, c: string, post: seq<string>)
    ensures Join(pre + [a, b + [UNIT_SEP] + c] + post, [UNIT_SEP])
      == Join(pre + [a + [UNIT_SEP] + b, c] + post, [UNIT_SEP])
  {
    JoinPair(pre, a + [UNIT_SEP] + b, c, post);
    JoinPair(pre, a, b + [UNIT_SEP] + c, post);
    assert a + [UNIT_SEP] + b + [UNIT_SEP] + c == a + [UNIT_SEP] + (b + [UNIT_SEP] + c);
  }

  lemma MoveLeft(pre: seq<string>, c: string, a: string, b: string)
    ensures Join(pre + [c + [UNIT_SEP] + a, b], [UNIT_SEP]) == Join(pre + [c, a + [UNIT_SEP] + b], [UNIT_SEP])
  {
    MoveRight(pre, c, a, b, []);
    assert pre + [c + [UNIT_SEP] + a, b] + [] == pre + [c + [UNIT_SEP] + a, b];
    assert pre + [c, a + [UNIT_SEP] + b] + [] == pre + [c, a + [UNIT_SEP] + b];
  }

  ghost predicate SameJoin(a: seq<string>, b: seq<string>) { Join(a, [UNIT_SEP]) == Join(b, [UNIT_SEP]) }

  /** Among lists of one length, and of two or more parts, the joined text determines its parts exactly
      when no part holds the separator. */
  lemma JoinDeterminesParts(parts: seq<string>)
    requires |parts| >= 2
    ensures (forall other :: |other| == |parts| && SameJoin(other, parts) ==> other == parts) <==> SepFree(parts)
  {
    if SepFree(parts) {
      JoinThenSplit(parts);
      forall other | |other| == |parts| && SameJoin(other, parts) ensures other == parts {
        PiecesOfJoin(other);
        JoinThenSplit(other);
      }
    } else {
      var i :| 0 <= i < |parts| && UNIT_SEP in parts[i];
      var other := OtherParts(parts, i);
      assert SameJoin(other, parts);
    }
  }

  function PartitionOf(f: seq<string>): (p: Partition)
    requires |f| == 5
    ensures p.Fields() == f
  {
    Partition(f[0], f[1], f[2], f[3], f[4])
  }

  lemma FieldsAreThePartition(p: Partition, p': Partition)
    ensures p.Fields() == p'.Fields() <==> p == p'
  {
    var (f, g) := (p.Fields(), p'.Fields());
    if f == g {
      assert f[0] == g[0] && f[1] == g[1] && f[2] == g[2] && f[3] == g[3] && f[4] == g[4];
    }
  }

  /** A partition is told apart from every other one exactly when none of its fields holds \x1f. */
  lemma PartitionTextIsUnique(p: Partition)
    ensures (forall p' :: PartitionText(p') == PartitionText(p) ==> p' == p) <==> SepFree(p.Fields())
  {
    JoinDeterminesParts(p.Fields());
    if SepFree(p.Fields()) {
      forall p' | PartitionText(p') == PartitionText(p) ensures p' == p {
        assert SameJoin(p'.Fields(), p.Fields());
        FieldsAreThePartition(p, p');
      }
    } else {
      var other :| |other| == 5 && SameJoin(other, p.Fields()) && other != p.Fields();
      assert PartitionText(PartitionOf(other)) == PartitionText(p);
    }
  }

  /** Two requests share an exact key exactly when they share the partition text and the normalized
      query, and a prefilter exactly when they share the partition text. */
  lemma KeysSeparate(env: Env, p: Partition, q: string, p': Partition, q': string)
    requires env.HashOk()
    ensures ExactKey(env, p, q) == ExactKey(env, p', q') <==>
      PartitionText(p) == PartitionText(p') && Normalize(env.chars, q) == Normalize(env.chars, q')
    ensures Prefilter(env, p) == Prefilter(env, p') <==> PartitionText(p) == PartitionText(p')
  {
    var (a, b) := (Prefilter(env, p), Normalize(env.chars, q));
    var (a', b') := (Prefilter(env, p'), Normalize(env.chars, q'));
    JoinTwo(a, b);
    JoinTwo(a', b');
    SplitHead(a, b);
    SplitHead(a', b');
    if a + [UNIT_SEP] + b == a' + [UNIT_SEP] + b' {
      assert a == SplitSep(a + [UNIT_SEP] + b)[0] == a';
      assert b == (a + [UNIT_SEP] + b)[|a| + 1..] == b';
    }
  }

  lemma JoinTwo(a: string, b: string)
    ensures Join([a, b], [UNIT_SEP]) == a + [UNIT_SEP] + b
  {
    assert [a, b][1..] == [b];
  }

  lemma TenantThenRest(p: Partition)
    ensures PartitionText(p) == p.tenant + [UNIT_SEP] + Join(p.Rest(), [UNIT_SEP])
  {
    assert p.Fields() == [p.tenant] + p.Rest();
    JoinCons(p.tenant, p.Rest());
  }

  lemma RestIsThePartition(p: Partition, p': Partition)
    requires p.tenant == p'.tenant && p.Rest() == p'.Rest()
    ensures p == p'
  {
    var (f, g) := (p.Rest(), p'.Rest());
    assert f[0] == g[0] && f[1] == g[1] && f[2] == g[2] && f[3] == g[3];
  }

  /** The partitions of p's own tenant that have p's text. */
  ghost predicate Twin(p: Partition, p': Partition) {
    p'.tenant == p.tenant && PartitionText(p') == PartitionText(p)
  }

  lemma TwinsJoinAlike(p: Partition, p': Partition)
    requires p'.tenant == p.tenant
    ensures Twin(p, p') <==> SameJoin(p'.Rest(), p.Rest())
  {
    TenantThenRest(p);
    TenantThenRest(p');
    HeadAndTail(p.tenant + [UNIT_SEP], Join(p.Rest(), [UNIT_SEP]), Join(p'.Rest(), [UNIT_SEP]));
  }

  lemma HeadAndTail(a: string, x: string, y: string)
    ensures a + x == a + y <==> x == y
  {
    if a + x == a + y {
      assert x == (a + x)[|a|..] == (a + y)[|a|..] == y;
    }
  }

  /** Inside a tenant a partition is told apart from every other one exactly when none of its other four
      fields holds \x1f. */
  lemma UniqueInTenant(p: Partition)
    ensures (forall p' :: Twin(p, p') ==> p' == p) <==> SepFree(p.Rest())
  {
    JoinDeterminesParts(p.Rest());
    if SepFree(p.Rest()) {
      forall p' | Twin(p, p') ensures p' == p {
        TwinsJoinAlike(p, p');
        RestIsThePartition(p, p');
      }
    } else {
      var other :| |other| == 4 && SameJoin(other, p.Rest()) && other != p.Rest();
      var p' := Partition(p.tenant, other[0], other[1], other[2], other[3]);
      assert p'.Rest() == other;
      TwinsJoinAlike(p, p');
    }
  }

  /** Whatever is asked, the two partitions use the same exact key. */
  ghost predicate ShareKeys(env: Env, p: Partition, p': Partition) {
    forall q :: ExactKey(env, p, q) == ExactKey(env, p', q)
  }

  /** So, for a collision-free hash, a partition shares its keys with another one exactly when one of
      its fields holds \x1f. */
  lemma PartitionsCollide(env: Env, p: Partition)
    requires env.HashOk()
    ensures (exists p' :: ShareKeys(env, p, p') && p' != p) <==> !SepFree(p.Fields())
  {
    PartitionTextIsUnique(p);
    forall p', q ensures ExactKey(env, p, q) == ExactKey(env, p', q) <==> PartitionText(p) == PartitionText(p') {
      KeysSeparate(env, p, q, p', q);
    }
    if !SepFree(p.Fields()) {
      var p' :| PartitionText(p') == PartitionText(p) && p' != p;
      assert ShareKeys(env, p, p');
    } else if p' :| ShareKeys(env, p, p') && p' != p {
      assert ExactKey(env, p, "") == ExactKey(env, p', "");
    }
  }

  ghost predicate Word(cs: Chars, w: string) { w != "" && forall k :: 0 <= k < |w| ==> !cs.isSpace(w[k]) }

  ghost predicate AllWords(cs: Chars, words: seq<string>) { forall i :: 0 <= i < |words| ==> Word(cs, words[i]) }

  lemma {:induction false} RunsAreWords(s: string, cs: Chars)
    ensures AllWords(cs, Runs(s, (c: char) => !cs.isSpace(c)))
    decreases |s|
  {
    var p := (c: char) => !cs.isSpace(c);
    if s != "" {
      if !p(s[0]) {
        RunsAreWords(s[1..], cs);
      } else {
        RunsAreWords(s[Span(s, p)..], cs);
      }
    }
  }

  lemma {:induction false} SplitJoinedWords(cs: Chars, words: seq<string>)
    requires cs.isSpace(' ') && AllWords(cs, words)
    ensures Runs(Join(words, " "), (c: char) => !cs.isSpace(c)) == words
  {
    var p := (c: char) => !cs.isSpace(c);
    if words != [] {
      var w := words[0];
      OneRun(w, p);
      assert words == [w] + words[1..];
      if |words| > 1 {
        SplitJoinedWords(cs, words[1..]);
        var rest := Join(words[1..], " ");
        RunsConcat(" ", rest, p);
        RunsConcat(w, " " + rest, p);
        assert w + " " + rest == w + (" " + rest);
        NoRuns(" ", p);
      }
    }
  }

  lemma OneRun(w: string, p: char -> bool)
    requires w != "" && forall k :: 0 <= k < |w| ==> p(w[k])
    ensures Runs(w, p) == [w]
  {
    assert Span(w, p) == |w|;
    assert w[..|w|] == w && w[|w|..] == "";
  }

  /** Queries normalize to the same string exactly when their lowercased words agree. */
  lemma NormalizeKeepsWords(cs: Chars, a: string, b: string)
    requires cs.isSpace(' ')
    ensures Normalize(cs, a) == Normalize(cs, b) <==> WordsOf(cs, a) == WordsOf(cs, b)
  {
    RunsAreWords(cs.Lower(a), cs);
    RunsAreWords(cs.Lower(b), cs);
    SplitJoinedWords(cs, WordsOf(cs, a));
    SplitJoinedWords(cs, WordsOf(cs, b));
  }

  /** So letter case does not matter. */
  lemma CaseIgnored(cs: Chars, a: string, b: string)
    requires Map(a, cs.lower) == Map(b, cs.lower)
    ensures Normalize(cs, a) == Normalize(cs, b)
  {
  }

  ghost predicate Blank(cs: Chars, s: string) { forall k :: 0 <= k < |s| ==> cs.isSpace(cs.lower(s[k])) }

  /** Nor does it matter how much white space stands between words, or at the ends. */
  lemma SpacingIgnored(cs: Chars, a: string, gap: string, b: string)
    requires Blank(cs, gap) && gap != ""
    ensures WordsOf(cs, a + gap + b) == WordsOf(cs, a) + WordsOf(cs, b)
  {
    var p := (c: char) => !cs.isSpace(c);
    var (la, lg, lb) := (cs.Lower(a), cs.Lower(gap), cs.Lower(b));
    LowerOfThree(cs, a, gap, b);
    BlankRuns(lg, lb, p);
    RunsConcat(la, lg + lb, p);
  }

  lemma LowerOfThree(cs: Chars, a: string, b: string, c: string)
    ensures cs.Lower(a + b + c) == cs.Lower(a) + (cs.Lower(b) + cs.Lower(c))
  {
  }

  lemma BlankRuns(gap: string, s: string, p: char -> bool)
    requires gap != "" && forall k :: 0 <= k < |gap| ==> !p(gap[k])
    ensures Runs(gap + s, p) == Runs(s, p)
  {
    RunsConcat(gap, s, p);
    NoRuns(gap, p);
  }

  // ---------------------------------------------------------------- the backend

  datatype Stored = Stored(key: string, tenant: string, fingerprint: string, embedding: Vec, response: string,
                           expiresAt: real)

  type Rows = seq<Pair<string, Stored>>

  type State = map<string, Rows>

  function RowsOf(st: State, tenant: string): Rows { if tenant in st then st[tenant] else [] }

  predicate Live(s: Stored, now: real) { now < s.expiresAt }

  function GetExact(st: State, tenant: string, key: string, now: real): Option<Stored> {
    match Get(RowsOf(st, tenant), key)
    case Some(s) => if Live(s, now) then Some(s) else None
    case None => None
  }

  function PutStored(st: State, s: Stored): State { st[s.tenant := Put(RowsOf(st, s.tenant), s.key, s)] }

  datatype Probe = Probe(pre: string, embedding: Vec, now: real)

  function SimTo(env: Env, q: Probe, s: Stored): real { env.cosine(q.embedding, s.embedding) }

  /** An entry the search may return. The similarity -1 never beats the loop's starting value. */
  predicate Matches(env: Env, q: Probe, s: Stored) {
    Live(s, q.now) && s.fingerprint == q.pre && SimTo(env, q, s) >= env.threshold && SimTo(env, q, s) > -1.0
  }

  function Search(env: Env, q: Probe, entries: seq<Stored>): Option<Stored> {
    if entries == [] then None
    else
      var (best, s) := (Search(env, q, entries[..|entries| - 1]), entries[|entries| - 1]);
      if Matches(env, q, s) && (best.None? || SimTo(env, q, s) > SimTo(env, q, best.value)) then Some(s) else best
  }

  /** The search returns the first of the most similar entries that match, and none only if none do. */
  ghost predicate FirstBest(env: Env, q: Probe, entries: seq<Stored>, i: nat) {
    && i < |entries| && Matches(env, q, entries[i])
    && (forall j :: 0 <= j < |entries| && Matches(env, q, entries[j]) ==>
          SimTo(env, q, entries[j]) <= SimTo(env, q, entries[i]))
    && (forall j :: 0 <= j < i && Matches(env, q, entries[j]) ==> SimTo(env, q, entries[j]) < SimTo(env, q, entries[i]))
  }

  lemma {:induction false} SearchIsFirstBest(env: Env, q: Probe, entries: seq<Stored>)
    ensures Search(env, q, entries).None? <==> forall j :: 0 <= j < |entries| ==> !Matches(env, q, entries[j])
    ensures Search(env, q, entries).Some? ==>
      exists i: nat :: FirstBest(env, q, entries, i) && Search(env, q, entries) == Some(entries[i])
  {
    if entries != [] {
      var n := |entries| - 1;
      SearchIsFirstBest(env, q, entries[..n]);
      assert forall j :: 0 <= j < n ==> entries[..n][j] == entries[j];
      if Search(env, q, entries[..n]).Some? {
        var i: nat :| FirstBest(env, q, entries[..n], i) && Search(env, q, entries[..n]) == Some(entries[..n][i]);
        FirstBestSnoc(env, q, entries, i);
      } else if Matches(env, q, entries[n]) {
        assert FirstBest(env, q, entries, n);
      }
    }
  }

  lemma FirstBestSnoc(env: Env, q: Probe, entries: seq<Stored>, i: nat)
    requires entries != [] && FirstBest(env, q, entries[..|entries| - 1], i)
    ensures var n := |entries| - 1;
      if Matches(env, q, entries[n]) && SimTo(env, q, entries[n]) > SimTo(env, q, entries[i])
      then FirstBest(env, q, entries, n) else FirstBest(env, q, entries, i)
  {
    var n := |entries| - 1;
    assert forall j :: 0 <= j < n ==> entries[..n][j] == entries[j];
  }

  class InMemoryCacheBackend {
    var byTenant: State

    constructor ()
      ensures byTenant == map[]
    {
      byTenant := map[];
    }

    method SearchSemantic(env: Env, tenant: string, q: Probe) returns (r: Option<(Stored, real)>)
      ensures r == match Search(env, q, Values(RowsOf(byTenant, tenant)))
        case Some(s) => Some((s, SimTo(env, q, s)))
        case None => None
    {
      var entries := Values(RowsOf(byTenant, tenant));
      var best: Option<Stored>, bestSim := None, -1.0;
      for i := 0 to |entries|
        invariant best == Search(env, q, entries[..i])
        invariant bestSim == if best.Some? then SimTo(env, q, best.value) else -1.0
        invariant best.Some? ==> bestSim > -1.0
      {
        TakeSnoc(entries, i);
        assert entries[..i + 1][..i] == entries[..i];
        var s := entries[i];
        if Live(s, q.now) && s.fingerprint == q.pre {
          var sim := env.cosine(q.embedding, s.embedding);
          if sim >= env.threshold && sim > bestSim {
            best, bestSim := Some(s), sim;
          }
        }
      }
      assert entries[..|entries|] == entries;
      r := if best.Some? then Some((best.value, bestSim)) else None;
    }

    method PutEntry(s: Stored)
      modifies this
      ensures byTenant == PutStored(old(byTenant), s)
    {
      byTenant := byTenant[s.tenant := Put(RowsOf(byTenant, s.tenant), s.key, s)];
    }
  }

  // ---------------------------------------------------------------- the engine

  datatype Tier = Exact | Semantic

  datatype Hit = Hit(response: string, tier: Tier, similarity: real, key: string)

  function Lookup(env: Env, st: State, p: Partition, query: string, now: real): Option<Hit> {
    var key := ExactKey(env, p, query);
    match GetExact(st, p.tenant, key, now)
    case Some(s) => Some(Hit(s.response, Exact, 1.0, key))
    case None =>
      match env.embed(Normalize(env.chars, query))
      case None => None
      case Some(v) =>
        var q := Probe(Prefilter(env, p), v, now);
        match Search(env, q, Values(RowsOf(st, p.tenant)))
        case Some(s) => Some(Hit(s.response, Semantic, SimTo(env, q, s), s.key))
        case None => None
  }

  datatype Write = Write(at: real, partition: Partition, query: string, response: string, nonCacheable: bool,
                         ttl: Option<int>)

  /** `ttl_seconds or default` */
  function Ttl(env: Env, w: Write): int { if w.ttl.Some? && w.ttl.value != 0 then w.ttl.value else env.defaultTtl }

  /** Writes that are flagged, or whose query cannot be embedded, store nothing. */
  predicate Effective(env: Env, w: Write) { !w.nonCacheable && env.embed(Normalize(env.chars, w.query)).Some? }

  function KeyOf(env: Env, w: Write): string { ExactKey(env, w.partition, w.query) }

  function StoredOf(env: Env, w: Write): Stored {
    var v := env.embed(Normalize(env.chars, w.query));
    Stored(KeyOf(env, w), w.partition.tenant, Prefilter(env, w.partition), if v.Some? then v.value else [],
           w.response, w.at + Ttl(env, w) as real)
  }

  function StoreIn(env: Env, st: State, w: Write): State {
    if Effective(env, w) then PutStored(st, StoredOf(env, w)) else st
  }

  class SemanticCache {
    const backend: InMemoryCacheBackend
    const env: Env

    constructor (backend: InMemoryCacheBackend, env: Env)
      ensures this.backend == backend && this.env == env
    {
      this.backend, this.env := backend, env;
    }

    method LookupHit(p: Partition, query: string, now: real) returns (hit: Option<Hit>)
      ensures hit == Lookup(env, backend.byTenant, p, query, now)
    {
      var key := ExactKey(env, p, query);
      var exact := GetExact(backend.byTenant, p.tenant, key, now);
      if exact.Some? {
        return Some(Hit(exact.value.response, Exact, 1.0, key));
      }
      var v := env.embed(Normalize(env.chars, query));
      if v.None? {
        return None;
      }
      var sem := backend.SearchSemantic(env, p.tenant, Probe(Prefilter(env, p), v.value, now));
      if sem.Some? {
        return Some(Hit(sem.value.0.response, Semantic, sem.value.1, sem.value.0.key));
      }
      hit := None;
    }

    method StoreResponse(w: Write) returns (ok: bool)
      modifies backend
      ensures backend.byTenant == StoreIn(env, old(backend.byTenant), w)
      ensures ok == Effective(env, w)
    {
      if w.nonCacheable {
        return false;
      }
      var v := env.embed(Normalize(env.chars, w.query));
      if v.None? {
        return false;
      }
      backend.PutEntry(Stored(KeyOf(env, w), w.partition.tenant, Prefilter(env, w.partition), v.value,
                              w.response, w.at + Ttl(env, w) as real));
      ok := true;
    }
  }

  // ---------------------------------------------------------------- the history

  function After(env: Env, h: seq<Write>): State {
    if h == [] then map[] else StoreIn(env, After(env, h[..|h| - 1]), h[|h| - 1])
  }

  predicate Writes(env: Env, w: Write, tenant: string, key: string) {
    Effective(env, w) && w.partition.tenant == tenant && KeyOf(env, w) == key
  }

  /** The last write of a key, and the first. */
  function Latest(env: Env, h: seq<Write>, tenant: string, key: string): Option<nat> {
    if h == [] then None
    else if Writes(env, h[|h| - 1], tenant, key) then Some(|h| - 1)
    else Latest(env, h[..|h| - 1], tenant, key)
  }

  function First(env: Env, h: seq<Write>, tenant: string, key: string): Option<nat> {
    if h == [] then None
    else
      var f := First(env, h[..|h| - 1], tenant, key);
      if f.Some? then f else if Writes(env, h[|h| - 1], tenant, key) then Some(|h| - 1) else None
  }

  lemma {:induction false} LatestIsLatest(env: Env, h: seq<Write>, tenant: string, key: string)
    ensures match Latest(env, h, tenant, key)
      case Some(i) =>
        i < |h| && Writes(env, h[i], tenant, key) && forall j :: i < j < |h| ==> !Writes(env, h[j], tenant, key)
      case None => forall j :: 0 <= j < |h| ==> !Writes(env, h[j], tenant, key)
    ensures match First(env, h, tenant, key)
      case Some(i) =>
        i < |h| && Writes(env, h[i], tenant, key) && forall j :: 0 <= j < i ==> !Writes(env, h[j], tenant, key)
      case None => forall j :: 0 <= j < |h| ==> !Writes(env, h[j], tenant, key)
  {
    if h != [] {
      LatestIsLatest(env, h[..|h| - 1], tenant, key);
    }
  }

  /** The rows of a tenant: one per key ever written, holding its last write, in order of first write. */
  ghost predicate RowsMatch(env: Env, h: seq<Write>, tenant: string, rows: Rows) {
    && Distinct(Keys(rows))
    && (forall k :: k in Keys(rows) <==> Latest(env, h, tenant, k).Some?)
    && (forall i :: 0 <= i < |rows| ==> HoldsLatest(env, h, tenant, rows[i]))
    && (forall i, j :: 0 <= i < j < |rows| ==> Before(env, h, tenant, rows[i].key, rows[j].key))
  }

  ghost predicate HoldsLatest(env: Env, h: seq<Write>, tenant: string, row: Pair<string, Stored>) {
    var l := Latest(env, h, tenant, row.key);
    l.Some? && l.value < |h| && row.val == StoredOf(env, h[l.value])
  }

  ghost predicate Before(env: Env, h: seq<Write>, tenant: string, a: string, b: string) {
    var (x, y) := (First(env, h, tenant, a), First(env, h, tenant, b));
    x.Some? && y.Some? && x.value < y.value
  }

  lemma FirstIffLatest(env: Env, h: seq<Write>, tenant: string, key: string)
    ensures First(env, h, tenant, key).Some? <==> Latest(env, h, tenant, key).Some?
    ensures First(env, h, tenant, key).Some? ==> First(env, h, tenant, key).value < |h|
  {
    LatestIsLatest(env, h, tenant, key);
  }

  lemma {:induction false} HistoryRows(env: Env, h: seq<Write>, tenant: string)
    ensures RowsMatch(env, h, tenant, RowsOf(After(env, h), tenant))
    decreases |h|
  {
    if h != [] {
      var (h', w) := (h[..|h| - 1], h[|h| - 1]);
      HistoryRows(env, h', tenant);
      var rows := RowsOf(After(env, h'), tenant);
      if Effective(env, w) && w.partition.tenant == tenant {
        PutMatches(env, h, tenant, rows);
      } else {
        StillMatches(env, h, tenant, rows);
      }
    }
  }

  lemma StillMatches(env: Env, h: seq<Write>, tenant: string, rows: Rows)
    requires h != [] && RowsMatch(env, h[..|h| - 1], tenant, rows)
    requires !(Effective(env, h[|h| - 1]) && h[|h| - 1].partition.tenant == tenant)
    ensures RowsMatch(env, h, tenant, rows)
  {
    var h' := h[..|h| - 1];
    forall k
      ensures Latest(env, h, tenant, k) == Latest(env, h', tenant, k)
        && First(env, h, tenant, k) == First(env, h', tenant, k)
    {
    }
    forall i, j | 0 <= i < j < |rows| ensures Before(env, h, tenant, rows[i].key, rows[j].key) {
      assert Before(env, h', tenant, rows[i].key, rows[j].key);
    }
    forall i | 0 <= i < |rows| ensures HoldsLatest(env, h, tenant, rows[i]) {
      assert HoldsLatest(env, h', tenant, rows[i]);
    }
  }

  lemma HistorySnoc(env: Env, h: seq<Write>, tenant: string, k: string)
    requires h != [] && Effective(env, h[|h| - 1]) && h[|h| - 1].partition.tenant == tenant
    ensures var (n, h', key) := (|h| - 1, h[..|h| - 1], KeyOf(env, h[|h| - 1]));
      && Latest(env, h, tenant, k) == (if k == key then Some(n) else Latest(env, h', tenant, k))
      && (First(env, h', tenant, k).Some? <==> Latest(env, h', tenant, k).Some?)
      && (First(env, h', tenant, k).Some? ==>
            First(env, h', tenant, k).value < n && First(env, h, tenant, k) == First(env, h', tenant, k))
      && (First(env, h', tenant, k).None? && k == key ==> First(env, h, tenant, k) == Some(n))
  {
    FirstIffLatest(env, h[..|h| - 1], tenant, k);
  }

  lemma PutKnown(env: Env, h: seq<Write>, tenant: string, rows: Rows, k: string)
    requires h != [] && (forall k :: k in Keys(rows) <==> Latest(env, h[..|h| - 1], tenant, k).Some?)
    requires Effective(env, h[|h| - 1]) && h[|h| - 1].partition.tenant == tenant
    ensures k in Keys(Put(rows, KeyOf(env, h[|h| - 1]), StoredOf(env, h[|h| - 1]))) <==> Latest(env, h, tenant, k).Some?
  {
    var key := KeyOf(env, h[|h| - 1]);
    PutKeepsPlaces(rows, key, StoredOf(env, h[|h| - 1]));
    HistorySnoc(env, h, tenant, k);
    assert k in Keys(rows) + [key] <==> k in Keys(rows) || k == key;
  }

  lemma PutMatches(env: Env, h: seq<Write>, tenant: string, rows: Rows)
    requires h != [] && RowsMatch(env, h[..|h| - 1], tenant, rows)
    requires Effective(env, h[|h| - 1]) && h[|h| - 1].partition.tenant == tenant
    ensures RowsMatch(env, h, tenant, Put(rows, KeyOf(env, h[|h| - 1]), StoredOf(env, h[|h| - 1])))
  {
    var (key, s) := (KeyOf(env, h[|h| - 1]), StoredOf(env, h[|h| - 1]));
    var rows' := Put(rows, key, s);
    PutKeepsDistinct(rows, key, s);
    forall k ensures k in Keys(rows') <==> Latest(env, h, tenant, k).Some? { PutKnown(env, h, tenant, rows, k); }
    forall i | 0 <= i < |rows'| ensures HoldsLatest(env, h, tenant, rows'[i]) {
      PutRow(env, h, tenant, rows, i);
    }
    forall i, j | 0 <= i < j < |rows'| ensures Before(env, h, tenant, rows'[i].key, rows'[j].key) {
      PutOrder(env, h, tenant, rows, i, j);
    }
  }

  lemma PutRow(env: Env, h: seq<Write>, tenant: string, rows: Rows, i: nat)
    requires h != [] && RowsMatch(env, h[..|h| - 1], tenant, rows)
    requires Effective(env, h[|h| - 1]) && h[|h| - 1].partition.tenant == tenant
    requires i < |Put(rows, KeyOf(env, h[|h| - 1]), StoredOf(env, h[|h| - 1]))|
    ensures HoldsLatest(env, h, tenant, Put(rows, KeyOf(env, h[|h| - 1]), StoredOf(env, h[|h| - 1]))[i])
  {
    var (key, s) := (KeyOf(env, h[|h| - 1]), StoredOf(env, h[|h| - 1]));
    var rows' := Put(rows, key, s);
    PutKeyAt(rows, key, s);
    if key in Keys(rows) {
      PutAt(rows, key, s, i);
    } else {
      PutAppends(rows, key, s);
    }
    HistorySnoc(env, h, tenant, rows'[i].key);
    if i < |rows| {
      assert HoldsLatest(env, h[..|h| - 1], tenant, rows[i]);
    }
  }

  lemma PutOrder(env: Env, h: seq<Write>, tenant: string, rows: Rows, i: nat, j: nat)
    requires h != [] && RowsMatch(env, h[..|h| - 1], tenant, rows)
    requires Effective(env, h[|h| - 1]) && h[|h| - 1].partition.tenant == tenant
    requires i < j < |Put(rows, KeyOf(env, h[|h| - 1]), StoredOf(env, h[|h| - 1]))|
    ensures var rows' := Put(rows, KeyOf(env, h[|h| - 1]), StoredOf(env, h[|h| - 1]));
      Before(env, h, tenant, rows'[i].key, rows'[j].key)
  {
    var (h', key) := (h[..|h| - 1], KeyOf(env, h[|h| - 1]));
    PutKeyAt(rows, key, StoredOf(env, h[|h| - 1]));
    assert HoldsLatest(env, h', tenant, rows[i]);
    HistorySnoc(env, h, tenant, rows[i].key);
    if j < |rows| {
      HistorySnoc(env, h, tenant, rows[j].key);
      assert Before(env, h', tenant, rows[i].key, rows[j].key);
    } else {
      HistorySnoc(env, h, tenant, key);
    }
  }

  // ---------------------------------------------------------------- lookups against the history

  /** The write is still to be served: its time to live has not passed, its own if it is not 0, or else the
      default. */
  predicate InTime(env: Env, w: Write, now: real) {
    now < w.at + (if w.ttl.Some? && w.ttl.value != 0 then w.ttl.value as real else env.defaultTtl as real)
  }

  /** How similar the query of a write is to a vector. */
  function Likeness(env: Env, v: Vec, w: Write): real {
    match env.embed(Normalize(env.chars, w.query))
    case Some(u) => env.cosine(v, u)
    case None => env.cosine(v, [])
  }

  /** Write j is the last of its key, unexpired, in the partition, and similar enough. */
  ghost predicate Candidate(env: Env, h: seq<Write>, p: Partition, q: Probe, j: nat) {
    && j < |h| && h[j].partition.tenant == p.tenant
    && Latest(env, h, p.tenant, KeyOf(env, h[j])) == Some(j)
    && InTime(env, h[j], q.now) && Prefilter(env, h[j].partition) == q.pre
    && Likeness(env, q.embedding, h[j]) >= env.threshold && Likeness(env, q.embedding, h[j]) > -1.0
  }

  ghost predicate BestWrite(env: Env, h: seq<Write>, p: Partition, q: Probe, j: nat) {
    && Candidate(env, h, p, q, j)
    && forall k: nat :: Candidate(env, h, p, q, k) ==>
         var (a, b) := (Likeness(env, q.embedding, h[j]), Likeness(env, q.embedding, h[k]));
         b < a || (b == a && (k == j || Before(env, h, p.tenant, KeyOf(env, h[j]), KeyOf(env, h[k]))))
  }

  /** What a tenant's dictionary holds under a key is the last write of that key. */
  lemma GetIsLatest(env: Env, h: seq<Write>, tenant: string, key: string)
    ensures var l := Latest(env, h, tenant, key);
      && (l.Some? ==> l.value < |h|)
      && Get(RowsOf(After(env, h), tenant), key) == if l.Some? then Some(StoredOf(env, h[l.value])) else None
  {
    var rows := RowsOf(After(env, h), tenant);
    HistoryRows(env, h, tenant);
    LatestIsLatest(env, h, tenant, key);
    GetIsIn(rows, key);
    if key in Keys(rows) {
      var i :| 0 <= i < |rows| && Keys(rows)[i] == key;
      GetAt(rows, i);
      assert HoldsLatest(env, h, tenant, rows[i]);
    }
  }

  /** After any history of writes, a lookup is an exact hit exactly when the last write of the same
      key is unexpired, and then returns its response. */
  lemma ExactTierIsHistory(env: Env, h: seq<Write>, p: Partition, query: string, now: real)
    ensures var key := ExactKey(env, p, query);
      var l := Latest(env, h, p.tenant, key);
      var hit := Lookup(env, After(env, h), p, query, now);
      && (l.Some? ==> l.value < |h|)
      && (hit.Some? && hit.value.tier == Exact <==> l.Some? && InTime(env, h[l.value], now))
      && (hit.Some? && hit.value.tier == Exact ==> hit == Some(Hit(h[l.value].response, Exact, 1.0, key)))
  {
    GetIsLatest(env, h, p.tenant, ExactKey(env, p, query));
  }

  lemma RowOfCandidate(env: Env, h: seq<Write>, p: Partition, q: Probe, rows: Rows, j: nat) returns (i: nat)
    requires RowsMatch(env, h, p.tenant, rows) && Candidate(env, h, p, q, j)
    ensures i < |rows| && rows[i].key == KeyOf(env, h[j]) && Values(rows)[i] == rows[i].val == StoredOf(env, h[j])
    ensures Matches(env, q, rows[i].val) && SimTo(env, q, rows[i].val) == Likeness(env, q.embedding, h[j])
  {
    assert KeyOf(env, h[j]) in Keys(rows);
    i :| 0 <= i < |rows| && Keys(rows)[i] == KeyOf(env, h[j]);
    assert HoldsLatest(env, h, p.tenant, rows[i]);
  }

  lemma CandidateOfRow(env: Env, h: seq<Write>, p: Partition, q: Probe, rows: Rows, i: nat) returns (j: nat)
    requires RowsMatch(env, h, p.tenant, rows) && i < |rows| && Matches(env, q, rows[i].val)
    ensures Candidate(env, h, p, q, j) && rows[i].key == KeyOf(env, h[j]) && rows[i].val == StoredOf(env, h[j])
    ensures SimTo(env, q, rows[i].val) == Likeness(env, q.embedding, h[j])
  {
    assert HoldsLatest(env, h, p.tenant, rows[i]);
    j := Latest(env, h, p.tenant, rows[i].key).value;
    LatestIsLatest(env, h, p.tenant, rows[i].key);
  }

  function SemanticHit(env: Env, q: Probe, w: Write): Hit {
    Hit(w.response, Semantic, Likeness(env, q.embedding, w), KeyOf(env, w))
  }

  /** When the exact tier misses, the lookup returns a most similar candidate write of the partition,
      ties to the key written first, and misses exactly when there is no candidate. */
  lemma SemanticTierIsHistory(env: Env, h: seq<Write>, p: Partition, query: string, now: real)
    requires GetExact(After(env, h), p.tenant, ExactKey(env, p, query), now).None?
    requires env.embed(Normalize(env.chars, query)).Some?
    ensures var q := Probe(Prefilter(env, p), env.embed(Normalize(env.chars, query)).value, now);
      match Lookup(env, After(env, h), p, query, now)
      case None => forall j: nat :: !Candidate(env, h, p, q, j)
      case Some(hit) => exists j: nat :: BestWrite(env, h, p, q, j) && hit == SemanticHit(env, q, h[j])
  {
    var q := Probe(Prefilter(env, p), env.embed(Normalize(env.chars, query)).value, now);
    var rows := RowsOf(After(env, h), p.tenant);
    HistoryRows(env, h, p.tenant);
    SearchIsFirstBest(env, q, Values(rows));
    if Search(env, q, Values(rows)).None? {
      forall j: nat ensures !Candidate(env, h, p, q, j) {
        if Candidate(env, h, p, q, j) {
          var _ := RowOfCandidate(env, h, p, q, rows, j);
        }
      }
    } else {
      var i: nat :| FirstBest(env, q, Values(rows), i) && Search(env, q, Values(rows)) == Some(Values(rows)[i]);
      var j := CandidateOfRow(env, h, p, q, rows, i);
      forall k: nat | Candidate(env, h, p, q, k)
        ensures var (a, b) := (Likeness(env, q.embedding, h[j]), Likeness(env, q.embedding, h[k]));
          b < a || (b == a && (k == j || Before(env, h, p.tenant, KeyOf(env, h[j]), KeyOf(env, h[k]))))
      {
        var i' := RowOfCandidate(env, h, p, q, rows, k);
        assert Values(rows)[i'] == rows[i'].val;
        if i < i' {
          assert Before(env, h, p.tenant, rows[i].key, rows[i'].key);
        } else if i == i' {
          assert KeyOf(env, h[j]) == KeyOf(env, h[k]);
        }
      }
      assert BestWrite(env, h, p, q, j);
    }
  }
}
