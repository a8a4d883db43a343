/** Chat messages, `str.join`, and the canonical rendering under the prompt hash (replay/bundle.py). */
module Messages {
  import opened Prelude

  datatype Role = System | User | Assistant

  datatype Message = Message(role: Role, content: string)

  function RoleValue(r: Role): string {
    match r case System => "system" case User => "user" case Assistant => "assistant"
  }

  function Join(parts: seq<string>, sep: string): string {
    if parts == [] then "" else if |parts| == 1 then parts[0] else parts[0] + sep + Join(parts[1..], sep)
  }

  lemma {:induction false} JoinLength(parts: seq<string>, sep: string)
    requires parts != []
    ensures |Join(parts, sep)| == SumBy(parts, (p: string) => |p|) + (|parts| - 1) * |sep|
  {
    if |parts| > 1 {
      JoinLength(parts[1..], sep);
      assert (|parts| - 1) * |sep| == (|parts| - 2) * |sep| + |sep|;
    } else {
      assert SumBy(parts[1..], (p: string) => |p|) == 0;
    }
  }

  const UNIT_SEP: char := '\U{1f}'

  // ---------------------------------------------------------------- canonical rendering

  /** `role\x1fcontent`, one per message, joined by newlines: what `render_prompt_hash` hashes. */
  function Canonical(ms: seq<Message>): string {
    Join(Map(ms, (m: Message) => Line(m)), "\n")
  }

  function Header(r: Role): string { RoleValue(r) + [UNIT_SEP] }

  function Line(m: Message): string { Header(m.role) + m.content }

  /** The role whose header starts `s`, if any. */
  function HeaderAt(s: string): Option<Role> {
    if Header(System) <= s then Some(System)
    else if Header(User) <= s then Some(User)
    else if Header(Assistant) <= s then Some(Assistant)
    else None
  }

  /** A message boundary at the start of `s`: a newline, a role and the separator. */
  function BoundaryAt(s: string): Option<Role> { if s != "" && s[0] == '\n' then HeaderAt(s[1..]) else None }

  /** A content is plain when no boundary starts anywhere inside it. */
  ghost predicate Plain(s: string) { forall k :: 0 <= k < |s| ==> BoundaryAt(s[k..]).None? }

  ghost predicate AllPlain(ms: seq<Message>) { forall i :: 0 <= i < |ms| ==> Plain(ms[i].content) }

  /** Cut `s` at its boundaries: the first content, then the remaining messages. */
  function Cut(s: string): (string, seq<Message>) {
    if s == "" then ("", [])
    else
      match BoundaryAt(s)
      case Some(r) =>
        var (content, rest) := Cut(s[1 + |Header(r)|..]);
        ("", [Message(r, content)] + rest)
      case None =>
        var (content, rest) := Cut(s[1..]);
        ([s[0]] + content, rest)
  }

  function Decode(s: string): Option<seq<Message>> {
    if s == "" then Some([])
    else
      match HeaderAt(s)
      case None => None
      case Some(r) =>
        var (content, rest) := Cut(s[|Header(r)|..]);
        Some([Message(r, content)] + rest)
  }

  lemma HeaderRead(r: Role, s: string)
    ensures HeaderAt(Header(r) + s) == Some(r)
    ensures (Header(r) + s)[|Header(r)|..] == s
  {
    var t := Header(r) + s;
    assert t[0] == Header(r)[0];
    assert Header(System)[0] == 's' && Header(User)[0] == 'u' && Header(Assistant)[0] == 'a';
    assert Header(r) <= t;
  }

  /** No header runs across a newline. */
  lemma HeaderStopsAtNewline(c: string, s: string)
    ensures HeaderAt(c).None? ==> HeaderAt(c + "\n" + s).None?
  {
    var t := c + "\n" + s;
    assert t[|c|] == '\n' && t[..|c|] == c;
    forall r: Role | Header(r) <= t ensures Header(r) <= c {
      assert '\n' !in Header(r);
      assert Header(r) == t[..|Header(r)|];
    }
  }

  lemma CutAtOnce(r: Role, s: string)
    ensures var (content, rest) := Cut(s); Cut("" + "\n" + Header(r) + s) == ("", [Message(r, content)] + rest)
  {
    var t := "" + "\n" + Header(r) + s;
    assert t[0] == '\n' && t[1..] == Header(r) + s;
    HeaderRead(r, s);
    assert t[1 + |Header(r)|..] == s;
  }

  lemma PlainTail(c: string)
    requires Plain(c) && c != ""
    ensures Plain(c[1..]) && BoundaryAt(c).None?
  {
    assert c[0..] == c;
    forall k | 0 <= k < |c[1..]| ensures BoundaryAt(c[1..][k..]).None? {
      assert c[1..][k..] == c[k + 1..];
    }
  }

  /** Cutting plain text, alone or before a boundary, stops exactly at its end. */
  lemma {:induction false} CutPlain(c: string, r: Role, s: string)
    requires Plain(c)
    ensures Cut(c) == (c, [])
    ensures var (content, rest) := Cut(s);
      Cut(c + "\n" + Header(r) + s) == (c, [Message(r, content)] + rest)
  {
    if c == "" {
      CutAtOnce(r, s);
    } else {
      PlainTail(c);
      CutPlain(c[1..], r, s);
      CutSkipsPlain(c, r, s);
      assert c == [c[0]] + c[1..];
    }
  }

  lemma CutSkipsPlain(c: string, r: Role, s: string)
    requires c != "" && BoundaryAt(c).None?
    ensures var (content, rest) := Cut(c[1..] + "\n" + Header(r) + s);
      Cut(c + "\n" + Header(r) + s) == ([c[0]] + content, rest)
  {
    var t := c + "\n" + Header(r) + s;
    HeaderStopsAtNewline(c[1..], Header(r) + s);
    assert t[0] == c[0] && t[1..] == c[1..] + "\n" + Header(r) + s;
    assert c[1..] + "\n" + (Header(r) + s) == t[1..];
  }

  lemma CanonicalCons(m: Message, ms: seq<Message>)
    ensures Canonical([m] + ms) == if ms == [] then Line(m) else Line(m) + "\n" + Canonical(ms)
  {
    var line := (m: Message) => Line(m);
    assert Map([m] + ms, line)[1..] == Map(ms, line);
  }

  /** What a nonempty rendering looks like after its first header. */
  function Tail(ms: seq<Message>): string
    requires ms != []
  {
    if |ms| == 1 then ms[0].content
    else ms[0].content + "\n" + Header(ms[1].role) + Tail(ms[1..])
  }

  lemma LineRegroup(h: string, c: string, x: string)
    ensures h + c + "\n" + x == h + (c + "\n" + x)
  {
  }

  lemma TailCons(ms: seq<Message>)
    requires |ms| > 1
    ensures Tail(ms) == ms[0].content + "\n" + (Header(ms[1].role) + Tail(ms[1..]))
  {
  }

  lemma {:induction false} CanonicalTail(ms: seq<Message>)
    requires ms != []
    ensures Canonical(ms) == Header(ms[0].role) + Tail(ms)
  {
    assert ms == [ms[0]] + ms[1..];
    CanonicalCons(ms[0], ms[1..]);
    if |ms| > 1 {
      CanonicalTail(ms[1..]);
      TailCons(ms);
      LineRegroup(Header(ms[0].role), ms[0].content, Canonical(ms[1..]));
    }
  }

  lemma {:induction false} CutTail(ms: seq<Message>)
    requires ms != [] && AllPlain(ms)
    ensures Cut(Tail(ms)) == (ms[0].content, ms[1..])
  {
    if |ms| == 1 {
      CutPlain(ms[0].content, System, "");
    } else {
      CutTail(ms[1..]);
      CutPlain(ms[0].content, ms[1].role, Tail(ms[1..]));
      assert ms[1..] == [ms[1]] + ms[2..];
      assert ms[1..][1..] == ms[2..];
    }
  }

  /** Whatever is decoded is plain: the decoder cuts at every boundary. */
  lemma {:induction false} CutIsPlain(s: string)
    ensures Plain(Cut(s).0) && AllPlain(Cut(s).1)
    ensures Cut(s).0 <= s
    decreases |s|
  {
    if s == "" {
    } else if BoundaryAt(s).Some? {
      var r := BoundaryAt(s).value;
      CutIsPlain(s[1 + |Header(r)|..]);
    } else {
      CutIsPlain(s[1..]);
      var c := Cut(s[1..]).0;
      assert s == [s[0]] + s[1..];
      forall k | 0 <= k < |[s[0]] + c| ensures BoundaryAt(([s[0]] + c)[k..]).None? {
        if k == 0 {
          assert ([s[0]] + c)[0..] == [s[0]] + c && ([s[0]] + c)[1..] == c;
          assert HeaderAt(c).Some? ==> HeaderAt(s[1..]).Some?;
        } else {
          assert ([s[0]] + c)[k..] == c[k - 1..];
        }
      }
    }
  }

  /** The decoder recovers a message list from its rendering exactly when no content holds a
      newline, a role value and \x1f in a row; in particular whenever no content holds \x1f. */
  lemma DecodeInvertsCanonical(ms: seq<Message>)
    ensures Decode(Canonical(ms)) == Some(ms) <==> AllPlain(ms)
  {
    if ms == [] {
    } else {
      CanonicalTail(ms);
      HeaderRead(ms[0].role, Tail(ms));
      CutIsPlain(Tail(ms));
      if AllPlain(ms) {
        CutTail(ms);
        assert ms == [ms[0]] + ms[1..];
      } else if Decode(Canonical(ms)) == Some(ms) {
        assert ms[0].content == Cut(Tail(ms)).0;
        assert ms[1..] == Cut(Tail(ms)).1;
        forall i | 0 <= i < |ms| ensures Plain(ms[i].content) {
          assert i > 0 ==> ms[i] == ms[1..][i - 1];
        }
      }
    }
  }

  lemma HeaderHoldsSeparator(t: string)
    ensures HeaderAt(t).Some? ==> UNIT_SEP in t
  {
    forall r: Role | Header(r) <= t ensures UNIT_SEP in t {
      assert t[|Header(r)| - 1] == Header(r)[|Header(r)| - 1] == UNIT_SEP;
    }
  }

  lemma SeparatorFreeIsPlain(s: string)
    requires UNIT_SEP !in s
    ensures Plain(s)
  {
    forall k | 0 <= k < |s| ensures BoundaryAt(s[k..]).None? {
      assert s[k..][1..] == s[k + 1..];
      HeaderHoldsSeparator(s[k + 1..]);
    }
  }

  /** Equal hashes mean equal messages, for plain contents (`SeparatorFreeIsPlain`: those without \x1f
      are) and an injective hash. */
  lemma EqualHashesMeanEqualMessages(hash: string -> string, a: seq<Message>, b: seq<Message>)
    requires forall x, y :: hash(x) == hash(y) ==> x == y
    requires AllPlain(a) && AllPlain(b)
    ensures hash(Canonical(a)) == hash(Canonical(b)) <==> a == b
  {
    DecodeInvertsCanonical(a);
    DecodeInvertsCanonical(b);
  }

  /** Without the condition the rendering is not injective: every list of two or more messages
      renders like the single message that swallows the rest. */
  lemma CanonicalCollides(ms: seq<Message>)
    requires |ms| >= 2
    ensures var one := [Message(ms[0].role, Tail(ms))];
      one != ms && Canonical(one) == Canonical(ms)
  {
    CanonicalTail(ms);
    CanonicalTail([Message(ms[0].role, Tail(ms))]);
  }

  /** What is left of a rendering when its first content is cut off. */
  function After(rest: seq<Message>): string { if rest == [] then "" else "\n" + Canonical(rest) }

  lemma AfterCons(r: Role, content: string, rest: seq<Message>)
    ensures After([Message(r, content)] + rest) == "\n" + Header(r) + (content + After(rest))
  {
    CanonicalCons(Message(r, content), rest);
  }

  lemma BoundarySplits(s: string, r: Role)
    requires BoundaryAt(s) == Some(r)
    ensures |s| >= 1 + |Header(r)| && s == "\n" + Header(r) + s[1 + |Header(r)|..]
  {
    assert Header(r) <= s[1..];
  }

  lemma CutAtBoundary(s: string, r: Role)
    requires BoundaryAt(s) == Some(r) && |s| >= 1 + |Header(r)|
    ensures var c := Cut(s[1 + |Header(r)|..]); Cut(s) == ("", [Message(r, c.0)] + c.1)
  {
  }

  lemma CutElsewhere(s: string)
    requires s != "" && BoundaryAt(s).None?
    ensures Cut(s) == ([s[0]] + Cut(s[1..]).0, Cut(s[1..]).1)
  {
  }

  lemma ConsConcat(c: char, a: string, b: string, s: string)
    requires s != "" && s[0] == c && s[1..] == a + b
    ensures s == [c] + a + b
  {
    assert s == [c] + s[1..];
  }

  lemma {:induction false} CutLosesNothing(s: string)
    ensures s == Cut(s).0 + After(Cut(s).1)
    decreases |s|
  {
    if s == "" {
    } else if BoundaryAt(s).Some? {
      var r := BoundaryAt(s).value;
      BoundarySplits(s, r);
      CutAtBoundary(s, r);
      CutLosesNothing(s[1 + |Header(r)|..]);
      AfterCons(r, Cut(s[1 + |Header(r)|..]).0, Cut(s[1 + |Header(r)|..]).1);
    } else {
      CutElsewhere(s);
      CutLosesNothing(s[1..]);
      ConsConcat(s[0], Cut(s[1..]).0, After(Cut(s[1..]).1), s);
    }
  }

  /** The plain list that renders like `ms`: its contents cut at every boundary inside them. */
  function PlainForm(ms: seq<Message>): seq<Message> {
    var d := Decode(Canonical(ms)); if d.Some? then d.value else []
  }

  lemma PlainFormRenders(ms: seq<Message>)
    ensures AllPlain(PlainForm(ms)) && Canonical(PlainForm(ms)) == Canonical(ms)
  {
    if ms != [] {
      CanonicalTail(ms);
      HeaderRead(ms[0].role, Tail(ms));
      CutIsPlain(Tail(ms));
      CutLosesNothing(Tail(ms));
      LineThenAfter(ms[0].role, Cut(Tail(ms)).0, Cut(Tail(ms)).1);
    }
  }

  lemma LineThenAfter(r: Role, content: string, rest: seq<Message>)
    ensures Canonical([Message(r, content)] + rest) == Header(r) + (content + After(rest))
  {
    CanonicalCons(Message(r, content), rest);
  }

  /** What the prompt hash identifies, for all lists: two lists share it exactly when they have the
      same plain form, and the plain form is the only plain list of its rendering. */
  lemma HashesSeparatePlainForms(hash: string -> string, a: seq<Message>, b: seq<Message>)
    requires forall x, y :: hash(x) == hash(y) ==> x == y
    ensures hash(Canonical(a)) == hash(Canonical(b)) <==> PlainForm(a) == PlainForm(b)
    ensures AllPlain(a) <==> PlainForm(a) == a
  {
    PlainFormRenders(a);
    PlainFormRenders(b);
    DecodeInvertsCanonical(a);
    if a == [] {
    } else {
      CanonicalTail(a);
      HeaderRead(a[0].role, Tail(a));
    }
  }

  /** So a rendering has one source exactly when that is empty or a single plain message. */
  lemma UniqueRendering(ms: seq<Message>)
    ensures (forall other :: Canonical(other) == Canonical(ms) ==> other == ms) <==> |ms| <= 1 && AllPlain(ms)
  {
    PlainFormRenders(ms);
    DecodeInvertsCanonical(ms);
    if |ms| >= 2 {
      CanonicalCollides(ms);
    } else if AllPlain(ms) {
      forall other | Canonical(other) == Canonical(ms) ensures other == ms {
        SoleSource(ms, other);
      }
    }
  }

  lemma SoleSource(ms: seq<Message>, other: seq<Message>)
    requires |ms| <= 1 && AllPlain(ms) && Canonical(other) == Canonical(ms)
    ensures other == ms
  {
    if other != [] && ms != [] {
      CanonicalTail(other);
      CanonicalTail(ms);
      HeaderRead(ms[0].role, Tail(ms));
      HeaderRead(other[0].role, Tail(other));
      if |other| > 1 {
        TailIsCut(other);
      }
    } else if other != [] {
      CanonicalTail(other);
    } else if ms != [] {
      CanonicalTail(ms);
    }
  }

  lemma TailIsCut(ms: seq<Message>)
    requires |ms| > 1
    ensures !Plain(Tail(ms))
  {
    BoundaryInside(ms[0].content, ms[1].role, Tail(ms[1..]));
  }

  lemma BoundaryInside(c: string, r: Role, rest: string)
    ensures !Plain(c + "\n" + Header(r) + rest)
  {
    var t := c + "\n" + Header(r) + rest;
    SuffixAfter(c, Header(r), rest);
    HeaderRead(r, rest);
    assert BoundaryAt(t[|c|..]).Some?;
  }

  lemma SuffixAfter(a: string, b: string, c: string)
    ensures var t := a + "\n" + b + c; t[|a|] == '\n' && t[|a|..][1..] == b + c
  {
  }
}
