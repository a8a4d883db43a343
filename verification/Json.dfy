/** Canonical JSON text as `json.dumps(sort_keys=True, separators=(",", ":"))` writes it, with its default
    escaping to ASCII. Objects come with their keys already in order; numbers come as texts. */
module Json {
  import opened Prelude
  import Text

  datatype Value = Null | Number(text: string) | Str(text: string) | Arr(items: seq<Value>) | Obj(fields: seq<Field>)

  datatype Field = Field(key: string, value: Value)

  predicate NumberChar(c: char) { '0' <= c <= '9' || c == '-' || c == '+' || c == '.' || c == 'e' || c == 'E' }

  /** The text of a number: not empty, and of characters that end where the number ends. */
  predicate NumberText(s: string) { s != "" && forall k :: 0 <= k < |s| ==> NumberChar(s[k]) }

  predicate Valid(v: Value) {
    match v
    case Number(text) => NumberText(text)
    case Arr(items) => forall i :: 0 <= i < |items| ==> Valid(items[i])
    case Obj(fields) => forall i :: 0 <= i < |fields| ==> Valid(fields[i].value)
    case _ => true
  }

  // ---------------------------------------------------------------- writing, in front of a rest

  function HexDigit(n: nat): char
    requires n < 16
  {
    "0123456789abcdef"[n]
  }

  /** `\uXXXX` */
  function UnicodeTo(n: nat, rest: string): string
    requires n < 0x10000
  {
    ['\\', 'u', HexDigit(n / 4096), HexDigit(n / 256 % 16), HexDigit(n / 16 % 16), HexDigit(n % 16)] + rest
  }

  /** The letter of a two-character escape, if there is one. */
  function Short(c: char): Option<char> {
    if c == '"' then Some('"')
    else if c == '\\' then Some('\\')
    else if c == '\n' then Some('n')
    else if c == '\r' then Some('r')
    else if c == '\t' then Some('t')
    else if c == '\U{08}' then Some('b')
    else if c == '\U{0c}' then Some('f')
    else None
  }

  function HighSurrogate(c: char): (n: nat)
    requires c as int >= 0x10000
    ensures 0xD800 <= n < 0xDC00
  {
    0xD800 + (c as int - 0x10000) / 1024
  }

  function LowSurrogate(c: char): (n: nat)
    requires c as int >= 0x10000
    ensures 0xDC00 <= n < 0xE000
  {
    0xDC00 + (c as int - 0x10000) % 1024
  }

  /** One character; beyond the basic plane it takes a surrogate pair. */
  function EscapeTo(c: char, rest: string): string {
    if Short(c).Some? then ['\\', Short(c).value] + rest
    else if ' ' <= c <= '~' then [c] + rest
    else if c as int < 0x10000 then UnicodeTo(c as int, rest)
    else UnicodeTo(HighSurrogate(c), UnicodeTo(LowSurrogate(c), rest))
  }

  /** The inside of a string and its closing quote. */
  function CharsTo(s: string, rest: string): string {
    if s == "" then ['"'] + rest else EscapeTo(s[0], CharsTo(s[1..], rest))
  }

  function StringTo(s: string, rest: string): string { ['"'] + CharsTo(s, rest) }

  function ValueTo(v: Value, rest: string): string
    decreases v, 1
  {
    match v
    case Null => "null" + rest
    case Number(text) => text + rest
    case Str(text) => StringTo(text, rest)
    case Arr(items) => ['['] + ArrayTo(items, rest)
    case Obj(fields) => ['{'] + ObjectTo(fields, rest)
  }

  function ArrayTo(items: seq<Value>, rest: string): string
    decreases items, 1
  {
    if items == [] then [']'] + rest else ValueTo(items[0], ItemsTo(items[1..], rest))
  }

  function ItemsTo(items: seq<Value>, rest: string): string
    decreases items, 0
  {
    if items == [] then [']'] + rest else [','] + ValueTo(items[0], ItemsTo(items[1..], rest))
  }

  function ObjectTo(fields: seq<Field>, rest: string): string
    decreases fields, 1
  {
    if fields == [] then ['}'] + rest else FieldTo(fields[0], FieldsTo(fields[1..], rest))
  }

  function FieldTo(f: Field, rest: string): string
    decreases f, 2
  {
    StringTo(f.key, [':'] + ValueTo(f.value, rest))
  }

  function FieldsTo(fields: seq<Field>, rest: string): string
    decreases fields, 0
  {
    if fields == [] then ['}'] + rest else [','] + FieldTo(fields[0], FieldsTo(fields[1..], rest))
  }

  function TextOf(v: Value): string { ValueTo(v, "") }

  // ---------------------------------------------------------------- reading back

  lemma HeadAndTail<T>(a: seq<T>, b: seq<T>, x: seq<T>, y: seq<T>)
    requires |a| == |b| && a + x == b + y
    ensures a == b && x == y
  {
    assert a == (a + x)[..|a|] && b == (b + y)[..|b|];
    assert x == (a + x)[|a|..] && y == (b + y)[|b|..];
  }

  lemma HexDigits(a: nat, b: nat)
    requires a < 16 && b < 16 && HexDigit(a) == HexDigit(b)
    ensures a == b
  {
  }

  lemma FourDigits(n: nat)
    requires n < 0x10000
    ensures n == n / 4096 * 4096 + n / 256 % 16 * 256 + n / 16 % 16 * 16 + n % 16
  {
    assert n / 256 / 16 == n / 4096 && n / 16 / 16 == n / 256;
  }

  lemma UnicodeDetermines(m: nat, n: nat, x: string, y: string)
    requires m < 0x10000 && n < 0x10000 && UnicodeTo(m, x) == UnicodeTo(n, y)
    ensures m == n && x == y
  {
    var a := ['\\', 'u', HexDigit(m / 4096), HexDigit(m / 256 % 16), HexDigit(m / 16 % 16), HexDigit(m % 16)];
    var b := ['\\', 'u', HexDigit(n / 4096), HexDigit(n / 256 % 16), HexDigit(n / 16 % 16), HexDigit(n % 16)];
    HeadAndTail(a, b, x, y);
    assert a[2] == b[2] && a[3] == b[3] && a[4] == b[4] && a[5] == b[5];
    HexDigits(m / 4096, n / 4096);
    HexDigits(m / 256 % 16, n / 256 % 16);
    HexDigits(m / 16 % 16, n / 16 % 16);
    HexDigits(m % 16, n % 16);
    FourDigits(m);
    FourDigits(n);
  }

  datatype Shape = Plain | Letter | Basic | Pair

  /** How a character is written. */
  function ShapeOf(c: char): Shape {
    if Short(c).Some? then Letter
    else if ' ' <= c <= '~' then Plain
    else if c as int < 0x10000 then Basic
    else Pair
  }

  /** How the written form begins. */
  lemma EscapeBegins(c: char, rest: string)
    ensures var t := EscapeTo(c, rest);
      match ShapeOf(c)
      case Plain => t == [c] + rest && c != '\\' && c != '"'
      case Letter => t == ['\\', Short(c).value] + rest && Short(c).value != 'u'
      case Basic => t == UnicodeTo(c as int, rest)
      case Pair => t == UnicodeTo(HighSurrogate(c), UnicodeTo(LowSurrogate(c), rest))
  {
  }

  lemma EscapeDetermines(c: char, d: char, x: string, y: string)
    requires EscapeTo(c, x) == EscapeTo(d, y)
    ensures c == d && x == y
  {
    EscapeBegins(c, x);
    EscapeBegins(d, y);
    var (t, u) := (EscapeTo(c, x), EscapeTo(d, y));
    assert t[0] == u[0];
    if ShapeOf(c).Plain? {
      HeadAndTail([c], [d], x, y);
    } else {
      assert t[1] == u[1];
      if ShapeOf(c).Letter? {
        HeadAndTail(['\\', Short(c).value], ['\\', Short(d).value], x, y);
      } else {
        UnicodesDetermine(c, d, x, y);
      }
    }
  }

  lemma SurrogatesDetermine(c: char, d: char)
    requires ShapeOf(c).Pair? && ShapeOf(d).Pair?
    requires HighSurrogate(c) == HighSurrogate(d) && LowSurrogate(c) == LowSurrogate(d)
    ensures c == d
  {
    var (m, n) := (c as int - 0x10000, d as int - 0x10000);
    assert m == m / 1024 * 1024 + m % 1024 && n == n / 1024 * 1024 + n % 1024;
  }

  /** A pair begins with a surrogate, which no character of the basic plane is. */
  lemma UnicodesDetermine(c: char, d: char, x: string, y: string)
    requires EscapeTo(c, x) == EscapeTo(d, y)
    requires (ShapeOf(c).Basic? || ShapeOf(c).Pair?) && (ShapeOf(d).Basic? || ShapeOf(d).Pair?)
    ensures c == d && x == y
  {
    EscapeBegins(c, x);
    EscapeBegins(d, y);
    if ShapeOf(c).Basic? && ShapeOf(d).Basic? {
      UnicodeDetermines(c as int, d as int, x, y);
    } else if ShapeOf(c).Basic? {
      UnicodeDetermines(c as int, HighSurrogate(d), x, UnicodeTo(LowSurrogate(d), y));
    } else if ShapeOf(d).Basic? {
      UnicodeDetermines(HighSurrogate(c), d as int, UnicodeTo(LowSurrogate(c), x), y);
    } else {
      UnicodeDetermines(HighSurrogate(c), HighSurrogate(d), UnicodeTo(LowSurrogate(c), x),
                        UnicodeTo(LowSurrogate(d), y));
      UnicodeDetermines(LowSurrogate(c), LowSurrogate(d), x, y);
      SurrogatesDetermine(c, d);
    }
  }

  lemma CharsBegin(s: string, rest: string)
    ensures CharsTo(s, rest) != "" && (CharsTo(s, rest)[0] == '"' <==> s == "")
  {
    if s != "" {
      EscapeBegins(s[0], CharsTo(s[1..], rest));
    }
  }

  lemma {:induction false} CharsDetermine(s: string, t: string, x: string, y: string)
    requires CharsTo(s, x) == CharsTo(t, y)
    ensures s == t && x == y
    decreases |s|
  {
    CharsBegin(s, x);
    CharsBegin(t, y);
    if s == "" {
      HeadAndTail(['"'], ['"'], x, y);
    } else {
      EscapeDetermines(s[0], t[0], CharsTo(s[1..], x), CharsTo(t[1..], y));
      CharsDetermine(s[1..], t[1..], x, y);
      assert s == [s[0]] + s[1..] && t == [t[0]] + t[1..];
    }
  }

  lemma StringDetermines(s: string, t: string, x: string, y: string)
    requires StringTo(s, x) == StringTo(t, y)
    ensures s == t && x == y
  {
    HeadAndTail(['"'], ['"'], CharsTo(s, x), CharsTo(t, y));
    CharsDetermine(s, t, x, y);
  }

  /** No number runs on into the rest. */
  predicate Ends(rest: string) { rest == "" || !NumberChar(rest[0]) }

  lemma NumberDetermines(s: string, t: string, x: string, y: string)
    requires NumberText(s) && NumberText(t) && Ends(x) && Ends(y) && s + x == t + y
    ensures s == t && x == y
  {
    Text.SpanConcat(s, x, NumberChar);
    Text.SpanConcat(t, y, NumberChar);
    HeadAndTail(s, t, x, y);
  }

  lemma ItemsEnd(items: seq<Value>, rest: string)
    ensures Ends(ItemsTo(items, rest))
  {
  }

  lemma FieldsEnd(fields: seq<Field>, rest: string)
    ensures Ends(FieldsTo(fields, rest))
  {
  }

  /** The first character tells what follows. */
  function Opening(v: Value): char
    requires Valid(v)
  {
    match v
    case Null => 'n'
    case Number(text) => text[0]
    case Str(_) => '"'
    case Arr(_) => '['
    case Obj(_) => '{'
  }

  lemma OpensWith(v: Value, rest: string)
    requires Valid(v)
    ensures ValueTo(v, rest) != "" && ValueTo(v, rest)[0] == Opening(v)
    ensures v.Number? ==> NumberChar(Opening(v))
  {
  }

  lemma ArrayBegins(items: seq<Value>, rest: string)
    requires forall i :: 0 <= i < |items| ==> Valid(items[i])
    ensures ArrayTo(items, rest) != "" && (ArrayTo(items, rest)[0] == ']' <==> items == [])
  {
    if items != [] {
      OpensWith(items[0], ItemsTo(items[1..], rest));
    }
  }

  lemma ObjectBegins(fields: seq<Field>, rest: string)
    ensures ObjectTo(fields, rest) != "" && (ObjectTo(fields, rest)[0] == '}' <==> fields == [])
  {
  }

  /** A written value, whatever follows it, can be read in one way only. */
  lemma {:induction false} ValueDetermines(v: Value, w: Value, x: string, y: string)
    requires Valid(v) && Valid(w) && Ends(x) && Ends(y) && ValueTo(v, x) == ValueTo(w, y)
    ensures v == w && x == y
    decreases v, 2
  {
    OpensWith(v, x);
    OpensWith(w, y);
    match v {
      case Null => HeadAndTail("null", "null", x, y);
      case Number(s) => NumberDetermines(s, w.text, x, y);
      case Str(s) => StringDetermines(s, w.text, x, y);
      case Arr(items) =>
        HeadAndTail(['['], ['['], ArrayTo(items, x), ArrayTo(w.items, y));
        ArrayDetermines(items, w.items, x, y);
      case Obj(fields) =>
        HeadAndTail(['{'], ['{'], ObjectTo(fields, x), ObjectTo(w.fields, y));
        ObjectDetermines(fields, w.fields, x, y);
    }
  }

  lemma {:induction false} ArrayDetermines(a: seq<Value>, b: seq<Value>, x: string, y: string)
    requires (forall i :: 0 <= i < |a| ==> Valid(a[i])) && (forall i :: 0 <= i < |b| ==> Valid(b[i]))
    requires Ends(x) && Ends(y) && ArrayTo(a, x) == ArrayTo(b, y)
    ensures a == b && x == y
    decreases a, 1
  {
    ArrayBegins(a, x);
    ArrayBegins(b, y);
    if a == [] {
      HeadAndTail([']'], [']'], x, y);
    } else {
      ItemsEnd(a[1..], x);
      ItemsEnd(b[1..], y);
      ValueDetermines(a[0], b[0], ItemsTo(a[1..], x), ItemsTo(b[1..], y));
      ItemsDetermine(a[1..], b[1..], x, y);
      assert a == [a[0]] + a[1..] && b == [b[0]] + b[1..];
    }
  }

  lemma {:induction false} ItemsDetermine(a: seq<Value>, b: seq<Value>, x: string, y: string)
    requires (forall i :: 0 <= i < |a| ==> Valid(a[i])) && (forall i :: 0 <= i < |b| ==> Valid(b[i]))
    requires Ends(x) && Ends(y) && ItemsTo(a, x) == ItemsTo(b, y)
    ensures a == b && x == y
    decreases a, 0
  {
    assert ItemsTo(a, x)[0] == ItemsTo(b, y)[0];
    if a != [] && b != [] {
      HeadAndTail([','], [','], ValueTo(a[0], ItemsTo(a[1..], x)), ValueTo(b[0], ItemsTo(b[1..], y)));
      ItemsEnd(a[1..], x);
      ItemsEnd(b[1..], y);
      ValueDetermines(a[0], b[0], ItemsTo(a[1..], x), ItemsTo(b[1..], y));
      ItemsDetermine(a[1..], b[1..], x, y);
      assert a == [a[0]] + a[1..] && b == [b[0]] + b[1..];
    } else if a == [] && b == [] {
      HeadAndTail([']'], [']'], x, y);
    }
  }

  lemma {:induction false} FieldDetermines(f: Field, g: Field, x: string, y: string)
    requires Valid(f.value) && Valid(g.value) && Ends(x) && Ends(y) && FieldTo(f, x) == FieldTo(g, y)
    ensures f == g && x == y
    decreases f, 2
  {
    StringDetermines(f.key, g.key, [':'] + ValueTo(f.value, x), [':'] + ValueTo(g.value, y));
    HeadAndTail([':'], [':'], ValueTo(f.value, x), ValueTo(g.value, y));
    ValueDetermines(f.value, g.value, x, y);
  }

  lemma {:induction false} ObjectDetermines(a: seq<Field>, b: seq<Field>, x: string, y: string)
    requires (forall i :: 0 <= i < |a| ==> Valid(a[i].value)) && (forall i :: 0 <= i < |b| ==> Valid(b[i].value))
    requires Ends(x) && Ends(y) && ObjectTo(a, x) == ObjectTo(b, y)
    ensures a == b && x == y
    decreases a, 1
  {
    ObjectBegins(a, x);
    ObjectBegins(b, y);
    if a == [] {
      HeadAndTail(['}'], ['}'], x, y);
    } else {
      FieldsEnd(a[1..], x);
      FieldsEnd(b[1..], y);
      FieldDetermines(a[0], b[0], FieldsTo(a[1..], x), FieldsTo(b[1..], y));
      FieldsDetermine(a[1..], b[1..], x, y);
      assert a == [a[0]] + a[1..] && b == [b[0]] + b[1..];
    }
  }

  lemma {:induction false} FieldsDetermine(a: seq<Field>, b: seq<Field>, x: string, y: string)
    requires (forall i :: 0 <= i < |a| ==> Valid(a[i].value)) && (forall i :: 0 <= i < |b| ==> Valid(b[i].value))
    requires Ends(x) && Ends(y) && FieldsTo(a, x) == FieldsTo(b, y)
    ensures a == b && x == y
    decreases a, 0
  {
    assert FieldsTo(a, x)[0] == FieldsTo(b, y)[0];
    if a != [] && b != [] {
      HeadAndTail([','], [','], FieldTo(a[0], FieldsTo(a[1..], x)), FieldTo(b[0], FieldsTo(b[1..], y)));
      FieldsEnd(a[1..], x);
      FieldsEnd(b[1..], y);
      FieldDetermines(a[0], b[0], FieldsTo(a[1..], x), FieldsTo(b[1..], y));
      FieldsDetermine(a[1..], b[1..], x, y);
      assert a == [a[0]] + a[1..] && b == [b[0]] + b[1..];
    } else if a == [] && b == [] {
      HeadAndTail(['}'], ['}'], x, y);
    }
  }

  /** Canonical texts are equal exactly when the values are. */
  lemma TextDeterminesValue(v: Value, w: Value)
    requires Valid(v) && Valid(w)
    ensures TextOf(v) == TextOf(w) <==> v == w
  {
    if TextOf(v) == TextOf(w) {
      ValueDetermines(v, w, "", "");
    }
  }
}
