/** A reader of JSON texts as RFC 8259 defines them, without white space and for the values that a content address
    covers (no booleans); and that it reads back what canonical JSON writes. */
module JsonReader {
  import opened Prelude
  import opened Json
  import Text

  datatype Read<T> = Read(value: T, rest: string)

  // ---------------------------------------------------------------- strings (section 7 of RFC 8259)

  function HexValue(c: char): Option<nat> {
    if '0' <= c <= '9' then Some(c as int - '0' as int)
    else if 'a' <= c <= 'f' then Some(c as int - 'a' as int + 10)
    else if 'A' <= c <= 'F' then Some(c as int - 'A' as int + 10)
    else None
  }

  /** The number of four hexadecimal digits. */
  function Hex4(t: string): (r: Option<nat>)
    ensures r.Some? ==> |t| >= 4 && r.value < 0x10000
  {
    if |t| < 4 then None
    else
      match (HexValue(t[0]), HexValue(t[1]), HexValue(t[2]), HexValue(t[3]))
      case (Some(a), Some(b), Some(c), Some(d)) =>
        if a < 16 && b < 16 && c < 16 && d < 16 then Some(((a * 16 + b) * 16 + c) * 16 + d) else None
      case _ => None
  }

  /** The character of a two-character escape. */
  function Escaped(letter: char): Option<char> {
    match letter
    case '"' => Some('"')
    case '\\' => Some('\\')
    case '/' => Some('/')
    case 'b' => Some('\U{08}')
    case 'f' => Some('\U{0c}')
    case 'n' => Some('\n')
    case 'r' => Some('\r')
    case 't' => Some('\t')
    case _ => None
  }

  /** What follows a backslash and a `u`: four digits, or a surrogate pair. */
  function ReadUnicode(t: string): (r: Option<Read<char>>)
    ensures r.Some? ==> |r.value.rest| < |t|
  {
    match Hex4(t)
    case None => None
    case Some(n) =>
      if n < 0xD800 || 0xE000 <= n then Some(Read(n as char, t[4..]))
      else if 0xDC00 <= n || |t| < 6 || t[4] != '\\' || t[5] != 'u' then None
      else
        match Hex4(t[6..])
        case None => None
        case Some(m) =>
          if 0xDC00 <= m < 0xE000
          then Some(Read((0x10000 + (n - 0xD800) * 0x400 + (m - 0xDC00)) as char, t[10..]))
          else None
  }

  /** The next character of a string. */
  function ReadChar(t: string): (r: Option<Read<char>>)
    ensures r.Some? ==> |r.value.rest| < |t|
  {
    if t == "" then None
    else if t[0] != '\\' then if t[0] == '"' || t[0] < ' ' then None else Some(Read(t[0], t[1..]))
    else if |t| < 2 then None
    else if t[1] == 'u' then ReadUnicode(t[2..])
    else
      match Escaped(t[1])
      case Some(c) => Some(Read(c, t[2..]))
      case None => None
  }

  /** The inside of a string and its closing quote. */
  function ReadChars(t: string): (r: Option<Read<string>>)
    ensures r.Some? ==> |r.value.rest| < |t|
    decreases |t|
  {
    if t == "" then None
    else if t[0] == '"' then Some(Read("", t[1..]))
    else
      match ReadChar(t)
      case None => None
      case Some(c) =>
        match ReadChars(c.rest)
        case None => None
        case Some(s) => Some(Read([c.value] + s.value, s.rest))
  }

  function ReadString(t: string): (r: Option<Read<string>>)
    ensures r.Some? ==> |r.value.rest| < |t|
  {
    if t == "" || t[0] != '"' then None else ReadChars(t[1..])
  }

  // ---------------------------------------------------------------- values

  function ReadNumber(t: string): (r: Option<Read<Value>>)
    ensures r.Some? ==> |r.value.rest| < |t|
  {
    var n := Text.Span(t, NumberChar);
    if n == 0 then None else Some(Read(Number(t[..n]), t[n..]))
  }

  function ReadValue(t: string): (r: Option<Read<Value>>)
    ensures r.Some? ==> |r.value.rest| < |t|
    decreases |t|, 1
  {
    if t == "" then None
    else if t[0] == '"' then
      match ReadString(t)
      case Some(s) => Some(Read(Str(s.value), s.rest))
      case None => None
    else if t[0] == '[' then
      if |t| > 1 && t[1] == ']' then Some(Read(Arr([]), t[2..]))
      else
        match ReadItems(t[1..])
        case Some(items) => Some(Read(Arr(items.value), items.rest))
        case None => None
    else if t[0] == '{' then
      if |t| > 1 && t[1] == '}' then Some(Read(Obj([]), t[2..]))
      else
        match ReadFields(t[1..])
        case Some(fields) => Some(Read(Obj(fields.value), fields.rest))
        case None => None
    else if "null" <= t then Some(Read(Null, t[4..]))
    else ReadNumber(t)
  }

  /** One value or more, with commas between them, and the closing bracket. */
  function ReadItems(t: string): (r: Option<Read<seq<Value>>>)
    ensures r.Some? ==> |r.value.rest| < |t|
    decreases |t|, 2
  {
    match ReadValue(t)
    case None => None
    case Some(v) =>
      if v.rest == "" then None
      else if v.rest[0] == ']' then Some(Read([v.value], v.rest[1..]))
      else if v.rest[0] != ',' then None
      else
        match ReadItems(v.rest[1..])
        case None => None
        case Some(items) => Some(Read([v.value] + items.value, items.rest))
  }

  function ReadField(t: string): (r: Option<Read<Field>>)
    ensures r.Some? ==> |r.value.rest| < |t|
    decreases |t|, 2
  {
    match ReadString(t)
    case None => None
    case Some(key) =>
      if key.rest == "" || key.rest[0] != ':' then None
      else
        match ReadValue(key.rest[1..])
        case None => None
        case Some(v) => Some(Read(Field(key.value, v.value), v.rest))
  }

  function ReadFields(t: string): (r: Option<Read<seq<Field>>>)
    ensures r.Some? ==> |r.value.rest| < |t|
    decreases |t|, 3
  {
    match ReadField(t)
    case None => None
    case Some(f) =>
      if f.rest == "" then None
      else if f.rest[0] == '}' then Some(Read([f.value], f.rest[1..]))
      else if f.rest[0] != ',' then None
      else
        match ReadFields(f.rest[1..])
        case None => None
        case Some(fields) => Some(Read([f.value] + fields.value, fields.rest))
  }

  // ---------------------------------------------------------------- reading what was written

  lemma HexReads(n: nat)
    requires n < 16
    ensures HexValue(HexDigit(n)) == Some(n)
  {
  }

  lemma UnicodeReads(n: nat, rest: string)
    requires n < 0x10000
    ensures UnicodeTo(n, rest)[..2] == ['\\', 'u'] && Hex4(UnicodeTo(n, rest)[2..]) == Some(n)
    ensures UnicodeTo(n, rest)[6..] == rest
  {
    HexReads(n / 4096);
    HexReads(n / 256 % 16);
    HexReads(n / 16 % 16);
    HexReads(n % 16);
    FourDigits(n);
  }

  lemma SurrogatesCombine(c: char)
    requires c as int >= 0x10000
    ensures 0x10000 + (HighSurrogate(c) - 0xD800) * 0x400 + (LowSurrogate(c) - 0xDC00) == c as int
  {
    var n := c as int - 0x10000;
    assert n == n / 1024 * 1024 + n % 1024;
  }

  lemma PairShape(high: nat, low: string)
    requires high < 0x10000 && |low| >= 6 && low[0] == '\\' && low[1] == 'u'
    ensures var t := UnicodeTo(high, low)[2..];
      Hex4(t) == Some(high) && |t| >= 10 && t[4] == '\\' && t[5] == 'u' && t[6..] == low[2..] && t[10..] == low[6..]
  {
    UnicodeReads(high, low);
    var t := UnicodeTo(high, low)[2..];
    assert t[4..] == low;
    assert t[4] == t[4..][0] && t[5] == t[4..][1];
    assert t[6..] == t[4..][2..] && t[10..] == t[4..][6..];
  }

  lemma PairReads(c: char, rest: string)
    requires c as int >= 0x10000
    ensures ReadUnicode(UnicodeTo(HighSurrogate(c), UnicodeTo(LowSurrogate(c), rest))[2..]) == Some(Read(c, rest))
  {
    UnicodeReads(LowSurrogate(c), rest);
    PairShape(HighSurrogate(c), UnicodeTo(LowSurrogate(c), rest));
    SurrogatesCombine(c);
  }

  lemma CharReads(c: char, rest: string)
    ensures ReadChar(EscapeTo(c, rest)) == Some(Read(c, rest)) && EscapeTo(c, rest)[0] != '"'
  {
    var t := EscapeTo(c, rest);
    if Short(c).Some? {
      assert t[2..] == rest;
    } else if ' ' <= c <= '~' {
      assert t[1..] == rest;
    } else if c as int < 0x10000 {
      UnicodeReads(c as int, rest);
      assert t[2..][4..] == t[6..];
    } else {
      PairReads(c, rest);
    }
  }

  lemma {:induction false} CharsRead(s: string, rest: string)
    ensures ReadChars(CharsTo(s, rest)) == Some(Read(s, rest))
  {
    if s == "" {
      assert CharsTo(s, rest)[1..] == rest;
    } else {
      CharReads(s[0], CharsTo(s[1..], rest));
      CharsRead(s[1..], rest);
      assert s == [s[0]] + s[1..];
    }
  }

  lemma StringReads(s: string, rest: string)
    ensures ReadString(StringTo(s, rest)) == Some(Read(s, rest))
  {
    CharsRead(s, rest);
    assert StringTo(s, rest)[1..] == CharsTo(s, rest);
  }

  lemma NumberReads(text: string, rest: string)
    requires NumberText(text) && Ends(rest)
    ensures ReadNumber(text + rest) == Some(Read(Number(text), rest))
  {
    Text.SpanConcat(text, rest, NumberChar);
    assert (text + rest)[..|text|] == text && (text + rest)[|text|..] == rest;
  }

  /** Reading undoes writing, whatever follows. */
  lemma {:induction false} ValueReads(v: Value, rest: string)
    requires Valid(v) && Ends(rest)
    ensures ReadValue(ValueTo(v, rest)) == Some(Read(v, rest))
    decreases v, 3
  {
    var t := ValueTo(v, rest);
    OpensWith(v, rest);
    match v {
      case Null => assert t[4..] == rest;
      case Number(text) => NumberReads(text, rest);
      case Str(text) => StringReads(text, rest);
      case Arr(items) =>
        assert t[1..] == ArrayTo(items, rest);
        if items == [] {
          assert t[2..] == rest;
        } else {
          ItemsRead(items, rest);
          ArrayBegins(items, rest);
          assert t[1] == ArrayTo(items, rest)[0];
        }
      case Obj(fields) =>
        assert t[1..] == ObjectTo(fields, rest);
        if fields == [] {
          assert t[2..] == rest;
        } else {
          FieldsRead(fields, rest);
          ObjectBegins(fields, rest);
          assert t[1] == ObjectTo(fields, rest)[0];
        }
    }
  }

  lemma {:induction false} ItemsRead(items: seq<Value>, rest: string)
    requires items != [] && Ends(rest) && forall i :: 0 <= i < |items| ==> Valid(items[i])
    ensures ReadItems(ValueTo(items[0], ItemsTo(items[1..], rest))) == Some(Read(items, rest))
    decreases items, 0
  {
    var (v, more) := (items[0], items[1..]);
    ItemsEnd(more, rest);
    ValueReads(v, ItemsTo(more, rest));
    if more == [] {
      assert ItemsTo(more, rest)[1..] == rest && items == [v];
    } else {
      ItemsRead(more, rest);
      assert ItemsTo(more, rest)[1..] == ValueTo(more[0], ItemsTo(more[1..], rest)) && items == [v] + more;
    }
  }

  lemma {:induction false} FieldReads(f: Field, rest: string)
    requires Valid(f.value) && Ends(rest)
    ensures ReadField(FieldTo(f, rest)) == Some(Read(f, rest))
    decreases f, 4
  {
    var after := [':'] + ValueTo(f.value, rest);
    StringReads(f.key, after);
    assert after[1..] == ValueTo(f.value, rest);
    ValueReads(f.value, rest);
  }

  lemma {:induction false} FieldsRead(fields: seq<Field>, rest: string)
    requires fields != [] && Ends(rest) && forall i :: 0 <= i < |fields| ==> Valid(fields[i].value)
    ensures ReadFields(FieldTo(fields[0], FieldsTo(fields[1..], rest))) == Some(Read(fields, rest))
    decreases fields, 0
  {
    var (f, more) := (fields[0], fields[1..]);
    FieldsEnd(more, rest);
    FieldReads(f, FieldsTo(more, rest));
    if more == [] {
      assert FieldsTo(more, rest)[1..] == rest && fields == [f];
    } else {
      FieldsRead(more, rest);
      assert FieldsTo(more, rest)[1..] == FieldTo(more[0], FieldsTo(more[1..], rest)) && fields == [f] + more;
    }
  }

  /** A canonical text reads back as the value that it was written for. */
  lemma TextReadsBack(v: Value)
    requires Valid(v)
    ensures ReadValue(TextOf(v)) == Some(Read(v, ""))
  {
    ValueReads(v, "");
  }
}
