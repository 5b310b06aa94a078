/**
 JSON text: the compact printers of the three languages, one reader, and the
 theorems that make canonical JSON safe to sign (round trip, canonical form,
 injectivity).
 */
module JsonText {
  import opened Wrappers
  import opened Json
  import opened KeyOrder
  import opened Utf8
  import Decimal

  /**
   Who prints: Python's `json.dumps(..., ensure_ascii=False)`, its default with
   `ensure_ascii=True`, Go's `json.Marshal` as of Go 1.22, JavaScript's `JSON.stringify`.
   */
  datatype Dialect = Python | PythonAscii | Go | JavaScript

  function OrderOf(d: Dialect): KeyOrder {
    match d
    case Go => Utf8Bytes
    case JavaScript => Utf16Units
    case _ => CodePoint
  }

  const BACKSPACE: char := '\U{08}'
  const FORM_FEED: char := '\U{0C}'

  // ----- strings -----

  function HexDigit(n: int): char
    requires 0 <= n < 16
  {
    if n < 10 then ('0' as int + n) as char else ('a' as int + n - 10) as char
  }

  function HexValue(c: char): Option<int> {
    if '0' <= c <= '9' then Some(c as int - '0' as int)
    else if 'a' <= c <= 'f' then Some(c as int - 'a' as int + 10)
    else if 'A' <= c <= 'F' then Some(c as int - 'A' as int + 10)
    else None
  }

  /** The six-character escape of one UTF-16 unit. */
  function UnicodeEscape(u: int): string
    requires 0 <= u < 0x10000
  {
    ['\\', 'u', HexDigit(u / 4096), HexDigit(u / 256 % 16), HexDigit(u / 16 % 16), HexDigit(u % 16)]
  }

  /** Characters that Go escapes for the sake of HTML and JavaScript, beyond what JSON demands. */
  predicate HtmlSensitive(c: char) {
    c == '<' || c == '>' || c == '&' || c == '\U{2028}' || c == '\U{2029}'
  }

  /** The two-character escapes of RFC 8259, section 7, that printers use. */
  function ShortEscape(c: char): Option<char> {
    if c == '"' then Some('"')
    else if c == '\\' then Some('\\')
    else if c == '\n' then Some('n')
    else if c == '\r' then Some('r')
    else if c == '\t' then Some('t')
    else if c == BACKSPACE then Some('b')
    else if c == FORM_FEED then Some('f')
    else None
  }

  predicate LongEscaped(d: Dialect, c: char) {
    c < ' ' || (d == Go && HtmlSensitive(c)) || (d == PythonAscii && c > '~')
  }

  function EscapeChar(d: Dialect, c: char): (r: string)
    ensures r != []
  {
    if ShortEscape(c).Some? then ['\\', ShortEscape(c).value]
    else if !LongEscaped(d, c) then [c]
    else if c as int < 0x10000 then UnicodeEscape(c as int)
    else UnicodeEscape(Utf16Char(c)[0]) + UnicodeEscape(Utf16Char(c)[1])
  }

  function Escape(d: Dialect, s: string): string {
    if s == [] then [] else EscapeChar(d, s[0]) + Escape(d, s[1..])
  }

  function Quote(d: Dialect, s: string): string {
    ['"'] + Escape(d, s) + ['"']
  }

  function UnescapeShort(c: char): Option<char> {
    if c == '"' then Some('"')
    else if c == '\\' then Some('\\')
    else if c == '/' then Some('/')
    else if c == 'b' then Some(BACKSPACE)
    else if c == 'f' then Some(FORM_FEED)
    else if c == 'n' then Some('\n')
    else if c == 'r' then Some('\r')
    else if c == 't' then Some('\t')
    else None
  }

  /** The unit escaped at the front of `t`, if there is one. */
  function ReadUnit(t: string): (r: Option<int>)
    ensures r.Some? ==> 0 <= r.value < 0x10000 && |t| >= 6
  {
    if |t| < 6 || t[0] != '\\' || t[1] != 'u' then None
    else match (HexValue(t[2]), HexValue(t[3]), HexValue(t[4]), HexValue(t[5]))
      case (Some(a), Some(b), Some(c), Some(d)) => Some(a * 4096 + b * 256 + c * 16 + d)
      case _ => None
  }

  predicate IsHighSurrogate(u: int) {
    0xD800 <= u < 0xDC00
  }

  predicate IsLowSurrogate(u: int) {
    0xDC00 <= u < 0xE000
  }

  /** One character of a string body; a surrogate half on its own is no scalar value and fails. */
  function ReadChar(t: string): (r: Option<(char, string)>)
    ensures r.Some? ==> |r.value.1| < |t|
  {
    if t == [] || t[0] < ' ' then None
    else if t[0] != '\\' then Some((t[0], t[1..]))
    else if |t| >= 2 && UnescapeShort(t[1]).Some? then Some((UnescapeShort(t[1]).value, t[2..]))
    else match ReadUnit(t)
      case None => None
      case Some(u) =>
        if IsHighSurrogate(u) then
          (match ReadUnit(t[6..])
           case None => None
           case Some(v) =>
             if IsLowSurrogate(v) then Some(((0x10000 + (u - 0xD800) * 0x400 + (v - 0xDC00)) as char, t[12..]))
             else None)
        else if IsLowSurrogate(u) then None
        else Some((u as char, t[6..]))
  }

  /** The rest of a string whose opening quote has been read. */
  function ReadString(t: string): (r: Option<(string, string)>)
    ensures r.Some? ==> |r.value.1| < |t|
    decreases |t|
  {
    if t == [] then None
    else if t[0] == '"' then Some(("", t[1..]))
    else match ReadChar(t)
      case None => None
      case Some((c, rest)) =>
        match ReadString(rest)
        case None => None
        case Some((s, end)) => Some(([c] + s, end))
  }

  lemma HexDigits(u: int)
    requires 0 <= u < 0x10000
    ensures u == u / 4096 * 4096 + u / 256 % 16 * 256 + u / 16 % 16 * 16 + u % 16
  {
    assert u == u / 16 * 16 + u % 16;
    assert u / 16 == u / 256 * 16 + u / 16 % 16;
    assert u / 256 == u / 4096 * 16 + u / 256 % 16;
  }

  lemma HexValueOfDigit(n: int)
    requires 0 <= n < 16
    ensures HexValue(HexDigit(n)) == Some(n)
  {
  }

  lemma ReadUnitOfEscape(u: int, rest: string)
    requires 0 <= u < 0x10000
    ensures ReadUnit(UnicodeEscape(u) + rest) == Some(u)
    ensures (UnicodeEscape(u) + rest)[6..] == rest
  {
    var t := UnicodeEscape(u) + rest;
    assert forall i | 0 <= i < 6 :: t[i] == UnicodeEscape(u)[i];
    HexValueOfDigit(u / 4096);
    HexValueOfDigit(u / 256 % 16);
    HexValueOfDigit(u / 16 % 16);
    HexValueOfDigit(u % 16);
    HexDigits(u);
  }

  lemma ReadCharOfShortEscape(c: char, rest: string)
    requires ShortEscape(c).Some?
    ensures ReadChar(['\\', ShortEscape(c).value] + rest) == Some((c, rest))
  {
  }

  lemma ReadCharOfUnit(c: char, rest: string)
    requires c as int < 0x10000
    ensures ReadChar(UnicodeEscape(c as int) + rest) == Some((c, rest))
  {
    ReadUnitOfEscape(c as int, rest);
    var t := UnicodeEscape(c as int) + rest;
    assert t[0] == '\\' && t[1] == 'u';
  }

  lemma ReadCharOfEscape(d: Dialect, c: char, rest: string)
    ensures ReadChar(EscapeChar(d, c) + rest) == Some((c, rest))
    ensures EscapeChar(d, c)[0] != '"'
  {
    if ShortEscape(c).Some? {
      ReadCharOfShortEscape(c, rest);
    } else if !LongEscaped(d, c) {
      assert ([c] + rest)[1..] == rest;
    } else if c as int < 0x10000 {
      ReadCharOfUnit(c, rest);
    } else {
      ReadCharOfPair(c, rest);
      Regroup(UnicodeEscape(Utf16Char(c)[0]), UnicodeEscape(Utf16Char(c)[1]), [], rest);
    }
  }

  lemma ReadCharOfPair(c: char, rest: string)
    requires c as int >= 0x10000
    ensures ReadChar(UnicodeEscape(Utf16Char(c)[0]) + (UnicodeEscape(Utf16Char(c)[1]) + rest)) == Some((c, rest))
  {
    var u, v := Utf16Char(c)[0], Utf16Char(c)[1];
    var t := UnicodeEscape(u) + (UnicodeEscape(v) + rest);
    ReadUnitOfEscape(u, UnicodeEscape(v) + rest);
    ReadUnitOfEscape(v, rest);
    assert t[0] == '\\' && t[1] == 'u';
    assert t[12..] == t[6..][6..];
    assert IsHighSurrogate(u) && IsLowSurrogate(v);
  }

  /** Every printer's string literal reads back as the string. */
  lemma {:induction false} ReadStringOfEscape(d: Dialect, s: string, rest: string)
    ensures ReadString(Escape(d, s) + ['"'] + rest) == Some((s, rest))
  {
    var t := Escape(d, s) + ['"'] + rest;
    if s == [] {
      assert t[1..] == rest;
    } else {
      var tail := Escape(d, s[1..]) + ['"'] + rest;
      assert t == EscapeChar(d, s[0]) + tail;
      ReadCharOfEscape(d, s[0], tail);
      ReadStringOfEscape(d, s[1..], rest);
      assert s == [s[0]] + s[1..];
    }
  }

  // ----- values -----

  predicate SafeInteger(n: int) {
    SafeIntegers(Int(n))
  }

  /** A printer of integers that writes the digits of safe ones, and may write anything for others. */
  ghost predicate PrintsSafely(f: int -> string) {
    forall n | SafeInteger(n) :: f(n) == Decimal.OfInt(n)
  }

  /** Some printer of this kind exists: the one that always writes the digits. */
  type Numerals = f: int -> string | PrintsSafely(f) witness Decimal.OfInt

  /** Go prints integers after a pass through `float64`, and JavaScript's are doubles: any two such printers. */
  const GO_NUMERALS: Numerals
  const JAVASCRIPT_NUMERALS: Numerals

  function Numeral(d: Dialect, n: int): string {
    match d
    case Go => GO_NUMERALS(n)
    case JavaScript => JAVASCRIPT_NUMERALS(n)
    case _ => Decimal.OfInt(n)
  }

  /** Every integer in `v` is printed digit for digit. */
  predicate Exact(d: Dialect, v: Json) {
    match v
    case Int(n) => Numeral(d, n) == Decimal.OfInt(n)
    case Arr(items) => forall x | x in items :: Exact(d, x)
    case Obj(ms) => forall m | m in ms :: Exact(d, m.value)
    case _ => true
  }

  /** Safe integers are printed digit for digit by everybody. */
  lemma {:induction false} SafeIsExact(d: Dialect, v: Json)
    requires SafeIntegers(v)
    ensures Exact(d, v)
  {
    match v
    case Int(n) => assert SafeInteger(n);
    case Arr(items) =>
      forall x | x in items ensures Exact(d, x) {
        SafeIsExact(d, x);
      }
    case Obj(ms) =>
      forall m | m in ms ensures Exact(d, m.value) {
        SafeIsExact(d, m.value);
      }
    case _ =>
  }

  /** Python prints all integers digit for digit. */
  lemma {:induction false} PythonIsExact(d: Dialect, v: Json)
    requires d.Python? || d.PythonAscii?
    ensures Exact(d, v)
  {
    match v
    case Arr(items) =>
      forall x | x in items ensures Exact(d, x) {
        PythonIsExact(d, x);
      }
    case Obj(ms) =>
      forall m | m in ms ensures Exact(d, m.value) {
        PythonIsExact(d, m.value);
      }
    case _ =>
  }

  lemma {:induction false} NormalIsExact(d: Dialect, o: KeyOrder, v: Json)
    requires Exact(d, v)
    ensures Exact(d, Normal(o, v))
  {
    match v
    case Arr(items) =>
      forall i | 0 <= i < |items| ensures Exact(d, NormalItems(o, items)[i]) {
        NormalIsExact(d, o, items[i]);
      }
    case Obj(ms) =>
      SortMembers(o, NormalMembers(o, ms));
      forall i | 0 <= i < |ms| ensures Exact(d, NormalMembers(o, ms)[i].value) {
        NormalIsExact(d, o, ms[i].value);
      }
    case _ =>
  }

  /** Compact text of `v`, members in the order they are held. */
  function Plain(d: Dialect, v: Json): (r: string)
    decreases v, 1
  {
    match v
    case Null => "null"
    case Bool(b) => if b then "true" else "false"
    case Int(n) => Numeral(d, n)
    case Str(s) => Quote(d, s)
    case Arr(items) => ['['] + JoinItems(d, items) + [']']
    case Obj(ms) => ['{'] + JoinMembers(d, ms) + ['}']
  }

  function JoinItems(d: Dialect, items: seq<Json>): string
    decreases items, 0
  {
    if items == [] then []
    else if |items| == 1 then Plain(d, items[0])
    else Plain(d, items[0]) + [','] + JoinItems(d, items[1..])
  }

  function JoinMembers(d: Dialect, ms: seq<Member>): string
    decreases ms, 0
  {
    if ms == [] then []
    else if |ms| == 1 then PlainMember(d, ms[0])
    else PlainMember(d, ms[0]) + [','] + JoinMembers(d, ms[1..])
  }

  function PlainMember(d: Dialect, m: Member): string
    decreases m, 0
  {
    Quote(d, m.key) + [':'] + Plain(d, m.value)
  }

  /** Canonical text: keys sorted at every depth, compact separators. */
  function Canonical(d: Dialect, v: Json): string {
    Plain(d, Normal(OrderOf(d), v))
  }

  /** Python's `canonical_json`: the bytes that are signed and hashed. */
  function CanonicalJson(v: Json): bytes {
    Utf8.Encode(Canonical(Python, v))
  }

  // ----- reading -----

  predicate IsSpace(c: char) {
    c == ' ' || c == '\t' || c == '\n' || c == '\r'
  }

  function SkipSpace(t: string): (r: string)
    ensures |r| <= |t|
    ensures t == [] || !IsSpace(t[0]) ==> r == t
  {
    if t != [] && IsSpace(t[0]) then SkipSpace(t[1..]) else t
  }

  /** What may follow an integer without making it a fraction or a longer number. */
  predicate EndsNumber(t: string) {
    t == [] || !(Decimal.IsDigit(t[0]) || t[0] == '.' || t[0] == 'e' || t[0] == 'E')
  }

  /** An unsigned integer, without superfluous leading zero. */
  function ReadNat(t: string): (r: Option<(nat, string)>)
    ensures r.Some? ==> |r.value.1| < |t|
  {
    var n := Decimal.DigitRun(t);
    if n == 0 || (n > 1 && t[0] == '0') || !EndsNumber(t[n..]) then None
    else Some((Decimal.Value(t[..n]), t[n..]))
  }

  function ReadInt(t: string): (r: Option<(Json, string)>)
    requires t != []
    ensures r.Some? ==> |r.value.1| < |t|
  {
    if t[0] == '-' then
      match ReadNat(t[1..])
      case None => None
      case Some((magnitude, rest)) => Some((Int(0 - magnitude), rest))
    else
      match ReadNat(t)
      case None => None
      case Some((magnitude, rest)) => Some((Int(magnitude), rest))
  }

  /** Reads one value at the front of `t` and returns what follows it; repeated keys are kept. */
  function ReadValue(t: string): (r: Option<(Json, string)>)
    ensures r.Some? ==> |r.value.1| < |t|
    decreases |t|, 1
  {
    if t == [] then None
    else if t[0] == '"' then
      match ReadString(t[1..])
      case None => None
      case Some((s, rest)) => Some((Str(s), rest))
    else if t[0] == '[' then
      var u := SkipSpace(t[1..]);
      if u != [] && u[0] == ']' then Some((Arr([]), u[1..]))
      else match ReadItems(u)
        case None => None
        case Some((items, rest)) => Some((Arr(items), rest))
    else if t[0] == '{' then
      var u := SkipSpace(t[1..]);
      if u != [] && u[0] == '}' then Some((Obj([]), u[1..]))
      else match ReadMembers(u)
        case None => None
        case Some((ms, rest)) => Some((Obj(ms), rest))
    else if "null" <= t then Some((Null, t[4..]))
    else if "true" <= t then Some((Bool(true), t[4..]))
    else if "false" <= t then Some((Bool(false), t[5..]))
    else ReadInt(t)
  }

  /** One or more items, up to and including the closing bracket. */
  function ReadItems(t: string): (r: Option<(seq<Json>, string)>)
    ensures r.Some? ==> |r.value.1| < |t|
    decreases |t|, 2
  {
    match ReadValue(SkipSpace(t))
    case None => None
    case Some((v, rest)) =>
      var u := SkipSpace(rest);
      if u == [] then None
      else if u[0] == ']' then Some(([v], u[1..]))
      else if u[0] != ',' then None
      else match ReadItems(u[1..])
        case None => None
        case Some((items, end)) => Some(([v] + items, end))
  }

  /** One `"key": value` and what follows it. */
  function ReadMember(t: string): (r: Option<(Member, string)>)
    ensures r.Some? ==> |r.value.1| < |t|
    decreases |t|, 2
  {
    if t == [] || t[0] != '"' then None
    else match ReadString(t[1..])
      case None => None
      case Some((k, rest)) =>
        var u := SkipSpace(rest);
        if u == [] || u[0] != ':' then None
        else match ReadValue(SkipSpace(u[1..]))
          case None => None
          case Some((v, end)) => Some((Member(k, v), end))
  }

  /** One or more members, up to and including the closing brace. */
  function ReadMembers(t: string): (r: Option<(seq<Member>, string)>)
    ensures r.Some? ==> |r.value.1| < |t|
    decreases |t|, 3
  {
    match ReadMember(SkipSpace(t))
    case None => None
    case Some((m, rest)) =>
      var u := SkipSpace(rest);
      if u == [] then None
      else if u[0] == '}' then Some(([m], u[1..]))
      else if u[0] != ',' then None
      else match ReadMembers(u[1..])
        case None => None
        case Some((ms, end)) => Some(([m] + ms, end))
  }

  /** A whole document: one value, surrounded by nothing but space. */
  function ReadDocument(t: string): Option<Json> {
    match ReadValue(SkipSpace(t))
    case None => None
    case Some((v, rest)) => if SkipSpace(rest) == [] then Some(v) else None
  }

  /** Reading UTF-8 text strictly by the grammar, repeated keys collapsed as in a Python dict. */
  function StrictLoads(b: bytes): Option<Json> {
    match Utf8.Decode(b)
    case None => None
    case Some(t) =>
      match ReadDocument(t)
      case None => None
      case Some(v) => Some(Collapse(v))
  }

  // ----- the reader undoes every printer -----

  /** Regrouping of concatenated text. */
  lemma Regroup(a: string, b: string, c: string, rest: string)
    ensures a + b + c + rest == a + (b + c + rest)
    ensures a + b + rest == a + (b + rest)
  {
  }

  lemma ReadNatOfNumeral(numeral: string, rest: string)
    requires EndsNumber(rest) && Decimal.IsNumeral(numeral)
    ensures ReadNat(numeral + rest) == Some((Decimal.Value(numeral), rest))
    ensures (numeral + rest)[0] != '-'
  {
    var t := numeral + rest;
    Decimal.DigitRunOfNumeral(numeral, rest);
    assert t[0] == numeral[0];
    assert t[..|numeral|] == numeral && t[|numeral|..] == rest;
  }

  lemma ReadIntOfDecimal(n: int, rest: string)
    requires EndsNumber(rest)
    ensures ReadInt(Decimal.OfInt(n) + rest) == Some((Int(n), rest))
  {
    var magnitude := if n < 0 then -n else n;
    var numeral := Decimal.OfNat(magnitude);
    Decimal.OfNatIsNumeral(magnitude);
    Decimal.ValueOfNat(magnitude);
    ReadNatOfNumeral(numeral, rest);
    if n < 0 {
      assert (("-" + numeral) + rest)[1..] == numeral + rest;
    }
  }

  lemma IntStarts(n: int)
    ensures Decimal.OfInt(n)[0] == '-' || Decimal.IsDigit(Decimal.OfInt(n)[0])
  {
  }

  /** The first character of a printed value is never space. */
  lemma PlainStarts(d: Dialect, v: Json, rest: string)
    requires Exact(d, v)
    ensures Plain(d, v) != []
    ensures SkipSpace(Plain(d, v) + rest) == Plain(d, v) + rest
    ensures Plain(d, v)[0] != ']' && Plain(d, v)[0] != '}'
  {
  }

  lemma ReadValueOfInt(n: int, rest: string)
    requires EndsNumber(rest)
    ensures ReadValue(Decimal.OfInt(n) + rest) == Some((Int(n), rest))
  {
    var t := Decimal.OfInt(n) + rest;
    IntStarts(n);
    assert t[0] == Decimal.OfInt(n)[0];
    ReadIntOfDecimal(n, rest);
    assert !("null" <= t) && !("true" <= t) && !("false" <= t);
  }

  lemma ReadValueOfLiteral(v: Json, rest: string)
    requires v.Null? || v.Bool?
    ensures ReadValue(Plain(Python, v) + rest) == Some((v, rest))
  {
  }

  lemma ReadValueOfStr(d: Dialect, s: string, rest: string)
    ensures ReadValue(Quote(d, s) + rest) == Some((Str(s), rest))
  {
    var t := Quote(d, s) + rest;
    assert t[1..] == Escape(d, s) + ['"'] + rest;
    ReadStringOfEscape(d, s, rest);
  }

  lemma ReadEmptyArray(d: Dialect, rest: string)
    ensures ReadValue(Plain(d, Arr([])) + rest) == Some((Arr([]), rest))
  {
    assert (Plain(d, Arr([])) + rest)[1..] == [']'] + rest;
  }

  lemma ReadEmptyObject(d: Dialect, rest: string)
    ensures ReadValue(Plain(d, Obj([])) + rest) == Some((Obj([]), rest))
  {
    assert (Plain(d, Obj([])) + rest)[1..] == ['}'] + rest;
  }

  /** Whatever value and dialect: reading exactly printed text gives the value back and stops at its end. */
  lemma {:induction false} ReadValueOfPlain(d: Dialect, v: Json, rest: string)
    requires Exact(d, v) && EndsNumber(rest)
    ensures ReadValue(Plain(d, v) + rest) == Some((v, rest))
    decreases v, 1
  {
    match v
    case Null => ReadValueOfLiteral(v, rest);
    case Bool(_) => ReadValueOfLiteral(v, rest);
    case Int(n) => ReadValueOfInt(n, rest);
    case Str(s) => ReadValueOfStr(d, s, rest);
    case Arr(items) =>
      if items == [] {
        ReadEmptyArray(d, rest);
      } else {
        ReadItemsOfJoin(d, items, rest);
        ReadArrayOfJoin(d, items, rest);
      }
    case Obj(ms) =>
      if ms == [] {
        ReadEmptyObject(d, rest);
      } else {
        ReadMembersOfJoin(d, ms, rest);
        ReadObjectOfJoin(d, ms, rest);
      }
  }

  lemma JoinItemsStarts(d: Dialect, items: seq<Json>, rest: string)
    requires items != [] && Exact(d, items[0])
    ensures JoinItems(d, items) != [] && JoinItems(d, items)[0] != ']'
    ensures SkipSpace(JoinItems(d, items) + rest) == JoinItems(d, items) + rest
  {
  }

  lemma ReadArray(u: string, items: seq<Json>, rest: string)
    requires u != [] && u[0] != ']' && SkipSpace(u) == u
    requires ReadItems(u) == Some((items, rest))
    ensures ReadValue(['['] + u) == Some((Arr(items), rest))
  {
  }

  lemma ReadArrayOfJoin(d: Dialect, items: seq<Json>, rest: string)
    requires items != [] && Exact(d, items[0])
    requires ReadItems(JoinItems(d, items) + [']'] + rest) == Some((items, rest))
    ensures ReadValue(Plain(d, Arr(items)) + rest) == Some((Arr(items), rest))
  {
    var u := JoinItems(d, items) + [']'] + rest;
    JoinItemsStarts(d, items, [']'] + rest);
    Regroup(['['], JoinItems(d, items), [']'], rest);
    Regroup(JoinItems(d, items), [']'], [], rest);
    ReadArray(u, items, rest);
  }

  lemma ReadLastItem(t: string, v: Json, rest: string)
    requires SkipSpace(t) == t && ReadValue(t) == Some((v, [']'] + rest))
    ensures ReadItems(t) == Some(([v], rest))
  {
  }

  lemma ReadNextItem(t: string, v: Json, u: string, items: seq<Json>, rest: string)
    requires SkipSpace(t) == t && ReadValue(t) == Some((v, [','] + u))
    requires ReadItems(u) == Some((items, rest))
    ensures ReadItems(t) == Some(([v] + items, rest))
  {
  }

  lemma JoinItemsSplits(d: Dialect, items: seq<Json>, rest: string)
    requires items != [] && Exact(d, items[0])
    ensures JoinItems(d, items) + [']'] + rest == Plain(d, items[0]) + AfterItem(d, items, rest)
    ensures SkipSpace(JoinItems(d, items) + [']'] + rest) == JoinItems(d, items) + [']'] + rest
  {
    JoinItemsStarts(d, items, [']'] + rest);
    Regroup(JoinItems(d, items), [']'], [], rest);
    if |items| > 1 {
      var first, more := Plain(d, items[0]), JoinItems(d, items[1..]);
      Regroup(first, [','], more, [']'] + rest);
      Regroup(more, [']'], [], rest);
      Regroup([','], more, [']'], rest);
      Regroup([','], more, [], [']'] + rest);
    }
  }

  /** What follows the first item in the text of an array. */
  function AfterItem(d: Dialect, items: seq<Json>, rest: string): string
    requires items != []
  {
    if |items| == 1 then [']'] + rest else [','] + (JoinItems(d, items[1..]) + [']'] + rest)
  }

  lemma ReadMoreItems(t: string, first: string, items: seq<Json>, u: string, rest: string)
    requires |items| > 1 && t == first + ([','] + u) && SkipSpace(t) == t
    requires ReadValue(t) == Some((items[0], [','] + u)) && ReadItems(u) == Some((items[1..], rest))
    ensures ReadItems(t) == Some((items, rest))
  {
    ReadNextItem(t, items[0], u, items[1..], rest);
    assert items == [items[0]] + items[1..];
  }

  lemma ReadItemsFrom(d: Dialect, items: seq<Json>, rest: string)
    requires items != [] && Exact(d, items[0])
    requires ReadValue(Plain(d, items[0]) + AfterItem(d, items, rest)) == Some((items[0], AfterItem(d, items, rest)))
    requires |items| > 1 ==> ReadItems(JoinItems(d, items[1..]) + [']'] + rest) == Some((items[1..], rest))
    ensures ReadItems(JoinItems(d, items) + [']'] + rest) == Some((items, rest))
  {
    var t := JoinItems(d, items) + [']'] + rest;
    JoinItemsSplits(d, items, rest);
    if |items| == 1 {
      ReadLastItem(t, items[0], rest);
      assert items == [items[0]];
    } else {
      ReadMoreItems(t, Plain(d, items[0]), items, JoinItems(d, items[1..]) + [']'] + rest, rest);
    }
  }

  lemma {:induction false} ReadItemsOfJoin(d: Dialect, items: seq<Json>, rest: string)
    requires items != [] && forall x | x in items :: Exact(d, x)
    ensures ReadItems(JoinItems(d, items) + [']'] + rest) == Some((items, rest))
    decreases items, 0
  {
    ReadValueOfPlain(d, items[0], AfterItem(d, items, rest));
    if |items| > 1 {
      ReadItemsOfJoin(d, items[1..], rest);
    }
    ReadItemsFrom(d, items, rest);
  }

  lemma AfterQuote(quoted: string, value: string, rest: string)
    ensures (['"'] + quoted + ['"'] + [':'] + value + rest)[1..] == quoted + ['"'] + ([':'] + (value + rest))
    ensures ([':'] + (value + rest))[1..] == value + rest
  {
  }

  lemma ReadMemberParts(key: string, quoted: string, value: string, v: Json, rest: string)
    requires ReadString(quoted + ['"'] + ([':'] + (value + rest))) == Some((key, [':'] + (value + rest)))
    requires SkipSpace(value + rest) == value + rest && ReadValue(value + rest) == Some((v, rest))
    ensures ReadMember(['"'] + quoted + ['"'] + [':'] + value + rest) == Some((Member(key, v), rest))
  {
    AfterQuote(quoted, value, rest);
  }

  lemma ReadMemberOfPlain(d: Dialect, m: Member, rest: string)
    requires Exact(d, m.value)
    requires ReadValue(Plain(d, m.value) + rest) == Some((m.value, rest))
    ensures ReadMember(PlainMember(d, m) + rest) == Some((m, rest))
  {
    ReadStringOfEscape(d, m.key, [':'] + (Plain(d, m.value) + rest));
    PlainStarts(d, m.value, rest);
    ReadMemberParts(m.key, Escape(d, m.key), Plain(d, m.value), m.value, rest);
  }

  lemma JoinMembersStarts(d: Dialect, ms: seq<Member>, rest: string)
    requires ms != []
    ensures JoinMembers(d, ms) != [] && JoinMembers(d, ms)[0] == '"'
    ensures SkipSpace(JoinMembers(d, ms) + rest) == JoinMembers(d, ms) + rest
  {
  }

  lemma ReadObject(u: string, ms: seq<Member>, rest: string)
    requires u != [] && u[0] != '}' && SkipSpace(u) == u
    requires ReadMembers(u) == Some((ms, rest))
    ensures ReadValue(['{'] + u) == Some((Obj(ms), rest))
  {
  }

  lemma ReadObjectOfJoin(d: Dialect, ms: seq<Member>, rest: string)
    requires ms != []
    requires ReadMembers(JoinMembers(d, ms) + ['}'] + rest) == Some((ms, rest))
    ensures ReadValue(Plain(d, Obj(ms)) + rest) == Some((Obj(ms), rest))
  {
    var u := JoinMembers(d, ms) + ['}'] + rest;
    JoinMembersStarts(d, ms, ['}'] + rest);
    Regroup(['{'], JoinMembers(d, ms), ['}'], rest);
    Regroup(JoinMembers(d, ms), ['}'], [], rest);
    ReadObject(u, ms, rest);
  }

  lemma ReadLastMember(t: string, m: Member, rest: string)
    requires SkipSpace(t) == t && ReadMember(t) == Some((m, ['}'] + rest))
    ensures ReadMembers(t) == Some(([m], rest))
  {
  }

  lemma ReadNextMember(t: string, m: Member, u: string, ms: seq<Member>, rest: string)
    requires SkipSpace(t) == t && ReadMember(t) == Some((m, [','] + u))
    requires ReadMembers(u) == Some((ms, rest))
    ensures ReadMembers(t) == Some(([m] + ms, rest))
  {
  }

  lemma JoinMembersSplits(d: Dialect, ms: seq<Member>, rest: string)
    requires ms != []
    ensures JoinMembers(d, ms) + ['}'] + rest == PlainMember(d, ms[0]) + AfterMember(d, ms, rest)
    ensures SkipSpace(JoinMembers(d, ms) + ['}'] + rest) == JoinMembers(d, ms) + ['}'] + rest
  {
    JoinMembersStarts(d, ms, ['}'] + rest);
    Regroup(JoinMembers(d, ms), ['}'], [], rest);
    if |ms| > 1 {
      var first, more := PlainMember(d, ms[0]), JoinMembers(d, ms[1..]);
      Regroup(first, [','], more, ['}'] + rest);
      Regroup(more, ['}'], [], rest);
      Regroup([','], more, ['}'], rest);
      Regroup([','], more, [], ['}'] + rest);
    }
  }

  /** What follows the first member in the text of an object. */
  function AfterMember(d: Dialect, ms: seq<Member>, rest: string): string
    requires ms != []
  {
    if |ms| == 1 then ['}'] + rest else [','] + (JoinMembers(d, ms[1..]) + ['}'] + rest)
  }

  lemma ReadMoreMembers(t: string, first: string, ms: seq<Member>, u: string, rest: string)
    requires |ms| > 1 && t == first + ([','] + u) && SkipSpace(t) == t
    requires ReadMember(t) == Some((ms[0], [','] + u)) && ReadMembers(u) == Some((ms[1..], rest))
    ensures ReadMembers(t) == Some((ms, rest))
  {
    ReadNextMember(t, ms[0], u, ms[1..], rest);
    assert ms == [ms[0]] + ms[1..];
  }

  lemma ReadMembersFrom(d: Dialect, ms: seq<Member>, rest: string)
    requires ms != []
    requires ReadMember(PlainMember(d, ms[0]) + AfterMember(d, ms, rest)) == Some((ms[0], AfterMember(d, ms, rest)))
    requires |ms| > 1 ==> ReadMembers(JoinMembers(d, ms[1..]) + ['}'] + rest) == Some((ms[1..], rest))
    ensures ReadMembers(JoinMembers(d, ms) + ['}'] + rest) == Some((ms, rest))
  {
    var t := JoinMembers(d, ms) + ['}'] + rest;
    JoinMembersSplits(d, ms, rest);
    if |ms| == 1 {
      ReadLastMember(t, ms[0], rest);
      assert ms == [ms[0]];
    } else {
      ReadMoreMembers(t, PlainMember(d, ms[0]), ms, JoinMembers(d, ms[1..]) + ['}'] + rest, rest);
    }
  }

  lemma {:induction false} ReadMembersOfJoin(d: Dialect, ms: seq<Member>, rest: string)
    requires ms != [] && forall m | m in ms :: Exact(d, m.value)
    ensures ReadMembers(JoinMembers(d, ms) + ['}'] + rest) == Some((ms, rest))
    decreases ms, 0
  {
    ReadValueOfPlain(d, ms[0].value, AfterMember(d, ms, rest));
    ReadMemberOfPlain(d, ms[0], AfterMember(d, ms, rest));
    if |ms| > 1 {
      ReadMembersOfJoin(d, ms[1..], rest);
    }
    ReadMembersFrom(d, ms, rest);
  }

  lemma ReadDocumentOfPlain(d: Dialect, v: Json)
    requires Exact(d, v)
    ensures ReadDocument(Plain(d, v)) == Some(v)
  {
    ReadValueOfPlain(d, v, []);
    PlainStarts(d, v, []);
    assert Plain(d, v) + [] == Plain(d, v);
  }

  // ----- canonical JSON -----

  /** Round trip: exactly printed canonical text, in every dialect, reads back as the value with its keys sorted. */
  lemma LoadsOfCanonical(d: Dialect, v: Json)
    requires IsDict(v) && Exact(d, v)
    ensures StrictLoads(Utf8.Encode(Canonical(d, v))) == Some(Normal(OrderOf(d), v))
    ensures Same(v, Normal(OrderOf(d), v))
  {
    var w := Normal(OrderOf(d), v);
    Utf8.DecodeOfEncode(Canonical(d, v));
    NormalIsExact(d, OrderOf(d), v);
    ReadDocumentOfPlain(d, w);
    NormalIsDict(OrderOf(d), v);
    CollapseOfDict(w);
    SameAsNormal(OrderOf(d), v);
  }

  /**
   Canonical form and injectivity at once: two values, printed exactly, have equal
   canonical texts if and only if they differ in the insertion order of keys only.
   */
  lemma CanonicalIffSame(d: Dialect, v: Json, w: Json)
    requires IsDict(v) && IsDict(w) && Exact(d, v) && Exact(d, w)
    ensures Canonical(d, v) == Canonical(d, w) <==> Same(v, w)
  {
    var o := OrderOf(d);
    SameIffNormal(o, v, w);
    NormalIsExact(d, o, v);
    NormalIsExact(d, o, w);
    if Canonical(d, v) == Canonical(d, w) {
      ReadDocumentOfPlain(d, Normal(o, v));
      ReadDocumentOfPlain(d, Normal(o, w));
    }
  }

  lemma CanonicalJsonIffSame(v: Json, w: Json)
    requires IsDict(v) && IsDict(w)
    ensures CanonicalJson(v) == CanonicalJson(w) <==> Same(v, w)
  {
    PythonIsExact(Python, v);
    PythonIsExact(Python, w);
    CanonicalIffSame(Python, v, w);
    if CanonicalJson(v) == CanonicalJson(w) {
      Utf8.EncodeInjective(Canonical(Python, v), Canonical(Python, w));
    }
  }

  /** Printing what was read from a canonical text prints the same text again. */
  lemma CanonicalIsStable(d: Dialect, v: Json)
    requires IsDict(v) && Exact(d, v)
    ensures StrictLoads(Utf8.Encode(Canonical(d, v))).Some?
    ensures Canonical(d, StrictLoads(Utf8.Encode(Canonical(d, v))).value) == Canonical(d, v)
  {
    LoadsOfCanonical(d, v);
    NormalIdempotent(OrderOf(d), v);
  }

  /** A dict whose values are all strings. */
  predicate IsFlat(ms: seq<Member>) {
    DistinctKeys(ms) && forall m | m in ms :: m.value.Str?
  }

  /** Flat members are normal as they are. */
  lemma FlatIsNormal(ms: seq<Member>)
    requires forall m | m in ms :: m.value.Str?
    ensures NormalMembers(CodePoint, ms) == ms
  {
    assert forall i | 0 <= i < |ms| :: ms[i] in ms;
  }

  /** Flat dicts with the same members have the same canonical bytes. */
  lemma CanonicalOfFlat(ms: seq<Member>, ns: seq<Member>)
    requires IsFlat(ms) && IsFlat(ns)
    requires forall m :: m in ms <==> m in ns
    ensures CanonicalJson(Obj(ms)) == CanonicalJson(Obj(ns))
  {
    FlatIsNormal(ms);
    FlatIsNormal(ns);
    SortUniqueFor(CodePoint, ms, ns);
  }
}
