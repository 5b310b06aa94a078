/**
 The three orders in which the three implementations sort object keys: Python by
 code point, Go by UTF-8 byte, TypeScript by UTF-16 code unit.
 */
module KeyOrder {
  import Utf8

  datatype KeyOrder = CodePoint | Utf8Bytes | Utf16Units

  /** The UTF-16 code units of one scalar value (RFC 2781, section 2.1). */
  function Utf16Char(c: char): seq<int> {
    var u := c as int;
    if u < 0x10000 then [u] else [0xD800 + (u - 0x10000) / 0x400, 0xDC00 + (u - 0x10000) % 0x400]
  }

  /** What one character contributes to the sequence that an order compares. */
  function CharUnits(o: KeyOrder, c: char): (r: seq<int>)
    ensures |r| >= 1
  {
    match o
    case CodePoint => [c as int]
    case Utf8Bytes => Utf8.EncodeChar(c)
    case Utf16Units => Utf16Char(c)
  }

  function Units(o: KeyOrder, s: string): seq<int> {
    if s == [] then [] else CharUnits(o, s[0]) + Units(o, s[1..])
  }

  /** Strict lexicographic order. */
  predicate LexLess(a: seq<int>, b: seq<int>) {
    if b == [] then false
    else if a == [] then true
    else if a[0] != b[0] then a[0] < b[0]
    else LexLess(a[1..], b[1..])
  }

  /** `a` sorts strictly before `b`. */
  predicate Less(o: KeyOrder, a: string, b: string) {
    LexLess(Units(o, a), Units(o, b))
  }

  lemma {:induction false} UnitsAreUtf8(s: string)
    ensures Units(Utf8Bytes, s) == Utf8.Encode(s)
  {
    if s != [] {
      UnitsAreUtf8(s[1..]);
    }
  }

  // ----- every order compares one integer per character -----

  /** The integer by which order `o` places a character: UTF-16 puts surrogate pairs below U+E000. */
  function Rank(o: KeyOrder, c: char): int {
    if o == Utf16Units && 0xE000 <= c as int < 0x10000 then c as int + 0x200000 else c as int
  }

  function Ranks(o: KeyOrder, s: string): seq<int> {
    if s == [] then [] else [Rank(o, s[0])] + Ranks(o, s[1..])
  }

  /** `a` and `b` first differ at index `i`. */
  predicate DifferAt(a: seq<int>, b: seq<int>, i: nat) {
    i < |a| && i < |b| && a[..i] == b[..i] && a[i] != b[i]
  }

  lemma {:induction false} LexAtDifference(a: seq<int>, b: seq<int>, x: seq<int>, y: seq<int>, i: nat)
    requires DifferAt(a, b, i)
    ensures LexLess(a + x, b + y) == (a[i] < b[i])
  {
    if i > 0 {
      assert a[0] == a[..i][0] && b[0] == b[..i][0];
      assert a[1..][..i - 1] == a[..i][1..] && b[1..][..i - 1] == b[..i][1..];
      LexAtDifference(a[1..], b[1..], x, y, i - 1);
      assert (a + x)[1..] == a[1..] + x && (b + y)[1..] == b[1..] + y;
    }
  }

  lemma {:induction false} LexCommonPrefix(p: seq<int>, x: seq<int>, y: seq<int>)
    ensures LexLess(p + x, p + y) == LexLess(x, y)
  {
    if p == [] {
      assert p + x == x && p + y == y;
    } else {
      LexCommonPrefix(p[1..], x, y);
      assert (p + x)[1..] == p[1..] + x && (p + y)[1..] == p[1..] + y;
    }
  }

  /** Distinct characters differ inside both unit sequences, and there the one of lower rank is lower. */
  lemma CharUnitsDiffer(o: KeyOrder, c: char, d: char) returns (i: nat)
    requires c != d
    ensures DifferAt(CharUnits(o, c), CharUnits(o, d), i)
    ensures CharUnits(o, c)[i] < CharUnits(o, d)[i] <==> Rank(o, c) < Rank(o, d)
  {
    var a, b := CharUnits(o, c), CharUnits(o, d);
    var u, v := c as int, d as int;
    match o
    case CodePoint => i := 0;
    case Utf8Bytes => i := Utf8CharsDiffer(c, d);
    case Utf16Units =>
      i := if a[0] != b[0] then 0 else 1;
      if a[0] == b[0] {
        assert u >= 0x10000 && v >= 0x10000;
        assert u - 0x10000 == (u - 0x10000) / 0x400 * 0x400 + (u - 0x10000) % 0x400;
        assert v - 0x10000 == (v - 0x10000) / 0x400 * 0x400 + (v - 0x10000) % 0x400;
      }
  }

  /** The base-64 digits of a scalar value and the bytes that carry them. */
  lemma Sextets(c: char) returns (h: int, x: int, y: int, z: int)
    ensures AreSextets(c as int, h, x, y, z)
    ensures Utf8.EncodeChar(c) == EncodedSextets(c as int, h, x, y, z)
  {
    var u := c as int;
    var v := u / 64;
    var w := v / 64;
    h, x, y, z := w / 64, w % 64, v % 64, u % 64;
  }

  function EncodedSextets(u: int, h: int, x: int, y: int, z: int): seq<int> {
    if u < 0x80 then [u]
    else if u < 0x800 then [0xC0 + y, 0x80 + z]
    else if u < 0x10000 then [0xE0 + x, 0x80 + y, 0x80 + z]
    else [0xF0 + h, 0x80 + x, 0x80 + y, 0x80 + z]
  }

  predicate AreSextets(u: int, h: int, x: int, y: int, z: int) {
    && 0 <= u
    && u == h * 262144 + x * 4096 + y * 64 + z
    && 0 <= h < 8 && 0 <= x < 64 && 0 <= y < 64 && 0 <= z < 64
  }

  lemma SextetsDiffer(u: int, h: int, x: int, y: int, z: int, v: int, h': int, x': int, y': int, z': int)
    returns (i: nat)
    requires u < v && AreSextets(u, h, x, y, z) && AreSextets(v, h', x', y', z')
    ensures DifferAt(EncodedSextets(u, h, x, y, z), EncodedSextets(v, h', x', y', z'), i)
    ensures EncodedSextets(u, h, x, y, z)[i] < EncodedSextets(v, h', x', y', z')[i]
  {
    var a, b := EncodedSextets(u, h, x, y, z), EncodedSextets(v, h', x', y', z');
    if a[0] != b[0] {
      i := 0;
    } else {
      assert |a| == |b|;
      i := if a[1] != b[1] then 1 else if a[2] != b[2] then 2 else 3;
    }
  }

  lemma Utf8CharsDiffer(c: char, d: char) returns (i: nat)
    requires c != d
    ensures DifferAt(Utf8.EncodeChar(c), Utf8.EncodeChar(d), i)
    ensures Utf8.EncodeChar(c)[i] < Utf8.EncodeChar(d)[i] <==> c < d
  {
    var h, x, y, z := Sextets(c);
    var h', x', y', z' := Sextets(d);
    if c < d {
      i := SextetsDiffer(c as int, h, x, y, z, d as int, h', x', y', z');
    } else {
      i := SextetsDiffer(d as int, h', x', y', z', c as int, h, x, y, z);
    }
  }

  /** Comparing units is comparing ranks, whatever the order. */
  lemma {:induction false} LessIsRankOrder(o: KeyOrder, s: string, t: string)
    ensures Less(o, s, t) == LexLess(Ranks(o, s), Ranks(o, t))
  {
    if s == [] || t == [] {
    } else if s[0] == t[0] {
      LexCommonPrefix(CharUnits(o, s[0]), Units(o, s[1..]), Units(o, t[1..]));
      LessIsRankOrder(o, s[1..], t[1..]);
      assert Ranks(o, s)[1..] == Ranks(o, s[1..]) && Ranks(o, t)[1..] == Ranks(o, t[1..]);
    } else {
      var i := CharUnitsDiffer(o, s[0], t[0]);
      LexAtDifference(CharUnits(o, s[0]), CharUnits(o, t[0]), Units(o, s[1..]), Units(o, t[1..]), i);
      assert Ranks(o, s)[0] == Rank(o, s[0]) && Ranks(o, t)[0] == Rank(o, t[0]);
    }
  }

  // ----- each order is a strict total order on strings -----

  lemma {:induction false} LexTrichotomy(a: seq<int>, b: seq<int>)
    ensures !(LexLess(a, b) && LexLess(b, a))
    ensures LexLess(a, b) || LexLess(b, a) || a == b
  {
    if a != [] && b != [] && a[0] == b[0] {
      LexTrichotomy(a[1..], b[1..]);
      assert a == [a[0]] + a[1..] && b == [b[0]] + b[1..];
    }
  }

  lemma {:induction false} LexTransitive(a: seq<int>, b: seq<int>, c: seq<int>)
    requires LexLess(a, b) && LexLess(b, c)
    ensures LexLess(a, c)
  {
    if a != [] && a[0] == b[0] == c[0] {
      LexTransitive(a[1..], b[1..], c[1..]);
    }
  }

  lemma {:induction false} RanksInjective(o: KeyOrder, s: string, t: string)
    requires Ranks(o, s) == Ranks(o, t)
    ensures s == t
  {
    if s == [] || t == [] {
      assert s == [] && t == [];
    } else {
      assert Ranks(o, s)[1..] == Ranks(o, s[1..]) && Ranks(o, t)[1..] == Ranks(o, t[1..]);
      assert Ranks(o, s)[0] == Ranks(o, t)[0];
      RanksInjective(o, s[1..], t[1..]);
      assert s == [s[0]] + s[1..] && t == [t[0]] + t[1..];
    }
  }

  /** Exactly one of `s < t`, `t < s` and `s == t` holds. */
  lemma Trichotomy(o: KeyOrder, s: string, t: string)
    ensures !(Less(o, s, t) && Less(o, t, s))
    ensures s != t <==> Less(o, s, t) || Less(o, t, s)
  {
    LessIsRankOrder(o, s, t);
    LessIsRankOrder(o, t, s);
    LexTrichotomy(Ranks(o, s), Ranks(o, t));
    if Ranks(o, s) == Ranks(o, t) {
      RanksInjective(o, s, t);
    }
  }

  lemma Transitive(o: KeyOrder, s: string, t: string, u: string)
    requires Less(o, s, t) && Less(o, t, u)
    ensures Less(o, s, u)
  {
    LexTransitive(Units(o, s), Units(o, t), Units(o, u));
  }

  // ----- agreement of the three orders -----

  lemma {:induction false} RanksAgree(s: string)
    ensures Ranks(Utf8Bytes, s) == Ranks(CodePoint, s)
  {
    if s != [] {
      RanksAgree(s[1..]);
    }
  }

  /** Go's byte order on UTF-8 keys is Python's code-point order, on all keys. */
  lemma Utf8OrderIsCodePointOrder(s: string, t: string)
    ensures Less(Utf8Bytes, s, t) == Less(CodePoint, s, t)
    ensures LexLess(Utf8.Encode(s), Utf8.Encode(t)) == Less(CodePoint, s, t)
  {
    UnitsAreUtf8(s);
    UnitsAreUtf8(t);
    LessIsRankOrder(Utf8Bytes, s, t);
    LessIsRankOrder(CodePoint, s, t);
    RanksAgree(s);
    RanksAgree(t);
  }

  /** At their first difference one key has a supplementary character and the other one from U+E000 to U+FFFF. */
  predicate Clash(s: string, t: string) {
    if s == [] || t == [] then false
    else if s[0] == t[0] then Clash(s[1..], t[1..])
    else CharsClash(s[0], t[0]) || CharsClash(t[0], s[0])
  }

  predicate CharsClash(c: char, d: char) {
    c as int >= 0x10000 && 0xE000 <= d as int < 0x10000
  }

  /** TypeScript's UTF-16 order places two keys as Python's does if and only if they do not clash. */
  lemma {:induction false} Utf16OrderAgreesExactly(s: string, t: string)
    ensures Less(Utf16Units, s, t) == Less(CodePoint, s, t) <==> !Clash(s, t)
  {
    LessIsRankOrder(Utf16Units, s, t);
    LessIsRankOrder(CodePoint, s, t);
    if s != [] && t != [] {
      assert forall o: KeyOrder ::
          Ranks(o, s)[0] == Rank(o, s[0]) && Ranks(o, t)[0] == Rank(o, t[0])
          && Ranks(o, s)[1..] == Ranks(o, s[1..]) && Ranks(o, t)[1..] == Ranks(o, t[1..]);
      if s[0] == t[0] {
        LessIsRankOrder(Utf16Units, s[1..], t[1..]);
        LessIsRankOrder(CodePoint, s[1..], t[1..]);
        Utf16OrderAgreesExactly(s[1..], t[1..]);
      }
    }
  }

  /** No character above U+FFFF. */
  predicate Basic(s: string) {
    forall i | 0 <= i < |s| :: s[i] as int < 0x10000
  }

  lemma {:induction false} BasicKeysNeverClash(s: string, t: string)
    requires Basic(s) && Basic(t)
    ensures !Clash(s, t)
  {
    if s != [] && t != [] && s[0] == t[0] {
      BasicKeysNeverClash(s[1..], t[1..]);
    }
  }
}
