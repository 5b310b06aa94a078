/**
 UTF-8 as RFC 3629 defines it: the last step of every canonical encoding and the
 first step of every decoding. A `char` is a Unicode scalar value.
 */
module Utf8 {
  import opened Wrappers

  type byte = b: int | 0 <= b < 256
  type bytes = seq<byte>

  /** The one to four bytes of one scalar value (RFC 3629, section 3). */
  function EncodeChar(c: char): (r: bytes)
    ensures 1 <= |r| <= 4
  {
    var u := c as int;
    if u < 0x80 then [u]
    else
      var v := u / 64;
      if u < 0x800 then [0xC0 + v, 0x80 + u % 64]
      else
        var w := v / 64;
        if u < 0x10000 then [0xE0 + w, 0x80 + v % 64, 0x80 + u % 64]
        else [0xF0 + w / 64, 0x80 + w % 64, 0x80 + v % 64, 0x80 + u % 64]
  }

  function Encode(s: string): bytes {
    if s == [] then [] else EncodeChar(s[0]) + Encode(s[1..])
  }

  predicate IsContinuation(b: byte) {
    0x80 <= b < 0xC0
  }

  /** The six data bits of a continuation byte. */
  function Payload(b: byte): int {
    b - 0x80
  }

  predicate IsScalar(u: int) {
    0 <= u < 0xD800 || 0xE000 <= u < 0x110000
  }

  /** The first scalar value of `b` and how many bytes it takes; overlong forms, surrogates and stray bytes fail. */
  function DecodeChar(b: bytes): (r: Option<(char, nat)>)
    ensures r.Some? ==> 1 <= r.value.1 <= |b|
  {
    if |b| >= 1 && b[0] < 0x80 then
      Some((b[0] as char, 1))
    else if |b| >= 2 && 0xC2 <= b[0] < 0xE0 && IsContinuation(b[1]) then
      Some((((b[0] as int - 0xC0) * 64 + Payload(b[1])) as char, 2))
    else if |b| >= 3 && 0xE0 <= b[0] < 0xF0 && IsContinuation(b[1]) && IsContinuation(b[2]) then
      var u := (b[0] as int - 0xE0) * 4096 + Payload(b[1]) * 64 + Payload(b[2]);
      if u >= 0x800 && IsScalar(u) then Some((u as char, 3)) else None
    else if |b| >= 4 && 0xF0 <= b[0] < 0xF5
            && IsContinuation(b[1]) && IsContinuation(b[2]) && IsContinuation(b[3]) then
      var u := (b[0] as int - 0xF0) * 262144 + Payload(b[1]) * 4096 + Payload(b[2]) * 64 + Payload(b[3]);
      if u >= 0x10000 && IsScalar(u) then Some((u as char, 4)) else None
    else
      None
  }

  function Decode(b: bytes): Option<string> {
    if b == [] then Some("")
    else match DecodeChar(b)
      case None => None
      case Some((c, n)) =>
        match Decode(b[n..])
        case None => None
        case Some(s) => Some([c] + s)
  }

  lemma DecodeCharOfEncodeChar(c: char, rest: bytes)
    ensures DecodeChar(EncodeChar(c) + rest) == Some((c, |EncodeChar(c)|))
  {
  }

  /** Decoding gives back exactly what was encoded, for every string. */
  lemma {:induction false} DecodeOfEncode(s: string)
    ensures Decode(Encode(s)) == Some(s)
  {
    if s != [] {
      var e := EncodeChar(s[0]);
      DecodeCharOfEncodeChar(s[0], Encode(s[1..]));
      assert (e + Encode(s[1..]))[|e|..] == Encode(s[1..]);
      DecodeOfEncode(s[1..]);
      assert s == [s[0]] + s[1..];
    }
  }

  /** The last base-64 digit of a number, and the rest of it. */
  lemma LastSextet(rest: int, digit: int)
    requires 0 <= digit < 64
    ensures (rest * 64 + digit) / 64 == rest && (rest * 64 + digit) % 64 == digit
  {
  }

  lemma EncodeTwo(b: bytes)
    requires DecodeChar(b).Some? && DecodeChar(b).value.1 == 2
    ensures EncodeChar(DecodeChar(b).value.0) == b[..2]
  {
    LastSextet(b[0] - 0xC0, Payload(b[1]));
  }

  lemma EncodeThree(b: bytes)
    requires DecodeChar(b).Some? && DecodeChar(b).value.1 == 3
    ensures EncodeChar(DecodeChar(b).value.0) == b[..3]
  {
    LastSextet((b[0] - 0xE0) * 64 + Payload(b[1]), Payload(b[2]));
    LastSextet(b[0] - 0xE0, Payload(b[1]));
  }

  lemma EncodeFour(b: bytes)
    requires DecodeChar(b).Some? && DecodeChar(b).value.1 == 4
    ensures EncodeChar(DecodeChar(b).value.0) == b[..4]
  {
    LastSextet(((b[0] - 0xF0) * 64 + Payload(b[1])) * 64 + Payload(b[2]), Payload(b[3]));
    LastSextet((b[0] - 0xF0) * 64 + Payload(b[1]), Payload(b[2]));
    LastSextet(b[0] - 0xF0, Payload(b[1]));
  }

  lemma EncodeCharOfDecodeChar(b: bytes)
    requires DecodeChar(b).Some?
    ensures EncodeChar(DecodeChar(b).value.0) == b[..DecodeChar(b).value.1]
  {
    var n := DecodeChar(b).value.1;
    if n == 2 {
      EncodeTwo(b);
    } else if n == 3 {
      EncodeThree(b);
    } else if n == 4 {
      EncodeFour(b);
    }
  }

  lemma EncodeCons(c: char, s: string)
    ensures Encode([c] + s) == EncodeChar(c) + Encode(s)
  {
  }

  /** Only the encoding of `s` decodes to `s`: no overlong or alternative spelling exists. */
  lemma {:induction false} EncodeOfDecode(b: bytes)
    requires Decode(b).Some?
    ensures Encode(Decode(b).value) == b
  {
    if b != [] {
      var (c, n) := DecodeChar(b).value;
      EncodeOfDecode(b[n..]);
      EncodeOfDecodeFirst(b, c, n, Decode(b[n..]).value);
    }
  }

  lemma EncodeOfDecodeFirst(b: bytes, c: char, n: nat, s: string)
    requires DecodeChar(b) == Some((c, n)) && Encode(s) == b[n..]
    ensures Encode([c] + s) == b
  {
    EncodeCharOfDecodeChar(b);
    EncodeCons(c, s);
    assert b == b[..n] + b[n..];
  }

  lemma EncodeInjective(s: string, t: string)
    requires Encode(s) == Encode(t)
    ensures s == t
  {
    DecodeOfEncode(s);
    DecodeOfEncode(t);
  }

  /** ASCII text is one byte per character. */
  lemma {:induction false} EncodeAscii(s: string)
    requires forall i | 0 <= i < |s| :: s[i] as int < 0x80
    ensures |Encode(s)| == |s| && forall i | 0 <= i < |s| :: Encode(s)[i] == s[i] as int
  {
    if s != [] {
      EncodeAscii(s[1..]);
      assert Encode(s) == [s[0] as int] + Encode(s[1..]);
    }
  }
}
