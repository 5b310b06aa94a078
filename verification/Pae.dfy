/**
 The Pre-Authentication Encoding of DSSE v1: the exact bytes that every witness signs.
 `PAE(type, body) = "DSSEv1" SP LEN(type) SP type SP LEN(body) SP body`.
 */
module Pae {
  import opened Wrappers
  import opened Utf8
  import Decimal

  const SP: byte := 0x20
  const PREFIX: bytes := [0x44, 0x53, 0x53, 0x45, 0x76, 0x31, 0x20]

  /** The prefix in letters. */
  lemma PrefixSpelled()
    ensures PREFIX == Utf8.Encode("DSSEv1 ")
  {
    assert "DSSEv1 " == ['D', 'S', 'S', 'E', 'v', '1', ' '];
    Utf8.EncodeAscii("DSSEv1 ");
  }

  function Length(x: bytes): bytes {
    Utf8.Encode(Decimal.OfNat(|x|))
  }

  /** A length-prefixed field. */
  function Field(x: bytes): bytes {
    Length(x) + [SP] + x
  }

  function PaeBytes(payloadType: bytes, body: bytes): bytes {
    PREFIX + Field(payloadType) + [SP] + Field(body)
  }

  function Pae(payloadType: string, body: bytes): bytes {
    PaeBytes(Utf8.Encode(payloadType), body)
  }

  // ----- decoding -----

  function IndexOfSpace(b: bytes): (i: nat)
    ensures i <= |b|
    ensures forall j | 0 <= j < i :: b[j] != SP
    ensures i < |b| ==> b[i] == SP
  {
    if b == [] || b[0] == SP then 0 else 1 + IndexOfSpace(b[1..])
  }

  /** Splits a length-prefixed field off the front of `b`. */
  function ReadField(b: bytes): Option<(bytes, bytes)> {
    var i := IndexOfSpace(b);
    if i == |b| then None
    else match Utf8.Decode(b[..i])
      case None => None
      case Some(s) =>
        if !Decimal.IsNumeral(s) then None
        else
          var n := Decimal.Value(s);
          var rest := b[i + 1..];
          if n > |rest| then None else Some((rest[..n], rest[n..]))
  }

  function DecodePae(b: bytes): Option<(bytes, bytes)> {
    if !(PREFIX <= b) then None
    else match ReadField(b[|PREFIX|..])
      case None => None
      case Some((payloadType, rest)) =>
        if rest == [] || rest[0] != SP then None
        else match ReadField(rest[1..])
          case None => None
          case Some((body, end)) => if end == [] then Some((payloadType, body)) else None
  }

  lemma {:induction false} AsciiHasNoSpace(s: string)
    requires forall i | 0 <= i < |s| :: '!' <= s[i] <= '~'
    ensures SP !in Utf8.Encode(s)
  {
    if s != [] {
      AsciiHasNoSpace(s[1..]);
      assert Utf8.EncodeChar(s[0]) == [s[0] as int];
    }
  }

  lemma IndexOfFirstSpace(p: bytes, x: bytes)
    requires SP !in p
    ensures IndexOfSpace(p + [SP] + x) == |p|
  {
    var b := p + [SP] + x;
    assert b[|p|] == SP;
    assert forall i | 0 <= i < |p| :: b[i] == p[i];
  }

  lemma ReadFieldOfField(x: bytes, rest: bytes)
    ensures ReadField(Field(x) + rest) == Some((x, rest))
  {
    var numeral := Decimal.OfNat(|x|);
    var b := Field(x) + rest;
    AsciiHasNoSpace(numeral);
    assert b == Length(x) + [SP] + (x + rest);
    IndexOfFirstSpace(Length(x), x + rest);
    assert b[..|Length(x)|] == Length(x);
    Utf8.DecodeOfEncode(numeral);
    Decimal.OfNatIsNumeral(|x|);
    Decimal.ValueOfNat(|x|);
    assert b[|Length(x)| + 1..] == x + rest;
    assert (x + rest)[..|x|] == x && (x + rest)[|x|..] == rest;
  }

  lemma GlueField(length: bytes, x: bytes, rest: bytes)
    ensures length + [SP] + (x + rest) == length + [SP] + x + rest
  {
  }

  lemma FieldOfReadField(b: bytes)
    requires ReadField(b).Some?
    ensures b == Field(ReadField(b).value.0) + ReadField(b).value.1
  {
    var i := IndexOfSpace(b);
    var (x, rest) := ReadField(b).value;
    Utf8.EncodeOfDecode(b[..i]);
    Decimal.OfNatOfValue(Utf8.Decode(b[..i]).value);
    CutAtSpace(b, i);
    GlueField(b[..i], x, rest);
  }

  lemma CutAtSpace(b: bytes, i: nat)
    requires i < |b| && b[i] == SP
    ensures b == b[..i] + [SP] + b[i + 1..]
  {
  }

  /** The decoder recovers type and body from every encoding, whatever bytes they hold. */
  lemma DecodeOfPae(payloadType: bytes, body: bytes)
    ensures DecodePae(PaeBytes(payloadType, body)) == Some((payloadType, body))
  {
    Cut(PREFIX, Field(payloadType), Field(body));
    ReadFieldOfField(payloadType, [SP] + Field(body));
    ReadFieldOfField(body, []);
  }

  lemma Cut(prefix: bytes, first: bytes, second: bytes)
    ensures prefix <= prefix + first + [SP] + second
    ensures (prefix + first + [SP] + second)[|prefix|..] == first + ([SP] + second)
    ensures [SP] + second != [] && ([SP] + second)[0] == SP && ([SP] + second)[1..] == second + []
  {
  }

  /** Gluing back together what was cut at the prefix and at the middle space. */
  lemma Glue(b: bytes, prefix: bytes, first: bytes, rest: bytes, second: bytes)
    requires prefix <= b && b[|prefix|..] == first + rest
    requires rest != [] && rest[0] == SP && rest[1..] == second + []
    ensures b == prefix + first + [SP] + second
  {
  }

  /** Nothing but the encoding of a pair decodes to that pair. */
  lemma PaeOfDecode(b: bytes)
    requires DecodePae(b).Some?
    ensures PaeBytes(DecodePae(b).value.0, DecodePae(b).value.1) == b
  {
    var (payloadType, rest) := ReadField(b[|PREFIX|..]).value;
    var (body, end) := ReadField(rest[1..]).value;
    FieldOfReadField(b[|PREFIX|..]);
    FieldOfReadField(rest[1..]);
    Glue(b, PREFIX, Field(payloadType), rest, Field(body));
  }

  /** Equal encodings mean equal types and equal bodies. */
  lemma PaeInjective(type0: string, body0: bytes, type1: string, body1: bytes)
    requires Pae(type0, body0) == Pae(type1, body1)
    ensures type0 == type1 && body0 == body1
  {
    DecodeOfPae(Utf8.Encode(type0), body0);
    DecodeOfPae(Utf8.Encode(type1), body1);
    Utf8.EncodeInjective(type0, type1);
  }
}
