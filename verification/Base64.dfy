/**
 Base64 with padding (RFC 4648, section 4), as the wire carries payloads and signatures.
 The three libraries agree on what the encoder writes. What they make of any other text
 (missing padding, stray characters, line breaks) differs and is left open.
 */
module Base64 {
  import opened Wrappers
  import opened Utf8

  const PAD := '='

  function CharOf(v: int): char
    requires 0 <= v < 64
  {
    if v < 26 then ('A' as int + v) as char
    else if v < 52 then ('a' as int + v - 26) as char
    else if v < 62 then ('0' as int + v - 52) as char
    else if v == 62 then '+'
    else '/'
  }

  function ValueOf(c: char): (r: Option<int>)
    ensures r.Some? ==> 0 <= r.value < 64
  {
    if 'A' <= c <= 'Z' then Some(c as int - 'A' as int)
    else if 'a' <= c <= 'z' then Some(c as int - 'a' as int + 26)
    else if '0' <= c <= '9' then Some(c as int - '0' as int + 52)
    else if c == '+' then Some(62)
    else if c == '/' then Some(63)
    else None
  }

  /** The quartet of a full group of three bytes. */
  function Quartet(x: byte, y: byte, z: byte): (r: string)
    ensures |r| == 4
  {
    [CharOf(x / 4), CharOf(x % 4 * 16 + y / 16), CharOf(y % 16 * 4 + z / 64), CharOf(z % 64)]
  }

  function Encode(b: bytes): string {
    if |b| == 0 then ""
    else if |b| == 1 then [CharOf(b[0] / 4), CharOf(b[0] % 4 * 16), PAD, PAD]
    else if |b| == 2 then
      [CharOf(b[0] / 4), CharOf(b[0] % 4 * 16 + b[1] / 16), CharOf(b[1] % 16 * 4), PAD]
    else
      Quartet(b[0], b[1], b[2]) + Encode(b[3..])
  }

  function Unquartet(c0: char, c1: char, c2: char, c3: char): Option<bytes> {
    match (ValueOf(c0), ValueOf(c1), ValueOf(c2), ValueOf(c3))
    case (Some(v0), Some(v1), Some(v2), Some(v3)) => Some(Bytes(v0, v1, v2, v3))
    case _ => None
  }

  function Bytes(v0: int, v1: int, v2: int, v3: int): bytes
    requires 0 <= v0 < 64 && 0 <= v1 < 64 && 0 <= v2 < 64 && 0 <= v3 < 64
  {
    [v0 * 4 + v1 / 16, v1 % 16 * 16 + v2 / 4, v2 % 4 * 64 + v3]
  }

  /** The last quartet when it ends in padding: one or two bytes, and no stray bits. */
  function Padded(c0: char, c1: char, c2: char): Option<bytes> {
    match (ValueOf(c0), ValueOf(c1), ValueOf(c2))
    case (Some(v0), Some(v1), Some(v2)) => if v2 % 4 == 0 then Some(Bytes(v0, v1, v2, 0)[..2]) else None
    case (Some(v0), Some(v1), None) => if c2 == PAD && v1 % 16 == 0 then Some(Bytes(v0, v1, 0, 0)[..1]) else None
    case _ => None
  }

  /** Strict decoding: full quartets, padding only in the last one. */
  function StrictDecode(s: string): Option<bytes> {
    if s == "" then Some([])
    else if |s| < 4 then None
    else if |s| == 4 && s[3] == PAD then Padded(s[0], s[1], s[2])
    else
      match (Unquartet(s[0], s[1], s[2], s[3]), StrictDecode(s[4..]))
      case (Some(group), Some(tail)) => Some(group + tail)
      case _ => None
  }

  lemma ValueOfCharOf(v: int)
    requires 0 <= v < 64
    ensures ValueOf(CharOf(v)) == Some(v) && CharOf(v) != PAD
  {
  }

  /** Four sextets hold three bytes. */
  lemma Sextets(x: byte, y: byte, z: byte)
    ensures 0 <= x / 4 < 64 && 0 <= x % 4 * 16 + y / 16 < 64 && 0 <= y % 16 * 4 + z / 64 < 64 && 0 <= z % 64 < 64
    ensures Bytes(x / 4, x % 4 * 16 + y / 16, y % 16 * 4 + z / 64, z % 64) == [x, y, z]
  {
  }

  lemma UnquartetOfQuartet(x: byte, y: byte, z: byte)
    ensures var q := Quartet(x, y, z);
      |q| == 4 && q[3] != PAD && Unquartet(q[0], q[1], q[2], q[3]) == Some([x, y, z])
  {
    Sextets(x, y, z);
    ValueOfCharOf(x / 4);
    ValueOfCharOf(x % 4 * 16 + y / 16);
    ValueOfCharOf(y % 16 * 4 + z / 64);
    ValueOfCharOf(z % 64);
  }

  lemma DecodeOfEncodeOne(x: byte)
    ensures StrictDecode(Encode([x])) == Some([x])
  {
    Sextets(x, 0, 0);
    ValueOfCharOf(x / 4);
    ValueOfCharOf(x % 4 * 16);
    assert Bytes(x / 4, x % 4 * 16, 0, 0)[..1] == [x];
    assert x % 4 * 16 % 16 == 0;
  }

  lemma DecodeOfEncodeTwo(x: byte, y: byte)
    ensures StrictDecode(Encode([x, y])) == Some([x, y])
  {
    Sextets(x, y, 0);
    ValueOfCharOf(x / 4);
    ValueOfCharOf(x % 4 * 16 + y / 16);
    ValueOfCharOf(y % 16 * 4);
    assert Bytes(x / 4, x % 4 * 16 + y / 16, y % 16 * 4, 0)[..2] == [x, y];
    assert y % 16 * 4 % 4 == 0;
  }

  lemma DecodeOfPrepend(q: string, tail: string)
    requires |q| == 4 && q[3] != PAD
    requires Unquartet(q[0], q[1], q[2], q[3]).Some? && StrictDecode(tail).Some?
    ensures StrictDecode(q + tail) == Some(Unquartet(q[0], q[1], q[2], q[3]).value + StrictDecode(tail).value)
  {
  }

  /** Decoding gives back exactly what was encoded. */
  lemma {:induction false} StrictDecodeOfEncode(b: bytes)
    ensures StrictDecode(Encode(b)) == Some(b)
    ensures Encode(b) == "" <==> b == []
  {
    if |b| == 1 {
      DecodeOfEncodeOne(b[0]);
      assert b == [b[0]];
    } else if |b| == 2 {
      DecodeOfEncodeTwo(b[0], b[1]);
      assert b == [b[0], b[1]];
    } else if |b| >= 3 {
      StrictDecodeOfEncode(b[3..]);
      DecodeOfGroup(b);
    }
  }

  lemma FirstGroup(b: bytes)
    requires |b| >= 3
    ensures [b[0], b[1], b[2]] + b[3..] == b
  {
  }

  lemma DecodeOfGroup(b: bytes)
    requires |b| >= 3 && StrictDecode(Encode(b[3..])) == Some(b[3..])
    ensures StrictDecode(Quartet(b[0], b[1], b[2]) + Encode(b[3..])) == Some(b)
  {
    UnquartetOfQuartet(b[0], b[1], b[2]);
    DecodeOfPrepend(Quartet(b[0], b[1], b[2]), Encode(b[3..]));
    FirstGroup(b);
  }

  // ----- the decoders of the three libraries -----

  /** A decoder gives back what the encoder was given, and may do anything with other text. */
  ghost predicate Inverts(decode: string -> Option<bytes>) {
    forall b: bytes :: decode(Encode(b)) == Some(b)
  }

  lemma StrictDecodeInverts()
    ensures Inverts(StrictDecode)
  {
    forall b: bytes ensures StrictDecode(Encode(b)) == Some(b) {
      StrictDecodeOfEncode(b);
    }
  }

  /** Some decoder of this kind exists: the strict one. */
  type Decoder = f: string -> Option<bytes> | Inverts(f) witness (StrictDecodeInverts(); StrictDecode)

  /** `base64.b64decode`, `base64.StdEncoding` and `Buffer.from(_, "base64")`: any three decoders. */
  const PYTHON: Decoder
  const GO: Decoder
  const NODE: Decoder

  datatype Library = Python | Go | Node

  function Decode(lib: Library, s: string): Option<bytes> {
    match lib
    case Python => PYTHON(s)
    case Go => GO(s)
    case Node => NODE(s)
  }

  /** Every library gives back exactly what was encoded. */
  lemma DecodeOfEncode(lib: Library, b: bytes)
    ensures Decode(lib, Encode(b)) == Some(b)
    ensures Encode(b) == "" <==> b == []
  {
    StrictDecodeOfEncode(b);
  }

  /** The libraries make the same of this text. */
  predicate DecodedAlike(s: string) {
    Decode(Python, s) == Decode(Go, s) == Decode(Node, s)
  }

  lemma EncodedIsDecodedAlike(b: bytes)
    ensures DecodedAlike(Encode(b))
  {
    DecodeOfEncode(Python, b);
    DecodeOfEncode(Go, b);
    DecodeOfEncode(Node, b);
  }
}
