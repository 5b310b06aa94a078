/**
 Symbolic signatures. The bits of a genuine signature name the signing key, the
 message and the signer's nonce; all other bits are junk. A key is named by the
 PEM text of its public half. How the bits are laid out is left open. Who may
 produce which bits is said by the adversary machine, not here.
 */
module Signatures {
  import opened Wrappers
  import opened Utf8
  import Decimal
  import Pae

  datatype Signature = Sig(key: string, message: bytes, nonce: nat) | Junk

  /** How signatures are laid out as bits. */
  datatype Scheme = Scheme(sign: (string, bytes, nat) -> bytes, read: bytes -> Signature)

  /** Signatures are unambiguous: the bits name key, message and nonce, and no bits at all are junk. */
  ghost predicate Lawful(s: Scheme) {
    && (forall key, message, nonce :: s.read(s.sign(key, message, nonce)) == Sig(key, message, nonce))
    && (forall bits :: s.read(bits).Sig? ==>
          bits == s.sign(s.read(bits).key, s.read(bits).message, s.read(bits).nonce))
    && s.read([]).Junk?
  }

  // ----- a scheme that can be written down -----

  function NamedSign(key: string, message: bytes, nonce: nat): bytes {
    Pae.Pae(key, Pae.Pae(Decimal.OfNat(nonce), message))
  }

  function NamedRead(bits: bytes): Signature {
    match Pae.DecodePae(bits)
    case None => Junk
    case Some((k, inner)) =>
      match (Utf8.Decode(k), Pae.DecodePae(inner))
      case (Some(key), Some((n, message))) =>
        (match Utf8.Decode(n)
         case None => Junk
         case Some(numeral) =>
           if Decimal.IsNumeral(numeral) then Sig(key, message, Decimal.Value(numeral)) else Junk)
      case _ => Junk
  }

  lemma NamedReadOfSign(key: string, message: bytes, nonce: nat)
    ensures NamedRead(NamedSign(key, message, nonce)) == Sig(key, message, nonce)
  {
    var numeral := Decimal.OfNat(nonce);
    Pae.DecodeOfPae(Utf8.Encode(key), Pae.Pae(numeral, message));
    Pae.DecodeOfPae(Utf8.Encode(numeral), message);
    Utf8.DecodeOfEncode(key);
    Utf8.DecodeOfEncode(numeral);
    Decimal.OfNatIsNumeral(nonce);
    Decimal.ValueOfNat(nonce);
  }

  lemma NamedSignOfRead(bits: bytes)
    requires NamedRead(bits).Sig?
    ensures bits == NamedSign(NamedRead(bits).key, NamedRead(bits).message, NamedRead(bits).nonce)
  {
    var (k, inner) := Pae.DecodePae(bits).value;
    var (n, message) := Pae.DecodePae(inner).value;
    Pae.PaeOfDecode(bits);
    Pae.PaeOfDecode(inner);
    Utf8.EncodeOfDecode(k);
    Utf8.EncodeOfDecode(n);
    Decimal.OfNatOfValue(Utf8.Decode(n).value);
  }

  lemma NamedIsLawful()
    ensures Lawful(Scheme(NamedSign, NamedRead))
  {
    forall key, message, nonce
      ensures NamedRead(NamedSign(key, message, nonce)) == Sig(key, message, nonce)
    {
      NamedReadOfSign(key, message, nonce);
    }
    forall bits | NamedRead(bits).Sig?
      ensures bits == NamedSign(NamedRead(bits).key, NamedRead(bits).message, NamedRead(bits).nonce)
    {
      NamedSignOfRead(bits);
    }
    assert NamedRead([]).Junk?;
  }

  // ----- the scheme in use: any lawful one -----

  type LawfulScheme = s: Scheme | Lawful(s) witness (NamedIsLawful(); Scheme(NamedSign, NamedRead))

  const SCHEME: LawfulScheme

  /** The bits that the holder of `key` produces for `message` with one nonce. */
  function Sign(key: string, message: bytes, nonce: nat): bytes {
    SCHEME.sign(key, message, nonce)
  }

  /** What a bit string is a signature of. */
  function Read(bits: bytes): Signature {
    SCHEME.read(bits)
  }

  /** `pub.verify(sig, message)` for the public key with this PEM text. */
  predicate Verifies(pem: string, message: bytes, bits: bytes) {
    var s := Read(bits);
    s.Sig? && s.key == pem && s.message == message
  }

  lemma ReadOfSign(key: string, message: bytes, nonce: nat)
    ensures Read(Sign(key, message, nonce)) == Sig(key, message, nonce)
  {
  }

  /** Bits that verify are bits that the holder of the key produced for exactly this message. */
  lemma VerifiesIffSigned(pem: string, message: bytes, bits: bytes)
    ensures Verifies(pem, message, bits) <==> exists nonce :: bits == Sign(pem, message, nonce)
  {
    forall nonce: nat ensures Read(Sign(pem, message, nonce)) == Sig(pem, message, nonce) {
      ReadOfSign(pem, message, nonce);
    }
    if Verifies(pem, message, bits) {
      assert bits == Sign(pem, message, Read(bits).nonce);
    }
  }

  lemma SignatureNotEmpty(key: string, message: bytes, nonce: nat)
    ensures Sign(key, message, nonce) != []
  {
    ReadOfSign(key, message, nonce);
  }
}
