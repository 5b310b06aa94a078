/** Go's verifier and tally: another order of checks, another way of reading the signed document. */
module GoTally {
  import opened Wrappers
  import opened Utf8
  import opened Json
  import opened JsonReaders
  import opened Verdict
  import opened Tally
  import opened Counting
  import Base64
  import GoEncoding
  import Pae
  import Signatures

  // ----- json.Unmarshal into a struct of strings -----

  /** Simple case folding onto lower-case ASCII: the long s and the Kelvin sign are the only non-ASCII members. */
  function FoldChar(c: char): char {
    if 'A' <= c <= 'Z' then (c as int + 32) as char
    else if c == '\U{017F}' then 's'
    else if c == '\U{212A}' then 'k'
    else c
  }

  /** An object key selects the struct field of this lower-case name. */
  predicate FoldsTo(key: string, name: string) {
    if key == "" || name == "" then key == name
    else FoldChar(key[0]) == name[0] && FoldsTo(key[1..], name[1..])
  }

  predicate IsField(key: string) {
    FoldsTo(key, "schema") || FoldsTo(key, "organ") || FoldsTo(key, "keyid")
    || FoldsTo(key, "action_hash") || FoldsTo(key, "verdict")
  }

  /** No type error: a member that selects a field holds a string, or `null`, which leaves the field alone. */
  predicate Unmarshals(ms: seq<Member>) {
    ms != [] ==>
      && (IsField(ms[0].key) ==> ms[0].value.Str? || ms[0].value.Null?)
      && Unmarshals(ms[1..])
  }

  /** The field after all members have been stored in turn; it starts out empty. */
  function FieldOf(ms: seq<Member>, name: string): string {
    if ms == [] then ""
    else
      var last := ms[|ms| - 1];
      if FoldsTo(last.key, name) && last.value.Str? then last.value.s else FieldOf(ms[..|ms| - 1], name)
  }

  /** The struct that the signed document is read into. */
  datatype Decoded = Decoded(schema: string, organ: string, keyid: string, actionHash: string, verdict: string)

  function Unmarshal(ms: seq<Member>): Option<Decoded> {
    if !Unmarshals(ms) then None
    else Some(Decoded(FieldOf(ms, "schema"), FieldOf(ms, "organ"), FieldOf(ms, "keyid"),
                      FieldOf(ms, "action_hash"), FieldOf(ms, "verdict")))
  }

  /** `json.Unmarshal` into the struct: a document that is `null` leaves it empty. */
  function UnmarshalBytes(body: bytes): Option<Decoded> {
    match Read(Base64.Go, body)
    case Some(Obj(ms)) => Unmarshal(ms)
    case Some(Null) => Some(Decoded("", "", "", "", ""))
    case _ => None
  }

  // ----- VerifyVerdict -----

  /** Go fills in an empty payload type too. */
  function EffectiveType(v: Row): string {
    if v.payloadType == "" then PAYLOAD_TYPE else v.payloadType
  }

  /** The outcome for a row whose signature has verified. */
  function CheckDecoded(v: Row, decoded: Option<Decoded>, actionHash: string): (chk: OrganCheck)
    ensures chk.organ == Some(v.organ) && chk.reason != DuplicateWitness
  {
    match decoded
    case None => Refuse(v, BadStatementJson)
    case Some(d) =>
      if d.schema != SCHEMA then Refuse(v, StatementSchemaMismatch)
      else if d.organ != v.organ || d.keyid != Keyid(v.organ) then Refuse(v, SignedWitnessIdentityMismatch)
      else
        OrganCheck(Some(v.organ), Some(v.keyid), true, Str(d.verdict), d.actionHash == actionHash,
                   d.actionHash == actionHash && d.verdict == "allow", Fine)
  }

  /** What is wrong with the envelope, in Go's order of checks: base64 comes before type and identity. */
  function EnvelopeFault(v: Row): (r: Reason)
    ensures r != DuplicateWitness
    ensures r == Fine ==> Readable(Base64.Go, v)
  {
    if v.payload == "" || v.signature == "" then MissingPayloadOrSignature
    else if Base64.Decode(Base64.Go, v.payload).None? then BadPayloadB64
    else if Base64.Decode(Base64.Go, v.signature).None? then BadSignatureB64
    else if EffectiveType(v) != PAYLOAD_TYPE then PayloadTypeMismatch
    else if v.organ == "" || v.keyid != Keyid(v.organ) then WitnessIdentityMismatch
    else Fine
  }

  /** What is wrong with a row before its document is read. */
  function Fault(v: Row, pem: string): (r: Reason)
    ensures r != DuplicateWitness
    ensures r == Fine ==> Readable(Base64.Go, v)
  {
    if EnvelopeFault(v) != Fine then EnvelopeFault(v)
    else if pem == "" then InvalidPem
    else if !Signatures.Verifies(pem, Pae.Pae(PAYLOAD_TYPE, PayloadOf(Base64.Go, v)),
                                 BitsOf(Base64.Go, v)) then SignatureMismatch
    else Fine
  }

  function GoCheck(v: Row, pem: string, actionHash: string): (chk: OrganCheck)
    ensures chk.organ == Some(v.organ) && chk.reason != DuplicateWitness
  {
    if Fault(v, pem) != Fine then Refuse(v, Fault(v, pem))
    else CheckDecoded(v, UnmarshalBytes(PayloadOf(Base64.Go, v)), actionHash)
  }

  /** `VerifyVerdict`: `chk` is filled in step by step and returned as soon as something is wrong. */
  method VerifyVerdict(v: Row, publicKeyPem: string, actionHash: string) returns (chk: OrganCheck)
    ensures chk == GoCheck(v, publicKeyPem, actionHash)
  {
    chk := OrganCheck(Some(v.organ), Some(v.keyid), false, Null, false, false, Fine);
    var reason, body := ReadSeal(v, publicKeyPem);
    if reason != Fine {
      chk := chk.(reason := reason);
      return;
    }
    chk := ReadStatement(v, body, actionHash, chk);
  }

  /** The part of `VerifyVerdict` before `json.Unmarshal`. */
  method ReadSeal(v: Row, publicKeyPem: string) returns (reason: Reason, body: bytes)
    ensures reason == Fault(v, publicKeyPem)
    ensures reason == Fine ==> body == PayloadOf(Base64.Go, v)
  {
    var sig: bytes;
    reason, body, sig := ReadEnvelope(v);
    if reason != Fine {
      return;
    }
    if publicKeyPem == "" {
      return InvalidPem, body;
    }
    var toVerify := GoEncoding.PAE(PAYLOAD_TYPE, body);
    if !Signatures.Verifies(publicKeyPem, toVerify, sig) {
      return SignatureMismatch, body;
    }
  }

  /** The first part of `VerifyVerdict`, up to the identity check. */
  method ReadEnvelope(v: Row) returns (reason: Reason, body: bytes, sig: bytes)
    ensures reason == EnvelopeFault(v)
    ensures reason == Fine ==> body == PayloadOf(Base64.Go, v) && sig == BitsOf(Base64.Go, v)
  {
    body, sig := [], [];
    if v.payload == "" || v.signature == "" {
      return MissingPayloadOrSignature, body, sig;
    }
    var payload := Base64.Decode(Base64.Go, v.payload);
    if payload.None? {
      return BadPayloadB64, body, sig;
    }
    var signature := Base64.Decode(Base64.Go, v.signature);
    if signature.None? {
      return BadSignatureB64, body, sig;
    }
    body, sig := payload.value, signature.value;
    var pt := v.payloadType;
    if pt == "" {
      pt := PAYLOAD_TYPE;
    }
    if pt != PAYLOAD_TYPE {
      return PayloadTypeMismatch, body, sig;
    }
    if v.organ == "" || v.keyid != Keyid(v.organ) {
      return WitnessIdentityMismatch, body, sig;
    }
    reason := Fine;
  }

  /** The last part of `VerifyVerdict`, from `json.Unmarshal` on. */
  method ReadStatement(v: Row, body: bytes, actionHash: string, sofar: OrganCheck) returns (chk: OrganCheck)
    requires sofar == OrganCheck(Some(v.organ), Some(v.keyid), false, Null, false, false, Fine)
    ensures chk == CheckDecoded(v, UnmarshalBytes(body), actionHash)
  {
    chk := sofar;
    var unmarshalled := UnmarshalBytes(body);
    if unmarshalled.None? {
      chk := chk.(reason := BadStatementJson);
      return;
    }
    var decoded := unmarshalled.value;
    if decoded.schema != SCHEMA {
      chk := chk.(reason := StatementSchemaMismatch);
      return;
    }
    if decoded.organ != v.organ || decoded.keyid != Keyid(v.organ) {
      chk := chk.(reason := SignedWitnessIdentityMismatch);
      return;
    }
    chk := chk.(valid := true);
    chk := chk.(verdict := Str(decoded.verdict));
    chk := chk.(actionHashMatch := decoded.actionHash == actionHash);
    chk := chk.(counts := chk.actionHashMatch && decoded.verdict == "allow");
  }

  // ----- Tally -----

  /** What one entry amounts to on its own. Go asks only whether the registry has the organ. */
  function GoCheckItem(actionHash: string, item: Item, keys: PublicKeys): (chk: OrganCheck)
    ensures OwnCheck(chk)
  {
    match item
    case None => ABSTENTION
    case Some(v) => if v.organ !in keys then Refuse(v, NoPublicKey) else GoCheck(v, keys[v.organ], actionHash)
  }

  /** Go's check of one entry, as a value: what `VerifyVerdict` computes, or the refusal before it. */
  function GoChecker(actionHash: string, keys: PublicKeys): Item -> OrganCheck {
    item => GoCheckItem(actionHash, item, keys)
  }

  function GoCheckAll(actionHash: string, items: seq<Item>, keys: PublicKeys): (own: seq<OrganCheck>)
    ensures |own| == |items|
    ensures forall i | 0 <= i < |items| :: own[i] == GoCheckItem(actionHash, items[i], keys)
    ensures OwnChecks(own)
  {
    Checked(GoChecker(actionHash, keys), items)
  }

  function GoResult(actionHash: string, items: seq<Item>, keys: PublicKeys, threshold: int, n: int): ConsensusResult {
    if !ValidQuorumCounts(threshold, n) then RejectedUnread(Str(actionHash), threshold, n)
    else Counted(Str(actionHash), GoCheckAll(actionHash, items, keys), threshold, n)
  }

  /** Go's `Tally`; the keys of its `map[string]bool` are a set, since only `true` is ever stored. */
  method GoTally(actionHash: string, verdicts: seq<Item>, pubkeys: PublicKeys, threshold: int, n: int)
    returns (r: ConsensusResult)
    ensures r == GoResult(actionHash, verdicts, pubkeys, threshold, n)
  {
    if threshold < 1 || threshold > n {
      return RejectedUnread(Str(actionHash), threshold, n);
    }
    ghost var own := GoCheckAll(actionHash, verdicts, pubkeys);
    var count, checks := CountDistinct(GoChecker(actionHash, pubkeys), verdicts);
    r := ConsensusResult(Str(actionHash), threshold, n, count, Decide(count, threshold), checks);
  }
}
