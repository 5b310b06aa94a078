/** One witness's signed verdict: the statement, the wire row, signing and verification. */
module Verdict {
  import opened Wrappers
  import opened Utf8
  import opened Json
  import opened JsonText
  import opened JsonReaders
  import Base64
  import Pae
  import Signatures

  const PAYLOAD_TYPE := "application/vnd.szl.khipu.organ-verdict+json"
  const SCHEMA := "szl.khipu.organ_verdict/v1"

  /** The wire shape of a verdict (`OrganVerdict`); `payload` and `signature` are base64 text. */
  datatype Row = Row(
    organ: string,
    keyid: string,
    payloadType: string,
    payload: string,
    signature: string,
    verdict: string,
    reason: string)

  /** What a witness states and signs. */
  datatype Statement = Statement(
    organ: string,
    actionHash: string,
    verdict: string,
    reason: string,
    leanSha: string,
    ts: string)

  /** Why a row was turned down. */
  datatype Reason =
    | Fine
    | Abstained
    | NoPublicKey
    | InvalidPem
    | MissingPayloadOrSignature
    | PayloadTypeMismatch
    | WitnessIdentityMismatch
    | BadPayloadB64
    | BadSignatureB64
    | SignatureMismatch
    | BadStatementJson
    | StatementSchemaMismatch
    | SignedWitnessIdentityMismatch
    | DuplicateWitness

  /** The outcome for one row (`OrganCheck`); `verdict` is the JSON value signed, `Null` for none. */
  datatype OrganCheck = OrganCheck(
    organ: Option<string>,
    keyid: Option<string>,
    valid: bool,
    verdict: Json,
    actionHashMatch: bool,
    counts: bool,
    reason: Reason)

  function Keyid(organ: string): string {
    organ + "-cosign"
  }

  function StatementMembers(s: Statement): seq<Member> {
    [ Member("schema", Str(SCHEMA)),
      Member("organ", Str(s.organ)),
      Member("keyid", Str(Keyid(s.organ))),
      Member("action_hash", Str(s.actionHash)),
      Member("verdict", Str(s.verdict)),
      Member("reason", Str(s.reason)),
      Member("lean_sha", Str(s.leanSha)),
      Member("ts", Str(s.ts)) ]
  }

  /** The canonical body of a statement. */
  function Body(s: Statement): bytes {
    CanonicalJson(Obj(StatementMembers(s)))
  }

  /** The bytes a witness signs for a statement. */
  function SignedBytes(s: Statement): bytes {
    Pae.Pae(PAYLOAD_TYPE, Body(s))
  }

  /** `sign_verdict` by the holder of `key`; the time stamp and the nonce are drawn outside. */
  function SignVerdict(s: Statement, key: string, nonce: nat): Row {
    Row(s.organ, Keyid(s.organ), PAYLOAD_TYPE,
        Base64.Encode(Body(s)),
        Base64.Encode(Signatures.Sign(key, SignedBytes(s), nonce)),
        s.verdict, s.reason)
  }

  // ----- Python equality -----

  /** Python's booleans are the integers 0 and 1. */
  function NumberOf(v: Json): Option<int> {
    match v
    case Bool(b) => Some(if b then 1 else 0)
    case Int(n) => Some(n)
    case _ => None
  }

  /** Python's `==` on decoded JSON values. */
  predicate PyEqual(v: Json, w: Json)
    decreases v
  {
    if NumberOf(v).Some? || NumberOf(w).Some? then NumberOf(v) == NumberOf(w)
    else
      match (v, w)
      case (Arr(a), Arr(b)) => |a| == |b| && forall i | 0 <= i < |a| :: PyEqual(a[i], b[i])
      case (Obj(ms), Obj(ns)) =>
        && Keys(ms) == Keys(ns)
        && forall i, j | 0 <= i < |ms| && 0 <= j < |ns| && ms[i].key == ns[j].key :: PyEqual(ms[i].value, ns[j].value)
      case _ => v == w
  }

  // ----- verification -----

  function Refuse(v: Row, reason: Reason): OrganCheck {
    OrganCheck(Some(v.organ), Some(v.keyid), false, Null, false, false, reason)
  }

  /** The row's identity and payload type are what a Khipu verdict must carry. */
  predicate WellAddressed(v: Row) {
    v.organ != "" && v.keyid == Keyid(v.organ) && v.payloadType == PAYLOAD_TYPE
  }

  /** What is wrong with a row before anything is decoded. */
  function FormFault(v: Row): (r: Reason)
    ensures r == Fine <==> v.payload != "" && v.signature != "" && WellAddressed(v)
    ensures r != DuplicateWitness
  {
    if v.payload == "" || v.signature == "" then MissingPayloadOrSignature
    else if v.payloadType != PAYLOAD_TYPE then PayloadTypeMismatch
    else if v.organ == "" || v.keyid != Keyid(v.organ) then WitnessIdentityMismatch
    else Fine
  }

  /** Payload and signature are there and are base64 to this library. */
  predicate Readable(lib: Base64.Library, v: Row) {
    && v.payload != "" && Base64.Decode(lib, v.payload).Some?
    && v.signature != "" && Base64.Decode(lib, v.signature).Some?
  }

  function PayloadOf(lib: Base64.Library, v: Row): bytes
    requires Readable(lib, v)
  {
    Base64.Decode(lib, v.payload).value
  }

  function BitsOf(lib: Base64.Library, v: Row): bytes
    requires Readable(lib, v)
  {
    Base64.Decode(lib, v.signature).value
  }

  /** The signature that was decoded verifies over the payload that was decoded. */
  predicate Verified(pem: string, payloadType: string, payload: Option<bytes>, signature: Option<bytes>) {
    payload.Some? && signature.Some? && Signatures.Verifies(pem, Pae.Pae(payloadType, payload.value), signature.value)
  }

  /** What is wrong with decoded text, in the order in which an exception or a refusal comes first. */
  function TextFault(payload: Option<bytes>, signature: Option<bytes>, verified: bool): (r: Reason)
    ensures r == Fine <==> payload.Some? && signature.Some? && verified
    ensures r != DuplicateWitness
  {
    if payload.None? then BadPayloadB64
    else if signature.None? then BadSignatureB64
    else if !verified then SignatureMismatch
    else Fine
  }

  /** What is wrong with a row before its document is read. */
  function SealFault(v: Row, pem: string): (r: Reason)
    ensures r != DuplicateWitness
    ensures r == Fine ==> Readable(Base64.Python, v)
  {
    var payload, signature := Base64.Decode(Base64.Python, v.payload), Base64.Decode(Base64.Python, v.signature);
    if FormFault(v) != Fine then FormFault(v)
    else TextFault(payload, signature, Verified(pem, v.payloadType, payload, signature))
  }

  /** `verify_verdict`. `actionHash` is whatever value the caller compares with, `Null` for `None`. */
  function VerifyVerdict(v: Row, pem: string, actionHash: Json): (chk: OrganCheck)
    ensures chk.organ == Some(v.organ) && chk.keyid == Some(v.keyid)
    ensures chk.counts ==> chk.valid && chk.actionHashMatch && chk.verdict == Str("allow")
    ensures chk.valid ==> chk.reason == Fine
    ensures chk.reason != DuplicateWitness
  {
    var fault := SealFault(v, pem);
    if fault != Fine then Refuse(v, fault)
    else CheckStatement(v, Loads(PayloadOf(Base64.Python, v)), actionHash)
  }

  /** The checks on the decoded statement, once the signature over its bytes has verified. */
  function CheckStatement(v: Row, decoded: Option<Json>, actionHash: Json): (chk: OrganCheck)
    ensures chk.organ == Some(v.organ) && chk.keyid == Some(v.keyid)
    ensures chk.counts ==> chk.valid && chk.actionHashMatch && chk.verdict == Str("allow")
    ensures chk.valid ==> chk.reason == Fine
    ensures chk.reason != DuplicateWitness
  {
    match decoded
    case None => Refuse(v, BadStatementJson)
    case Some(Obj(ms)) =>
      if Get(ms, "schema") != Str(SCHEMA) then Refuse(v, StatementSchemaMismatch)
      else if Get(ms, "organ") != Str(v.organ) || Get(ms, "keyid") != Str(Keyid(v.organ)) then
        Refuse(v, SignedWitnessIdentityMismatch)
      else
        var match_ := PyEqual(Get(ms, "action_hash"), actionHash);
        var verdict := Get(ms, "verdict");
        OrganCheck(Some(v.organ), Some(v.keyid), true, verdict, match_, match_ && verdict == Str("allow"), Fine)
    case Some(_) => Refuse(v, StatementSchemaMismatch)
  }

  // ----- what a statement's body decodes to -----

  lemma StatementKeysDistinct(s: Statement)
    ensures IsFlat(StatementMembers(s))
  {
    assert |"schema"| == 6 && |"organ"| == 5 && |"keyid"| == 5 && |"action_hash"| == 11;
    assert |"verdict"| == 7 && |"reason"| == 6 && |"lean_sha"| == 8 && |"ts"| == 2;
    assert "schema"[0] == 's' && "reason"[0] == 'r' && "organ"[0] == 'o' && "keyid"[0] == 'k';
  }

  lemma GetAt(ms: seq<Member>, i: nat)
    requires DistinctKeys(ms) && i < |ms|
    ensures Has(ms, ms[i].key) && Get(ms, ms[i].key) == ms[i].value
  {
  }

  /** `ms` has the fields of statement `s`. */
  predicate States(ms: seq<Member>, s: Statement) {
    && Get(ms, "schema") == Str(SCHEMA)
    && Get(ms, "organ") == Str(s.organ)
    && Get(ms, "keyid") == Str(Keyid(s.organ))
    && Get(ms, "action_hash") == Str(s.actionHash)
    && Get(ms, "verdict") == Str(s.verdict)
    && Get(ms, "reason") == Str(s.reason)
    && Get(ms, "lean_sha") == Str(s.leanSha)
    && Get(ms, "ts") == Str(s.ts)
  }

  lemma StatementStates(s: Statement)
    ensures States(StatementMembers(s), s)
  {
    StatementKeysDistinct(s);
    var ms := StatementMembers(s);
    GetAt(ms, 0);
    GetAt(ms, 1);
    GetAt(ms, 2);
    GetAt(ms, 3);
    GetAt(ms, 4);
    GetAt(ms, 5);
    GetAt(ms, 6);
    GetAt(ms, 7);
  }

  /** Decoding a signed body gives back exactly the statement's fields. */
  lemma LoadsOfBody(s: Statement) returns (ms: seq<Member>)
    ensures Loads(Body(s)) == Some(Obj(ms)) && States(ms, s)
    ensures IsFlat(ms) && forall m :: m in ms <==> m in StatementMembers(s)
  {
    StatementKeysDistinct(s);
    StatementStates(s);
    ms := LoadsOfFlat(StatementMembers(s));
    forall k ensures Get(ms, k) == Get(StatementMembers(s), k) {
      GetSameMembers(ms, StatementMembers(s), k);
    }
  }

  /** Distinct statements have distinct signed bytes: a signature commits to every field. */
  lemma SignedBytesInjective(s: Statement, t: Statement)
    requires SignedBytes(s) == SignedBytes(t)
    ensures s == t
  {
    Pae.PaeInjective(PAYLOAD_TYPE, Body(s), PAYLOAD_TYPE, Body(t));
    var ms := LoadsOfBody(s);
    var ns := LoadsOfBody(t);
  }

  // ----- signing against verifying -----

  /** A signed document that says: this organ allows this action. */
  predicate Allows(document: Json, organ: string, actionHash: Json) {
    && document.Obj?
    && Get(document.members, "schema") == Str(SCHEMA)
    && Get(document.members, "organ") == Str(organ)
    && Get(document.members, "keyid") == Str(Keyid(organ))
    && Get(document.members, "verdict") == Str("allow")
    && PyEqual(Get(document.members, "action_hash"), actionHash)
  }

  /** The seal of a row is whole: well addressed, decodable, and signed by this key. */
  predicate Whole(v: Row, pem: string) {
    && WellAddressed(v) && Readable(Base64.Python, v)
    && Signatures.Verifies(pem, Pae.Pae(PAYLOAD_TYPE, PayloadOf(Base64.Python, v)), BitsOf(Base64.Python, v))
  }

  lemma SealSteps(v: Row, pem: string)
    ensures SealFault(v, pem) == Fine <==>
      FormFault(v) == Fine &&
      Verified(pem, v.payloadType, Base64.Decode(Base64.Python, v.payload), Base64.Decode(Base64.Python, v.signature))
  {
  }

  lemma SealIsWhole(v: Row, pem: string)
    ensures SealFault(v, pem) == Fine <==> Whole(v, pem)
  {
    SealSteps(v, pem);
  }

  lemma CheckCounts(v: Row, decoded: Option<Json>, actionHash: Json)
    ensures CheckStatement(v, decoded, actionHash).counts <==>
      decoded.Some? && Allows(decoded.value, v.organ, actionHash)
  {
  }

  /** What it takes, exactly, for a row to count. */
  lemma CountsMeans(v: Row, pem: string, actionHash: Json)
    ensures VerifyVerdict(v, pem, actionHash).counts <==>
      && Whole(v, pem)
      && Loads(PayloadOf(Base64.Python, v)).Some?
      && Allows(Loads(PayloadOf(Base64.Python, v)).value, v.organ, actionHash)
  {
    SealIsWhole(v, pem);
    if Whole(v, pem) {
      CheckCounts(v, Loads(PayloadOf(Base64.Python, v)), actionHash);
    }
  }

  /** A document that allows an action and has the signed bytes of a statement is that statement. */
  lemma AllowingStatement(s: Statement, body: bytes, organ: string, actionHash: Json)
    requires Pae.Pae(PAYLOAD_TYPE, body) == SignedBytes(s)
    requires Loads(body).Some? && Allows(Loads(body).value, organ, actionHash)
    ensures s.organ == organ && s.verdict == "allow" && actionHash == Str(s.actionHash)
  {
    Pae.PaeInjective(PAYLOAD_TYPE, body, PAYLOAD_TYPE, Body(s));
    var ms := LoadsOfBody(s);
    EqualToString(s.actionHash, actionHash);
  }

  lemma EqualToString(s: string, v: Json)
    ensures PyEqual(Str(s), v) <==> v == Str(s)
  {
  }

  lemma CheckOfStatement(v: Row, ms: seq<Member>, s: Statement, actionHash: Json)
    requires v.organ == s.organ && States(ms, s)
    ensures CheckStatement(v, Some(Obj(ms)), actionHash)
         == OrganCheck(Some(v.organ), Some(v.keyid), true, Str(s.verdict), actionHash == Str(s.actionHash),
                       actionHash == Str(s.actionHash) && s.verdict == "allow", Fine)
  {
  }

  lemma BodyNotEmpty(s: Statement)
    ensures Body(s) != []
  {
  }

  /** What a signed row carries. */
  lemma SignedRowReads(s: Statement, key: string, nonce: nat)
    ensures var v := SignVerdict(s, key, nonce);
      && (WellAddressed(v) <==> s.organ != "") && Readable(Base64.Python, v)
      && PayloadOf(Base64.Python, v) == Body(s)
      && BitsOf(Base64.Python, v) == Signatures.Sign(key, SignedBytes(s), nonce)
  {
    Base64.DecodeOfEncode(Base64.Python, Body(s));
    Base64.DecodeOfEncode(Base64.Python, Signatures.Sign(key, SignedBytes(s), nonce));
    BodyNotEmpty(s);
    Signatures.SignatureNotEmpty(key, SignedBytes(s), nonce);
  }

  lemma SignedRowIsWhole(s: Statement, key: string, nonce: nat, pem: string)
    ensures Whole(SignVerdict(s, key, nonce), pem) <==> s.organ != "" && key == pem
  {
    SignedRowReads(s, key, nonce);
    Signatures.ReadOfSign(key, SignedBytes(s), nonce);
  }

  lemma VerifyOfWhole(v: Row, s: Statement, pem: string, actionHash: Json)
    requires Whole(v, pem) && v.organ == s.organ && PayloadOf(Base64.Python, v) == Body(s)
    ensures VerifyVerdict(v, pem, actionHash)
         == OrganCheck(Some(v.organ), Some(v.keyid), true, Str(s.verdict), actionHash == Str(s.actionHash),
                       actionHash == Str(s.actionHash) && s.verdict == "allow", Fine)
  {
    SealIsWhole(v, pem);
    var ms := LoadsOfBody(s);
    CheckOfStatement(v, ms, s, actionHash);
  }

  lemma NotWholeIsInvalid(v: Row, pem: string, actionHash: Json)
    requires !Whole(v, pem)
    ensures !VerifyVerdict(v, pem, actionHash).valid
  {
    SealIsWhole(v, pem);
  }

  /**
   A signed row verifies if and only if its signer held the private half of the
   published key (and the organ has a name); it counts if moreover it says
   `allow` over exactly the action asked about.
   */
  lemma VerifyOfSign(s: Statement, key: string, nonce: nat, pem: string, actionHash: Json)
    ensures var chk := VerifyVerdict(SignVerdict(s, key, nonce), pem, actionHash);
      && (chk.valid <==> s.organ != "" && key == pem)
      && (chk.counts <==> chk.valid && actionHash == Str(s.actionHash) && s.verdict == "allow")
      && (chk.valid ==> chk.verdict == Str(s.verdict) && chk.reason == Fine)
  {
    var v := SignVerdict(s, key, nonce);
    SignedRowIsWhole(s, key, nonce, pem);
    if Whole(v, pem) {
      SignedRowReads(s, key, nonce);
      VerifyOfWhole(v, s, pem, actionHash);
    } else {
      NotWholeIsInvalid(v, pem, actionHash);
    }
  }
}
