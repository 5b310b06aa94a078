/** TypeScript's verifier and tally. */
module TsTally {
  import opened Wrappers
  import opened Utf8
  import opened Json
  import opened JsonReaders
  import opened Verdict
  import opened Tally
  import opened Counting
  import Base64
  import Signatures
  import opened WireRows
  import TsEncoding

  function Base(w: Wire): OrganCheck {
    OrganCheck(Some(w.organ), Some(w.keyid), false, Null, false, false, Fine)
  }

  /** The checks on the parsed document, every member of it kept: TypeScript finds the last of repeated ones. */
  function CheckParsed(w: Wire, decoded: Option<Json>, actionHash: string): (chk: OrganCheck)
    ensures chk.organ == Some(w.organ) && chk.reason != DuplicateWitness
  {
    match decoded
    case None => Base(w).(reason := BadStatementJson)
    case Some(Obj(ms)) =>
      if GetLast(ms, "schema") != Str(SCHEMA) then Base(w).(reason := StatementSchemaMismatch)
      else if GetLast(ms, "organ") != Str(w.organ) || GetLast(ms, "keyid") != Str(Keyid(w.organ)) then
        Base(w).(reason := SignedWitnessIdentityMismatch)
      else
        var ahMatch := GetLast(ms, "action_hash") == Str(actionHash);
        var verdict := GetLast(ms, "verdict");
        OrganCheck(Some(w.organ), Some(w.keyid), true, Collapse(verdict), ahMatch,
                   ahMatch && verdict == Str("allow"), Fine)
    case Some(_) => Base(w).(reason := StatementSchemaMismatch)
  }

  /** What is wrong with a wire row before anything is decoded; `null` and a missing type get the default. */
  function TsFormFault(w: Wire): (r: Reason)
    ensures r != DuplicateWitness
    ensures r == Fine <==>
      && w.payload != "" && w.signature != "" && w.organ != "" && w.keyid == Keyid(w.organ)
      && (w.payloadType.Text? ==> w.payloadType.text == PAYLOAD_TYPE)
  {
    var payloadType := if w.payloadType.Text? then w.payloadType.text else PAYLOAD_TYPE;
    if w.payload == "" || w.signature == "" then MissingPayloadOrSignature
    else if payloadType != PAYLOAD_TYPE then PayloadTypeMismatch
    else if w.organ == "" || w.keyid != Keyid(w.organ) then WitnessIdentityMismatch
    else Fine
  }

  /** `verifier.verify` over TypeScript's own encoding. */
  predicate TsVerified(pem: string, payload: Option<bytes>, signature: Option<bytes>) {
    && payload.Some? && signature.Some?
    && Signatures.Verifies(pem, TsEncoding.PAE(PAYLOAD_TYPE, payload.value), signature.value)
  }

  /** What is wrong with it before its document is read. */
  function TsFault(w: Wire, pem: string): (r: Reason)
    ensures r != DuplicateWitness
    ensures r == Fine ==> Base64.Decode(Base64.Node, w.payload).Some?
  {
    var payload, signature := Base64.Decode(Base64.Node, w.payload), Base64.Decode(Base64.Node, w.signature);
    if TsFormFault(w) != Fine then TsFormFault(w)
    else TextFault(payload, signature, TsVerified(pem, payload, signature))
  }

  /** `verifyVerdict`. */
  function TsVerifyVerdict(w: Wire, pem: string, actionHash: string): (chk: OrganCheck)
    ensures chk.organ == Some(w.organ) && chk.reason != DuplicateWitness
  {
    var fault := TsFault(w, pem);
    if fault != Fine then Base(w).(reason := fault)
    else CheckParsed(w, Read(Base64.Node, Base64.Decode(Base64.Node, w.payload).value), actionHash)
  }

  // ----- TypeScript's verifier is Python's -----

  lemma LastStringIs(ms: seq<Member>, k: string, s: string)
    ensures Get(CollapseMembers(ms), k) == Str(s) <==> GetLast(ms, k) == Str(s)
  {
    GetOfCollapse(ms, k);
  }

  lemma CheckParsedIsCheckStatement(w: Wire, ms: seq<Member>, actionHash: string)
    ensures CheckParsed(w, Some(Obj(ms)), actionHash)
         == CheckStatement(TsRow(w), Some(Obj(CollapseMembers(ms))), Str(actionHash))
  {
    LastStringIs(ms, "schema", SCHEMA);
    LastStringIs(ms, "organ", w.organ);
    LastStringIs(ms, "keyid", Keyid(w.organ));
    LastStringIs(ms, "action_hash", actionHash);
    LastStringIs(ms, "verdict", "allow");
    GetOfCollapse(ms, "verdict");
    StringEquality(Get(CollapseMembers(ms), "action_hash"), actionHash);
  }

  lemma StringEquality(v: Json, s: string)
    ensures PyEqual(v, Str(s)) <==> v == Str(s)
  {
  }

  lemma ParseAgainstLoads(w: Wire, body: bytes, actionHash: string)
    requires Read(Base64.Node, body) == Read(Base64.Python, body)
    ensures CheckParsed(w, Read(Base64.Node, body), actionHash)
         == CheckStatement(TsRow(w), Loads(body), Str(actionHash))
  {
    match Read(Base64.Node, body)
    case Some(Obj(ms)) => CheckParsedIsCheckStatement(w, ms, actionHash);
    case _ =>
  }

  /** Python and Node decode this row's payload and signature alike. */
  predicate SameText(w: Wire) {
    && Base64.Decode(Base64.Node, w.payload) == Base64.Decode(Base64.Python, w.payload)
    && Base64.Decode(Base64.Node, w.signature) == Base64.Decode(Base64.Python, w.signature)
  }

  /** And they read the document alike. */
  predicate SameDocument(w: Wire) {
    var body := Base64.Decode(Base64.Python, w.payload);
    body.Some? ==> Read(Base64.Node, body.value) == Read(Base64.Python, body.value)
  }

  lemma SameFormFault(w: Wire)
    ensures TsFormFault(w) == FormFault(TsRow(w))
  {
  }

  lemma SameVerified(pem: string, payload: Option<bytes>, signature: Option<bytes>)
    ensures TsVerified(pem, payload, signature) <==> Verified(pem, PAYLOAD_TYPE, payload, signature)
  {
    if payload.Some? {
      TsEncoding.PaeIsPae(PAYLOAD_TYPE, payload.value);
    }
  }

  lemma TsRowFields(w: Wire)
    ensures var v := TsRow(w);
      v.organ == w.organ && v.keyid == w.keyid && v.payload == w.payload && v.signature == w.signature
  {
  }

  lemma SameFault(w: Wire, pem: string)
    requires SameText(w)
    ensures TsFault(w, pem) == SealFault(TsRow(w), pem)
  {
    var v := TsRow(w);
    TsRowFields(w);
    SameFormFault(w);
    SameVerified(pem, Base64.Decode(Base64.Node, w.payload), Base64.Decode(Base64.Node, w.signature));
    if FormFault(v) == Fine {
      assert v.payloadType == PAYLOAD_TYPE;
    }
  }

  /**
   The two verifiers return the same check, reason included, for every row whose base64
   and document the two languages read alike, every key and every action hash;
   TypeScript takes a `null` payload type for a missing one.
   */
  lemma TsVerifyIsPython(w: Wire, pem: string, actionHash: string)
    requires SameText(w) && SameDocument(w)
    ensures TsVerifyVerdict(w, pem, actionHash) == VerifyVerdict(TsRow(w), pem, Str(actionHash))
  {
    SameFault(w, pem);
    if TsFault(w, pem) == Fine {
      ParseAgainstLoads(w, Base64.Decode(Base64.Node, w.payload).value, actionHash);
    }
  }

  // ----- tally -----

  /** What one entry amounts to on its own. */
  function TsCheckItem(actionHash: string, w: Option<Wire>, keys: PublicKeys): (chk: OrganCheck)
    ensures OwnCheck(chk)
  {
    match w
    case None => ABSTENTION
    case Some(v) =>
      if v.organ !in keys || keys[v.organ] == "" then Base(v).(reason := NoPublicKey)
      else TsVerifyVerdict(v, keys[v.organ], actionHash)
  }

  function TsChecker(actionHash: string, keys: PublicKeys): Option<Wire> -> OrganCheck {
    w => TsCheckItem(actionHash, w, keys)
  }

  function TsCheckAll(actionHash: string, ws: seq<Option<Wire>>, keys: PublicKeys): (own: seq<OrganCheck>)
    ensures |own| == |ws|
    ensures forall i | 0 <= i < |ws| :: own[i] == TsCheckItem(actionHash, ws[i], keys)
    ensures OwnChecks(own)
  {
    Checked(TsChecker(actionHash, keys), ws)
  }

  function TsResult(actionHash: string, ws: seq<Option<Wire>>, keys: PublicKeys, threshold: int,
                    n: int): ConsensusResult {
    if !ValidQuorumCounts(threshold, n) then RejectedUnread(Str(actionHash), threshold, n)
    else Counted(Str(actionHash), TsCheckAll(actionHash, ws, keys), threshold, n)
  }

  /** TypeScript's `tally`. */
  method TsTally(actionHash: string, verdicts: seq<Option<Wire>>, pubkeys: PublicKeys, threshold: int, n: int)
    returns (r: ConsensusResult)
    ensures r == TsResult(actionHash, verdicts, pubkeys, threshold, n)
  {
    if threshold < 1 || threshold > n {
      return RejectedUnread(Str(actionHash), threshold, n);
    }
    ghost var own := TsCheckAll(actionHash, verdicts, pubkeys);
    var count, checks := CountDistinct(TsChecker(actionHash, pubkeys), verdicts);
    r := ConsensusResult(Str(actionHash), threshold, n, count, Decide(count, threshold), checks);
  }

  function PythonItem(w: Option<Wire>): Item {
    if w.None? then None else Some(PythonRow(w.value))
  }

  function PythonItems(ws: seq<Option<Wire>>): (items: seq<Item>)
    ensures |items| == |ws|
    ensures forall i | 0 <= i < |ws| :: items[i] == PythonItem(ws[i])
  {
    seq(|ws|, i requires 0 <= i < |ws| => PythonItem(ws[i]))
  }

  lemma TsCheckIsPython(actionHash: string, w: Option<Wire>, keys: PublicKeys)
    requires w.Some? ==> SameText(w.value) && SameDocument(w.value) && !w.value.payloadType.NullValue?
    ensures TsCheckItem(actionHash, w, keys) == CheckItem(Str(actionHash), PythonItem(w), keys)
  {
    if w.Some? && w.value.organ in keys {
      TsVerifyIsPython(w.value, keys[w.value.organ], actionHash);
    }
  }

  /**
   TypeScript's tally returns exactly what Python's does, checks and reasons included, on
   every list of rows whose base64 and documents both languages read alike and whose
   payload type is not `null`.
   */
  lemma TsTallyIsPython(actionHash: string, ws: seq<Option<Wire>>, keys: PublicKeys, threshold: int, n: int)
    requires forall w | w in ws && w.Some? ::
      SameText(w.value) && SameDocument(w.value) && !w.value.payloadType.NullValue?
    ensures TsResult(actionHash, ws, keys, threshold, n)
         == TallyResult(Str(actionHash), PythonItems(ws), keys, threshold, n)
  {
    var a, b := TsCheckAll(actionHash, ws, keys), CheckAll(Str(actionHash), PythonItems(ws), keys);
    forall i | 0 <= i < |ws| ensures a[i] == b[i] {
      TsCheckIsPython(actionHash, ws[i], keys);
    }
    assert a == b;
    OrgansOfChecks(Str(actionHash), PythonItems(ws), keys);
  }
}
