/**
 Agreement of the Python, Go and TypeScript tallies: which rows the verifiers count
 alike, exactly, and what follows for whole lists.
 */
module TallyAgreement {
  import opened Wrappers
  import opened Utf8
  import opened Json
  import opened JsonReaders
  import opened Verdict
  import opened Tally
  import opened Counting
  import opened GoTally
  import opened TsTally
  import opened WireRows
  import Base64

  // ----- readings of a signed document -----

  /** The organ and the action hash of an `allow` statement. */
  type Reading = Option<(string, string)>

  function ReadingOf(d: Decoded): Reading {
    if d.schema == SCHEMA && d.organ != "" && d.keyid == Keyid(d.organ) && d.verdict == "allow" then
      Some((d.organ, d.actionHash))
    else None
  }

  /** What Go takes the signed bytes to say. */
  function GoReading(body: bytes): Reading {
    match UnmarshalBytes(body)
    case None => None
    case Some(d) => ReadingOf(d)
  }

  function ReadingOfMembers(ms: seq<Member>): Reading {
    match (GetLast(ms, "organ"), GetLast(ms, "action_hash"))
    case (Str(organ), Str(hash)) =>
      if GetLast(ms, "schema") == Str(SCHEMA) && organ != "" && GetLast(ms, "keyid") == Str(Keyid(organ))
         && GetLast(ms, "verdict") == Str("allow") then Some((organ, hash))
      else None
    case _ => None
  }

  /** What Python and TypeScript take a document to say. */
  function ReadingOfDocument(document: Option<Json>): Reading {
    match document
    case Some(Obj(ms)) => ReadingOfMembers(ms)
    case _ => None
  }

  /** What a language takes the signed bytes to say. */
  function ReadingIn(lib: Base64.Library, body: bytes): Reading {
    if lib == Base64.Go then GoReading(body) else ReadingOfDocument(Read(lib, body))
  }

  /** The document that a library makes of the payload's text. */
  function DocumentOf(lib: Base64.Library, w: Wire): bytes {
    var body := Base64.Decode(lib, w.payload);
    if body.Some? then body.value else []
  }

  /** Payload and signature are base64 to this library. */
  predicate DecodesIn(lib: Base64.Library, w: Wire) {
    Base64.Decode(lib, w.payload).Some? && Base64.Decode(lib, w.signature).Some?
  }

  /** Identity and text of a wire row, as one library decodes it. */
  predicate Addressed(lib: Base64.Library, w: Wire) {
    && w.organ != "" && w.keyid == Keyid(w.organ) && w.payload != "" && w.signature != ""
    && DecodesIn(lib, w)
  }

  predicate SignedBy(lib: Base64.Library, w: Wire, pem: string) {
    Verified(pem, PAYLOAD_TYPE, Base64.Decode(lib, w.payload), Base64.Decode(lib, w.signature))
  }

  /** Everything about a row but its type and its document: identity, base64, a signature by the registered key. */
  predicate Sealed(lib: Base64.Library, w: Wire, keys: PublicKeys) {
    && w.organ in keys && keys[w.organ] != ""
    && Addressed(lib, w) && SignedBy(lib, w, keys[w.organ])
  }

  /** The payload types that a language lets pass. */
  predicate TypePasses(lib: Base64.Library, t: Given) {
    match t
    case Missing => true
    case NullValue => lib != Base64.Python
    case Text(s) => s == PAYLOAD_TYPE || (lib == Base64.Go && s == "")
  }

  /** The row counts in this language. */
  predicate CountsIn(lib: Base64.Library, w: Wire, keys: PublicKeys, h: string) {
    match lib
    case Python => Counts(Str(h), Some(PythonRow(w)), keys)
    case Go => GoCheckItem(h, Some(GoRow(w)), keys).counts
    case Node => TsCheckItem(h, Some(w), keys).counts
  }

  /** The row's type passes, its seal holds, and its document reads as this organ allowing this action. */
  predicate VotesIn(lib: Base64.Library, w: Wire, keys: PublicKeys, h: string) {
    && TypePasses(lib, w.payloadType) && Sealed(lib, w, keys)
    && ReadingIn(lib, DocumentOf(lib, w)) == Some((w.organ, h))
  }

  lemma AllowsIsReading(ms: seq<Member>, organ: string, h: string)
    requires organ != ""
    ensures Allows(Obj(CollapseMembers(ms)), organ, Str(h)) <==> ReadingOfMembers(ms) == Some((organ, h))
  {
    LastStringIs(ms, "schema", SCHEMA);
    LastStringIs(ms, "organ", organ);
    LastStringIs(ms, "keyid", Keyid(organ));
    LastStringIs(ms, "action_hash", h);
    LastStringIs(ms, "verdict", "allow");
    StringEquality(Get(CollapseMembers(ms), "action_hash"), h);
  }

  lemma LoadsAllowsIsReading(body: bytes, organ: string, h: string)
    requires organ != ""
    ensures Loads(body).Some? && Allows(Loads(body).value, organ, Str(h)) <==>
      ReadingIn(Base64.Python, body) == Some((organ, h))
  {
    match Read(Base64.Python, body)
    case Some(Obj(ms)) => AllowsIsReading(ms, organ, h);
    case _ =>
  }

  lemma PythonType(w: Wire)
    ensures PythonRow(w).payloadType == PAYLOAD_TYPE <==> TypePasses(Base64.Python, w.payloadType)
  {
    assert |PAYLOAD_TYPE| > 0;
  }

  lemma PythonAddress(w: Wire)
    ensures WellAddressed(PythonRow(w)) && Readable(Base64.Python, PythonRow(w)) <==>
      TypePasses(Base64.Python, w.payloadType) && Addressed(Base64.Python, w)
  {
    PythonType(w);
  }

  lemma PythonSeal(w: Wire, pem: string)
    ensures Whole(PythonRow(w), pem) <==>
      TypePasses(Base64.Python, w.payloadType) && Addressed(Base64.Python, w) && SignedBy(Base64.Python, w, pem)
  {
    PythonAddress(w);
  }

  lemma PythonSealed(w: Wire, keys: PublicKeys)
    requires w.organ in keys && keys[w.organ] != ""
    ensures Whole(PythonRow(w), keys[w.organ]) <==>
      TypePasses(Base64.Python, w.payloadType) && Sealed(Base64.Python, w, keys)
    ensures Whole(PythonRow(w), keys[w.organ]) ==>
      PayloadOf(Base64.Python, PythonRow(w)) == DocumentOf(Base64.Python, w)
  {
    PythonSeal(w, keys[w.organ]);
  }

  lemma WholeCounts(v: Row, pem: string, h: string)
    requires Whole(v, pem)
    ensures Verdict.VerifyVerdict(v, pem, Str(h)).counts <==>
      ReadingIn(Base64.Python, PayloadOf(Base64.Python, v)) == Some((v.organ, h))
  {
    CountsMeans(v, pem, Str(h));
    LoadsAllowsIsReading(PayloadOf(Base64.Python, v), v.organ, h);
  }

  lemma PythonCountsExactly(w: Wire, keys: PublicKeys, h: string)
    ensures CountsIn(Base64.Python, w, keys, h) <==> VotesIn(Base64.Python, w, keys, h)
  {
    var v := PythonRow(w);
    CountsRow(Str(h), v, keys);
    if w.organ in keys && keys[w.organ] != "" {
      PythonSealed(w, keys);
      if Whole(v, keys[w.organ]) {
        WholeCounts(v, keys[w.organ], h);
      } else {
        CountsMeans(v, keys[w.organ], Str(h));
      }
    }
  }

  lemma GoEnvelope(w: Wire)
    ensures EnvelopeFault(GoRow(w)) == Fine <==> TypePasses(Base64.Go, w.payloadType) && Addressed(Base64.Go, w)
  {
  }

  lemma GoSteps(v: Row, pem: string)
    ensures Fault(v, pem) == Fine <==>
      && EnvelopeFault(v) == Fine && pem != ""
      && Verified(pem, PAYLOAD_TYPE, Base64.Decode(Base64.Go, v.payload), Base64.Decode(Base64.Go, v.signature))
  {
  }

  lemma GoFaultless(w: Wire, keys: PublicKeys)
    requires w.organ in keys
    ensures Fault(GoRow(w), keys[w.organ]) == Fine <==>
      TypePasses(Base64.Go, w.payloadType) && Sealed(Base64.Go, w, keys)
  {
    GoSteps(GoRow(w), keys[w.organ]);
    GoEnvelope(w);
  }

  lemma GoDecodedCounts(v: Row, body: bytes, h: string)
    requires v.organ != ""
    ensures CheckDecoded(v, UnmarshalBytes(body), h).counts <==> GoReading(body) == Some((v.organ, h))
  {
  }

  lemma GoCountsExactly(w: Wire, keys: PublicKeys, h: string)
    ensures CountsIn(Base64.Go, w, keys, h) <==> VotesIn(Base64.Go, w, keys, h)
  {
    var v := GoRow(w);
    if v.organ in keys {
      GoFaultless(w, keys);
      if Fault(v, keys[v.organ]) == Fine {
        GoDecodedCounts(v, DocumentOf(Base64.Go, w), h);
      }
    }
  }

  lemma TsForm(w: Wire)
    ensures TsFormFault(w) == Fine && DecodesIn(Base64.Node, w) <==>
      TypePasses(Base64.Node, w.payloadType) && Addressed(Base64.Node, w)
  {
  }

  lemma TsSteps(w: Wire, pem: string)
    ensures TsFault(w, pem) == Fine <==>
      && TsFormFault(w) == Fine && DecodesIn(Base64.Node, w)
      && Verified(pem, PAYLOAD_TYPE, Base64.Decode(Base64.Node, w.payload), Base64.Decode(Base64.Node, w.signature))
  {
    SameVerified(pem, Base64.Decode(Base64.Node, w.payload), Base64.Decode(Base64.Node, w.signature));
  }

  lemma TsFaultless(w: Wire, keys: PublicKeys)
    requires w.organ in keys && keys[w.organ] != ""
    ensures TsFault(w, keys[w.organ]) == Fine <==>
      TypePasses(Base64.Node, w.payloadType) && Sealed(Base64.Node, w, keys)
  {
    TsSteps(w, keys[w.organ]);
    TsForm(w);
  }

  lemma TsParsedCounts(w: Wire, body: bytes, h: string)
    requires w.organ != ""
    ensures CheckParsed(w, Read(Base64.Node, body), h).counts <==> ReadingIn(Base64.Node, body) == Some((w.organ, h))
  {
  }

  lemma TsChecked(w: Wire, keys: PublicKeys, h: string)
    ensures CountsIn(Base64.Node, w, keys, h) <==>
      && w.organ in keys && keys[w.organ] != "" && TsFault(w, keys[w.organ]) == Fine
      && CheckParsed(w, Read(Base64.Node, DocumentOf(Base64.Node, w)), h).counts
  {
  }

  lemma TsCountsExactly(w: Wire, keys: PublicKeys, h: string)
    ensures CountsIn(Base64.Node, w, keys, h) <==> VotesIn(Base64.Node, w, keys, h)
  {
    TsChecked(w, keys, h);
    if w.organ in keys && keys[w.organ] != "" && w.organ != "" {
      TsFaultless(w, keys);
      TsParsedCounts(w, DocumentOf(Base64.Node, w), h);
    }
  }

  /**
   When a row counts, in each language: its payload type passes there, its text decodes
   there to a document signed by the registered key, and there the document reads as this
   organ allowing this action. It is stated for any decoders of base64 and any readers.
   */
  lemma CountsExactly(lib: Base64.Library, w: Wire, keys: PublicKeys, h: string)
    ensures CountsIn(lib, w, keys, h) <==> VotesIn(lib, w, keys, h)
  {
    match lib
    case Python => PythonCountsExactly(w, keys, h);
    case Go => GoCountsExactly(w, keys, h);
    case Node => TsCountsExactly(w, keys, h);
  }

  /** The three libraries decode this row's payload and signature alike; they do if the encoder wrote them. */
  predicate DecodedAlike(w: Wire) {
    Base64.DecodedAlike(w.payload) && Base64.DecodedAlike(w.signature)
  }

  lemma AddressedAlike(w: Wire, lib: Base64.Library)
    requires Base64.Decode(lib, w.payload) == Base64.Decode(Base64.Python, w.payload)
    requires Base64.Decode(lib, w.signature) == Base64.Decode(Base64.Python, w.signature)
    ensures Addressed(lib, w) <==> Addressed(Base64.Python, w)
    ensures DocumentOf(lib, w) == DocumentOf(Base64.Python, w)
  {
  }

  lemma SealedAlike(w: Wire, keys: PublicKeys, lib: Base64.Library)
    requires Base64.Decode(lib, w.payload) == Base64.Decode(Base64.Python, w.payload)
    requires Base64.Decode(lib, w.signature) == Base64.Decode(Base64.Python, w.signature)
    ensures Sealed(lib, w, keys) <==> Sealed(Base64.Python, w, keys)
    ensures DocumentOf(lib, w) == DocumentOf(Base64.Python, w)
  {
    AddressedAlike(w, lib);
  }

  /** All three languages count the row, or none does. */
  predicate CountAlike(w: Wire, keys: PublicKeys, h: string) {
    CountsIn(Base64.Python, w, keys, h) == CountsIn(Base64.Go, w, keys, h) == CountsIn(Base64.Node, w, keys, h)
  }

  /** What the languages make of type and document of a sealed row. */
  predicate Granted(lib: Base64.Library, w: Wire, h: string) {
    TypePasses(lib, w.payloadType) && ReadingIn(lib, DocumentOf(Base64.Python, w)) == Some((w.organ, h))
  }

  lemma CountsGranted(lib: Base64.Library, w: Wire, keys: PublicKeys, h: string)
    requires DecodedAlike(w)
    ensures CountsIn(lib, w, keys, h) <==> Sealed(Base64.Python, w, keys) && Granted(lib, w, h)
  {
    CountsExactly(lib, w, keys, h);
    SealedAlike(w, keys, lib);
  }

  /**
   Among rows that the libraries decode alike, exactly those count alike whose seal does
   not hold, or whose type and reading grant the vote in all three languages or in none.
   */
  lemma RowsAgreeExactly(w: Wire, keys: PublicKeys, h: string)
    requires DecodedAlike(w)
    ensures CountAlike(w, keys, h) <==>
      (Sealed(Base64.Python, w, keys) ==>
        Granted(Base64.Python, w, h) == Granted(Base64.Go, w, h) == Granted(Base64.Node, w, h))
  {
    CountsGranted(Base64.Python, w, keys, h);
    CountsGranted(Base64.Go, w, keys, h);
    CountsGranted(Base64.Node, w, keys, h);
  }

  // ----- documents that read alike -----

  /** One of the five keys that the verifiers look up. */
  predicate IsName(key: string) {
    key == "schema" || key == "organ" || key == "keyid" || key == "action_hash" || key == "verdict"
  }

  /** No repeated key, and none that is one of the five names in another spelling. */
  predicate Plainly(ms: seq<Member>) {
    DistinctKeys(ms) && forall m | m in ms && IsField(m.key) :: IsName(m.key)
  }

  /** The five names are distinct fields. */
  lemma NamesAreDistinct(key: string, name: string)
    requires IsName(key) && IsName(name) && FoldsTo(key, name)
    ensures key == name
  {
  }

  lemma {:induction false} NameFolds(name: string)
    requires forall i | 0 <= i < |name| :: FoldChar(name[i]) == name[i]
    ensures FoldsTo(name, name)
  {
    if name != "" {
      NameFolds(name[1..]);
    }
  }

  lemma NameIsField(name: string)
    requires IsName(name)
    ensures FoldsTo(name, name)
  {
    NameIsLower(name);
    NameFolds(name);
  }

  lemma NameIsLower(name: string)
    requires IsName(name)
    ensures forall i | 0 <= i < |name| :: FoldChar(name[i]) == name[i]
  {
  }

  function StringOr(v: Json): string {
    if v.Str? then v.s else ""
  }

  lemma {:induction false} FieldAbsent(ms: seq<Member>, name: string)
    requires Plainly(ms) && IsName(name) && forall m | m in ms :: m.key != name
    ensures FieldOf(ms, name) == ""
  {
    if ms != [] {
      var init, last := ms[..|ms| - 1], ms[|ms| - 1];
      assert last in ms;
      if FoldsTo(last.key, name) {
        NamesAreDistinct(last.key, name);
      }
      FieldAbsent(init, name);
    }
  }

  /** In a plain document, Go's field is the string Python finds, or empty. */
  lemma {:induction false} FieldOfPlain(ms: seq<Member>, name: string)
    requires Plainly(ms) && IsName(name)
    ensures FieldOf(ms, name) == StringOr(GetLast(ms, name))
  {
    if ms != [] {
      var init, last := ms[..|ms| - 1], ms[|ms| - 1];
      assert last in ms;
      if last.key == name {
        NameIsField(name);
        FieldAbsent(init, name);
      } else {
        if FoldsTo(last.key, name) {
          NamesAreDistinct(last.key, name);
        }
        FieldOfPlain(init, name);
      }
    }
  }

  lemma {:induction false} GetLastMember(ms: seq<Member>, m: Member)
    requires DistinctKeys(ms) && m in ms
    ensures GetLast(ms, m.key) == m.value
  {
    var init, last := ms[..|ms| - 1], ms[|ms| - 1];
    var i :| 0 <= i < |ms| && ms[i] == m;
    if i < |init| {
      assert init[i] == m;
      GetLastMember(init, m);
    }
  }

  lemma {:induction false} UnmarshalsMeans(ms: seq<Member>)
    ensures Unmarshals(ms) <==> forall m | m in ms && IsField(m.key) :: m.value.Str? || m.value.Null?
  {
    if ms != [] {
      UnmarshalsMeans(ms[1..]);
      assert forall m :: m in ms <==> m == ms[0] || m in ms[1..];
    }
  }

  lemma PlainUnmarshals(ms: seq<Member>)
    requires Plainly(ms) && ReadingOfMembers(ms).Some?
    ensures Unmarshals(ms)
  {
    UnmarshalsMeans(ms);
    forall m | m in ms && IsField(m.key) ensures m.value.Str? {
      GetLastMember(ms, m);
    }
  }

  /**
   Python and TypeScript read a plain document as Go does, except that they do not
   take a missing action hash for an empty one.
   */
  lemma PlainDocuments(ms: seq<Member>)
    requires Plainly(ms) && Unmarshals(ms)
    ensures ReadingOfMembers(ms)
         == if GetLast(ms, "action_hash").Str? then ReadingOf(Unmarshal(ms).value) else None
  {
    FieldOfPlain(ms, "schema");
    FieldOfPlain(ms, "organ");
    FieldOfPlain(ms, "keyid");
    FieldOfPlain(ms, "action_hash");
    FieldOfPlain(ms, "verdict");
  }

  /** The signed bytes, read by Python, hold a plain document, or none at all. */
  predicate PlainDocument(body: bytes) {
    match Read(Base64.Python, body)
    case Some(Obj(ms)) => Plainly(ms)
    case _ => true
  }

  lemma PlainReadings(body: bytes, organ: string, h: string)
    requires ReadAlike(body) && PlainDocument(body) && h != ""
    ensures ReadingIn(Base64.Go, body) == Some((organ, h)) <==> ReadingIn(Base64.Python, body) == Some((organ, h))
    ensures ReadingIn(Base64.Node, body) == ReadingIn(Base64.Python, body)
  {
    match Read(Base64.Python, body)
    case Some(Obj(ms)) =>
      if ReadingOfMembers(ms).Some? {
        PlainUnmarshals(ms);
      }
      if Unmarshals(ms) {
        PlainDocuments(ms);
        FieldOfPlain(ms, "action_hash");
      }
    case _ =>
  }

  /** What the languages agree about: text decoded and read alike, no `null` or empty payload type, a plain document. */
  predicate Agreeable(w: Wire) {
    && DecodedAlike(w) && w.payloadType != NullValue && w.payloadType != Text("")
    && ReadAlike(DocumentOf(Base64.Python, w)) && PlainDocument(DocumentOf(Base64.Python, w))
  }

  lemma TypesPassAlike(t: Given)
    requires t != NullValue && t != Text("")
    ensures TypePasses(Base64.Python, t) == TypePasses(Base64.Go, t) == TypePasses(Base64.Node, t)
  {
  }

  lemma AgreeableRowsCountAlike(w: Wire, keys: PublicKeys, h: string)
    requires Agreeable(w) && h != ""
    ensures CountAlike(w, keys, h)
  {
    RowsAgreeExactly(w, keys, h);
    TypesPassAlike(w.payloadType);
    PlainReadings(DocumentOf(Base64.Python, w), w.organ, h);
    assert Granted(Base64.Python, w, h) == Granted(Base64.Go, w, h) == Granted(Base64.Node, w, h);
  }

  // ----- whole lists -----

  function GoItem(w: Option<Wire>): Item {
    if w.None? then None else Some(GoRow(w.value))
  }

  function GoItems(ws: seq<Option<Wire>>): (items: seq<Item>)
    ensures |items| == |ws|
    ensures forall i | 0 <= i < |ws| :: items[i] == GoItem(ws[i])
  {
    seq(|ws|, i requires 0 <= i < |ws| => GoItem(ws[i]))
  }

  /** Two lists of checks of the same rows that count the same rows. */
  predicate SameFlags(a: seq<OrganCheck>, b: seq<OrganCheck>) {
    |a| == |b| && forall i | 0 <= i < |a| :: a[i].organ == b[i].organ && a[i].counts == b[i].counts
  }

  /** Equal flags give equal counted organs and equal flags after deduplication. */
  lemma SameFlagsCountAlike(a: seq<OrganCheck>, b: seq<OrganCheck>)
    requires SameFlags(a, b)
    ensures Organs(a) == Organs(b) && SameFlags(Recorded(a), Recorded(b))
  {
  }

  /** Two results with the same count, decision and flags. */
  predicate SameOutcome(a: ConsensusResult, b: ConsensusResult) {
    a.consensusCount == b.consensusCount && a.decision == b.decision && SameFlags(a.checks, b.checks)
  }

  /**
   The implementations agree: on every list of agreeable rows, under every registry
   and every quorum, Python, Go and TypeScript give the same count, the same decision
   and the same flag for each row.
   */
  lemma TalliesAgree(h: string, ws: seq<Option<Wire>>, keys: PublicKeys, threshold: int, n: int)
    requires h != "" && forall w | w in ws && w.Some? :: Agreeable(w.value)
    ensures var python := TallyResult(Str(h), PythonItems(ws), keys, threshold, n);
      && SameOutcome(GoResult(h, GoItems(ws), keys, threshold, n), python)
      && SameOutcome(TsResult(h, ws, keys, threshold, n), python)
  {
    var a, b := GoCheckAll(h, GoItems(ws), keys), CheckAll(Str(h), PythonItems(ws), keys);
    forall i | 0 <= i < |ws| ensures a[i].organ == b[i].organ && a[i].counts == b[i].counts {
      FlagsAlike(h, ws[i], keys);
    }
    SameFlagsCountAlike(a, b);
    OrgansOfChecks(Str(h), PythonItems(ws), keys);
    forall w | w in ws && w.Some?
      ensures SameText(w.value) && SameDocument(w.value) && !w.value.payloadType.NullValue?
    {
      assert Agreeable(w.value);
    }
    TsTallyIsPython(h, ws, keys, threshold, n);
  }

  lemma FlagsAlike(h: string, w: Option<Wire>, keys: PublicKeys)
    requires h != "" && (w.Some? ==> Agreeable(w.value))
    ensures GoCheckItem(h, GoItem(w), keys).organ == CheckItem(Str(h), PythonItem(w), keys).organ
    ensures GoCheckItem(h, GoItem(w), keys).counts == CheckItem(Str(h), PythonItem(w), keys).counts
  {
    if w.Some? {
      AgreeableRowsCountAlike(w.value, keys, h);
    }
  }
}
