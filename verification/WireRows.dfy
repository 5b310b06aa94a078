/** A verdict on the wire, and the row that each language makes of it. */
module WireRows {
  import opened Wrappers
  import opened Json
  import opened Verdict

  /** An optional member of a JSON object: not there, there as `null`, or there as text. */
  datatype Given = Missing | NullValue | Text(text: string)

  /** The wire object before any language has filled in defaults. */
  datatype Wire = Wire(
    organ: string,
    keyid: string,
    payloadType: Given,
    payload: string,
    signature: string,
    verdict: Option<string>,
    reason: Option<string>)

  function OrElse(o: Option<string>, default_: string): string {
    if o.Some? then o.value else default_
  }

  /** Python: a missing payload type gets the default; `None` stays, and the empty string stands for it here. */
  function PythonRow(w: Wire): Row {
    Row(w.organ, w.keyid,
        match w.payloadType case Missing => PAYLOAD_TYPE case NullValue => "" case Text(t) => t,
        w.payload, w.signature, OrElse(w.verdict, "allow"), OrElse(w.reason, ""))
  }

  /** Go: what is missing or `null` is the empty string. */
  function GoRow(w: Wire): Row {
    Row(w.organ, w.keyid, if w.payloadType.Text? then w.payloadType.text else "",
        w.payload, w.signature, OrElse(w.verdict, ""), OrElse(w.reason, ""))
  }

  /** TypeScript: `??` gives the default for `null` too. */
  function TsRow(w: Wire): Row {
    PythonRow(if w.payloadType.NullValue? then w.(payloadType := Missing) else w)
  }

  // ----- the wire object as JSON -----

  /** `d.get(k, default)`; a value that is no string is written as the empty one. */
  function FieldOr(ms: seq<Member>, k: string, default_: string): string {
    if !Has(ms, k) then default_ else if Get(ms, k).Str? then Get(ms, k).s else ""
  }

  /** `OrganVerdict.from_dict`. */
  function FromDict(ms: seq<Member>): Row {
    Row(FieldOr(ms, "organ", ""), FieldOr(ms, "keyid", ""), FieldOr(ms, "payloadType", PAYLOAD_TYPE),
        FieldOr(ms, "payload", ""), FieldOr(ms, "signature", ""), FieldOr(ms, "verdict", "allow"),
        FieldOr(ms, "reason", ""))
  }

  function TypeMember(t: Given): seq<Member> {
    match t
    case Missing => []
    case NullValue => [Member("payloadType", Null)]
    case Text(s) => [Member("payloadType", Str(s))]
  }

  function TextMember(k: string, t: Option<string>): seq<Member> {
    if t.Some? then [Member(k, Str(t.value))] else []
  }

  function FixedMembers(w: Wire): seq<Member> {
    [ Member("organ", Str(w.organ)), Member("keyid", Str(w.keyid)),
      Member("payload", Str(w.payload)), Member("signature", Str(w.signature)) ]
  }

  /** A JSON object that carries the wire row. */
  function WireMembers(w: Wire): seq<Member> {
    FixedMembers(w) + TypeMember(w.payloadType) + TextMember("verdict", w.verdict) + TextMember("reason", w.reason)
  }

  lemma FixedFields(w: Wire)
    ensures var ms := FixedMembers(w);
      && Has(ms, "organ") && Get(ms, "organ") == Str(w.organ) && Has(ms, "keyid") && Get(ms, "keyid") == Str(w.keyid)
      && Has(ms, "payload") && Get(ms, "payload") == Str(w.payload)
      && Has(ms, "signature") && Get(ms, "signature") == Str(w.signature)
      && !Has(ms, "payloadType") && !Has(ms, "verdict") && !Has(ms, "reason")
  {
    var ms := FixedMembers(w);
    assert |"organ"| == 5 && |"keyid"| == 5 && |"payload"| == 7 && |"signature"| == 9 && |"payloadType"| == 11;
    assert |"verdict"| == 7 && |"reason"| == 6;
    assert "organ"[0] == 'o' && "keyid"[0] == 'k' && "payload"[0] == 'p' && "verdict"[0] == 'v';
    GetAt(ms, 0);
    GetAt(ms, 1);
    GetAt(ms, 2);
    GetAt(ms, 3);
    assert forall i | 0 <= i < 4 :: ms[i].key != "payloadType" && ms[i].key != "verdict" && ms[i].key != "reason";
  }

  lemma FieldOfParts(a: seq<Member>, b: seq<Member>, k: string, default_: string)
    ensures FieldOr(a + b, k, default_) == if Has(a, k) then FieldOr(a, k, default_) else FieldOr(b, k, default_)
  {
    GetOfConcat(a, b, k);
  }

  lemma FieldOfFour(a: seq<Member>, b: seq<Member>, c: seq<Member>, d: seq<Member>, k: string, default_: string)
    ensures FieldOr(a + b + c + d, k, default_)
         == if Has(a, k) then FieldOr(a, k, default_) else if Has(b, k) then FieldOr(b, k, default_)
            else if Has(c, k) then FieldOr(c, k, default_) else FieldOr(d, k, default_)
  {
    FieldOfParts(a + b + c, d, k, default_);
    FieldOfParts(a + b, c, k, default_);
    FieldOfParts(a, b, k, default_);
    GetOfConcat(a + b, c, k);
    GetOfConcat(a, b, k);
  }

  lemma OptionalFields(w: Wire)
    ensures !Has(TypeMember(w.payloadType), "verdict") && !Has(TypeMember(w.payloadType), "reason")
    ensures !Has(TextMember("verdict", w.verdict), "payloadType") && !Has(TextMember("verdict", w.verdict), "reason")
    ensures !Has(TextMember("reason", w.reason), "payloadType")
  {
    assert |"payloadType"| == 11 && |"verdict"| == 7 && |"reason"| == 6;
  }

  lemma FieldOfWire(w: Wire, k: string, default_: string)
    ensures FieldOr(WireMembers(w), k, default_)
         == if Has(FixedMembers(w), k) then FieldOr(FixedMembers(w), k, default_)
            else if Has(TypeMember(w.payloadType), k) then FieldOr(TypeMember(w.payloadType), k, default_)
            else if Has(TextMember("verdict", w.verdict), k) then FieldOr(TextMember("verdict", w.verdict), k, default_)
            else FieldOr(TextMember("reason", w.reason), k, default_)
  {
    FieldOfFour(FixedMembers(w), TypeMember(w.payloadType), TextMember("verdict", w.verdict),
                TextMember("reason", w.reason), k, default_);
  }

  lemma FixedOfWire(w: Wire)
    ensures FieldOr(WireMembers(w), "organ", "") == w.organ && FieldOr(WireMembers(w), "keyid", "") == w.keyid
    ensures FieldOr(WireMembers(w), "payload", "") == w.payload
      && FieldOr(WireMembers(w), "signature", "") == w.signature
  {
    FixedFields(w);
    FieldOfWire(w, "organ", "");
    FieldOfWire(w, "keyid", "");
    FieldOfWire(w, "payload", "");
    FieldOfWire(w, "signature", "");
  }

  lemma TypeOfWire(w: Wire)
    ensures FieldOr(WireMembers(w), "payloadType", PAYLOAD_TYPE) == PythonRow(w).payloadType
  {
    FixedFields(w);
    OptionalFields(w);
    FieldOfWire(w, "payloadType", PAYLOAD_TYPE);
  }

  lemma TextsOfWire(w: Wire)
    ensures FieldOr(WireMembers(w), "verdict", "allow") == OrElse(w.verdict, "allow")
    ensures FieldOr(WireMembers(w), "reason", "") == OrElse(w.reason, "")
  {
    FixedFields(w);
    OptionalFields(w);
    FieldOfWire(w, "verdict", "allow");
    FieldOfWire(w, "reason", "");
  }

  /** Python's row is `from_dict` of the JSON object. */
  lemma PythonRowIsFromDict(w: Wire)
    ensures FromDict(WireMembers(w)) == PythonRow(w)
  {
    FixedOfWire(w);
    TypeOfWire(w);
    TextsOfWire(w);
  }
}
