/**
 The JSON readers of the three languages. They accept different documents beyond the
 grammar (byte-order marks, `NaN`, fractions, invalid UTF-8) and have different limits,
 so each is an arbitrary function; what they share is a law about plain documents.
 */
module JsonReaders {
  import opened Wrappers
  import opened Utf8
  import opened Json
  import opened JsonText
  import opened KeyOrder
  import Base64

  /** A nesting depth that no reader refuses. */
  const DEPTH: nat := 100

  /** A value within the limits of every reader. */
  predicate Modest(v: Json) {
    SafeIntegers(v) && Shallow(v, DEPTH)
  }

  /** Text by the grammar whose value, repeated keys and all, is modest. */
  predicate ReadsModestly(t: string) {
    ReadDocument(t).Some? && Modest(ReadDocument(t).value)
  }

  /** The law of a reader: such a document is read as the grammar says. Of other bytes nothing is said. */
  ghost predicate ReadsGrammar(read: bytes -> Option<Json>) {
    forall t: string | ReadsModestly(t) :: read(Utf8.Encode(t)) == ReadDocument(t)
  }

  function StrictRead(body: bytes): Option<Json> {
    match Utf8.Decode(body)
    case None => None
    case Some(t) => ReadDocument(t)
  }

  lemma StrictReadsGrammar()
    ensures ReadsGrammar(StrictRead)
  {
    forall t: string | ReadsModestly(t) ensures StrictRead(Utf8.Encode(t)) == ReadDocument(t) {
      Utf8.DecodeOfEncode(t);
    }
  }

  /** Some reader of this kind exists: the strict one. */
  type Reader = f: bytes -> Option<Json> | ReadsGrammar(f) witness (StrictReadsGrammar(); StrictRead)

  /** `json.loads`, `json.Unmarshal` and `JSON.parse` over `toString("utf-8")`, every member kept: any three readers. */
  const PYTHON: Reader
  const GO: Reader
  const NODE: Reader

  /** What the reader of a language makes of bytes; `None` where it raises. */
  function Read(lib: Base64.Library, body: bytes): Option<Json> {
    match lib
    case Python => PYTHON(body)
    case Go => GO(body)
    case Node => NODE(body)
  }

  /** Python's `json.loads` on bytes: a dict keeps the last of repeated members. */
  function Loads(body: bytes): Option<Json> {
    match Read(Base64.Python, body)
    case None => None
    case Some(v) => Some(Collapse(v))
  }

  /** The three readers make the same of these bytes. */
  predicate ReadAlike(body: bytes) {
    Read(Base64.Python, body) == Read(Base64.Go, body) == Read(Base64.Node, body)
  }

  lemma ReadOfText(lib: Base64.Library, t: string)
    requires ReadsModestly(t)
    ensures Read(lib, Utf8.Encode(t)) == ReadDocument(t)
  {
  }

  /** Printed text of a modest value is read back in every language, whoever printed it. */
  lemma ReadOfPlain(lib: Base64.Library, d: Dialect, v: Json)
    requires Modest(v)
    ensures Read(lib, Utf8.Encode(Plain(d, v))) == Some(v)
  {
    SafeIsExact(d, v);
    ReadDocumentOfPlain(d, v);
    ReadOfText(lib, Plain(d, v));
  }

  /** Whatever text the grammar reads as a modest value is read alike in the three languages. */
  lemma TextIsReadAlike(t: string)
    requires ReadsModestly(t)
    ensures ReadAlike(Utf8.Encode(t))
  {
    ReadOfText(Base64.Python, t);
    ReadOfText(Base64.Go, t);
    ReadOfText(Base64.Node, t);
  }

  /** `json.loads(canonical_json(v))` is `v` with its keys sorted. */
  lemma LoadsOfCanonicalJson(v: Json)
    requires IsDict(v) && Modest(v)
    ensures Loads(CanonicalJson(v)) == Some(Normal(CodePoint, v)) && Same(v, Normal(CodePoint, v))
  {
    NormalIsSafe(CodePoint, v);
    NormalIsShallow(CodePoint, v, DEPTH);
    ReadOfPlain(Base64.Python, JsonText.Python, Normal(CodePoint, v));
    NormalIsDict(CodePoint, v);
    CollapseOfDict(Normal(CodePoint, v));
    SameAsNormal(CodePoint, v);
  }

  lemma FlatIsModest(ms: seq<Member>)
    requires forall m | m in ms :: m.value.Str?
    ensures Modest(Obj(ms))
  {
  }

  /** A flat dict survives encoding: it comes back with the same members. */
  lemma LoadsOfFlat(source: seq<Member>) returns (ms: seq<Member>)
    requires IsFlat(source)
    ensures Loads(CanonicalJson(Obj(source))) == Some(Obj(ms))
    ensures IsFlat(ms)
    ensures forall m :: m in ms <==> m in source
  {
    FlatIsModest(source);
    LoadsOfCanonicalJson(Obj(source));
    FlatIsNormal(source);
    ms := Sort(CodePoint, source);
    SortMembers(CodePoint, source);
    SortSorted(CodePoint, source);
    SortedDistinct(CodePoint, ms);
  }
}
