/**
 Where the hypotheses of agreement matter. Rows made by `sign_verdict` always count
 alike; beyond them there are families of validly signed rows that split the languages.
 */
module Disagreements {
  import opened Wrappers
  import opened Utf8
  import opened Json
  import opened JsonText
  import opened JsonReaders
  import opened Verdict
  import opened Tally
  import opened GoTally
  import opened TallyAgreement
  import opened WireRows
  import opened KeyOrder
  import Base64
  import Pae
  import Signatures

  /** A row over any bytes its signer likes. */
  function SignBytes(organ: string, payloadType: Given, body: bytes, key: string, nonce: nat): Wire {
    Wire(organ, Keyid(organ), payloadType, Base64.Encode(body),
         Base64.Encode(Signatures.Sign(key, Pae.Pae(PAYLOAD_TYPE, body), nonce)), None, None)
  }

  /** A row over any document its signer likes. */
  function SignDocument(organ: string, payloadType: Given, ms: seq<Member>, key: string, nonce: nat): Wire {
    SignBytes(organ, payloadType, Utf8.Encode(Plain(Python, Obj(ms))), key, nonce)
  }

  /** A `sign_verdict` row on the wire. */
  function WireOf(v: Row): Wire {
    Wire(v.organ, v.keyid, Text(v.payloadType), v.payload, v.signature, Some(v.verdict), Some(v.reason))
  }

  /** Every language reads these bytes as an object with these members. */
  predicate ReadsAs(body: bytes, ms: seq<Member>) {
    forall lib :: Read(lib, body) == Some(Obj(ms))
  }

  lemma PlainReadsAs(ms: seq<Member>)
    requires Modest(Obj(ms))
    ensures ReadsAs(Utf8.Encode(Plain(Python, Obj(ms))), ms)
    ensures Utf8.Encode(Plain(Python, Obj(ms))) != []
  {
    forall lib ensures Read(lib, Utf8.Encode(Plain(Python, Obj(ms)))) == Some(Obj(ms)) {
      ReadOfPlain(lib, Python, Obj(ms));
    }
  }

  /** A row that seals `body` under `key`, as far as its text goes. */
  predicate Seals(w: Wire, body: bytes, key: string, nonce: nat) {
    && w.keyid == Keyid(w.organ) && body != []
    && w.payload == Base64.Encode(body)
    && w.signature == Base64.Encode(Signatures.Sign(key, Pae.Pae(PAYLOAD_TYPE, body), nonce))
  }

  /** Such a row is sealed in every language, over this document. */
  lemma SealedEverywhere(lib: Base64.Library, w: Wire, body: bytes, key: string, nonce: nat, keys: PublicKeys)
    requires Seals(w, body, key, nonce) && w.organ in keys && keys[w.organ] == key && w.organ != "" && key != ""
    ensures Sealed(lib, w, keys) && DocumentOf(lib, w) == body
  {
    var bits := Signatures.Sign(key, Pae.Pae(PAYLOAD_TYPE, body), nonce);
    Base64.DecodeOfEncode(lib, body);
    Base64.DecodeOfEncode(lib, bits);
    Signatures.SignatureNotEmpty(key, Pae.Pae(PAYLOAD_TYPE, body), nonce);
    Signatures.ReadOfSign(key, Pae.Pae(PAYLOAD_TYPE, body), nonce);
  }

  // ----- the members of a statement are plain -----

  predicate IsStatementKey(k: string) {
    IsName(k) || k == "reason" || k == "lean_sha" || k == "ts"
  }

  /** Members whose keys are those of a statement. */
  predicate StatementKeys(ms: seq<Member>) {
    DistinctKeys(ms) && forall m | m in ms :: m.value.Str? && IsStatementKey(m.key)
  }

  lemma StatementKeysArePlain(ms: seq<Member>)
    requires StatementKeys(ms)
    ensures Plainly(ms) && Unmarshals(ms)
  {
  }

  lemma MembersOfStatement(s: Statement)
    ensures StatementKeys(StatementMembers(s))
  {
  }

  /** The fields that the verifiers look up, found from the end. */
  predicate Says(ms: seq<Member>, s: Statement) {
    && GetLast(ms, "schema") == Str(SCHEMA) && GetLast(ms, "organ") == Str(s.organ)
    && GetLast(ms, "keyid") == Str(Keyid(s.organ)) && GetLast(ms, "verdict") == Str(s.verdict)
  }

  lemma StatementSays(s: Statement, ms: seq<Member>)
    requires DistinctKeys(ms)
    requires forall i | 0 <= i < 5 && i != 3 :: StatementMembers(s)[i] in ms
    ensures Says(ms, s)
  {
    GetLastMember(ms, StatementMembers(s)[0]);
    GetLastMember(ms, StatementMembers(s)[1]);
    GetLastMember(ms, StatementMembers(s)[2]);
    GetLastMember(ms, StatementMembers(s)[4]);
  }

  // ----- rows of sign_verdict -----

  lemma ReadingsOfRead(body: bytes, ms: seq<Member>)
    requires ReadsAs(body, ms)
    ensures ReadingIn(Base64.Go, body) == GoReadingOf(ms)
    ensures ReadingIn(Base64.Python, body) == ReadingIn(Base64.Node, body) == ReadingOfMembers(ms)
  {
    assert Read(Base64.Go, body) == Some(Obj(ms));
    assert Read(Base64.Python, body) == Some(Obj(ms));
    assert Read(Base64.Node, body) == Some(Obj(ms));
  }

  /** Every language takes these bytes to say the same. */
  predicate SayAlike(body: bytes) {
    ReadingIn(Base64.Go, body) == ReadingIn(Base64.Python, body) == ReadingIn(Base64.Node, body)
  }

  lemma HashedReadings(body: bytes, ms: seq<Member>, hash: Member)
    requires ReadsAs(body, ms) && StatementKeys(ms)
    requires hash in ms && hash.key == "action_hash"
    ensures SayAlike(body)
  {
    StatementKeysArePlain(ms);
    PlainDocuments(ms);
    GetLastMember(ms, hash);
    ReadingsOfRead(body, ms);
  }

  lemma SignedReadings(source: seq<Member>, i: nat)
    requires StatementKeys(source) && i < |source| && source[i].key == "action_hash"
    ensures SayAlike(CanonicalJson(Obj(source)))
  {
    var ms := SortedFlat(source);
    FlatIsModest(ms);
    PlainReadsAs(ms);
    HashedReadings(CanonicalJson(Obj(source)), ms, source[i]);
  }

  lemma StatementReadings(s: Statement)
    ensures SayAlike(Body(s))
  {
    MembersOfStatement(s);
    SignedReadings(StatementMembers(s), 3);
  }

  lemma SortedFlat(source: seq<Member>) returns (ms: seq<Member>)
    requires StatementKeys(source)
    ensures StatementKeys(ms) && forall m | m in source :: m in ms
    ensures Utf8.Encode(Plain(Python, Obj(ms))) == CanonicalJson(Obj(source))
  {
    ms := Sort(CodePoint, source);
    SortMembers(CodePoint, source);
    SortSorted(CodePoint, source);
    SortedDistinct(CodePoint, ms);
    FlatIsNormal(source);
  }

  /** Every row that `sign_verdict` makes counts alike in the three languages, whoever signs, whatever is asked. */
  lemma SignedRowsCountAlike(s: Statement, key: string, nonce: nat, keys: PublicKeys, h: string)
    ensures CountAlike(WireOf(SignVerdict(s, key, nonce)), keys, h)
  {
    StatementReadings(s);
    EncodedRowsCountAlike(WireOf(SignVerdict(s, key, nonce)), Body(s), Signatures.Sign(key, SignedBytes(s), nonce),
                          keys, h);
  }

  /** Rows that the encoder wrote, of the right type and with a document that reads alike, count alike. */
  lemma EncodedRowsCountAlike(w: Wire, body: bytes, bits: bytes, keys: PublicKeys, h: string)
    requires w.payload == Base64.Encode(body) && w.signature == Base64.Encode(bits)
    requires w.payloadType == Text(PAYLOAD_TYPE) && SayAlike(body)
    ensures CountAlike(w, keys, h)
  {
    Base64.EncodedIsDecodedAlike(body);
    Base64.EncodedIsDecodedAlike(bits);
    Base64.DecodeOfEncode(Base64.Python, body);
    RowsAgreeExactly(w, keys, h);
    assert Granted(Base64.Python, w, h) == Granted(Base64.Go, w, h) == Granted(Base64.Node, w, h);
  }

  // ----- rows that split the languages -----

  /** The row counts in exactly these languages. */
  predicate CountsJustIn(libs: set<Base64.Library>, w: Wire, keys: PublicKeys, h: string) {
    && (CountsIn(Base64.Python, w, keys, h) <==> Base64.Python in libs)
    && (CountsIn(Base64.Go, w, keys, h) <==> Base64.Go in libs)
    && (CountsIn(Base64.Node, w, keys, h) <==> Base64.Node in libs)
  }

  /** This payload type passes in exactly these languages. */
  predicate PassesJustIn(libs: set<Base64.Library>, t: Given) {
    && (TypePasses(Base64.Python, t) <==> Base64.Python in libs)
    && (TypePasses(Base64.Go, t) <==> Base64.Go in libs)
    && (TypePasses(Base64.Node, t) <==> Base64.Node in libs)
  }

  /** What Go takes the members to say. */
  function GoReadingOf(ms: seq<Member>): Reading {
    if Unmarshals(ms) then ReadingOf(Unmarshal(ms).value) else None
  }

  /** The libraries that let the type pass and read the members as this organ allowing this action. */
  predicate GrantedJustIn(libs: set<Base64.Library>, organ: string, t: Given, ms: seq<Member>, h: string) {
    && (TypePasses(Base64.Python, t) && ReadingOfMembers(ms) == Some((organ, h)) <==> Base64.Python in libs)
    && (TypePasses(Base64.Go, t) && GoReadingOf(ms) == Some((organ, h)) <==> Base64.Go in libs)
    && (TypePasses(Base64.Node, t) && ReadingOfMembers(ms) == Some((organ, h)) <==> Base64.Node in libs)
  }

  /** A row that seals any bytes counts where its type passes and the reader takes them to say this. */
  lemma ReadersSplit(lib: Base64.Library, w: Wire, body: bytes, nonce: nat, keys: PublicKeys, h: string)
    requires w.organ in keys && w.organ != "" && keys[w.organ] != "" && Seals(w, body, keys[w.organ], nonce)
    ensures CountsIn(lib, w, keys, h) <==>
      TypePasses(lib, w.payloadType) && ReadingIn(lib, body) == Some((w.organ, h))
  {
    CountsExactly(lib, w, keys, h);
    SealedEverywhere(lib, w, body, keys[w.organ], nonce, keys);
  }

  lemma SealedCounts(lib: Base64.Library, w: Wire, body: bytes, ms: seq<Member>, nonce: nat, keys: PublicKeys,
                     h: string)
    requires w.organ in keys && w.organ != "" && keys[w.organ] != "" && Seals(w, body, keys[w.organ], nonce)
    requires ReadsAs(body, ms)
    ensures CountsIn(lib, w, keys, h) <==>
      && TypePasses(lib, w.payloadType)
      && (if lib == Base64.Go then GoReadingOf(ms) else ReadingOfMembers(ms)) == Some((w.organ, h))
  {
    ReadingsOfRead(body, ms);
    ReadersSplit(lib, w, body, nonce, keys, h);
  }

  lemma SealedSplits(libs: set<Base64.Library>, w: Wire, body: bytes, ms: seq<Member>, nonce: nat, keys: PublicKeys,
                     h: string)
    requires w.organ in keys && w.organ != "" && keys[w.organ] != "" && Seals(w, body, keys[w.organ], nonce)
    requires ReadsAs(body, ms) && GrantedJustIn(libs, w.organ, w.payloadType, ms, h)
    ensures CountsJustIn(libs, w, keys, h)
  {
    SealedCounts(Base64.Python, w, body, ms, nonce, keys, h);
    SealedCounts(Base64.Go, w, body, ms, nonce, keys, h);
    SealedCounts(Base64.Node, w, body, ms, nonce, keys, h);
  }

  /** A signed document counts where its payload type passes and it reads as this organ allowing this action. */
  lemma SignedDocumentSplits(libs: set<Base64.Library>, organ: string, t: Given, ms: seq<Member>, nonce: nat,
                             keys: PublicKeys, h: string)
    requires organ in keys && organ != "" && keys[organ] != "" && GrantedJustIn(libs, organ, t, ms, h)
    requires Modest(Obj(ms))
    ensures CountsJustIn(libs, SignDocument(organ, t, ms, keys[organ], nonce), keys, h)
  {
    PlainReadsAs(ms);
    SealedSplits(libs, SignDocument(organ, t, ms, keys[organ], nonce), Utf8.Encode(Plain(Python, Obj(ms))), ms, nonce,
                 keys, h);
  }

  lemma UnmarshalPlain(ms: seq<Member>, s: Statement)
    requires Plainly(ms) && Unmarshals(ms) && Says(ms, s)
    ensures Unmarshal(ms).value
         == Decoded(SCHEMA, s.organ, Keyid(s.organ), StringOr(GetLast(ms, "action_hash")), s.verdict)
  {
    FieldOfPlain(ms, "schema");
    FieldOfPlain(ms, "organ");
    FieldOfPlain(ms, "keyid");
    FieldOfPlain(ms, "action_hash");
    FieldOfPlain(ms, "verdict");
  }

  /** The readings of a statement's own members. */
  lemma StatementReadsAs(s: Statement)
    requires s.organ != ""
    ensures var ms := StatementMembers(s);
      && Plainly(ms) && Unmarshals(ms) && Says(ms, s) && GetLast(ms, "action_hash") == Str(s.actionHash)
    ensures s.verdict == "allow" ==>
      ReadingOfMembers(StatementMembers(s)) == GoReadingOf(StatementMembers(s)) == Some((s.organ, s.actionHash))
  {
    var ms := StatementMembers(s);
    MembersOfStatement(s);
    StatementKeysArePlain(ms);
    StatementSays(s, ms);
    GetLastMember(ms, ms[3]);
    PlainDocuments(ms);
  }

  lemma AllowReadsAs(s: Statement)
    requires s.organ != "" && s.verdict == "allow"
    ensures ReadingOfMembers(StatementMembers(s)) == GoReadingOf(StatementMembers(s)) == Some((s.organ, s.actionHash))
    ensures Modest(Obj(StatementMembers(s)))
  {
    MembersOfStatement(s);
    FlatIsModest(StatementMembers(s));
    StatementReadsAs(s);
  }

  /** A signed document that every language reads as this vote counts where its payload type passes. */
  lemma TypeSplits(libs: set<Base64.Library>, organ: string, t: Given, ms: seq<Member>, nonce: nat, keys: PublicKeys,
                   h: string)
    requires organ in keys && organ != "" && keys[organ] != ""
    requires ReadingOfMembers(ms) == GoReadingOf(ms) == Some((organ, h)) && Modest(Obj(ms))
    requires PassesJustIn(libs, t)
    ensures CountsJustIn(libs, SignDocument(organ, t, ms, keys[organ], nonce), keys, h)
  {
    SignedDocumentSplits(libs, organ, t, ms, nonce, keys, h);
  }

  /** The payload types that pass in one language or two. */
  lemma OddTypesPass()
    ensures PassesJustIn({Base64.Go}, Text("")) && PassesJustIn({Base64.Go, Base64.Node}, NullValue)
  {
    assert |PAYLOAD_TYPE| > 0;
  }

  lemma AllowSplitsByType(libs: set<Base64.Library>, s: Statement, t: Given, nonce: nat, keys: PublicKeys)
    requires s.organ in keys && s.organ != "" && keys[s.organ] != "" && s.verdict == "allow"
    requires PassesJustIn(libs, t)
    ensures CountsJustIn(libs, SignDocument(s.organ, t, StatementMembers(s), keys[s.organ], nonce), keys, s.actionHash)
  {
    AllowReadsAs(s);
    TypeSplits(libs, s.organ, t, StatementMembers(s), nonce, keys, s.actionHash);
  }

  /** Any validly signed `allow` whose payload type is sent as the empty string: Go only. */
  lemma EmptyTypeSplits(s: Statement, nonce: nat, keys: PublicKeys)
    requires s.organ in keys && s.organ != "" && keys[s.organ] != "" && s.verdict == "allow"
    ensures CountsJustIn({Base64.Go}, SignDocument(s.organ, Text(""), StatementMembers(s), keys[s.organ], nonce),
                         keys, s.actionHash)
  {
    OddTypesPass();
    AllowSplitsByType({Base64.Go}, s, Text(""), nonce, keys);
  }

  /** Any validly signed `allow` whose payload type is sent as `null`: Go and TypeScript, not Python. */
  lemma NullTypeSplits(s: Statement, nonce: nat, keys: PublicKeys)
    requires s.organ in keys && s.organ != "" && keys[s.organ] != "" && s.verdict == "allow"
    ensures CountsJustIn({Base64.Go, Base64.Node},
                         SignDocument(s.organ, NullValue, StatementMembers(s), keys[s.organ], nonce),
                         keys, s.actionHash)
  {
    OddTypesPass();
    AllowSplitsByType({Base64.Go, Base64.Node}, s, NullValue, nonce, keys);
  }

  lemma VariantFolds()
    ensures FoldsTo("Verdict", "verdict")
    ensures !FoldsTo("Verdict", "schema") && !FoldsTo("Verdict", "organ") && !FoldsTo("Verdict", "keyid")
    ensures !FoldsTo("Verdict", "action_hash")
  {
  }

  /** A `Verdict` member changes what Go reads, and nothing for the others. */
  lemma VariantOverrides(ms: seq<Member>, variant: Member)
    requires variant.key == "Verdict" && Plainly(ms) && Unmarshals(ms)
    ensures Unmarshals(ms + [variant]) <==> variant.value.Str? || variant.value.Null?
    ensures variant.value.Str? ==>
      Unmarshal(ms + [variant]).value == Unmarshal(ms).value.(verdict := variant.value.s)
    ensures forall k | IsName(k) :: GetLast(ms + [variant], k) == GetLast(ms, k)
  {
    VariantFolds();
    UnmarshalsMeans(ms);
    UnmarshalsMeans(ms + [variant]);
    assert (ms + [variant])[..|ms|] == ms;
    assert variant in ms + [variant];
    assert !IsName("Verdict") by { assert "Verdict"[0] == 'V'; }
  }

  lemma OneMoreIsModest(ms: seq<Member>, m: Member)
    requires StatementKeys(ms) && SafeIntegers(m.value) && Shallow(m.value, DEPTH - 1)
    ensures Modest(Obj(ms + [m]))
  {
    assert forall x | x in ms + [m] :: x in ms || x == m;
  }

  lemma SameNamesSameReading(ms: seq<Member>, ns: seq<Member>)
    requires forall k | IsName(k) :: GetLast(ms, k) == GetLast(ns, k)
    ensures ReadingOfMembers(ms) == ReadingOfMembers(ns)
  {
    assert IsName("schema") && IsName("organ") && IsName("keyid") && IsName("action_hash") && IsName("verdict");
  }

  /** Any signed statement that does not allow, followed by a `Verdict` key that does: Go only. */
  lemma VariantKeySplits(s: Statement, nonce: nat, keys: PublicKeys)
    requires s.organ in keys && s.organ != "" && keys[s.organ] != "" && s.verdict != "allow"
    ensures CountsJustIn({Base64.Go},
      SignDocument(s.organ, Missing, StatementMembers(s) + [Member("Verdict", Str("allow"))], keys[s.organ], nonce),
      keys, s.actionHash)
  {
    VariantReadings(s, StatementMembers(s), Member("Verdict", Str("allow")));
    SignedDocumentSplits({Base64.Go}, s.organ, Missing, StatementMembers(s) + [Member("Verdict", Str("allow"))],
                         nonce, keys, s.actionHash);
  }

  /** Any signed `allow`, followed by a `Verdict` key with any other value but `null`: Python and TypeScript only. */
  lemma VariantRefusalSplits(s: Statement, v: Json, nonce: nat, keys: PublicKeys)
    requires s.organ in keys && s.organ != "" && keys[s.organ] != "" && s.verdict == "allow"
    requires v != Str("allow") && v != Null && SafeIntegers(v) && Shallow(v, DEPTH - 1)
    ensures CountsJustIn({Base64.Python, Base64.Node},
      SignDocument(s.organ, Missing, StatementMembers(s) + [Member("Verdict", v)], keys[s.organ], nonce),
      keys, s.actionHash)
  {
    VariantReadings(s, StatementMembers(s), Member("Verdict", v));
    SignedDocumentSplits({Base64.Python, Base64.Node}, s.organ, Missing, StatementMembers(s) + [Member("Verdict", v)],
                         nonce, keys, s.actionHash);
  }

  lemma VariantReadings(s: Statement, ms: seq<Member>, variant: Member)
    requires ms == StatementMembers(s) && variant.key == "Verdict" && variant.value != Null && s.organ != ""
    requires SafeIntegers(variant.value) && Shallow(variant.value, DEPTH - 1)
    ensures Modest(Obj(ms + [variant]))
    ensures ReadingOfMembers(ms + [variant]) == if s.verdict == "allow" then Some((s.organ, s.actionHash)) else None
    ensures GoReadingOf(ms + [variant]) == if variant.value == Str("allow") then Some((s.organ, s.actionHash)) else None
  {
    StatementReadsAs(s);
    OverriddenReadings(s, ms, variant);
    MembersOfStatement(s);
    OneMoreIsModest(ms, variant);
  }

  lemma OverriddenReadings(s: Statement, ms: seq<Member>, variant: Member)
    requires Plainly(ms) && Unmarshals(ms) && Says(ms, s) && GetLast(ms, "action_hash") == Str(s.actionHash)
    requires variant.key == "Verdict" && variant.value != Null && s.organ != ""
    ensures ReadingOfMembers(ms + [variant]) == if s.verdict == "allow" then Some((s.organ, s.actionHash)) else None
    ensures GoReadingOf(ms + [variant]) == if variant.value == Str("allow") then Some((s.organ, s.actionHash)) else None
  {
    VariantOverrides(ms, variant);
    SameNamesSameReading(ms + [variant], ms);
    UnmarshalPlain(ms, s);
  }

  /** Any signed `allow` without an action hash, when the action asked about is the empty string: Go only. */
  lemma EmptyHashSplits(s: Statement, nonce: nat, keys: PublicKeys)
    requires s.organ in keys && s.organ != "" && keys[s.organ] != "" && s.verdict == "allow"
    ensures CountsJustIn({Base64.Go},
      SignDocument(s.organ, Missing, StatementMembers(s)[..3] + StatementMembers(s)[4..], keys[s.organ], nonce),
      keys, "")
  {
    var ms := StatementMembers(s)[..3] + StatementMembers(s)[4..];
    WithoutHash(s, ms);
    StatementKeysArePlain(ms);
    FlatIsModest(ms);
    NoMember(ms, "action_hash");
    UnmarshalPlain(ms, s);
    SignedDocumentSplits({Base64.Go}, s.organ, Missing, ms, nonce, keys, "");
  }

  /** Leaving one member out of a statement leaves the others, and nothing under its key. */
  lemma WithoutMember(all: seq<Member>, i: nat, ms: seq<Member>)
    requires StatementKeys(all) && i < |all| && ms == all[..i] + all[i + 1..]
    ensures StatementKeys(ms) && forall m | m in ms :: m.key != all[i].key
    ensures forall j | 0 <= j < |all| && j != i :: all[j] in ms
  {
    assert forall j | 0 <= j < |ms| :: ms[j] == all[if j < i then j else j + 1];
    assert forall j | 0 <= j < |all| && j != i :: all[j] == ms[if j < i then j else j - 1];
  }

  lemma WithoutHash(s: Statement, ms: seq<Member>)
    requires ms == StatementMembers(s)[..3] + StatementMembers(s)[4..]
    ensures StatementKeys(ms) && Says(ms, s) && forall m | m in ms :: m.key != "action_hash"
  {
    MembersOfStatement(s);
    WithoutMember(StatementMembers(s), 3, ms);
    StatementSays(s, ms);
  }

  lemma {:induction false} NoMember(ms: seq<Member>, k: string)
    requires forall m | m in ms :: m.key != k
    ensures GetLast(ms, k) == Null
  {
    if ms != [] {
      assert ms[|ms| - 1] in ms;
      NoMember(ms[..|ms| - 1], k);
    }
  }

  /** These readers take the bytes to be an object with these members, and the others refuse them. */
  predicate ReadJustIn(libs: set<Base64.Library>, body: bytes, ms: seq<Member>) {
    && Read(Base64.Python, body) == (if Base64.Python in libs then Some(Obj(ms)) else None)
    && Read(Base64.Go, body) == (if Base64.Go in libs then Some(Obj(ms)) else None)
    && Read(Base64.Node, body) == (if Base64.Node in libs then Some(Obj(ms)) else None)
  }

  lemma ReadingsJustIn(libs: set<Base64.Library>, lib: Base64.Library, body: bytes, ms: seq<Member>,
                       r: (string, string))
    requires ReadJustIn(libs, body, ms) && ReadingOfMembers(ms) == GoReadingOf(ms) == Some(r)
    ensures ReadingIn(lib, body) == if lib in libs then Some(r) else None
  {
  }

  /** Bytes that only some readers read, signed as an `allow`, count exactly in their languages. */
  lemma PartlyReadSplits(libs: set<Base64.Library>, organ: string, body: bytes, ms: seq<Member>, nonce: nat,
                         keys: PublicKeys, h: string)
    requires organ in keys && organ != "" && keys[organ] != "" && body != []
    requires ReadJustIn(libs, body, ms) && ReadingOfMembers(ms) == GoReadingOf(ms) == Some((organ, h))
    ensures CountsJustIn(libs, SignBytes(organ, Missing, body, keys[organ], nonce), keys, h)
  {
    var w := SignBytes(organ, Missing, body, keys[organ], nonce);
    ReadingsJustIn(libs, Base64.Python, body, ms, (organ, h));
    ReadingsJustIn(libs, Base64.Go, body, ms, (organ, h));
    ReadingsJustIn(libs, Base64.Node, body, ms, (organ, h));
    ReadersSplit(Base64.Python, w, body, nonce, keys, h);
    ReadersSplit(Base64.Go, w, body, nonce, keys, h);
    ReadersSplit(Base64.Node, w, body, nonce, keys, h);
  }

  /** The text of a statement behind a byte-order mark. */
  function Marked(s: Statement): bytes {
    Utf8.Encode(['\U{FEFF}'] + Plain(Python, Obj(StatementMembers(s))))
  }

  /** By the grammar it is no document, so that the law of readers says nothing about it. */
  lemma MarkedIsNoDocument(s: Statement)
    ensures Marked(s) != [] && StrictRead(Marked(s)).None?
  {
    var t := ['\U{FEFF}'] + Plain(Python, Obj(StatementMembers(s)));
    Utf8.DecodeOfEncode(t);
    assert t[0] == '\U{FEFF}';
    NoValueStarts(t);
  }

  lemma NoValueStarts(t: string)
    requires t != [] && t[0] == '\U{FEFF}'
    ensures ReadDocument(t).None?
  {
    assert SkipSpace(t) == t;
    assert !("null" <= t) && !("true" <= t) && !("false" <= t);
  }

  /**
   Any signed `allow` behind a byte-order mark: where Python's reader takes the mark off
   and the others refuse it, as theirs do, it counts in Python only.
   */
  lemma ByteOrderMarkSplits(s: Statement, nonce: nat, keys: PublicKeys)
    requires s.organ in keys && s.organ != "" && keys[s.organ] != "" && s.verdict == "allow"
    requires ReadJustIn({Base64.Python}, Marked(s), StatementMembers(s))
    ensures CountsJustIn({Base64.Python}, SignBytes(s.organ, Missing, Marked(s), keys[s.organ], nonce),
                         keys, s.actionHash)
  {
    AllowReadsAs(s);
    MarkedIsNoDocument(s);
    PartlyReadSplits({Base64.Python}, s.organ, Marked(s), StatementMembers(s), nonce, keys, s.actionHash);
  }

  /**
   A payload text that is not the encoder's (padding stripped, a stray space) counts only
   where the library still decodes it to the signed document.
   */
  lemma DecodersSplit(lib: Base64.Library, w: Wire, text: string, body: bytes, nonce: nat, keys: PublicKeys, h: string)
    requires w.organ in keys && w.organ != "" && keys[w.organ] != "" && Seals(w, body, keys[w.organ], nonce)
    requires text != "" && CountsIn(lib, w, keys, h)
    ensures CountsIn(lib, w.(payload := text), keys, h) <==> Base64.Decode(lib, text) == Some(body)
  {
    CountsExactly(lib, w, keys, h);
    CountsExactly(lib, w.(payload := text), keys, h);
    TextSeals(lib, w, text, body, nonce, keys);
    SealedEverywhere(lib, w, body, keys[w.organ], nonce, keys);
  }

  lemma TextSeals(lib: Base64.Library, w: Wire, text: string, body: bytes, nonce: nat, keys: PublicKeys)
    requires w.organ in keys && w.organ != "" && keys[w.organ] != "" && Seals(w, body, keys[w.organ], nonce)
    requires text != ""
    ensures Sealed(lib, w.(payload := text), keys) <==> Base64.Decode(lib, text) == Some(body)
  {
    SealedEverywhere(lib, w, body, keys[w.organ], nonce, keys);
    OtherTextSeals(lib, w, text, body, keys);
  }

  lemma OtherTextSeals(lib: Base64.Library, w: Wire, text: string, body: bytes, keys: PublicKeys)
    requires Sealed(lib, w, keys) && DocumentOf(lib, w) == body && text != ""
    ensures Sealed(lib, w.(payload := text), keys) <==> Base64.Decode(lib, text) == Some(body)
  {
    if Sealed(lib, w.(payload := text), keys) {
      SealedForOne(lib, w, text, keys);
    } else if Base64.Decode(lib, text) == Some(body) {
      SealedIsSigned(lib, w, keys);
      SealedAgain(lib, w, text, keys);
    }
  }

  lemma SealedForOne(lib: Base64.Library, w: Wire, text: string, keys: PublicKeys)
    requires Sealed(lib, w, keys) && Sealed(lib, w.(payload := text), keys)
    ensures Base64.Decode(lib, text) == Some(DocumentOf(lib, w))
  {
    SealedIsSigned(lib, w, keys);
    SealedIsSigned(lib, w.(payload := text), keys);
    OneDocument(keys[w.organ], DocumentOf(lib, w.(payload := text)), DocumentOf(lib, w),
                Base64.Decode(lib, w.signature).value);
  }

  lemma SealedAgain(lib: Base64.Library, w: Wire, text: string, keys: PublicKeys)
    requires Sealed(lib, w, keys) && text != "" && Base64.Decode(lib, text) == Base64.Decode(lib, w.payload)
    ensures Sealed(lib, w.(payload := text), keys)
  {
  }

  lemma SealedIsSigned(lib: Base64.Library, w: Wire, keys: PublicKeys)
    requires Sealed(lib, w, keys)
    ensures Base64.Decode(lib, w.payload) == Some(DocumentOf(lib, w)) && Base64.Decode(lib, w.signature).Some?
    ensures Signatures.Verifies(keys[w.organ], Pae.Pae(PAYLOAD_TYPE, DocumentOf(lib, w)),
                                Base64.Decode(lib, w.signature).value)
  {
  }

  /** Bits verify for one document only. */
  lemma OneDocument(key: string, a: bytes, b: bytes, bits: bytes)
    requires Signatures.Verifies(key, Pae.Pae(PAYLOAD_TYPE, a), bits)
    requires Signatures.Verifies(key, Pae.Pae(PAYLOAD_TYPE, b), bits)
    ensures a == b
  {
    Pae.PaeInjective(PAYLOAD_TYPE, a, PAYLOAD_TYPE, b);
  }
}
