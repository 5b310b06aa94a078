/** Independent verification of a receipt against trust roots that the verifier's operator owns. */
module ReceiptChecks {
  import opened Wrappers
  import opened Digests
  import opened Json
  import opened JsonText
  import opened Verdict
  import opened Tally
  import opened Witnesses
  import opened Receipts
  import opened WireRows

  // ----- trust policy -----

  /** Python's white space, as `str.strip` sees it. */
  predicate IsPythonSpace(c: char) {
    var u := c as int;
    0x09 <= u <= 0x0D || 0x1C <= u <= 0x20 || u == 0x85 || u == 0xA0 || u == 0x1680 || 0x2000 <= u <= 0x200A
    || u == 0x2028 || u == 0x2029 || u == 0x202F || u == 0x205F || u == 0x3000
  }

  /** `not s.strip()`. */
  predicate Blank(s: string) {
    forall i | 0 <= i < |s| :: IsPythonSpace(s[i])
  }

  /** The exceptions of `_resolve_trust_policy`. */
  datatype TrustError =
    BothGiven | NothingGiven | NotAKeyMap | ThresholdNotAnInteger | MalformedKey | ThresholdOutOfRange

  /** Trusted keys as the dict the caller gave, and the threshold; `n` is the number of keys. */
  datatype Policy = Policy(dict: seq<Member>, threshold: int)

  predicate TrustedKey(m: Member) {
    m.key != "" && m.value.Str? && !Blank(m.value.s)
  }

  /** What a resolved policy always satisfies. */
  predicate ValidPolicy(p: Policy) {
    && DistinctKeys(p.dict) && (forall i | 0 <= i < |p.dict| :: TrustedKey(p.dict[i]))
    && ValidQuorumCounts(p.threshold, |p.dict|)
  }

  function PubkeyMembers(ws: seq<Witness>): (r: seq<Member>)
    ensures |r| == |ws|
    ensures forall i | 0 <= i < |ws| :: r[i] == Member(ws[i].organ, Str(ws[i].publicKeyPem))
  {
    seq(|ws|, i requires 0 <= i < |ws| => Member(ws[i].organ, Str(ws[i].publicKeyPem)))
  }

  /** The checks on keys and threshold, wherever they came from. */
  function CheckPolicy(pubkeys: Json, threshold: Json): (r: Result<Policy, TrustError>)
    requires pubkeys.Obj? ==> DistinctKeys(pubkeys.members)
    ensures r.Ok? <==> pubkeys.Obj? && threshold.Int? && ValidPolicy(Policy(pubkeys.members, threshold.n))
    ensures r.Ok? ==> r.value == Policy(pubkeys.members, threshold.n)
  {
    if !pubkeys.Obj? || pubkeys.members == [] then Err(NotAKeyMap)
    else if !threshold.Int? then Err(ThresholdNotAnInteger)
    else if exists m :: m in pubkeys.members && !TrustedKey(m) then Err(MalformedKey)
    else if threshold.n < 1 || threshold.n > |pubkeys.members| then Err(ThresholdOutOfRange)
    else Ok(Policy(pubkeys.members, threshold.n))
  }

  /** `_resolve_trust_policy`: a registry, or keys and threshold, and never both. */
  function ResolveTrustPolicy(pubkeys: Option<Json>, threshold: Option<Json>, registry: Option<Roster>)
    : (r: Result<Policy, TrustError>)
    requires pubkeys.Some? && pubkeys.value.Obj? ==> DistinctKeys(pubkeys.value.members)
    requires registry.Some? ==> DistinctOrgans(registry.value.witnesses)
    ensures r.Ok? ==> ValidPolicy(r.value)
    ensures registry.Some? ==>
      (r == Ok(Policy(PubkeyMembers(registry.value.witnesses), registry.value.threshold)) <==>
        && pubkeys.None? && threshold.None?
        && ValidPolicy(Policy(PubkeyMembers(registry.value.witnesses), registry.value.threshold)))
    ensures registry.None? ==>
      (r.Ok? <==> && pubkeys.Some? && threshold.Some? && pubkeys.value.Obj? && threshold.value.Int?
                  && ValidPolicy(Policy(pubkeys.value.members, threshold.value.n)))
    ensures r.Ok? && registry.None? ==> r.value == Policy(pubkeys.value.members, threshold.value.n)
    ensures r.Ok? && registry.Some? ==> pubkeys.None? && threshold.None?
  {
    match registry
    case Some(roster) =>
      if pubkeys.Some? || threshold.Some? then Err(BothGiven)
      else CheckPolicy(Obj(PubkeyMembers(roster.witnesses)), Int(roster.threshold))
    case None =>
      if pubkeys.None? || threshold.None? then Err(NothingGiven)
      else CheckPolicy(pubkeys.value, threshold.value)
  }

  /** The trusted keys as a map. */
  function TrustedKeys(p: Policy): PublicKeys
    requires ValidPolicy(p)
  {
    map k | k in Keys(p.dict) :: FieldOr(p.dict, k, "")
  }

  lemma TrustedKeyAt(p: Policy, i: nat)
    requires ValidPolicy(p) && i < |p.dict|
    ensures p.dict[i].key in TrustedKeys(p) && TrustedKeys(p)[p.dict[i].key] == p.dict[i].value.s
  {
  }

  lemma {:induction false} KeysSize(ms: seq<Member>)
    requires DistinctKeys(ms)
    ensures |Keys(ms)| == |ms|
  {
    if ms == [] {
      assert Keys(ms) == {};
    } else {
      KeysSize(ms[1..]);
      assert Keys(ms) == Keys(ms[1..]) + {ms[0].key};
    }
  }

  /** The trusted witness count is the number of trusted organs. */
  lemma TrustedKeysSize(p: Policy)
    requires ValidPolicy(p)
    ensures TrustedKeys(p).Keys == Keys(p.dict) && |TrustedKeys(p)| == |p.dict|
  {
    KeysSize(p.dict);
    assert |TrustedKeys(p)| == |TrustedKeys(p).Keys|;
  }

  // ----- embedded key claims -----

  /** The organ that an entry names, empty when there is none. */
  function EntryOrgan(item: Json): string {
    if item.Obj? && Get(item.members, "organ").Str? then Get(item.members, "organ").s else ""
  }

  function ClaimedPem(x: Json): string {
    if x.Obj? && Get(x.members, "public_key_pem").Str? then Get(x.members, "public_key_pem").s else ""
  }

  /** An object whose organ is a non-empty string and whose key is a non-blank one. */
  predicate WellFormedClaim(x: Json) {
    x.Obj? && EntryOrgan(x) != "" && !Blank(ClaimedPem(x))
  }

  /** Every entry names an organ and a key, and no organ twice. */
  predicate WellFormedClaims(items: seq<Json>) {
    && (forall i | 0 <= i < |items| :: WellFormedClaim(items[i]))
    && DistinctClaims(items)
  }

  predicate DistinctClaims(items: seq<Json>) {
    forall i, j | 0 <= i < j < |items| :: EntryOrgan(items[i]) != EntryOrgan(items[j])
  }

  function ClaimedNames(items: seq<Json>): set<string> {
    set x | x in items :: EntryOrgan(x)
  }

  /** The key that is claimed for an organ. */
  function ClaimFor(items: seq<Json>, organ: string): string {
    if items == [] then ""
    else if EntryOrgan(items[0]) == organ then ClaimedPem(items[0])
    else ClaimFor(items[1..], organ)
  }

  function ClaimedKeys(items: seq<Json>): PublicKeys {
    map o | o in ClaimedNames(items) :: ClaimFor(items, o)
  }

  lemma {:induction false} ClaimForAt(items: seq<Json>, i: nat)
    requires DistinctClaims(items) && i < |items|
    ensures ClaimFor(items, EntryOrgan(items[i])) == ClaimedPem(items[i])
  {
    if i > 0 {
      assert EntryOrgan(items[0]) != EntryOrgan(items[i]);
      ClaimForAt(items[1..], i - 1);
    }
  }

  lemma ClaimedKeyAt(items: seq<Json>, i: nat)
    requires DistinctClaims(items) && i < |items|
    ensures EntryOrgan(items[i]) in ClaimedKeys(items)
      && ClaimedKeys(items)[EntryOrgan(items[i])] == ClaimedPem(items[i])
  {
    ClaimForAt(items, i);
    assert items[i] in items;
  }

  lemma {:induction false} ClaimForAppended(init: seq<Json>, x: Json, organ: string)
    ensures ClaimFor(init + [x], organ)
         == if organ in ClaimedNames(init) || organ != EntryOrgan(x) then ClaimFor(init, organ) else ClaimedPem(x)
  {
    if init == [] {
      assert init + [x] == [x];
    } else {
      ClaimForAppended(init[1..], x, organ);
      assert (init + [x])[1..] == init[1..] + [x];
      assert forall y :: y in init <==> y == init[0] || y in init[1..];
    }
  }

  /** The keys that a receipt claims, `None` when the list is malformed. */
  function EmbeddedKeys(receipt: seq<Member>): Option<PublicKeys> {
    match Get(receipt, "witnesses")
    case Arr(items) => if WellFormedClaims(items) then Some(ClaimedKeys(items)) else None
    case _ => None
  }

  lemma DistinctSnoc(init: seq<Json>, x: Json)
    requires DistinctClaims(init)
    ensures DistinctClaims(init + [x]) <==> EntryOrgan(x) !in ClaimedNames(init)
  {
    var all := init + [x];
    assert forall j | 0 <= j < |init| :: all[j] == init[j] && init[j] in init;
    if EntryOrgan(x) in ClaimedNames(init) {
      var y :| y in init && EntryOrgan(y) == EntryOrgan(x);
      var j :| 0 <= j < |init| && init[j] == y;
      assert EntryOrgan(all[j]) == EntryOrgan(all[|init|]);
    }
  }

  lemma ClaimsSnoc(init: seq<Json>, x: Json)
    requires WellFormedClaims(init)
    ensures WellFormedClaims(init + [x]) <==> WellFormedClaim(x) && EntryOrgan(x) !in ClaimedNames(init)
  {
    DistinctSnoc(init, x);
    assert (init + [x])[|init|] == x && forall j | 0 <= j < |init| :: (init + [x])[j] == init[j];
  }

  lemma ClaimsStep(items: seq<Json>, i: nat)
    requires i < |items| && WellFormedClaims(items[..i])
    ensures WellFormedClaims(items[..i + 1]) <==>
      WellFormedClaim(items[i]) && EntryOrgan(items[i]) !in ClaimedNames(items[..i])
  {
    ClaimsSnoc(items[..i], items[i]);
    assert items[..i + 1] == items[..i] + [items[i]];
  }

  lemma ClaimedKeysStep(init: seq<Json>, x: Json)
    requires EntryOrgan(x) !in ClaimedNames(init)
    ensures ClaimedKeys(init + [x]) == ClaimedKeys(init)[EntryOrgan(x) := ClaimedPem(x)]
  {
    assert ClaimedNames(init + [x]) == ClaimedNames(init) + {EntryOrgan(x)};
    forall o | o in ClaimedNames(init + [x])
      ensures ClaimFor(init + [x], o) == if o == EntryOrgan(x) then ClaimedPem(x) else ClaimFor(init, o)
    {
      ClaimForAppended(init, x, o);
    }
  }

  lemma ClaimsPrefix(items: seq<Json>, i: nat)
    requires i <= |items|
    ensures WellFormedClaims(items) ==> WellFormedClaims(items[..i])
  {
  }

  /** One turn of the loop: a bad entry spoils the list, a good one adds its key. */
  lemma ClaimsTurn(items: seq<Json>, i: nat)
    requires i < |items| && WellFormedClaims(items[..i])
    ensures var good := WellFormedClaim(items[i]) && EntryOrgan(items[i]) !in ClaimedKeys(items[..i]);
      && (!good ==> !WellFormedClaims(items))
      && (good ==> WellFormedClaims(items[..i + 1]))
      && (good ==> ClaimedKeys(items[..i + 1]) == ClaimedKeys(items[..i])[EntryOrgan(items[i]) := ClaimedPem(items[i])])
  {
    ClaimsStep(items, i);
    ClaimsPrefix(items, i + 1);
    if EntryOrgan(items[i]) !in ClaimedNames(items[..i]) {
      ClaimedKeysStep(items[..i], items[i]);
      assert items[..i + 1] == items[..i] + [items[i]];
    }
  }

  /** `_embedded_pubkeys`: the whole list is dropped at the first malformed or repeated entry. */
  method EmbeddedPubkeys(receipt: seq<Member>) returns (embedded: PublicKeys, wellFormed: bool)
    ensures wellFormed <==> EmbeddedKeys(receipt).Some?
    ensures embedded == if wellFormed then EmbeddedKeys(receipt).value else map[]
  {
    var witnesses := Get(receipt, "witnesses");
    if !witnesses.Arr? {
      return map[], false;
    }
    var items := witnesses.items;
    embedded := map[];
    for i := 0 to |items|
      invariant WellFormedClaims(items[..i]) && embedded == ClaimedKeys(items[..i])
    {
      ClaimsTurn(items, i);
      if !WellFormedClaim(items[i]) || EntryOrgan(items[i]) in embedded {
        return map[], false;
      }
      embedded := embedded[EntryOrgan(items[i]) := ClaimedPem(items[i])];
    }
    assert items[..|items|] == items;
    wellFormed := true;
  }

  // ----- signature entries -----

  const REQUIRED_STRINGS := ["organ", "keyid", "payloadType", "payload", "signature"]
  const OPTIONAL_STRINGS := ["verdict", "reason"]

  /** The error texts, with the index of the entry and the name of the field at fault. */
  datatype EntryError =
    | NoError
    | NotAList
    | TooMany
    | EntryNotAnObject(index: nat)
    | RequiredField(index: nat, field: string)
    | OptionalField(index: nat, field: string)
    | UntrustedWitness(index: nat)
    | RepeatedWitness(index: nat)

  predicate FilledString(ms: seq<Member>, f: string) {
    Get(ms, f).Str? && Get(ms, f).s != ""
  }

  predicate StringIfPresent(ms: seq<Member>, f: string) {
    Has(ms, f) ==> Get(ms, f).Str?
  }

  predicate RequiredStrings(ms: seq<Member>) {
    forall f | f in REQUIRED_STRINGS :: FilledString(ms, f)
  }

  predicate OptionalStrings(ms: seq<Member>) {
    forall f | f in OPTIONAL_STRINGS :: StringIfPresent(ms, f)
  }

  /** A verdict object with the right fields, from a trusted witness; or an explicit abstention. */
  predicate EntryFits(item: Json, keys: PublicKeys) {
    item.Null?
    || (item.Obj? && RequiredStrings(item.members) && OptionalStrings(item.members) && EntryOrgan(item) in keys)
  }

  predicate EntriesFit(items: seq<Json>, keys: PublicKeys) {
    && (forall i | 0 <= i < |items| :: EntryFits(items[i], keys))
    && (forall i, j | 0 <= i < j < |items| && items[i].Obj? && items[j].Obj? ::
          EntryOrgan(items[i]) != EntryOrgan(items[j]))
  }

  /** At most one well-formed row per trusted witness, and no row of anybody else. */
  predicate ValidEntries(signatures: Json, keys: PublicKeys, n: nat) {
    signatures.Arr? && |signatures.items| <= n && EntriesFit(signatures.items, keys)
  }

  function NamedOrgans(items: seq<Json>): set<string> {
    set x | x in items && x.Obj? :: EntryOrgan(x)
  }

  lemma EntriesStep(items: seq<Json>, i: nat, keys: PublicKeys)
    requires i < |items| && EntriesFit(items[..i], keys)
    ensures EntriesFit(items[..i + 1], keys) <==>
      EntryFits(items[i], keys) && (items[i].Obj? ==> EntryOrgan(items[i]) !in NamedOrgans(items[..i]))
    ensures NamedOrgans(items[..i + 1])
        == NamedOrgans(items[..i]) + if items[i].Obj? then {EntryOrgan(items[i])} else {}
  {
  }

  lemma EntriesPrefix(items: seq<Json>, i: nat, keys: PublicKeys)
    requires i <= |items|
    ensures EntriesFit(items, keys) ==> EntriesFit(items[..i], keys)
  {
  }

  /** The place of the first required field that is no filled-in string. */
  function FirstUnfilled(ms: seq<Member>, fields: seq<string>): (i: nat)
    ensures i <= |fields| && forall j | 0 <= j < i :: FilledString(ms, fields[j])
    ensures i < |fields| ==> !FilledString(ms, fields[i])
  {
    if fields == [] || !FilledString(ms, fields[0]) then 0 else 1 + FirstUnfilled(ms, fields[1..])
  }

  /** The place of the first optional field that is there and is no string. */
  function FirstNonString(ms: seq<Member>, fields: seq<string>): (i: nat)
    ensures i <= |fields| && forall j | 0 <= j < i :: StringIfPresent(ms, fields[j])
    ensures i < |fields| ==> !StringIfPresent(ms, fields[i])
  {
    if fields == [] || !StringIfPresent(ms, fields[0]) then 0 else 1 + FirstNonString(ms, fields[1..])
  }

  /** What is wrong with an entry after others that named `seen`: the first test that fails, in the source's order. */
  function EntryFault(item: Json, index: nat, keys: PublicKeys, seen: set<string>): (e: EntryError)
    ensures e == NoError <==> EntryFits(item, keys) && (item.Obj? ==> EntryOrgan(item) !in seen)
    ensures e != NoError ==> e != NotAList && e != TooMany && e.index == index
  {
    if item.Null? then NoError
    else if !item.Obj? then EntryNotAnObject(index)
    else
      var r := FirstUnfilled(item.members, REQUIRED_STRINGS);
      var o := FirstNonString(item.members, OPTIONAL_STRINGS);
      if r < |REQUIRED_STRINGS| then RequiredField(index, REQUIRED_STRINGS[r])
      else if o < |OPTIONAL_STRINGS| then OptionalField(index, OPTIONAL_STRINGS[o])
      else if EntryOrgan(item) !in keys then UntrustedWitness(index)
      else if EntryOrgan(item) in seen then RepeatedWitness(index)
      else NoError
  }

  /** What is wrong with the entries: the fault of the first one that has one. */
  function EntriesFault(items: seq<Json>, keys: PublicKeys): EntryError {
    if items == [] then NoError
    else
      var init := items[..|items| - 1];
      var before := EntriesFault(init, keys);
      if before != NoError then before
      else EntryFault(items[|items| - 1], |items| - 1, keys, NamedOrgans(init))
  }

  function SignaturesFault(signatures: Json, keys: PublicKeys, n: nat): EntryError {
    if !signatures.Arr? then NotAList
    else if |signatures.items| > n then TooMany
    else EntriesFault(signatures.items, keys)
  }

  lemma {:induction false} EntriesFaultMeans(items: seq<Json>, keys: PublicKeys)
    ensures EntriesFault(items, keys) == NoError <==> EntriesFit(items, keys)
  {
    if items != [] {
      var i := |items| - 1;
      EntriesFaultMeans(items[..i], keys);
      EntriesPrefix(items, i, keys);
      if EntriesFit(items[..i], keys) {
        EntriesStep(items, i, keys);
        assert items[..i + 1] == items;
      }
    }
  }

  lemma {:induction false} FirstFaultStays(items: seq<Json>, i: nat, keys: PublicKeys)
    requires i <= |items| && EntriesFault(items[..i], keys) != NoError
    ensures EntriesFault(items, keys) == EntriesFault(items[..i], keys)
  {
    if i < |items| {
      assert items[..|items| - 1][..i] == items[..i];
      FirstFaultStays(items[..|items| - 1], i, keys);
    } else {
      assert items[..i] == items;
    }
  }

  /** An error about an entry is that entry's own, and everything before it fits. */
  lemma {:induction false} FaultNamesFirst(items: seq<Json>, keys: PublicKeys)
    ensures var e := EntriesFault(items, keys);
      e != NoError ==>
        && e != NotAList && e != TooMany && e.index < |items| && EntriesFit(items[..e.index], keys)
        && e == EntryFault(items[e.index], e.index, keys, NamedOrgans(items[..e.index]))
  {
    if items != [] {
      var i := |items| - 1;
      FaultNamesFirst(items[..i], keys);
      EntriesFaultMeans(items[..i], keys);
      var e := EntriesFault(items[..i], keys);
      if e != NoError {
        assert items[..i][..e.index] == items[..e.index];
      }
    }
  }

  /** One turn of the loop. */
  lemma EntriesTurn(items: seq<Json>, i: nat, keys: PublicKeys)
    requires i < |items| && EntriesFault(items[..i], keys) == NoError
    ensures EntriesFault(items[..i + 1], keys) == EntryFault(items[i], i, keys, NamedOrgans(items[..i]))
    ensures EntriesFault(items[..i + 1], keys) != NoError ==>
      EntriesFault(items, keys) == EntriesFault(items[..i + 1], keys)
    ensures NamedOrgans(items[..i + 1])
        == NamedOrgans(items[..i]) + if items[i].Obj? then {EntryOrgan(items[i])} else {}
  {
    assert items[..i + 1][..i] == items[..i];
    if EntriesFault(items[..i + 1], keys) != NoError {
      FirstFaultStays(items, i + 1, keys);
    }
    EntriesFaultMeans(items[..i], keys);
    EntriesStep(items, i, keys);
  }

  /** The inner loop over required fields. */
  method CheckRequired(ms: seq<Member>) returns (i: nat)
    ensures i == FirstUnfilled(ms, REQUIRED_STRINGS)
  {
    for k := 0 to |REQUIRED_STRINGS|
      invariant forall j | 0 <= j < k :: FilledString(ms, REQUIRED_STRINGS[j])
    {
      var value := Get(ms, REQUIRED_STRINGS[k]);
      if !value.Str? || value.s == "" {
        return k;
      }
    }
    i := |REQUIRED_STRINGS|;
  }

  /** The inner loop over optional fields. */
  method CheckOptional(ms: seq<Member>) returns (i: nat)
    ensures i == FirstNonString(ms, OPTIONAL_STRINGS)
  {
    for k := 0 to |OPTIONAL_STRINGS|
      invariant forall j | 0 <= j < k :: StringIfPresent(ms, OPTIONAL_STRINGS[j])
    {
      if Has(ms, OPTIONAL_STRINGS[k]) && !Get(ms, OPTIONAL_STRINGS[k]).Str? {
        return k;
      }
    }
    i := |OPTIONAL_STRINGS|;
  }

  /** The loop body for one entry. */
  method CheckEntry(item: Json, index: nat, trusted: PublicKeys, seen: set<string>) returns (error: EntryError)
    ensures error == EntryFault(item, index, trusted, seen)
  {
    if item.Null? {
      return NoError;
    }
    if !item.Obj? {
      return EntryNotAnObject(index);
    }
    var required := CheckRequired(item.members);
    if required < |REQUIRED_STRINGS| {
      return RequiredField(index, REQUIRED_STRINGS[required]);
    }
    var optional := CheckOptional(item.members);
    if optional < |OPTIONAL_STRINGS| {
      return OptionalField(index, OPTIONAL_STRINGS[optional]);
    }
    if EntryOrgan(item) !in trusted {
      return UntrustedWitness(index);
    }
    error := if EntryOrgan(item) in seen then RepeatedWitness(index) else NoError;
  }

  /**
   `_validate_signature_entries`: accepts exactly the valid collections; an error about
   an entry is the first failing test of the first entry at which the collection stops
   being valid.
   */
  method ValidateSignatureEntries(signatures: Json, trusted: PublicKeys, n: nat) returns (ok: bool, error: EntryError)
    ensures error == SignaturesFault(signatures, trusted, n)
    ensures ok <==> ValidEntries(signatures, trusted, n)
    ensures ok <==> error == NoError
    ensures error == NotAList <==> !signatures.Arr?
    ensures error == TooMany <==> signatures.Arr? && |signatures.items| > n
    ensures error != NoError && error != NotAList && error != TooMany ==>
      && error.index < |signatures.items| && EntriesFit(signatures.items[..error.index], trusted)
      && error == EntryFault(signatures.items[error.index], error.index, trusted,
                             NamedOrgans(signatures.items[..error.index]))
  {
    if !signatures.Arr? {
      return false, NotAList;
    }
    var items := signatures.items;
    if |items| > n {
      return false, TooMany;
    }
    FaultNamesFirst(items, trusted);
    EntriesFaultMeans(items, trusted);
    var seen: set<string> := {};
    for i := 0 to |items|
      invariant EntriesFault(items[..i], trusted) == NoError && seen == NamedOrgans(items[..i])
    {
      EntriesTurn(items, i, trusted);
      var found := CheckEntry(items[i], i, trusted, seen);
      if found != NoError {
        return false, found;
      }
      if items[i].Obj? {
        seen := seen + {EntryOrgan(items[i])};
      }
    }
    assert items[..|items|] == items;
    return true, NoError;
  }

  // ----- rows of a receipt -----

  function ItemOf(item: Json): Item {
    if item.Obj? then Some(FromDict(item.members)) else None
  }

  function ItemsOf(items: seq<Json>): (r: seq<Item>)
    ensures |r| == |items|
    ensures forall i | 0 <= i < |items| :: r[i] == ItemOf(items[i])
  {
    seq(|items|, i requires 0 <= i < |items| => ItemOf(items[i]))
  }

  // ----- verify_receipt -----

  datatype Verification = Verification(
    actionHash: Json,
    decision: Decision,
    consensusCount: nat,
    threshold: int,
    n: int,
    checks: seq<OrganCheck>,
    schemaMatches: bool,
    trustPolicyMatches: bool,
    signaturesValid: bool,
    signatureError: EntryError,
    receiptSha256: string,
    trustPolicySha256: string,
    matchesClaimedDecision: bool)

  /** The signatures that are looked at: all or none. */
  function SafeItems(receipt: seq<Member>, p: Policy): seq<Item>
    requires ValidPolicy(p)
  {
    var signatures := Get(receipt, "signatures");
    if ValidEntries(signatures, TrustedKeys(p), |p.dict|) then ItemsOf(signatures.items) else []
  }

  predicate TrustPolicyMatches(receipt: seq<Member>, p: Policy)
    requires ValidPolicy(p)
  {
    && EmbeddedKeys(receipt) == Some(TrustedKeys(p))
    && PyEqual(Get(receipt, "threshold"), Int(p.threshold))
    && PyEqual(Get(receipt, "n"), Int(|p.dict|))
  }

  /** What the digest of the trust policy covers. */
  function PolicyJson(p: Policy): Json {
    Obj([Member("threshold", Int(p.threshold)), Member("n", Int(|p.dict|)), Member("pubkeys", Obj(p.dict))])
  }

  /** `_canonical_sha256`, for a given hash function. */
  function CanonicalSha256(sha256: Sha256, v: Json): string {
    sha256(CanonicalJson(v))
  }

  /** `verify_receipt` once the policy is resolved. */
  function VerifyAgainst(sha256: Sha256, receipt: seq<Member>, p: Policy): Verification
    requires ValidPolicy(p)
  {
    var actionHash := Get(receipt, "action_hash");
    var signaturesValid := ValidEntries(Get(receipt, "signatures"), TrustedKeys(p), |p.dict|);
    var schemaMatches := Get(receipt, "schema") == Str(RECEIPT_SCHEMA);
    var trustPolicyMatches := TrustPolicyMatches(receipt, p);
    var result := TallyResult(actionHash, SafeItems(receipt, p), TrustedKeys(p), p.threshold, |p.dict|);
    var gates := schemaMatches && trustPolicyMatches && signaturesValid;
    var decision := if gates then result.decision else Rejected;
    Verification(actionHash, decision, result.consensusCount, p.threshold, |p.dict|, result.checks,
                 schemaMatches, trustPolicyMatches, signaturesValid,
                 SignaturesFault(Get(receipt, "signatures"), TrustedKeys(p), |p.dict|),
                 CanonicalSha256(sha256, Obj(receipt)), CanonicalSha256(sha256, PolicyJson(p)),
                 gates && Get(receipt, "decision") == Str(DecisionText(decision)))
  }

  /** `verify_receipt`. */
  method VerifyReceipt(sha256: Sha256, receipt: seq<Member>, pubkeys: Option<Json>, threshold: Option<Json>,
                       registry: Option<Roster>)
    returns (r: Result<Verification, TrustError>)
    requires pubkeys.Some? && pubkeys.value.Obj? ==> DistinctKeys(pubkeys.value.members)
    requires registry.Some? ==> DistinctOrgans(registry.value.witnesses)
    ensures r == match ResolveTrustPolicy(pubkeys, threshold, registry)
                 case Err(e) => Err(e)
                 case Ok(p) => Ok(VerifyAgainst(sha256, receipt, p))
  {
    var resolved := ResolveTrustPolicy(pubkeys, threshold, registry);
    if resolved.Err? {
      return Err(resolved.error);
    }
    var p := resolved.value;
    var trusted, n := TrustedKeys(p), |p.dict|;
    var actionHash := Get(receipt, "action_hash");
    var sigs := Get(receipt, "signatures");
    var signaturesValid, signatureError := ValidateSignatureEntries(sigs, trusted, n);
    var safeSigs := if signaturesValid then ItemsOf(sigs.items) else [];
    assert safeSigs == SafeItems(receipt, p);
    var embedded, wellFormed := EmbeddedPubkeys(receipt);
    var trustPolicyMatches := wellFormed && embedded == trusted
      && PyEqual(Get(receipt, "threshold"), Int(p.threshold)) && PyEqual(Get(receipt, "n"), Int(n));
    assert trustPolicyMatches == TrustPolicyMatches(receipt, p);
    var schemaMatches := Get(receipt, "schema") == Str(RECEIPT_SCHEMA);
    var result := Tally.Tally(actionHash, safeSigs, trusted, p.threshold, n);
    var gates := schemaMatches && trustPolicyMatches && signaturesValid;
    var decision := if gates then result.decision else Rejected;
    r := Ok(Verification(actionHash, decision, result.consensusCount, result.threshold, result.n, result.checks,
                         schemaMatches, trustPolicyMatches, signaturesValid, signatureError,
                         CanonicalSha256(sha256, Obj(receipt)), CanonicalSha256(sha256, PolicyJson(p)),
                         gates && Get(receipt, "decision") == Str(DecisionText(decision))));
  }
}
