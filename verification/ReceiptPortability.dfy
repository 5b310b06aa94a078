/**
 A receipt is portable: printed as canonical JSON, sent and read back, it verifies as
 the original does. Verification cannot see the order in which members are listed.
 */
module ReceiptPortability {
  import opened Wrappers
  import opened Digests
  import opened Json
  import opened JsonText
  import opened JsonReaders
  import opened KeyOrder
  import opened Verdict
  import Base64
  import opened Tally
  import opened WireRows
  import opened Receipts
  import opened ReceiptChecks

  // ----- looking into equal dicts -----

  lemma SameFields(ms: seq<Member>, ns: seq<Member>, k: string)
    requires Same(Obj(ms), Obj(ns))
    ensures Has(ms, k) == Has(ns, k) && Same(Get(ms, k), Get(ns, k))
  {
    assert Has(ms, k) <==> k in Keys(ms);
    assert Has(ns, k) <==> k in Keys(ns);
  }

  /** What is the same and no container is equal. */
  lemma SameScalars(v: Json, w: Json)
    requires Same(v, w)
    ensures v.Arr? == w.Arr? && v.Obj? == w.Obj? && (!v.Arr? && !v.Obj? ==> v == w)
  {
  }

  lemma {:induction false} EqualToSame(x: Json, v: Json, w: Json)
    requires Same(v, w)
    ensures PyEqual(x, v) == PyEqual(x, w)
    decreases v
  {
    match (x, v, w)
    case (Arr(xs), Arr(a), Arr(b)) =>
      forall i | 0 <= i < |a| && i < |xs| ensures PyEqual(xs[i], a[i]) == PyEqual(xs[i], b[i]) {
        EqualToSame(xs[i], a[i], b[i]);
      }
    case (Obj(xs), Obj(ms), Obj(ns)) =>
      forall i, j, k | 0 <= i < |xs| && 0 <= j < |ms| && 0 <= k < |ns| && ms[j].key == ns[k].key
        ensures PyEqual(xs[i].value, ms[j].value) == PyEqual(xs[i].value, ns[k].value)
      {
        EqualToSame(xs[i].value, ms[j].value, ns[k].value);
      }
      ObjectsEqualToSame(xs, ms, ns);
    case _ =>
  }

  /** Values under one key are equal to the same values. */
  predicate EqualAlike(xs: seq<Member>, ms: seq<Member>, ns: seq<Member>) {
    forall i, j, k | 0 <= i < |xs| && 0 <= j < |ms| && 0 <= k < |ns| && ms[j].key == ns[k].key ::
      PyEqual(xs[i].value, ms[j].value) == PyEqual(xs[i].value, ns[k].value)
  }

  lemma {:induction false} ObjectEqualToOther(xs: seq<Member>, ms: seq<Member>, ns: seq<Member>)
    requires Keys(ms) == Keys(ns) && EqualAlike(xs, ms, ns) && PyEqual(Obj(xs), Obj(ms))
    ensures PyEqual(Obj(xs), Obj(ns))
  {
    forall i, k | 0 <= i < |xs| && 0 <= k < |ns| && xs[i].key == ns[k].key
      ensures PyEqual(xs[i].value, ns[k].value)
    {
      assert ns[k].key in Keys(ms);
      var j :| 0 <= j < |ms| && ms[j].key == ns[k].key;
      assert PyEqual(xs[i].value, ms[j].value);
    }
  }

  lemma {:induction false} ObjectsEqualToSame(xs: seq<Member>, ms: seq<Member>, ns: seq<Member>)
    requires Keys(ms) == Keys(ns) && EqualAlike(xs, ms, ns)
    ensures PyEqual(Obj(xs), Obj(ms)) == PyEqual(Obj(xs), Obj(ns))
  {
    if PyEqual(Obj(xs), Obj(ms)) {
      ObjectEqualToOther(xs, ms, ns);
    } else if PyEqual(Obj(xs), Obj(ns)) {
      ObjectEqualToOther(xs, ns, ms);
    }
  }

  // ----- the tally -----

  lemma CheckedAlike(v: Row, pem: string, a: Json, b: Json)
    requires Same(a, b)
    ensures VerifyVerdict(v, pem, a) == VerifyVerdict(v, pem, b)
  {
    if SealFault(v, pem) == Fine {
      StatementCheckedAlike(v, Loads(PayloadOf(Base64.Python, v)), a, b);
    }
  }

  lemma StatementCheckedAlike(v: Row, document: Option<Json>, a: Json, b: Json)
    requires Same(a, b)
    ensures CheckStatement(v, document, a) == CheckStatement(v, document, b)
  {
    if document.Some? && document.value.Obj? {
      EqualToSame(Get(document.value.members, "action_hash"), a, b);
    }
  }

  lemma ItemCheckedAlike(a: Json, b: Json, item: Item, keys: PublicKeys)
    requires Same(a, b)
    ensures CheckItem(a, item, keys) == CheckItem(b, item, keys)
  {
    if item.Some? && item.value.organ in keys {
      CheckedAlike(item.value, keys[item.value.organ], a, b);
    }
  }

  lemma ItemsCheckedAlike(a: Json, b: Json, items: seq<Item>, keys: PublicKeys)
    requires Same(a, b)
    ensures CheckAll(a, items, keys) == CheckAll(b, items, keys)
  {
    var x, y := CheckAll(a, items, keys), CheckAll(b, items, keys);
    forall i | 0 <= i < |items| ensures x[i] == y[i] {
      ItemCheckedAlike(a, b, items[i], keys);
    }
    assert x == y;
  }

  lemma TalliedAlike(a: Json, b: Json, items: seq<Item>, keys: PublicKeys, threshold: int, n: int)
    requires Same(a, b)
    ensures TallyResult(b, items, keys, threshold, n) == TallyResult(a, items, keys, threshold, n).(actionHash := b)
  {
    ItemsCheckedAlike(a, b, items, keys);
    OrgansOfChecks(a, items, keys);
    OrgansOfChecks(b, items, keys);
  }

  // ----- entries -----

  lemma OrganOfSame(x: Json, y: Json)
    requires Same(x, y)
    ensures EntryOrgan(x) == EntryOrgan(y) && ClaimedPem(x) == ClaimedPem(y)
  {
    SameScalars(x, y);
    if x.Obj? {
      SameFields(x.members, y.members, "organ");
      SameFields(x.members, y.members, "public_key_pem");
      SameScalars(Get(x.members, "organ"), Get(y.members, "organ"));
      SameScalars(Get(x.members, "public_key_pem"), Get(y.members, "public_key_pem"));
    }
  }

  /** A named member is there in both, and is the same string in both or no string in either. */
  predicate StringAlike(ms: seq<Member>, ns: seq<Member>, k: string) {
    && Has(ms, k) == Has(ns, k) && Get(ms, k).Str? == Get(ns, k).Str?
    && (Get(ms, k).Str? ==> Get(ms, k) == Get(ns, k))
  }

  lemma StringsOfSame(ms: seq<Member>, ns: seq<Member>)
    requires Same(Obj(ms), Obj(ns))
    ensures forall k :: StringAlike(ms, ns, k)
  {
    forall k ensures StringAlike(ms, ns, k) {
      SameFields(ms, ns, k);
      SameScalars(Get(ms, k), Get(ns, k));
    }
  }

  lemma RowOfSame(ms: seq<Member>, ns: seq<Member>)
    requires forall k :: StringAlike(ms, ns, k)
    ensures FromDict(ms) == FromDict(ns)
  {
    assert StringAlike(ms, ns, "organ") && StringAlike(ms, ns, "keyid") && StringAlike(ms, ns, "payloadType");
    assert StringAlike(ms, ns, "payload") && StringAlike(ms, ns, "signature");
    assert StringAlike(ms, ns, "verdict") && StringAlike(ms, ns, "reason");
  }

  lemma {:induction false} UnfilledAlike(ms: seq<Member>, ns: seq<Member>, fields: seq<string>)
    requires forall k :: StringAlike(ms, ns, k)
    ensures FirstUnfilled(ms, fields) == FirstUnfilled(ns, fields)
    ensures FirstNonString(ms, fields) == FirstNonString(ns, fields)
  {
    if fields != [] {
      assert StringAlike(ms, ns, fields[0]);
      UnfilledAlike(ms, ns, fields[1..]);
    }
  }

  lemma FaultOfSame(x: Json, y: Json, index: nat, keys: PublicKeys, seen: set<string>)
    requires Same(x, y)
    ensures EntryFault(x, index, keys, seen) == EntryFault(y, index, keys, seen) && ItemOf(x) == ItemOf(y)
  {
    SameScalars(x, y);
    OrganOfSame(x, y);
    if x.Obj? {
      StringsOfSame(x.members, y.members);
      RowOfSame(x.members, y.members);
      UnfilledAlike(x.members, y.members, REQUIRED_STRINGS);
      UnfilledAlike(x.members, y.members, OPTIONAL_STRINGS);
    }
  }

  predicate SameItems(a: seq<Json>, b: seq<Json>) {
    |a| == |b| && forall i | 0 <= i < |a| :: Same(a[i], b[i])
  }

  lemma NamedAlike(a: seq<Json>, b: seq<Json>)
    requires SameItems(a, b)
    ensures NamedOrgans(a) == NamedOrgans(b) && ClaimedNames(a) == ClaimedNames(b)
  {
    forall i | 0 <= i < |a| ensures a[i].Obj? == b[i].Obj? && EntryOrgan(a[i]) == EntryOrgan(b[i]) {
      SameScalars(a[i], b[i]);
      OrganOfSame(a[i], b[i]);
    }
    NamesByIndex(a, b);
    NamesByIndex(b, a);
  }

  lemma NamesByIndex(a: seq<Json>, b: seq<Json>)
    requires |a| == |b|
    requires forall i | 0 <= i < |a| :: a[i].Obj? == b[i].Obj? && EntryOrgan(a[i]) == EntryOrgan(b[i])
    ensures NamedOrgans(a) <= NamedOrgans(b) && ClaimedNames(a) <= ClaimedNames(b)
  {
    forall x | x in a ensures EntryOrgan(x) in ClaimedNames(b) && (x.Obj? ==> EntryOrgan(x) in NamedOrgans(b)) {
      var i :| 0 <= i < |a| && a[i] == x;
      assert b[i] in b;
    }
  }

  lemma {:induction false} FaultsAlike(a: seq<Json>, b: seq<Json>, keys: PublicKeys)
    requires SameItems(a, b)
    ensures EntriesFault(a, keys) == EntriesFault(b, keys)
  {
    if a != [] {
      var i := |a| - 1;
      FaultsAlike(a[..i], b[..i], keys);
      NamedAlike(a[..i], b[..i]);
      FaultOfSame(a[i], b[i], i, keys, NamedOrgans(a[..i]));
    }
  }

  lemma RowsAlike(a: seq<Json>, b: seq<Json>)
    requires SameItems(a, b)
    ensures ItemsOf(a) == ItemsOf(b)
  {
    forall i | 0 <= i < |a| ensures ItemOf(a[i]) == ItemOf(b[i]) {
      FaultOfSame(a[i], b[i], 0, map[], {});
    }
  }

  lemma {:induction false} ClaimsAlike(a: seq<Json>, b: seq<Json>, organ: string)
    requires SameItems(a, b)
    ensures ClaimFor(a, organ) == ClaimFor(b, organ)
  {
    if a != [] {
      OrganOfSame(a[0], b[0]);
      ClaimsAlike(a[1..], b[1..], organ);
    }
  }

  lemma WellFormedAlike(a: seq<Json>, b: seq<Json>)
    requires SameItems(a, b)
    ensures WellFormedClaims(a) == WellFormedClaims(b)
  {
    forall i | 0 <= i < |a|
      ensures EntryOrgan(a[i]) == EntryOrgan(b[i]) && WellFormedClaim(a[i]) == WellFormedClaim(b[i])
    {
      SameScalars(a[i], b[i]);
      OrganOfSame(a[i], b[i]);
    }
  }

  lemma ClaimedKeysAlike(a: seq<Json>, b: seq<Json>)
    requires SameItems(a, b)
    ensures ClaimedKeys(a) == ClaimedKeys(b)
  {
    NamedAlike(a, b);
    forall o | o in ClaimedNames(a) ensures ClaimFor(a, o) == ClaimFor(b, o) {
      ClaimsAlike(a, b, o);
    }
  }

  // ----- receipts -----

  lemma EmbeddedAlike(a: seq<Member>, b: seq<Member>)
    requires Same(Obj(a), Obj(b))
    ensures EmbeddedKeys(a) == EmbeddedKeys(b)
  {
    SameFields(a, b, "witnesses");
    var x, y := Get(a, "witnesses"), Get(b, "witnesses");
    SameScalars(x, y);
    if x.Arr? {
      WellFormedAlike(x.items, y.items);
      ClaimedKeysAlike(x.items, y.items);
    }
  }

  lemma SignaturesAlike(a: Json, b: Json, keys: PublicKeys, n: nat)
    requires Same(a, b)
    ensures SignaturesFault(a, keys, n) == SignaturesFault(b, keys, n)
    ensures ValidEntries(a, keys, n) == ValidEntries(b, keys, n)
    ensures a.Arr? ==> b.Arr? && ItemsOf(a.items) == ItemsOf(b.items)
  {
    SameScalars(a, b);
    if a.Arr? {
      FaultsAlike(a.items, b.items, keys);
      RowsAlike(a.items, b.items);
      EntriesFaultMeans(a.items, keys);
      EntriesFaultMeans(b.items, keys);
    }
  }

  lemma NumbersAlike(v: Json, w: Json, n: int)
    requires Same(v, w)
    ensures PyEqual(v, Int(n)) == PyEqual(w, Int(n))
  {
    SameScalars(v, w);
  }

  lemma PolicyMatchesAlike(a: seq<Member>, b: seq<Member>, p: Policy)
    requires ValidPolicy(p) && Same(Obj(a), Obj(b))
    ensures TrustPolicyMatches(a, p) == TrustPolicyMatches(b, p)
  {
    EmbeddedAlike(a, b);
    SameFields(a, b, "threshold");
    SameFields(a, b, "n");
    NumbersAlike(Get(a, "threshold"), Get(b, "threshold"), p.threshold);
    NumbersAlike(Get(a, "n"), Get(b, "n"), |p.dict|);
  }

  lemma SaysAlike(a: seq<Member>, b: seq<Member>, k: string)
    requires Same(Obj(a), Obj(b))
    ensures forall s :: Get(a, k) == Str(s) <==> Get(b, k) == Str(s)
  {
    SameFields(a, b, k);
    SameScalars(Get(a, k), Get(b, k));
  }

  lemma EvidenceAlike(a: seq<Member>, b: seq<Member>, p: Policy)
    requires ValidPolicy(p) && Same(Obj(a), Obj(b))
    ensures var x, y := Get(a, "signatures"), Get(b, "signatures");
      && SignaturesFault(x, TrustedKeys(p), |p.dict|) == SignaturesFault(y, TrustedKeys(p), |p.dict|)
      && ValidEntries(x, TrustedKeys(p), |p.dict|) == ValidEntries(y, TrustedKeys(p), |p.dict|)
    ensures SafeItems(a, p) == SafeItems(b, p)
  {
    SameFields(a, b, "signatures");
    SignaturesAlike(Get(a, "signatures"), Get(b, "signatures"), TrustedKeys(p), |p.dict|);
  }

  /**
   Receipts that differ in the order of members only, at any depth, verify alike: same
   gates, same error, same decision, count and checks, same digests.
   */
  lemma SameReceiptsVerifyAlike(sha256: Sha256, a: seq<Member>, b: seq<Member>, p: Policy)
    requires ValidPolicy(p) && IsDict(Obj(a)) && IsDict(Obj(b)) && Same(Obj(a), Obj(b))
    ensures VerifyAgainst(sha256, b, p)
         == VerifyAgainst(sha256, a, p).(actionHash := Get(b, "action_hash"))
    ensures Same(Get(a, "action_hash"), Get(b, "action_hash"))
  {
    SameFields(a, b, "action_hash");
    SaysAlike(a, b, "schema");
    SaysAlike(a, b, "decision");
    EvidenceAlike(a, b, p);
    PolicyMatchesAlike(a, b, p);
    TalliedAlike(Get(a, "action_hash"), Get(b, "action_hash"), SafeItems(a, p), TrustedKeys(p), p.threshold, |p.dict|);
    CanonicalJsonIffSame(Obj(a), Obj(b));
  }

  /**
   A receipt survives transport: printed as canonical JSON and loaded again it is a dict
   with the same members in another order, and verifies as the original does; when its
   action hash is a string, to exactly the same result.
   */
  lemma ReceiptSurvivesTransport(sha256: Sha256, receipt: seq<Member>, p: Policy) returns (loaded: seq<Member>)
    requires ValidPolicy(p) && IsDict(Obj(receipt)) && Modest(Obj(receipt))
    ensures Loads(CanonicalJson(Obj(receipt))) == Some(Obj(loaded))
    ensures VerifyAgainst(sha256, loaded, p)
         == VerifyAgainst(sha256, receipt, p).(actionHash := Get(loaded, "action_hash"))
    ensures Get(receipt, "action_hash").Str? ==>
      VerifyAgainst(sha256, loaded, p) == VerifyAgainst(sha256, receipt, p)
  {
    LoadsOfCanonicalJson(Obj(receipt));
    NormalIsDict(CodePoint, Obj(receipt));
    loaded := Normal(CodePoint, Obj(receipt)).members;
    SameReceiptsVerifyAlike(sha256, receipt, loaded, p);
    SameScalars(Get(receipt, "action_hash"), Get(loaded, "action_hash"));
  }
}
