/**
 What a verified receipt proves: soundness against the trusted policy, end-to-end
 safety, admission without duplicates, independence from the receipt's own claims, and
 what the digests identify.
 */
module ReceiptTheorems {
  import opened Wrappers
  import opened Digests
  import opened Json
  import opened JsonText
  import opened Verdict
  import opened Tally
  import opened Counting
  import opened Witnesses
  import opened Receipts
  import opened ReceiptChecks
  import Machine

  // ----- soundness -----

  /** The three gates. */
  predicate Gates(receipt: seq<Member>, p: Policy)
    requires ValidPolicy(p)
  {
    && Get(receipt, "schema") == Str(RECEIPT_SCHEMA)
    && TrustPolicyMatches(receipt, p)
    && ValidEntries(Get(receipt, "signatures"), TrustedKeys(p), |p.dict|)
  }

  /** The row of some entry counts for this organ under its trusted key. */
  predicate Vouched(receipt: seq<Member>, p: Policy, organ: string)
    requires ValidPolicy(p)
  {
    && organ in TrustedKeys(p)
    && exists item :: item in SafeItems(receipt, p) && item.Some? && item.value.organ == organ
         && VerifyVerdict(item.value, TrustedKeys(p)[organ], Get(receipt, "action_hash")).counts
  }

  function VouchedOrgans(receipt: seq<Member>, p: Policy): set<string>
    requires ValidPolicy(p)
  {
    set o | o in TrustedKeys(p) && Vouched(receipt, p, o)
  }

  lemma VouchedAreCounted(receipt: seq<Member>, p: Policy)
    requires ValidPolicy(p)
    ensures VouchedOrgans(receipt, p)
        == CountingOrgans(Get(receipt, "action_hash"), SafeItems(receipt, p), TrustedKeys(p))
  {
    var items, keys, h := SafeItems(receipt, p), TrustedKeys(p), Get(receipt, "action_hash");
    forall o ensures o in VouchedOrgans(receipt, p) <==> o in CountingOrgans(h, items, keys) {
      if o in VouchedOrgans(receipt, p) {
        var item :| item in items && item.Some? && item.value.organ == o
          && VerifyVerdict(item.value, keys[o], h).counts;
        TrustedKeyNotEmpty(p, o);
        CountsRow(h, item.value, keys);
      }
      if o in CountingOrgans(h, items, keys) {
        var item :| item in items && Counts(h, item, keys) && item.value.organ == o;
        CountsRow(h, item.value, keys);
      }
    }
  }

  lemma TrustedKeyNotEmpty(p: Policy, organ: string)
    requires ValidPolicy(p) && organ in TrustedKeys(p)
    ensures TrustedKeys(p)[organ] != "" && organ != ""
  {
  }

  /**
   Soundness and completeness: a receipt is canonical if and only if it passes the
   three gates and at least the trusted threshold of trusted organs have a row that
   verifies under their trusted key as `allow` over the receipt's action hash.
   */
  lemma CanonicalExactly(sha256: Sha256, receipt: seq<Member>, p: Policy)
    requires ValidPolicy(p)
    ensures VerifyAgainst(sha256, receipt, p).decision == Canonical
       <==> Gates(receipt, p) && |VouchedOrgans(receipt, p)| >= p.threshold
    ensures VerifyAgainst(sha256, receipt, p).consensusCount == |VouchedOrgans(receipt, p)| <= |p.dict|
  {
    VouchedAreCounted(receipt, p);
    TrustedKeysSize(p);
    SubsetSize(VouchedOrgans(receipt, p), TrustedKeys(p).Keys);
  }

  /**
   Safety end to end: when a receipt assembled from whatever an adversary holds is
   canonical under a policy that publishes the run's keys, all but `|Compromised|` of
   the trusted threshold are uncompromised witnesses that signed `allow` for it.
   */
  lemma ReceiptSafety(states: seq<Machine.State>, steps: seq<Machine.Step>, k: nat, sha256: Sha256,
                      receipt: seq<Member>, p: Policy)
    requires Machine.IsRun(states, steps) && k < |states|
    requires ValidPolicy(p) && TrustedKeys(p) == states[k].keys
    requires Machine.Drawn(SafeItems(receipt, p), states[k].pool)
    requires VerifyAgainst(sha256, receipt, p).decision == Canonical
    ensures |Machine.HonestAllowers(states[k], Get(receipt, "action_hash")) * VouchedOrgans(receipt, p)|
         >= p.threshold - |Machine.Compromised(states[k])|
  {
    VouchedAreCounted(receipt, p);
    Machine.Safety(states, steps, k, SafeItems(receipt, p), Get(receipt, "action_hash"), p.threshold, |p.dict|);
  }

  // ----- admission -----

  lemma AdmittedDoNotRepeat(actionHash: Json, items: seq<Json>, keys: PublicKeys)
    requires EntriesFit(items, keys)
    ensures NoRepeats(CheckAll(actionHash, ItemsOf(items), keys))
  {
  }

  /**
   Admission makes the counters coincide: on every accepted collection nothing is
   marked as a duplicate, the naive, the hardened and the shipped tally return the same
   result, and the count is at most the trusted witness count.
   */
  lemma AdmissionRemovesDuplicates(actionHash: Json, signatures: Json, p: Policy)
    requires ValidPolicy(p) && ValidEntries(signatures, TrustedKeys(p), |p.dict|)
    ensures var items, keys := ItemsOf(signatures.items), TrustedKeys(p);
      var r := TallyResult(actionHash, items, keys, p.threshold, |p.dict|);
      && DuplicateMarks(r.checks) == 0
      && r == NaiveResult(actionHash, items, keys, p.threshold, |p.dict|)
      && r == DistinctResult(actionHash, items, keys, p.threshold, |p.dict|)
      && r.consensusCount <= |p.dict|
  {
    var items, keys := ItemsOf(signatures.items), TrustedKeys(p);
    AdmittedDoNotRepeat(actionHash, signatures.items, keys);
    NoRepeatsNoGap(CheckAll(actionHash, items, keys));
    OrgansOfChecks(actionHash, items, keys);
    TrustedKeysSize(p);
    SubsetSize(CountingOrgans(actionHash, items, keys), keys.Keys);
  }

  /**
   The reported signature error is empty exactly for an admitted collection; otherwise it
   names the first entry that does not fit after those before it, and that entry's first fault.
   */
  lemma SignatureErrorExactly(sha256: Sha256, receipt: seq<Member>, p: Policy)
    requires ValidPolicy(p)
    ensures var v := VerifyAgainst(sha256, receipt, p);
      var signatures := Get(receipt, "signatures");
      && (v.signaturesValid <==> v.signatureError == NoError)
      && (v.signatureError == NotAList <==> !signatures.Arr?)
      && (v.signatureError == TooMany <==> signatures.Arr? && |signatures.items| > |p.dict|)
      && (v.signatureError != NoError && v.signatureError != NotAList && v.signatureError != TooMany ==>
            && v.signatureError.index < |signatures.items|
            && EntriesFit(signatures.items[..v.signatureError.index], TrustedKeys(p))
            && v.signatureError == EntryFault(signatures.items[v.signatureError.index], v.signatureError.index,
                                              TrustedKeys(p), NamedOrgans(signatures.items[..v.signatureError.index])))
  {
    var signatures := Get(receipt, "signatures");
    if signatures.Arr? {
      EntriesFaultMeans(signatures.items, TrustedKeys(p));
      FaultNamesFirst(signatures.items, TrustedKeys(p));
    }
  }

  // ----- independence from the receipt's own claims -----

  /** Two receipts with the same evidence and the same policy claims. */
  predicate SameEvidence(a: seq<Member>, b: seq<Member>) {
    && Get(a, "schema") == Get(b, "schema") && Get(a, "action_hash") == Get(b, "action_hash")
    && Get(a, "signatures") == Get(b, "signatures") && Get(a, "witnesses") == Get(b, "witnesses")
    && Get(a, "threshold") == Get(b, "threshold") && Get(a, "n") == Get(b, "n")
  }

  /** The claimed decision, count, checks, provenance and version cannot influence the outcome. */
  lemma ClaimsDoNotDecide(sha256: Sha256, a: seq<Member>, b: seq<Member>, p: Policy)
    requires ValidPolicy(p) && SameEvidence(a, b)
    ensures var x, y := VerifyAgainst(sha256, a, p), VerifyAgainst(sha256, b, p);
      && x == y.(receiptSha256 := x.receiptSha256, matchesClaimedDecision := x.matchesClaimedDecision)
      && (x.matchesClaimedDecision <==> Gates(a, p) && Get(a, "decision") == Str(DecisionText(x.decision)))
  {
  }

  /** The threshold, witness count and keys that a receipt claims can only turn it down. */
  lemma ClaimedPolicyOnlyGates(sha256: Sha256, a: seq<Member>, b: seq<Member>, p: Policy)
    requires ValidPolicy(p)
    requires Get(a, "schema") == Get(b, "schema") && Get(a, "action_hash") == Get(b, "action_hash")
    requires Get(a, "signatures") == Get(b, "signatures")
    ensures var x, y := VerifyAgainst(sha256, a, p), VerifyAgainst(sha256, b, p);
      && x.consensusCount == y.consensusCount && x.checks == y.checks
      && (TrustPolicyMatches(a, p) && TrustPolicyMatches(b, p) ==> x.decision == y.decision)
      && (!TrustPolicyMatches(a, p) ==> x.decision == Rejected)
  {
  }

  // ----- identities -----

  /** Barring a collision of the pair, equal digests mean equal values up to key order, and only they do. */
  lemma DigestIdentifies(sha256: Sha256, v: Json, w: Json)
    requires IsDict(v) && IsDict(w) && NoCollision(sha256, CanonicalJson(v), CanonicalJson(w))
    ensures CanonicalSha256(sha256, v) == CanonicalSha256(sha256, w) <==> Same(v, w)
  {
    CanonicalJsonIffSame(v, w);
  }

  /** The order in which the operator lists trusted keys does not change the policy's identity. */
  lemma PolicyIdentity(sha256: Sha256, p: Policy, q: Policy)
    requires ValidPolicy(p) && ValidPolicy(q)
    requires NoCollision(sha256, CanonicalJson(PolicyJson(p)), CanonicalJson(PolicyJson(q)))
    ensures CanonicalSha256(sha256, PolicyJson(p)) == CanonicalSha256(sha256, PolicyJson(q))
       <==> p.threshold == q.threshold && TrustedKeys(p) == TrustedKeys(q)
  {
    PolicyIsDict(p);
    PolicyIsDict(q);
    DigestIdentifies(sha256, PolicyJson(p), PolicyJson(q));
    PoliciesSame(p, q);
  }

  lemma PolicyIsDict(p: Policy)
    requires ValidPolicy(p)
    ensures IsDict(PolicyJson(p))
  {
  }

  lemma PoliciesSame(p: Policy, q: Policy)
    requires ValidPolicy(p) && ValidPolicy(q)
    ensures Same(PolicyJson(p), PolicyJson(q)) <==> p.threshold == q.threshold && TrustedKeys(p) == TrustedKeys(q)
  {
    DictsSame(p, q);
    PolicyFieldsSame(Int(p.threshold), Int(|p.dict|), Obj(p.dict), Int(q.threshold), Int(|q.dict|), Obj(q.dict));
    if TrustedKeys(p) == TrustedKeys(q) {
      TrustedKeysSize(p);
      TrustedKeysSize(q);
    }
  }

  lemma PolicyFieldsSame(t: Json, n: Json, k: Json, t': Json, n': Json, k': Json)
    ensures Same(Obj([Member("threshold", t), Member("n", n), Member("pubkeys", k)]),
                 Obj([Member("threshold", t'), Member("n", n'), Member("pubkeys", k')]))
       <==> Same(t, t') && Same(n, n') && Same(k, k')
  {
    var ms := [Member("threshold", t), Member("n", n), Member("pubkeys", k)];
    var ns := [Member("threshold", t'), Member("n", n'), Member("pubkeys", k')];
    assert |"threshold"| == 9 && |"n"| == 1 && |"pubkeys"| == 7;
    SameByIndex(ms, ns);
    assert ms[0].value == t && ms[1].value == n && ms[2].value == k;
    assert ns[0].value == t' && ns[1].value == n' && ns[2].value == k';
  }

  /** Dicts of strings are the same when equal keys carry equal strings. */
  lemma StringDictsSame(ms: seq<Member>, ns: seq<Member>)
    requires forall i | 0 <= i < |ms| :: ms[i].value.Str?
    ensures Same(Obj(ms), Obj(ns)) <==> Keys(ms) == Keys(ns) && StringsAgree(ms, ns)
  {
  }

  predicate StringsAgree(ms: seq<Member>, ns: seq<Member>) {
    forall i, j | 0 <= i < |ms| && 0 <= j < |ns| && ms[i].key == ns[j].key :: ms[i].value == ns[j].value
  }

  lemma DictsSame(p: Policy, q: Policy)
    requires ValidPolicy(p) && ValidPolicy(q)
    ensures Same(Obj(p.dict), Obj(q.dict)) <==> TrustedKeys(p) == TrustedKeys(q)
  {
    StringDictsSame(p.dict, q.dict);
    TrustedKeysSize(p);
    TrustedKeysSize(q);
    if Keys(p.dict) == Keys(q.dict) && StringsAgree(p.dict, q.dict) {
      AgreeingKeys(p, q);
    }
    if TrustedKeys(p) == TrustedKeys(q) {
      EqualKeysAgree(p, q);
    }
  }

  lemma AgreeingKeys(p: Policy, q: Policy)
    requires ValidPolicy(p) && ValidPolicy(q) && Keys(p.dict) == Keys(q.dict) && StringsAgree(p.dict, q.dict)
    ensures TrustedKeys(p) == TrustedKeys(q)
  {
  }

  lemma MapsEqual(a: PublicKeys, b: PublicKeys)
    requires a.Keys == b.Keys && forall k | k in a :: a[k] == b[k]
    ensures a == b
  {
  }

  lemma EqualKeysAgree(p: Policy, q: Policy)
    requires ValidPolicy(p) && ValidPolicy(q) && TrustedKeys(p) == TrustedKeys(q)
    ensures StringsAgree(p.dict, q.dict)
  {
    forall i, j | 0 <= i < |p.dict| && 0 <= j < |q.dict| && p.dict[i].key == q.dict[j].key
      ensures p.dict[i].value == q.dict[j].value
    {
      TrustedKeyAt(p, i);
      TrustedKeyAt(q, j);
    }
  }
}
