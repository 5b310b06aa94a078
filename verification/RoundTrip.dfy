/** What `attest` makes, `verify_receipt` confirms against the same registry. */
module RoundTrip {
  import opened Wrappers
  import opened Digests
  import opened Json
  import opened Verdict
  import opened Tally
  import opened Witnesses
  import opened Receipts
  import opened WireRows
  import opened ReceiptChecks
  import opened ReceiptTheorems
  import Base64
  import Signatures

  /** Every witness has a name and a published key, and the threshold fits the registry. */
  predicate ProperRoster(roster: Roster) {
    && DistinctOrgans(roster.witnesses) && ValidQuorumCounts(roster.threshold, |roster.witnesses|)
    && forall i | 0 <= i < |roster.witnesses| ::
         roster.witnesses[i].organ != "" && !Blank(roster.witnesses[i].publicKeyPem)
  }

  // ----- the registry as trust policy -----

  /** A registry resolves to a trust policy if and only if it is proper; the policy's keys are its keys. */
  lemma RegistryResolves(roster: Roster)
    requires DistinctOrgans(roster.witnesses)
    ensures var r := ResolveTrustPolicy(None, None, Some(roster));
      && (r.Ok? <==> ProperRoster(roster))
      && (r.Ok? ==> r.value == Policy(PubkeyMembers(roster.witnesses), roster.threshold)
                    && TrustedKeys(r.value) == Pubkeys(roster.witnesses) && |r.value.dict| == |roster.witnesses|)
  {
    MembersTrusted(roster.witnesses);
    if ResolveTrustPolicy(None, None, Some(roster)).Ok? {
      KeysOfRegistry(roster.witnesses, Policy(PubkeyMembers(roster.witnesses), roster.threshold));
    }
  }

  lemma MembersTrusted(ws: seq<Witness>)
    ensures (exists m :: m in PubkeyMembers(ws) && !TrustedKey(m))
       <==> (exists i :: 0 <= i < |ws| && (ws[i].organ == "" || Blank(ws[i].publicKeyPem)))
  {
    var ms := PubkeyMembers(ws);
    if i :| 0 <= i < |ws| && (ws[i].organ == "" || Blank(ws[i].publicKeyPem)) {
      assert ms[i] in ms && !TrustedKey(ms[i]);
    }
  }

  lemma KeysOfRegistry(ws: seq<Witness>, p: Policy)
    requires DistinctOrgans(ws) && ValidPolicy(p) && p.dict == PubkeyMembers(ws)
    ensures TrustedKeys(p) == Pubkeys(ws)
  {
    TrustedKeysSize(p);
    PubkeysSize(ws);
    NamesAreKeys(ws);
    forall o | o in TrustedKeys(p) ensures o in Pubkeys(ws) && TrustedKeys(p)[o] == Pubkeys(ws)[o] {
      SameKey(ws, p, o);
    }
    MapsEqual(TrustedKeys(p), Pubkeys(ws));
  }

  lemma SameKey(ws: seq<Witness>, p: Policy, o: string)
    requires DistinctOrgans(ws) && ValidPolicy(p) && p.dict == PubkeyMembers(ws) && o in Names(ws)
    ensures o in TrustedKeys(p) && o in Pubkeys(ws) && TrustedKeys(p)[o] == Pubkeys(ws)[o]
  {
  }

  lemma NamesAreKeys(ws: seq<Witness>)
    ensures Keys(PubkeyMembers(ws)) == Names(ws)
  {
  }

  // ----- rows -----

  lemma RowFields(v: Row)
    ensures FromDict(RowMembers(v)) == v
    ensures var ms := RowMembers(v);
      && Get(ms, "organ") == Str(v.organ) && Get(ms, "keyid") == Str(v.keyid)
      && Get(ms, "payloadType") == Str(v.payloadType)
      && Get(ms, "payload") == Str(v.payload) && Get(ms, "signature") == Str(v.signature)
      && Get(ms, "verdict") == Str(v.verdict) && Get(ms, "reason") == Str(v.reason)
  {
    var ms := RowMembers(v);
    assert |"organ"| == 5 && |"keyid"| == 5 && |"payloadType"| == 11 && |"payload"| == 7 && |"signature"| == 9;
    assert |"verdict"| == 7 && |"reason"| == 6;
    assert "organ"[0] == 'o' && "keyid"[0] == 'k' && "payload"[0] == 'p' && "verdict"[0] == 'v';
    GetAt(ms, 0);
    GetAt(ms, 1);
    GetAt(ms, 2);
    GetAt(ms, 3);
    GetAt(ms, 4);
    GetAt(ms, 5);
    GetAt(ms, 6);
  }

  /** Rows survive the way into the receipt and out of it. */
  lemma ItemsSurvive(items: seq<Item>)
    ensures ItemsOf(ItemsJson(items)) == items
  {
    forall i | 0 <= i < |items| ensures ItemsOf(ItemsJson(items))[i] == items[i] {
      if items[i].Some? {
        RowFields(items[i].value);
      }
    }
  }

  /** No field of the row is the empty string. */
  predicate FilledIn(v: Row) {
    v.organ != "" && v.keyid != "" && v.payloadType != "" && v.payload != "" && v.signature != ""
  }

  lemma FilledRowFits(v: Row, keys: PublicKeys)
    requires FilledIn(v) && v.organ in keys
    ensures EntryFits(ItemJson(Some(v)), keys) && EntryOrgan(ItemJson(Some(v))) == v.organ
  {
    RowFields(v);
    FilledMembersFit(v, RowMembers(v), keys);
  }

  lemma FilledMembersFit(v: Row, ms: seq<Member>, keys: PublicKeys)
    requires FilledIn(v) && v.organ in keys
    requires Get(ms, "organ") == Str(v.organ) && Get(ms, "keyid") == Str(v.keyid)
    requires Get(ms, "payloadType") == Str(v.payloadType) && Get(ms, "payload") == Str(v.payload)
    requires Get(ms, "signature") == Str(v.signature)
    requires Get(ms, "verdict") == Str(v.verdict) && Get(ms, "reason") == Str(v.reason)
    ensures EntryFits(Obj(ms), keys) && EntryOrgan(Obj(ms)) == v.organ
  {
  }

  lemma SignedRowIsFilledIn(s: Statement, key: string, nonce: nat)
    requires s.organ != ""
    ensures FilledIn(SignVerdict(s, key, nonce))
  {
    BodyNotEmpty(s);
    Base64.DecodeOfEncode(Base64.Python, Body(s));
    Signatures.SignatureNotEmpty(key, SignedBytes(s), nonce);
    Base64.DecodeOfEncode(Base64.Python, Signatures.Sign(key, SignedBytes(s), nonce));
  }

  lemma CollectedIsFilledIn(w: Witness, actionHash: string, verdicts: map<string, string>, reason: string,
                            leanSha: string, draw: Draw)
    requires w.organ != ""
    ensures var item := SignOne(w, actionHash, verdicts, reason, leanSha, draw);
      item.Some? ==> FilledIn(item.value) && item.value.organ == w.organ
  {
    if w.privateKey.Some? {
      SignedRowIsFilledIn(Statement(w.organ, actionHash, Vote(verdicts, w.organ), reason, leanSha, draw.ts),
                          w.privateKey.value, draw.nonce);
    }
  }

  /** Filled-in rows, one per witness in order, are admitted. */
  lemma RowsAdmitted(ws: seq<Witness>, items: seq<Item>)
    requires DistinctOrgans(ws) && |items| == |ws|
    requires forall i | 0 <= i < |ws| && items[i].Some? ::
      FilledIn(items[i].value) && items[i].value.organ == ws[i].organ
    ensures ValidEntries(Arr(ItemsJson(items)), Pubkeys(ws), |ws|)
  {
    var xs, keys := ItemsJson(items), Pubkeys(ws);
    forall i | 0 <= i < |xs| ensures EntryFits(xs[i], keys) && (xs[i].Obj? ==> EntryOrgan(xs[i]) == ws[i].organ) {
      PubkeysAt(ws, i);
      if items[i].Some? {
        FilledRowFits(items[i].value, keys);
      }
    }
  }

  lemma CollectedAdmitted(roster: Roster, actionHash: string, verdicts: map<string, string>, reason: string,
                          leanSha: string, draws: nat -> Draw)
    requires ProperRoster(roster)
    ensures ValidEntries(Arr(ItemsJson(Collected(roster.witnesses, actionHash, verdicts, reason, leanSha, draws))),
                         Pubkeys(roster.witnesses), |roster.witnesses|)
  {
    var ws := roster.witnesses;
    var items := Collected(ws, actionHash, verdicts, reason, leanSha, draws);
    forall i | 0 <= i < |ws| && items[i].Some? ensures FilledIn(items[i].value) && items[i].value.organ == ws[i].organ {
      CollectedIsFilledIn(ws[i], actionHash, verdicts, reason, leanSha, draws(i));
    }
    RowsAdmitted(ws, items);
  }

  // ----- claims -----

  lemma PublicFields(w: Witness)
    ensures Get(Public(w), "organ") == Str(w.organ) && Get(Public(w), "public_key_pem") == Str(w.publicKeyPem)
  {
    var ms := Public(w);
    assert |"organ"| == 5 && |"keyid"| == 5 && |"region"| == 6 && |"org"| == 3 && |"endpoint"| == 8
      && |"public_key_pem"| == 14;
    assert "organ"[0] == 'o' && "keyid"[0] == 'k';
    GetAt(ms, 0);
    GetAt(ms, 5);
  }

  /** The public view of a proper registry claims exactly the registry's keys. */
  lemma ClaimsOfRoster(roster: Roster)
    requires ProperRoster(roster)
    ensures WellFormedClaims(WitnessesJson(roster.witnesses))
    ensures ClaimedKeys(WitnessesJson(roster.witnesses)) == Pubkeys(roster.witnesses)
  {
    var ws := roster.witnesses;
    forall i | 0 <= i < |ws|
      ensures WellFormedClaim(Obj(Public(ws[i])))
      ensures EntryOrgan(Obj(Public(ws[i]))) == ws[i].organ && ClaimedPem(Obj(Public(ws[i]))) == ws[i].publicKeyPem
    {
      PublicFields(ws[i]);
    }
    ClaimsByIndex(WitnessesJson(ws), ws);
  }

  lemma ClaimsByIndex(xs: seq<Json>, ws: seq<Witness>)
    requires DistinctOrgans(ws) && |xs| == |ws|
    requires forall i | 0 <= i < |xs| :: EntryOrgan(xs[i]) == ws[i].organ && ClaimedPem(xs[i]) == ws[i].publicKeyPem
    ensures DistinctClaims(xs) && ClaimedKeys(xs) == Pubkeys(ws)
  {
    forall o | o in Pubkeys(ws) ensures o in ClaimedKeys(xs) && ClaimedKeys(xs)[o] == Pubkeys(ws)[o] {
      var i :| 0 <= i < |ws| && ws[i].organ == o;
      PubkeysAt(ws, i);
      ClaimedKeyAt(xs, i);
    }
    forall o | o in ClaimedKeys(xs) ensures o in Pubkeys(ws) {
      var i :| 0 <= i < |xs| && EntryOrgan(xs[i]) == o;
      PubkeysAt(ws, i);
    }
    MapsEqual(Pubkeys(ws), ClaimedKeys(xs));
  }

  // ----- the round trip -----

  lemma ReceiptPassesGates(r: MultiWitnessReceipt, roster: Roster, p: Policy)
    requires ProperRoster(roster) && ValidPolicy(p) && TrustedKeys(p) == Pubkeys(roster.witnesses)
    requires p.threshold == roster.threshold == r.threshold && |p.dict| == |roster.witnesses| == r.n
    requires r.witnesses == roster.witnesses
    requires ValidEntries(Arr(ItemsJson(r.signatures)), TrustedKeys(p), |p.dict|)
    ensures Gates(ToDict(r), p) && SafeItems(ToDict(r), p) == r.signatures
  {
    FieldsAreFound(FieldsOf(r));
    ClaimsOfRoster(roster);
    ItemsSurvive(r.signatures);
    FieldsPassGates(ToDict(r), r, p);
  }

  lemma FieldsPassGates(ms: seq<Member>, r: MultiWitnessReceipt, p: Policy)
    requires ValidPolicy(p) && p.threshold == r.threshold && |p.dict| == r.n
    requires Get(ms, "schema") == Str(RECEIPT_SCHEMA)
    requires Get(ms, "threshold") == Int(r.threshold) && Get(ms, "n") == Int(r.n)
    requires Get(ms, "signatures") == Arr(ItemsJson(r.signatures))
      && Get(ms, "witnesses") == Arr(WitnessesJson(r.witnesses))
    requires WellFormedClaims(WitnessesJson(r.witnesses)) && ClaimedKeys(WitnessesJson(r.witnesses)) == TrustedKeys(p)
    requires ValidEntries(Arr(ItemsJson(r.signatures)), TrustedKeys(p), |p.dict|)
    requires ItemsOf(ItemsJson(r.signatures)) == r.signatures
    ensures Gates(ms, p) && SafeItems(ms, p) == r.signatures
  {
  }

  /**
   Round trip: for every proper registry and every override map, verifying the
   receipt of `attest` against that registry passes the three gates and reproduces its
   decision, count and checks, and the claimed decision is confirmed.
   */
  lemma AttestVerifies(sha256: Sha256, actionHash: string, roster: Roster, verdicts: map<string, string>,
                       reason: string, leanSha: string, draws: nat -> Draw)
    requires ProperRoster(roster)
    ensures var attested := Attested(actionHash, roster, verdicts, reason, leanSha, draws);
      var policy := ResolveTrustPolicy(None, None, Some(roster));
      && attested.Ok? && policy.Ok?
      && var r, v := attested.value, VerifyAgainst(sha256, ToDict(attested.value), policy.value);
      && v.schemaMatches && v.trustPolicyMatches && v.signaturesValid && v.matchesClaimedDecision
      && v.decision == r.decision && v.consensusCount == r.consensusCount && v.checks == r.checks
      && v.actionHash == Str(r.actionHash) && v.threshold == r.threshold && v.n == r.n
  {
    RegistryResolves(roster);
    var p := ResolveTrustPolicy(None, None, Some(roster)).value;
    var r := Attested(actionHash, roster, verdicts, reason, leanSha, draws).value;
    CollectedAdmitted(roster, actionHash, verdicts, reason, leanSha, draws);
    ReceiptPassesGates(r, roster, p);
    FieldsAreFound(FieldsOf(r));
  }

  /** End to end: a verified attestation is canonical exactly when at most `n - threshold` witnesses do not vote. */
  lemma VerifiedClosedForm(sha256: Sha256, actionHash: string, roster: Roster, verdicts: map<string, string>,
                           reason: string, leanSha: string, draws: nat -> Draw)
    requires ProperRoster(roster)
    ensures var attested := Attested(actionHash, roster, verdicts, reason, leanSha, draws);
      var policy := ResolveTrustPolicy(None, None, Some(roster));
      && attested.Ok? && policy.Ok?
      && (VerifyAgainst(sha256, ToDict(attested.value), policy.value).decision == Canonical
          <==> NonVoterCount(roster.witnesses, verdicts) <= |roster.witnesses| - roster.threshold)
  {
    AttestVerifies(sha256, actionHash, roster, verdicts, reason, leanSha, draws);
    AttestClosedForm(actionHash, roster, verdicts, reason, leanSha, draws);
  }
}
