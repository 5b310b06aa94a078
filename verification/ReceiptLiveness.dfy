/**
 Liveness through receipt verification: what enough honest witnesses have signed can
 always be put into a receipt that verifies, as long as no witness is listed twice.
 */
module ReceiptLiveness {
  import opened Wrappers
  import opened Digests
  import opened Json
  import opened Verdict
  import opened Tally
  import opened Counting
  import opened Witnesses
  import opened Receipts
  import opened ReceiptChecks
  import opened ReceiptTheorems
  import opened RoundTrip
  import Machine

  /** Witnesses with the names and keys of a trust policy. */
  function WitnessesOf(p: Policy): (ws: seq<Witness>)
    requires ValidPolicy(p)
    ensures |ws| == |p.dict|
    ensures forall i | 0 <= i < |ws| :: ws[i].organ == p.dict[i].key && ws[i].publicKeyPem == p.dict[i].value.s
  {
    seq(|p.dict|,
        i requires 0 <= i < |p.dict| => Witness(p.dict[i].key, p.dict[i].value.s, "unknown", "unknown", "", None))
  }

  lemma WitnessesOfPolicy(p: Policy)
    requires ValidPolicy(p)
    ensures ProperRoster(Roster(WitnessesOf(p), p.threshold)) && TrustedKeys(p) == Pubkeys(WitnessesOf(p))
  {
    var ws := WitnessesOf(p);
    assert PubkeyMembers(ws) == p.dict;
    KeysOfRegistry(ws, p);
  }

  /** A row that counts has no empty field. */
  lemma CountingRowIsFilledIn(actionHash: Json, v: Row, keys: PublicKeys)
    requires Counts(actionHash, Some(v), keys)
    ensures FilledIn(v)
  {
    CountsRow(actionHash, v, keys);
    CountsMeans(v, keys[v.organ], actionHash);
    WholeIsFilledIn(v, keys[v.organ]);
  }

  lemma WholeIsFilledIn(v: Row, pem: string)
    requires Whole(v, pem)
    ensures FilledIn(v)
  {
    assert |PAYLOAD_TYPE| > 0 && |v.keyid| == |v.organ| + |"-cosign"|;
  }

  /** One counting row from the pool for an honest allower, an abstention for anybody else. */
  predicate AnswersFor(s: Machine.State, actionHash: Json, w: Witness, item: Item) {
    && (item.Some? <==> w.organ in Machine.HonestAllowers(s, actionHash))
    && (item.Some? ==> item.value in s.pool && item.value.organ == w.organ && Counts(actionHash, item, s.keys))
  }

  predicate AllAnswer(s: Machine.State, actionHash: Json, ws: seq<Witness>, items: seq<Item>) {
    |items| == |ws| && forall i | 0 <= i < |ws| :: AnswersFor(s, actionHash, ws[i], items[i])
  }

  lemma AnswerOf(states: seq<Machine.State>, steps: seq<Machine.Step>, k: nat, actionHash: Json, w: Witness)
    returns (item: Item)
    requires Machine.IsRun(states, steps) && k < |states| && Machine.ProperKeys(states[k].keys)
    ensures AnswersFor(states[k], actionHash, w, item)
  {
    if w.organ in Machine.HonestAllowers(states[k], actionHash) {
      var row := Machine.HonestAllowerCounts(states, steps, k, w.organ, actionHash);
      item := Some(row);
    } else {
      item := None;
    }
  }

  ghost predicate HasAnswer(s: Machine.State, actionHash: Json, w: Witness) {
    exists item :: AnswersFor(s, actionHash, w, item)
  }

  lemma AnswersOf(states: seq<Machine.State>, steps: seq<Machine.Step>, k: nat, actionHash: Json, ws: seq<Witness>)
    returns (items: seq<Item>)
    requires Machine.IsRun(states, steps) && k < |states| && Machine.ProperKeys(states[k].keys)
    ensures AllAnswer(states[k], actionHash, ws, items)
  {
    var s := states[k];
    forall i | 0 <= i < |ws| ensures HasAnswer(s, actionHash, ws[i]) {
      var item := AnswerOf(states, steps, k, actionHash, ws[i]);
    }
    items := PickAnswers(s, actionHash, ws);
  }

  lemma PickAnswers(s: Machine.State, actionHash: Json, ws: seq<Witness>) returns (items: seq<Item>)
    requires forall i | 0 <= i < |ws| :: HasAnswer(s, actionHash, ws[i])
    ensures AllAnswer(s, actionHash, ws, items)
  {
    items := seq(|ws|, i requires 0 <= i < |ws| =>
                   assert HasAnswer(s, actionHash, ws[i]);
                   var item :| AnswersFor(s, actionHash, ws[i], item); item);
  }

  lemma AnswersAdmitted(s: Machine.State, actionHash: Json, ws: seq<Witness>, items: seq<Item>)
    requires DistinctOrgans(ws) && AllAnswer(s, actionHash, ws, items)
    ensures ValidEntries(Arr(ItemsJson(items)), Pubkeys(ws), |ws|)
  {
    forall i | 0 <= i < |ws| && items[i].Some? ensures FilledIn(items[i].value) && items[i].value.organ == ws[i].organ {
      assert AnswersFor(s, actionHash, ws[i], items[i]);
      CountingRowIsFilledIn(actionHash, items[i].value, s.keys);
    }
    RowsAdmitted(ws, items);
  }

  lemma AllowersAnswer(s: Machine.State, actionHash: Json, ws: seq<Witness>, items: seq<Item>)
    requires AllAnswer(s, actionHash, ws, items) && s.keys.Keys <= Names(ws)
    ensures Machine.HonestAllowers(s, actionHash) <= CountingOrgans(actionHash, items, s.keys)
  {
    forall o | o in Machine.HonestAllowers(s, actionHash) ensures o in CountingOrgans(actionHash, items, s.keys) {
      var i :| 0 <= i < |ws| && ws[i].organ == o;
      assert AnswersFor(s, actionHash, ws[i], items[i]);
      assert items[i] in items;
    }
  }

  /** The receipt of these answers. */
  function ReceiptOf(h: string, p: Policy, items: seq<Item>): MultiWitnessReceipt
    requires ValidPolicy(p)
  {
    MultiWitnessReceipt(h, p.threshold, |p.dict|, Canonical, 0, "", items, [], WitnessesOf(p))
  }

  /**
   Liveness through `verify_receipt`: once the trusted threshold of uncompromised
   witnesses has signed `allow`, some receipt drawn from the wire verifies as canonical.
   */
  lemma ReceiptLives(states: seq<Machine.State>, steps: seq<Machine.Step>, k: nat, sha256: Sha256, h: string, p: Policy)
    returns (receipt: seq<Member>)
    requires Machine.IsRun(states, steps) && k < |states|
    requires ValidPolicy(p) && TrustedKeys(p) == states[k].keys
    requires |Machine.HonestAllowers(states[k], Str(h))| >= p.threshold
    ensures Machine.Drawn(SafeItems(receipt, p), states[k].pool) && Get(receipt, "action_hash") == Str(h)
    ensures VerifyAgainst(sha256, receipt, p).decision == Canonical
  {
    var s, ws := states[k], WitnessesOf(p);
    WitnessesOfPolicy(p);
    forall o | o in s.keys ensures o != "" && s.keys[o] != "" {
      TrustedKeyNotEmpty(p, o);
    }
    var items := AnswersOf(states, steps, k, Str(h), ws);
    AnswersAdmitted(s, Str(h), ws, items);
    var r := ReceiptOf(h, p, items);
    receipt := ToDict(r);
    ReceiptPassesGates(r, Roster(ws, p.threshold), p);
    FieldsAreFound(FieldsOf(r));
    PubkeysSize(ws);
    AllowersAnswer(s, Str(h), ws, items);
    AnswersAreDrawn(s, Str(h), ws, items);
    EnoughVouched(sha256, receipt, p, Machine.HonestAllowers(s, Str(h)));
  }

  lemma AnswersAreDrawn(s: Machine.State, actionHash: Json, ws: seq<Witness>, items: seq<Item>)
    requires AllAnswer(s, actionHash, ws, items)
    ensures Machine.Drawn(items, s.pool)
  {
    forall i | 0 <= i < |items| && items[i].Some? ensures items[i].value in s.pool {
      assert AnswersFor(s, actionHash, ws[i], items[i]);
    }
  }

  lemma EnoughVouched(sha256: Sha256, receipt: seq<Member>, p: Policy, organs: set<string>)
    requires ValidPolicy(p) && Gates(receipt, p) && |organs| >= p.threshold
    requires organs <= CountingOrgans(Get(receipt, "action_hash"), SafeItems(receipt, p), TrustedKeys(p))
    ensures VerifyAgainst(sha256, receipt, p).decision == Canonical
  {
    VouchedAreCounted(receipt, p);
    SubsetSize(organs, VouchedOrgans(receipt, p));
    CanonicalExactly(sha256, receipt, p);
  }

  /** The price of admission: one more row for an organ that is already listed, and the receipt is rejected. */
  lemma ExtraRowRejects(sha256: Sha256, receipt: seq<Member>, p: Policy, items: seq<Json>, extra: Json, i: nat)
    requires ValidPolicy(p) && Get(receipt, "signatures") == Arr(items + [extra])
    requires i < |items| && items[i].Obj? && extra.Obj? && EntryOrgan(items[i]) == EntryOrgan(extra)
    ensures var v := VerifyAgainst(sha256, receipt, p);
      !v.signaturesValid && v.decision == Rejected && v.consensusCount == 0 && !v.matchesClaimedDecision
  {
    var all := items + [extra];
    assert all[i] == items[i] && all[|items|] == extra;
    assert !EntriesFit(all, TrustedKeys(p));
    NothingCounts(Get(receipt, "action_hash"), TrustedKeys(p));
  }

  lemma NothingCounts(actionHash: Json, keys: PublicKeys)
    ensures CountingOrgans(actionHash, [], keys) == {}
  {
  }
}
