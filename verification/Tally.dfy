/**
 The tally and its three Python relatives. The specification speaks of the set of
 organs that have a counting row; every loop is proved against it.
 */
module Tally {
  import opened Wrappers
  import opened Json
  import opened Verdict
  import opened Counting

  /** One entry of a verdict list; `None` is an abstention or a time-out. */
  type Item = Option<Row>

  /** Published keys, organ to PEM text. */
  type PublicKeys = map<string, string>

  datatype Decision = Canonical | Rejected

  datatype ConsensusResult = ConsensusResult(
    actionHash: Json,
    threshold: int,
    n: int,
    consensusCount: nat,
    decision: Decision,
    checks: seq<OrganCheck>)

  predicate ValidQuorumCounts(threshold: int, n: int) {
    1 <= threshold <= n
  }

  // ----- specification -----

  const ABSTENTION := OrganCheck(None, None, false, Null, false, false, Abstained)

  /** What one entry amounts to on its own, before any deduplication. */
  function CheckItem(actionHash: Json, item: Item, keys: PublicKeys): (chk: OrganCheck)
    ensures chk.counts ==> item.Some? && item.value.organ in keys && chk.organ == Some(item.value.organ)
    ensures OwnCheck(chk)
  {
    match item
    case None => ABSTENTION
    case Some(v) =>
      if v.organ !in keys || keys[v.organ] == "" then Refuse(v, NoPublicKey)
      else VerifyVerdict(v, keys[v.organ], actionHash)
  }

  predicate Counts(actionHash: Json, item: Item, keys: PublicKeys)
    ensures Counts(actionHash, item, keys) ==> item.Some? && item.value.organ in keys
  {
    CheckItem(actionHash, item, keys).counts
  }

  /** The check of one entry, as a value. */
  function Checker(actionHash: Json, keys: PublicKeys): Item -> OrganCheck {
    item => CheckItem(actionHash, item, keys)
  }

  function CheckAll(actionHash: Json, items: seq<Item>, keys: PublicKeys): (own: seq<OrganCheck>)
    ensures |own| == |items|
    ensures forall i | 0 <= i < |items| :: own[i] == CheckItem(actionHash, items[i], keys)
    ensures OwnChecks(own)
  {
    Checked(Checker(actionHash, keys), items)
  }

  /** The organs with at least one row that verifies as `allow` over exactly this action. */
  function CountingOrgans(actionHash: Json, items: seq<Item>, keys: PublicKeys): set<string> {
    set item | item in items && Counts(actionHash, item, keys) :: item.value.organ
  }

  function Decide(count: int, threshold: int): Decision {
    if count >= threshold then Canonical else Rejected
  }

  /** Distinct witnesses against the threshold, whatever the threshold is. */
  function DistinctResult(actionHash: Json, items: seq<Item>, keys: PublicKeys, threshold: int,
                          n: int): ConsensusResult {
    var count := |CountingOrgans(actionHash, items, keys)|;
    ConsensusResult(actionHash, threshold, n, count, Decide(count, threshold),
                    Recorded(CheckAll(actionHash, items, keys)))
  }

  /** The distinct organs of a list of checks against the threshold. */
  function Counted(actionHash: Json, own: seq<OrganCheck>, threshold: int, n: int): ConsensusResult {
    ConsensusResult(actionHash, threshold, n, |Organs(own)|, Decide(|Organs(own)|, threshold), Recorded(own))
  }

  function RejectedUnread(actionHash: Json, threshold: int, n: int): ConsensusResult {
    ConsensusResult(actionHash, threshold, n, 0, Rejected, [])
  }

  /** The shipped tally: invalid quorum counts reject before any row is looked at. */
  function TallyResult(actionHash: Json, items: seq<Item>, keys: PublicKeys, threshold: int, n: int): ConsensusResult {
    if ValidQuorumCounts(threshold, n) then DistinctResult(actionHash, items, keys, threshold, n)
    else RejectedUnread(actionHash, threshold, n)
  }

  /** The organs counted in a list of checks are the organs of the specification. */
  lemma OrgansOfChecks(actionHash: Json, items: seq<Item>, keys: PublicKeys)
    ensures Organs(CheckAll(actionHash, items, keys)) == CountingOrgans(actionHash, items, keys)
  {
  }

  // ----- the tallies -----

  /** `tally` of the Python package. */
  method Tally(actionHash: Json, verdicts: seq<Item>, pubkeys: PublicKeys, threshold: int, n: int)
    returns (r: ConsensusResult)
    ensures r == TallyResult(actionHash, verdicts, pubkeys, threshold, n)
  {
    if !ValidQuorumCounts(threshold, n) {
      return RejectedUnread(actionHash, threshold, n);
    }
    ghost var own := CheckAll(actionHash, verdicts, pubkeys);
    var count, checks := CountDistinct(Checker(actionHash, pubkeys), verdicts);
    OrgansOfChecks(actionHash, verdicts, pubkeys);
    r := ConsensusResult(actionHash, threshold, n, count, Decide(count, threshold), checks);
  }

  /** `distinct_witness_tally`: the hardened reference, with no check of the quorum counts. */
  method DistinctWitnessTally(actionHash: Json, verdicts: seq<Item>, pubkeys: PublicKeys, threshold: int, n: int)
    returns (r: ConsensusResult)
    ensures r == DistinctResult(actionHash, verdicts, pubkeys, threshold, n)
  {
    ghost var own := CheckAll(actionHash, verdicts, pubkeys);
    var count, checks := CountDistinct(Checker(actionHash, pubkeys), verdicts);
    OrgansOfChecks(actionHash, verdicts, pubkeys);
    r := ConsensusResult(actionHash, threshold, n, count, Decide(count, threshold), checks);
  }

  /** `honest_allow_count`: the oracle counts exactly the set of the specification. */
  method HonestAllowCount(actionHash: Json, verdicts: seq<Item>, pubkeys: PublicKeys) returns (c: nat)
    ensures c == |CountingOrgans(actionHash, verdicts, pubkeys)|
  {
    ghost var own := CheckAll(actionHash, verdicts, pubkeys);
    c := CountOrgans(Checker(actionHash, pubkeys), verdicts);
    OrgansOfChecks(actionHash, verdicts, pubkeys);
  }

  function NaiveResult(actionHash: Json, items: seq<Item>, keys: PublicKeys, threshold: int, n: int): ConsensusResult {
    var own := CheckAll(actionHash, items, keys);
    ConsensusResult(actionHash, threshold, n, CountingRows(own), Decide(CountingRows(own), threshold), own)
  }

  /** `naive_perverdict_tally`: the historical counter without deduplication. */
  method NaivePerVerdictTally(actionHash: Json, verdicts: seq<Item>, pubkeys: PublicKeys, threshold: int, n: int)
    returns (r: ConsensusResult)
    ensures r == NaiveResult(actionHash, verdicts, pubkeys, threshold, n)
  {
    ghost var own := CheckAll(actionHash, verdicts, pubkeys);
    var count, checks := CountRows(Checker(actionHash, pubkeys), verdicts);
    r := ConsensusResult(actionHash, threshold, n, count, Decide(count, threshold), checks);
  }

  lemma CountsRow(actionHash: Json, v: Row, keys: PublicKeys)
    ensures Counts(actionHash, Some(v), keys) <==>
      v.organ in keys && keys[v.organ] != "" && VerifyVerdict(v, keys[v.organ], actionHash).counts
  {
  }

  /** A signed row counts exactly when its organ is registered under the signing key and it allows this action. */
  lemma SignedRowCounts(actionHash: Json, s: Statement, key: string, nonce: nat, keys: PublicKeys)
    ensures Counts(actionHash, Some(SignVerdict(s, key, nonce)), keys) <==>
      && s.organ in keys && keys[s.organ] == key && s.organ != "" && key != ""
      && actionHash == Str(s.actionHash) && s.verdict == "allow"
  {
    CountsRow(actionHash, SignVerdict(s, key, nonce), keys);
    if s.organ in keys {
      VerifyOfSign(s, key, nonce, keys[s.organ], actionHash);
    }
  }

  // ----- safety of one round -----

  /** `safety_holds`: canonical only with enough distinct genuine witnesses. */
  predicate SafetyHolds(r: ConsensusResult, honest: int, threshold: int) {
    !(r.decision == Canonical && honest < threshold)
  }

  /**
   The shipped tally passes the operational safety check on all inputs, and is
   canonical exactly when the quorum counts are valid and enough distinct organs count.
   */
  lemma TallyIsSafe(actionHash: Json, items: seq<Item>, keys: PublicKeys, threshold: int, n: int)
    ensures var honest := |CountingOrgans(actionHash, items, keys)|;
      var r := TallyResult(actionHash, items, keys, threshold, n);
      && SafetyHolds(r, honest, threshold)
      && SafetyHolds(DistinctResult(actionHash, items, keys, threshold, n), honest, threshold)
      && (r.decision == Canonical <==> ValidQuorumCounts(threshold, n) && honest >= threshold)
      && (ValidQuorumCounts(threshold, n) ==> r.consensusCount == honest)
  {
  }

  /** What a canonical decision rests on. */
  lemma CanonicalHasQuorum(actionHash: Json, items: seq<Item>, keys: PublicKeys, threshold: int, n: int)
    requires TallyResult(actionHash, items, keys, threshold, n).decision == Canonical
    ensures ValidQuorumCounts(threshold, n) && |CountingOrgans(actionHash, items, keys)| >= threshold
  {
  }

  /** The hardened tally and the shipped one differ exactly when the quorum counts are invalid and it shows. */
  lemma DistinctIsTallyExactly(actionHash: Json, items: seq<Item>, keys: PublicKeys, threshold: int, n: int)
    ensures DistinctResult(actionHash, items, keys, threshold, n) == TallyResult(actionHash, items, keys, threshold, n)
      <==> ValidQuorumCounts(threshold, n) || (items == [] && threshold >= 1)
  {
  }

  /** Under valid quorum counts, the naive count exceeds the tally's by the rows that the tally marks. */
  lemma NaiveGap(actionHash: Json, items: seq<Item>, keys: PublicKeys, threshold: int, n: int)
    requires ValidQuorumCounts(threshold, n)
    ensures NaiveResult(actionHash, items, keys, threshold, n).consensusCount
         == TallyResult(actionHash, items, keys, threshold, n).consensusCount
            + DuplicateMarks(TallyResult(actionHash, items, keys, threshold, n).checks)
  {
    Gap(CheckAll(actionHash, items, keys));
    OrgansOfChecks(actionHash, items, keys);
  }

  /**
   The naive counter breaks safety exactly when duplicates carry it over a threshold
   that the witnesses do not reach; then some organ has two counting rows.
   */
  lemma NaiveFalseCanonical(actionHash: Json, items: seq<Item>, keys: PublicKeys, threshold: int, n: int)
    ensures var honest := |CountingOrgans(actionHash, items, keys)|;
      var marks := DuplicateMarks(Recorded(CheckAll(actionHash, items, keys)));
      !SafetyHolds(NaiveResult(actionHash, items, keys, threshold, n), honest, threshold)
      <==> honest < threshold <= honest + marks
    ensures !SafetyHolds(NaiveResult(actionHash, items, keys, threshold, n),
                         |CountingOrgans(actionHash, items, keys)|, threshold)
      ==> exists i, j :: 0 <= j < i < |items| && SameOrganCountsTwice(actionHash, items, keys, i, j)
  {
    var own := CheckAll(actionHash, items, keys);
    Gap(own);
    OrgansOfChecks(actionHash, items, keys);
    if DuplicateMarks(Recorded(own)) > 0 {
      var i, j := MarkNeedsTwoRows(own);
      assert SameOrganCountsTwice(actionHash, items, keys, i, j);
    }
  }

  /** Some organ has two rows that count. */
  predicate SomeOrganCountsTwice(actionHash: Json, items: seq<Item>, keys: PublicKeys) {
    exists i, j :: 0 <= j < i < |items| && SameOrganCountsTwice(actionHash, items, keys, i, j)
  }

  /** No organ has two rows at all, which can be seen without any key. */
  predicate OneRowEach(items: seq<Item>) {
    forall i, j | 0 <= j < i < |items| && items[i].Some? && items[j].Some? ::
      items[i].value.organ != items[j].value.organ
  }

  /** When no organ counts twice, the naive counter and the hardened one return the same result. */
  lemma NaiveIsDistinct(actionHash: Json, items: seq<Item>, keys: PublicKeys, threshold: int, n: int)
    requires !SomeOrganCountsTwice(actionHash, items, keys)
    ensures NaiveResult(actionHash, items, keys, threshold, n) == DistinctResult(actionHash, items, keys, threshold, n)
  {
    var own := CheckAll(actionHash, items, keys);
    forall i, j | 0 <= j < i < |own| && own[i].counts && own[j].counts ensures own[i].organ != own[j].organ {
      assert !SameOrganCountsTwice(actionHash, items, keys, i, j);
    }
    NoRepeatsNoGap(own);
    OrgansOfChecks(actionHash, items, keys);
  }

  lemma OneRowEachIsSafe(actionHash: Json, items: seq<Item>, keys: PublicKeys, threshold: int, n: int)
    requires OneRowEach(items)
    ensures NaiveResult(actionHash, items, keys, threshold, n) == DistinctResult(actionHash, items, keys, threshold, n)
  {
    NaiveIsDistinct(actionHash, items, keys, threshold, n);
  }

  lemma {:induction false} MarkedRowIsMarked(checks: seq<OrganCheck>, i: nat)
    requires i < |checks| && checks[i].reason == DuplicateWitness
    ensures DuplicateMarks(checks) > 0
  {
    if i < |checks| - 1 {
      MarkedRowIsMarked(checks[..|checks| - 1], i);
    }
  }

  /** The naive counter is safe at every threshold if and only if no organ counts twice. */
  lemma NaiveSafeExactly(actionHash: Json, items: seq<Item>, keys: PublicKeys)
    ensures (forall threshold, n :: SafetyHolds(NaiveResult(actionHash, items, keys, threshold, n),
                                                |CountingOrgans(actionHash, items, keys)|, threshold))
       <==> !SomeOrganCountsTwice(actionHash, items, keys)
  {
    var honest := |CountingOrgans(actionHash, items, keys)|;
    if SomeOrganCountsTwice(actionHash, items, keys) {
      var i, j :| 0 <= j < i < |items| && SameOrganCountsTwice(actionHash, items, keys, i, j);
      RepeatIsMarked(actionHash, items, keys, i, j);
      NaiveFalseCanonical(actionHash, items, keys, honest + 1, honest + 1);
      assert !SafetyHolds(NaiveResult(actionHash, items, keys, honest + 1, honest + 1), honest, honest + 1);
    } else {
      forall threshold, n ensures SafetyHolds(NaiveResult(actionHash, items, keys, threshold, n), honest, threshold) {
        NaiveIsDistinct(actionHash, items, keys, threshold, n);
      }
    }
  }

  lemma RepeatIsMarked(actionHash: Json, items: seq<Item>, keys: PublicKeys, i: nat, j: nat)
    requires j < i < |items| && SameOrganCountsTwice(actionHash, items, keys, i, j)
    ensures DuplicateMarks(Recorded(CheckAll(actionHash, items, keys))) > 0
  {
    var own := CheckAll(actionHash, items, keys);
    assert IsDuplicate(own, i);
    MarkedRowIsMarked(Recorded(own), i);
  }

  predicate SameOrganCountsTwice(actionHash: Json, items: seq<Item>, keys: PublicKeys, i: int, j: int)
    requires 0 <= j < i < |items|
  {
    && Counts(actionHash, items[i], keys) && Counts(actionHash, items[j], keys)
    && items[i].value.organ == items[j].value.organ
  }

  // ----- the tally is a function of the set of rows -----

  /** Order and repetition of rows change neither the counted organs, nor the count, nor the decision. */
  lemma TallyOfSameRows(actionHash: Json, items: seq<Item>, items': seq<Item>, keys: PublicKeys, threshold: int, n: int)
    requires forall item :: item in items <==> item in items'
    ensures CountingOrgans(actionHash, items, keys) == CountingOrgans(actionHash, items', keys)
    ensures var r := TallyResult(actionHash, items, keys, threshold, n);
      var r' := TallyResult(actionHash, items', keys, threshold, n);
      r.consensusCount == r'.consensusCount && r.decision == r'.decision
  {
  }

  /** More rows never lower the count or undo a canonical decision, and the count never exceeds the registry. */
  lemma TallyMonotone(actionHash: Json, items: seq<Item>, more: seq<Item>, keys: PublicKeys, threshold: int, n: int)
    ensures var r := TallyResult(actionHash, items, keys, threshold, n);
      var r' := TallyResult(actionHash, items + more, keys, threshold, n);
      && r.consensusCount <= r'.consensusCount <= |keys|
      && (r.decision == Canonical ==> r'.decision == Canonical)
  {
    var a, b := CountingOrgans(actionHash, items, keys), CountingOrgans(actionHash, items + more, keys);
    SubsetSize(a, b);
    SubsetSize(b, keys.Keys);
  }

  /** Any two canonical rounds over the same registry share at least `2 * threshold - |registry|` counting organs. */
  lemma QuorumsIntersect(actionA: Json, itemsA: seq<Item>, actionB: Json, itemsB: seq<Item>, keys: PublicKeys,
                         threshold: int, n: int)
    requires TallyResult(actionA, itemsA, keys, threshold, n).decision == Canonical
    requires TallyResult(actionB, itemsB, keys, threshold, n).decision == Canonical
    ensures |CountingOrgans(actionA, itemsA, keys) * CountingOrgans(actionB, itemsB, keys)| >= 2 * threshold - |keys|
  {
    Intersection(CountingOrgans(actionA, itemsA, keys), CountingOrgans(actionB, itemsB, keys), keys.Keys);
  }
}
