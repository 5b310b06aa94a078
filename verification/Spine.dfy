/** Folding a consensus receipt onto the governance spine: projections, counting witnesses, rebinding. */
module Spine {
  import opened Wrappers
  import opened Digests
  import opened Json
  import opened JsonText
  import opened Verdict
  import opened Tally
  import opened Counting
  import opened Witnesses
  import opened Receipts
  import opened ReceiptChecks
  import opened ReceiptTheorems
  import opened RoundTrip

  // ----- projections -----

  /** Everything the outcome depends on. */
  function ConsensusInput(receipt: seq<Member>): seq<Member> {
    InputMembers(Get(receipt, "action_hash"), Get(receipt, "threshold"), Get(receipt, "n"), Get(receipt, "signatures"),
                 Get(receipt, "witnesses"))
  }

  function InputMembers(actionHash: Json, threshold: Json, n: Json, signatures: Json, witnesses: Json): seq<Member> {
    [ Member("action_hash", actionHash), Member("threshold", threshold), Member("n", n),
      Member("signatures", signatures), Member("witnesses", witnesses) ]
  }

  /** The agreed value. */
  function ConsensusOutput(receipt: seq<Member>): seq<Member> {
    OutputMembers(Get(receipt, "decision"), Get(receipt, "consensus_count"), Get(receipt, "khipu_consensus"),
                  Get(receipt, "checks"))
  }

  function OutputMembers(decision: Json, count: Json, khipu: Json, checks: Json): seq<Member> {
    [ Member("decision", decision), Member("consensus_count", count), Member("khipu_consensus", khipu),
      Member("checks", checks) ]
  }

  /** Tallies an input projection again and projects the result. */
  function Retally(input: seq<Member>): seq<Member>
    requires Get(input, "threshold").Int? && Get(input, "n").Int?
    requires Get(input, "signatures").Arr? && Get(input, "witnesses").Arr?
  {
    var n := Get(input, "n").n;
    var r := TallyResult(Get(input, "action_hash"), ItemsOf(Get(input, "signatures").items),
                         ClaimedKeys(Get(input, "witnesses").items), Get(input, "threshold").n, n);
    OutputMembers(Str(DecisionText(r.decision)), Int(r.consensusCount), Str(KhipuConsensus(r.consensusCount, n)),
                  Arr(ChecksJson(r.checks)))
  }

  lemma InputFields(receipt: seq<Member>)
    ensures var ms := ConsensusInput(receipt);
      && DistinctKeys(ms)
      && Get(ms, "action_hash") == Get(receipt, "action_hash") && Get(ms, "threshold") == Get(receipt, "threshold")
      && Get(ms, "n") == Get(receipt, "n") && Get(ms, "signatures") == Get(receipt, "signatures")
      && Get(ms, "witnesses") == Get(receipt, "witnesses")
  {
    var ms := ConsensusInput(receipt);
    assert |"action_hash"| == 11 && |"threshold"| == 9 && |"n"| == 1 && |"signatures"| == 10 && |"witnesses"| == 9;
    assert "threshold"[0] == 't' && "witnesses"[0] == 'w';
    GetAt(ms, 0);
    GetAt(ms, 1);
    GetAt(ms, 2);
    GetAt(ms, 3);
    GetAt(ms, 4);
  }

  /** The public view of any registry claims exactly its keys. */
  lemma ClaimedKeysOfWitnesses(ws: seq<Witness>)
    requires DistinctOrgans(ws)
    ensures ClaimedKeys(WitnessesJson(ws)) == Pubkeys(ws)
  {
    var xs := WitnessesJson(ws);
    forall i | 0 <= i < |ws| ensures EntryOrgan(xs[i]) == ws[i].organ && ClaimedPem(xs[i]) == ws[i].publicKeyPem {
      PublicFields(ws[i]);
    }
    ClaimsByIndex(xs, ws);
  }

  /** The input projection determines the output: tallying it again reproduces what `attest` recorded. */
  lemma RetallyReproduces(actionHash: string, roster: Roster, verdicts: map<string, string>, reason: string,
                          leanSha: string, draws: nat -> Draw)
    requires DistinctOrgans(roster.witnesses) && ValidQuorumCounts(roster.threshold, |roster.witnesses|)
    ensures var r := Attested(actionHash, roster, verdicts, reason, leanSha, draws);
      && r.Ok?
      && var input := ConsensusInput(ToDict(r.value));
      && Get(input, "threshold").Int? && Get(input, "n").Int? && Get(input, "signatures").Arr?
      && Get(input, "witnesses").Arr?
      && Retally(input) == ConsensusOutput(ToDict(r.value))
  {
    var r := Attested(actionHash, roster, verdicts, reason, leanSha, draws).value;
    RetallyOfReceipt(r,
                     TallyResult(Str(actionHash), r.signatures, Pubkeys(roster.witnesses), roster.threshold,
                                 |roster.witnesses|));
  }

  lemma RetallyOfReceipt(r: MultiWitnessReceipt, result: ConsensusResult)
    requires DistinctOrgans(r.witnesses) && r.n == |r.witnesses|
    requires result == TallyResult(Str(r.actionHash), r.signatures, Pubkeys(r.witnesses), r.threshold, r.n)
    requires r.decision == result.decision && r.consensusCount == result.consensusCount && r.checks == result.checks
    requires r.khipuConsensus == KhipuConsensus(r.consensusCount, r.n)
    ensures var input := ConsensusInput(ToDict(r));
      && Get(input, "threshold").Int? && Get(input, "n").Int? && Get(input, "signatures").Arr?
      && Get(input, "witnesses").Arr?
      && Retally(input) == ConsensusOutput(ToDict(r))
  {
    FieldsAreFound(FieldsOf(r));
    InputFields(ToDict(r));
    ItemsSurvive(r.signatures);
    ClaimedKeysOfWitnesses(r.witnesses);
  }

  // ----- counting witnesses -----

  /** Python's truth value of a decoded JSON value. */
  predicate Truthy(v: Json) {
    match v
    case Null => false
    case Bool(b) => b
    case Int(n) => n != 0
    case Str(s) => s != ""
    case Arr(items) => items != []
    case Obj(ms) => ms != []
  }

  datatype SpineError = NotAListOfChecks

  function WitnessEntry(organ: Json, keyid: Json): Json {
    Obj([Member("organ", organ), Member("keyid", keyid)])
  }

  /** What one check adds to the list: its organ and key id when it counts. */
  function EntryOf(x: Json): seq<Json> {
    if x.Obj? && Truthy(Get(x.members, "counts")) then [WitnessEntry(Get(x.members, "organ"), Get(x.members, "keyid"))]
    else []
  }

  function CountingOf(items: seq<Json>): seq<Json> {
    if items == [] then [] else EntryOf(items[0]) + CountingOf(items[1..])
  }

  lemma {:induction false} CountingOfSnoc(items: seq<Json>, i: nat)
    requires i < |items|
    ensures CountingOf(items[..i + 1]) == CountingOf(items[..i]) + EntryOf(items[i])
  {
    if i == 0 {
      assert items[..1] == [items[0]];
    } else {
      CountingOfSnoc(items[1..], i - 1);
      assert items[..i + 1][1..] == items[1..][..i] && items[..i][1..] == items[1..][..i - 1];
    }
  }

  predicate AllObjects(items: seq<Json>) {
    forall i | 0 <= i < |items| :: items[i].Obj?
  }

  /** The counting witnesses of a receipt: a falsy list is empty, and what is no list of objects raises. */
  function CountingList(receipt: seq<Member>): Result<seq<Json>, SpineError> {
    var checks := Get(receipt, "checks");
    if !Truthy(checks) then Ok([])
    else if checks.Arr? && AllObjects(checks.items) then Ok(CountingOf(checks.items))
    else Err(NotAListOfChecks)
  }

  /** `_counting_witnesses`. */
  method CountingWitnesses(receipt: seq<Member>) returns (r: Result<seq<Json>, SpineError>)
    ensures r == CountingList(receipt)
  {
    var checks := Get(receipt, "checks");
    if !Truthy(checks) {
      return Ok([]);
    }
    if !checks.Arr? {
      return Err(NotAListOfChecks);
    }
    r := CollectCounting(checks.items);
  }

  /** The loop of `_counting_witnesses`. */
  method CollectCounting(items: seq<Json>) returns (r: Result<seq<Json>, SpineError>)
    ensures r == if AllObjects(items) then Ok(CountingOf(items)) else Err(NotAListOfChecks)
  {
    var out: seq<Json> := [];
    for i := 0 to |items|
      invariant out == CountingOf(items[..i]) && forall j | 0 <= j < i :: items[j].Obj?
    {
      if !items[i].Obj? {
        return Err(NotAListOfChecks);
      }
      CountingOfSnoc(items, i);
      var c := items[i].members;
      if Truthy(Get(c, "counts")) {
        out := out + [WitnessEntry(Get(c, "organ"), Get(c, "keyid"))];
      }
    }
    assert items[..|items|] == items;
    r := Ok(out);
  }

  /** The voting witnesses of a registry, in registry order. */
  function Voting(ws: seq<Witness>, verdicts: map<string, string>): (r: seq<Witness>)
    ensures |r| == |ws| - NonVoterCount(ws, verdicts)
    ensures forall w | w in r :: w in ws && Votes(w, verdicts)
  {
    if ws == [] then []
    else if Votes(ws[0], verdicts) then [ws[0]] + Voting(ws[1..], verdicts)
    else Voting(ws[1..], verdicts)
  }

  lemma {:induction false} VotingDistinct(ws: seq<Witness>, verdicts: map<string, string>)
    requires DistinctOrgans(ws)
    ensures DistinctOrgans(Voting(ws, verdicts))
  {
    if ws != [] {
      VotingDistinct(ws[1..], verdicts);
      assert forall w | w in ws[1..] :: w.organ != ws[0].organ;
    }
  }

  function EntriesFor(ws: seq<Witness>): (r: seq<Json>)
    ensures |r| == |ws|
    ensures forall i | 0 <= i < |ws| :: r[i] == WitnessEntry(Str(ws[i].organ), Str(Keyid(ws[i].organ)))
  {
    if ws == [] then [] else [WitnessEntry(Str(ws[0].organ), Str(Keyid(ws[0].organ)))] + EntriesFor(ws[1..])
  }

  lemma CheckFields(c: OrganCheck)
    ensures CheckJson(c).Obj?
    ensures var ms := CheckJson(c).members;
      Get(ms, "organ") == OptionalJson(c.organ) && Get(ms, "keyid") == OptionalJson(c.keyid)
      && Get(ms, "counts") == Bool(c.counts)
  {
    var ms := CheckJson(c).members;
    assert |"organ"| == 5 && |"keyid"| == 5 && |"valid"| == 5 && |"verdict"| == 7 && |"action_hash_match"| == 17;
    assert |"counts"| == 6 && |"reason"| == 6;
    assert "organ"[0] == 'o' && "keyid"[0] == 'k' && "valid"[0] == 'v' && "counts"[0] == 'c' && "reason"[0] == 'r';
    GetAt(ms, 0);
    GetAt(ms, 1);
    GetAt(ms, 5);
  }

  /** Check `c` is what a tally records for witness `w`. */
  predicate Matches(c: OrganCheck, w: Witness, verdicts: map<string, string>) {
    (c.counts <==> Votes(w, verdicts)) && (c.counts ==> c.organ == Some(w.organ) && c.keyid == Some(Keyid(w.organ)))
  }

  lemma EntryOfCheck(c: OrganCheck, w: Witness, verdicts: map<string, string>)
    requires Matches(c, w, verdicts)
    ensures EntryOf(CheckJson(c)) == EntriesFor(if Votes(w, verdicts) then [w] else [])
  {
    CheckFields(c);
  }

  lemma EntriesForCons(w: Witness, ws: seq<Witness>)
    ensures EntriesFor([w] + ws) == EntriesFor([w]) + EntriesFor(ws)
  {
  }

  lemma {:induction false} CountingOfChecks(checks: seq<OrganCheck>, ws: seq<Witness>, verdicts: map<string, string>)
    requires |checks| == |ws| && forall i | 0 <= i < |ws| :: Matches(checks[i], ws[i], verdicts)
    ensures CountingOf(ChecksJson(checks)) == EntriesFor(Voting(ws, verdicts))
  {
    if ws != [] {
      CountingOfChecks(checks[1..], ws[1..], verdicts);
      EntryOfCheck(checks[0], ws[0], verdicts);
      EntriesForCons(ws[0], Voting(ws[1..], verdicts));
      assert ChecksJson(checks)[1..] == ChecksJson(checks[1..]);
    }
  }

  lemma EntryMatches(w: Witness, keys: PublicKeys, actionHash: string, verdicts: map<string, string>, reason: string,
                     leanSha: string, draw: Draw)
    requires w.organ in keys && keys[w.organ] == w.publicKeyPem
    ensures Matches(CheckItem(Str(actionHash), SignOne(w, actionHash, verdicts, reason, leanSha, draw), keys), w,
                    verdicts)
  {
    EntryCounts(w, keys, actionHash, verdicts, reason, leanSha, draw);
    SignedRowKeyid(Str(actionHash), SignOne(w, actionHash, verdicts, reason, leanSha, draw), keys);
  }

  lemma SignedRowKeyid(actionHash: Json, item: Item, keys: PublicKeys)
    requires item.Some? ==> item.value.keyid == Keyid(item.value.organ)
    ensures var c := CheckItem(actionHash, item, keys);
      c.counts ==> item.Some? && c.organ == Some(item.value.organ) && c.keyid == Some(Keyid(item.value.organ))
  {
  }

  /** Nothing in an attestation is a duplicate: the recorded checks are the checks of the single rows. */
  lemma AttestedChecks(actionHash: string, roster: Roster, verdicts: map<string, string>, reason: string,
                       leanSha: string, draws: nat -> Draw)
    requires DistinctOrgans(roster.witnesses)
    ensures var own := CheckAll(Str(actionHash),
                                Collected(roster.witnesses, actionHash, verdicts, reason, leanSha, draws),
                                Pubkeys(roster.witnesses));
      Recorded(own) == own && forall i | 0 <= i < |own| :: Matches(own[i], roster.witnesses[i], verdicts)
  {
    var ws := roster.witnesses;
    var own := CheckAll(Str(actionHash), Collected(ws, actionHash, verdicts, reason, leanSha, draws), Pubkeys(ws));
    forall i | 0 <= i < |own| ensures Matches(own[i], ws[i], verdicts) {
      PubkeysAt(ws, i);
      EntryMatches(ws[i], Pubkeys(ws), actionHash, verdicts, reason, leanSha, draws(i));
    }
    NoRepeatsNoGap(own);
  }

  /**
   Conservation: the fold lists exactly the voting witnesses of the registry, in
   registry order and pairwise distinct, and they are `consensus_count` many.
   */
  lemma CountingIsConserved(actionHash: string, roster: Roster, verdicts: map<string, string>, reason: string,
                            leanSha: string, draws: nat -> Draw)
    requires DistinctOrgans(roster.witnesses) && ValidQuorumCounts(roster.threshold, |roster.witnesses|)
    ensures var r := Attested(actionHash, roster, verdicts, reason, leanSha, draws);
      && r.Ok?
      && CountingList(ToDict(r.value)) == Ok(EntriesFor(Voting(roster.witnesses, verdicts)))
      && DistinctOrgans(Voting(roster.witnesses, verdicts))
      && |Voting(roster.witnesses, verdicts)| == r.value.consensusCount
  {
    var r := Attested(actionHash, roster, verdicts, reason, leanSha, draws).value;
    AttestedChecks(actionHash, roster, verdicts, reason, leanSha, draws);
    CountingOfChecks(r.checks, roster.witnesses, verdicts);
    VotingDistinct(roster.witnesses, verdicts);
    AttestClosedForm(actionHash, roster, verdicts, reason, leanSha, draws);
    FieldsAreFound(FieldsOf(r));
    CountingListOfChecks(ToDict(r), r.checks);
  }

  lemma CountingListOfChecks(receipt: seq<Member>, checks: seq<OrganCheck>)
    requires Get(receipt, "checks") == Arr(ChecksJson(checks))
    ensures CountingList(receipt) == Ok(CountingOf(ChecksJson(checks)))
  {
    assert AllObjects(ChecksJson(checks));
  }

  // ----- rebinding -----

  datatype Rebinding = Bound | InputMismatch | OutputMismatch

  /** The digest of a projection. */
  function DigestOf(sha256: Sha256, ms: seq<Member>): Json {
    Str(CanonicalSha256(sha256, Obj(ms)))
  }

  /** The second half of `verify_consensus_receipt`: signed digests against digests of the receipt at hand. */
  function Rebind(sha256: Sha256, body: seq<Member>, receipt: seq<Member>): Rebinding {
    if Get(body, "input_digest") != DigestOf(sha256, ConsensusInput(receipt)) then InputMismatch
    else if Get(body, "output_digest") != DigestOf(sha256, ConsensusOutput(receipt)) then OutputMismatch
    else Bound
  }

  /** The two receipts have the same input projection, field by field. */
  predicate SameInput(a: seq<Member>, b: seq<Member>) {
    && Same(Get(a, "action_hash"), Get(b, "action_hash")) && Same(Get(a, "threshold"), Get(b, "threshold"))
    && Same(Get(a, "n"), Get(b, "n")) && Same(Get(a, "signatures"), Get(b, "signatures"))
    && Same(Get(a, "witnesses"), Get(b, "witnesses"))
  }

  predicate SameOutput(a: seq<Member>, b: seq<Member>) {
    && Same(Get(a, "decision"), Get(b, "decision")) && Same(Get(a, "consensus_count"), Get(b, "consensus_count"))
    && Same(Get(a, "khipu_consensus"), Get(b, "khipu_consensus")) && Same(Get(a, "checks"), Get(b, "checks"))
  }

  lemma SameInputExactly(a: Json, t: Json, n: Json, s: Json, w: Json, a': Json, t': Json, n': Json, s': Json, w': Json)
    ensures Same(Obj(InputMembers(a, t, n, s, w)), Obj(InputMembers(a', t', n', s', w')))
       <==> Same(a, a') && Same(t, t') && Same(n, n') && Same(s, s') && Same(w, w')
  {
    var ms, ns := InputMembers(a, t, n, s, w), InputMembers(a', t', n', s', w');
    InputKeysDistinct(ms);
    FiveSame(ms, ns);
  }

  lemma InputKeysDistinct(ms: seq<Member>)
    requires |ms| == 5 && ms[0].key == "action_hash" && ms[1].key == "threshold" && ms[2].key == "n"
    requires ms[3].key == "signatures" && ms[4].key == "witnesses"
    ensures DistinctKeys(ms)
  {
  }

  lemma FiveSame(ms: seq<Member>, ns: seq<Member>)
    requires |ms| == |ns| == 5 && DistinctKeys(ms) && forall i | 0 <= i < 5 :: ms[i].key == ns[i].key
    ensures Same(Obj(ms), Obj(ns)) <==>
      && Same(ms[0].value, ns[0].value) && Same(ms[1].value, ns[1].value) && Same(ms[2].value, ns[2].value)
      && Same(ms[3].value, ns[3].value) && Same(ms[4].value, ns[4].value)
  {
  }

  lemma OutputKeysDistinct(ms: seq<Member>)
    requires |ms| == 4 && ms[0].key == "decision" && ms[1].key == "consensus_count"
    requires ms[2].key == "khipu_consensus" && ms[3].key == "checks"
    ensures DistinctKeys(ms)
  {
    assert |"decision"| == 8 && |"consensus_count"| == 15 && |"khipu_consensus"| == 15 && |"checks"| == 6;
    assert "consensus_count"[0] == 'c' && "khipu_consensus"[0] == 'k';
  }

  lemma SameOutputExactly(d: Json, c: Json, k: Json, x: Json, d': Json, c': Json, k': Json, x': Json)
    ensures Same(Obj(OutputMembers(d, c, k, x)), Obj(OutputMembers(d', c', k', x')))
       <==> Same(d, d') && Same(c, c') && Same(k, k') && Same(x, x')
  {
    var ms, ns := OutputMembers(d, c, k, x), OutputMembers(d', c', k', x');
    OutputKeysDistinct(ms);
    FourSame(ms, ns);
  }

  lemma FourSame(ms: seq<Member>, ns: seq<Member>)
    requires |ms| == |ns| == 4 && DistinctKeys(ms) && forall i | 0 <= i < 4 :: ms[i].key == ns[i].key
    ensures Same(Obj(ms), Obj(ns)) <==>
      && Same(ms[0].value, ns[0].value) && Same(ms[1].value, ns[1].value) && Same(ms[2].value, ns[2].value)
      && Same(ms[3].value, ns[3].value)
  {
    SameByIndex(ms, ns);
  }

  lemma ProjectionsAreDicts(receipt: seq<Member>)
    requires IsDict(Obj(receipt))
    ensures IsDict(Obj(ConsensusInput(receipt))) && IsDict(Obj(ConsensusOutput(receipt)))
  {
    FieldsAreDicts(receipt);
    InputKeysDistinct(ConsensusInput(receipt));
    OutputKeysDistinct(ConsensusOutput(receipt));
  }

  lemma FieldsAreDicts(receipt: seq<Member>)
    requires IsDict(Obj(receipt))
    ensures forall k :: IsDict(Get(receipt, k))
  {
    forall k ensures IsDict(Get(receipt, k)) {
      if Has(receipt, k) {
        assert Member(k, Get(receipt, k)) in receipt;
      }
    }
  }

  /** Digests of projections agree exactly when the projections do, unless this pair collides. */
  lemma ProjectionDigests(sha256: Sha256, ms: seq<Member>, ns: seq<Member>)
    requires IsDict(Obj(ms)) && IsDict(Obj(ns)) && NoCollision(sha256, CanonicalJson(Obj(ms)), CanonicalJson(Obj(ns)))
    ensures DigestOf(sha256, ms) == DigestOf(sha256, ns) <==> Same(Obj(ms), Obj(ns))
  {
    DigestIdentifies(sha256, Obj(ms), Obj(ns));
  }

  /** The input and output projections of two receipts do not collide. */
  predicate ProjectionsDoNotCollide(sha256: Sha256, a: seq<Member>, b: seq<Member>) {
    && NoCollision(sha256, CanonicalJson(Obj(ConsensusInput(a))), CanonicalJson(Obj(ConsensusInput(b))))
    && NoCollision(sha256, CanonicalJson(Obj(ConsensusOutput(a))), CanonicalJson(Obj(ConsensusOutput(b))))
  }

  /** The projections agree exactly when their digests do. */
  lemma DigestsBind(sha256: Sha256, a: seq<Member>, b: seq<Member>)
    requires IsDict(Obj(a)) && IsDict(Obj(b)) && ProjectionsDoNotCollide(sha256, a, b)
    ensures DigestOf(sha256, ConsensusInput(a)) == DigestOf(sha256, ConsensusInput(b)) <==> SameInput(a, b)
    ensures DigestOf(sha256, ConsensusOutput(a)) == DigestOf(sha256, ConsensusOutput(b)) <==> SameOutput(a, b)
  {
    ProjectionsAreDicts(a);
    ProjectionsAreDicts(b);
    ProjectionDigests(sha256, ConsensusInput(a), ConsensusInput(b));
    ProjectionDigests(sha256, ConsensusOutput(a), ConsensusOutput(b));
    SameInputExactly(Get(a, "action_hash"), Get(a, "threshold"), Get(a, "n"), Get(a, "signatures"), Get(a, "witnesses"),
                     Get(b, "action_hash"), Get(b, "threshold"), Get(b, "n"), Get(b, "signatures"),
                     Get(b, "witnesses"));
    SameOutputExactly(Get(a, "decision"), Get(a, "consensus_count"), Get(a, "khipu_consensus"), Get(a, "checks"),
                      Get(b, "decision"), Get(b, "consensus_count"), Get(b, "khipu_consensus"), Get(b, "checks"));
  }

  // ----- the body of the folded receipt -----

  const PCGI_RECEIPT_SCHEMA := "szl.pcgi.receipt/khipu-consensus/v1"
  const RECEIPT_KIND := "khipu-consensus-witness"

  function BodyMembers(subject: Json, input: Json, output: Json, policy: Json, energy: Json, witnesses: Json,
                       quorum: Json, honesty: Json): seq<Member>
  {
    [ Member("schema", Str(PCGI_RECEIPT_SCHEMA)), Member("kind", Str(RECEIPT_KIND)), Member("subject", subject),
      Member("input_digest", input), Member("output_digest", output), Member("policy_id", policy),
      Member("energy", energy), Member("witnesses", witnesses), Member("quorum", quorum), Member("honesty", honesty) ]
  }

  function Subject(receipt: seq<Member>): Json {
    Obj([ Member("type", Str("khipu-consensus-round")), Member("action_hash", Get(receipt, "action_hash")) ])
  }

  function Quorum(receipt: seq<Member>): Json {
    Obj([ Member("threshold", Get(receipt, "threshold")), Member("n", Get(receipt, "n")),
          Member("consensus_count", Get(receipt, "consensus_count")),
          Member("khipu_consensus", Get(receipt, "khipu_consensus")), Member("decision", Get(receipt, "decision")) ])
  }

  /** `build_consensus_receipt_body` once the witnesses are known; the energy and honesty notes are parameters. */
  function BodyWith(sha256: Sha256, receipt: seq<Member>, policyId: string, witnesses: Json, energy: Json,
                    honesty: Json)
    : seq<Member>
  {
    BodyMembers(Subject(receipt), DigestOf(sha256, ConsensusInput(receipt)), DigestOf(sha256, ConsensusOutput(receipt)),
                Str(policyId), energy, witnesses, Quorum(receipt), honesty)
  }

  /** `build_consensus_receipt_body`: by default the body lists the counting witnesses. */
  function BuildBody(sha256: Sha256, receipt: seq<Member>, policyId: string, witnesses: Option<Json>, energy: Json,
                     honesty: Json): Result<seq<Member>, SpineError>
  {
    match witnesses
    case Some(given) => Ok(BodyWith(sha256, receipt, policyId, given, energy, honesty))
    case None =>
      match CountingList(receipt)
      case Err(e) => Err(e)
      case Ok(counting) => Ok(BodyWith(sha256, receipt, policyId, Arr(counting), energy, honesty))
  }

  /** The keys of a body, in order. */
  predicate BodyShape(ms: seq<Member>) {
    && |ms| == 10 && ms[0].key == "schema" && ms[1].key == "kind" && ms[2].key == "subject"
    && ms[3].key == "input_digest" && ms[4].key == "output_digest" && ms[5].key == "policy_id"
    && ms[6].key == "energy" && ms[7].key == "witnesses"
  }

  lemma BodyFields(ms: seq<Member>)
    requires BodyShape(ms)
    ensures Get(ms, "input_digest") == ms[3].value && Get(ms, "output_digest") == ms[4].value
    ensures Get(ms, "witnesses") == ms[7].value
  {
    FirstEight(ms[..8]);
    GetOfConcat(ms[..8], ms[8..], "input_digest");
    GetOfConcat(ms[..8], ms[8..], "output_digest");
    GetOfConcat(ms[..8], ms[8..], "witnesses");
    assert ms == ms[..8] + ms[8..];
  }

  lemma BodyMembersFields(subject: Json, input: Json, output: Json, policy: Json, energy: Json, witnesses: Json,
                          quorum: Json, honesty: Json)
    ensures var ms := BodyMembers(subject, input, output, policy, energy, witnesses, quorum, honesty);
      Get(ms, "input_digest") == input && Get(ms, "output_digest") == output && Get(ms, "witnesses") == witnesses
  {
    BodyFields(BodyMembers(subject, input, output, policy, energy, witnesses, quorum, honesty));
  }

  lemma FirstEight(ms: seq<Member>)
    requires |ms| == 8 && ms[0].key == "schema" && ms[1].key == "kind" && ms[2].key == "subject"
    requires ms[3].key == "input_digest" && ms[4].key == "output_digest" && ms[5].key == "policy_id"
    requires ms[6].key == "energy" && ms[7].key == "witnesses"
    ensures Has(ms, "input_digest") && Get(ms, "input_digest") == ms[3].value
    ensures Has(ms, "output_digest") && Get(ms, "output_digest") == ms[4].value
    ensures Has(ms, "witnesses") && Get(ms, "witnesses") == ms[7].value
  {
    assert |"schema"| == 6 && |"kind"| == 4 && |"subject"| == 7 && |"input_digest"| == 12 && |"output_digest"| == 13;
    assert |"policy_id"| == 9 && |"energy"| == 6 && |"witnesses"| == 9;
    assert "schema"[0] == 's' && "energy"[0] == 'e' && "policy_id"[0] == 'p' && "witnesses"[0] == 'w';
    GetAt(ms, 3);
    GetAt(ms, 4);
    GetAt(ms, 7);
  }

  /**
   A body built from receipt `a` rebinds to receipt `b` if and only if quorum inputs and
   agreed value of `b` are those of `a`, up to key order, unless a digest pair collides.
   */
  lemma RebindExactly(sha256: Sha256, a: seq<Member>, policyId: string, witnesses: Option<Json>, energy: Json,
                      honesty: Json, b: seq<Member>)
    requires IsDict(Obj(a)) && IsDict(Obj(b)) && ProjectionsDoNotCollide(sha256, a, b)
    requires BuildBody(sha256, a, policyId, witnesses, energy, honesty).Ok?
    ensures var r := Rebind(sha256, BuildBody(sha256, a, policyId, witnesses, energy, honesty).value, b);
      && (r == Bound <==> SameInput(a, b) && SameOutput(a, b))
      && (r == InputMismatch <==> !SameInput(a, b))
  {
    BuiltBodyFields(sha256, a, policyId, witnesses, energy, honesty);
    DigestsBind(sha256, a, b);
  }

  lemma BodyWithFields(sha256: Sha256, a: seq<Member>, policyId: string, witnesses: Json, energy: Json, honesty: Json)
    ensures var body := BodyWith(sha256, a, policyId, witnesses, energy, honesty);
      && Get(body, "input_digest") == DigestOf(sha256, ConsensusInput(a))
      && Get(body, "output_digest") == DigestOf(sha256, ConsensusOutput(a))
      && Get(body, "witnesses") == witnesses
  {
    BodyMembersFields(Subject(a), DigestOf(sha256, ConsensusInput(a)), DigestOf(sha256, ConsensusOutput(a)),
                      Str(policyId), energy, witnesses, Quorum(a), honesty);
  }

  lemma BuiltBodyFields(sha256: Sha256, a: seq<Member>, policyId: string, witnesses: Option<Json>, energy: Json,
                        honesty: Json)
    requires BuildBody(sha256, a, policyId, witnesses, energy, honesty).Ok?
    ensures var body := BuildBody(sha256, a, policyId, witnesses, energy, honesty).value;
      && Get(body, "input_digest") == DigestOf(sha256, ConsensusInput(a))
      && Get(body, "output_digest") == DigestOf(sha256, ConsensusOutput(a))
      && (witnesses.None? ==> CountingList(a).Ok? && Get(body, "witnesses") == Arr(CountingList(a).value))
  {
    if witnesses.Some? {
      BodyWithFields(sha256, a, policyId, witnesses.value, energy, honesty);
    } else {
      BodyWithFields(sha256, a, policyId, Arr(CountingList(a).value), energy, honesty);
    }
  }

  /** The fold of an attestation names exactly the voting witnesses, in registry order. */
  lemma BodyOfAttestation(sha256: Sha256, actionHash: string, roster: Roster, verdicts: map<string, string>,
                          reason: string,
                          leanSha: string, draws: nat -> Draw, policyId: string, energy: Json, honesty: Json)
    requires DistinctOrgans(roster.witnesses) && ValidQuorumCounts(roster.threshold, |roster.witnesses|)
    ensures var r := Attested(actionHash, roster, verdicts, reason, leanSha, draws);
      && r.Ok?
      && var body := BuildBody(sha256, ToDict(r.value), policyId, None, energy, honesty);
      && body.Ok? && Get(body.value, "witnesses") == Arr(EntriesFor(Voting(roster.witnesses, verdicts)))
  {
    CountingIsConserved(actionHash, roster, verdicts, reason, leanSha, draws);
    var r := Attested(actionHash, roster, verdicts, reason, leanSha, draws).value;
    BuiltBodyFields(sha256, ToDict(r), policyId, None, energy, honesty);
  }
}
