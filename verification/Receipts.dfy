/** The coordinator: `attest`, the receipt it assembles, and the receipt as JSON. */
module Receipts {
  import opened Wrappers
  import opened Json
  import opened Verdict
  import opened Tally
  import opened Witnesses
  import Decimal

  const RECEIPT_SCHEMA := "szl.khipu.multi-witness-receipt/v1"
  const VERSION := "0.1.0"

  datatype MultiWitnessReceipt = MultiWitnessReceipt(
    actionHash: string,
    threshold: int,
    n: int,
    decision: Decision,
    consensusCount: nat,
    khipuConsensus: string,
    signatures: seq<Item>,
    checks: seq<OrganCheck>,
    witnesses: seq<Witness>)

  /** The exception of `attest`. */
  datatype AttestError = InvalidQuorumCounts

  /** The vote of a witness: what the overrides say, `allow` otherwise. */
  function Vote(verdicts: map<string, string>, organ: string): string {
    if organ in verdicts then verdicts[organ] else "allow"
  }

  function SignOne(w: Witness, actionHash: string, verdicts: map<string, string>, reason: string, leanSha: string,
                   draw: Draw): Item {
    Sign(w, actionHash, Vote(verdicts, w.organ), reason, leanSha, draw)
  }

  /** What a witness answers, given its place in the registry. */
  function Signer(actionHash: string, verdicts: map<string, string>, reason: string, leanSha: string,
                  draws: nat -> Draw)
    : (Witness, nat) -> Item
  {
    (w: Witness, i: nat) => SignOne(w, actionHash, verdicts, reason, leanSha, draws(i))
  }

  /** One entry per witness, in registry order. */
  function Answers(ws: seq<Witness>, sign: (Witness, nat) -> Item): (items: seq<Item>)
    ensures |items| == |ws|
    ensures forall i | 0 <= i < |ws| :: items[i] == sign(ws[i], i)
  {
    seq(|ws|, i requires 0 <= i < |ws| => sign(ws[i], i))
  }

  function Collected(ws: seq<Witness>, actionHash: string, verdicts: map<string, string>, reason: string,
                     leanSha: string, draws: nat -> Draw): (items: seq<Item>)
    ensures |items| == |ws|
    ensures forall i | 0 <= i < |ws| :: items[i] == SignOne(ws[i], actionHash, verdicts, reason, leanSha, draws(i))
  {
    Answers(ws, Signer(actionHash, verdicts, reason, leanSha, draws))
  }

  /** `X-of-N`. */
  function KhipuConsensus(count: int, n: int): string {
    Decimal.OfInt(count) + "-of-" + Decimal.OfInt(n)
  }

  function Assemble(actionHash: string, roster: Roster, signatures: seq<Item>,
                    r: ConsensusResult): MultiWitnessReceipt {
    MultiWitnessReceipt(actionHash, roster.threshold, |roster.witnesses|, r.decision, r.consensusCount,
                        KhipuConsensus(r.consensusCount, |roster.witnesses|), signatures, r.checks, roster.witnesses)
  }

  /** What `attest` returns for a roster, its overrides and the draws of its witnesses. */
  function Attested(actionHash: string, roster: Roster, verdicts: map<string, string>, reason: string, leanSha: string,
                    draws: nat -> Draw): Result<MultiWitnessReceipt, AttestError>
    requires DistinctOrgans(roster.witnesses)
  {
    if !ValidQuorumCounts(roster.threshold, |roster.witnesses|) then Err(InvalidQuorumCounts)
    else
      var signatures := Collected(roster.witnesses, actionHash, verdicts, reason, leanSha, draws);
      Ok(Assemble(actionHash, roster, signatures,
                  TallyResult(Str(actionHash), signatures, Pubkeys(roster.witnesses), roster.threshold,
                              |roster.witnesses|)))
  }

  /** The loop of `attest`, for any way of answering. */
  method Collect(ws: seq<Witness>, sign: (Witness, nat) -> Item) returns (collected: seq<Item>)
    ensures collected == Answers(ws, sign)
  {
    collected := [];
    for i := 0 to |ws|
      invariant |collected| == i && forall j | 0 <= j < i :: collected[j] == sign(ws[j], j)
    {
      collected := collected + [sign(ws[i], i)];
    }
  }

  /** `attest`: fans out, collects, tallies, assembles. */
  method Attest(actionHash: string, registry: WitnessRegistry, verdicts: map<string, string>, reason: string,
                leanSha: string, draws: nat -> Draw)
    returns (r: Result<MultiWitnessReceipt, AttestError>)
    requires registry.Valid()
    ensures r == Attested(actionHash, registry.View(), verdicts, reason, leanSha, draws)
  {
    var ws := registry.w;
    if !ValidQuorumCounts(registry.threshold, |ws|) {
      return Err(InvalidQuorumCounts);
    }
    var collected := Collect(ws, Signer(actionHash, verdicts, reason, leanSha, draws));
    var result := Tally.Tally(Str(actionHash), collected, Pubkeys(ws), registry.threshold, |ws|);
    r := Ok(Assemble(actionHash, registry.View(), collected, result));
  }

  // ----- liveness in closed form -----

  /** A witness whose vote reaches the tally: named, published, holding its published key, allowing. */
  predicate Votes(w: Witness, verdicts: map<string, string>) {
    w.organ != "" && w.publicKeyPem != "" && w.privateKey == Some(w.publicKeyPem) && Vote(verdicts, w.organ) == "allow"
  }

  function Voters(ws: seq<Witness>, verdicts: map<string, string>): set<string> {
    set w | w in ws && Votes(w, verdicts) :: w.organ
  }

  /** How many witnesses are keyless, wrongly keyed, unnamed, unpublished or not allowing. */
  function NonVoterCount(ws: seq<Witness>, verdicts: map<string, string>): nat {
    if ws == [] then 0 else (if Votes(ws[0], verdicts) then 0 else 1) + NonVoterCount(ws[1..], verdicts)
  }

  lemma VotersStep(ws: seq<Witness>, verdicts: map<string, string>)
    requires DistinctOrgans(ws) && ws != []
    ensures Voters(ws, verdicts) == Voters(ws[1..], verdicts) + (if Votes(ws[0], verdicts) then {ws[0].organ} else {})
    ensures ws[0].organ !in Voters(ws[1..], verdicts)
  {
  }

  lemma {:induction false} VotersSize(ws: seq<Witness>, verdicts: map<string, string>)
    requires DistinctOrgans(ws)
    ensures |Voters(ws, verdicts)| == |ws| - NonVoterCount(ws, verdicts)
  {
    if ws == [] {
      assert Voters(ws, verdicts) == {};
    } else {
      VotersSize(ws[1..], verdicts);
      VotersStep(ws, verdicts);
    }
  }

  lemma EntryCounts(w: Witness, keys: PublicKeys, actionHash: string, verdicts: map<string, string>, reason: string,
                    leanSha: string, draw: Draw)
    requires w.organ in keys && keys[w.organ] == w.publicKeyPem
    ensures Counts(Str(actionHash), SignOne(w, actionHash, verdicts, reason, leanSha, draw), keys)
       <==> Votes(w, verdicts)
  {
    if w.privateKey.Some? {
      var s := Statement(w.organ, actionHash, Vote(verdicts, w.organ), reason, leanSha, draw.ts);
      SignedRowCounts(Str(actionHash), s, w.privateKey.value, draw.nonce, keys);
    }
  }

  /** The organs that count in an attestation are the voters. */
  lemma CountingOrgansAreVoters(ws: seq<Witness>, actionHash: string, verdicts: map<string, string>, reason: string,
                                leanSha: string, draws: nat -> Draw)
    requires DistinctOrgans(ws)
    ensures CountingOrgans(Str(actionHash), Collected(ws, actionHash, verdicts, reason, leanSha, draws), Pubkeys(ws))
         == Voters(ws, verdicts)
  {
    var items := Collected(ws, actionHash, verdicts, reason, leanSha, draws);
    forall i | 0 <= i < |ws| ensures Counts(Str(actionHash), items[i], Pubkeys(ws)) <==> Votes(ws[i], verdicts) {
      PubkeysAt(ws, i);
      EntryCounts(ws[i], Pubkeys(ws), actionHash, verdicts, reason, leanSha, draws(i));
    }
    VotersByIndex(ws, Str(actionHash), items, Pubkeys(ws), verdicts);
  }

  lemma VotersByIndex(ws: seq<Witness>, actionHash: Json, items: seq<Item>, keys: PublicKeys, 
                      verdicts: map<string, string>)
    requires |items| == |ws|
    requires forall i | 0 <= i < |ws| && items[i].Some? :: items[i].value.organ == ws[i].organ
    requires forall i | 0 <= i < |ws| :: Counts(actionHash, items[i], keys) <==> Votes(ws[i], verdicts)
    ensures CountingOrgans(actionHash, items, keys) == Voters(ws, verdicts)
  {
  }

  lemma QuorumOfVoters(actionHash: Json, items: seq<Item>, keys: PublicKeys, ws: seq<Witness>,
                       verdicts: map<string, string>, threshold: int)
    requires DistinctOrgans(ws) && ValidQuorumCounts(threshold, |ws|)
    requires CountingOrgans(actionHash, items, keys) == Voters(ws, verdicts)
    ensures var r := TallyResult(actionHash, items, keys, threshold, |ws|);
      && r.consensusCount == |ws| - NonVoterCount(ws, verdicts)
      && (r.decision == Canonical <==> NonVoterCount(ws, verdicts) <= |ws| - threshold)
  {
    VotersSize(ws, verdicts);
  }

  /**
   Liveness as a closed form: the count is the number of voting witnesses, and the
   action is canonical if and only if at most `n - threshold` witnesses do not vote.
   */
  lemma AttestClosedForm(actionHash: string, roster: Roster, verdicts: map<string, string>, reason: string,
                         leanSha: string, draws: nat -> Draw)
    requires DistinctOrgans(roster.witnesses) && ValidQuorumCounts(roster.threshold, |roster.witnesses|)
    ensures var r := Attested(actionHash, roster, verdicts, reason, leanSha, draws);
      && r.Ok?
      && r.value.consensusCount == |roster.witnesses| - NonVoterCount(roster.witnesses, verdicts)
      && (r.value.decision == Canonical <==>
            NonVoterCount(roster.witnesses, verdicts) <= |roster.witnesses| - roster.threshold)
  {
    var ws := roster.witnesses;
    CountingOrgansAreVoters(ws, actionHash, verdicts, reason, leanSha, draws);
    QuorumOfVoters(Str(actionHash), Collected(ws, actionHash, verdicts, reason, leanSha, draws), Pubkeys(ws), ws,
                   verdicts, roster.threshold);
  }

  // ----- the receipt as JSON -----

  function DecisionText(d: Decision): string {
    if d == Canonical then "canonical" else "rejected"
  }

  /** The reason texts; an exception is written as its kind. */
  function ReasonText(r: Reason): string {
    match r
    case Fine => ""
    case Abstained => "abstain/timeout"
    case NoPublicKey => "no public key"
    case InvalidPem => "ValueError"
    case MissingPayloadOrSignature => "missing payload/signature"
    case PayloadTypeMismatch => "payload-type-mismatch"
    case WitnessIdentityMismatch => "witness-identity-mismatch"
    case BadPayloadB64 => "Error"
    case BadSignatureB64 => "Error"
    case SignatureMismatch => "signature mismatch"
    case BadStatementJson => "JSONDecodeError"
    case StatementSchemaMismatch => "statement-schema-mismatch"
    case SignedWitnessIdentityMismatch => "signed-witness-identity-mismatch"
    case DuplicateWitness => "duplicate-witness (already counted)"
  }

  function OptionalJson(s: Option<string>): Json {
    if s.Some? then Str(s.value) else Null
  }

  function CheckJson(c: OrganCheck): Json {
    Obj([ Member("organ", OptionalJson(c.organ)),
          Member("keyid", OptionalJson(c.keyid)),
          Member("valid", Bool(c.valid)),
          Member("verdict", c.verdict),
          Member("action_hash_match", Bool(c.actionHashMatch)),
          Member("counts", Bool(c.counts)),
          Member("reason", Str(ReasonText(c.reason))) ])
  }

  function ChecksJson(checks: seq<OrganCheck>): (r: seq<Json>)
    ensures |r| == |checks|
    ensures forall i | 0 <= i < |checks| :: r[i] == CheckJson(checks[i])
  {
    seq(|checks|, i requires 0 <= i < |checks| => CheckJson(checks[i]))
  }

  /** `_checks_to_public`. */
  method ChecksToPublic(checks: seq<OrganCheck>) returns (out: seq<Json>)
    ensures out == ChecksJson(checks)
  {
    out := [];
    for i := 0 to |checks|
      invariant out == ChecksJson(checks)[..i]
    {
      out := out + [CheckJson(checks[i])];
    }
  }

  function RowMembers(v: Row): seq<Member> {
    [ Member("organ", Str(v.organ)),
      Member("keyid", Str(v.keyid)),
      Member("payloadType", Str(v.payloadType)),
      Member("payload", Str(v.payload)),
      Member("signature", Str(v.signature)),
      Member("verdict", Str(v.verdict)),
      Member("reason", Str(v.reason)) ]
  }

  function ItemJson(item: Item): Json {
    match item
    case None => Null
    case Some(v) => Obj(RowMembers(v))
  }

  function ItemsJson(items: seq<Item>): (r: seq<Json>)
    ensures |r| == |items|
    ensures forall i | 0 <= i < |items| :: r[i] == ItemJson(items[i])
  {
    seq(|items|, i requires 0 <= i < |items| => ItemJson(items[i]))
  }

  function WitnessesJson(ws: seq<Witness>): (r: seq<Json>)
    ensures |r| == |ws|
    ensures forall i | 0 <= i < |ws| :: r[i] == Obj(Public(ws[i]))
  {
    seq(|ws|, i requires 0 <= i < |ws| => Obj(Public(ws[i])))
  }

  /** `SAFETY_STATUS`. */
  function SafetyStatus(): Json {
    Obj([ Member("safety", Obj([ Member("id", Str("Conjecture 2")),
                                 Member("name", Str("khipu_consensus_safety")),
                                 Member("status", Str("proof-deferred")) ])),
          Member("liveness", Obj([ Member("id", Str("Conjecture 3")),
                                   Member("name", Str("khipu_consensus_liveness")),
                                   Member("status", Str("proof-deferred")) ])),
          Member("economic_slashing", Obj([ Member("status", Str("ROADMAP")),
                                            Member("note",
                                                   Str("EigenLayer-style AVS slashing not yet implemented")) ])) ])
  }

  /** The twelve fields of a receipt. */
  datatype Fields = Fields(
    schema: Json, actionHash: Json, threshold: Json, n: Json, decision: Json, consensusCount: Json,
    khipuConsensus: Json, signatures: Json, checks: Json, witnesses: Json, provenance: Json, version: Json)

  function FieldMembers(f: Fields): seq<Member> {
    [ Member("schema", f.schema), Member("action_hash", f.actionHash), Member("threshold", f.threshold),
      Member("n", f.n), Member("decision", f.decision), Member("consensus_count", f.consensusCount),
      Member("khipu_consensus", f.khipuConsensus), Member("signatures", f.signatures), Member("checks", f.checks),
      Member("witnesses", f.witnesses), Member("provenance", f.provenance), Member("version", f.version) ]
  }

  function FieldsOf(r: MultiWitnessReceipt): Fields {
    Fields(Str(RECEIPT_SCHEMA), Str(r.actionHash), Int(r.threshold), Int(r.n), Str(DecisionText(r.decision)),
           Int(r.consensusCount), Str(r.khipuConsensus), Arr(ItemsJson(r.signatures)), Arr(ChecksJson(r.checks)),
           Arr(WitnessesJson(r.witnesses)), SafetyStatus(), Str(VERSION))
  }

  /** `to_dict`. */
  function ToDict(r: MultiWitnessReceipt): seq<Member> {
    FieldMembers(FieldsOf(r))
  }

  lemma FieldKeysDistinct(f: Fields)
    ensures DistinctKeys(FieldMembers(f))
  {
  }

  /** Each field is found under its own key. */
  lemma FieldsAreFound(f: Fields)
    ensures var ms := FieldMembers(f);
      && Get(ms, "schema") == f.schema && Get(ms, "action_hash") == f.actionHash && Get(ms, "threshold") == f.threshold
      && Get(ms, "n") == f.n && Get(ms, "decision") == f.decision && Get(ms, "consensus_count") == f.consensusCount
      && Get(ms, "khipu_consensus") == f.khipuConsensus && Get(ms, "signatures") == f.signatures
      && Get(ms, "checks") == f.checks && Get(ms, "witnesses") == f.witnesses
  {
    var ms := FieldMembers(f);
    FieldKeysDistinct(f);
    GetAt(ms, 0);
    GetAt(ms, 1);
    GetAt(ms, 2);
    GetAt(ms, 3);
    GetAt(ms, 4);
    GetAt(ms, 5);
    GetAt(ms, 6);
    GetAt(ms, 7);
    GetAt(ms, 8);
    GetAt(ms, 9);
  }
}
