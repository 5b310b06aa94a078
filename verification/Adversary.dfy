/**
 The attack generators, and what each of them achieves: no cryptographic attack counts,
 and duplicate stuffing fools the naive counter only.
 */
module Adversary {
  import opened Wrappers
  import opened Utf8
  import opened Json
  import opened JsonText
  import opened JsonReaders
  import opened Verdict
  import opened Tally
  import opened Counting
  import Base64
  import Signatures

  // ----- the attack generators -----

  /** `forged_signature_verdict`: a well-formed statement with arbitrary signature bits. */
  function ForgedSignatureVerdict(organ: string, actionHash: string, verdict: string, ts: string, bits: bytes): Row {
    Row(organ, Keyid(organ), PAYLOAD_TYPE,
        Base64.Encode(Body(Statement(organ, actionHash, verdict, "", "", ts))),
        Base64.Encode(bits), verdict, "")
  }

  /** `impersonation_verdict`: the victim's statement under the attacker's own key. */
  function ImpersonationVerdict(organ: string, actionHash: string, attackerKey: string, verdict: string, ts: string,
                                nonce: nat): Row {
    SignVerdict(Statement(organ, actionHash, verdict, "", "", ts), attackerKey, nonce)
  }

  /** `equivocation_verdict`: a witness validly signs another action. */
  function EquivocationVerdict(organ: string, otherActionHash: string, key: string, verdict: string, ts: string,
                               nonce: nat): Row {
    SignVerdict(Statement(organ, otherActionHash, verdict, "", "", ts), key, nonce)
  }

  function PutIf(ms: seq<Member>, k: string, v: Option<string>): seq<Member> {
    match v
    case None => ms
    case Some(s) => Put(ms, k, Str(s))
  }

  /** The body after editing; `None` when it is no JSON, or is edited and no object. */
  function EditedBody(body: bytes, newActionHash: Option<string>, newVerdict: Option<string>): Option<bytes> {
    match Loads(body)
    case Some(Obj(ms)) =>
      Some(CanonicalJson(Obj(PutIf(PutIf(ms, "action_hash", newActionHash), "verdict", newVerdict))))
    case Some(v) => if newActionHash.None? && newVerdict.None? then Some(CanonicalJson(v)) else None
    case None => None
  }

  /** `tamper_verdict`: edits the payload and keeps the signature; `None` where the source raises. */
  function TamperVerdict(v: Row, newActionHash: Option<string>, newVerdict: Option<string>): Option<Row> {
    match Base64.Decode(Base64.Python, v.payload)
    case None => None
    case Some(body) =>
      match EditedBody(body, newActionHash, newVerdict)
      case None => None
      case Some(edited) =>
        Some(v.(payload := Base64.Encode(edited),
                verdict := if newVerdict.Some? then newVerdict.value else v.verdict))
  }

  /** `duplicate_stuffing`: one verdict, several times. */
  function DuplicateStuffing(v: Row, times: nat): seq<Item> {
    seq(times, _ => Some(v))
  }

  // ----- no cryptographic attack counts -----

  lemma ForgedNeverCounts(organ: string, actionHash: string, verdict: string, ts: string, bits: bytes, pem: string,
                          asked: Json)
    requires Signatures.Read(bits).Junk?
    ensures !VerifyVerdict(ForgedSignatureVerdict(organ, actionHash, verdict, ts, bits), pem, asked).counts
  {
    Base64.DecodeOfEncode(Base64.Python, bits);
    CountsMeans(ForgedSignatureVerdict(organ, actionHash, verdict, ts, bits), pem, asked);
  }

  /** Impersonation counts only for whoever holds the victim's own key, equivocation only for the other action. */
  lemma SignedAttacksCountExactly(organ: string, action: string, key: string, verdict: string, ts: string, nonce: nat,
                                  pem: string, asked: Json)
    ensures VerifyVerdict(ImpersonationVerdict(organ, action, key, verdict, ts, nonce), pem, asked).counts
      <==> organ != "" && key == pem && asked == Str(action) && verdict == "allow"
    ensures VerifyVerdict(EquivocationVerdict(organ, action, key, verdict, ts, nonce), pem, asked).counts
      <==> organ != "" && key == pem && asked == Str(action) && verdict == "allow"
  {
    VerifyOfSign(Statement(organ, action, verdict, "", "", ts), key, nonce, pem, asked);
  }

  /** The statement that a tampered payload makes. */
  function TamperedStatement(s: Statement, newActionHash: Option<string>, newVerdict: Option<string>): Statement {
    s.(actionHash := if newActionHash.Some? then newActionHash.value else s.actionHash,
       verdict := if newVerdict.Some? then newVerdict.value else s.verdict)
  }

  lemma ActionHashEdited(s: Statement, v: Option<string>, ms: seq<Member>)
    requires IsFlat(ms) && forall m :: m in ms <==> m in StatementMembers(s)
    ensures var t := TamperedStatement(s, v, None);
      var r := PutIf(ms, "action_hash", v);
      IsFlat(r) && forall m :: m in r <==> m in StatementMembers(t)
  {
    EditField(s, TamperedStatement(s, v, None), 3, "action_hash", v, ms);
  }

  lemma VerdictEdited(s: Statement, v: Option<string>, ms: seq<Member>)
    requires IsFlat(ms) && forall m :: m in ms <==> m in StatementMembers(s)
    ensures var t := TamperedStatement(s, None, v);
      var r := PutIf(ms, "verdict", v);
      IsFlat(r) && forall m :: m in r <==> m in StatementMembers(t)
  {
    EditField(s, TamperedStatement(s, None, v), 4, "verdict", v, ms);
  }

  lemma TamperedBody(s: Statement, newActionHash: Option<string>, newVerdict: Option<string>, ms: seq<Member>)
    requires IsFlat(ms) && forall m :: m in ms <==> m in StatementMembers(s)
    requires Loads(Body(s)) == Some(Obj(ms))
    ensures EditedBody(Body(s), newActionHash, newVerdict)
        == Some(Body(TamperedStatement(s, newActionHash, newVerdict)))
  {
    var t := TamperedStatement(s, newActionHash, None);
    var u := TamperedStatement(s, newActionHash, newVerdict);
    ActionHashEdited(s, newActionHash, ms);
    VerdictEdited(t, newVerdict, PutIf(ms, "action_hash", newActionHash));
    assert u == TamperedStatement(t, None, newVerdict);
    StatementKeysDistinct(u);
    CanonicalOfFlat(PutIf(PutIf(ms, "action_hash", newActionHash), "verdict", newVerdict), StatementMembers(u));
  }

  /** Assigning one field of a decoded statement gives the members of the statement with that field changed. */
  lemma EditField(s: Statement, t: Statement, i: nat, k: string, v: Option<string>, ms: seq<Member>)
    requires i < 8 && StatementMembers(s)[i].key == k
    requires forall j | 0 <= j < 8 && j != i :: StatementMembers(t)[j] == StatementMembers(s)[j]
    requires StatementMembers(t)[i] == if v.Some? then Member(k, Str(v.value)) else StatementMembers(s)[i]
    requires IsFlat(ms) && forall m :: m in ms <==> m in StatementMembers(s)
    ensures IsFlat(PutIf(ms, k, v)) && forall m :: m in PutIf(ms, k, v) <==> m in StatementMembers(t)
  {
    var a, b := StatementMembers(s), StatementMembers(t);
    StatementKeysDistinct(s);
    StatementKeysDistinct(t);
    if v.Some? {
      PutMembers(ms, k, Str(v.value));
      forall m ensures m in PutIf(ms, k, v) <==> m in b {
        if m in b {
          var j :| 0 <= j < 8 && b[j] == m;
          assert a[j] in a;
        }
        if m in a && m.key != k {
          var j :| 0 <= j < 8 && a[j] == m;
          assert b[j] == m;
        }
        assert b[i] in b;
      }
    } else {
      assert a == b;
    }
  }

  /** Tampering with a genuine row puts the edited statement under the old signature. */
  lemma TamperedRow(v: Row, s: Statement, newActionHash: Option<string>, newVerdict: Option<string>)
    requires v.payload == Base64.Encode(Body(s)) && v.verdict == s.verdict
    ensures var t := TamperedStatement(s, newActionHash, newVerdict);
      TamperVerdict(v, newActionHash, newVerdict) == Some(v.(payload := Base64.Encode(Body(t)), verdict := t.verdict))
  {
    var body := Body(s);
    Base64.DecodeOfEncode(Base64.Python, body);
    var ms := LoadsOfBody(s);
    TamperedBody(s, newActionHash, newVerdict, ms);
  }

  /**
   A tampered row counts if and only if the genuine one did and nothing was really
   changed: the old signature never covers an edited statement.
   */
  lemma TamperedCountsExactly(s: Statement, key: string, nonce: nat, newActionHash: Option<string>,
                              newVerdict: Option<string>, pem: string, asked: Json)
    ensures var tampered := TamperVerdict(SignVerdict(s, key, nonce), newActionHash, newVerdict);
      && tampered.Some?
      && (VerifyVerdict(tampered.value, pem, asked).counts <==>
            VerifyVerdict(SignVerdict(s, key, nonce), pem, asked).counts
            && TamperedStatement(s, newActionHash, newVerdict) == s)
  {
    var t := TamperedStatement(s, newActionHash, newVerdict);
    var v := SignVerdict(s, key, nonce);
    TamperedRow(v, s, newActionHash, newVerdict);
    var tampered := TamperVerdict(v, newActionHash, newVerdict).value;
    if t != s {
      SignatureCoversOnlyItsStatement(s, t, key, nonce, pem, tampered, asked);
    } else {
      assert tampered == v;
    }
  }

  lemma SignatureCoversOnlyItsStatement(s: Statement, t: Statement, key: string, nonce: nat, pem: string, v: Row,
                                        asked: Json)
    requires s != t
    requires v.payload == Base64.Encode(Body(t)) && v.signature == SignVerdict(s, key, nonce).signature
    ensures !VerifyVerdict(v, pem, asked).counts
  {
    Base64.DecodeOfEncode(Base64.Python, Body(t));
    Base64.DecodeOfEncode(Base64.Python, Signatures.Sign(key, SignedBytes(s), nonce));
    Signatures.ReadOfSign(key, SignedBytes(s), nonce);
    CountsMeans(v, pem, asked);
    if SignedBytes(s) == SignedBytes(t) {
      SignedBytesInjective(s, t);
    }
  }

  // ----- duplicate stuffing -----

  lemma CountingCheck(actionHash: Json, v: Row, keys: PublicKeys)
    requires Counts(actionHash, Some(v), keys)
    ensures CheckItem(actionHash, Some(v), keys).counts && CheckItem(actionHash, Some(v), keys).organ == Some(v.organ)
  {
  }

  /** Copies of one entry have one check. */
  lemma CopiesCheckedAlike(actionHash: Json, item: Item, items: seq<Item>, c: OrganCheck, keys: PublicKeys)
    requires c == CheckItem(actionHash, item, keys) && forall i | 0 <= i < |items| :: items[i] == item
    ensures forall i | 0 <= i < |items| :: CheckAll(actionHash, items, keys)[i] == c
  {
  }

  lemma StuffedResults(actionHash: Json, items: seq<Item>, own: seq<OrganCheck>, c: OrganCheck, organ: string,
                       keys: PublicKeys, threshold: int, n: int)
    requires own == CheckAll(actionHash, items, keys) && Organs(own) == CountingOrgans(actionHash, items, keys)
    requires forall i | 0 <= i < |own| :: own[i] == c
    requires c.counts && c.organ == Some(organ) && 2 <= threshold <= n && |own| >= threshold
    ensures CountingOrgans(actionHash, items, keys) == {organ}
    ensures NaiveResult(actionHash, items, keys, threshold, n).consensusCount == |own|
    ensures NaiveResult(actionHash, items, keys, threshold, n).decision == Canonical
    ensures TallyResult(actionHash, items, keys, threshold, n).consensusCount == 1
    ensures TallyResult(actionHash, items, keys, threshold, n).decision == Rejected
  {
    OneOrganOnly(own, organ);
  }

  /** The naive counter takes every row and calls it canonical; the tally counts one organ and rejects. */
  predicate FoolsNaive(actionHash: Json, items: seq<Item>, keys: PublicKeys, threshold: int, n: int) {
    var naive := NaiveResult(actionHash, items, keys, threshold, n);
    var shipped := TallyResult(actionHash, items, keys, threshold, n);
    && naive.decision == Canonical && naive.consensusCount == |items|
    && shipped.decision == Rejected && shipped.consensusCount == 1
    && !SafetyHolds(naive, |CountingOrgans(actionHash, items, keys)|, threshold)
  }

  lemma CopiesFoolNaive(actionHash: Json, v: Row, items: seq<Item>, keys: PublicKeys, threshold: int, n: int)
    requires Counts(actionHash, Some(v), keys) && 2 <= threshold <= n && |items| >= threshold
    requires forall i | 0 <= i < |items| :: items[i] == Some(v)
    ensures FoolsNaive(actionHash, items, keys, threshold, n)
  {
    var c := CheckItem(actionHash, Some(v), keys);
    CountingCheck(actionHash, v, keys);
    CopiesCheckedAlike(actionHash, Some(v), items, c, keys);
    OrgansOfChecks(actionHash, items, keys);
    StuffedResults(actionHash, items, CheckAll(actionHash, items, keys), c, v.organ, keys, threshold, n);
  }

  lemma StuffedRows(v: Row, times: nat)
    ensures |DuplicateStuffing(v, times)| == times
    ensures forall i | 0 <= i < times :: DuplicateStuffing(v, times)[i] == Some(v)
  {
  }

  /**
   The headline case: one counting row, stuffed often enough, makes the naive counter
   declare a canonical decision that the tally rejects with a count of one.
   */
  lemma StuffingFoolsNaive(actionHash: Json, v: Row, times: nat, keys: PublicKeys, threshold: int, n: int)
    requires Counts(actionHash, Some(v), keys) && 2 <= threshold <= n && times >= threshold
    ensures FoolsNaive(actionHash, DuplicateStuffing(v, times), keys, threshold, n)
  {
    StuffedRows(v, times);
    CopiesFoolNaive(actionHash, v, DuplicateStuffing(v, times), keys, threshold, n);
  }
}
