/** The collusion lane: who signs a tampered payload, what a round comes to, and campaigns of rounds. */
module Collusion {
  import opened Wrappers
  import opened Utf8
  import opened Json
  import opened JsonText
  import opened Digests

  /** A simulated witness; `mac` stands for its keyed hash. */
  datatype Witness = Witness(id: int, key: bytes, colluder: bool)

  type Mac = (bytes, string) -> string

  /** `_canon`: sorted keys, compact, ASCII only. */
  function Canon(payload: seq<Member>): bytes {
    Utf8.Encode(Canonical(PythonAscii, Obj(payload)))
  }

  /** `attest`: a colluder signs whatever is presented, an honest witness only what was committed. */
  function Attest(mac: Mac, w: Witness, committed: string, presented: string): Option<string> {
    if w.colluder then Some(mac(w.key, presented))
    else if presented == committed then Some(mac(w.key, committed))
    else None
  }

  // ----- tampering -----

  function Repeat<T>(s: seq<T>, times: nat): (r: seq<T>)
    ensures |r| == |s| * times
  {
    if times == 0 then [] else s + Repeat(s, times - 1)
  }

  /** Python's `v * 100`; `None` where it raises. */
  function Times100(v: Json): Option<Json> {
    match v
    case Int(n) => Some(Int(n * 100))
    case Bool(b) => Some(Int(if b then 100 else 0))
    case Str(s) => Some(Str(Repeat(s, 100)))
    case Arr(items) => Some(Arr(Repeat(items, 100)))
    case _ => None
  }

  /** `committed_payload.get("amount", 0)`. */
  function Amount(payload: seq<Member>): Json {
    if Has(payload, "amount") then Get(payload, "amount") else Int(0)
  }

  function Presented(payload: seq<Member>, tampered: bool): Option<seq<Member>> {
    if !tampered then Some(payload)
    else match Times100(Amount(payload))
      case None => None
      case Some(v) => Some(Put(payload, "amount", v))
  }

  /** Tampering really changes a payload unless its amount is there and is `0`, `""` or `[]`. */
  predicate Changes(payload: seq<Member>) {
    !Has(payload, "amount")
    || (Get(payload, "amount") != Int(0) && Get(payload, "amount") != Str("") && Get(payload, "amount") != Arr([]))
  }

  lemma Times100Changes(v: Json)
    requires Times100(v).Some? && IsDict(v)
    ensures Same(v, Times100(v).value) <==> v == Int(0) || v == Str("") || v == Arr([])
  {
  }

  lemma RepeatItems(items: seq<Json>, times: nat)
    ensures forall x | x in Repeat(items, times) :: x in items
  {
  }

  lemma SameDicts(ms: seq<Member>, v: Json)
    requires IsDict(Obj(ms)) && IsDict(v)
    ensures IsDict(Obj(Put(ms, "amount", v)))
    ensures Same(Obj(ms), Obj(Put(ms, "amount", v))) <==> Has(ms, "amount") && Same(Get(ms, "amount"), v)
  {
    PutMembers(ms, "amount", v);
    PutKeepsDict(ms, "amount", v);
    var ns := Put(ms, "amount", v);
    var i := IndexOf(ms, "amount");
    if i < |ms| {
      assert forall j | 0 <= j < |ms| :: ns[j].key == ms[j].key;
      SameByIndex(ms, ns);
      forall j | 0 <= j < |ms| && j != i ensures Same(ms[j].value, ns[j].value) {
        SameReflexive(ms[j].value);
      }
      assert ns[i].value == v && ms[i].value == Get(ms, "amount");
    } else {
      assert "amount" in Keys(ns) && "amount" !in Keys(ms);
    }
  }

  lemma SameReflexive(v: Json)
    requires IsDict(v)
    ensures Same(v, v)
  {
  }

  /** The presented bytes differ from the committed ones exactly when tampering changes the payload. */
  lemma TamperingShows(payload: seq<Member>)
    requires IsDict(Obj(payload)) && Presented(payload, true).Some?
    ensures Canon(Presented(payload, true).value) != Canon(payload) <==> Changes(payload)
  {
    var v := Times100(Amount(payload)).value;
    var ns := Presented(payload, true).value;
    ScaledIsDict(payload);
    SameDicts(payload, v);
    PythonIsExact(PythonAscii, Obj(payload));
    PythonIsExact(PythonAscii, Obj(ns));
    CanonicalIffSame(PythonAscii, Obj(payload), Obj(ns));
    if Canon(ns) == Canon(payload) {
      Utf8.EncodeInjective(Canonical(PythonAscii, Obj(ns)), Canonical(PythonAscii, Obj(payload)));
    }
    if Has(payload, "amount") {
      assert Member("amount", Get(payload, "amount")) in payload;
      Times100Changes(Get(payload, "amount"));
    }
  }

  lemma ScaledIsDict(payload: seq<Member>)
    requires IsDict(Obj(payload)) && Times100(Amount(payload)).Some?
    ensures IsDict(Times100(Amount(payload)).value)
  {
    if Has(payload, "amount") {
      assert Member("amount", Get(payload, "amount")) in payload;
      if Get(payload, "amount").Arr? {
        RepeatItems(Get(payload, "amount").items, 100);
      }
    }
  }

  // ----- one round -----

  datatype Outcome = Repelled | QuorumBreachChainCaught | Passed

  /** `signers` is the sorted list of the source, as a set. */
  datatype Round = Round(
    quorumReached: bool,
    signers: set<int>,
    tampered: bool,
    tamperDetected: bool,
    outcome: Outcome,
    presentedHash: string,
    committedHash: string)

  /** The exception of multiplying an amount that cannot be multiplied. */
  datatype RoundError = AmountNotScalable

  /** Who signs when these hashes are put to the witnesses. */
  function Signers(witnesses: seq<Witness>, committed: string, presented: string): set<int> {
    set w | w in witnesses && (w.colluder || presented == committed) :: w.id
  }

  function RoundOf(witnesses: seq<Witness>, committed: string, presented: string, tampered: bool): Round {
    var signers := Signers(witnesses, committed, presented);
    var quorum := |signers| >= 3;
    var detected := quorum && presented != committed;
    Round(quorum, signers, tampered, detected,
          if !quorum then Repelled else if detected then QuorumBreachChainCaught else Passed, presented, committed)
  }

  lemma SignersStep(witnesses: seq<Witness>, i: nat, committed: string, presented: string)
    requires i < |witnesses|
    ensures Signers(witnesses[..i + 1], committed, presented)
         == Signers(witnesses[..i], committed, presented)
            + if witnesses[i].colluder || presented == committed then {witnesses[i].id} else {}
  {
  }

  /** `run_round`: copies and edits the payload, then collects the signatures by witness id. */
  method RunRound(sha256: Sha256, mac: Mac, witnesses: seq<Witness>, committedPayload: seq<Member>, tampered: bool)
    returns (r: Result<Round, RoundError>)
    ensures r == match Presented(committedPayload, tampered)
                 case None => Err(AmountNotScalable)
                 case Some(p) => Ok(RoundOf(witnesses, sha256(Canon(committedPayload)), sha256(Canon(p)), tampered))
  {
    var committedHash := sha256(Canon(committedPayload));
    var presentedPayload := committedPayload;
    if tampered {
      var scaled := Times100(Amount(committedPayload));
      if scaled.None? {
        return Err(AmountNotScalable);
      }
      presentedPayload := Put(presentedPayload, "amount", scaled.value);
    }
    var presentedHash := sha256(Canon(presentedPayload));
    var sigs: map<int, string> := map[];
    for i := 0 to |witnesses|
      invariant sigs.Keys == Signers(witnesses[..i], committedHash, presentedHash)
    {
      SignersStep(witnesses, i, committedHash, presentedHash);
      var s := Attest(mac, witnesses[i], committedHash, presentedHash);
      if s.Some? {
        sigs := sigs[witnesses[i].id := s.value];
      }
    }
    assert witnesses[..|witnesses|] == witnesses;
    var quorumReached := |sigs.Keys| >= 3;
    var tamperDetected := quorumReached && presentedHash != committedHash;
    var outcome := if !quorumReached then Repelled else if tamperDetected then QuorumBreachChainCaught else Passed;
    r := Ok(Round(quorumReached, sigs.Keys, tampered, tamperDetected, outcome, presentedHash, committedHash));
  }

  predicate DistinctIds(ws: seq<Witness>) {
    forall i, j | 0 <= i < j < |ws| :: ws[i].id != ws[j].id
  }

  function ColluderCount(ws: seq<Witness>): nat {
    if ws == [] then 0 else (if ws[0].colluder then 1 else 0) + ColluderCount(ws[1..])
  }

  function ColluderIds(ws: seq<Witness>): set<int> {
    set w | w in ws && w.colluder :: w.id
  }

  lemma ColludersStep(ws: seq<Witness>)
    requires DistinctIds(ws) && ws != []
    ensures ColluderIds(ws) == ColluderIds(ws[1..]) + (if ws[0].colluder then {ws[0].id} else {})
    ensures ws[0].id !in ColluderIds(ws[1..])
  {
  }

  lemma {:induction false} ColludersSize(ws: seq<Witness>)
    requires DistinctIds(ws)
    ensures |ColluderIds(ws)| == ColluderCount(ws)
  {
    if ws == [] {
      assert ColluderIds(ws) == {};
    } else {
      ColludersSize(ws[1..]);
      ColludersStep(ws);
    }
  }

  /** The hashes of a payload and of what is presented for it. */
  function RoundFor(sha256: Sha256, ws: seq<Witness>, payload: seq<Member>, tampered: bool): Round
    requires Presented(payload, tampered).Some?
  {
    RoundOf(ws, sha256(Canon(payload)), sha256(Canon(Presented(payload, tampered).value)), tampered)
  }

  /**
   A tampered round whose payload really changes is signed by exactly the colluders:
   repelled below three of them, caught by the hash chain at three or more, and it
   never passes. (No collision of the two payloads is assumed.)
   */
  lemma TamperedRound(sha256: Sha256, ws: seq<Witness>, payload: seq<Member>)
    requires DistinctIds(ws) && IsDict(Obj(payload)) && Presented(payload, true).Some? && Changes(payload)
    requires NoCollision(sha256, Canon(payload), Canon(Presented(payload, true).value))
    ensures var r := RoundFor(sha256, ws, payload, true);
      && r.signers == ColluderIds(ws) && |r.signers| == ColluderCount(ws)
      && r.outcome == (if ColluderCount(ws) < 3 then Repelled else QuorumBreachChainCaught)
      && (r.tamperDetected <==> ColluderCount(ws) >= 3)
  {
    TamperingShows(payload);
    ColludersSize(ws);
    var r := RoundFor(sha256, ws, payload, true);
    assert r.presentedHash != r.committedHash;
    assert Signers(ws, r.committedHash, r.presentedHash) == ColluderIds(ws);
  }

  function Ids(ws: seq<Witness>): set<int> {
    set w | w in ws :: w.id
  }

  lemma IdsStep(ws: seq<Witness>)
    requires DistinctIds(ws) && ws != []
    ensures Ids(ws) == Ids(ws[1..]) + {ws[0].id} && ws[0].id !in Ids(ws[1..])
  {
  }

  lemma {:induction false} IdsSize(ws: seq<Witness>)
    requires DistinctIds(ws)
    ensures |Ids(ws)| == |ws|
  {
    if ws == [] {
      assert Ids(ws) == {};
    } else {
      IdsSize(ws[1..]);
      IdsStep(ws);
    }
  }

  /** An untampered round, or one that changes nothing, is signed by everybody, colluders or not. */
  lemma UnchangedRound(sha256: Sha256, ws: seq<Witness>, payload: seq<Member>, tampered: bool)
    requires DistinctIds(ws) && IsDict(Obj(payload)) && Presented(payload, tampered).Some?
    requires !tampered || !Changes(payload)
    ensures var r := RoundFor(sha256, ws, payload, tampered);
      && |r.signers| == |ws| && !r.tamperDetected
      && r.outcome == (if |ws| < 3 then Repelled else Passed)
  {
    if tampered {
      TamperingShows(payload);
    }
    IdsSize(ws);
    var h := sha256(Canon(payload));
    assert Signers(ws, h, h) == Ids(ws);
  }

  // ----- campaigns -----

  datatype Campaign = Campaign(colluders: int, rounds: int, repelled: nat, caught: nat, passed: nat)

  datatype CampaignError = BadColluders | BadRounds

  function Crew(colluders: int, keys: nat -> bytes): (ws: seq<Witness>)
    ensures |ws| == 4 && forall i | 0 <= i < 4 :: ws[i] == Witness(i, keys(i), i < colluders)
  {
    seq(4, i requires 0 <= i => Witness(i, keys(i), i < colluders))
  }

  function CampaignPayload(seed: Json): seq<Member> {
    [Member("proposal", Str("interdiction")), Member("amount", Int(1)), Member("nonce", seed)]
  }

  function CountOutcomes(results: seq<Round>, o: Outcome): nat {
    if results == [] then 0 else (if results[0].outcome == o then 1 else 0) + CountOutcomes(results[1..], o)
  }

  /** Every round has one of three outcomes, so the counts add up. */
  lemma {:induction false} OutcomesAddUp(results: seq<Round>)
    ensures CountOutcomes(results, Repelled) + CountOutcomes(results, QuorumBreachChainCaught)
            + CountOutcomes(results, Passed)
         == |results|
  {
    if results != [] {
      OutcomesAddUp(results[1..]);
    }
  }

  lemma {:induction false} SameOutcomes(results: seq<Round>, o: Outcome)
    requires forall i | 0 <= i < |results| :: results[i].outcome == o
    ensures forall p :: CountOutcomes(results, p) == if p == o then |results| else 0
  {
    if results != [] {
      SameOutcomes(results[1..], o);
    }
  }

  lemma CampaignScales(seed: Json)
    ensures Presented(CampaignPayload(seed), true).Some? && Changes(CampaignPayload(seed))
  {
  }

  /** The rounds of a campaign; tampered whenever there is a colluder. */
  function Results(sha256: Sha256, ws: seq<Witness>, seed: Json, tampered: bool, rounds: nat): (r: seq<Round>)
    ensures |r| == rounds
  {
    CampaignScales(seed);
    seq(rounds, _ => RoundFor(sha256, ws, CampaignPayload(seed), tampered))
  }

  /** The counts of a campaign's rounds. */
  function Summary(colluders: int, results: seq<Round>): Campaign {
    Campaign(colluders, |results|, CountOutcomes(results, Repelled),
             CountOutcomes(results, QuorumBreachChainCaught), CountOutcomes(results, Passed))
  }

  /** `run_campaign`: validates, then runs the rounds and counts what they came to. */
  function RunCampaign(sha256: Sha256, keys: nat -> bytes, colluders: Json, rounds: Json, seed: Json)
    : Result<Campaign, CampaignError>
  {
    if !colluders.Int? || !(0 <= colluders.n <= 4) then Err(BadColluders)
    else if !rounds.Int? || rounds.n < 1 then Err(BadRounds)
    else
      Ok(Summary(colluders.n, Results(sha256, Crew(colluders.n, keys), seed, colluders.n > 0, rounds.n)))
  }

  /** Outcome accounting: in every campaign the three counts sum to the number of rounds. */
  lemma CampaignAddsUp(sha256: Sha256, keys: nat -> bytes, colluders: Json, rounds: Json, seed: Json)
    ensures var c := RunCampaign(sha256, keys, colluders, rounds, seed);
      c.Ok? ==> c.value.repelled + c.value.caught + c.value.passed == c.value.rounds && Int(c.value.rounds) == rounds
  {
    if colluders.Int? && 0 <= colluders.n <= 4 && rounds.Int? && rounds.n >= 1 {
      OutcomesAddUp(Results(sha256, Crew(colluders.n, keys), seed, colluders.n > 0, rounds.n));
    }
  }

  lemma {:induction false} ColludersFrom(ws: seq<Witness>, colluders: int, k: nat)
    requires 0 <= colluders <= |ws| && k <= |ws|
    requires forall i | 0 <= i < |ws| :: ws[i].colluder <==> i < colluders
    ensures ColluderCount(ws[k..]) == if k < colluders then colluders - k else 0
    decreases |ws| - k
  {
    if k < |ws| {
      ColludersFrom(ws, colluders, k + 1);
      assert ws[k..][1..] == ws[k + 1..];
    }
  }

  lemma CrewColluders(colluders: int, keys: nat -> bytes)
    requires 0 <= colluders <= 4
    ensures DistinctIds(Crew(colluders, keys)) && ColluderCount(Crew(colluders, keys)) == colluders
  {
    var ws := Crew(colluders, keys);
    ColludersFrom(ws, colluders, 0);
    assert ws[0..] == ws;
  }

  /** The payload pair of every tampered round of the lane does not collide. */
  predicate LaneDoesNotCollide(sha256: Sha256, seed: Json) {
    CampaignScales(seed);
    NoCollision(sha256, Canon(CampaignPayload(seed)), Canon(Presented(CampaignPayload(seed), true).value))
  }

  function ExpectedOutcome(colluders: int): Outcome {
    if colluders == 0 then Passed else if colluders < 3 then Repelled else QuorumBreachChainCaught
  }

  lemma EveryRound(sha256: Sha256, ws: seq<Witness>, payload: seq<Member>, colluders: int)
    requires DistinctIds(ws) && |ws| == 4 && ColluderCount(ws) == colluders
    requires IsDict(Obj(payload)) && Presented(payload, true).Some? && Changes(payload)
    requires NoCollision(sha256, Canon(payload), Canon(Presented(payload, true).value))
    ensures RoundFor(sha256, ws, payload, colluders > 0).outcome == ExpectedOutcome(colluders)
  {
    if colluders > 0 {
      TamperedRound(sha256, ws, payload);
    } else {
      UnchangedRound(sha256, ws, payload, false);
    }
  }

  lemma ResultsOutcome(sha256: Sha256, ws: seq<Witness>, seed: Json, colluders: int, rounds: nat)
    requires DistinctIds(ws) && |ws| == 4 && ColluderCount(ws) == colluders
    requires IsDict(seed) && LaneDoesNotCollide(sha256, seed)
    ensures forall r | r in Results(sha256, ws, seed, colluders > 0, rounds) :: r.outcome == ExpectedOutcome(colluders)
  {
    CampaignScales(seed);
    PayloadIsDict(seed);
    EveryRound(sha256, ws, CampaignPayload(seed), colluders);
  }

  /** A campaign all of whose rounds come to `o`. */
  function Uniform(colluders: int, rounds: nat, o: Outcome): Campaign {
    Campaign(colluders, rounds, if o == Repelled then rounds else 0,
             if o == QuorumBreachChainCaught then rounds else 0, if o == Passed then rounds else 0)
  }

  lemma UniformSummary(colluders: int, results: seq<Round>, o: Outcome)
    requires forall r | r in results :: r.outcome == o
    ensures Summary(colluders, results) == Uniform(colluders, |results|, o)
  {
    SameOutcomes(results, o);
  }

  /** Every round of a campaign comes to the same: passed, repelled or caught, by the number of colluders alone. */
  lemma CampaignOutcome(sha256: Sha256, keys: nat -> bytes, colluders: int, rounds: int, seed: Json)
    requires 0 <= colluders <= 4 && rounds >= 1 && IsDict(seed) && LaneDoesNotCollide(sha256, seed)
    ensures RunCampaign(sha256, keys, Int(colluders), Int(rounds), seed)
         == Ok(Uniform(colluders, rounds, ExpectedOutcome(colluders)))
  {
    var ws := Crew(colluders, keys);
    CrewColluders(colluders, keys);
    ResultsOutcome(sha256, ws, seed, colluders, rounds);
    UniformSummary(colluders, Results(sha256, ws, seed, colluders > 0, rounds), ExpectedOutcome(colluders));
  }

  lemma PayloadIsDict(seed: Json)
    requires IsDict(seed)
    ensures IsDict(Obj(CampaignPayload(seed)))
  {
  }

  // ----- the lane -----

  datatype LaneVerdict = DesignRequirement | Inconclusive

  /** `_verdict`. */
  function VerdictOf(spectrum: seq<Campaign>, rounds: int): LaneVerdict
    requires |spectrum| == 5
  {
    var repelOk := spectrum[1].repelled == spectrum[1].rounds && spectrum[2].repelled == spectrum[2].rounds;
    var catchOk := spectrum[3].caught == rounds && spectrum[4].caught == rounds;
    if repelOk && catchOk then DesignRequirement else Inconclusive
  }

  /** What `run_campaign` says for 0 to 4 colluders. */
  function Campaigns(sha256: Sha256, keys: nat -> nat -> bytes, seed: Json, rounds: Json)
    : (r: seq<Result<Campaign, CampaignError>>)
    ensures |r| == 5 && forall k | 0 <= k < 5 :: r[k] == RunCampaign(sha256, keys(k), Int(k), rounds, seed)
  {
    seq(5, k requires 0 <= k => RunCampaign(sha256, keys(k), Int(k), rounds, seed))
  }

  lemma AllCampaignsRun(sha256: Sha256, keys: nat -> nat -> bytes, seed: Json, rounds: Json)
    ensures forall k | 0 <= k < 5 :: Campaigns(sha256, keys, seed, rounds)[k].Ok? <==> rounds.Int? && rounds.n >= 1
  {
  }

  datatype Lane = Lane(spectrum: seq<Campaign>, verdict: LaneVerdict)

  /** `full_lane`: the campaigns with 0 to 4 colluders, or the first one's refusal, and the verdict on them. */
  function FullLane(sha256: Sha256, keys: nat -> nat -> bytes, seed: Json, rounds: Json): Result<Lane, CampaignError> {
    AllCampaignsRun(sha256, keys, seed, rounds);
    var all := Campaigns(sha256, keys, seed, rounds);
    if all[0].Err? then Err(all[0].error)
    else
      var spectrum := seq(5, k requires 0 <= k < 5 => all[k].value);
      Ok(Lane(spectrum, VerdictOf(spectrum, rounds.n)))
  }

  lemma LaneSpectrum(sha256: Sha256, keys: nat -> nat -> bytes, seed: Json, rounds: Json, lane: Lane)
    requires rounds.Int? && FullLane(sha256, keys, seed, rounds) == Ok(lane)
    ensures |lane.spectrum| == 5 && lane.verdict == VerdictOf(lane.spectrum, rounds.n)
    ensures forall k | 0 <= k < 5 :: Ok(lane.spectrum[k]) == Campaigns(sha256, keys, seed, rounds)[k]
  {
    AllCampaignsRun(sha256, keys, seed, rounds);
  }

  /** For every seed and every positive number of rounds the lane is conclusive, unless its payload pair collides. */
  lemma LaneIsConclusive(sha256: Sha256, keys: nat -> nat -> bytes, seed: Json, rounds: Json)
    requires IsDict(seed) && LaneDoesNotCollide(sha256, seed)
    ensures var lane := FullLane(sha256, keys, seed, rounds);
      && (lane.Ok? <==> rounds.Int? && rounds.n >= 1)
      && (lane.Ok? ==> lane.value.verdict == DesignRequirement)
  {
    AllCampaignsRun(sha256, keys, seed, rounds);
    if rounds.Int? && rounds.n >= 1 {
      var lane := FullLane(sha256, keys, seed, rounds).value;
      LaneSpectrum(sha256, keys, seed, rounds, lane);
      NeverInconclusive(sha256, keys, seed, rounds.n, lane.spectrum);
    }
  }

  lemma CampaignInSpectrum(sha256: Sha256, keys: nat -> nat -> bytes, seed: Json, rounds: int, c: Campaign, k: nat)
    requires rounds >= 1 && IsDict(seed) && LaneDoesNotCollide(sha256, seed)
    requires 1 <= k < 5 && Ok(c) == Campaigns(sha256, keys, seed, Int(rounds))[k]
    ensures c.rounds == rounds && (if k < 3 then c.repelled == rounds else c.caught == rounds)
  {
    CampaignOutcome(sha256, keys(k), k, rounds, seed);
  }

  lemma NeverInconclusive(sha256: Sha256, keys: nat -> nat -> bytes, seed: Json, rounds: int, spectrum: seq<Campaign>)
    requires rounds >= 1 && IsDict(seed) && LaneDoesNotCollide(sha256, seed) && |spectrum| == 5
    requires forall k | 0 <= k < 5 :: Ok(spectrum[k]) == Campaigns(sha256, keys, seed, Int(rounds))[k]
    ensures VerdictOf(spectrum, rounds) == DesignRequirement
  {
    CampaignInSpectrum(sha256, keys, seed, rounds, spectrum[1], 1);
    CampaignInSpectrum(sha256, keys, seed, rounds, spectrum[2], 2);
    CampaignInSpectrum(sha256, keys, seed, rounds, spectrum[3], 3);
    CampaignInSpectrum(sha256, keys, seed, rounds, spectrum[4], 4);
  }
}
