/**
 Safety, agreement and liveness for the tallies of all three languages, over every run:
 what makes a row count in any of them is a signature, and that is what an adversary
 cannot produce. Verifiers in different languages may look at different lists.
 */
module LanguageSafety {
  import opened Wrappers
  import opened Json
  import opened Verdict
  import opened Tally
  import opened Counting
  import opened GoTally
  import opened TsTally
  import opened WireRows
  import opened TallyAgreement
  import opened Disagreements
  import Machine
  import Base64
  import Pae

  // ----- one result for three tallies -----

  /** What the tally of a language makes of rows on the wire. */
  function ResultIn(lib: Base64.Library, h: string, ws: seq<Option<Wire>>, keys: PublicKeys, threshold: int,
                    n: int): ConsensusResult {
    match lib
    case Python => TallyResult(Str(h), PythonItems(ws), keys, threshold, n)
    case Go => GoResult(h, GoItems(ws), keys, threshold, n)
    case Node => TsResult(h, ws, keys, threshold, n)
  }

  predicate CountsAt(lib: Base64.Library, h: string, w: Option<Wire>, keys: PublicKeys) {
    w.Some? && CountsIn(lib, w.value, keys, h)
  }

  /** The organs with a row that counts in a language. */
  function OrgansIn(lib: Base64.Library, h: string, ws: seq<Option<Wire>>, keys: PublicKeys): set<string> {
    set w | w in ws && CountsAt(lib, h, w, keys) :: w.value.organ
  }

  /** Checks that are those of the rows, as far as counting goes. */
  predicate ChecksOf(lib: Base64.Library, h: string, ws: seq<Option<Wire>>, keys: PublicKeys, own: seq<OrganCheck>) {
    && |own| == |ws|
    && forall i | 0 <= i < |ws| ::
         && own[i].counts == CountsAt(lib, h, ws[i], keys)
         && (own[i].counts ==> own[i].organ == Some(ws[i].value.organ))
  }

  lemma OrgansOfWires(lib: Base64.Library, h: string, ws: seq<Option<Wire>>, keys: PublicKeys, own: seq<OrganCheck>)
    requires ChecksOf(lib, h, ws, keys, own) && OwnChecks(own)
    ensures Organs(own) == OrgansIn(lib, h, ws, keys)
  {
    forall o ensures o in Organs(own) <==> o in OrgansIn(lib, h, ws, keys) {
      if o in OrgansIn(lib, h, ws, keys) {
        var i :| 0 <= i < |ws| && CountsAt(lib, h, ws[i], keys) && ws[i].value.organ == o;
        assert own[i] in own;
      }
    }
  }

  /** In every language: canonical exactly with valid quorum counts and enough distinct counting organs. */
  lemma ResultMeans(lib: Base64.Library, h: string, ws: seq<Option<Wire>>, keys: PublicKeys, threshold: int, n: int)
    ensures ResultIn(lib, h, ws, keys, threshold, n).decision == Canonical <==>
      ValidQuorumCounts(threshold, n) && |OrgansIn(lib, h, ws, keys)| >= threshold
  {
    match lib
    case Python =>
      OrgansOfChecks(Str(h), PythonItems(ws), keys);
      OrgansOfWires(lib, h, ws, keys, CheckAll(Str(h), PythonItems(ws), keys));
    case Go => OrgansOfWires(lib, h, ws, keys, GoCheckAll(h, GoItems(ws), keys));
    case Node => OrgansOfWires(lib, h, ws, keys, TsCheckAll(h, ws, keys));
  }

  // ----- a counting row is signed, in every language -----

  /** The adversary holds the signature text of this row; everything else in it is its own choice. */
  predicate Holds(pool: set<Row>, w: Wire) {
    exists row :: row in pool && row.signature == w.signature
  }

  /** Lists of wire rows that can be put together from the pool. */
  predicate WiresDrawn(ws: seq<Option<Wire>>, pool: set<Row>) {
    forall w | w in ws && w.Some? :: Holds(pool, w.value)
  }

  /** A statement that some language reads as an organ allowing an action is that organ's `allow` for it. */
  lemma ReadingOfBody(lib: Base64.Library, s: Statement, organ: string, h: string)
    requires ReadingIn(lib, Body(s)) == Some((organ, h)) && organ != ""
    ensures s.organ == organ && s.verdict == "allow" && s.actionHash == h
  {
    StatementReadings(s);
    LoadsAllowsIsReading(Body(s), organ, h);
    AllowingStatement(s, Body(s), organ, Str(h));
  }

  lemma SealIsCarried(lib: Base64.Library, w: Wire, keys: PublicKeys, row: Row)
    requires Sealed(lib, w, keys) && row.signature == w.signature
    ensures Machine.Carries(row, keys[w.organ], Pae.Pae(PAYLOAD_TYPE, DocumentOf(lib, w)))
  {
    assert Machine.CarriesIn(lib, row, keys[w.organ], Pae.Pae(PAYLOAD_TYPE, DocumentOf(lib, w)));
  }

  /** The document of a sealed row in an honest name is a statement which that witness signed. */
  lemma SealedIsStatement(s: Machine.State, lib: Base64.Library, w: Wire) returns (e: Machine.Entry)
    requires Machine.Inv(s) && Holds(s.pool, w) && Machine.Honest(s, w.organ) && Sealed(lib, w, s.keys)
    ensures e in s.log && DocumentOf(lib, w) == Body(e.statement)
  {
    var row :| row in s.pool && row.signature == w.signature;
    var pem, body := s.keys[w.organ], DocumentOf(lib, w);
    SealIsCarried(lib, w, s.keys, row);
    assert Machine.Genuine(s, row);
    Machine.GenuineIsSigned(s, row, pem, Pae.Pae(PAYLOAD_TYPE, body));
    Machine.NeverSignedElsewhere(s, pem, body);
    e :| e in s.log && e.key == pem && Pae.Pae(PAYLOAD_TYPE, body) == SignedBytes(e.statement);
    Pae.PaeInjective(PAYLOAD_TYPE, body, PAYLOAD_TYPE, Body(e.statement));
  }

  /** A row that counts in some language in an honest organ's name was signed by that organ, saying exactly that. */
  lemma CountingWireIsSigned(s: Machine.State, lib: Base64.Library, w: Wire, h: string)
    requires Machine.Inv(s) && Holds(s.pool, w) && Machine.Honest(s, w.organ) && CountsIn(lib, w, s.keys, h)
    ensures w.organ in Machine.HonestAllowers(s, Str(h))
  {
    CountsExactly(lib, w, s.keys, h);
    var e := SealedIsStatement(s, lib, w);
    ReadingOfBody(lib, e.statement, w.organ, h);
  }

  lemma OrgansAreSigned(s: Machine.State, lib: Base64.Library, h: string, ws: seq<Option<Wire>>)
    requires Machine.Inv(s) && WiresDrawn(ws, s.pool)
    ensures OrgansIn(lib, h, ws, s.keys) <= Machine.HonestAllowers(s, Str(h)) + Machine.Compromised(s)
  {
    forall o | o in OrgansIn(lib, h, ws, s.keys)
      ensures o in Machine.HonestAllowers(s, Str(h)) + Machine.Compromised(s)
    {
      var w :| w in ws && CountsAt(lib, h, w, s.keys) && w.value.organ == o;
      CountingOrganIsRegistered(lib, w.value, h, s.keys);
      if o !in Machine.Compromised(s) {
        CountingWireIsSigned(s, lib, w.value, h);
      }
    }
  }

  lemma CountingOrganIsRegistered(lib: Base64.Library, w: Wire, h: string, keys: PublicKeys)
    requires CountsIn(lib, w, keys, h)
    ensures w.organ in keys
  {
    CountsExactly(lib, w, keys, h);
  }

  lemma OrgansAreRegistered(lib: Base64.Library, h: string, ws: seq<Option<Wire>>, keys: PublicKeys)
    ensures OrgansIn(lib, h, ws, keys) <= keys.Keys
  {
    forall w | w in ws && CountsAt(lib, h, w, keys) ensures w.value.organ in keys {
      CountingOrganIsRegistered(lib, w.value, h, keys);
    }
  }

  // ----- theorems -----

  /**
   Safety over every run, in every language: if a list drawn from what the adversary
   holds makes the Python, Go or TypeScript tally declare an action canonical, then all
   but `|Compromised|` of the threshold are uncompromised witnesses that signed `allow`
   over it and are counted there.
   */
  lemma SafetyInEveryLanguage(states: seq<Machine.State>, steps: seq<Machine.Step>, i: nat, lib: Base64.Library,
                              ws: seq<Option<Wire>>, h: string, threshold: int, n: int)
    requires Machine.IsRun(states, steps) && i < |states| && WiresDrawn(ws, states[i].pool)
    requires ResultIn(lib, h, ws, states[i].keys, threshold, n).decision == Canonical
    ensures var s := states[i];
      |Machine.HonestAllowers(s, Str(h)) * OrgansIn(lib, h, ws, s.keys)| >= threshold - |Machine.Compromised(s)|
  {
    var s := states[i];
    Machine.RunKeepsInv(states, steps, i);
    OrgansAreSigned(s, lib, h, ws);
    ResultMeans(lib, h, ws, s.keys, threshold, n);
    CoveredBy(OrgansIn(lib, h, ws, s.keys), Machine.HonestAllowers(s, Str(h)), Machine.Compromised(s));
  }

  lemma DrawnStays(states: seq<Machine.State>, steps: seq<Machine.Step>, i: nat, j: nat, ws: seq<Option<Wire>>)
    requires Machine.IsRun(states, steps) && i <= j < |states| && WiresDrawn(ws, states[i].pool)
    ensures WiresDrawn(ws, states[j].pool) && states[j].keys == states[i].keys
  {
    Machine.RunGrows(states, steps, i, j);
    forall w | w in ws && w.Some? ensures Holds(states[j].pool, w.value) {
      assert Holds(states[i].pool, w.value);
      var row :| row in states[i].pool && row.signature == w.value.signature;
      assert row in states[j].pool;
    }
  }

  /**
   Quorum intersection across languages and moments: what one tally and another declare
   canonical shares counted organs that are uncompromised and signed `allow` for both.
   */
  lemma IntersectionAcross(states: seq<Machine.State>, steps: seq<Machine.Step>, i: nat, j: nat,
                           a: Base64.Library, wsA: seq<Option<Wire>>, hA: string,
                           b: Base64.Library, wsB: seq<Option<Wire>>, hB: string, threshold: int, n: int)
    requires Machine.IsRun(states, steps) && i <= j < |states|
    requires WiresDrawn(wsA, states[i].pool) && WiresDrawn(wsB, states[j].pool)
    requires ResultIn(a, hA, wsA, states[i].keys, threshold, n).decision == Canonical
    requires ResultIn(b, hB, wsB, states[j].keys, threshold, n).decision == Canonical
    ensures var s := states[j];
      |(Machine.HonestAllowers(s, Str(hA)) * Machine.HonestAllowers(s, Str(hB)))
       * (OrgansIn(a, hA, wsA, s.keys) * OrgansIn(b, hB, wsB, s.keys))|
      >= 2 * threshold - |s.keys| - |Machine.Compromised(s)|
  {
    var s := states[j];
    DrawnStays(states, steps, i, j, wsA);
    Machine.RunKeepsInv(states, steps, j);
    OrgansAreSigned(s, a, hA, wsA);
    OrgansAreSigned(s, b, hB, wsB);
    ResultMeans(a, hA, wsA, s.keys, threshold, n);
    ResultMeans(b, hB, wsB, s.keys, threshold, n);
    OrgansAreRegistered(a, hA, wsA, s.keys);
    OrgansAreRegistered(b, hB, wsB, s.keys);
    Intersection(OrgansIn(a, hA, wsA, s.keys), OrgansIn(b, hB, wsB, s.keys), s.keys.Keys);
    CoveredBy(OrgansIn(a, hA, wsA, s.keys) * OrgansIn(b, hB, wsB, s.keys),
              Machine.HonestAllowers(s, Str(hA)) * Machine.HonestAllowers(s, Str(hB)), Machine.Compromised(s));
  }

  /**
   Agreement across languages: while honest witnesses allow one action each and fewer
   than `2 * threshold - |registry|` keys are compromised, no two verifiers, whatever
   their language and whatever lists they are shown, declare different actions canonical.
   */
  lemma AgreementAcross(states: seq<Machine.State>, steps: seq<Machine.Step>, i: nat, j: nat,
                        a: Base64.Library, wsA: seq<Option<Wire>>, hA: string,
                        b: Base64.Library, wsB: seq<Option<Wire>>, hB: string, threshold: int, n: int)
    requires Machine.IsRun(states, steps) && i <= j < |states|
    requires WiresDrawn(wsA, states[i].pool) && WiresDrawn(wsB, states[j].pool)
    requires ResultIn(a, hA, wsA, states[i].keys, threshold, n).decision == Canonical
    requires ResultIn(b, hB, wsB, states[j].keys, threshold, n).decision == Canonical
    requires Machine.OneAllowEach(states[j])
    requires |Machine.Compromised(states[j])| < 2 * threshold - |states[j].keys|
    ensures hA == hB
  {
    IntersectionAcross(states, steps, i, j, a, wsA, hA, b, wsB, hB, threshold, n);
    var s := states[j];
    var shared := (Machine.HonestAllowers(s, Str(hA)) * Machine.HonestAllowers(s, Str(hB)))
                  * (OrgansIn(a, hA, wsA, s.keys) * OrgansIn(b, hB, wsB, s.keys));
    assert shared != {};
    var o :| o in shared;
  }

  // ----- liveness -----

  lemma WireRoundTrip(v: Row)
    ensures PythonRow(WireOf(v)) == v
  {
  }

  /** The row of a logged `allow` counts in every language. */
  lemma LoggedCounts(s: Machine.State, e: Machine.Entry, lib: Base64.Library) returns (row: Row)
    requires Machine.OnWire(s, e) && Machine.ProperKeys(s.keys) && e.statement.verdict == "allow"
    requires e.statement.organ in s.keys && s.keys[e.statement.organ] == e.key
    ensures row in s.pool && row.organ == e.statement.organ
    ensures CountsIn(lib, WireOf(row), s.keys, e.statement.actionHash)
  {
    var nonce: nat :| SignVerdict(e.statement, e.key, nonce) in s.pool;
    row := SignVerdict(e.statement, e.key, nonce);
    SignedRowCounts(Str(e.statement.actionHash), e.statement, e.key, nonce, s.keys);
    WireRoundTrip(row);
    SignedRowsCountAlike(e.statement, e.key, nonce, s.keys, e.statement.actionHash);
  }

  lemma EntryOfAllower(s: Machine.State, h: string, organ: string) returns (e: Machine.Entry)
    requires Machine.Inv(s) && organ in Machine.HonestAllowers(s, Str(h))
    ensures Machine.OnWire(s, e) && e.statement.verdict == "allow" && e.statement.actionHash == h
    ensures e.statement.organ == organ && organ in s.keys && s.keys[organ] == e.key
  {
    e :| e in s.log && e.statement.verdict == "allow" && Str(e.statement.actionHash) == Str(h)
         && e.statement.organ == organ;
    assert Machine.OnWire(s, e);
  }

  lemma AllowerCountsIn(s: Machine.State, lib: Base64.Library, h: string, organ: string) returns (row: Row)
    requires Machine.Inv(s) && Machine.ProperKeys(s.keys) && organ in Machine.HonestAllowers(s, Str(h))
    ensures row in s.pool && row.organ == organ && CountsIn(lib, WireOf(row), s.keys, h)
  {
    var e := EntryOfAllower(s, h, organ);
    row := LoggedCounts(s, e, lib);
  }

  lemma AllowersCountIn(states: seq<Machine.State>, steps: seq<Machine.Step>, i: nat, lib: Base64.Library, h: string,
                        ws: seq<Option<Wire>>)
    requires Machine.IsRun(states, steps) && i < |states| && Machine.ProperKeys(states[i].keys)
    requires forall row | row in states[i].pool :: Some(WireOf(row)) in ws
    ensures Machine.HonestAllowers(states[i], Str(h)) <= OrgansIn(lib, h, ws, states[i].keys)
  {
    var s := states[i];
    Machine.RunKeepsInv(states, steps, i);
    forall o | o in Machine.HonestAllowers(s, Str(h)) ensures o in OrgansIn(lib, h, ws, s.keys) {
      var row := AllowerCountsIn(s, lib, h, o);
      assert CountsAt(lib, h, Some(WireOf(row)), s.keys);
    }
  }

  /** All rows of a pool on the wire, in some order. */
  lemma WiresOf(pool: set<Row>) returns (ws: seq<Option<Wire>>)
    ensures WiresDrawn(ws, pool) && forall row | row in pool :: Some(WireOf(row)) in ws
  {
    var rows := Machine.Enumerate(pool);
    ws := seq(|rows|, k requires 0 <= k < |rows| => Some(WireOf(rows[k])));
    forall row | row in pool ensures Some(WireOf(row)) in ws {
      var k :| 0 <= k < |rows| && rows[k] == row;
      assert ws[k] == Some(WireOf(row));
    }
    forall w | w in ws && w.Some? ensures Holds(pool, w.value) {
      var k :| 0 <= k < |rows| && ws[k] == w;
      assert rows[k] in pool && rows[k].signature == w.value.signature;
    }
  }

  /**
   Liveness over every run, in every language at once: once enough uncompromised
   witnesses have signed `allow`, one list on the wire is canonical to all three tallies,
   and no row that anybody adds to it can prevent that.
   */
  lemma LivenessInEveryLanguage(states: seq<Machine.State>, steps: seq<Machine.Step>, i: nat, h: string,
                                threshold: int, n: int)
    returns (ws: seq<Option<Wire>>)
    requires Machine.IsRun(states, steps) && i < |states| && Machine.ProperKeys(states[i].keys)
    requires ValidQuorumCounts(threshold, n) && |Machine.HonestAllowers(states[i], Str(h))| >= threshold
    ensures WiresDrawn(ws, states[i].pool)
    ensures forall lib, more :: ResultIn(lib, h, ws + more, states[i].keys, threshold, n).decision == Canonical
  {
    var s := states[i];
    ws := WiresOf(s.pool);
    forall lib, more ensures ResultIn(lib, h, ws + more, s.keys, threshold, n).decision == Canonical {
      AllowersCountIn(states, steps, i, lib, h, ws + more);
      SubsetSize(Machine.HonestAllowers(s, Str(h)), OrgansIn(lib, h, ws + more, s.keys));
      ResultMeans(lib, h, ws + more, s.keys, threshold, n);
    }
  }
}
