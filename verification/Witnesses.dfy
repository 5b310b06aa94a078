/** Witnesses and the registry that keeps them in insertion order. */
module Witnesses {
  import opened Wrappers
  import opened Json
  import opened Verdict
  import opened Tally

  /**
   One witness. `privateKey` is the PEM text of the public half of the key pair it
   signs with, `None` when it holds no private key; it need not be the published key.
   */
  datatype Witness = Witness(
    organ: string,
    publicKeyPem: string,
    region: string,
    org: string,
    endpoint: string,
    privateKey: Option<string>)

  /** What is drawn when a witness signs: the time stamp and the signature nonce. */
  datatype Draw = Draw(ts: string, nonce: nat)

  /** `sign`: a signed row, or `None` from a witness without a key. */
  function Sign(w: Witness, actionHash: string, verdict: string, reason: string, leanSha: string, draw: Draw): Item {
    match w.privateKey
    case None => None
    case Some(key) => Some(SignVerdict(Statement(w.organ, actionHash, verdict, reason, leanSha, draw.ts), key,
                                       draw.nonce))
  }

  /** `public`: everything but the private key. */
  function Public(w: Witness): seq<Member> {
    [ Member("organ", Str(w.organ)),
      Member("keyid", Str(Keyid(w.organ))),
      Member("region", Str(w.region)),
      Member("org", Str(w.org)),
      Member("endpoint", Str(w.endpoint)),
      Member("public_key_pem", Str(w.publicKeyPem)) ]
  }

  // ----- the registry as a value -----

  predicate DistinctOrgans(ws: seq<Witness>) {
    forall i, j | 0 <= i < j < |ws| :: ws[i].organ != ws[j].organ
  }

  function IndexOfOrgan(ws: seq<Witness>, organ: string): (i: nat)
    ensures i <= |ws|
    ensures i < |ws| ==> ws[i].organ == organ
    ensures forall j | 0 <= j < i :: ws[j].organ != organ
  {
    if ws == [] || ws[0].organ == organ then 0 else 1 + IndexOfOrgan(ws[1..], organ)
  }

  /** `self._w[w.organ] = w`: a known organ is replaced in its place, a new one goes last. */
  function Added(ws: seq<Witness>, w: Witness): (r: seq<Witness>)
    requires DistinctOrgans(ws)
    ensures DistinctOrgans(r)
  {
    var i := IndexOfOrgan(ws, w.organ);
    if i < |ws| then ws[i := w] else ws + [w]
  }

  /** Adding witnesses one after the other to an empty registry. */
  function Registered(ws: seq<Witness>): (r: seq<Witness>)
    ensures DistinctOrgans(r)
  {
    if ws == [] then [] else Added(Registered(ws[..|ws| - 1]), ws[|ws| - 1])
  }

  function Lookup(ws: seq<Witness>, organ: string): Option<Witness> {
    var i := IndexOfOrgan(ws, organ);
    if i < |ws| then Some(ws[i]) else None
  }

  lemma LookupAdded(ws: seq<Witness>, w: Witness, organ: string)
    requires DistinctOrgans(ws)
    ensures Lookup(Added(ws, w), organ) == if organ == w.organ then Some(w) else Lookup(ws, organ)
  {
    var i, r := IndexOfOrgan(ws, w.organ), Added(ws, w);
    assert i < |ws| ==> r[i] == w && forall j | 0 <= j < |ws| && j != i :: r[j] == ws[j];
    assert i == |ws| ==> r[|ws|] == w && forall j | 0 <= j < |ws| :: r[j] == ws[j];
  }

  /** The last witness of a list that has this organ. */
  function LastOf(ws: seq<Witness>, organ: string): Option<Witness> {
    if ws == [] then None
    else if ws[|ws| - 1].organ == organ then Some(ws[|ws| - 1])
    else LastOf(ws[..|ws| - 1], organ)
  }

  /** The registry holds one witness per organ: the last one that was added. */
  lemma {:induction false} LookupRegistered(ws: seq<Witness>, organ: string)
    ensures Lookup(Registered(ws), organ) == LastOf(ws, organ)
  {
    if ws != [] {
      var init, last := ws[..|ws| - 1], ws[|ws| - 1];
      LookupRegistered(init, organ);
      LookupAdded(Registered(init), last, organ);
    }
  }

  function Names(ws: seq<Witness>): set<string> {
    set w | w in ws :: w.organ
  }

  lemma NamesAdded(ws: seq<Witness>, w: Witness)
    requires DistinctOrgans(ws)
    ensures Names(Added(ws, w)) == Names(ws) + {w.organ}
  {
    var i, r := IndexOfOrgan(ws, w.organ), Added(ws, w);
    assert i < |ws| ==> r[i] == w && forall j | 0 <= j < |ws| && j != i :: r[j] == ws[j];
    forall v | v in ws ensures v.organ in Names(r) {
      var j :| 0 <= j < |ws| && ws[j] == v;
      assert r[j] in r && r[j].organ == v.organ;
    }
    assert w in r;
  }

  function PemOf(ws: seq<Witness>, organ: string): string {
    var i := IndexOfOrgan(ws, organ);
    if i < |ws| then ws[i].publicKeyPem else ""
  }

  /** `pubkeys`. */
  function Pubkeys(ws: seq<Witness>): PublicKeys
    requires DistinctOrgans(ws)
  {
    map o | o in Names(ws) :: PemOf(ws, o)
  }

  lemma PubkeysAt(ws: seq<Witness>, i: nat)
    requires DistinctOrgans(ws) && i < |ws|
    ensures ws[i].organ in Pubkeys(ws) && Pubkeys(ws)[ws[i].organ] == ws[i].publicKeyPem
  {
  }

  /** One key per witness. */
  lemma {:induction false} PubkeysSize(ws: seq<Witness>)
    requires DistinctOrgans(ws)
    ensures Pubkeys(ws).Keys == Names(ws) && |Pubkeys(ws)| == |ws|
  {
    NamesSize(ws);
    assert |Pubkeys(ws)| == |Pubkeys(ws).Keys|;
  }

  lemma {:induction false} NamesSize(ws: seq<Witness>)
    requires DistinctOrgans(ws)
    ensures |Names(ws)| == |ws|
  {
    if ws == [] {
      assert Names(ws) == {};
    } else {
      NamesSize(ws[1..]);
      assert Names(ws) == Names(ws[1..]) + {ws[0].organ};
    }
  }

  /** The state of a registry. */
  datatype Roster = Roster(witnesses: seq<Witness>, threshold: int)

  // ----- the registry as an object -----

  class WitnessRegistry {
    var w: seq<Witness>
    var threshold: int

    ghost predicate Valid()
      reads this
    {
      DistinctOrgans(w)
    }

    function View(): Roster
      reads this
    {
      Roster(w, threshold)
    }

    constructor (witnesses: seq<Witness>, threshold: int)
      ensures Valid() && View() == Roster(Registered(witnesses), threshold)
    {
      w := [];
      this.threshold := threshold;
      new;
      for i := 0 to |witnesses|
        invariant Valid() && w == Registered(witnesses[..i]) && this.threshold == threshold
      {
        assert witnesses[..i + 1][..i] == witnesses[..i];
        Add(witnesses[i]);
      }
      assert witnesses[..|witnesses|] == witnesses;
    }

    method Add(x: Witness)
      requires Valid()
      modifies this`w
      ensures Valid() && w == Added(old(w), x)
      ensures forall organ :: Lookup(w, organ) == if organ == x.organ then Some(x) else Lookup(old(w), organ)
      ensures Names(w) == Names(old(w)) + {x.organ}
    {
      forall organ ensures Lookup(Added(w, x), organ) == if organ == x.organ then Some(x) else Lookup(w, organ) {
        LookupAdded(w, x, organ);
      }
      NamesAdded(w, x);
      var i := IndexOfOrgan(w, x.organ);
      if i < |w| {
        w := w[i := x];
      } else {
        w := w + [x];
      }
    }

    method Get(organ: string) returns (r: Option<Witness>)
      ensures r.Some? ==> r.value in w && r.value.organ == organ
      ensures r.None? <==> organ !in Names(w)
    {
      var i := IndexOfOrgan(w, organ);
      r := if i < |w| then Some(w[i]) else None;
    }
  }
}
