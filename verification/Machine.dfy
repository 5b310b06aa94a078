/**
 Runs of the protocol against an active adversary. Honest witnesses sign what they
 like, in this protocol and in others; the adversary holds some keys, may obtain more
 at any time, sees every row and assembles verdict lists from what it holds. The
 theorems quantify over every run and every list.
 */
module Machine {
  import opened Wrappers
  import opened Utf8
  import opened Json
  import opened JsonReaders
  import opened Verdict
  import opened Tally
  import opened Counting
  import Adversary
  import Base64
  import Pae
  import Signatures

  /** One genuine signature by a key the adversary did not hold at the time. */
  datatype Entry = Entry(key: string, statement: Statement)

  /** A genuine signature by such a key over a body of another payload type. */
  datatype Foreign = Foreign(key: string, payloadType: string, body: bytes)

  datatype State = State(
    keys: PublicKeys,       // the published registry, fixed
    owned: set<string>,     // keys the adversary can sign with
    log: set<Entry>,        // the statements that the other keys really signed
    foreign: set<Foreign>,  // what they signed under other payload types
    pool: set<Row>)         // rows the adversary holds

  /**
   An uncompromised witness signs a statement in its own name, or any bytes at all under
   another payload type; the adversary obtains a key; or it puts any row on the wire
   whose signature bits it can produce. Every attack generator is one of these; silence
   and duplicate stuffing are choices of the list that is drawn from the pool.
   */
  datatype Step =
    | HonestSign(statement: Statement, nonce: nat, row: Row)
    | SignElsewhere(organ: string, payloadType: string, body: bytes, nonce: nat, row: Row)
    | Corrupt(key: string)
    | Inject(row: Row)

  /** The bits of a row's signature, as a library decodes its text. */
  function Bits(lib: Base64.Library, row: Row): Option<bytes> {
    Base64.Decode(lib, row.signature)
  }

  /** To this library, the row carries a signature by `key` over `message`. */
  predicate CarriesIn(lib: Base64.Library, row: Row, key: string, message: bytes) {
    Bits(lib, row).Some? && Signatures.Verifies(key, message, Bits(lib, row).value)
  }

  /** To some library, the row carries a signature by `key` over `message`. */
  predicate Carries(row: Row, key: string, message: bytes) {
    exists lib :: CarriesIn(lib, row, key, message)
  }

  /**
   Bits the adversary can put into a row: junk, signatures by its own keys, and any
   signature over what some row it has seen is signed over, be it a copy or a variant.
   */
  predicate CanProduce(s: State, bits: bytes) {
    match Signatures.Read(bits)
    case Junk => true
    case Sig(key, message, _) => key in s.owned || exists row :: row in s.pool && Carries(row, key, message)
  }

  /** An uncompromised registered witness, whose signatures are genuine. */
  predicate Honest(s: State, organ: string) {
    organ in s.keys && s.keys[organ] !in s.owned
  }

  /** Text that decodes, in any language, to bits that the adversary cannot produce is not to be had. */
  predicate CanInject(s: State, row: Row) {
    forall lib :: Bits(lib, row).Some? ==> CanProduce(s, Bits(lib, row).value)
  }

  predicate Enabled(s: State, step: Step) {
    match step
    case HonestSign(statement, nonce, row) =>
      Honest(s, statement.organ) && row == SignVerdict(statement, s.keys[statement.organ], nonce)
    case SignElsewhere(organ, payloadType, body, nonce, row) =>
      && Honest(s, organ) && payloadType != PAYLOAD_TYPE
      && row.signature == Base64.Encode(Signatures.Sign(s.keys[organ], Pae.Pae(payloadType, body), nonce))
    case Corrupt(_) => true
    case Inject(row) => CanInject(s, row)
  }

  function KeyOf(s: State, organ: string): string {
    if organ in s.keys then s.keys[organ] else ""
  }

  function Apply(s: State, step: Step): State {
    match step
    case HonestSign(statement, _, row) =>
      s.(log := s.log + {Entry(KeyOf(s, statement.organ), statement)}, pool := s.pool + {row})
    case SignElsewhere(organ, payloadType, body, _, row) =>
      s.(foreign := s.foreign + {Foreign(KeyOf(s, organ), payloadType, body)}, pool := s.pool + {row})
    case Corrupt(key) => s.(owned := s.owned + {key})
    case Inject(row) => s.(pool := s.pool + {row})
  }

  predicate Initial(s: State) {
    s.log == {} && s.foreign == {} && s.pool == {}
  }

  /** Step `i` of a run is enabled where it is taken, and leads to the next state. */
  predicate Took(states: seq<State>, steps: seq<Step>, i: nat)
    requires |states| == |steps| + 1 && i < |steps|
  {
    Enabled(states[i], steps[i]) && states[i + 1] == Apply(states[i], steps[i])
  }

  /** `states` is a run that takes `steps`. */
  predicate IsRun(states: seq<State>, steps: seq<Step>) {
    && |states| == |steps| + 1
    && Initial(states[0])
    && forall i {:trigger Took(states, steps, i)} | 0 <= i < |steps| :: Took(states, steps, i)
  }

  // ----- the invariant -----

  /** These bits are no signature by an unowned key over anything that key did not sign. */
  predicate GenuineBits(s: State, bits: Option<bytes>) {
    match bits
    case None => true
    case Some(b) =>
      match Signatures.Read(b)
      case Junk => true
      case Sig(key, message, _) => key in s.owned || SignedBy(s, key, message) || SignedElsewhere(s, key, message)
  }

  /** The row carries genuine bits to every library. */
  predicate Genuine(s: State, row: Row) {
    forall lib :: GenuineBits(s, Bits(lib, row))
  }

  predicate SignedBy(s: State, key: string, message: bytes) {
    exists e :: e in s.log && e.key == key && message == SignedBytes(e.statement)
  }

  predicate SignedElsewhere(s: State, key: string, message: bytes) {
    exists f :: f in s.foreign && f.key == key && message == Pae.Pae(f.payloadType, f.body)
  }

  /** What was signed elsewhere is under another payload type. */
  predicate ForeignIsForeign(s: State) {
    forall f | f in s.foreign :: f.payloadType != PAYLOAD_TYPE
  }

  /** Honest witnesses sign in their own name, under their registered key. */
  predicate LogIsHonest(s: State) {
    forall e | e in s.log :: e.statement.organ in s.keys && s.keys[e.statement.organ] == e.key
  }

  /** The row of a logged signature is on the wire. */
  ghost predicate OnWire(s: State, e: Entry) {
    exists nonce :: SignVerdict(e.statement, e.key, nonce) in s.pool
  }

  ghost predicate LogIsPublic(s: State) {
    forall e {:trigger OnWire(s, e)} | e in s.log :: OnWire(s, e)
  }

  predicate PoolIsGenuine(s: State) {
    forall row {:trigger Genuine(s, row)} | row in s.pool :: Genuine(s, row)
  }

  ghost predicate Inv(s: State) {
    LogIsHonest(s) && LogIsPublic(s) && PoolIsGenuine(s) && ForeignIsForeign(s)
  }

  /** What never shrinks along a run. */
  predicate Grows(s: State, s': State) {
    s'.keys == s.keys && s.owned <= s'.owned && s.log <= s'.log && s.foreign <= s'.foreign && s.pool <= s'.pool
  }

  lemma GenuineBitsGrow(s: State, s': State, bits: Option<bytes>)
    requires Grows(s, s') && GenuineBits(s, bits)
    ensures GenuineBits(s', bits)
  {
  }

  lemma GenuineGrows(s: State, s': State, row: Row)
    requires Grows(s, s') && Genuine(s, row)
    ensures Genuine(s', row)
  {
    forall lib ensures GenuineBits(s', Bits(lib, row)) {
      GenuineBitsGrow(s, s', Bits(lib, row));
    }
  }

  /** Text that the encoder wrote gives every library the same bits. */
  lemma EncodedIsGenuine(s: State, row: Row, bits: bytes)
    requires row.signature == Base64.Encode(bits) && GenuineBits(s, Some(bits))
    ensures Genuine(s, row)
  {
    forall lib ensures GenuineBits(s, Bits(lib, row)) {
      Base64.DecodeOfEncode(lib, bits);
    }
  }

  lemma SignedIsGenuine(s: State, key: string, statement: Statement, nonce: nat)
    requires key in s.owned || Entry(key, statement) in s.log
    ensures Genuine(s, SignVerdict(statement, key, nonce))
  {
    Signatures.ReadOfSign(key, SignedBytes(statement), nonce);
    assert key !in s.owned ==> Entry(key, statement) in s.log;
    EncodedIsGenuine(s, SignVerdict(statement, key, nonce), Signatures.Sign(key, SignedBytes(statement), nonce));
  }

  lemma ForeignIsGenuine(s: State, f: Foreign, nonce: nat, row: Row)
    requires f in s.foreign
    requires row.signature == Base64.Encode(Signatures.Sign(f.key, Pae.Pae(f.payloadType, f.body), nonce))
    ensures Genuine(s, row)
  {
    Signatures.ReadOfSign(f.key, Pae.Pae(f.payloadType, f.body), nonce);
    EncodedIsGenuine(s, row, Signatures.Sign(f.key, Pae.Pae(f.payloadType, f.body), nonce));
  }

  /** What a genuine row is signed over was signed. */
  lemma GenuineIsSigned(s: State, row: Row, key: string, message: bytes)
    requires Genuine(s, row) && Carries(row, key, message) && key !in s.owned
    ensures SignedBy(s, key, message) || SignedElsewhere(s, key, message)
  {
    var lib :| CarriesIn(lib, row, key, message);
    assert GenuineBits(s, Bits(lib, row));
  }

  lemma ProducedIsGenuine(s: State, bits: bytes)
    requires PoolIsGenuine(s) && CanProduce(s, bits)
    ensures GenuineBits(s, Some(bits))
  {
    var sig := Signatures.Read(bits);
    if sig.Sig? && sig.key !in s.owned {
      var seen :| seen in s.pool && Carries(seen, sig.key, sig.message);
      assert Genuine(s, seen);
      GenuineIsSigned(s, seen, sig.key, sig.message);
    }
  }

  lemma InjectedIsGenuine(s: State, row: Row)
    requires PoolIsGenuine(s) && CanInject(s, row)
    ensures Genuine(s, row)
  {
    forall lib ensures GenuineBits(s, Bits(lib, row)) {
      if Bits(lib, row).Some? {
        ProducedIsGenuine(s, Bits(lib, row).value);
      }
    }
  }

  lemma OnWireGrows(s: State, s': State, e: Entry)
    requires Grows(s, s') && OnWire(s, e)
    ensures OnWire(s', e)
  {
    var nonce :| SignVerdict(e.statement, e.key, nonce) in s.pool;
    assert SignVerdict(e.statement, e.key, nonce) in s'.pool;
  }

  lemma StepGrows(s: State, step: Step)
    ensures Grows(s, Apply(s, step))
  {
  }

  lemma SignedIsOnWire(s: State, e: Entry, nonce: nat)
    requires SignVerdict(e.statement, e.key, nonce) in s.pool
    ensures OnWire(s, e)
  {
  }

  lemma PoolStaysGenuine(s: State, s': State, row: Row)
    requires PoolIsGenuine(s) && Grows(s, s') && s'.pool <= s.pool + {row} && Genuine(s', row)
    ensures PoolIsGenuine(s')
  {
    forall r | r in s'.pool ensures Genuine(s', r) {
      if r != row {
        assert Genuine(s, r);
        GenuineGrows(s, s', r);
      }
    }
  }

  lemma LogStaysPublic(s: State, s': State, added: Entry)
    requires LogIsPublic(s) && Grows(s, s') && s'.log <= s.log + {added}
    requires added in s'.log && added !in s.log ==> OnWire(s', added)
    ensures LogIsPublic(s')
  {
    forall e | e in s'.log ensures OnWire(s', e) {
      if e in s.log {
        assert OnWire(s, e);
        OnWireGrows(s, s', e);
      }
    }
  }

  lemma LogStaysHonest(s: State, s': State, added: Entry)
    requires LogIsHonest(s) && s'.keys == s.keys && s'.log <= s.log + {added}
    requires added.statement.organ in s.keys && s.keys[added.statement.organ] == added.key
    ensures LogIsHonest(s')
  {
  }

  lemma LogSame(s: State, s': State)
    requires LogIsPublic(s) && Grows(s, s') && s'.log == s.log
    ensures LogIsPublic(s')
  {
    forall e | e in s'.log ensures OnWire(s', e) {
      assert OnWire(s, e);
      OnWireGrows(s, s', e);
    }
  }

  lemma LoggingKeepsInv(s: State, s': State, added: Entry, row: Row)
    requires Inv(s) && Grows(s, s') && s'.log == s.log + {added} && s'.foreign == s.foreign && s'.pool == s.pool + {row}
    requires Genuine(s', row) && OnWire(s', added)
    requires added.statement.organ in s.keys && s.keys[added.statement.organ] == added.key
    ensures Inv(s')
  {
    PoolStaysGenuine(s, s', row);
    LogStaysPublic(s, s', added);
    LogStaysHonest(s, s', added);
  }

  lemma SigningKeepsInv(s: State, statement: Statement, nonce: nat, row: Row)
    requires Inv(s) && Enabled(s, HonestSign(statement, nonce, row))
    ensures Inv(Apply(s, HonestSign(statement, nonce, row)))
  {
    var s' := Apply(s, HonestSign(statement, nonce, row));
    var e := Entry(s.keys[statement.organ], statement);
    SignedIsGenuine(s', e.key, statement, nonce);
    SignedIsOnWire(s', e, nonce);
    StepGrows(s, HonestSign(statement, nonce, row));
    LoggingKeepsInv(s, s', e, row);
  }

  lemma SigningElsewhereKeepsInv(s: State, step: Step)
    requires Inv(s) && step.SignElsewhere? && Enabled(s, step)
    ensures Inv(Apply(s, step))
  {
    var s' := Apply(s, step);
    StepGrows(s, step);
    ForeignIsGenuine(s', Foreign(s.keys[step.organ], step.payloadType, step.body), step.nonce, step.row);
    PoolStaysGenuine(s, s', step.row);
    LogSame(s, s');
  }

  /** Every step keeps the invariant: signatures stay unforgeable whatever the adversary does. */
  lemma StepKeepsInv(s: State, step: Step)
    requires Inv(s) && Enabled(s, step)
    ensures Inv(Apply(s, step))
  {
    var s' := Apply(s, step);
    match step
    case HonestSign(statement, nonce, row) => SigningKeepsInv(s, statement, nonce, row);
    case SignElsewhere(_, _, _, _, _) => SigningElsewhereKeepsInv(s, step);
    case Corrupt(_) =>
      forall row | row in s.pool ensures Genuine(s', row) {
        GenuineGrows(s, s', row);
      }
      assert s'.log == s.log;
      LogSame(s, s');
    case Inject(row) =>
      InjectedIsGenuine(s, row);
      GenuineGrows(s, s', row);
      PoolStaysGenuine(s, s', row);
      LogSame(s, s');
  }

  // ----- the attack generators are steps -----

  /** Bits the adversary can produce give it every row that carries them. */
  lemma CanInjectBits(s: State, row: Row, bits: bytes)
    requires row.signature == Base64.Encode(bits) && CanProduce(s, bits)
    ensures CanInject(s, row)
  {
    forall lib ensures Bits(lib, row) == Some(bits) {
      Base64.DecodeOfEncode(lib, bits);
    }
  }

  lemma CanSignWithOwnedKey(s: State, statement: Statement, key: string, nonce: nat)
    requires key in s.owned
    ensures CanInject(s, SignVerdict(statement, key, nonce))
  {
    Signatures.ReadOfSign(key, SignedBytes(statement), nonce);
    CanInjectBits(s, SignVerdict(statement, key, nonce), Signatures.Sign(key, SignedBytes(statement), nonce));
  }

  /** Forgery: random bits that no key produced. */
  lemma ForgeryIsStep(s: State, organ: string, actionHash: string, verdict: string, ts: string, bits: bytes)
    requires Signatures.Read(bits).Junk?
    ensures Enabled(s, Inject(Adversary.ForgedSignatureVerdict(organ, actionHash, verdict, ts, bits)))
  {
    CanInjectBits(s, Adversary.ForgedSignatureVerdict(organ, actionHash, verdict, ts, bits), bits);
  }

  /** Impersonation, and equivocation of a compromised witness: any statement under an owned key. */
  lemma ImpersonationIsStep(s: State, organ: string, actionHash: string, key: string, verdict: string, ts: string,
                            nonce: nat)
    requires key in s.owned
    ensures Enabled(s, Inject(Adversary.ImpersonationVerdict(organ, actionHash, key, verdict, ts, nonce)))
    ensures Enabled(s, Inject(Adversary.EquivocationVerdict(organ, actionHash, key, verdict, ts, nonce)))
  {
    CanSignWithOwnedKey(s, Statement(organ, actionHash, verdict, "", "", ts), key, nonce);
  }

  /** Equivocation of an uncompromised witness: it signs another action, and that is logged. */
  lemma EquivocationIsStep(s: State, organ: string, other: string, verdict: string, ts: string, nonce: nat)
    requires Honest(s, organ)
    ensures Enabled(s, HonestSign(Statement(organ, other, verdict, "", "", ts), nonce,
                                  Adversary.EquivocationVerdict(organ, other, s.keys[organ], verdict, ts, nonce)))
  {
  }

  /** Replay and tampering: the signature is copied from a row the adversary holds. */
  lemma CopyIsStep(s: State, row: Row, copy: Row)
    requires row in s.pool && copy.signature == row.signature
    ensures Enabled(s, Inject(copy))
  {
    forall lib | Bits(lib, copy).Some? ensures CanProduce(s, Bits(lib, copy).value) {
      var bits := Bits(lib, copy).value;
      if Signatures.Read(bits).Sig? {
        var sig := Signatures.Read(bits);
        assert CarriesIn(lib, row, sig.key, sig.message);
      }
    }
  }

  /** So may another signature over the same message, as any holder of an ECDSA signature can compute. */
  lemma VariantIsStep(s: State, row: Row, variant: Row, key: string, message: bytes)
    requires row in s.pool && Carries(row, key, message)
    requires forall lib :: Bits(lib, variant).Some? ==> CarriesIn(lib, variant, key, message)
    ensures Enabled(s, Inject(variant))
  {
  }

  lemma TamperIsStep(s: State, row: Row, newActionHash: Option<string>, newVerdict: Option<string>)
    requires row in s.pool && Adversary.TamperVerdict(row, newActionHash, newVerdict).Some?
    ensures Enabled(s, Inject(row))
    ensures Enabled(s, Inject(Adversary.TamperVerdict(row, newActionHash, newVerdict).value))
  {
    CopyIsStep(s, row, row);
    CopyIsStep(s, row, Adversary.TamperVerdict(row, newActionHash, newVerdict).value);
  }

  /** Silence and duplicate stuffing: the lists drawn from a pool are closed under both. */
  lemma StuffingIsDrawn(items: seq<Item>, v: Row, times: nat, pool: set<Row>)
    requires Drawn(items, pool) && v in pool
    ensures Drawn(items + Adversary.DuplicateStuffing(v, times) + [None], pool)
  {
  }

  lemma TookKeepsInv(states: seq<State>, steps: seq<Step>, i: nat)
    requires |states| == |steps| + 1 && i < |steps| && Took(states, steps, i) && Inv(states[i])
    ensures Inv(states[i + 1])
  {
    StepKeepsInv(states[i], steps[i]);
  }

  lemma {:induction false} RunKeepsInv(states: seq<State>, steps: seq<Step>, i: nat)
    requires IsRun(states, steps) && i < |states|
    ensures Inv(states[i])
  {
    if i > 0 {
      RunKeepsInv(states, steps, i - 1);
      assert Took(states, steps, i - 1);
      TookKeepsInv(states, steps, i - 1);
    }
  }

  lemma GrowsOn(a: State, b: State, c: State)
    requires Grows(a, b) && Grows(b, c)
    ensures Grows(a, c)
  {
  }

  lemma RunStepGrows(states: seq<State>, steps: seq<Step>, i: nat)
    requires IsRun(states, steps) && i < |steps|
    ensures Grows(states[i], states[i + 1])
  {
    assert Took(states, steps, i);
    StepGrows(states[i], steps[i]);
  }

  lemma {:induction false} RunGrows(states: seq<State>, steps: seq<Step>, i: nat, j: nat)
    requires IsRun(states, steps) && i <= j < |states|
    ensures Grows(states[i], states[j])
  {
    if i < j {
      RunGrows(states, steps, i, j - 1);
      RunStepGrows(states, steps, j - 1);
      GrowsOn(states[i], states[j - 1], states[j]);
    }
  }

  // ----- what counting rows prove -----

  /** Verdict lists that can be put together from the pool: any order, repetition and silence. */
  predicate Drawn(items: seq<Item>, pool: set<Row>) {
    forall i | 0 <= i < |items| && items[i].Some? :: items[i].value in pool
  }

  /** Registered witnesses whose key the adversary holds. */
  function Compromised(s: State): set<string> {
    set o | o in s.keys && s.keys[o] in s.owned
  }

  /** Uncompromised witnesses that really signed `allow` over exactly this action. */
  function HonestAllowers(s: State, actionHash: Json): set<string> {
    set e | e in s.log && e.statement.verdict == "allow" && Str(e.statement.actionHash) == actionHash
            && Honest(s, e.statement.organ) :: e.statement.organ
  }

  lemma TypeIsBound(payloadType: string, other: bytes, body: bytes)
    requires payloadType != PAYLOAD_TYPE
    ensures Pae.Pae(PAYLOAD_TYPE, body) != Pae.Pae(payloadType, other)
  {
    if Pae.Pae(PAYLOAD_TYPE, body) == Pae.Pae(payloadType, other) {
      Pae.PaeInjective(PAYLOAD_TYPE, body, payloadType, other);
    }
  }

  /** The encoding binds the payload type: what was signed under another type is no verdict. */
  lemma NeverSignedElsewhere(s: State, pem: string, body: bytes)
    requires ForeignIsForeign(s)
    ensures !SignedElsewhere(s, pem, Pae.Pae(PAYLOAD_TYPE, body))
  {
    if SignedElsewhere(s, pem, Pae.Pae(PAYLOAD_TYPE, body)) {
      var f :| f in s.foreign && f.key == pem && Pae.Pae(PAYLOAD_TYPE, body) == Pae.Pae(f.payloadType, f.body);
      TypeIsBound(f.payloadType, f.body, body);
    }
  }

  /** A document with a logged signature that allows an action is the statement of an honest allower. */
  lemma SignedDocument(s: State, pem: string, body: bytes, organ: string, actionHash: Json)
    requires Honest(s, organ) && ForeignIsForeign(s)
    requires SignedBy(s, pem, Pae.Pae(PAYLOAD_TYPE, body)) || SignedElsewhere(s, pem, Pae.Pae(PAYLOAD_TYPE, body))
    requires Loads(body).Some? && Allows(Loads(body).value, organ, actionHash)
    ensures organ in HonestAllowers(s, actionHash)
  {
    if SignedElsewhere(s, pem, Pae.Pae(PAYLOAD_TYPE, body)) {
      NeverSignedElsewhere(s, pem, body);
    }
    var e :| e in s.log && e.key == pem && Pae.Pae(PAYLOAD_TYPE, body) == SignedBytes(e.statement);
    AllowingStatement(e.statement, body, organ, actionHash);
  }

  /** A counting row in an honest organ's name was really signed by that organ, saying exactly that. */
  lemma CountingRowIsSigned(s: State, row: Row, actionHash: Json)
    requires Inv(s) && row in s.pool && Honest(s, row.organ)
    requires VerifyVerdict(row, s.keys[row.organ], actionHash).counts
    ensures row.organ in HonestAllowers(s, actionHash)
  {
    var pem := s.keys[row.organ];
    CountsMeans(row, pem, actionHash);
    assert Genuine(s, row) && CarriesIn(Base64.Python, row, pem, Pae.Pae(PAYLOAD_TYPE, PayloadOf(Base64.Python, row)));
    GenuineIsSigned(s, row, pem, Pae.Pae(PAYLOAD_TYPE, PayloadOf(Base64.Python, row)));
    SignedDocument(s, pem, PayloadOf(Base64.Python, row), row.organ, actionHash);
  }

  lemma CountingOrgansAreSigned(s: State, items: seq<Item>, actionHash: Json)
    requires Inv(s) && Drawn(items, s.pool)
    ensures CountingOrgans(actionHash, items, s.keys) <= HonestAllowers(s, actionHash) + Compromised(s)
  {
    forall o | o in CountingOrgans(actionHash, items, s.keys)
      ensures o in HonestAllowers(s, actionHash) + Compromised(s)
    {
      var item :| item in items && Counts(actionHash, item, s.keys) && item.value.organ == o;
      if o !in Compromised(s) {
        CountingRowIsSigned(s, item.value, actionHash);
      }
    }
  }

  // ----- theorems -----

  /**
   Safety over every run. Whatever the adversary does, if some list drawn from its
   pool makes the tally declare an action canonical, then all but `|Compromised|`
   of the threshold are uncompromised witnesses that really signed `allow` over it.
   */
  lemma Safety(states: seq<State>, steps: seq<Step>, i: nat, items: seq<Item>, actionHash: Json, threshold: int, n: int)
    requires IsRun(states, steps) && i < |states| && Drawn(items, states[i].pool)
    requires TallyResult(actionHash, items, states[i].keys, threshold, n).decision == Canonical
    ensures var s := states[i];
      && CountingOrgans(actionHash, items, s.keys) <= HonestAllowers(s, actionHash) + Compromised(s)
      && |HonestAllowers(s, actionHash) * CountingOrgans(actionHash, items, s.keys)| >= threshold - |Compromised(s)|
  {
    RunKeepsInv(states, steps, i);
    CountingOrgansAreSigned(states[i], items, actionHash);
    CanonicalHasQuorum(actionHash, items, states[i].keys, threshold, n);
    CoveredBy(CountingOrgans(actionHash, items, states[i].keys), HonestAllowers(states[i], actionHash),
              Compromised(states[i]));
  }

  /**
   Quorum intersection over every run: two canonical actions, at any two moments,
   share at least `2 * threshold - |registry| - |Compromised|` counting organs that
   are uncompromised and signed `allow` for both.
   */
  lemma HonestIntersection(states: seq<State>, steps: seq<Step>, i: nat, j: nat,
                           itemsA: seq<Item>, actionA: Json, itemsB: seq<Item>, actionB: Json, threshold: int, n: int)
    requires IsRun(states, steps) && i <= j < |states|
    requires Drawn(itemsA, states[i].pool) && Drawn(itemsB, states[j].pool)
    requires TallyResult(actionA, itemsA, states[i].keys, threshold, n).decision == Canonical
    requires TallyResult(actionB, itemsB, states[j].keys, threshold, n).decision == Canonical
    ensures var s := states[j];
      |(HonestAllowers(s, actionA) * HonestAllowers(s, actionB))
       * (CountingOrgans(actionA, itemsA, s.keys) * CountingOrgans(actionB, itemsB, s.keys))|
      >= 2 * threshold - |s.keys| - |Compromised(s)|
  {
    var s := states[j];
    RunGrows(states, steps, i, j);
    RunKeepsInv(states, steps, j);
    CountingOrgansAreSigned(s, itemsA, actionA);
    CountingOrgansAreSigned(s, itemsB, actionB);
    QuorumsIntersect(actionA, itemsA, actionB, itemsB, s.keys, threshold, n);
    var both := CountingOrgans(actionA, itemsA, s.keys) * CountingOrgans(actionB, itemsB, s.keys);
    var honest := HonestAllowers(s, actionA) * HonestAllowers(s, actionB);
    CoveredBy(both, honest, Compromised(s));
  }

  /** No uncompromised witness has signed `allow` for two different actions. */
  predicate OneAllowEach(s: State) {
    forall d, e | d in s.log && e in s.log && d.statement.organ == e.statement.organ && Honest(s, d.statement.organ)
                  && d.statement.verdict == e.statement.verdict == "allow" ::
      d.statement.actionHash == e.statement.actionHash
  }

  /**
   Agreement: while honest witnesses allow one action each and fewer than
   `2 * threshold - |registry|` keys are compromised, at most one action ever
   becomes canonical. With 3 of 4, one compromised witness is tolerated.
   */
  lemma Agreement(states: seq<State>, steps: seq<Step>, i: nat, j: nat,
                  itemsA: seq<Item>, actionA: Json, itemsB: seq<Item>, actionB: Json, threshold: int, n: int)
    requires IsRun(states, steps) && i <= j < |states|
    requires Drawn(itemsA, states[i].pool) && Drawn(itemsB, states[j].pool)
    requires TallyResult(actionA, itemsA, states[i].keys, threshold, n).decision == Canonical
    requires TallyResult(actionB, itemsB, states[j].keys, threshold, n).decision == Canonical
    requires OneAllowEach(states[j]) && |Compromised(states[j])| < 2 * threshold - |states[j].keys|
    ensures actionA == actionB
  {
    HonestIntersection(states, steps, i, j, itemsA, actionA, itemsB, actionB, threshold, n);
    var s := states[j];
    var shared := (HonestAllowers(s, actionA) * HonestAllowers(s, actionB))
                  * (CountingOrgans(actionA, itemsA, s.keys) * CountingOrgans(actionB, itemsB, s.keys));
    assert shared != {};
    var o :| o in shared;
  }

  /** The registry names every organ and gives each a key. */
  predicate ProperKeys(keys: PublicKeys) {
    forall o | o in keys :: o != "" && keys[o] != ""
  }

  lemma {:induction false} Enumerate<T>(pool: set<T>) returns (items: seq<T>)
    ensures forall x :: x in items <==> x in pool
  {
    if pool == {} {
      items := [];
    } else {
      var x :| x in pool;
      var rest := Enumerate(pool - {x});
      items := [x] + rest;
    }
  }

  /** Every honest allower has a row in the pool that counts. */
  lemma HonestAllowerCounts(states: seq<State>, steps: seq<Step>, i: nat, organ: string, actionHash: Json)
    returns (row: Row)
    requires IsRun(states, steps) && i < |states| && ProperKeys(states[i].keys)
    requires organ in HonestAllowers(states[i], actionHash)
    ensures row in states[i].pool && row.organ == organ && Counts(actionHash, Some(row), states[i].keys)
  {
    RunKeepsInv(states, steps, i);
    var e :| e in states[i].log && e.statement.verdict == "allow" && Str(e.statement.actionHash) == actionHash
             && e.statement.organ == organ;
    row := LoggedRowCounts(states[i], e);
  }

  lemma LoggedRowCounts(s: State, e: Entry) returns (row: Row)
    requires OnWire(s, e) && ProperKeys(s.keys) && e.statement.verdict == "allow"
    requires e.statement.organ in s.keys && s.keys[e.statement.organ] == e.key
    ensures row in s.pool && row.organ == e.statement.organ
    ensures Counts(Str(e.statement.actionHash), Some(row), s.keys)
  {
    var nonce: nat :| SignVerdict(e.statement, e.key, nonce) in s.pool;
    row := SignVerdict(e.statement, e.key, nonce);
    SignedRowCounts(Str(e.statement.actionHash), e.statement, e.key, nonce, s.keys);
  }

  /** All rows of a pool, in some order. */
  lemma ListOf(pool: set<Row>) returns (items: seq<Item>)
    ensures Drawn(items, pool) && forall row | row in pool :: Some(row) in items
  {
    var rows := Enumerate(pool);
    items := seq(|rows|, k requires 0 <= k < |rows| => Some(rows[k]));
    forall row | row in pool ensures Some(row) in items {
      var k :| 0 <= k < |rows| && rows[k] == row;
      assert items[k] == Some(row);
    }
  }

  /** In a list that has all rows of the pool, every honest allower counts. */
  lemma AllowersCount(states: seq<State>, steps: seq<Step>, i: nat, actionHash: Json, items: seq<Item>)
    requires IsRun(states, steps) && i < |states| && ProperKeys(states[i].keys)
    requires forall row | row in states[i].pool :: Some(row) in items
    ensures HonestAllowers(states[i], actionHash) <= CountingOrgans(actionHash, items, states[i].keys)
  {
    forall o | o in HonestAllowers(states[i], actionHash)
      ensures o in CountingOrgans(actionHash, items, states[i].keys)
    {
      var row := HonestAllowerCounts(states, steps, i, o, actionHash);
      assert Some(row) in items;
    }
  }

  lemma StaysCanonical(actionHash: Json, items: seq<Item>, more: seq<Item>, keys: PublicKeys, threshold: int, n: int)
    requires ValidQuorumCounts(threshold, n) && |CountingOrgans(actionHash, items, keys)| >= threshold
    ensures TallyResult(actionHash, items + more, keys, threshold, n).decision == Canonical
  {
    TallyMonotone(actionHash, items, more, keys, threshold, n);
  }

  /**
   Liveness over every run: once enough uncompromised witnesses have signed `allow`,
   the list of all rows on the wire is canonical, and no amount of adversarial rows
   in it can prevent that.
   */
  lemma Liveness(states: seq<State>, steps: seq<Step>, i: nat, actionHash: Json, threshold: int, n: int)
    returns (items: seq<Item>)
    requires IsRun(states, steps) && i < |states| && ProperKeys(states[i].keys)
    requires ValidQuorumCounts(threshold, n) && |HonestAllowers(states[i], actionHash)| >= threshold
    ensures Drawn(items, states[i].pool)
    ensures forall more :: TallyResult(actionHash, items + more, states[i].keys, threshold, n).decision == Canonical
  {
    var s := states[i];
    items := ListOf(s.pool);
    AllowersCount(states, steps, i, actionHash, items);
    SubsetSize(HonestAllowers(s, actionHash), CountingOrgans(actionHash, items, s.keys));
    forall more ensures TallyResult(actionHash, items + more, s.keys, threshold, n).decision == Canonical {
      StaysCanonical(actionHash, items, more, s.keys, threshold, n);
    }
  }
}
