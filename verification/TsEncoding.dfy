/** TypeScript's encoders, which map and join, proved against the shared specification. */
module TsEncoding {
  import opened Json
  import opened JsonText
  import opened KeyOrder
  import opened KeySort
  import opened Utf8
  import Decimal
  import Pae

  // ----- PAE -----

  /** `Buffer.concat`. */
  function Concat(parts: seq<bytes>): bytes {
    if parts == [] then [] else parts[0] + Concat(parts[1..])
  }

  function PAE(payloadType: string, body: bytes): bytes {
    var t := Utf8.Encode(payloadType);
    Concat([Pae.PREFIX, Utf8.Encode(Decimal.OfNat(|t|)), [Pae.SP], t,
            [Pae.SP], Utf8.Encode(Decimal.OfNat(|body|)), [Pae.SP], body])
  }

  lemma ConcatEight(a: bytes, b: bytes, c: bytes, d: bytes, e: bytes, f: bytes, g: bytes, h: bytes)
    ensures Concat([a, b, c, d, e, f, g, h]) == a + (b + c + d) + e + (f + g + h)
  {
    var parts := [a, b, c, d, e, f, g, h];
    assert Concat(parts[6..]) == g + h by {
      assert Concat(parts[6..][1..]) == h by { assert parts[6..][1..] == [h]; }
    }
    assert Concat(parts[4..]) == e + (f + (g + h)) by {
      assert parts[4..][1..] == parts[5..] && parts[5..][1..] == parts[6..];
    }
    assert Concat(parts[2..]) == c + (d + (e + (f + (g + h)))) by {
      assert parts[2..][1..] == parts[3..] && parts[3..][1..] == parts[4..];
    }
    assert parts[1..][1..] == parts[2..];
  }

  /** TypeScript signs the same bytes as Python and Go for the same type and body. */
  lemma PaeIsPae(payloadType: string, body: bytes)
    ensures PAE(payloadType, body) == Pae.Pae(payloadType, body)
  {
    var t := Utf8.Encode(payloadType);
    ConcatEight(Pae.PREFIX, Pae.Length(t), [Pae.SP], t, [Pae.SP], Pae.Length(body), [Pae.SP], body);
  }

  // ----- canonical JSON -----

  /** `parts.join(",")`. */
  function Join(parts: seq<string>): string {
    if parts == [] then []
    else if |parts| == 1 then parts[0]
    else parts[0] + [','] + Join(parts[1..])
  }

  /** `canon`. */
  function Canon(v: Json): string
    decreases v, 1, 0
  {
    match v
    case Arr(items) => ['['] + Join(CanonItems(items)) + [']']
    case Obj(ms) => ['{'] + Join(CanonKeys(ms, SortKeys(Utf16Units, KeysOf(ms)))) + ['}']
    case _ => Plain(JavaScript, v)
  }

  /** `obj.map(canon)`. */
  function CanonItems(items: seq<Json>): (r: seq<string>)
    ensures |r| == |items|
    decreases items, 0, 0
  {
    if items == [] then [] else [Canon(items[0])] + CanonItems(items[1..])
  }

  /** `keys.map(k => JSON.stringify(k) + ":" + canon(obj[k]))`. */
  function CanonKeys(ms: seq<Member>, ks: seq<string>): (r: seq<string>)
    requires forall k | k in ks :: Has(ms, k)
    ensures |r| == |ks|
    decreases ms, 0, |ks|
  {
    if ks == [] then []
    else [Quote(JavaScript, ks[0]) + [':'] + Canon(Get(ms, ks[0]))] + CanonKeys(ms, ks[1..])
  }

  lemma {:induction false} JoinOfItems(items: seq<Json>)
    requires forall x | x in items :: Canon(x) == Canonical(JavaScript, x)
    ensures Join(CanonItems(items)) == JoinItems(JavaScript, NormalItems(Utf16Units, items))
  {
    if items != [] {
      JoinOfItems(items[1..]);
      assert CanonItems(items)[1..] == CanonItems(items[1..]);
      assert NormalItems(Utf16Units, items)[1..] == NormalItems(Utf16Units, items[1..]);
    }
  }

  lemma {:induction false} JoinOfKeys(ms: seq<Member>, ks: seq<string>, sorted: seq<Member>)
    requires |ks| == |sorted| && forall k | k in ks :: Has(ms, k)
    requires forall i | 0 <= i < |ks| :: sorted[i] == Member(ks[i], Normal(Utf16Units, Get(ms, ks[i])))
    requires forall k | k in ks :: Canon(Get(ms, k)) == Canonical(JavaScript, Get(ms, k))
    ensures Join(CanonKeys(ms, ks)) == JoinMembers(JavaScript, sorted)
  {
    if ks != [] {
      JoinOfKeys(ms, ks[1..], sorted[1..]);
      assert CanonKeys(ms, ks)[1..] == CanonKeys(ms, ks[1..]);
      assert CanonKeys(ms, ks)[0] == PlainMember(JavaScript, sorted[0]);
    }
  }

  /** `canon` prints the canonical text of the shared specification, keys in UTF-16 order. */
  lemma {:induction false} CanonIsCanonical(v: Json)
    requires IsDict(v)
    ensures Canon(v) == Canonical(JavaScript, v)
  {
    match v
    case Arr(items) =>
      forall x | x in items ensures Canon(x) == Canonical(JavaScript, x) {
        CanonIsCanonical(x);
      }
      JoinOfItems(items);
    case Obj(ms) =>
      var ks, sorted := SortKeys(Utf16Units, KeysOf(ms)), Sort(Utf16Units, NormalMembers(Utf16Units, ms));
      SortedKeys(Utf16Units, ms);
      forall k | k in ks ensures Has(ms, k) && Canon(Get(ms, k)) == Canonical(JavaScript, Get(ms, k)) {
        assert Member(k, Get(ms, k)) in ms;
        CanonIsCanonical(Get(ms, k));
      }
      forall i | 0 <= i < |ks| ensures sorted[i] == Member(ks[i], Normal(Utf16Units, Get(ms, ks[i]))) {
        SortedMemberIsLookup(Utf16Units, ms, i);
      }
      JoinOfKeys(ms, ks, sorted);
    case _ =>
  }
}
