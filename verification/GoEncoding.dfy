/** Go's encoders, which build their output step by step, proved against the shared specification. */
module GoEncoding {
  import opened Wrappers
  import opened Utf8
  import opened Json
  import opened JsonText
  import opened KeyOrder
  import opened KeySort
  import Decimal
  import Pae

  // ----- PAE -----

  lemma Fields(prefix: bytes, length: bytes, t: bytes, bodyLength: bytes, body: bytes, sp: bytes)
    ensures prefix + length + sp + t + sp + bodyLength + sp + body
         == prefix + (length + sp + t) + sp + (bodyLength + sp + body)
  {
  }

  /** `PAE`: appends the parts to one growing slice. */
  method PAE(payloadType: string, body: bytes) returns (out: bytes)
    ensures out == Pae.Pae(payloadType, body)
  {
    var t := Utf8.Encode(payloadType);
    out := Pae.PREFIX;
    out := out + Utf8.Encode(Decimal.OfNat(|t|));
    out := out + [Pae.SP];
    out := out + t;
    out := out + [Pae.SP];
    out := out + Utf8.Encode(Decimal.OfNat(|body|));
    out := out + [Pae.SP];
    out := out + body;
    Fields(Pae.PREFIX, Pae.Length(t), t, Pae.Length(body), body, [Pae.SP]);
  }

  // ----- canonical JSON -----

  /** `strings.Builder`. */
  class Builder {
    var text: string

    constructor ()
      ensures text == ""
    {
      text := "";
    }

    method Write(s: string)
      modifies this
      ensures text == old(text) + s
    {
      text := text + s;
    }
  }

  function Separator(i: nat): string {
    if i > 0 then [','] else []
  }

  /** Text written in two goes is the text written at once. */
  lemma Written(text: string, opening: string, joined: string, separator: string, next: string)
    ensures text + opening + joined + separator + next == text + opening + (joined + separator + next)
  {
  }

  lemma JoinMembersCons(ms: seq<Member>)
    requires |ms| >= 2
    ensures JoinMembers(Go, ms) == PlainMember(Go, ms[0]) + [','] + JoinMembers(Go, ms[1..])
  {
  }

  lemma SliceTail<T>(s: seq<T>, i: nat)
    requires i < |s|
    ensures s[..i + 1][1..] == s[1..][..i]
  {
  }

  lemma JoinMembersTwo(ms: seq<Member>)
    requires |ms| >= 2
    ensures JoinMembers(Go, ms[..2]) == JoinMembers(Go, ms[..1]) + [','] + PlainMember(Go, ms[1])
  {
    assert ms[..1] == [ms[0]] && ms[..2][1..] == [ms[1]];
  }

  lemma {:induction false} JoinMembersSnoc(ms: seq<Member>, i: nat)
    requires i < |ms|
    ensures JoinMembers(Go, ms[..i + 1]) == JoinMembers(Go, ms[..i]) + Separator(i) + PlainMember(Go, ms[i])
  {
    if i == 0 {
      assert ms[..1] == [ms[0]];
    } else if i == 1 {
      JoinMembersTwo(ms);
    } else {
      var tail := ms[1..];
      JoinMembersSnoc(tail, i - 1);
      JoinMembersCons(ms[..i + 1]);
      JoinMembersCons(ms[..i]);
      SliceTail(ms, i);
      SliceTail(ms, i - 1);
      assert tail[i - 1] == ms[i] && ms[..i + 1][0] == ms[..i][0] == ms[0];
      Enclosed(PlainMember(Go, ms[0]) + [','], JoinMembers(Go, tail[..i - 1]), [','], PlainMember(Go, ms[i]));
    }
  }

  lemma JoinItemsCons(items: seq<Json>)
    requires |items| >= 2
    ensures JoinItems(Go, items) == Plain(Go, items[0]) + [','] + JoinItems(Go, items[1..])
  {
  }

  lemma JoinItemsTwo(items: seq<Json>)
    requires |items| >= 2
    ensures JoinItems(Go, items[..2]) == JoinItems(Go, items[..1]) + [','] + Plain(Go, items[1])
  {
    assert items[..1] == [items[0]] && items[..2][1..] == [items[1]];
  }

  lemma {:induction false} JoinItemsSnoc(items: seq<Json>, i: nat)
    requires i < |items|
    ensures JoinItems(Go, items[..i + 1]) == JoinItems(Go, items[..i]) + Separator(i) + Plain(Go, items[i])
  {
    if i == 0 {
      assert items[..1] == [items[0]];
    } else if i == 1 {
      JoinItemsTwo(items);
    } else {
      var tail := items[1..];
      JoinItemsSnoc(tail, i - 1);
      JoinItemsCons(items[..i + 1]);
      JoinItemsCons(items[..i]);
      SliceTail(items, i);
      SliceTail(items, i - 1);
      assert tail[i - 1] == items[i] && items[..i + 1][0] == items[..i][0] == items[0];
      Enclosed(Plain(Go, items[0]) + [','], JoinItems(Go, tail[..i - 1]), [','], Plain(Go, items[i]));
    }
  }

  /** What one turn of the map loop adds takes the joined text one member further. */
  lemma MapTurn(text: string, ms: seq<Member>, i: nat)
    requires DistinctKeys(ms) && i < |ms|
    ensures |SortKeys(Utf8Bytes, KeysOf(ms))| == |Sort(Utf8Bytes, NormalMembers(Utf8Bytes, ms))| == |ms|
    ensures var k, sorted := SortKeys(Utf8Bytes, KeysOf(ms))[i], Sort(Utf8Bytes, NormalMembers(Utf8Bytes, ms));
      && Member(k, Get(ms, k)) in ms
      && text + ['{'] + JoinMembers(Go, sorted[..i]) + Separator(i)
           + PlainMember(Go, Member(k, Normal(Utf8Bytes, Get(ms, k))))
         == text + ['{'] + JoinMembers(Go, sorted[..i + 1])
  {
    var sorted := Sort(Utf8Bytes, NormalMembers(Utf8Bytes, ms));
    SortedMemberIsLookup(Utf8Bytes, ms, i);
    JoinMembersSnoc(sorted, i);
    Written(text, ['{'], JoinMembers(Go, sorted[..i]), Separator(i), PlainMember(Go, sorted[i]));
  }

  /** What one turn of the slice loop adds takes the joined text one item further. */
  lemma SliceTurn(text: string, items: seq<Json>, i: nat)
    requires i < |items|
    ensures text + ['['] + JoinItems(Go, items[..i]) + Separator(i) + Plain(Go, items[i])
         == text + ['['] + JoinItems(Go, items[..i + 1])
  {
    JoinItemsSnoc(items, i);
    Written(text, ['['], JoinItems(Go, items[..i]), Separator(i), Plain(Go, items[i]));
  }

  lemma ObjectWritten(text: string, ms: seq<Member>)
    ensures text + ['{'] + JoinMembers(Go, Sort(Utf8Bytes, NormalMembers(Utf8Bytes, ms))) + ['}']
         == text + Canonical(Go, Obj(ms))
  {
    Enclosed(text, ['{'], JoinMembers(Go, Sort(Utf8Bytes, NormalMembers(Utf8Bytes, ms))), ['}']);
  }

  lemma ArrayWritten(text: string, items: seq<Json>)
    ensures text + ['['] + JoinItems(Go, NormalItems(Utf8Bytes, items)) + [']'] == text + Canonical(Go, Arr(items))
  {
    Enclosed(text, ['['], JoinItems(Go, NormalItems(Utf8Bytes, items)), [']']);
  }

  lemma Enclosed(text: string, opening: string, joined: string, closing: string)
    ensures text + opening + joined + closing == text + (opening + joined + closing)
  {
  }

  /** `writeCanon`: dispatches on the kind of value and writes as it goes. */
  method WriteCanon(b: Builder, v: Json)
    requires IsDict(v)
    modifies b
    ensures b.text == old(b.text) + Canonical(Go, v)
    decreases v, 2
  {
    match v
    case Obj(ms) =>
      WriteMap(b, ms);
      b.Write("}");
      ObjectWritten(old(b.text), ms);
    case Arr(items) =>
      WriteSlice(b, items);
      b.Write("]");
      ArrayWritten(old(b.text), items);
    case _ => b.Write(Plain(Go, v));
  }

  /** The map case up to the closing brace: keys collected, sorted, and written with their values. */
  method WriteMap(b: Builder, ms: seq<Member>)
    requires IsDict(Obj(ms))
    modifies b
    ensures b.text == old(b.text) + ['{'] + JoinMembers(Go, Sort(Utf8Bytes, NormalMembers(Utf8Bytes, ms)))
    decreases ms, 1
  {
    ghost var sorted := Sort(Utf8Bytes, NormalMembers(Utf8Bytes, ms));
    var keys := SortKeys(Utf8Bytes, KeysOf(ms));
    SortedKeys(Utf8Bytes, ms);
    b.Write("{");
    for i := 0 to |keys|
      invariant b.text == old(b.text) + ['{'] + JoinMembers(Go, sorted[..i])
    {
      MapTurn(old(b.text), ms, i);
      WriteMember(b, i, keys[i], Get(ms, keys[i]));
    }
    assert sorted[..|keys|] == sorted;
  }

  /** The body of the map loop: separator, quoted key, colon, value. */
  method WriteMember(b: Builder, i: nat, k: string, v: Json)
    requires IsDict(v)
    modifies b
    ensures b.text == old(b.text) + Separator(i) + PlainMember(Go, Member(k, Normal(Utf8Bytes, v)))
    decreases v, 3
  {
    if i > 0 {
      b.Write(",");
    }
    b.Write(Quote(Go, k));
    b.Write(":");
    assert b.text == old(b.text) + Separator(i) + Quote(Go, k) + [':'];
    WriteCanon(b, v);
    Written(old(b.text), Separator(i), Quote(Go, k), [':'], Canonical(Go, v));
  }

  /** The slice case up to the closing bracket. */
  method WriteSlice(b: Builder, items: seq<Json>)
    requires IsDict(Arr(items))
    modifies b
    ensures b.text == old(b.text) + ['['] + JoinItems(Go, NormalItems(Utf8Bytes, items))
    decreases items, 1
  {
    ghost var normal := NormalItems(Utf8Bytes, items);
    b.Write("[");
    for i := 0 to |items|
      invariant b.text == old(b.text) + ['['] + JoinItems(Go, normal[..i])
    {
      SliceTurn(old(b.text), normal, i);
      WriteItem(b, i, items[i]);
    }
    assert normal[..|items|] == normal;
  }

  /** The body of the slice loop. */
  method WriteItem(b: Builder, i: nat, v: Json)
    requires IsDict(v)
    modifies b
    ensures b.text == old(b.text) + Separator(i) + Canonical(Go, v)
    decreases v, 3
  {
    if i > 0 {
      b.Write(",");
    }
    WriteCanon(b, v);
  }

  function PowerOfTwo(k: nat): nat {
    if k == 0 then 1 else 2 * PowerOfTwo(k - 1)
  }

  /** The least integer that rounds to infinity as a double: halfway between the largest double and 2^1024. */
  const OVERFLOW: int := PowerOfTwo(1024) - PowerOfTwo(970)

  /** `json.Unmarshal` into a generic value makes a `float64` of every integer, and refuses one out of range. */
  predicate FitsDoubles(v: Json) {
    match v
    case Int(n) => -OVERFLOW < n < OVERFLOW
    case Arr(items) => forall x | x in items :: FitsDoubles(x)
    case Obj(ms) => forall m | m in ms :: FitsDoubles(m.value)
    case _ => true
  }

  /** `CanonicalJSON`: `None` where it returns an error. */
  method CanonicalJSON(v: Json) returns (out: Option<bytes>)
    requires IsDict(v)
    ensures out == if FitsDoubles(v) then Some(Utf8.Encode(Canonical(Go, v))) else None
  {
    if !FitsDoubles(v) {
      return None;
    }
    var b := new Builder();
    WriteCanon(b, v);
    out := Some(Utf8.Encode(b.text));
    assert b.text == Canonical(Go, v);
  }
}
