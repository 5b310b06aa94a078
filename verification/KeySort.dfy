/** Sorting a list of keys and looking each one up, which is how the Go and TypeScript printers walk an object. */
module KeySort {
  import opened Json
  import opened KeyOrder

  function KeysOf(ms: seq<Member>): (r: seq<string>)
    ensures |r| == |ms| && forall i | 0 <= i < |ms| :: r[i] == ms[i].key
  {
    if ms == [] then [] else [ms[0].key] + KeysOf(ms[1..])
  }

  function InsertKey(o: KeyOrder, k: string, ks: seq<string>): (r: seq<string>)
    ensures forall x | x in r :: x == k || x in ks
  {
    if ks == [] || Less(o, k, ks[0]) then [k] + ks else [ks[0]] + InsertKey(o, k, ks[1..])
  }

  /** Go's `sort.Strings` and JavaScript's `sort()`, each with its own order. */
  function SortKeys(o: KeyOrder, ks: seq<string>): (r: seq<string>)
    ensures forall x | x in r :: x in ks
  {
    if ks == [] then [] else InsertKey(o, ks[0], SortKeys(o, ks[1..]))
  }

  lemma {:induction false} InsertKeyOfInsert(o: KeyOrder, m: Member, ms: seq<Member>)
    ensures KeysOf(Insert(o, m, ms)) == InsertKey(o, m.key, KeysOf(ms))
  {
    if ms != [] && !Less(o, m.key, ms[0].key) {
      InsertKeyOfInsert(o, m, ms[1..]);
      assert KeysOf(ms)[1..] == KeysOf(ms[1..]);
    }
  }

  lemma {:induction false} SortKeysOfSort(o: KeyOrder, ms: seq<Member>)
    ensures KeysOf(Sort(o, ms)) == SortKeys(o, KeysOf(ms))
  {
    if ms != [] {
      SortKeysOfSort(o, ms[1..]);
      InsertKeyOfInsert(o, ms[0], Sort(o, ms[1..]));
    }
  }

  lemma SortedKeys(o: KeyOrder, ms: seq<Member>)
    ensures KeysOf(Sort(o, NormalMembers(o, ms))) == SortKeys(o, KeysOf(ms))
    ensures |SortKeys(o, KeysOf(ms))| == |Sort(o, NormalMembers(o, ms))| == |ms|
  {
    var ns := NormalMembers(o, ms);
    SortMembers(o, ns);
    SortKeysOfSort(o, ns);
    assert KeysOf(ns) == KeysOf(ms);
  }

  lemma NormalMemberIsLookup(o: KeyOrder, ms: seq<Member>, m: Member)
    requires DistinctKeys(ms) && m in NormalMembers(o, ms)
    ensures Has(ms, m.key) && m.value == Normal(o, Get(ms, m.key))
  {
  }

  /** The sorted members of the normal form, in the terms of the loop: sorted keys, looked up one by one. */
  lemma SortedMemberIsLookup(o: KeyOrder, ms: seq<Member>, i: nat)
    requires DistinctKeys(ms) && i < |ms|
    ensures |SortKeys(o, KeysOf(ms))| == |Sort(o, NormalMembers(o, ms))| == |ms|
    ensures var k := SortKeys(o, KeysOf(ms))[i];
      Has(ms, k) && Sort(o, NormalMembers(o, ms))[i] == Member(k, Normal(o, Get(ms, k)))
  {
    var sorted := Sort(o, NormalMembers(o, ms));
    SortedKeys(o, ms);
    SortMembers(o, NormalMembers(o, ms));
    assert sorted[i] in sorted;
    NormalMemberIsLookup(o, ms, sorted[i]);
    assert KeysOf(sorted)[i] == sorted[i].key;
  }
}
