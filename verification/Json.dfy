/**
 JSON values. An object is a list of members in insertion order, so that key
 order is visible and sorting has work to do.
 */
module Json {
  import opened KeyOrder

  datatype Member = Member(key: string, value: Json)

  datatype Json =
    | Null
    | Bool(b: bool)
    | Int(n: int)
    | Str(s: string)
    | Arr(items: seq<Json>)
    | Obj(members: seq<Member>)

  // ----- objects as dictionaries -----

  function Keys(ms: seq<Member>): set<string> {
    set m | m in ms :: m.key
  }

  predicate DistinctKeys(ms: seq<Member>) {
    forall i, j | 0 <= i < j < |ms| :: ms[i].key != ms[j].key
  }

  /** Position of key `k`, or the length when there is none. */
  function IndexOf(ms: seq<Member>, k: string): (i: nat)
    ensures i <= |ms|
    ensures i < |ms| ==> ms[i].key == k
    ensures forall j | 0 <= j < i :: ms[j].key != k
  {
    if ms == [] || ms[0].key == k then 0 else 1 + IndexOf(ms[1..], k)
  }

  predicate Has(ms: seq<Member>, k: string) {
    IndexOf(ms, k) < |ms|
  }

  /** Python's `d.get(k)`: a missing key reads as `None`, which is also what JSON `null` decodes to. */
  function Get(ms: seq<Member>, k: string): (v: Json)
    ensures Has(ms, k) ==> Member(k, v) in ms
  {
    var i := IndexOf(ms, k);
    if i < |ms| then ms[i].value else Null
  }

  lemma {:induction false} IndexOfConcat(a: seq<Member>, b: seq<Member>, k: string)
    ensures IndexOf(a + b, k) == if Has(a, k) then IndexOf(a, k) else |a| + IndexOf(b, k)
  {
    if a == [] {
      assert a + b == b;
    } else {
      IndexOfConcat(a[1..], b, k);
      assert (a + b)[1..] == a[1..] + b;
    }
  }

  lemma GetOfConcat(a: seq<Member>, b: seq<Member>, k: string)
    ensures Has(a + b, k) == (Has(a, k) || Has(b, k))
    ensures Get(a + b, k) == if Has(a, k) then Get(a, k) else Get(b, k)
  {
    IndexOfConcat(a, b, k);
  }

  /** Python's `d[k] = v`: an existing key keeps its place, a new one goes last. */
  function Put(ms: seq<Member>, k: string, v: Json): (r: seq<Member>)
    ensures Has(ms, k) ==> |r| == |ms|
    ensures Keys(r) == Keys(ms) + {k}
  {
    var i := IndexOf(ms, k);
    if i < |ms| then
      assert forall m | m in ms && m.key != k :: m in ms[i := Member(k, v)] by {
        forall m | m in ms && m.key != k ensures m in ms[i := Member(k, v)] {
          var j :| 0 <= j < |ms| && ms[j] == m;
          assert ms[i := Member(k, v)][j] == m;
        }
      }
      assert ms[i := Member(k, v)][i] == Member(k, v);
      ms[i := Member(k, v)]
    else
      ms + [Member(k, v)]
  }

  /** `d[k] = v` changes the binding of `k` and no other. */
  lemma PutMembers(ms: seq<Member>, k: string, v: Json)
    requires DistinctKeys(ms)
    ensures DistinctKeys(Put(ms, k, v))
    ensures forall m :: m in Put(ms, k, v) <==> m == Member(k, v) || (m in ms && m.key != k)
  {
    var i := IndexOf(ms, k);
    var r := Put(ms, k, v);
    if i < |ms| {
      assert r[i] == Member(k, v);
      forall m ensures m in r <==> m == Member(k, v) || (m in ms && m.key != k) {
        if m in ms && m.key != k {
          var j :| 0 <= j < |ms| && ms[j] == m;
          assert r[j] == m;
        }
        if m in r {
          var j :| 0 <= j < |r| && r[j] == m;
          assert j == i || ms[j] == m;
        }
      }
    }
  }

  /** Every object in `v`, at any depth, has distinct keys. */
  predicate IsDict(v: Json) {
    match v
    case Arr(items) => forall x | x in items :: IsDict(x)
    case Obj(ms) => DistinctKeys(ms) && forall m | m in ms :: IsDict(m.value)
    case _ => true
  }

  /** Every integer in `v` is one that a double holds exactly, as all its neighbours are. */
  predicate SafeIntegers(v: Json) {
    match v
    case Int(n) => -0x20_0000_0000_0000 < n < 0x20_0000_0000_0000
    case Arr(items) => forall x | x in items :: SafeIntegers(x)
    case Obj(ms) => forall m | m in ms :: SafeIntegers(m.value)
    case _ => true
  }

  /** Arrays and objects in `v` are nested at most `depth` deep. */
  predicate Shallow(v: Json, depth: nat) {
    match v
    case Arr(items) => depth > 0 && forall x | x in items :: Shallow(x, depth - 1)
    case Obj(ms) => depth > 0 && forall m | m in ms :: Shallow(m.value, depth - 1)
    case _ => true
  }

  /** What building Python dicts from parsed members does: for a repeated key the last value wins. */
  function Collapse(v: Json): Json
    decreases v, 1
  {
    match v
    case Arr(items) => Arr(CollapseItems(items))
    case Obj(ms) => Obj(CollapseMembers(ms))
    case _ => v
  }

  function CollapseItems(items: seq<Json>): (r: seq<Json>)
    ensures |r| == |items|
    decreases items, 0
  {
    if items == [] then [] else [Collapse(items[0])] + CollapseItems(items[1..])
  }

  function CollapseMembers(ms: seq<Member>): seq<Member>
    decreases ms, 0
  {
    if ms == [] then []
    else Put(CollapseMembers(ms[..|ms| - 1]), ms[|ms| - 1].key, Collapse(ms[|ms| - 1].value))
  }

  lemma PutKeepsDict(ms: seq<Member>, k: string, v: Json)
    requires IsDict(Obj(ms)) && IsDict(v)
    ensures IsDict(Obj(Put(ms, k, v)))
  {
  }

  lemma {:induction false} CollapseIsDict(v: Json)
    ensures IsDict(Collapse(v))
    decreases v, 1
  {
    match v
    case Arr(items) => CollapseItemsAreDicts(items);
    case Obj(ms) => CollapseMembersAreDict(ms);
    case _ =>
  }

  lemma {:induction false} CollapseItemsAreDicts(items: seq<Json>)
    ensures forall x | x in CollapseItems(items) :: IsDict(x)
    decreases items, 0
  {
    if items != [] {
      CollapseIsDict(items[0]);
      CollapseItemsAreDicts(items[1..]);
    }
  }

  lemma {:induction false} CollapseMembersAreDict(ms: seq<Member>)
    ensures IsDict(Obj(CollapseMembers(ms)))
    decreases ms, 0
  {
    if ms != [] {
      CollapseMembersAreDict(ms[..|ms| - 1]);
      CollapseIsDict(ms[|ms| - 1].value);
      PutKeepsDict(CollapseMembers(ms[..|ms| - 1]), ms[|ms| - 1].key, Collapse(ms[|ms| - 1].value));
    }
  }

  /** On values that already are dicts nothing is lost. */
  lemma {:induction false} CollapseOfDict(v: Json)
    requires IsDict(v)
    ensures Collapse(v) == v
    decreases v, 1
  {
    match v
    case Arr(items) => CollapseOfDictItems(items);
    case Obj(ms) => CollapseOfDictMembers(ms);
    case _ =>
  }

  lemma {:induction false} CollapseOfDictItems(items: seq<Json>)
    requires forall x | x in items :: IsDict(x)
    ensures CollapseItems(items) == items
    decreases items, 0
  {
    if items != [] {
      CollapseOfDict(items[0]);
      CollapseOfDictItems(items[1..]);
    }
  }

  lemma PutNew(ms: seq<Member>, m: Member)
    requires DistinctKeys(ms + [m])
    ensures Put(ms, m.key, m.value) == ms + [m]
  {
    assert (ms + [m])[|ms|] == m;
    assert forall i | 0 <= i < |ms| :: (ms + [m])[i] == ms[i];
  }

  lemma SplitDict(ms: seq<Member>) returns (init: seq<Member>, last: Member)
    requires IsDict(Obj(ms)) && ms != []
    ensures init == ms[..|ms| - 1] && last == ms[|ms| - 1] && ms == init + [last]
    ensures IsDict(Obj(init)) && IsDict(last.value)
  {
    init, last := ms[..|ms| - 1], ms[|ms| - 1];
    assert forall m | m in init :: m in ms;
  }

  lemma {:induction false} CollapseOfDictMembers(ms: seq<Member>)
    requires IsDict(Obj(ms))
    ensures CollapseMembers(ms) == ms
    decreases ms, 0
  {
    if ms != [] {
      var init, last := SplitDict(ms);
      CollapseOfDictMembers(init);
      CollapseOfDict(last.value);
      PutNew(init, last);
    }
  }

  /** The value of the last member with key `k`, `Null` when there is none. */
  function GetLast(ms: seq<Member>, k: string): Json {
    if ms == [] then Null
    else if ms[|ms| - 1].key == k then ms[|ms| - 1].value
    else GetLast(ms[..|ms| - 1], k)
  }

  lemma GetOfPut(ms: seq<Member>, k: string, v: Json, k': string)
    ensures Get(Put(ms, k, v), k') == if k == k' then v else Get(ms, k')
  {
    var i, i' := IndexOf(ms, k), IndexOf(ms, k');
    var r := Put(ms, k, v);
    assert i < |ms| ==> r[i] == Member(k, v) && forall j | 0 <= j < |ms| && j != i :: r[j] == ms[j];
    assert i == |ms| ==> r[|ms|] == Member(k, v) && forall j | 0 <= j < |ms| :: r[j] == ms[j];
    assert IndexOf(r, k') == if k == k' then i else if i' < |ms| then i' else |r|;
  }

  /** A lookup in the dict is a search from the end of the text. */
  lemma {:induction false} GetOfCollapse(ms: seq<Member>, k: string)
    ensures Get(CollapseMembers(ms), k) == Collapse(GetLast(ms, k))
  {
    if ms != [] {
      var init, last := ms[..|ms| - 1], ms[|ms| - 1];
      GetOfCollapse(init, k);
      GetOfPut(CollapseMembers(init), last.key, Collapse(last.value), k);
    }
  }

  // ----- sorting by key -----

  function Insert(o: KeyOrder, m: Member, ms: seq<Member>): seq<Member> {
    if ms == [] || Less(o, m.key, ms[0].key) then [m] + ms
    else [ms[0]] + Insert(o, m, ms[1..])
  }

  function Sort(o: KeyOrder, ms: seq<Member>): seq<Member> {
    if ms == [] then [] else Insert(o, ms[0], Sort(o, ms[1..]))
  }

  predicate Sorted(o: KeyOrder, ms: seq<Member>) {
    ms != [] ==> (forall i | 1 <= i < |ms| :: Less(o, ms[0].key, ms[i].key)) && Sorted(o, ms[1..])
  }

  lemma {:induction false} InsertMembers(o: KeyOrder, m: Member, ms: seq<Member>)
    ensures multiset(Insert(o, m, ms)) == multiset{m} + multiset(ms)
  {
    if ms != [] {
      assert ms == [ms[0]] + ms[1..];
      if !Less(o, m.key, ms[0].key) {
        InsertMembers(o, m, ms[1..]);
      }
    }
  }

  lemma {:induction false} SortMembers(o: KeyOrder, ms: seq<Member>)
    ensures multiset(Sort(o, ms)) == multiset(ms)
    ensures forall m :: m in Sort(o, ms) <==> m in ms
    ensures |Sort(o, ms)| == |ms|
  {
    if ms != [] {
      assert ms == [ms[0]] + ms[1..];
      SortMembers(o, ms[1..]);
      InsertMembers(o, ms[0], Sort(o, ms[1..]));
    }
    assert forall m :: m in Sort(o, ms) <==> m in multiset(Sort(o, ms));
    assert forall m :: m in ms <==> m in multiset(ms);
    assert |multiset(Sort(o, ms))| == |Sort(o, ms)| && |multiset(ms)| == |ms|;
  }

  lemma {:induction false} InsertSorted(o: KeyOrder, m: Member, ms: seq<Member>)
    requires Sorted(o, ms) && m.key !in Keys(ms)
    ensures Sorted(o, Insert(o, m, ms))
  {
    var r := Insert(o, m, ms);
    if ms == [] {
    } else if Less(o, m.key, ms[0].key) {
      assert r[1..] == ms;
      forall i | 1 <= i < |r| ensures Less(o, m.key, r[i].key) {
        if i > 1 {
          Transitive(o, m.key, ms[0].key, ms[i - 1].key);
        }
      }
    } else {
      Trichotomy(o, m.key, ms[0].key);
      InsertSorted(o, m, ms[1..]);
      InsertMembers(o, m, ms[1..]);
      assert r[1..] == Insert(o, m, ms[1..]);
      forall i | 1 <= i < |r| ensures Less(o, ms[0].key, r[i].key) {
        assert r[i] in multiset(Insert(o, m, ms[1..])) by { assert r[i] in r[1..]; }
        assert r[i] == m || r[i] in ms[1..];
      }
    }
  }

  lemma {:induction false} SortSorted(o: KeyOrder, ms: seq<Member>)
    requires DistinctKeys(ms)
    ensures Sorted(o, Sort(o, ms))
  {
    if ms != [] {
      SortSorted(o, ms[1..]);
      SortMembers(o, ms[1..]);
      assert forall m | m in ms[1..] :: m.key != ms[0].key;
      InsertSorted(o, ms[0], Sort(o, ms[1..]));
    }
  }

  lemma TailOfSorted(o: KeyOrder, a: seq<Member>, m: Member)
    requires Sorted(o, a) && a != []
    ensures m in a[1..] <==> m in a && m != a[0]
  {
    if m in a[1..] {
      var i :| 0 <= i < |a| - 1 && a[1..][i] == m;
      assert Less(o, a[0].key, a[i + 1].key);
      Trichotomy(o, a[0].key, m.key);
    }
  }

  /** A strictly sorted list is determined by its elements. */
  lemma {:induction false} SortedUnique(o: KeyOrder, a: seq<Member>, b: seq<Member>)
    requires Sorted(o, a) && Sorted(o, b)
    requires forall m :: m in a <==> m in b
    ensures a == b
  {
    assert a != [] ==> a[0] in b;
    assert b != [] ==> b[0] in a;
    if a != [] {
      Trichotomy(o, a[0].key, b[0].key);
      assert a[0] == b[0];
      forall m ensures m in a[1..] <==> m in b[1..] {
        TailOfSorted(o, a, m);
        TailOfSorted(o, b, m);
      }
      SortedUnique(o, a[1..], b[1..]);
    }
  }

  lemma {:induction false} SortedDistinct(o: KeyOrder, ms: seq<Member>)
    requires Sorted(o, ms)
    ensures DistinctKeys(ms)
  {
    if ms != [] {
      SortedDistinct(o, ms[1..]);
      forall i, j | 0 <= i < j < |ms| ensures ms[i].key != ms[j].key {
        if i == 0 {
          Trichotomy(o, ms[0].key, ms[j].key);
        } else {
          assert ms[i] == ms[1..][i - 1] && ms[j] == ms[1..][j - 1];
        }
      }
    }
  }

  /** With distinct keys, a lookup depends on the set of members only. */
  lemma GetSameMembers(a: seq<Member>, b: seq<Member>, k: string)
    requires DistinctKeys(a)
    requires forall m :: m in a <==> m in b
    ensures Has(a, k) == Has(b, k) && Get(a, k) == Get(b, k)
  {
    if Has(a, k) {
      assert Member(k, Get(a, k)) in b;
    }
    if Has(b, k) {
      assert Member(k, Get(b, k)) in a;
    }
  }

  // ----- the normal form: keys sorted at every depth -----

  function Normal(o: KeyOrder, v: Json): Json
    decreases v, 1
  {
    match v
    case Arr(items) => Arr(NormalItems(o, items))
    case Obj(ms) => Obj(Sort(o, NormalMembers(o, ms)))
    case _ => v
  }

  function NormalItems(o: KeyOrder, items: seq<Json>): (r: seq<Json>)
    ensures |r| == |items|
    ensures forall i | 0 <= i < |items| :: r[i] == Normal(o, items[i])
    decreases items, 0
  {
    if items == [] then [] else [Normal(o, items[0])] + NormalItems(o, items[1..])
  }

  function NormalMembers(o: KeyOrder, ms: seq<Member>): (r: seq<Member>)
    ensures |r| == |ms|
    ensures forall i | 0 <= i < |ms| :: r[i] == Member(ms[i].key, Normal(o, ms[i].value))
    decreases ms, 0
  {
    if ms == [] then [] else [Member(ms[0].key, Normal(o, ms[0].value))] + NormalMembers(o, ms[1..])
  }

  /** Equal up to the insertion order of keys, at every depth. */
  predicate Same(v: Json, w: Json)
    decreases v
  {
    match (v, w)
    case (Arr(a), Arr(b)) => |a| == |b| && forall i | 0 <= i < |a| :: Same(a[i], b[i])
    case (Obj(ms), Obj(ns)) =>
      && Keys(ms) == Keys(ns)
      && forall i, j | 0 <= i < |ms| && 0 <= j < |ns| && ms[i].key == ns[j].key :: Same(ms[i].value, ns[j].value)
    case _ => v == w
  }

  /** Objects with the same keys in the same places are the same when their values are, place by place. */
  lemma SameByIndex(ms: seq<Member>, ns: seq<Member>)
    requires |ms| == |ns| && DistinctKeys(ms) && forall i | 0 <= i < |ms| :: ms[i].key == ns[i].key
    ensures Same(Obj(ms), Obj(ns)) <==> forall i | 0 <= i < |ms| :: Same(ms[i].value, ns[i].value)
  {
  }

  lemma SortUniqueFor(o: KeyOrder, ms: seq<Member>, ns: seq<Member>)
    requires DistinctKeys(ms) && DistinctKeys(ns)
    ensures Sort(o, ms) == Sort(o, ns) <==> forall m :: m in ms <==> m in ns
  {
    SortMembers(o, ms);
    SortMembers(o, ns);
    if forall m :: m in ms <==> m in ns {
      SortSorted(o, ms);
      SortSorted(o, ns);
      SortedUnique(o, Sort(o, ms), Sort(o, ns));
    }
  }

  /** Two values have the same normal form exactly when they differ in key order only. */
  lemma {:induction false} SameIffNormal(o: KeyOrder, v: Json, w: Json)
    requires IsDict(v) && IsDict(w)
    ensures Same(v, w) <==> Normal(o, v) == Normal(o, w)
    decreases v
  {
    match (v, w)
    case (Arr(a), Arr(b)) =>
      if |a| == |b| {
        forall i | 0 <= i < |a| ensures Same(a[i], b[i]) <==> Normal(o, a[i]) == Normal(o, b[i]) {
          SameIffNormal(o, a[i], b[i]);
        }
        SameItemsIffNormal(o, a, b);
      }
    case (Obj(ms), Obj(ns)) =>
      forall i, j | 0 <= i < |ms| && 0 <= j < |ns|
        ensures Same(ms[i].value, ns[j].value) <==> Normal(o, ms[i].value) == Normal(o, ns[j].value)
      {
        SameIffNormal(o, ms[i].value, ns[j].value);
      }
      SameMembersIffSorted(o, ms, ns);
    case _ =>
  }

  lemma SameItemsIffNormal(o: KeyOrder, a: seq<Json>, b: seq<Json>)
    requires |a| == |b|
    ensures NormalItems(o, a) == NormalItems(o, b) <==> forall i | 0 <= i < |a| :: Normal(o, a[i]) == Normal(o, b[i])
  {
    assert forall i | 0 <= i < |a| ::
        NormalItems(o, a)[i] == Normal(o, a[i]) && NormalItems(o, b)[i] == Normal(o, b[i]);
  }

  lemma SameMembersIffSorted(o: KeyOrder, ms: seq<Member>, ns: seq<Member>)
    requires DistinctKeys(ms) && DistinctKeys(ns)
    ensures Sort(o, NormalMembers(o, ms)) == Sort(o, NormalMembers(o, ns)) <==>
      Keys(ms) == Keys(ns) && ValuesAgree(o, ms, ns)
  {
    SortUniqueFor(o, NormalMembers(o, ms), NormalMembers(o, ns));
    if Keys(ms) == Keys(ns) && ValuesAgree(o, ms, ns) {
      SameMembersNormalize(o, ms, ns);
      SameMembersNormalize(o, ns, ms);
    }
    if Sort(o, NormalMembers(o, ms)) == Sort(o, NormalMembers(o, ns)) {
      NormalizedMembersSame(o, ms, ns);
      NormalizedMembersSame(o, ns, ms);
    }
  }

  /** Equal keys carry values with equal normal forms. */
  predicate ValuesAgree(o: KeyOrder, ms: seq<Member>, ns: seq<Member>) {
    forall i, j | 0 <= i < |ms| && 0 <= j < |ns| && ms[i].key == ns[j].key ::
      Normal(o, ms[i].value) == Normal(o, ns[j].value)
  }

  lemma SameMembersNormalize(o: KeyOrder, ms: seq<Member>, ns: seq<Member>)
    requires Keys(ms) <= Keys(ns) && ValuesAgree(o, ms, ns)
    ensures forall m | m in NormalMembers(o, ms) :: m in NormalMembers(o, ns)
  {
    forall m | m in NormalMembers(o, ms) ensures m in NormalMembers(o, ns) {
      var i :| 0 <= i < |ms| && NormalMembers(o, ms)[i] == m;
      assert ms[i].key in Keys(ns);
      var j :| 0 <= j < |ns| && ns[j].key == ms[i].key;
      assert NormalMembers(o, ns)[j] == m;
    }
  }

  lemma NormalizedMember(o: KeyOrder, m: Member, ns: seq<Member>)
    requires DistinctKeys(ns) && m in NormalMembers(o, ns)
    ensures m.key in Keys(ns)
    ensures forall j | 0 <= j < |ns| && m.key == ns[j].key :: m.value == Normal(o, ns[j].value)
  {
  }

  lemma NormalizedMembersSame(o: KeyOrder, ms: seq<Member>, ns: seq<Member>)
    requires DistinctKeys(ns)
    requires forall m | m in NormalMembers(o, ms) :: m in NormalMembers(o, ns)
    ensures Keys(ms) <= Keys(ns) && ValuesAgree(o, ms, ns)
  {
    forall i | 0 <= i < |ms|
      ensures ms[i].key in Keys(ns)
      ensures forall j | 0 <= j < |ns| && ms[i].key == ns[j].key :: Normal(o, ms[i].value) == Normal(o, ns[j].value)
    {
      NormalizedMember(o, NormalMembers(o, ms)[i], ns);
    }
  }

  lemma {:induction false} NormalIsDict(o: KeyOrder, v: Json)
    requires IsDict(v)
    ensures IsDict(Normal(o, v))
  {
    match v
    case Arr(items) =>
      forall i | 0 <= i < |items| ensures IsDict(NormalItems(o, items)[i]) {
        NormalIsDict(o, items[i]);
      }
    case Obj(ms) =>
      var ns := NormalMembers(o, ms);
      SortMembers(o, ns);
      SortSorted(o, ns);
      SortedDistinct(o, Sort(o, ns));
      forall i | 0 <= i < |ms| ensures IsDict(ns[i].value) {
        NormalIsDict(o, ms[i].value);
      }
    case _ =>
  }

  /** Sorting keys twice is sorting them once. */
  lemma {:induction false} NormalIdempotent(o: KeyOrder, v: Json)
    requires IsDict(v)
    ensures Normal(o, Normal(o, v)) == Normal(o, v)
    decreases v
  {
    match v
    case Arr(items) =>
      forall i | 0 <= i < |items| ensures Normal(o, NormalItems(o, items)[i]) == NormalItems(o, items)[i] {
        NormalIdempotent(o, items[i]);
      }
      assert NormalItems(o, NormalItems(o, items)) == NormalItems(o, items);
    case Obj(ms) =>
      forall i | 0 <= i < |ms|
        ensures Normal(o, NormalMembers(o, ms)[i].value) == NormalMembers(o, ms)[i].value
      {
        NormalIdempotent(o, ms[i].value);
      }
      SortedNormal(o, NormalMembers(o, ms));
    case _ =>
  }

  /** Members with normal values, once sorted, are normal. */
  lemma SortedNormal(o: KeyOrder, ns: seq<Member>)
    requires DistinctKeys(ns)
    requires forall i | 0 <= i < |ns| :: Normal(o, ns[i].value) == ns[i].value
    ensures Normal(o, Obj(Sort(o, ns))) == Obj(Sort(o, ns))
  {
    var sorted := Sort(o, ns);
    SortMembers(o, ns);
    SortSorted(o, ns);
    SortedDistinct(o, sorted);
    forall i | 0 <= i < |sorted| ensures NormalMembers(o, sorted)[i] == sorted[i] {
      assert sorted[i] in ns;
    }
    assert NormalMembers(o, sorted) == sorted;
    SortUniqueFor(o, sorted, ns);
  }

  /** Every value is the same as its normal form. */
  lemma SameAsNormal(o: KeyOrder, v: Json)
    requires IsDict(v)
    ensures Same(v, Normal(o, v)) && Same(Normal(o, v), v)
  {
    NormalIsDict(o, v);
    NormalIdempotent(o, v);
    SameIffNormal(o, v, Normal(o, v));
    SameIffNormal(o, Normal(o, v), v);
  }

  lemma {:induction false} NormalIsSafe(o: KeyOrder, v: Json)
    ensures SafeIntegers(Normal(o, v)) <==> SafeIntegers(v)
  {
    match v
    case Arr(items) =>
      forall i | 0 <= i < |items| ensures SafeIntegers(NormalItems(o, items)[i]) <==> SafeIntegers(items[i]) {
        NormalIsSafe(o, items[i]);
      }
    case Obj(ms) =>
      var ns := NormalMembers(o, ms);
      SortMembers(o, ns);
      forall i | 0 <= i < |ms| ensures SafeIntegers(ns[i].value) <==> SafeIntegers(ms[i].value) {
        NormalIsSafe(o, ms[i].value);
      }
    case _ =>
  }

  lemma {:induction false} ShallowItems(items: seq<Json>, rs: seq<Json>, depth: nat)
    requires |rs| == |items| && forall i | 0 <= i < |items| :: Shallow(rs[i], depth) <==> Shallow(items[i], depth)
    ensures Shallow(Arr(rs), depth + 1) <==> Shallow(Arr(items), depth + 1)
  {
    assert forall i | 0 <= i < |items| :: rs[i] in rs && items[i] in items;
  }

  lemma {:induction false} ShallowMembers(ms: seq<Member>, ns: seq<Member>, depth: nat)
    requires |ns| == |ms|
    requires forall i | 0 <= i < |ms| :: Shallow(ns[i].value, depth) <==> Shallow(ms[i].value, depth)
    ensures Shallow(Obj(ns), depth + 1) <==> Shallow(Obj(ms), depth + 1)
  {
    assert forall i | 0 <= i < |ms| :: ns[i] in ns && ms[i] in ms;
  }

  lemma {:induction false} ShallowSorted(o: KeyOrder, ns: seq<Member>, depth: nat)
    ensures Shallow(Obj(Sort(o, ns)), depth) <==> Shallow(Obj(ns), depth)
  {
    SortMembers(o, ns);
  }

  lemma {:induction false} NormalIsShallow(o: KeyOrder, v: Json, depth: nat)
    ensures Shallow(Normal(o, v), depth) <==> Shallow(v, depth)
    decreases v, 1
  {
    match v
    case Arr(items) =>
      if depth > 0 {
        NormalItemsAreShallow(o, items, depth - 1);
      }
    case Obj(ms) =>
      if depth > 0 {
        NormalMembersAreShallow(o, ms, depth - 1);
        ShallowSorted(o, NormalMembers(o, ms), depth);
      }
    case _ =>
  }

  lemma {:induction false} NormalItemsAreShallow(o: KeyOrder, items: seq<Json>, depth: nat)
    ensures Shallow(Arr(NormalItems(o, items)), depth + 1) <==> Shallow(Arr(items), depth + 1)
    decreases items, 0
  {
    var rs := NormalItems(o, items);
    forall i | 0 <= i < |items| ensures Shallow(rs[i], depth) <==> Shallow(items[i], depth) {
      NormalIsShallow(o, items[i], depth);
    }
    ShallowItems(items, rs, depth);
  }

  lemma {:induction false} NormalMembersAreShallow(o: KeyOrder, ms: seq<Member>, depth: nat)
    ensures Shallow(Obj(NormalMembers(o, ms)), depth + 1) <==> Shallow(Obj(ms), depth + 1)
    decreases ms, 0
  {
    var ns := NormalMembers(o, ms);
    forall i | 0 <= i < |ms| ensures Shallow(ns[i].value, depth) <==> Shallow(ms[i].value, depth) {
      NormalIsShallow(o, ms[i].value, depth);
    }
    ShallowMembers(ms, ns, depth);
  }
}
