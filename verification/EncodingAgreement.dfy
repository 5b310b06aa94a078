/** When the three canonical printers write the same text: exactly when, for every value. */
module EncodingAgreement {
  import opened Json
  import opened JsonText
  import opened KeyOrder

  // ----- Go against Python -----

  lemma {:induction false} InsertAgrees(m: Member, ms: seq<Member>)
    ensures Insert(Utf8Bytes, m, ms) == Insert(CodePoint, m, ms)
  {
    if ms != [] {
      Utf8OrderIsCodePointOrder(m.key, ms[0].key);
      InsertAgrees(m, ms[1..]);
    }
  }

  lemma {:induction false} SortAgrees(ms: seq<Member>)
    ensures Sort(Utf8Bytes, ms) == Sort(CodePoint, ms)
  {
    if ms != [] {
      SortAgrees(ms[1..]);
      InsertAgrees(ms[0], Sort(CodePoint, ms[1..]));
    }
  }

  /** Go and Python put every object's keys in the same order, at every depth. */
  lemma {:induction false} NormalAgrees(v: Json)
    ensures Normal(Utf8Bytes, v) == Normal(CodePoint, v)
  {
    match v
    case Arr(items) =>
      forall i | 0 <= i < |items| ensures NormalItems(Utf8Bytes, items)[i] == NormalItems(CodePoint, items)[i] {
        NormalAgrees(items[i]);
      }
      assert NormalItems(Utf8Bytes, items) == NormalItems(CodePoint, items);
    case Obj(ms) =>
      forall i | 0 <= i < |ms| ensures NormalMembers(Utf8Bytes, ms)[i] == NormalMembers(CodePoint, ms)[i] {
        NormalAgrees(ms[i].value);
      }
      assert NormalMembers(Utf8Bytes, ms) == NormalMembers(CodePoint, ms);
      SortAgrees(NormalMembers(CodePoint, ms));
    case _ =>
  }

  /** How many characters of the strings and keys of `v` Go escapes and Python does not. */
  function HtmlCount(v: Json): nat
    decreases v, 1
  {
    match v
    case Str(s) => HtmlIn(s)
    case Arr(items) => HtmlInItems(items)
    case Obj(ms) => HtmlInMembers(ms)
    case _ => 0
  }

  function HtmlIn(s: string): nat {
    if s == [] then 0 else (if HtmlSensitive(s[0]) then 1 else 0) + HtmlIn(s[1..])
  }

  function HtmlInItems(items: seq<Json>): nat
    decreases items, 0
  {
    if items == [] then 0 else HtmlCount(items[0]) + HtmlInItems(items[1..])
  }

  function HtmlInMembers(ms: seq<Member>): nat
    decreases ms, 0
  {
    if ms == [] then 0 else HtmlInMember(ms[0]) + HtmlInMembers(ms[1..])
  }

  function HtmlInMember(m: Member): nat
    decreases m, 0
  {
    HtmlIn(m.key) + HtmlCount(m.value)
  }

  lemma {:induction false} EscapeLengths(s: string)
    ensures |Escape(Go, s)| == |Escape(Python, s)| + 5 * HtmlIn(s)
    ensures HtmlIn(s) == 0 ==> Escape(Go, s) == Escape(Python, s)
  {
    if s != [] {
      EscapeLengths(s[1..]);
    }
  }

  /** Each such character makes Go's text five characters longer; without any, the texts are equal. */
  lemma {:induction false} PlainLengths(v: Json)
    requires Exact(Go, v)
    ensures |Plain(Go, v)| == |Plain(Python, v)| + 5 * HtmlCount(v)
    ensures HtmlCount(v) == 0 ==> Plain(Go, v) == Plain(Python, v)
    decreases v, 1
  {
    match v
    case Str(s) => EscapeLengths(s);
    case Arr(items) => ItemsLengths(items);
    case Obj(ms) => MembersLengths(ms);
    case _ =>
  }

  lemma {:induction false} ItemsLengths(items: seq<Json>)
    requires forall x | x in items :: Exact(Go, x)
    ensures |JoinItems(Go, items)| == |JoinItems(Python, items)| + 5 * HtmlInItems(items)
    ensures HtmlInItems(items) == 0 ==> JoinItems(Go, items) == JoinItems(Python, items)
    decreases items, 0
  {
    if items != [] {
      PlainLengths(items[0]);
      ItemsLengths(items[1..]);
    }
  }

  lemma {:induction false} MembersLengths(ms: seq<Member>)
    requires forall m | m in ms :: Exact(Go, m.value)
    ensures |JoinMembers(Go, ms)| == |JoinMembers(Python, ms)| + 5 * HtmlInMembers(ms)
    ensures HtmlInMembers(ms) == 0 ==> JoinMembers(Go, ms) == JoinMembers(Python, ms)
    decreases ms, 0
  {
    if ms != [] {
      MemberLengths(ms[0]);
      MembersLengths(ms[1..]);
    }
  }

  lemma {:induction false} MemberLengths(m: Member)
    requires Exact(Go, m.value)
    ensures |PlainMember(Go, m)| == |PlainMember(Python, m)| + 5 * HtmlInMember(m)
    ensures HtmlInMember(m) == 0 ==> PlainMember(Go, m) == PlainMember(Python, m)
    decreases m, 0
  {
    EscapeLengths(m.key);
    PlainLengths(m.value);
  }

  lemma {:induction false} HtmlInInsert(o: KeyOrder, m: Member, ms: seq<Member>)
    ensures HtmlInMembers(Insert(o, m, ms)) == HtmlInMember(m) + HtmlInMembers(ms)
  {
    if ms != [] && !Less(o, m.key, ms[0].key) {
      HtmlInInsert(o, m, ms[1..]);
    }
  }

  lemma {:induction false} HtmlInSort(o: KeyOrder, ms: seq<Member>)
    ensures HtmlInMembers(Sort(o, ms)) == HtmlInMembers(ms)
  {
    if ms != [] {
      HtmlInSort(o, ms[1..]);
      HtmlInInsert(o, ms[0], Sort(o, ms[1..]));
    }
  }

  lemma {:induction false} HtmlInNormal(o: KeyOrder, v: Json)
    ensures HtmlCount(Normal(o, v)) == HtmlCount(v)
    decreases v, 1
  {
    match v
    case Arr(items) => HtmlInNormalItems(o, items);
    case Obj(ms) =>
      HtmlInNormalMembers(o, ms);
      HtmlInSort(o, NormalMembers(o, ms));
    case _ =>
  }

  lemma {:induction false} HtmlInNormalItems(o: KeyOrder, items: seq<Json>)
    ensures HtmlInItems(NormalItems(o, items)) == HtmlInItems(items)
    decreases items, 0
  {
    if items != [] {
      HtmlInNormal(o, items[0]);
      HtmlInNormalItems(o, items[1..]);
      assert NormalItems(o, items)[1..] == NormalItems(o, items[1..]);
    }
  }

  lemma {:induction false} HtmlInNormalMembers(o: KeyOrder, ms: seq<Member>)
    ensures HtmlInMembers(NormalMembers(o, ms)) == HtmlInMembers(ms)
    decreases ms, 0
  {
    if ms != [] {
      HtmlInNormal(o, ms[0].value);
      HtmlInNormalMembers(o, ms[1..]);
      assert NormalMembers(o, ms)[1..] == NormalMembers(o, ms[1..]);
    }
  }

  /**
   For values whose integers Go prints digit for digit, as it does all below 2^53: Go's
   canonical text is Python's if and only if no string or key holds an HTML-sensitive
   character.
   */
  lemma GoTextIsPythonText(v: Json)
    requires Exact(Go, v)
    ensures Canonical(Go, v) == Canonical(Python, v) <==> HtmlCount(v) == 0
    ensures |Canonical(Go, v)| == |Canonical(Python, v)| + 5 * HtmlCount(v)
  {
    NormalAgrees(v);
    NormalIsExact(Go, CodePoint, v);
    HtmlInNormal(CodePoint, v);
    PlainLengths(Normal(CodePoint, v));
  }

  /** The shortest input that shows it: one such character. */
  lemma GoSplitsOn(c: char)
    requires HtmlSensitive(c)
    ensures Canonical(Go, Str([c])) != Canonical(Python, Str([c]))
  {
    assert HtmlIn([c]) == 1 + HtmlIn([]);
    GoTextIsPythonText(Str([c]));
  }

  // ----- TypeScript against Python -----

  lemma {:induction false} EscapeSame(s: string)
    ensures Escape(JavaScript, s) == Escape(Python, s)
  {
    if s != [] {
      EscapeSame(s[1..]);
    }
  }

  lemma {:induction false} PlainSame(v: Json)
    requires Exact(JavaScript, v)
    ensures Plain(JavaScript, v) == Plain(Python, v)
    decreases v, 1
  {
    match v
    case Str(s) => EscapeSame(s);
    case Arr(items) => ItemsSame(items);
    case Obj(ms) => MembersSame(ms);
    case _ =>
  }

  lemma {:induction false} ItemsSame(items: seq<Json>)
    requires forall x | x in items :: Exact(JavaScript, x)
    ensures JoinItems(JavaScript, items) == JoinItems(Python, items)
    decreases items, 0
  {
    if items != [] {
      PlainSame(items[0]);
      ItemsSame(items[1..]);
    }
  }

  lemma {:induction false} MembersSame(ms: seq<Member>)
    requires forall m | m in ms :: Exact(JavaScript, m.value)
    ensures JoinMembers(JavaScript, ms) == JoinMembers(Python, ms)
    decreases ms, 0
  {
    if ms != [] {
      EscapeSame(ms[0].key);
      PlainSame(ms[0].value);
      MembersSame(ms[1..]);
    }
  }

  /** No object, at any depth, has two keys that UTF-16 order and code-point order place differently. */
  predicate NoClash(v: Json) {
    match v
    case Arr(items) => forall x | x in items :: NoClash(x)
    case Obj(ms) => KeysNeverClash(ms) && forall m | m in ms :: NoClash(m.value)
    case _ => true
  }

  predicate KeysNeverClash(ms: seq<Member>) {
    forall m, n | m in ms && n in ms :: !Clash(m.key, n.key)
  }

  lemma SortedAt(o: KeyOrder, ms: seq<Member>, i: nat, j: nat)
    requires Sorted(o, ms) && i < |ms| && j < |ms|
    ensures Less(o, ms[i].key, ms[j].key) <==> i < j
  {
    if i == j {
      Trichotomy(o, ms[i].key, ms[j].key);
    } else {
      SortedBelow(o, ms, if i < j then i else j, if i < j then j else i);
      Trichotomy(o, ms[i].key, ms[j].key);
    }
  }

  lemma {:induction false} SortedBelow(o: KeyOrder, ms: seq<Member>, i: nat, j: nat)
    requires Sorted(o, ms) && i < j < |ms|
    ensures Less(o, ms[i].key, ms[j].key)
  {
    if i > 0 {
      SortedBelow(o, ms[1..], i - 1, j - 1);
    }
  }

  /** A list sorted both ways has no clashing keys. */
  lemma SortedBothWays(ms: seq<Member>)
    requires Sorted(Utf16Units, ms) && Sorted(CodePoint, ms)
    ensures KeysNeverClash(ms)
  {
    forall m, n | m in ms && n in ms ensures !Clash(m.key, n.key) {
      var i :| 0 <= i < |ms| && ms[i] == m;
      var j :| 0 <= j < |ms| && ms[j] == n;
      SortedAt(Utf16Units, ms, i, j);
      SortedAt(CodePoint, ms, i, j);
      Utf16OrderAgreesExactly(m.key, n.key);
    }
  }

  lemma {:induction false} SortedOtherWay(ms: seq<Member>)
    requires Sorted(Utf16Units, ms) && KeysNeverClash(ms)
    ensures Sorted(CodePoint, ms)
  {
    if ms != [] {
      forall i | 1 <= i < |ms| ensures Less(CodePoint, ms[0].key, ms[i].key) {
        Utf16OrderAgreesExactly(ms[0].key, ms[i].key);
      }
      SortedOtherWay(ms[1..]);
    }
  }

  /** Sorting distinct keys by UTF-16 units and by code points gives one list exactly when no two keys clash. */
  lemma SortsAgreeExactly(ms: seq<Member>)
    requires DistinctKeys(ms)
    ensures Sort(Utf16Units, ms) == Sort(CodePoint, ms) <==> KeysNeverClash(ms)
  {
    var a, b := Sort(Utf16Units, ms), Sort(CodePoint, ms);
    SortMembers(Utf16Units, ms);
    SortMembers(CodePoint, ms);
    SortSorted(Utf16Units, ms);
    SortSorted(CodePoint, ms);
    if a == b {
      SortedBothWays(a);
    }
    if KeysNeverClash(ms) {
      SortedOtherWay(a);
      SortedUnique(CodePoint, a, b);
    }
  }

  /** Equal sorted lists have the same members. */
  lemma SameMembersOfSorts(ms: seq<Member>, ns: seq<Member>)
    requires |ms| == |ns| && DistinctKeys(ns)
    requires forall i | 0 <= i < |ms| :: ms[i].key == ns[i].key
    requires Sort(Utf16Units, ms) == Sort(CodePoint, ns)
    ensures ms == ns
  {
    SortMembers(Utf16Units, ms);
    SortMembers(CodePoint, ns);
    forall i | 0 <= i < |ms| ensures ms[i] == ns[i] {
      assert ms[i] in ns;
      var j :| 0 <= j < |ns| && ns[j] == ms[i];
      assert i == j;
    }
  }

  lemma NormalObjectsAgree(ms: seq<Member>, a: seq<Member>, b: seq<Member>)
    requires DistinctKeys(ms) && |a| == |b| == |ms|
    requires forall i | 0 <= i < |ms| :: a[i].key == b[i].key == ms[i].key
    requires forall i | 0 <= i < |ms| :: a[i] == b[i] <==> NoClash(ms[i].value)
    ensures Sort(Utf16Units, a) == Sort(CodePoint, b) <==> NoClash(Obj(ms))
  {
    SortsAgreeExactly(a);
    KeysClashAlike(ms, a);
    if Sort(Utf16Units, a) == Sort(CodePoint, b) {
      SameMembersOfSorts(a, b);
      assert forall m | m in ms :: exists i | 0 <= i < |ms| :: ms[i] == m;
    }
    if NoClash(Obj(ms)) {
      assert forall i | 0 <= i < |ms| :: ms[i] in ms;
      assert a == b;
    }
  }

  /** Clashes are a matter of keys, not of values. */
  lemma KeysClashAlike(ms: seq<Member>, ns: seq<Member>)
    requires |ms| == |ns| && forall i | 0 <= i < |ms| :: ms[i].key == ns[i].key
    ensures KeysNeverClash(ms) <==> KeysNeverClash(ns)
  {
  }

  lemma {:induction false} NormalsAgreeExactly(v: Json)
    requires IsDict(v)
    ensures Normal(Utf16Units, v) == Normal(CodePoint, v) <==> NoClash(v)
  {
    match v
    case Arr(items) =>
      var a, b := NormalItems(Utf16Units, items), NormalItems(CodePoint, items);
      forall i | 0 <= i < |items| ensures a[i] == b[i] <==> NoClash(items[i]) {
        NormalsAgreeExactly(items[i]);
      }
      assert a == b <==> forall i | 0 <= i < |items| :: a[i] == b[i];
      assert forall x | x in items :: exists i | 0 <= i < |items| :: items[i] == x;
    case Obj(ms) =>
      forall i | 0 <= i < |ms|
        ensures NormalMembers(Utf16Units, ms)[i] == NormalMembers(CodePoint, ms)[i] <==> NoClash(ms[i].value)
      {
        NormalsAgreeExactly(ms[i].value);
      }
      NormalObjectsAgree(ms, NormalMembers(Utf16Units, ms), NormalMembers(CodePoint, ms));
    case _ =>
  }

  /**
   For values whose integers JavaScript prints digit for digit, as it does all below 2^53:
   TypeScript's canonical text is Python's if and only if no object has two clashing keys.
   */
  lemma TsTextIsPythonText(v: Json)
    requires IsDict(v) && Exact(JavaScript, v)
    ensures Canonical(JavaScript, v) == Canonical(Python, v) <==> NoClash(v)
  {
    var a, b := Normal(Utf16Units, v), Normal(CodePoint, v);
    NormalIsExact(JavaScript, Utf16Units, v);
    PlainSame(a);
    PythonIsExact(Python, a);
    PythonIsExact(Python, b);
    if Canonical(JavaScript, v) == Canonical(Python, v) {
      ReadDocumentOfPlain(Python, a);
      ReadDocumentOfPlain(Python, b);
    }
    NormalsAgreeExactly(v);
  }

  /** An input that shows it: the first private-use character and the first supplementary one, as keys. */
  lemma TsSplits()
    ensures var v := Obj([Member("\U{E000}", Null), Member("\U{10000}", Null)]);
      IsDict(v) && Canonical(JavaScript, v) != Canonical(Python, v)
  {
    var m, n := Member("\U{E000}", Null), Member("\U{10000}", Null);
    assert m.key[0] == '\U{E000}' && n.key[0] == '\U{10000}';
    assert Clash(m.key, n.key);
    assert m in [m, n] && n in [m, n];
    TsTextIsPythonText(Obj([m, n]));
  }
}
