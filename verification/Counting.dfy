/**
 Counting over a list of row checks, whatever produced them: which organs count,
 which rows are duplicates, and how the two counts of the package relate.
 */
module Counting {
  import opened Wrappers
  import opened Verdict

  /** Checks of single rows: a counting one names its organ, and none is marked as a duplicate yet. */
  predicate OwnChecks(own: seq<OrganCheck>) {
    forall i | 0 <= i < |own| :: OwnCheck(own[i])
  }

  predicate OwnCheck(c: OrganCheck) {
    (c.counts ==> c.organ.Some?) && c.reason != DuplicateWitness
  }

  /** The organs with at least one counting row. */
  function Organs(own: seq<OrganCheck>): set<string> {
    set c | c in own && c.counts && c.organ.Some? :: c.organ.value
  }

  /** Row `i` counts on its own, but an earlier row of the same organ already did. */
  predicate IsDuplicate(own: seq<OrganCheck>, i: nat)
    requires i < |own|
  {
    own[i].counts && exists j :: 0 <= j < i && own[j].counts && own[j].organ == own[i].organ
  }

  function MarkDuplicate(c: OrganCheck): OrganCheck {
    c.(counts := false, reason := DuplicateWitness)
  }

  /** What is recorded: later counting rows of an organ are kept, but marked and not counted. */
  function Recorded(own: seq<OrganCheck>): (r: seq<OrganCheck>)
    ensures |r| == |own|
  {
    seq(|own|, i requires 0 <= i < |own| => if IsDuplicate(own, i) then MarkDuplicate(own[i]) else own[i])
  }

  lemma OrgansStep(init: seq<OrganCheck>, c: OrganCheck)
    requires c.counts ==> c.organ.Some?
    ensures Organs(init + [c]) == if c.counts then Organs(init) + {c.organ.value} else Organs(init)
  {
  }

  lemma RecordedStep(init: seq<OrganCheck>, c: OrganCheck)
    requires OwnChecks(init) && OwnCheck(c)
    ensures Recorded(init + [c])
         == Recorded(init) + [if c.counts && c.organ.value in Organs(init) then MarkDuplicate(c) else c]
  {
    var own := init + [c];
    assert own[|init|] == c;
    assert forall j | 0 <= j < |init| :: own[j] == init[j];
    if c.counts && c.organ.value in Organs(init) {
      var d :| d in init && d.counts && d.organ.Some? && d.organ.value == c.organ.value;
      var j :| 0 <= j < |init| && init[j] == d;
      assert own[j].counts && own[j].organ == own[|init|].organ;
    }
    forall i | 0 <= i < |init| ensures Recorded(own)[i] == Recorded(init)[i] {
      assert IsDuplicate(own, i) == IsDuplicate(init, i);
    }
  }

  /** One turn of a counting loop. */
  lemma Step(own: seq<OrganCheck>, i: nat)
    requires i < |own| && OwnChecks(own)
    ensures var c, counted := own[i], Organs(own[..i]);
      && Organs(own[..i + 1]) == (if c.counts then counted + {c.organ.value} else counted)
      && |Organs(own[..i + 1])| == |counted| + (if c.counts && c.organ.value !in counted then 1 else 0)
      && Recorded(own[..i + 1])
           == Recorded(own[..i]) + [if c.counts && c.organ.value in counted then MarkDuplicate(c) else c]
  {
    assert own[..i + 1] == own[..i] + [own[i]];
    OrgansStep(own[..i], own[i]);
    RecordedStep(own[..i], own[i]);
    if own[i].counts && own[i].organ.value in Organs(own[..i]) {
      assert Organs(own[..i]) + {own[i].organ.value} == Organs(own[..i]);
    }
  }

  // ----- the loop that the tallies share -----

  /** The checks of the entries of a list, each on its own. */
  function Checked<T>(check: T -> OrganCheck, items: seq<T>): (own: seq<OrganCheck>)
    ensures |own| == |items|
    ensures forall i | 0 <= i < |items| :: own[i] == check(items[i])
  {
    seq(|items|, i requires 0 <= i < |items| => check(items[i]))
  }

  /**
   The loop of every tally that counts distinct witnesses; they differ in how they check
   one entry. A second counting row of an organ is recorded, marked, and not counted.
   */
  method CountDistinct<T>(check: T -> OrganCheck, items: seq<T>) returns (count: nat, checks: seq<OrganCheck>)
    requires OwnChecks(Checked(check, items))
    ensures count == |Organs(Checked(check, items))|
    ensures checks == Recorded(Checked(check, items))
  {
    ghost var own := Checked(check, items);
    var counted: set<string> := {};
    count := 0;
    checks := [];
    for i := 0 to |items|
      invariant counted == Organs(own[..i]) && count == |Organs(own[..i])| && checks == Recorded(own[..i])
    {
      Step(own, i);
      var chk := check(items[i]);
      if chk.counts && chk.organ.value in counted {
        checks := checks + [MarkDuplicate(chk)];
        continue;
      }
      if chk.counts {
        counted := counted + {chk.organ.value};
        count := count + 1;
      }
      checks := checks + [chk];
    }
    assert own[..|items|] == own;
  }

  /** The loop of the oracle: the distinct organs that count, and nothing else. */
  method CountOrgans<T>(check: T -> OrganCheck, items: seq<T>) returns (count: nat)
    requires OwnChecks(Checked(check, items))
    ensures count == |Organs(Checked(check, items))|
  {
    ghost var own := Checked(check, items);
    var counted: set<string> := {};
    for i := 0 to |items|
      invariant counted == Organs(own[..i])
    {
      Step(own, i);
      var chk := check(items[i]);
      if chk.counts {
        counted := counted + {chk.organ.value};
      }
    }
    assert own[..|items|] == own;
    count := |counted|;
  }

  // ----- the naive count -----

  /** How many rows count when every row is taken on its own. */
  function CountingRows(own: seq<OrganCheck>): nat {
    if own == [] then 0
    else CountingRows(own[..|own| - 1]) + if own[|own| - 1].counts then 1 else 0
  }

  /** How many recorded checks carry the duplicate mark. */
  function DuplicateMarks(checks: seq<OrganCheck>): nat {
    if checks == [] then 0
    else DuplicateMarks(checks[..|checks| - 1]) + if checks[|checks| - 1].reason == DuplicateWitness then 1 else 0
  }

  lemma MarksStep(checks: seq<OrganCheck>, c: OrganCheck)
    ensures DuplicateMarks(checks + [c]) == DuplicateMarks(checks) + if c.reason == DuplicateWitness then 1 else 0
  {
  }

  lemma RowsStep(init: seq<OrganCheck>, c: OrganCheck)
    ensures CountingRows(init + [c]) == CountingRows(init) + if c.counts then 1 else 0
  {
  }

  /** The loop of the naive tally: every counting row counts. */
  method CountRows<T>(check: T -> OrganCheck, items: seq<T>) returns (count: nat, checks: seq<OrganCheck>)
    ensures count == CountingRows(Checked(check, items)) && checks == Checked(check, items)
  {
    ghost var own := Checked(check, items);
    count := 0;
    checks := [];
    for i := 0 to |items|
      invariant count == CountingRows(own[..i]) && checks == own[..i]
    {
      assert own[..i + 1] == own[..i] + [own[i]];
      RowsStep(own[..i], own[i]);
      var chk := check(items[i]);
      checks := checks + [chk];
      if chk.counts {
        count := count + 1;
      }
    }
    assert own[..|items|] == own;
  }

  lemma RecordedMarksStep(init: seq<OrganCheck>, c: OrganCheck)
    requires OwnChecks(init) && OwnCheck(c)
    ensures DuplicateMarks(Recorded(init + [c]))
         == DuplicateMarks(Recorded(init)) + if c.counts && c.organ.value in Organs(init) then 1 else 0
  {
    RecordedStep(init, c);
    MarksStep(Recorded(init), if c.counts && c.organ.value in Organs(init) then MarkDuplicate(c) else c);
  }

  lemma GapStep(init: seq<OrganCheck>, c: OrganCheck)
    requires OwnChecks(init) && OwnCheck(c)
    requires CountingRows(init) == |Organs(init)| + DuplicateMarks(Recorded(init))
    ensures CountingRows(init + [c]) == |Organs(init + [c])| + DuplicateMarks(Recorded(init + [c]))
  {
    RowsStep(init, c);
    OrgansStep(init, c);
    RecordedMarksStep(init, c);
    if c.counts && c.organ.value in Organs(init) {
      assert Organs(init) + {c.organ.value} == Organs(init);
    }
  }

  /** Rows counted one by one exceed distinct organs by exactly the rows marked as duplicates. */
  lemma {:induction false} Gap(own: seq<OrganCheck>)
    requires OwnChecks(own)
    ensures CountingRows(own) == |Organs(own)| + DuplicateMarks(Recorded(own))
  {
    if own == [] {
      assert Organs(own) == {};
    } else {
      var init, c := own[..|own| - 1], own[|own| - 1];
      assert own == init + [c];
      Gap(init);
      GapStep(init, c);
    }
  }

  /** When every row counts for one organ, every row is counted and one organ is. */
  lemma {:induction false} OneOrganOnly(own: seq<OrganCheck>, organ: string)
    requires forall i | 0 <= i < |own| :: own[i].counts && own[i].organ == Some(organ)
    ensures CountingRows(own) == |own|
    ensures own != [] ==> Organs(own) == {organ}
  {
    if own != [] {
      OneOrganOnly(own[..|own| - 1], organ);
      assert own[0] in own;
      assert forall c | c in own :: c.counts && c.organ == Some(organ);
    }
  }

  /** A duplicate mark means that one organ has two counting rows. */
  lemma {:induction false} MarkNeedsTwoRows(own: seq<OrganCheck>) returns (i: nat, j: nat)
    requires OwnChecks(own) && DuplicateMarks(Recorded(own)) > 0
    ensures j < i < |own| && own[i].counts && own[j].counts && own[i].organ == own[j].organ
  {
    var init, c := own[..|own| - 1], own[|own| - 1];
    assert own == init + [c];
    RecordedMarksStep(init, c);
    if c.counts && c.organ.value in Organs(init) {
      var d :| d in init && d.counts && d.organ.Some? && d.organ.value == c.organ.value;
      i := |init|;
      j :| 0 <= j < |init| && init[j] == d;
    } else {
      i, j := MarkNeedsTwoRows(init);
    }
  }

  /** No organ has two counting rows. */
  predicate NoRepeats(own: seq<OrganCheck>) {
    forall i, j | 0 <= j < i < |own| && own[i].counts && own[j].counts :: own[i].organ != own[j].organ
  }

  /** Without repeats nothing is marked, and counting rows is counting organs. */
  lemma NoRepeatsNoGap(own: seq<OrganCheck>)
    requires OwnChecks(own) && NoRepeats(own)
    ensures Recorded(own) == own && DuplicateMarks(Recorded(own)) == 0 && CountingRows(own) == |Organs(own)|
  {
    Gap(own);
    assert forall i | 0 <= i < |own| :: !IsDuplicate(own, i);
    if DuplicateMarks(Recorded(own)) > 0 {
      var i, j := MarkNeedsTwoRows(own);
      assert false;
    }
  }

  // ----- finite sets -----

  lemma SubsetSize<T>(a: set<T>, b: set<T>)
    requires a <= b
    ensures |a| <= |b|
  {
    assert b == a + (b - a);
  }

  /** Two subsets of a universe overlap in at least what their sizes exceed it by. */
  lemma Intersection<T>(a: set<T>, b: set<T>, universe: set<T>)
    requires a <= universe && b <= universe
    ensures |a * b| >= |a| + |b| - |universe|
  {
    SubsetSize(a + b, universe);
    assert |a + b| == |a| + |b| - |a * b|;
  }

  /** Of a set covered by the good and the bad, all but `|bad|` are good. */
  lemma CoveredBy<T>(a: set<T>, good: set<T>, bad: set<T>)
    requires a <= good + bad
    ensures |good * a| >= |a| - |bad|
  {
    var both := good * a;
    SubsetSize(a, both + bad);
    assert |both + bad| == |both| + |bad| - |both * bad|;
  }
}
