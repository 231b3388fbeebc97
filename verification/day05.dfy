/** Day 5: ranges of fresh ingredient ids.  Part 1 counts the listed ids that
    fall in some range; part 2 sorts and merges the ranges and counts the ids
    they cover. */
module Day05 {
  import opened Sorting

  datatype IdRange = IdRange(start: int, end: int) {
    /** The number of ids from start to end inclusive. */
    function Size(): (n: int)
      ensures start <= end ==> n == |Members()|
    {
      if start <= end then
        MembersSize(this);
        end - start + 1
      else end - start + 1
    }

    predicate Contains(value: int) {
      start <= value && value <= end
    }

    /** True when either range contains an end point of the other. */
    predicate Overlaps(other: IdRange) {
      Contains(other.start) || Contains(other.end) || other.Contains(start) || other.Contains(end)
    }

    predicate WellFormed() {
      start <= end
    }

    /** The ids the range stands for. */
    ghost function Members(): set<int> {
      set x | start <= x <= end && Contains(x)
    }
  }

  /** A well-formed range has end - start + 1 members. */
  lemma {:induction false} MembersSize(r: IdRange)
    requires r.WellFormed()
    ensures |r.Members()| == r.end - r.start + 1
    decreases r.end - r.start
  {
    if r.start < r.end {
      var shorter := IdRange(r.start, r.end - 1);
      MembersSize(shorter);
      forall x ensures x in r.Members() <==> x in shorter.Members() + {r.end} {
        assert r.Contains(x) <==> shorter.Contains(x) || x == r.end;
      }
      assert r.Members() == shorter.Members() + {r.end};
    } else {
      forall x ensures x in r.Members() <==> x == r.start {
        assert r.Contains(x) <==> x == r.start;
      }
      assert r.Members() == {r.start};
    }
  }

  lemma OverlapsSymmetric(a: IdRange, b: IdRange)
    ensures a.Overlaps(b) <==> b.Overlaps(a)
  {
  }

  /** For well-formed ranges, overlapping is sharing an id. */
  lemma OverlapsIffShared(a: IdRange, b: IdRange)
    requires a.WellFormed() && b.WellFormed()
    ensures a.Overlaps(b) <==> exists x :: a.Contains(x) && b.Contains(x)
  {
    if exists x :: a.Contains(x) && b.Contains(x) {
      var x :| a.Contains(x) && b.Contains(x);
      if a.start <= b.start {
        assert a.Contains(b.start);
      } else {
        assert b.Contains(a.start);
      }
    }
  }

  /** merge: the hull of two overlapping ranges and true; otherwise the zero
      range and false. */
  function Merge(a: IdRange, b: IdRange): (result: (IdRange, bool))
    ensures result.1 <==> a.Overlaps(b)
    ensures result.1 ==> result.0.start == if b.start < a.start then b.start else a.start
    ensures result.1 ==> result.0.end == if b.end > a.end then b.end else a.end
    ensures !result.1 ==> result.0 == IdRange(0, 0)
  {
    if a.Overlaps(b) then
      var start := if b.start < a.start then b.start else a.start;
      var end := if b.end > a.end then b.end else a.end;
      (IdRange(start, end), true)
    else (IdRange(0, 0), false)
  }

  /** Two overlapping well-formed ranges cover, together, exactly their hull. */
  lemma MergeIsUnion(a: IdRange, b: IdRange)
    requires a.WellFormed() && b.WellFormed() && a.Overlaps(b)
    ensures Merge(a, b).0.WellFormed()
    ensures Merge(a, b).0.Members() == a.Members() + b.Members()
  {
    var m := Merge(a, b).0;
    OverlapsIffShared(a, b);
    forall x | m.Contains(x) ensures a.Contains(x) || b.Contains(x) {
    }
  }

  predicate InSomeRange(ranges: seq<IdRange>, value: int) {
    exists r :: r in ranges && r.Contains(value)
  }

  /** part1: how many entries of values lie in at least one range. */
  method Part1(ranges: seq<IdRange>, values: seq<int>) returns (freshcount: int)
    ensures freshcount == |set k | 0 <= k < |values| && InSomeRange(ranges, values[k])|
  {
    freshcount := 0;
    for i := 0 to |values|
      invariant freshcount == |set k | 0 <= k < i && InSomeRange(ranges, values[k])|
    {
      var val := values[i];
      ghost var found := false;
      for j := 0 to |ranges|
        invariant forall t :: 0 <= t < j ==> !ranges[t].Contains(val)
      {
        if ranges[j].Contains(val) {
          freshcount := freshcount + 1;
          found := true;
          break;
        }
      }
      assert found <==> InSomeRange(ranges, val);
      assert (set k | 0 <= k < i + 1 && InSomeRange(ranges, values[k]))
        == (set k | 0 <= k < i && InSomeRange(ranges, values[k])) + (if found then {i} else {});
    }
  }

  /** The ids covered by a list of ranges. */
  ghost function Covered(rs: seq<IdRange>): set<int> {
    if rs == [] then {} else Covered(rs[..|rs| - 1]) + rs[|rs| - 1].Members()
  }

  lemma {:induction false} CoveredConcat(a: seq<IdRange>, b: seq<IdRange>)
    ensures Covered(a + b) == Covered(a) + Covered(b)
    decreases |b|
  {
    if b == [] {
      assert a + b == a;
    } else {
      var b' := b[..|b| - 1];
      assert (a + b)[..|a + b| - 1] == a + b';
      CoveredConcat(a, b');
    }
  }

  predicate AllWellFormed(rs: seq<IdRange>) {
    forall j :: 0 <= j < |rs| ==> rs[j].WellFormed()
  }

  /** Each range ends before the next one starts. */
  predicate Chain(rs: seq<IdRange>) {
    forall j :: 0 <= j < |rs| - 1 ==> rs[j].end < rs[j + 1].start
  }

  function StartOf(r: IdRange): int {
    r.start
  }

  function SumOfSizes(rs: seq<IdRange>): int {
    if rs == [] then 0 else SumOfSizes(rs[..|rs| - 1]) + rs[|rs| - 1].Size()
  }

  lemma {:induction false} CoveredBelowLastEnd(rs: seq<IdRange>)
    requires |rs| >= 1 && Chain(rs) && AllWellFormed(rs)
    ensures forall x :: x in Covered(rs) ==> x <= rs[|rs| - 1].end
    decreases |rs|
  {
    if |rs| > 1 {
      CoveredBelowLastEnd(rs[..|rs| - 1]);
    }
  }

  /** Ranges in a chain are disjoint, so their sizes add up to the number of
      ids they cover. */
  lemma {:induction false} ChainSizeIsCovered(rs: seq<IdRange>)
    requires Chain(rs) && AllWellFormed(rs)
    ensures SumOfSizes(rs) == |Covered(rs)|
    decreases |rs|
  {
    if rs != [] {
      var init, r := rs[..|rs| - 1], rs[|rs| - 1];
      ChainSizeIsCovered(init);
      if init != [] {
        CoveredBelowLastEnd(init);
      }
      assert Covered(init) * r.Members() == {};
    }
  }

  /** Merging ranges i and i + 1 of a sorted list keeps it sorted, and keeps
      the ranges before i separated. */
  lemma MergeKeepsOrder(rs: seq<IdRange>, i: nat)
    requires i + 1 < |rs| && SortedBy(rs, StartOf) && rs[i].Overlaps(rs[i + 1])
    ensures var rs' := rs[..i] + [Merge(rs[i], rs[i + 1]).0] + rs[i + 2..];
      SortedBy(rs', StartOf) && (SeparatedUpTo(rs, i) ==> SeparatedUpTo(rs', i))
  {
    var m := Merge(rs[i], rs[i + 1]).0;
    var rs' := rs[..i] + [m] + rs[i + 2..];
    assert StartOf(rs[i]) <= StartOf(rs[i + 1]);
    assert forall j :: 0 <= j < i ==> rs'[j] == rs[j];
    assert rs'[i] == m;
  }

  /** For well-formed ranges the merge step changes no covered id. */
  lemma MergeKeepsCover(rs: seq<IdRange>, i: nat)
    requires i + 1 < |rs| && SortedBy(rs, StartOf) && rs[i].Overlaps(rs[i + 1]) && AllWellFormed(rs)
    ensures var rs' := rs[..i] + [Merge(rs[i], rs[i + 1]).0] + rs[i + 2..];
      AllWellFormed(rs') && Covered(rs') == Covered(rs)
  {
    var m := Merge(rs[i], rs[i + 1]).0;
    MergeIsUnion(rs[i], rs[i + 1]);
    ReplacePairCover(rs, i, m);
  }

  /** Replacing two neighbours by one range with their ids covers the same ids. */
  lemma ReplacePairCover(rs: seq<IdRange>, i: nat, m: IdRange)
    requires i + 1 < |rs| && m.Members() == rs[i].Members() + rs[i + 1].Members()
    ensures Covered(rs[..i] + [m] + rs[i + 2..]) == Covered(rs)
  {
    var pre, post := rs[..i], rs[i + 2..];
    assert rs == pre + [rs[i], rs[i + 1]] + post;
    CoveredConcat(pre + [rs[i], rs[i + 1]], post);
    CoveredConcat(pre, [rs[i], rs[i + 1]]);
    CoveredConcat(pre + [m], post);
    CoveredConcat(pre, [m]);
    CoveredPair(rs[i], rs[i + 1]);
    CoveredSingle(m);
  }

  lemma CoveredPair(a: IdRange, b: IdRange)
    ensures Covered([a, b]) == a.Members() + b.Members()
  {
    assert [a, b][..1] == [a];
    CoveredSingle(a);
  }

  lemma CoveredSingle(m: IdRange)
    ensures Covered([m]) == m.Members()
  {
    assert [m][..0] == [];
  }

  /** The merge loop of part2 on a list sorted by start: a range that
      overlaps its successor absorbs it, otherwise the scan moves on. */
  method MergeSorted(sorted: seq<IdRange>) returns (rs: seq<IdRange>)
    requires SortedBy(sorted, StartOf)
    ensures SortedBy(rs, StartOf)
    ensures AllWellFormed(sorted) ==> AllWellFormed(rs) && Chain(rs) && Covered(rs) == Covered(sorted)
  {
    rs := sorted;
    var last := |rs| - 1;
    var i := 0;
    while i < last
      invariant last == |rs| - 1 && 0 <= i <= |rs|
      invariant SortedBy(rs, StartOf)
      invariant AllWellFormed(sorted) ==> AllWellFormed(rs) && Covered(rs) == Covered(sorted)
      invariant AllWellFormed(sorted) ==> SeparatedUpTo(rs, i)
      decreases |rs| - i
    {
      var mergedOk := Merge(rs[i], rs[i + 1]);
      var merged, ok := mergedOk.0, mergedOk.1;
      if ok {
        MergeKeepsOrder(rs, i);
        if AllWellFormed(sorted) {
          MergeKeepsCover(rs, i);
        }
        rs := rs[..i] + [merged] + rs[i + 2..];
        last := last - 1;
      } else {
        SeparatedStep(rs, i);
        i := i + 1;
      }
    }
  }

  /** part2: sorts the ranges by start, merges overlapping neighbours, and
      sums the sizes of what is left. */
  method Part2(ranges: seq<IdRange>) returns (total: int, ghost consolidated: seq<IdRange>)
    ensures SortedBy(consolidated, StartOf) && total == SumOfSizes(consolidated)
    ensures AllWellFormed(ranges) ==> Chain(consolidated) && Covered(consolidated) == Covered(ranges)
    ensures AllWellFormed(ranges) ==> forall j :: 0 <= j < |consolidated| - 1 ==> !consolidated[j].Overlaps(consolidated[j + 1])
    ensures AllWellFormed(ranges) ==> total == |Covered(ranges)|
  {
    var sorted := SortBy(ranges, StartOf);
    if AllWellFormed(ranges) {
      SameMultisetSameCover(ranges, sorted);
    }
    var rs := MergeSorted(sorted);
    total := 0;
    for k := 0 to |rs|
      invariant total == SumOfSizes(rs[..k])
    {
      total := total + rs[k].Size();
      assert rs[..k + 1][..k] == rs[..k];
    }
    assert rs[..|rs|] == rs;
    if AllWellFormed(ranges) {
      ChainSizeIsCovered(rs);
      ChainHasNoOverlaps(rs);
    }
    consolidated := rs;
  }

  /** The first i neighbour pairs are strictly apart. */
  predicate SeparatedUpTo(rs: seq<IdRange>, i: int) {
    forall j :: 0 <= j < i && j + 1 < |rs| ==> rs[j].end < rs[j + 1].start
  }

  /** Sorted neighbours that do not overlap are strictly apart. */
  lemma SeparatedStep(rs: seq<IdRange>, i: nat)
    requires i + 1 < |rs| && SortedBy(rs, StartOf) && !rs[i].Overlaps(rs[i + 1])
    ensures rs[i].WellFormed() ==> rs[i].end < rs[i + 1].start
  {
    assert StartOf(rs[i]) <= StartOf(rs[i + 1]);
  }

  lemma ChainHasNoOverlaps(rs: seq<IdRange>)
    requires Chain(rs) && AllWellFormed(rs)
    ensures forall j :: 0 <= j < |rs| - 1 ==> !rs[j].Overlaps(rs[j + 1])
  {
  }

  /** Reordering a list of ranges changes neither well-formedness nor cover. */
  lemma {:induction false} SameMultisetSameCover(a: seq<IdRange>, b: seq<IdRange>)
    requires multiset(a) == multiset(b) && AllWellFormed(a)
    ensures AllWellFormed(b) && Covered(a) == Covered(b)
  {
    forall j | 0 <= j < |b| ensures b[j].WellFormed() {
      assert b[j] in multiset(b);
      assert b[j] in multiset(a);
    }
    CoveredByMembers(a);
    CoveredByMembers(b);
    forall x ensures x in Covered(a) <==> x in Covered(b) {
      if x in Covered(a) {
        var r :| r in a && x in r.Members();
        assert r in multiset(a);
      }
      if x in Covered(b) {
        var r :| r in b && x in r.Members();
        assert r in multiset(b);
      }
    }
  }

  lemma {:induction false} CoveredByMembers(rs: seq<IdRange>)
    ensures forall x :: x in Covered(rs) <==> exists r :: r in rs && x in r.Members()
    decreases |rs|
  {
    if rs != [] {
      CoveredByMembers(rs[..|rs| - 1]);
      assert forall r :: r in rs <==> r in rs[..|rs| - 1] || r == rs[|rs| - 1];
    }
  }
}
