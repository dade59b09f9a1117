/** Camp cleanup: each line pairs two section ranges `first..last`; part
    one counts pairs where one range contains the other, part two pairs that
    overlap at all. */
module Day04 {
  import opened Common

  /** A Kotlin `IntRange`, both ends included; empty when `last < first`. */
  datatype Range = Range(first: int, last: int) {
    predicate Contains(x: int) {
      first <= x <= last
    }

    /** The sections, in increasing order. */
    function Members(): (m: seq<int>)
      ensures forall x :: x in m <==> Contains(x)
      ensures forall i :: 0 <= i < |m| ==> m[i] == first + i
    {
      if last < first then []
      else
        var m := seq(last - first + 1, i => first + i);
        assert forall x | Contains(x) :: m[x - first] == x;
        m
    }

    /** `IntRange.size`. */
    function Size(): nat {
      if last < first then 0 else last - first + 1
    }
  }

  /** The size is the number of sections in the range. */
  lemma SizeCountsMembers(r: Range)
    ensures r.Size() == |r.Members()|
  {
  }

  /** One line: the sections of the first and of the second elf. */
  datatype Assignment = Assignment(left: Range, right: Range)

  /** `firstRange intersect secondRange`, which is again an interval. */
  function Intersect(a: Range, b: Range): (r: Range)
    ensures forall x :: r.Contains(x) <==> a.Contains(x) && b.Contains(x)
  {
    Range(Max(a.first, b.first), Min(a.last, b.last))
  }

  /** The part-one test: the intersection is as large as the smaller range. */
  predicate FullyContains(pair: Assignment) {
    Intersect(pair.left, pair.right).Size() == Min(pair.left.Size(), pair.right.Size())
  }

  /** The part-two test: the intersection is not empty. */
  predicate Overlaps(pair: Assignment) {
    Intersect(pair.left, pair.right).Size() != 0
  }

  ghost predicate Within(a: Range, b: Range) {
    forall x :: a.Contains(x) ==> b.Contains(x)
  }

  /** For non-empty ranges, the size test holds exactly when one range lies
      within the other. */
  lemma FullyContainsMeaning(pair: Assignment)
    requires pair.left.first <= pair.left.last && pair.right.first <= pair.right.last
    ensures FullyContains(pair) <==>
      (Within(pair.left, pair.right) || Within(pair.right, pair.left))
  {
    var a, b := pair.left, pair.right;
    if Within(a, b) {
      assert b.Contains(a.first) && b.Contains(a.last);
    } else if Within(b, a) {
      assert a.Contains(b.first) && a.Contains(b.last);
    } else {
      var x :| a.Contains(x) && !b.Contains(x);
      var y :| b.Contains(y) && !a.Contains(y);
      if a.Size() <= b.Size() {
        assert Intersect(a, b).Size() < a.Size();
      } else {
        assert Intersect(a, b).Size() < b.Size();
      }
    }
  }

  /** The overlap test holds exactly when the ranges share a section. */
  lemma OverlapsMeaning(pair: Assignment)
    ensures Overlaps(pair) <==> exists x :: pair.left.Contains(x) && pair.right.Contains(x)
  {
    var r := Intersect(pair.left, pair.right);
    if r.first <= r.last {
      assert r.Contains(r.first);
    }
  }

  /** Containment is a special case of overlap, for non-empty ranges. */
  lemma FullyContainsOverlaps(pair: Assignment)
    requires pair.left.first <= pair.left.last && pair.right.first <= pair.right.last
    ensures FullyContains(pair) ==> Overlaps(pair)
  {
  }

  /** `calculateRangeIntersection`: the lines satisfying the predicate. */
  function CountPairs(pairs: seq<Assignment>, p: Assignment -> bool): (n: nat)
    ensures n <= |pairs|
  {
    CountIf(pairs, p)
  }

  function Part1(pairs: seq<Assignment>): (n: nat)
    ensures n <= |pairs|
  {
    CountPairs(pairs, FullyContains)
  }

  function Part2(pairs: seq<Assignment>): (n: nat)
    ensures n <= |pairs|
  {
    CountPairs(pairs, Overlaps)
  }

  /** With non-empty ranges, every containing pair also overlaps, so part
      one never exceeds part two. */
  lemma {:induction false} Part1AtMostPart2(pairs: seq<Assignment>)
    requires forall k :: 0 <= k < |pairs| ==> pairs[k].left.first <= pairs[k].left.last && pairs[k].right.first <= pairs[k].right.last
    ensures Part1(pairs) <= Part2(pairs)
  {
    if pairs != [] {
      Part1AtMostPart2(pairs[..|pairs| - 1]);
      FullyContainsOverlaps(pairs[|pairs| - 1]);
    }
  }

  const Sample: seq<Assignment> := [
    Assignment(Range(2, 4), Range(6, 8)), Assignment(Range(2, 3), Range(4, 5)), Assignment(Range(5, 7), Range(7, 9)),
    Assignment(Range(2, 8), Range(3, 7)), Assignment(Range(6, 6), Range(4, 6)), Assignment(Range(2, 6), Range(4, 8))]

  /** In the sample, the fourth and fifth pairs have one range inside the
      other: part one is 2. */
  lemma SamplePart1()
    ensures Part1(Sample) == 2
  {
    var s, p := Sample, FullyContains;
    assert !p(s[0]) && !p(s[1]) && !p(s[2]) && p(s[3]) && p(s[4]) && !p(s[5]);
    CountIfRunning(Sample, p, [0, 0, 0, 1, 2, 2]);
  }

  /** In the sample, the last four pairs overlap: part two is 4. */
  lemma SamplePart2()
    ensures Part2(Sample) == 4
  {
    var s, p := Sample, Overlaps;
    assert !p(s[0]) && !p(s[1]) && p(s[2]) && p(s[3]) && p(s[4]) && p(s[5]);
    CountIfRunning(Sample, p, [0, 0, 1, 2, 3, 4]);
  }

}
