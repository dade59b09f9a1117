/** Calorie counting: the input lines are numbers separated by blank lines;
    each blank-separated block is one elf's inventory. */
module Day01 {
  import opened Common

  /** One input line once parsed: a number, or `None` for a blank line. */
  type Line = Option<int>

  /** The blocks of `input`, as the fold over the lines builds them: a blank
      line opens a new (empty) block, a number joins the last block. */
  function Groups(input: seq<Line>): (groups: seq<seq<int>>)
    ensures |groups| >= 1
  {
    if input == [] then [[]]
    else
      var g := Groups(input[..|input| - 1]);
      match input[|input| - 1]
      case None => g + [[]]
      case Some(n) => g[..|g| - 1] + [g[|g| - 1] + [n]]
  }

  /** The numbers of `input`, blank lines dropped, in their order. */
  function Numbers(input: seq<Line>): seq<int> {
    if input == [] then []
    else
      var rest := Numbers(input[..|input| - 1]);
      match input[|input| - 1]
      case None => rest
      case Some(n) => rest + [n]
  }

  function Blanks(input: seq<Line>): nat {
    CountIf(input, (l: Line) => l.None?)
  }

  function Flatten(groups: seq<seq<int>>): seq<int> {
    if groups == [] then [] else Flatten(groups[..|groups| - 1]) + groups[|groups| - 1]
  }

  lemma {:induction false} FlattenAppend(a: seq<seq<int>>, b: seq<seq<int>>)
    ensures Flatten(a + b) == Flatten(a) + Flatten(b)
    decreases |b|
  {
    if b != [] {
      assert (a + b)[..|a + b| - 1] == a + b[..|b| - 1];
      FlattenAppend(a, b[..|b| - 1]);
    } else {
      assert a + b == a;
    }
  }

  /** There is one block more than there are blank lines. */
  lemma {:induction false} GroupsCount(input: seq<Line>)
    ensures |Groups(input)| == 1 + Blanks(input)
  {
    if input != [] {
      GroupsCount(input[..|input| - 1]);
    }
  }

  /** Concatenating the blocks gives back the numbers in their order. */
  lemma {:induction false} GroupsFlatten(input: seq<Line>)
    ensures Flatten(Groups(input)) == Numbers(input)
  {
    if input != [] {
      var init := input[..|input| - 1];
      GroupsFlatten(init);
      var g := Groups(init);
      match input[|input| - 1]
      case None =>
        FlattenAppend(g, [[]]);
        assert Flatten([[]]) == [];
      case Some(n) =>
        var front := g[..|g| - 1];
        assert g == front + [g[|g| - 1]];
        FlattenAppend(front, [g[|g| - 1]]);
        FlattenAppend(front, [g[|g| - 1] + [n]]);
        assert Flatten([g[|g| - 1]]) == g[|g| - 1] by {
          assert [g[|g| - 1]][..0] == [];
        }
        assert Flatten([g[|g| - 1] + [n]]) == g[|g| - 1] + [n] by {
          assert [g[|g| - 1] + [n]][..0] == [];
        }
    }
  }

  /** `splitByBlanksToInts`: folds the lines into a growing list of blocks,
      appending to the last block or opening a new one. */
  method SplitByBlanksToInts(input: seq<Line>) returns (acc: seq<seq<int>>)
    ensures acc == Groups(input)
  {
    acc := [[]];
    for k := 0 to |input|
      invariant acc == Groups(input[..k])
    {
      assert input[..k + 1][..k] == input[..k];
      match input[k]
      case Some(n) =>
        acc := acc[|acc| - 1 := acc[|acc| - 1] + [n]];
      case None =>
        acc := acc + [[]];
    }
    assert input[..|input|] == input;
  }

  function Sums(groups: seq<seq<int>>): (sums: seq<int>)
    ensures |sums| == |groups|
    ensures forall k :: 0 <= k < |groups| ==> sums[k] == Sum(groups[k])
  {
    seq(|groups|, k requires 0 <= k < |groups| => Sum(groups[k]))
  }

  /** `maxOfOrNull { it.sum() }`. */
  function Part1(groups: seq<seq<int>>): (r: Option<int>)
    ensures r.None? <==> groups == []
    ensures r.Some? ==> (exists k :: 0 <= k < |groups| && Sum(groups[k]) == r.value)
    ensures r.Some? ==> forall k :: 0 <= k < |groups| ==> Sum(groups[k]) <= r.value
  {
    if groups == [] then None
    else
      var sums := Sums(groups);
      var k := ArgMaxIndex(sums);
      assert forall j :: 0 <= j < |groups| ==> Sum(groups[j]) == sums[j];
      Some(sums[k])
  }

  // ---------------------------------------------------------------------
  // Part two: the three largest sums
  // ---------------------------------------------------------------------

  predicate Descending(s: seq<int>) {
    forall a, b :: 0 <= a < b < |s| ==> s[a] >= s[b]
  }

  /** Places `x` before the first element it is not below. */
  function Insert(x: int, s: seq<int>): (r: seq<int>)
    ensures |r| == |s| + 1
  {
    if s == [] || x >= s[0] then [x] + s else [s[0]] + Insert(x, s[1..])
  }

  lemma {:induction false} InsertPermutes(x: int, s: seq<int>)
    ensures multiset(Insert(x, s)) == multiset(s) + multiset{x}
  {
    if s != [] && x < s[0] {
      InsertPermutes(x, s[1..]);
      assert s == [s[0]] + s[1..];
    }
  }

  lemma {:induction false} InsertDescending(x: int, s: seq<int>)
    requires Descending(s)
    ensures Descending(Insert(x, s))
  {
    if s != [] && x < s[0] {
      var rest := Insert(x, s[1..]);
      InsertDescending(x, s[1..]);
      InsertPermutes(x, s[1..]);
      forall b | 0 <= b < |rest|
        ensures rest[b] <= s[0]
      {
        assert rest[b] in multiset(rest);
        if rest[b] != x {
          assert rest[b] in multiset(s[1..]);
          var c :| 0 <= c < |s[1..]| && s[1..][c] == rest[b];
          assert s[c + 1] == rest[b];
        }
      }
    }
  }

  /** `sortedDescending()`, as an insertion sort. */
  function SortedDescending(s: seq<int>): (r: seq<int>)
    ensures |r| == |s|
  {
    if s == [] then [] else Insert(s[|s| - 1], SortedDescending(s[..|s| - 1]))
  }

  /** The sort returns the same elements, in descending order. */
  lemma {:induction false} SortedDescendingIsSort(s: seq<int>)
    ensures Descending(SortedDescending(s))
    ensures multiset(SortedDescending(s)) == multiset(s)
  {
    if s != [] {
      var init := s[..|s| - 1];
      SortedDescendingIsSort(init);
      InsertDescending(s[|s| - 1], SortedDescending(init));
      InsertPermutes(s[|s| - 1], SortedDescending(init));
      assert s == init + [s[|s| - 1]];
    }
  }

  /** The first three of a sequence, or all of it when shorter. */
  function Take3(s: seq<int>): (r: seq<int>)
    ensures |r| == if |s| <= 3 then |s| else 3
    ensures forall k :: 0 <= k < |r| ==> r[k] == s[k]
  {
    if |s| <= 3 then s else s[..3]
  }

  /** `sortedDescending().take(3).sum()` over the block sums. */
  function Part2(groups: seq<seq<int>>): int {
    Sum(Take3(SortedDescending(Sums(groups))))
  }

  lemma {:induction false} SumNonNegative(s: seq<int>)
    requires forall k :: 0 <= k < |s| ==> s[k] >= 0
    ensures Sum(s) >= 0
  {
    if s != [] {
      SumNonNegative(s[..|s| - 1]);
    }
  }

  lemma SumFirst(s: seq<int>)
    requires s != []
    ensures Sum(s) == s[0] + Sum(s[1..])
  {
    SumAppend([s[0]], s[1..]);
    assert s == [s[0]] + s[1..];
    assert Sum([s[0]]) == s[0] by {
      assert [s[0]][..0] == [];
    }
  }

  /** The sums taken are the largest ones: every sum left out is at most
      every sum taken, and the sums taken are sums of blocks. */
  lemma TopThreeAreLargest(groups: seq<seq<int>>)
    ensures var sorted := SortedDescending(Sums(groups));
      && multiset(sorted) == multiset(Sums(groups))
      && forall a, b :: 0 <= a < |Take3(sorted)| <= b < |sorted| ==> Take3(sorted)[a] >= sorted[b]
  {
    SortedDescendingIsSort(Sums(groups));
  }

  /** With non-negative calories, three elves carry at least as much as the
      best one. */
  lemma Part2AtLeastPart1(groups: seq<seq<int>>)
    requires groups != []
    requires forall k :: 0 <= k < |groups| ==> forall j :: 0 <= j < |groups[k]| ==> groups[k][j] >= 0
    ensures Part2(groups) >= Part1(groups).value
  {
    var sums := Sums(groups);
    var sorted := SortedDescending(sums);
    SortedDescendingIsSort(sums);
    forall k | 0 <= k < |sums|
      ensures sums[k] >= 0
    {
      SumNonNegative(groups[k]);
    }
    var best := ArgMaxIndex(sums);
    assert sums[best] in multiset(sorted);
    var c :| 0 <= c < |sorted| && sorted[c] == sums[best];
    forall j | 0 <= j < |sorted|
      ensures sorted[j] >= 0
    {
      assert sorted[j] in multiset(sums);
    }
    var top := Take3(sorted);
    SumFirst(top);
    SumNonNegative(top[1..]);
  }

  lemma SortedSnoc(s: seq<int>, x: int, sorted: seq<int>, r: seq<int>)
    requires SortedDescending(s) == sorted && Insert(x, sorted) == r
    ensures SortedDescending(s + [x]) == r
  {
    assert (s + [x])[..|s|] == s;
  }

  lemma SampleSorted()
    ensures SortedDescending([6000, 4000, 11000, 24000, 10000]) == [24000, 11000, 10000, 6000, 4000]
  {
    var t0: seq<int> := [];
    assert Insert(6000, []) == [6000];
    SortedSnoc(t0, 6000, [], [6000]);
    var t1 := t0 + [6000];
    assert Insert(4000, [6000]) == [6000, 4000] by {
      assert Insert(4000, [6000]) == [6000] + Insert(4000, []);
    }
    SortedSnoc(t1, 4000, [6000], [6000, 4000]);
    var t2 := t1 + [4000];
    assert Insert(11000, [6000, 4000]) == [11000, 6000, 4000];
    SortedSnoc(t2, 11000, [6000, 4000], [11000, 6000, 4000]);
    var t3 := t2 + [11000];
    assert Insert(24000, [11000, 6000, 4000]) == [24000, 11000, 6000, 4000];
    SortedSnoc(t3, 24000, [11000, 6000, 4000], [24000, 11000, 6000, 4000]);
    var t4 := t3 + [24000];
    assert Insert(10000, [24000, 11000, 6000, 4000]) == [24000, 11000, 10000, 6000, 4000] by {
      assert Insert(10000, [6000, 4000]) == [10000, 6000, 4000];
      assert [24000, 11000, 6000, 4000][1..] == [11000, 6000, 4000];
      assert [11000, 6000, 4000][1..] == [6000, 4000];
    }
    SortedSnoc(t4, 10000, [24000, 11000, 6000, 4000], [24000, 11000, 10000, 6000, 4000]);
    assert t4 + [10000] == [6000, 4000, 11000, 24000, 10000];
  }

  /** The sample inventory: part one is 24000, part two 45000. */
  lemma Sample()
    ensures var groups := [[1000, 2000, 3000], [4000], [5000, 6000], [7000, 8000, 9000], [10000]];
      Part1(groups) == Some(24000) && Part2(groups) == 45000
  {
    var groups := [[1000, 2000, 3000], [4000], [5000, 6000], [7000, 8000, 9000], [10000]];
    var sums := Sums(groups);
    assert Sum([1000, 2000, 3000]) == 6000;
    assert Sum([5000, 6000]) == 11000;
    assert Sum([7000, 8000, 9000]) == 24000;
    assert sums == [6000, 4000, 11000, 24000, 10000];
    SampleSorted();
    var sorted := [24000, 11000, 10000, 6000, 4000];
    assert Take3(sorted) == [24000, 11000, 10000];
    assert Sum([24000, 11000, 10000]) == 45000;
  }
}
