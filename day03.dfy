/** Rucksack reorganisation: the items of a rucksack are letters; each group
    of item lists contributes the priorities of the items all its lists
    share. */
module Day03 {
  import opened Common

  const FirstLowercasePriority := 1
  const FirstUppercasePriority := 27

  /** `isUpperCase`, for the ASCII letters the input is made of. */
  predicate IsUpperCase(c: char) {
    'A' <= c <= 'Z'
  }

  /** `Char.priority`: upper-case letters from 27, everything else counted
      from 'a' = 1. */
  function Priority(c: char): (r: int)
    ensures 'a' <= c <= 'z' ==> 1 <= r <= 26
    ensures 'A' <= c <= 'Z' ==> 27 <= r <= 52
  {
    if IsUpperCase(c) then c as int - 'A' as int + FirstUppercasePriority
    else c as int - 'a' as int + FirstLowercasePriority
  }

  predicate IsLetter(c: char) {
    'a' <= c <= 'z' || 'A' <= c <= 'Z'
  }

  /** Different letters have different priorities. */
  lemma PriorityInjective(a: char, b: char)
    requires IsLetter(a) && IsLetter(b) && a != b
    ensures Priority(a) != Priority(b)
  {
  }

  predicate NoDuplicates(s: seq<char>) {
    forall i, j :: 0 <= i < j < |s| ==> s[i] != s[j]
  }

  /** `toSet()`: the distinct items, in order of first occurrence. */
  function Distinct(s: seq<char>): (r: seq<char>)
    ensures forall x :: x in r <==> x in s
    ensures NoDuplicates(r)
  {
    if s == [] then []
    else
      var d := Distinct(s[..|s| - 1]);
      if s[|s| - 1] in d then d else d + [s[|s| - 1]]
  }

  /** `acc intersect next`: the items of `acc` also in `next`, in the order
      of `acc`. */
  function Retain(acc: seq<char>, next: seq<char>): (r: seq<char>)
    ensures forall x :: x in r <==> x in acc && x in next
    ensures NoDuplicates(acc) ==> NoDuplicates(r)
  {
    if acc == [] then []
    else
      var init := Retain(acc[..|acc| - 1], next);
      var last := acc[|acc| - 1];
      assert forall x :: x in acc <==> x in acc[..|acc| - 1] || x == last;
      if last in next then init + [last] else init
  }

  /** `intersect()`: folds the intersection over the sets, starting from
      the first one. */
  function Intersect(sets: seq<seq<char>>): (r: seq<char>)
    requires sets != []
    requires NoDuplicates(sets[0])
    ensures forall x :: x in r <==> forall k :: 0 <= k < |sets| ==> x in sets[k]
    ensures NoDuplicates(r)
  {
    if |sets| == 1 then sets[0]
    else Retain(Intersect(sets[..|sets| - 1]), sets[|sets| - 1])
  }

  function ToSets(group: seq<string>): (sets: seq<seq<char>>)
    ensures |sets| == |group|
    ensures forall k :: 0 <= k < |group| ==> sets[k] == Distinct(group[k])
  {
    seq(|group|, k requires 0 <= k < |group| => Distinct(group[k]))
  }

  /** `calculateCommonItemsPriorities`: the priority of each item every list
      of the group holds. */
  function CommonItemsPriorities(group: seq<string>): seq<int>
    requires group != []
  {
    var common := Intersect(ToSets(group));
    seq(|common|, k requires 0 <= k < |common| => Priority(common[k]))
  }

  /** The items whose priorities a group contributes are exactly those in
      all its lists, each once. */
  lemma CommonItemsMeaning(group: seq<string>)
    requires group != []
    ensures var common := Intersect(ToSets(group));
      && NoDuplicates(common)
      && (forall x :: x in common <==> forall k :: 0 <= k < |group| ==> x in group[k])
      && CommonItemsPriorities(group) == seq(|common|, k requires 0 <= k < |common| => Priority(common[k]))
  {
    var sets := ToSets(group);
    assert forall x, k :: 0 <= k < |group| ==> (x in sets[k] <==> x in group[k]);
  }

  /** Priorities each between 1 and 52 sum to between 1 and 52 per item. */
  lemma {:induction false} PrioritiesBounded(ps: seq<int>)
    requires forall k :: 0 <= k < |ps| ==> 1 <= ps[k] <= 52
    ensures |ps| <= Sum(ps) <= 52 * |ps|
  {
    if ps != [] {
      PrioritiesBounded(ps[..|ps| - 1]);
    }
  }

  /** `play`: the sum of every group's priorities. */
  function Play(groups: seq<seq<string>>): int
    requires forall k :: 0 <= k < |groups| ==> groups[k] != []
  {
    if groups == [] then 0
    else Play(groups[..|groups| - 1]) + Sum(CommonItemsPriorities(groups[|groups| - 1]))
  }

  /** Every item of every list of the group is a letter. */
  predicate Letters(group: seq<string>) {
    forall k, i :: 0 <= k < |group| && 0 <= i < |group[k]| ==> IsLetter(group[k][i])
  }

  /** The number of items shared by all lists of a group, over all groups. */
  function CommonCount(groups: seq<seq<string>>): nat
    requires forall k :: 0 <= k < |groups| ==> groups[k] != []
  {
    if groups == [] then 0
    else CommonCount(groups[..|groups| - 1]) + |Intersect(ToSets(groups[|groups| - 1]))|
  }

  /** A group of letters contributes between 1 and 52 per shared item. */
  lemma GroupBounded(group: seq<string>)
    requires group != [] && Letters(group)
    ensures var n := |Intersect(ToSets(group))|;
      n <= Sum(CommonItemsPriorities(group)) <= 52 * n
  {
    CommonItemsMeaning(group);
    var common := Intersect(ToSets(group));
    var ps := CommonItemsPriorities(group);
    forall k | 0 <= k < |ps|
      ensures 1 <= ps[k] <= 52
    {
      assert common[k] in common;
      var i :| 0 <= i < |group[0]| && group[0][i] == common[k];
      assert IsLetter(group[0][i]);
    }
    PrioritiesBounded(ps);
  }

  /** `play` over groups of letters adds between 1 and 52 for every item a
      group's lists share. */
  lemma {:induction false} PlayBounded(groups: seq<seq<string>>)
    requires forall k :: 0 <= k < |groups| ==> groups[k] != [] && Letters(groups[k])
    ensures CommonCount(groups) <= Play(groups) <= 52 * CommonCount(groups)
  {
    if groups != [] {
      PlayBounded(groups[..|groups| - 1]);
      GroupBounded(groups[|groups| - 1]);
    }
  }

  function Concat<T>(ss: seq<seq<T>>): seq<T> {
    if ss == [] then [] else Concat(ss[..|ss| - 1]) + ss[|ss| - 1]
  }

  /** `chunked(size)`: consecutive pieces of `size` elements, the last one
      possibly shorter. */
  function Chunked<T>(s: seq<T>, size: nat): (r: seq<seq<T>>)
    requires size > 0
    ensures Concat(r) == s
    ensures forall k :: 0 <= k < |r| ==> 0 < |r[k]| <= size
    ensures forall k :: 0 <= k < |r| - 1 ==> |r[k]| == size
    decreases |s|
  {
    if |s| <= size then (if s == [] then [] else [s])
    else
      var rest := Chunked(s[size..], size);
      ConcatFront(s[..size], rest);
      assert s == s[..size] + s[size..];
      [s[..size]] + rest
  }

  lemma {:induction false} ConcatFront<T>(first: seq<T>, rest: seq<seq<T>>)
    ensures Concat([first] + rest) == first + Concat(rest)
  {
    if rest == [] {
      assert [first] + rest == [first];
      assert [first][..0] == [];
    } else {
      var init := rest[..|rest| - 1];
      ConcatFront(first, init);
      assert ([first] + rest)[..|rest|] == [first] + init;
    }
  }

  /** Part one splits every rucksack into `length / 2`-sized compartments;
      `chunked(0)` throws on a line of fewer than two items, which is `None`
      here. */
  function Part1(lines: seq<string>): (r: Option<int>)
    ensures r.None? <==> exists k :: 0 <= k < |lines| && |lines[k]| < 2
    ensures r.Some? ==> r.value == Play(Compartments(lines))
  {
    if exists k :: 0 <= k < |lines| && |lines[k]| < 2 then None
    else Some(Play(Compartments(lines)))
  }

  /** Each line split into `length / 2`-sized compartments. */
  function Compartments(lines: seq<string>): (groups: seq<seq<string>>)
    requires forall k :: 0 <= k < |lines| ==> |lines[k]| >= 2
    ensures |groups| == |lines|
    ensures forall k :: 0 <= k < |lines| ==> groups[k] != [] && Concat(groups[k]) == lines[k]
  {
    seq(|lines|, k requires 0 <= k < |lines| => Chunked(lines[k], |lines[k]| / 2))
  }

  /** A rucksack of even length splits into its two halves. */
  lemma EvenSplitsInHalves(line: string)
    requires |line| >= 2 && |line| % 2 == 0
    ensures Chunked(line, |line| / 2) == [line[..|line| / 2], line[|line| / 2..]]
  {
    var h := |line| / 2;
    assert line[h..][h..] == [];
    assert |line[h..]| == h;
  }

  /** Part two takes the lines three at a time. */
  function Part2(lines: seq<string>): int {
    Play(Chunked(lines, 3))
  }

  /** When the number of lines is a multiple of three, every group has
      exactly three lines. */
  lemma {:induction false} GroupsOfThree(lines: seq<string>)
    requires |lines| % 3 == 0
    ensures var groups := Chunked(lines, 3);
      |groups| == |lines| / 3 && forall k :: 0 <= k < |groups| ==> |groups[k]| == 3
    decreases |lines|
  {
    if |lines| > 3 {
      var rest := Chunked(lines[3..], 3);
      GroupsOfThree(lines[3..]);
      assert Chunked(lines, 3) == [lines[..3]] + rest;
    }
  }
}
