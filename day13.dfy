/** Distress signal: packets are nested lists of integers. Two packets are
    compared element by element, an integer facing a list being wrapped in
    a one-element list; part one adds up the (1-based) indices of the
    pairs already in the right order, part two bubble-sorts all packets
    together with two divider packets and multiplies the dividers'
    1-based positions. */
module Day13 {
  import opened Common

  /** A packet as parsed from its text: an integer or a list of packets. */
  datatype Packet = Int(value: int) | List(items: seq<Packet>)

  /** The number of constructors in a packet; it bounds every comparison. */
  function Size(p: Packet): nat
    decreases p
  {
    match p
    case Int(_) => 1
    case List(items) => 1 + SizeSeq(items)
  }

  function SizeSeq(s: seq<Packet>): nat
    decreases s
  {
    if s == [] then 0 else Size(s[0]) + SizeSeq(s[1..])
  }

  /** The list a packet stands for once an integer is wrapped. */
  function Items(p: Packet): seq<Packet> {
    match p
    case Int(_) => [p]
    case List(items) => items
  }

  lemma ItemsSize(p: Packet)
    ensures SizeSeq(Items(p)) <= Size(p)
    ensures p.List? ==> SizeSeq(Items(p)) < Size(p)
  {
    if p.Int? {
      assert Items(p)[1..] == [];
    }
  }

  /** The source's `inRightOrder` for one pair: `Some(true)` when the pair
      is in the right order, `Some(false)` when it is not, and `None` when
      no verdict is reached (the source then records nothing). Two
      integers are compared by value; otherwise both sides are read as
      lists. */
  function Compare(left: Packet, right: Packet): Option<bool>
    decreases Size(left) + Size(right), 0
  {
    if left.Int? && right.Int? then
      if left.value < right.value then Some(true)
      else if left.value > right.value then Some(false)
      else None
    else
      ItemsSize(left);
      ItemsSize(right);
      CompareLists(Items(left), Items(right))
  }

  /** The source's loop over list positions: the first position where one
      list has run out or the elements disagree decides. */
  function CompareLists(ls: seq<Packet>, rs: seq<Packet>): Option<bool>
    decreases SizeSeq(ls) + SizeSeq(rs), 1
  {
    if ls == [] && rs == [] then None
    else if ls == [] then Some(true)
    else if rs == [] then Some(false)
    else
      match Compare(ls[0], rs[0])
      case Some(verdict) => Some(verdict)
      case None => CompareLists(ls[1..], rs[1..])
  }

  /** The verdict for the pair read the other way round. */
  function Flip(verdict: Option<bool>): Option<bool> {
    match verdict
    case None => None
    case Some(b) => Some(!b)
  }

  /** An integer compared with a list is first wrapped in a one-element
      list: wrapping an integer never changes a verdict. */
  lemma WrapInt(a: int, right: Packet)
    ensures Compare(Int(a), right) == Compare(List([Int(a)]), right)
  {
    if right.Int? {
      assert CompareLists([Int(a)], [right]) == Compare(Int(a), right) by {
        assert [Int(a)][1..] == [] && [right][1..] == [];
      }
    }
  }

  /** A packet is never in the wrong or right order with itself. */
  lemma {:induction false} CompareSelf(p: Packet)
    ensures Compare(p, p) == None
    decreases Size(p), 0
  {
    if p.List? {
      ItemsSize(p);
      CompareListsSelf(Items(p));
    }
  }

  lemma {:induction false} CompareListsSelf(s: seq<Packet>)
    ensures CompareLists(s, s) == None
    decreases SizeSeq(s), 1
  {
    if s != [] {
      CompareSelf(s[0]);
      CompareListsSelf(s[1..]);
    }
  }

  /** Swapping the two sides flips the verdict. */
  lemma {:induction false} CompareFlip(left: Packet, right: Packet)
    ensures Compare(right, left) == Flip(Compare(left, right))
    decreases Size(left) + Size(right), 0
  {
    if !(left.Int? && right.Int?) {
      ItemsSize(left);
      ItemsSize(right);
      CompareListsFlip(Items(left), Items(right));
    }
  }

  lemma {:induction false} CompareListsFlip(ls: seq<Packet>, rs: seq<Packet>)
    ensures CompareLists(rs, ls) == Flip(CompareLists(ls, rs))
    decreases SizeSeq(ls) + SizeSeq(rs), 1
  {
    if ls != [] && rs != [] {
      CompareFlip(ls[0], rs[0]);
      CompareListsFlip(ls[1..], rs[1..]);
    }
  }

  /** A verdict as a sign: -1 in the right order, 0 undecided, 1 in the
      wrong order. */
  function Sign(verdict: Option<bool>): int {
    match verdict
    case None => 0
    case Some(b) => if b then -1 else 1
  }

  /** The comparison is a total preorder: verdicts chain, and an
      undecided link passes the other verdict through. */
  ghost predicate Chains(xy: Option<bool>, yz: Option<bool>, xz: Option<bool>) {
    && (Sign(xy) == Sign(yz) ==> Sign(xz) == Sign(xy))
    && (Sign(xy) == 0 ==> Sign(xz) == Sign(yz))
    && (Sign(yz) == 0 ==> Sign(xz) == Sign(xy))
  }

  lemma {:induction false} CompareChains(x: Packet, y: Packet, z: Packet)
    ensures Chains(Compare(x, y), Compare(y, z), Compare(x, z))
    decreases Size(x) + Size(y) + Size(z), 0
  {
    if !(x.Int? && y.Int? && z.Int?) {
      ItemsSize(x);
      ItemsSize(y);
      ItemsSize(z);
      AsLists(x, y);
      AsLists(y, z);
      AsLists(x, z);
      CompareListsChains(Items(x), Items(y), Items(z));
    }
  }

  /** Every comparison is the comparison of the two packets read as lists. */
  lemma AsLists(left: Packet, right: Packet)
    ensures Compare(left, right) == CompareLists(Items(left), Items(right))
  {
    if left.Int? && right.Int? {
      assert [left][1..] == [] && [right][1..] == [];
    }
  }

  lemma {:induction false} CompareListsChains(ls: seq<Packet>, ms: seq<Packet>, rs: seq<Packet>)
    ensures Chains(CompareLists(ls, ms), CompareLists(ms, rs), CompareLists(ls, rs))
    decreases SizeSeq(ls) + SizeSeq(ms) + SizeSeq(rs), 1
  {
    if ls != [] && ms != [] && rs != [] {
      CompareChains(ls[0], ms[0], rs[0]);
      CompareListsChains(ls[1..], ms[1..], rs[1..]);
    }
  }

  /** `x` comes strictly before `y`. */
  predicate Lt(x: Packet, y: Packet) {
    Compare(x, y) == Some(true)
  }

  lemma LtTransitive(x: Packet, y: Packet, z: Packet)
    requires Lt(x, y) && Lt(y, z)
    ensures Lt(x, z)
  {
    CompareChains(x, y, z);
  }

  lemma LtAsymmetric(x: Packet, y: Packet)
    ensures Lt(x, y) ==> !Lt(y, x) && x != y
    ensures Compare(x, y) == Some(false) ==> Lt(y, x)
  {
    CompareFlip(x, y);
    CompareSelf(x);
  }

  // ---------------------------------------------------------------------
  // Part one.
  // ---------------------------------------------------------------------

  /** The sum of the 1-based indices of the pairs in the right order. */
  function RightOrderSum(pairs: seq<(Packet, Packet)>): int {
    if pairs == [] then 0
    else
      var last := pairs[|pairs| - 1];
      RightOrderSum(pairs[..|pairs| - 1]) + (if Compare(last.0, last.1) == Some(true) then |pairs| else 0)
  }

  /** Every pair read the other way round. */
  function Swapped(pairs: seq<(Packet, Packet)>): (r: seq<(Packet, Packet)>)
    ensures |r| == |pairs| && forall i :: 0 <= i < |pairs| ==> r[i] == (pairs[i].1, pairs[i].0)
  {
    seq(|pairs|, i requires 0 <= i < |pairs| => (pairs[i].1, pairs[i].0))
  }

  /** When every pair gets a verdict, each index counts in exactly one of
      the two readings of the pairs, so the two sums make 1 + ... + n. */
  lemma {:induction false} RightOrderSumSwapped(pairs: seq<(Packet, Packet)>)
    requires forall i :: 0 <= i < |pairs| ==> Compare(pairs[i].0, pairs[i].1).Some?
    ensures RightOrderSum(pairs) + RightOrderSum(Swapped(pairs)) == |pairs| * (|pairs| + 1) / 2
  {
    if pairs != [] {
      var n := |pairs|;
      var last := pairs[n - 1];
      assert Swapped(pairs)[..n - 1] == Swapped(pairs[..n - 1]);
      RightOrderSumSwapped(pairs[..n - 1]);
      CompareFlip(last.0, last.1);
      assert (n - 1) * n / 2 + n == n * (n + 1) / 2;
    }
  }

  /** Part one: records the verdict of every pair that gets one, then adds
      up the 1-based indices of those in the right order. */
  method Part1(pairs: seq<(Packet, Packet)>) returns (sum: int)
    ensures sum == RightOrderSum(pairs)
  {
    var resultsMap: map<nat, bool> := map[];
    for i := 0 to |pairs|
      invariant forall k: nat :: k in resultsMap <==> k < i && Compare(pairs[k].0, pairs[k].1).Some?
      invariant forall k :: k in resultsMap ==> Compare(pairs[k].0, pairs[k].1) == Some(resultsMap[k])
    {
      var verdict := Compare(pairs[i].0, pairs[i].1);
      if verdict.Some? {
        resultsMap := resultsMap[i := verdict.value];
      }
    }
    sum := 0;
    for i := 0 to |pairs|
      invariant sum == RightOrderSum(pairs[..i])
    {
      assert pairs[..i + 1][..i] == pairs[..i];
      if i in resultsMap && resultsMap[i] {
        sum := sum + i + 1;
      }
    }
    assert pairs[..|pairs|] == pairs;
  }

  // ---------------------------------------------------------------------
  // Part two: bubble sort.
  // ---------------------------------------------------------------------

  const FirstDivider := List([List([Int(2)])])
  const SecondDivider := List([List([Int(6)])])

  /** Every two packets at different positions get a verdict; the source
      fails at `resultsMap[0]!!` on an undecided pair. */
  predicate Decided(s: seq<Packet>) {
    forall p, q :: 0 <= p < |s| && 0 <= q < |s| && p != q ==> Compare(s[p], s[q]).Some?
  }

  predicate Sorted(s: seq<Packet>) {
    forall p, q :: 0 <= p < q < |s| ==> Lt(s[p], s[q])
  }

  /** The source's `MutableList.swap`. */
  method Swap(a: array<Packet>, from: nat, to: nat)
    requires from < a.Length && to < a.Length
    modifies a
    ensures a[..] == old(a[..])[from := old(a[to])][to := old(a[from])]
  {
    var temp := a[from];
    a[from] := a[to];
    a[to] := temp;
  }

  /** Exchanging two positions below `bound` keeps which packets lie below
      it, keeps everything from `bound` on, and keeps every pair decided. */
  lemma SwapKeeps(s: seq<Packet>, i: nat, j: nat, bound: nat)
    requires i < bound && j < bound && bound <= |s|
    ensures multiset(s[i := s[j]][j := s[i]][..bound]) == multiset(s[..bound])
    ensures s[i := s[j]][j := s[i]][bound..] == s[bound..]
    ensures Decided(s) ==> Decided(s[i := s[j]][j := s[i]])
  {
    var t := s[i := s[j]][j := s[i]];
    assert t[..bound] == s[..bound][i := s[j]][j := s[i]];
    if Decided(s) {
      forall p, q | 0 <= p < |t| && 0 <= q < |t| && p != q
        ensures Compare(t[p], t[q]).Some?
      {
        var p' := if p == i then j else if p == j then i else p;
        var q' := if q == i then j else if q == j then i else q;
        assert t[p] == s[p'] && t[q] == s[q'];
      }
    }
  }

  /** The source's inner loop: one pass over positions 0..`end`, swapping
      each neighbouring pair that is in the wrong order, so that the
      greatest of them ends at `end`. */
  method BubblePass(a: array<Packet>, end: nat)
    requires end < a.Length && Decided(a[..])
    modifies a
    ensures Decided(a[..])
    ensures multiset(a[..end + 1]) == multiset(old(a[..end + 1]))
    ensures a[end + 1..] == old(a[end + 1..])
    ensures forall k :: 0 <= k < end ==> Lt(a[k], a[end])
  {
    for j := 0 to end
      invariant PassInvariant(a[..], old(a[..]), end, j)
    {
      var verdict := Compare(a[j], a[j + 1]);
      ghost var s := a[..];
      if !verdict.value {
        PassSwaps(s, old(a[..]), j, end);
        Swap(a, j, j + 1);
      } else {
        PassKeeps(s, old(a[..]), j, end);
      }
    }
  }

  /** What a pass keeps after `j` steps: every pair decided, the same
      packets up to `end` and the same ones after it, and the packet at `j`
      above everything before it. */
  ghost predicate PassInvariant(s: seq<Packet>, original: seq<Packet>, end: nat, j: nat) {
    && |s| == |original| && j <= end < |s|
    && Decided(s)
    && multiset(s[..end + 1]) == multiset(original[..end + 1])
    && s[end + 1..] == original[end + 1..]
    && forall k :: 0 <= k < j ==> Lt(s[k], s[j])
  }

  /** A pair out of order is exchanged: the greater packet moves up and
      stays above everything before it. */
  lemma PassSwaps(s: seq<Packet>, original: seq<Packet>, j: nat, end: nat)
    requires PassInvariant(s, original, end, j) && j < end
    requires Compare(s[j], s[j + 1]) == Some(false)
    ensures PassInvariant(s[j := s[j + 1]][j + 1 := s[j]], original, end, j + 1)
  {
    LtAsymmetric(s[j], s[j + 1]);
    SwapKeeps(s, j, j + 1, end + 1);
  }

  /** A pair in order stays: the packet above is above everything before
      it. */
  lemma PassKeeps(s: seq<Packet>, original: seq<Packet>, j: nat, end: nat)
    requires PassInvariant(s, original, end, j) && j < end
    requires Compare(s[j], s[j + 1]) == Some(true)
    ensures PassInvariant(s, original, end, j + 1)
  {
    forall k | 0 <= k < j
      ensures Lt(s[k], s[j + 1])
    {
      LtTransitive(s[k], s[j], s[j + 1]);
    }
  }

  /** Everything below `bound` comes before the packet at `bound`, and
      from `bound` on the packets are in order. */
  ghost predicate SortedAbove(s: seq<Packet>, bound: nat)
    requires bound <= |s|
  {
    && (forall p, q :: bound <= p < q < |s| ==> Lt(s[p], s[q]))
    && (bound < |s| ==> forall p :: 0 <= p < bound ==> Lt(s[p], s[bound]))
  }

  /** After a pass the greatest packet below `bound` joins the sorted part. */
  lemma SortedAboveStep(before: seq<Packet>, after: seq<Packet>, bound: nat)
    requires 0 < bound <= |before| == |after| && SortedAbove(before, bound)
    requires multiset(after[..bound]) == multiset(before[..bound])
    requires after[bound..] == before[bound..]
    requires forall k :: 0 <= k < bound - 1 ==> Lt(after[k], after[bound - 1])
    ensures SortedAbove(after, bound - 1)
  {
    assert forall k :: bound <= k < |after| ==> after[k] == after[bound..][k - bound] == before[k];
    if bound < |after| {
      var top := after[bound - 1];
      assert top in multiset(before[..bound]) by {
        assert top == after[..bound][bound - 1];
      }
      var p :| 0 <= p < bound && before[..bound][p] == top;
      assert Lt(before[p], before[bound]);
      forall q | bound < q < |after|
        ensures Lt(top, after[q])
      {
        LtTransitive(top, after[bound], after[q]);
      }
    }
  }

  /** The source's `bubbleSort`: the packets end up in the right order,
      as a rearrangement of the packets given. */
  method BubbleSort(a: array<Packet>)
    requires Decided(a[..])
    modifies a
    ensures Sorted(a[..])
    ensures multiset(a[..]) == multiset(old(a[..]))
  {
    var n := a.Length;
    var passes := if n > 0 then n - 1 else 0;
    for i := 0 to passes
      invariant Decided(a[..])
      invariant multiset(a[..]) == multiset(old(a[..]))
      invariant SortedAbove(a[..], n - i)
    {
      ghost var before := a[..];
      BubblePass(a, n - i - 1);
      SplitMultiset(before, a[..], n - i);
      SortedAboveStep(before, a[..], n - i);
    }
    SortedAboveAll(a[..], n - passes);
  }

  lemma SplitMultiset(before: seq<Packet>, after: seq<Packet>, bound: nat)
    requires bound <= |before| == |after|
    requires multiset(after[..bound]) == multiset(before[..bound]) && after[bound..] == before[bound..]
    ensures multiset(after) == multiset(before)
  {
    assert after == after[..bound] + after[bound..];
    assert before == before[..bound] + before[bound..];
  }

  /** With at most one packet left below the sorted part, all is sorted. */
  lemma SortedAboveAll(s: seq<Packet>, bound: nat)
    requires bound <= 1 && bound <= |s| && SortedAbove(s, bound)
    ensures Sorted(s)
  {
    if bound == 1 {
      forall q | 1 < q < |s|
        ensures Lt(s[0], s[q])
      {
        LtTransitive(s[0], s[1], s[q]);
      }
    }
  }

  /** How many packets of `s` come strictly before `x`. */
  function CountBelow(s: seq<Packet>, x: Packet): (r: nat)
    ensures r <= |s|
  {
    if s == [] then 0 else CountBelow(s[..|s| - 1], x) + (if Lt(s[|s| - 1], x) then 1 else 0)
  }

  lemma {:induction false} CountBelowAppend(s: seq<Packet>, t: seq<Packet>, x: Packet)
    ensures CountBelow(s + t, x) == CountBelow(s, x) + CountBelow(t, x)
  {
    if t != [] {
      assert (s + t)[..|s + t| - 1] == s + t[..|t| - 1];
      CountBelowAppend(s, t[..|t| - 1], x);
    } else {
      assert s + t == s;
    }
  }

  /** Taking out the packet at `m` lowers the count by its own share. */
  lemma CountBelowRemove(t: seq<Packet>, m: nat, x: Packet)
    requires m < |t|
    ensures CountBelow(t, x) == CountBelow(t[..m] + t[m + 1..], x) + (if Lt(t[m], x) then 1 else 0)
  {
    assert t == t[..m] + ([t[m]] + t[m + 1..]);
    CountBelowAppend(t[..m], [t[m]] + t[m + 1..], x);
    CountBelowAppend([t[m]], t[m + 1..], x);
    CountBelowAppend(t[..m], t[m + 1..], x);
    assert [t[m]][..0] == [];
  }

  /** Some position `m` of `t` holds the last element of `s`; taking it
      out of `t` and the last element off `s` keeps the multisets equal. */
  lemma RemoveMatching<T>(s: seq<T>, t: seq<T>) returns (m: nat)
    requires multiset(s) == multiset(t) && s != []
    ensures m < |t| && t[m] == s[|s| - 1]
    ensures multiset(t[..m] + t[m + 1..]) == multiset(s[..|s| - 1])
  {
    var y, rest := s[|s| - 1], s[..|s| - 1];
    assert s == rest + [y];
    assert y in multiset(s);
    m :| 0 <= m < |t| && t[m] == y;
    var t' := t[..m] + t[m + 1..];
    assert t == t[..m] + [y] + t[m + 1..];
    assert multiset(t) == multiset(t[..m]) + multiset{y} + multiset(t[m + 1..]);
    assert multiset(t') == multiset(t) - multiset{y};
  }

  /** The count depends only on which packets there are, not their order. */
  lemma {:induction false} CountBelowPermutation(s: seq<Packet>, t: seq<Packet>, x: Packet)
    requires multiset(s) == multiset(t)
    ensures CountBelow(s, x) == CountBelow(t, x)
    decreases |s|
  {
    if s == [] {
      assert |t| == |multiset(t)| == 0;
    } else {
      var m := RemoveMatching(s, t);
      var rest, t' := s[..|s| - 1], t[..m] + t[m + 1..];
      CountBelowPermutation(rest, t', x);
      CountBelowRemove(t, m, x);
    }
  }

  /** In a sorted sequence the packet at `k` has exactly `k` packets
      before it. */
  lemma {:induction false} CountBelowSorted(t: seq<Packet>, k: nat)
    requires Sorted(t) && k < |t|
    ensures CountBelow(t, t[k]) == k
  {
    CountBelowPrefix(t, t[k], k);
  }

  lemma {:induction false} CountBelowPrefix(t: seq<Packet>, x: Packet, k: nat)
    requires Sorted(t) && k < |t| && t[k] == x
    ensures CountBelow(t, x) == k
    decreases |t|
  {
    var n := |t| - 1;
    LtAsymmetric(t[n], x);
    if k < n {
      assert Sorted(t[..n]);
      CountBelowPrefix(t[..n], x, k);
    } else {
      CompareSelf(x);
      CountBelowAll(t[..n], x);
    }
  }

  lemma {:induction false} CountBelowAll(t: seq<Packet>, x: Packet)
    requires forall p :: 0 <= p < |t| ==> Lt(t[p], x)
    ensures CountBelow(t, x) == |t|
  {
    if t != [] {
      CountBelowAll(t[..|t| - 1], x);
    }
  }

  /** The source's `indexOf`: the first position holding `x`, or -1. */
  function IndexOf(s: seq<Packet>, x: Packet): (r: int)
    ensures -1 <= r < |s|
    ensures r >= 0 ==> s[r] == x && forall p :: 0 <= p < r ==> s[p] != x
    ensures r == -1 ==> x !in s
  {
    if s == [] then -1
    else if s[0] == x then 0
    else var rest := IndexOf(s[1..], x);
      if rest == -1 then -1 else rest + 1
  }

  lemma DividersOrdered()
    ensures Lt(FirstDivider, SecondDivider) && !Lt(SecondDivider, FirstDivider)
    ensures !Lt(FirstDivider, FirstDivider) && !Lt(SecondDivider, SecondDivider)
  {
    assert Compare(Int(2), Int(6)) == Some(true);
    assert CompareLists([Int(2)], [Int(6)]) == Some(true);
    assert Compare(List([Int(2)]), List([Int(6)])) == Some(true);
    assert CompareLists([List([Int(2)])], [List([Int(6)])]) == Some(true);
    LtAsymmetric(FirstDivider, SecondDivider);
    CompareSelf(FirstDivider);
    CompareSelf(SecondDivider);
  }

  /** Where a packet lands in the sorted sequence: after every packet
      that comes before it. */
  lemma SortedPosition(t: seq<Packet>, all: seq<Packet>, x: Packet)
    requires Sorted(t) && multiset(t) == multiset(all) && x in all
    ensures IndexOf(t, x) == CountBelow(all, x)
  {
    assert x in multiset(t) by { assert x in multiset(all); }
    var k :| 0 <= k < |t| && t[k] == x;
    forall p | 0 <= p < k
      ensures t[p] != x
    {
      LtAsymmetric(t[p], t[k]);
    }
    CountBelowSorted(t, k);
    CountBelowPermutation(t, all, x);
  }

  /** Part two: the product of the dividers' 1-based positions once the
      packets and both dividers are sorted, which is fixed by how many
      packets come before each divider. */
  method Part2(packets: seq<Packet>) returns (result: int)
    requires Decided(packets + [FirstDivider, SecondDivider])
    ensures result == (CountBelow(packets, FirstDivider) + 1) * (CountBelow(packets, SecondDivider) + 2)
  {
    var all := packets + [FirstDivider, SecondDivider];
    var a := new Packet[|all|](i requires 0 <= i < |all| => all[i]);
    assert a[..] == all;
    BubbleSort(a);
    var first := IndexOf(a[..], FirstDivider);
    var second := IndexOf(a[..], SecondDivider);
    result := (first + 1) * (second + 1);
    DividerPositions(packets, a[..]);
  }

  /** Sorted together with the packets, the first divider lands after the
      packets before it, the second after those and the first divider. */
  lemma DividerPositions(packets: seq<Packet>, t: seq<Packet>)
    requires Sorted(t) && multiset(t) == multiset(packets + [FirstDivider, SecondDivider])
    ensures IndexOf(t, FirstDivider) == CountBelow(packets, FirstDivider)
    ensures IndexOf(t, SecondDivider) == CountBelow(packets, SecondDivider) + 1
  {
    var all := packets + [FirstDivider, SecondDivider];
    assert all[|packets|] == FirstDivider && all[|packets| + 1] == SecondDivider;
    SortedPosition(t, all, FirstDivider);
    SortedPosition(t, all, SecondDivider);
    DividersOrdered();
    CountBelowAppend(packets, [FirstDivider, SecondDivider], FirstDivider);
    CountBelowAppend(packets, [FirstDivider, SecondDivider], SecondDivider);
    assert [FirstDivider, SecondDivider][..1] == [FirstDivider];
    assert [FirstDivider][..0] == [];
  }
}
