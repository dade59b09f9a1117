/** Small definitions shared by the puzzle solvers: optional values, a
    distance that may be infinite, absolute value and sums/maxima over
    sequences. */
module Common {

  datatype Option<+T> = None | Some(value: T)

  /** A shortest-path length, or the "unreachable" sentinel that the
      solvers write as `Int.MAX_VALUE`. */
  datatype Distance = Finite(steps: nat) | Infinite {
    /** The ordering of the sentinel encoding: infinity is above every
        finite length. */
    predicate Below(other: Distance) {
      match (this, other)
      case (Finite(a), Finite(b)) => a < b
      case (Finite(_), Infinite) => true
      case (Infinite, _) => false
    }
  }

  function Abs(x: int): (r: nat)
    ensures r == x || r == -x
  {
    if x < 0 then -x else x
  }

  function Sum(s: seq<int>): int {
    if s == [] then 0 else Sum(s[..|s| - 1]) + s[|s| - 1]
  }

  /** A non-empty sequence is its prefix followed by its last element. */
  lemma SplitLast<T>(s: seq<T>)
    requires s != []
    ensures s == s[..|s| - 1] + [s[|s| - 1]]
  {
  }

  lemma AppendAssociative<T>(a: seq<T>, b: seq<T>, c: seq<T>)
    ensures (a + b) + c == a + (b + c)
  {
  }

  lemma {:induction false} SumAppend(a: seq<int>, b: seq<int>)
    ensures Sum(a + b) == Sum(a) + Sum(b)
  {
    if b != [] {
      assert (a + b)[..|a + b| - 1] == a + b[..|b| - 1];
      SumAppend(a, b[..|b| - 1]);
    } else {
      assert a + b == a;
    }
  }

  function Max(a: int, b: int): int {
    if a < b then b else a
  }

  function Min(a: int, b: int): int {
    if a < b then a else b
  }

  /** The position of a largest element of a non-empty sequence (the
      first one). */
  function ArgMaxIndex(s: seq<int>): (k: nat)
    requires s != []
    ensures k < |s| && forall j :: 0 <= j < |s| ==> s[j] <= s[k]
  {
    if |s| == 1 then 0
    else
      var k := ArgMaxIndex(s[..|s| - 1]);
      if s[|s| - 1] > s[k] then |s| - 1 else k
  }

  /** Some element of a non-empty set. */
  ghost function Pick<X>(s: set<X>): (x: X)
    requires s != {}
    ensures x in s
  {
    var x :| x in s; x
  }

  /** A key of a non-empty map whose value is the largest. */
  ghost function ArgMax<K>(m: map<K, int>): (k: K)
    requires m != map[]
    ensures k in m && forall j :: j in m ==> m[j] <= m[k]
    decreases |m|
  {
    var x := Pick(m.Keys);
    var rest := m - {x};
    assert rest.Keys == m.Keys - {x};
    assert forall j :: j in m ==> j == x || (j in rest && rest[j] == m[j]);
    if rest == map[] then x
    else
      var y := ArgMax(rest);
      if m[y] < m[x] then x else y
  }

  /** Number of elements of `s` satisfying `p`. */
  function CountIf<T>(s: seq<T>, p: T -> bool): (n: nat)
    ensures n <= |s|
  {
    if s == [] then 0 else CountIf(s[..|s| - 1], p) + (if p(s[|s| - 1]) then 1 else 0)
  }

  /** `CountIf` given the running count after each element. */
  lemma {:induction false} CountIfRunning<T>(s: seq<T>, p: T -> bool, counts: seq<nat>)
    requires |counts| == |s| > 0
    requires counts[0] == if p(s[0]) then 1 else 0
    requires forall k :: 0 < k < |s| ==> counts[k] == counts[k - 1] + if p(s[k]) then 1 else 0
    ensures CountIf(s, p) == counts[|s| - 1]
  {
    if |s| == 1 {
      assert s[..0] == [];
    } else {
      var k := |s| - 1;
      assert counts[k] == counts[k - 1] + if p(s[k]) then 1 else 0;
      CountIfRunning(s[..k], p, counts[..k]);
    }
  }
}
