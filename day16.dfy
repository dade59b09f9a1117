/** Valve search: all-pairs shortest tunnel distances (Floyd–Warshall over a
    matrix whose sentinel is an explicit infinity), a backtracking search that
    records the best released pressure for every set of opened valves keyed
    by a 64-bit bitmask, and the best pair of disjoint sets for two agents. */
module Day16 {
  import opened Common

  const PartOneMinutes := 30
  const PartTwoMinutes := 26
  const OriginName := "AA"
  /** `Int.MIN_VALUE`, the default the search reads for a key not yet in the results map. */
  const IntMin := -2147483648
  const IntMax := 2147483647

  datatype Valve = Valve(name: string, flowRate: nat, tunnels: seq<string>)

  /** Position of the first valve called `name`, or -1 (Kotlin's `indexOfFirst`). */
  function IndexOf(valves: seq<Valve>, name: string): (r: int)
    ensures -1 <= r < |valves|
    ensures 0 <= r ==> valves[r].name == name
    ensures forall k :: 0 <= k < |valves| && (r == -1 || k < r) ==> valves[k].name != name
  {
    if valves == [] then -1
    else if valves[0].name == name then 0
    else
      var r := IndexOf(valves[1..], name);
      if r == -1 then -1 else r + 1
  }

  /** What the parsed input guarantees: valve names are distinct and every
      tunnel leads to a listed valve. */
  predicate WellFormed(valves: seq<Valve>) {
    && (forall i, j :: 0 <= i < j < |valves| ==> valves[i].name != valves[j].name)
    && (forall i, t :: 0 <= i < |valves| && t in valves[i].tunnels ==> IndexOf(valves, t) >= 0)
  }

  predicate Tunnel(valves: seq<Valve>, i: int, j: int) {
    0 <= i < |valves| && 0 <= j < |valves| && valves[j].name in valves[i].tunnels
  }

  /** There is a walk of exactly `n` tunnels from valve `i` to valve `j`. */
  ghost predicate Reach(valves: seq<Valve>, i: int, j: int, n: nat)
    decreases n
  {
    if n == 0 then i == j
    else exists m :: Tunnel(valves, i, m) && Reach(valves, m, j, n - 1)
  }

  lemma {:induction false} ReachConcat(valves: seq<Valve>, i: int, m: int, j: int, a: nat, b: nat)
    requires Reach(valves, i, m, a) && Reach(valves, m, j, b)
    ensures Reach(valves, i, j, a + b)
    decreases a
  {
    if a > 0 {
      var x :| Tunnel(valves, i, x) && Reach(valves, x, m, a - 1);
      ReachConcat(valves, x, m, j, a - 1, b);
      assert Tunnel(valves, i, x) && Reach(valves, x, j, a + b - 1);
    }
  }

  // ---------------------------------------------------------------------
  // Floyd–Warshall
  // ---------------------------------------------------------------------

  predicate IsSquare(m: seq<seq<Distance>>, n: nat) {
    |m| == n && forall i :: 0 <= i < n ==> |m[i]| == n
  }

  /** One relaxation: the path through the intermediate valve replaces the
      direct entry only when both legs are finite and strictly shorter. */
  function Relax(direct: Distance, first: Distance, second: Distance): (r: Distance)
    ensures r == direct || (first.Finite? && second.Finite? && r == Finite(first.steps + second.steps) && r.Below(direct))
  {
    if first.Finite? && second.Finite? && Finite(first.steps + second.steps).Below(direct)
    then Finite(first.steps + second.steps)
    else direct
  }

  /** The matrix after relaxing every entry through intermediate `k`. */
  function Phase(m: seq<seq<Distance>>, k: nat): (r: seq<seq<Distance>>)
    requires IsSquare(m, |m|) && k < |m|
    ensures IsSquare(r, |m|)
    ensures forall i, j :: 0 <= i < |m| && 0 <= j < |m| ==> r[i][j] == Relax(m[i][j], m[i][k], m[k][j])
  {
    seq(|m|, i requires 0 <= i < |m| => seq(|m|, j requires 0 <= j < |m| => Relax(m[i][j], m[i][k], m[k][j])))
  }

  predicate Triangle(m: seq<seq<Distance>>, i: nat, c: nat, j: nat)
    requires IsSquare(m, |m|) && i < |m| && c < |m| && j < |m|
  {
    m[i][c].Finite? && m[c][j].Finite? ==> m[i][j].Finite? && m[i][j].steps <= m[i][c].steps + m[c][j].steps
  }

  predicate ZeroDiagonal(m: seq<seq<Distance>>)
    requires IsSquare(m, |m|)
  {
    forall i :: 0 <= i < |m| ==> m[i][i] == Finite(0)
  }

  /** Every finite entry is the length of some walk. */
  ghost predicate WalksSound(valves: seq<Valve>, m: seq<seq<Distance>>)
    requires IsSquare(m, |m|)
  {
    forall i, j :: 0 <= i < |m| && 0 <= j < |m| && m[i][j].Finite? ==> Reach(valves, i, j, m[i][j].steps)
  }

  ghost predicate TunnelsAtMostOne(valves: seq<Valve>, m: seq<seq<Distance>>)
    requires IsSquare(m, |valves|)
  {
    forall i, j :: Tunnel(valves, i, j) ==> m[i][j].Finite? && m[i][j].steps <= 1
  }

  /** The triangle inequality through every intermediate below `k`. */
  predicate TriangleBelow(m: seq<seq<Distance>>, k: nat)
    requires IsSquare(m, |m|)
  {
    forall i, c, j :: 0 <= i < |m| && 0 <= c < k && c < |m| && 0 <= j < |m| ==> Triangle(m, i, c, j)
  }

  /** What holds of the matrix once the intermediates `0..k-1` are done. */
  ghost predicate FloydInvariant(valves: seq<Valve>, m: seq<seq<Distance>>, k: nat) {
    && IsSquare(m, |valves|)
    && k <= |valves|
    && ZeroDiagonal(m)
    && WalksSound(valves, m)
    && TunnelsAtMostOne(valves, m)
    && TriangleBelow(m, k)
  }

  /** The matrix before the first phase: 0 on the diagonal, 1 for a tunnel,
      infinite otherwise. */
  predicate IsInitial(valves: seq<Valve>, m: seq<seq<Distance>>)
    requires IsSquare(m, |valves|)
  {
    forall i, j :: 0 <= i < |m| && 0 <= j < |m| ==>
      m[i][j] == (if i == j then Finite(0) else if Tunnel(valves, i, j) then Finite(1) else Infinite)
  }

  lemma InitialInvariant(valves: seq<Valve>, m: seq<seq<Distance>>)
    requires IsSquare(m, |valves|) && IsInitial(valves, m)
    ensures FloydInvariant(valves, m, 0)
  {
    forall i, j | 0 <= i < |m| && 0 <= j < |m| && m[i][j].Finite?
      ensures Reach(valves, i, j, m[i][j].steps)
    {
      if i != j {
        assert Tunnel(valves, i, j) && Reach(valves, j, j, 0);
      }
    }
  }

  lemma PhaseTriangle(m: seq<seq<Distance>>, k: nat, i: nat, c: nat, j: nat)
    requires IsSquare(m, |m|) && k < |m| && i < |m| && c <= k && j < |m|
    requires m[k][k] == Finite(0)
    requires c < k ==> Triangle(m, i, c, j) && Triangle(m, i, c, k) && Triangle(m, k, c, j)
    ensures Triangle(Phase(m, k), i, c, j)
  {
  }

  lemma PhaseTriangles(m: seq<seq<Distance>>, k: nat)
    requires IsSquare(m, |m|) && k < |m| && ZeroDiagonal(m) && TriangleBelow(m, k)
    ensures TriangleBelow(Phase(m, k), k + 1)
  {
    forall i, c, j | 0 <= i < |m| && 0 <= c < k + 1 && 0 <= j < |m|
      ensures Triangle(Phase(m, k), i, c, j)
    {
      PhaseTriangle(m, k, i, c, j);
    }
  }

  lemma PhaseSound(valves: seq<Valve>, m: seq<seq<Distance>>, k: nat)
    requires IsSquare(m, |m|) && k < |m| && WalksSound(valves, m)
    ensures WalksSound(valves, Phase(m, k))
  {
    var r: seq<seq<Distance>> := Phase(m, k);
    forall i: int, j: int | 0 <= i < |m| && 0 <= j < |m| && r[i][j].Finite?
      ensures Reach(valves, i, j, r[i][j].steps)
    {
      if r[i][j] != m[i][j] {
        ReachConcat(valves, i, k, j, m[i][k].steps, m[k][j].steps);
      }
    }
  }

  lemma PhaseKeepsInvariant(valves: seq<Valve>, m: seq<seq<Distance>>, k: nat)
    requires FloydInvariant(valves, m, k) && k < |m|
    ensures FloydInvariant(valves, Phase(m, k), k + 1)
  {
    PhaseSound(valves, m, k);
    PhaseTriangles(m, k);
  }

  /** Once every intermediate is done, any walk is at least as long as the
      matrix entry. */
  lemma {:induction false} WalkBound(valves: seq<Valve>, m: seq<seq<Distance>>, i: int, j: int, n: nat)
    requires IsSquare(m, |valves|) && ZeroDiagonal(m) && TunnelsAtMostOne(valves, m) && TriangleBelow(m, |m|)
    requires 0 <= i < |m| && 0 <= j < |m| && Reach(valves, i, j, n)
    ensures m[i][j].Finite? && m[i][j].steps <= n
    decreases n
  {
    if n > 0 {
      var x :| Tunnel(valves, i, x) && Reach(valves, x, j, n - 1);
      WalkBound(valves, m, x, j, n - 1);
      assert m[i][x].Finite? && m[i][x].steps <= 1;
      assert Triangle(m, i, x, j);
    }
  }

  /** `m[i][j]` is exactly the length of the shortest walk from `i` to `j`,
      and infinite when there is none. */
  ghost predicate IsShortestPathMatrix(valves: seq<Valve>, m: seq<seq<Distance>>) {
    && IsSquare(m, |valves|)
    && (forall i, j :: 0 <= i < |m| && 0 <= j < |m| && m[i][j].Finite? ==> Reach(valves, i, j, m[i][j].steps))
    && (forall i, j, n: nat :: 0 <= i < |m| && 0 <= j < |m| && Reach(valves, i, j, n) ==>
          m[i][j].Finite? && m[i][j].steps <= n)
  }

  function Snapshot(a: array2<Distance>): (m: seq<seq<Distance>>)
    reads a
    ensures IsSquare(m, a.Length0) || a.Length0 != a.Length1
    ensures |m| == a.Length0
    ensures forall i, j :: 0 <= i < a.Length0 && 0 <= j < a.Length1 ==> |m[i]| == a.Length1 && m[i][j] == a[i, j]
  {
    seq(a.Length0, i requires 0 <= i < a.Length0 reads a =>
      seq(a.Length1, j requires 0 <= j < a.Length1 reads a => a[i, j]))
  }

  /** The matrix before the first phase: every entry unreachable, then 1 for
      each listed tunnel, then 0 on the diagonal. */
  method InitialDistances(valves: seq<Valve>) returns (distances: array2<Distance>)
    requires WellFormed(valves)
    ensures fresh(distances)
    ensures distances.Length0 == |valves| && distances.Length1 == |valves|
    ensures IsInitial(valves, Snapshot(distances))
  {
    var n := |valves|;
    distances := new Distance[n, n]((i, j) => Infinite);
    for valveIndex := 0 to n
      invariant forall a, b :: 0 <= a < n && 0 <= b < n ==>
        distances[a, b] == (if a < valveIndex && Tunnel(valves, a, b) then Finite(1) else Infinite)
    {
      var tunnels := valves[valveIndex].tunnels;
      for t := 0 to |tunnels|
        invariant forall a, b :: 0 <= a < n && 0 <= b < n ==>
          distances[a, b] == (if (a < valveIndex && Tunnel(valves, a, b)) || (a == valveIndex && valves[b].name in tunnels[..t])
                              then Finite(1) else Infinite)
      {
        var destination := IndexOf(valves, tunnels[t]);
        assert tunnels[..t + 1] == tunnels[..t] + [tunnels[t]];
        distances[valveIndex, destination] := Finite(1);
      }
      assert tunnels[..|tunnels|] == tunnels;
    }
    for valveIndex := 0 to n
      invariant forall a, b :: 0 <= a < n && 0 <= b < n ==>
        distances[a, b] == (if a == b && a < valveIndex then Finite(0)
                            else if Tunnel(valves, a, b) then Finite(1) else Infinite)
    {
      distances[valveIndex, valveIndex] := Finite(0);
    }
  }

  /** One phase of the triple loop, in place: every entry relaxed through
      intermediate `k`. Row and column `k` do not change during the phase
      because the diagonal is 0. */
  method RelaxThrough(distances: array2<Distance>, k: nat)
    requires distances.Length0 == distances.Length1 && k < distances.Length0
    requires ZeroDiagonal(Snapshot(distances))
    modifies distances
    ensures Snapshot(distances) == Phase(old(Snapshot(distances)), k)
  {
    var n := distances.Length0;
    ghost var before := Snapshot(distances);
    ghost var after := Phase(before, k);
    for i := 0 to n
      invariant forall a, b :: 0 <= a < n && 0 <= b < n ==>
        distances[a, b] == (if a < i then after[a][b] else before[a][b])
    {
      for j := 0 to n
        invariant forall a, b :: 0 <= a < n && 0 <= b < n ==>
          distances[a, b] == (if a < i || (a == i && b < j) then after[a][b] else before[a][b])
      {
        assert distances[i, k] == before[i][k] && distances[k, j] == before[k][j];
        if distances[i, k].Finite? && distances[k, j].Finite? &&
           Finite(distances[i, k].steps + distances[k, j].steps).Below(distances[i, j]) {
          distances[i, j] := Finite(distances[i, k].steps + distances[k, j].steps);
        }
      }
    }
    assert Snapshot(distances) == after by {
      forall a | 0 <= a < n ensures Snapshot(distances)[a] == after[a] { }
    }
  }

  /** Floyd–Warshall: the shortest tunnel distance between every pair of
      valves, infinite for an unreachable pair. */
  method Floyd(valves: seq<Valve>) returns (distances: array2<Distance>)
    requires WellFormed(valves)
    ensures distances.Length0 == |valves| && distances.Length1 == |valves|
    ensures forall i :: 0 <= i < |valves| ==> distances[i, i] == Finite(0)
    ensures IsShortestPathMatrix(valves, Snapshot(distances))
  {
    var n := |valves|;
    distances := InitialDistances(valves);
    InitialInvariant(valves, Snapshot(distances));
    for k := 0 to n
      invariant FloydInvariant(valves, Snapshot(distances), k)
    {
      PhaseKeepsInvariant(valves, Snapshot(distances), k);
      RelaxThrough(distances, k);
    }
    ghost var m: seq<seq<Distance>> := Snapshot(distances);
    forall i: int, j: int, steps: nat | 0 <= i < n && 0 <= j < n && Reach(valves, i, j, steps)
      ensures m[i][j].Finite? && m[i][j].steps <= steps
    {
      WalkBound(valves, m, i, j, steps);
    }
  }

  /** A shortest-path matrix satisfies the triangle inequality. */
  lemma ShortestTriangle(valves: seq<Valve>, m: seq<seq<Distance>>, i: nat, c: nat, j: nat)
    requires IsShortestPathMatrix(valves, m) && i < |m| && c < |m| && j < |m|
    requires m[i][c].Finite? && m[c][j].Finite?
    ensures m[i][j].Finite? && m[i][j].steps <= m[i][c].steps + m[c][j].steps
  {
    ReachConcat(valves, i, c, j, m[i][c].steps, m[c][j].steps);
  }

  // ---------------------------------------------------------------------
  // Bitmaps of opened valves
  // ---------------------------------------------------------------------

  /** `1L shl i`: the bit of the `i`-th useful valve. */
  function Bit(i: nat): bv64
    requires i < 64
  {
    (1 as bv64) << i
  }

  lemma IndexRoundTrip(i: nat)
    requires i < 64
    ensures (i as bv7) as int == i
  {
  }

  lemma ShiftsApart(a: bv7, b: bv7)
    requires a < 64 && b < 64 && a != b
    ensures ((1 as bv64) << a) & ((1 as bv64) << b) == 0
  {
  }

  /** Different valves own different bits. */
  lemma BitsApart(i: nat, j: nat)
    requires i < 64 && j < 64 && i != j
    ensures Bit(i) & Bit(j) == 0
  {
    IndexRoundTrip(i);
    IndexRoundTrip(j);
    ShiftsApart(i as bv7, j as bv7);
  }

  /** Each valve's bit is a single set bit. */
  lemma SingleBit(i: nat)
    requires i < 64
    ensures Bit(i) != 0 && Bit(i) & (Bit(i) - 1) == 0
  {
  }

  /** A bitmap none of whose 64 bits is set is zero. */
  lemma AllBitsZero(x: bv64)
    requires forall j: nat :: j < 64 ==> x & Bit(j) == 0
    ensures x == 0
  {
    assert x & Bit(0) == 0 && x & Bit(1) == 0 && x & Bit(2) == 0 && x & Bit(3) == 0 && x & Bit(4) == 0 && x & Bit(5) == 0 && x & Bit(6) == 0 && x & Bit(7) == 0
      && x & Bit(8) == 0 && x & Bit(9) == 0 && x & Bit(10) == 0 && x & Bit(11) == 0 && x & Bit(12) == 0 && x & Bit(13) == 0 && x & Bit(14) == 0 && x & Bit(15) == 0
      && x & Bit(16) == 0 && x & Bit(17) == 0 && x & Bit(18) == 0 && x & Bit(19) == 0 && x & Bit(20) == 0 && x & Bit(21) == 0 && x & Bit(22) == 0 && x & Bit(23) == 0
      && x & Bit(24) == 0 && x & Bit(25) == 0 && x & Bit(26) == 0 && x & Bit(27) == 0 && x & Bit(28) == 0 && x & Bit(29) == 0 && x & Bit(30) == 0 && x & Bit(31) == 0
      && x & Bit(32) == 0 && x & Bit(33) == 0 && x & Bit(34) == 0 && x & Bit(35) == 0 && x & Bit(36) == 0 && x & Bit(37) == 0 && x & Bit(38) == 0 && x & Bit(39) == 0
      && x & Bit(40) == 0 && x & Bit(41) == 0 && x & Bit(42) == 0 && x & Bit(43) == 0 && x & Bit(44) == 0 && x & Bit(45) == 0 && x & Bit(46) == 0 && x & Bit(47) == 0
      && x & Bit(48) == 0 && x & Bit(49) == 0 && x & Bit(50) == 0 && x & Bit(51) == 0 && x & Bit(52) == 0 && x & Bit(53) == 0 && x & Bit(54) == 0 && x & Bit(55) == 0
      && x & Bit(56) == 0 && x & Bit(57) == 0 && x & Bit(58) == 0 && x & Bit(59) == 0 && x & Bit(60) == 0 && x & Bit(61) == 0 && x & Bit(62) == 0 && x & Bit(63) == 0;
  }

  lemma SingleAnd(a: bv64, v: bv64)
    requires v != 0 && v & (v - 1) == 0
    ensures a & v == 0 || a & v == v
  {
  }

  lemma OrSingle(a: bv64, b: bv64, v: bv64)
    requires v != 0 && v & (v - 1) == 0
    ensures (a | b) & v != 0 <==> a & v != 0 || b & v != 0
  {
  }

  lemma AndSingle(a: bv64, b: bv64, v: bv64)
    requires v != 0 && v & (v - 1) == 0
    ensures (a & b) & v != 0 <==> a & v != 0 && b & v != 0
  {
    assert (a & b) & v == (a & v) & (b & v);
    SingleAnd(a, v);
    SingleAnd(b, v);
  }

  lemma XorSingle(a: bv64, b: bv64, v: bv64)
    requires v != 0 && v & (v - 1) == 0
    ensures (a ^ b) & v == 0 <==> (a & v == 0 <==> b & v == 0)
  {
  }

  /** `acc or (1L shl i)` sets bit `i` and keeps every other bit. */
  lemma OrBit(m: bv64, i: nat, j: nat)
    requires i < 64 && j < 64
    ensures (m | Bit(i)) & Bit(j) != 0 <==> m & Bit(j) != 0 || i == j
  {
    SingleBit(j);
    OrSingle(m, Bit(i), Bit(j));
    if i != j {
      BitsApart(i, j);
    }
  }

  lemma XorBit(a: bv64, b: bv64, j: nat)
    requires j < 64 && (a & Bit(j) == 0 <==> b & Bit(j) == 0)
    ensures (a ^ b) & Bit(j) == 0
  {
    SingleBit(j);
    XorSingle(a, b, Bit(j));
  }

  lemma AndBit(a: bv64, b: bv64, j: nat)
    requires j < 64
    ensures (a & b) & Bit(j) == 0 <==> a & Bit(j) == 0 || b & Bit(j) == 0
  {
    SingleBit(j);
    AndSingle(a, b, Bit(j));
  }

  /** Two bitmaps with the same set bits are equal, so a bitmap names
      exactly one set of valves. */
  lemma SameBits(a: bv64, b: bv64)
    requires forall j: nat :: j < 64 ==> (a & Bit(j) == 0 <==> b & Bit(j) == 0)
    ensures a == b
  {
    var x := a ^ b;
    forall j: nat | j < 64
      ensures x & Bit(j) == 0
    {
      XorBit(a, b, j);
    }
    AllBitsZero(x);
  }

  /** `a and b == 0L` when no valve's bit is set in both. */
  lemma DisjointBitsAndZero(a: bv64, b: bv64)
    requires forall j: nat :: j < 64 ==> a & Bit(j) == 0 || b & Bit(j) == 0
    ensures a & b == 0
  {
    forall j: nat | j < 64
      ensures (a & b) & Bit(j) == 0
    {
      AndBit(a, b, j);
    }
    AllBitsZero(a & b);
  }

  /** ... and only then. */
  lemma AndZeroCommonBit(a: bv64, b: bv64, j: nat)
    requires j < 64 && a & b == 0
    ensures a & Bit(j) == 0 || b & Bit(j) == 0
  {
    AndBit(a, b, j);
  }

  /** The bitmap of the opened valves, `visitedValves.fold(0L) { acc, v ->
      acc or bitmapValves[v] }`, in the order they were opened. */
  function BitmapOf(visited: seq<nat>): bv64
    requires forall k :: 0 <= k < |visited| ==> visited[k] < 64
  {
    if visited == [] then 0
    else BitmapOf(visited[..|visited| - 1]) | Bit(visited[|visited| - 1])
  }

  /** Bit `j` of the folded bitmap is set exactly when valve `j` was
      opened, whatever the order. */
  lemma {:induction false} BitmapOfBit(visited: seq<nat>, j: nat)
    requires forall k :: 0 <= k < |visited| ==> visited[k] < 64
    requires j < 64
    ensures BitmapOf(visited) & Bit(j) != 0 <==> j in visited
  {
    if visited != [] {
      var prefix := visited[..|visited| - 1];
      BitmapOfBit(prefix, j);
      OrBit(BitmapOf(prefix), visited[|visited| - 1], j);
      assert visited == prefix + [visited[|visited| - 1]];
    }
  }

  // ---------------------------------------------------------------------
  // The search
  // ---------------------------------------------------------------------

  /** Indices of the valves with a positive flow rate, in input order; the
      `i`-th of them owns bit `i`. */
  function UsefulValves(valves: seq<Valve>): (useful: seq<nat>)
    ensures forall k :: 0 <= k < |useful| ==> useful[k] < |valves| && valves[useful[k]].flowRate > 0
    ensures forall i :: 0 <= i < |valves| && valves[i].flowRate > 0 ==> i in useful
    ensures forall a, b :: 0 <= a < b < |useful| ==> useful[a] < useful[b]
  {
    if valves == [] then []
    else
      var init := UsefulValves(valves[..|valves| - 1]);
      if valves[|valves| - 1].flowRate > 0 then init + [|valves| - 1] else init
  }

  /** The fixed inputs of one search. */
  datatype Problem = Problem(valves: seq<Valve>, distances: seq<seq<Distance>>, useful: seq<nat>, origin: nat, minutes: int)
  {
    ghost predicate Valid() {
      && IsSquare(distances, |valves|)
      && origin < |valves|
      && (forall k :: 0 <= k < |useful| ==> useful[k] < |valves|)
    }
  }

  datatype SearchState = SearchState(timeLeft: int, points: int)

  /** Where the agent stands after opening the valves of `path` (indices
      into `useful`) in that order. */
  function Position(p: Problem, path: seq<nat>): (r: nat)
    requires p.Valid()
    requires forall k :: 0 <= k < |path| ==> path[k] < |p.useful|
    ensures r < |p.valves|
    ensures path != [] ==> r == p.useful[path[|path| - 1]]
  {
    if path == [] then p.origin else p.useful[path[|path| - 1]]
  }

  /** Opening the valves of `path` in order: each costs one minute plus the
      shortest travel time from the previous position, must fit in the time
      left, and releases its flow rate for every minute left afterwards.
      `None` when a valve repeats, is unreachable or does not fit. */
  function Run(p: Problem, path: seq<nat>): (r: Option<SearchState>)
    requires p.Valid()
    ensures r.Some? ==> forall k :: 0 <= k < |path| ==> path[k] < |p.useful|
    ensures r.Some? && p.minutes >= 0 ==> r.value.timeLeft >= 0 && r.value.points >= 0
  {
    if path == [] then Some(SearchState(p.minutes, 0))
    else
      var prefix := path[..|path| - 1];
      var v := path[|path| - 1];
      match Run(p, prefix)
      case None => None
      case Some(s) =>
        if v >= |p.useful| || v in prefix then None
        else
          var d := p.distances[Position(p, prefix)][p.useful[v]];
          if d.Finite? && 1 + d.steps <= s.timeLeft then
            var left := s.timeLeft - (1 + d.steps);
            Some(SearchState(left, s.points + p.valves[p.useful[v]].flowRate * left))
          else None
  }

  lemma {:induction false} RunPrefix(p: Problem, path: seq<nat>, n: nat)
    requires p.Valid() && n <= |path| && Run(p, path).Some?
    ensures Run(p, path[..n]).Some?
    decreases |path|
  {
    if n < |path| {
      RunPrefix(p, path[..|path| - 1], n);
      assert path[..|path| - 1][..n] == path[..n];
    } else {
      assert path[..n] == path;
    }
  }

  lemma {:induction false} RunDistinct(p: Problem, path: seq<nat>)
    requires p.Valid() && Run(p, path).Some?
    ensures forall a, b :: 0 <= a < b < |path| ==> path[a] != path[b]
    decreases |path|
  {
    if path != [] {
      var prefix := path[..|path| - 1];
      RunDistinct(p, prefix);
      assert forall a :: 0 <= a < |prefix| ==> prefix[a] == path[a];
    }
  }

  /** The valves opened along `path`: the bit positions of the bitmap the
      search records `path` under. */
  function Elems(path: seq<nat>): set<nat> {
    set x | x in path
  }

  /** Every recorded value is released by some feasible order of exactly
      the key's valves. */
  ghost predicate Sound(p: Problem, results: map<set<nat>, int>)
    requires p.Valid()
  {
    forall key :: key in results ==>
      exists path :: Run(p, path).Some? && path != [] && Elems(path) == key && Run(p, path).value.points == results[key]
  }

  /** Every feasible order extending `path` by at least one valve is
      recorded, with at least the pressure it releases. */
  ghost predicate Complete(p: Problem, path: seq<nat>, results: map<set<nat>, int>)
    requires p.Valid()
  {
    forall q :: Run(p, q).Some? && |q| > |path| && q[..|path|] == path ==>
      Elems(q) in results && Run(p, q).value.points <= results[Elems(q)]
  }

  /** `Complete`, restricted to the orders whose next valve is below `f`. */
  ghost predicate CompleteBelow(p: Problem, path: seq<nat>, f: nat, results: map<set<nat>, int>)
    requires p.Valid()
  {
    forall q :: Run(p, q).Some? && |q| > |path| && q[..|path|] == path && q[|path|] < f ==>
      Elems(q) in results && Run(p, q).value.points <= results[Elems(q)]
  }

  ghost predicate Grows(before: map<set<nat>, int>, after: map<set<nat>, int>) {
    forall key :: key in before ==> key in after && before[key] <= after[key]
  }

  /** `resultsMap[key] = maxOf(resultsMap.getOrDefault(key, Int.MIN_VALUE), points)`. */
  function Record(results: map<set<nat>, int>, key: set<nat>, points: int): (r: map<set<nat>, int>)
    ensures r.Keys == results.Keys + {key}
    ensures r[key] >= points && (key in results ==> r[key] >= results[key])
    ensures r[key] == points || (key in results && r[key] == results[key]) || (key !in results && points < IntMin)
    ensures forall k :: k in results && k != key ==> r[k] == results[k]
  {
    var last := if key in results then results[key] else IntMin;
    var r := results[key := Max(last, points)];
    assert r.Keys == results.Keys + {key};
    r
  }

  lemma RecordGrows(results: map<set<nat>, int>, key: set<nat>, points: int)
    ensures Grows(results, Record(results, key, points))
  {
  }

  /** Recording a feasible order keeps the results sound. */
  lemma RecordSound(p: Problem, results: map<set<nat>, int>, path: seq<nat>)
    requires p.Valid() && p.minutes >= 0 && Sound(p, results)
    requires Run(p, path).Some? && path != []
    ensures Sound(p, Record(results, Elems(path), Run(p, path).value.points))
  {
    var r := Record(results, Elems(path), Run(p, path).value.points);
    forall key | key in r
      ensures exists q :: Run(p, q).Some? && q != [] && Elems(q) == key && Run(p, q).value.points == r[key]
    {
      if key == Elems(path) && r[key] == Run(p, path).value.points {
        assert Run(p, path).Some? && path != [] && Elems(path) == key;
      }
    }
  }

  /** Opening one more valve, as the search's loop body does it: the move
      and the opening cost `1 + d` minutes, and the valve then releases its
      flow rate for each of the `left` minutes that remain. */
  lemma RunStep(p: Problem, path: seq<nat>, f: nat, time: int, points: int, d: nat, left: int, total: int)
    requires p.Valid() && Run(p, path) == Some(SearchState(time, points))
    requires f < |p.useful| && f !in path
    requires p.distances[Position(p, path)][p.useful[f]] == Finite(d) && 1 + d <= time
    requires left == time - (1 + d) && total == points + p.valves[p.useful[f]].flowRate * left
    ensures Run(p, path + [f]) == Some(SearchState(left, total))
    ensures Position(p, path + [f]) == p.useful[f]
  {
    assert (path + [f])[..|path|] == path;
  }

  /** A valve that is already open, unreachable or too far is not a
      feasible next step. */
  lemma RunStepRefused(p: Problem, path: seq<nat>, f: nat, s: SearchState)
    requires p.Valid() && Run(p, path) == Some(s) && f < |p.useful|
    requires f in path || !TakesValve(p.distances[Position(p, path)][p.useful[f]], s.timeLeft)
    ensures Run(p, path + [f]).None?
  {
    assert (path + [f])[..|path|] == path;
  }

  lemma GrowsTransitive(a: map<set<nat>, int>, b: map<set<nat>, int>, c: map<set<nat>, int>)
    requires Grows(a, b) && Grows(b, c)
    ensures Grows(a, c)
  {
  }

  lemma RecordedStays(recorded: map<set<nat>, int>, after: map<set<nat>, int>, key: set<nat>, points: int)
    requires Grows(recorded, after) && key in recorded && points <= recorded[key]
    ensures key in after && points <= after[key]
  {
  }

  /** The orders whose next valve is `f` are complete once `path + [f]` is. */
  lemma CompleteStep(p: Problem, path: seq<nat>, f: nat, results: map<set<nat>, int>)
    requires p.Valid() && Run(p, path).Some?
    requires CompleteBelow(p, path, f, results)
    requires Run(p, path + [f]).Some? ==>
      Complete(p, path + [f], results) &&
      Elems(path + [f]) in results && Run(p, path + [f]).value.points <= results[Elems(path + [f])]
    ensures CompleteBelow(p, path, f + 1, results)
  {
    forall q | Run(p, q).Some? && |q| > |path| && q[..|path|] == path && q[|path|] == f
      ensures Elems(q) in results && Run(p, q).value.points <= results[Elems(q)]
    {
      assert q[..|path| + 1] == path + [f];
      RunPrefix(p, q, |path| + 1);
      if |q| == |path| + 1 {
        assert q == path + [f];
      }
    }
  }

  /** Complete below every valve is complete. */
  lemma CompleteAll(p: Problem, path: seq<nat>, results: map<set<nat>, int>)
    requires p.Valid() && CompleteBelow(p, path, |p.useful|, results)
    ensures Complete(p, path, results)
  {
  }

  class MaxPressureSearch {
    const valves: seq<Valve>
    /** The shortest-path matrix, which the search only reads. */
    const distances: seq<seq<Distance>>
    const useful: seq<nat>
    /** The inputs as values, for the specification. */
    ghost const problem: Problem
    var resultsMap: map<set<nat>, int>
    /** The opened valves in the order they were opened, as the insertion
        order of the source's `LinkedHashSet`. */
    var visitedValves: seq<nat>

    ghost predicate Valid()
      reads this
    {
      && problem.Valid()
      && problem.valves == valves
      && problem.useful == useful
      && problem.distances == distances
    }

    constructor (valves: seq<Valve>, distances: seq<seq<Distance>>, useful: seq<nat>, ghost origin: nat, ghost minutes: int)
      requires IsSquare(distances, |valves|)
      requires origin < |valves|
      requires forall k :: 0 <= k < |useful| ==> useful[k] < |valves|
      ensures Valid()
      ensures problem == Problem(valves, distances, useful, origin, minutes)
      ensures resultsMap == map[] && visitedValves == []
    {
      this.valves := valves;
      this.distances := distances;
      this.useful := useful;
      this.problem := Problem(valves, distances, useful, origin, minutes);
      resultsMap := map[];
      visitedValves := [];
    }

    /** Depth-first search from `previous` with `time` minutes left and
        `points` released so far, after opening `visitedValves`: tentatively
        opens each reachable unopened valve, records the pressure under the
        set of opened valves, recurses, and undoes the step. */
    method CalculateMaxPressures(previous: nat, time: int, points: int)
      requires Valid() && problem.minutes >= 0
      requires Run(problem, visitedValves) == Some(SearchState(time, points))
      requires previous == Position(problem, visitedValves)
      requires Sound(problem, resultsMap)
      modifies this
      ensures Valid()
      ensures visitedValves == old(visitedValves)
      ensures Sound(problem, resultsMap)
      ensures Grows(old(resultsMap), resultsMap)
      ensures Complete(problem, visitedValves, resultsMap)
      decreases time
    {
      var currentPoints := points;
      var timeLeft := time;
      ghost var path := visitedValves;
      for f := 0 to |useful|
        invariant Valid()
        invariant currentPoints == points && timeLeft == time && visitedValves == path
        invariant Sound(problem, resultsMap)
        invariant Grows(old(resultsMap), resultsMap)
        invariant CompleteBelow(problem, path, f, resultsMap)
      {
        ghost var before := resultsMap;
        var valveIndex := useful[f];
        var distance := distances[previous][valveIndex];
        assert distance == problem.distances[Position(problem, path)][problem.useful[f]];
        if f !in visitedValves && distance.Finite? && 1 + distance.steps <= timeLeft {
          var timeRequired := 1 + distance.steps;
          timeLeft := timeLeft - timeRequired;
          currentPoints := currentPoints + valves[valveIndex].flowRate * timeLeft;
          RunStep(problem, path, f, time, points, distance.steps, timeLeft, currentPoints);
          visitedValves := visitedValves + [f];
          ghost var next := visitedValves;
          var valvesBitmap := Elems(visitedValves);
          RecordSound(problem, resultsMap, visitedValves);
          RecordGrows(resultsMap, valvesBitmap, currentPoints);
          resultsMap := Record(resultsMap, valvesBitmap, currentPoints);
          ghost var recorded := resultsMap;
          CalculateMaxPressures(valveIndex, timeLeft, currentPoints);
          RecordedStays(recorded, resultsMap, valvesBitmap, currentPoints);
          GrowsTransitive(before, recorded, resultsMap);
          GrowsTransitive(old(resultsMap), before, resultsMap);
          assert next[..|path|] == path;
          visitedValves := visitedValves[..|visitedValves| - 1];
          currentPoints := currentPoints - valves[valveIndex].flowRate * timeLeft;
          timeLeft := timeLeft + timeRequired;
        } else {
          RunStepRefused(problem, path, f, SearchState(timeLeft, currentPoints));
        }
        CompleteStep(problem, path, f, resultsMap);
      }
      CompleteAll(problem, path, resultsMap);
    }
  }

  /** The results map of one search from valve "AA" with `minutes` minutes. */
  method Play(valves: seq<Valve>, minutes: nat) returns (results: map<set<nat>, int>, ghost p: Problem)
    requires WellFormed(valves) && IndexOf(valves, OriginName) >= 0
    ensures p.Valid() && p.valves == valves && p.useful == UsefulValves(valves)
    ensures p.origin == IndexOf(valves, OriginName) && p.minutes == minutes
    ensures IsShortestPathMatrix(valves, p.distances)
    ensures Sound(p, results) && Complete(p, [], results)
  {
    var originValve := IndexOf(valves, OriginName);
    var distances := Floyd(valves);
    var useful := UsefulValves(valves);
    var search := new MaxPressureSearch(valves, Snapshot(distances), useful, originValve, minutes);
    search.CalculateMaxPressures(originValve, minutes, 0);
    results := search.resultsMap;
    p := search.problem;
  }

  // ---------------------------------------------------------------------
  // Answers
  // ---------------------------------------------------------------------

  /** Part one: the best value over all keys (`values.max()`, which fails on
      an empty map). */
  ghost function Part1(results: map<set<nat>, int>): (r: Option<int>)
    ensures r.None? <==> results == map[]
    ensures r.Some? ==> (exists key :: key in results && results[key] == r.value) &&
                        forall key :: key in results ==> results[key] <= r.value
  {
    if results == map[] then None else Some(results[ArgMax(results)])
  }

  /** The ordered pairs of distinct keys with no valve in common (`and`
      of the two bitmaps is `0L`). */
  function DisjointPaths(keys: set<set<nat>>): (pairs: set<(set<nat>, set<nat>)>)
    ensures forall a, b :: (a, b) in pairs <==> a in keys && b in keys && a != b && a !! b
  {
    set a, b | a in keys && b in keys && a != b && a !! b :: (a, b)
  }

  /** Part two: the best summed value over the disjoint pairs (`maxOf`,
      which fails when there is no pair). */
  ghost function Part2(results: map<set<nat>, int>): (r: Option<int>)
    ensures r.None? <==> DisjointPaths(results.Keys) == {}
    ensures r.Some? ==>
      (exists a, b :: (a, b) in DisjointPaths(results.Keys) && results[a] + results[b] == r.value) &&
      forall a, b :: (a, b) in DisjointPaths(results.Keys) ==> results[a] + results[b] <= r.value
  {
    var pairs := DisjointPaths(results.Keys);
    if pairs == {} then None
    else
      var sums := map pair | pair in pairs :: results[pair.0] + results[pair.1];
      assert Pick(pairs) in sums;
      var best := ArgMax(sums);
      assert (best.0, best.1) in pairs && results[best.0] + results[best.1] == sums[best];
      assert forall a, b :: (a, b) in pairs ==> results[a] + results[b] <= sums[best] by {
        forall a, b | (a, b) in pairs
          ensures results[a] + results[b] <= sums[best]
        {
          assert (a, b) in sums;
        }
      }
      Some(sums[best])
  }

  /** Two agents never release more than twice the best single key. */
  lemma Part2AtMostTwicePart1(results: map<set<nat>, int>)
    requires Part2(results).Some?
    ensures Part1(results).Some? && Part2(results).value <= 2 * Part1(results).value
  {
    var a, b :| (a, b) in DisjointPaths(results.Keys) && results[a] + results[b] == Part2(results).value;
  }

  /** No two feasible visit orders that open no valve in common release
      more together than the two-agent answer. */
  lemma Part2Bounds(p: Problem, results: map<set<nat>, int>)
    requires p.Valid() && Complete(p, [], results)
    requires Part2(results).Some?
    ensures forall q1, q2 :: Run(p, q1).Some? && Run(p, q2).Some? && q1 != [] && q2 != [] && Elems(q1) !! Elems(q2) ==>
      Run(p, q1).value.points + Run(p, q2).value.points <= Part2(results).value
  {
    forall q1, q2 | Run(p, q1).Some? && Run(p, q2).Some? && q1 != [] && q2 != [] && Elems(q1) !! Elems(q2)
      ensures Run(p, q1).value.points + Run(p, q2).value.points <= Part2(results).value
    {
      assert q1[..0] == [] && q2[..0] == [];
      assert q1[0] in Elems(q1);
      assert (Elems(q1), Elems(q2)) in DisjointPaths(results.Keys);
    }
  }

  /** The two-agent answer is released by two feasible visit orders that
      open no valve in common. */
  lemma Part2Attained(p: Problem, results: map<set<nat>, int>)
    requires p.Valid() && Sound(p, results)
    requires Part2(results).Some?
    ensures exists q1, q2 ::
      && Run(p, q1).Some? && Run(p, q2).Some? && q1 != [] && q2 != [] && Elems(q1) !! Elems(q2)
      && Run(p, q1).value.points + Run(p, q2).value.points == Part2(results).value
  {
    var a, b := Part2Witness(results);
    var q1 := SoundWitness(p, results, a);
    var q2 := SoundWitness(p, results, b);
    assert Run(p, q1).value.points + Run(p, q2).value.points == Part2(results).value;
  }

  /** A disjoint pair of keys that attains the two-agent answer. */
  lemma Part2Witness(results: map<set<nat>, int>) returns (a: set<nat>, b: set<nat>)
    requires Part2(results).Some?
    ensures a in results && b in results && a != b && a !! b
    ensures results[a] + results[b] == Part2(results).value
  {
    a, b :| (a, b) in DisjointPaths(results.Keys) && results[a] + results[b] == Part2(results).value;
  }

  /** A feasible order behind a recorded key. */
  lemma SoundWitness(p: Problem, results: map<set<nat>, int>, key: set<nat>) returns (q: seq<nat>)
    requires p.Valid() && Sound(p, results) && key in results
    ensures Run(p, q).Some? && q != [] && Elems(q) == key && Run(p, q).value.points == results[key]
  {
    q :| Run(p, q).Some? && q != [] && Elems(q) == key && Run(p, q).value.points == results[key];
  }

  /** Part one's meaning: the best pressure of any single feasible order. */
  lemma Part1Meaning(p: Problem, results: map<set<nat>, int>)
    requires p.Valid() && Sound(p, results) && Complete(p, [], results)
    requires Part1(results).Some?
    ensures forall q :: Run(p, q).Some? && q != [] ==> Run(p, q).value.points <= Part1(results).value
    ensures exists q :: Run(p, q).Some? && q != [] && Run(p, q).value.points == Part1(results).value
  {
    forall q | Run(p, q).Some? && q != []
      ensures Run(p, q).value.points <= Part1(results).value
    {
      assert q[..0] == [];
    }
    var key :| key in results && results[key] == Part1(results).value;
  }

  // ---------------------------------------------------------------------
  // The time check as written, on 32-bit integers
  // ---------------------------------------------------------------------

  /** Kotlin `Int` addition: wraps modulo 2^32. */
  function WrapInt(x: int): (r: int)
    ensures IntMin <= r <= IntMax
  {
    (x - IntMin) % 0x1_0000_0000 + IntMin
  }

  /** The guard `1 + distances[prev][valve] <= timeLeft` as written, on the
      raw matrix where unreachable is `Int.MAX_VALUE`. */
  function TakesValveAsWritten(rawDistance: int, timeLeft: int): bool {
    WrapInt(1 + rawDistance) <= timeLeft
  }

  /** The guard the search uses: an unreachable valve is never taken. */
  function TakesValve(distance: Distance, timeLeft: int): bool {
    distance.Finite? && 1 + distance.steps <= timeLeft
  }

  /** As written, an unreachable valve passes the time check (the sum wraps
      to `Int.MIN_VALUE`) and the time left then wraps to a huge negative
      value; the corrected guard refuses it. */
  lemma UnreachableValveTaken()
    ensures TakesValveAsWritten(IntMax, PartOneMinutes)
    ensures WrapInt(PartOneMinutes - WrapInt(1 + IntMax)) < 0
    ensures !TakesValve(Infinite, PartOneMinutes)
  {
  }

  /** On every reachable valve the two guards agree. */
  lemma GuardsAgreeOnReachable(steps: nat, timeLeft: int)
    requires steps < IntMax
    ensures TakesValveAsWritten(steps, timeLeft) == TakesValve(Finite(steps), timeLeft)
  {
  }
}
