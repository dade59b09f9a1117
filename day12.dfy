/** Hill climbing: a grid of elevations 'a'..'z' with a start 'S' (at
    elevation 'a') and a goal 'E' (at elevation 'z'). A step goes to an
    orthogonal neighbour at most one level higher; a breadth-first search
    finds the fewest steps from the start (part one) or from any lowest
    square (part two) to the goal. */
module Day12 {
  import opened Common

  /** The parsed input: one row of elevation characters per line. */
  type Grid = seq<seq<char>>

  /** A square as (row, column), the source's `Pair<Int, Int>`. */
  datatype Cell = Cell(row: int, col: int)

  predicate Rectangular(grid: Grid) {
    forall i :: 0 <= i < |grid| ==> |grid[i]| == |grid[0]|
  }

  predicate InGrid(grid: Grid, c: Cell) {
    0 <= c.row < |grid| && 0 <= c.col < |grid[c.row]|
  }

  function At(grid: Grid, c: Cell): char
    requires InGrid(grid, c)
  {
    grid[c.row][c.col]
  }

  /** The start square stands at elevation 'a', the goal at 'z'. */
  function TransformElevation(elevation: char): char {
    match elevation
    case 'S' => 'a'
    case 'E' => 'z'
    case _ => elevation
  }

  /** A step may climb at most one level (and descend any number). */
  predicate CheckElevation(from: char, to: char) {
    TransformElevation(to) as int - TransformElevation(from) as int <= 1
  }

  /** The height of a square counted from the lowest level: 'S' and 'a'
      are 0, 'E' and 'z' are 25. */
  function Height(square: char): int {
    if square == 'S' then 0
    else if square == 'E' then 25
    else square as int - 'a' as int
  }

  /** On the puzzle alphabet a step is allowed exactly when the target
      stands at most one level above the square stepped from. */
  lemma ElevationMeaning(from: char, to: char)
    requires from == 'S' || from == 'E' || 'a' <= from <= 'z'
    requires to == 'S' || to == 'E' || 'a' <= to <= 'z'
    ensures CheckElevation(from, to) <==> Height(to) <= Height(from) + 1
    ensures 0 <= Height(from) <= 25 && 0 <= Height(to) <= 25
  {
  }

  /** The two squares share a side. */
  predicate Orthogonal(a: Cell, b: Cell) {
    (a.row == b.row && (a.col == b.col + 1 || a.col + 1 == b.col)) ||
    (a.col == b.col && (a.row == b.row + 1 || a.row + 1 == b.row))
  }

  /** Four distinct candidates, each kept or dropped: the kept ones, in
      order and without repetition. */
  lemma KeptDistinct<T>(a: T, b: T, c: T, d: T, keepA: bool, keepB: bool, keepC: bool, keepD: bool)
    requires a != b && a != c && a != d && b != c && b != d && c != d
    ensures var r := (if keepA then [a] else []) + (if keepB then [b] else []) + (if keepC then [c] else []) + (if keepD then [d] else []);
      (forall x :: x in r <==> (keepA && x == a) || (keepB && x == b) || (keepC && x == c) || (keepD && x == d))
      && (forall i, j :: 0 <= i < j < |r| ==> r[i] != r[j])
  {
  }

  /** The squares orthogonal to `node` inside a rectangular grid: the one
      below, above, right and left of it, where the grid has them. */
  lemma OrthogonalInGrid(grid: Grid, node: Cell, c: Cell)
    requires Rectangular(grid) && InGrid(grid, node)
    ensures InGrid(grid, c) && Orthogonal(node, c) <==>
      (c == Cell(node.row + 1, node.col) && node.row + 1 < |grid|) ||
      (c == Cell(node.row - 1, node.col) && node.row - 1 >= 0) ||
      (c == Cell(node.row, node.col + 1) && node.col + 1 < |grid[node.row]|) ||
      (c == Cell(node.row, node.col - 1) && node.col - 1 >= 0)
  {
  }

  /** The squares one step can reach from `node`, in the order the source
      inserts them into its set: below, above, right, left. */
  function Adjacent(node: Cell, grid: Grid): (r: seq<Cell>)
    requires Rectangular(grid) && InGrid(grid, node)
    ensures forall c :: c in r <==>
      InGrid(grid, c) && Orthogonal(node, c) && CheckElevation(At(grid, node), At(grid, c))
    ensures forall i, j :: 0 <= i < j < |r| ==> r[i] != r[j]
  {
    var here := At(grid, node);
    var down := Cell(node.row + 1, node.col);
    var up := Cell(node.row - 1, node.col);
    var right := Cell(node.row, node.col + 1);
    var left := Cell(node.row, node.col - 1);
    var keepDown := node.row + 1 < |grid| && CheckElevation(here, At(grid, down));
    var keepUp := node.row - 1 >= 0 && CheckElevation(here, At(grid, up));
    var keepRight := node.col + 1 < |grid[node.row]| && CheckElevation(here, At(grid, right));
    var keepLeft := node.col - 1 >= 0 && CheckElevation(here, At(grid, left));
    KeptDistinct(down, up, right, left, keepDown, keepUp, keepRight, keepLeft);
    var r := (if keepDown then [down] else []) + (if keepUp then [up] else []) +
      (if keepRight then [right] else []) + (if keepLeft then [left] else []);
    assert forall c :: c in r <==> InGrid(grid, c) && Orthogonal(node, c) && CheckElevation(here, At(grid, c)) by {
      forall c
        ensures c in r <==> InGrid(grid, c) && Orthogonal(node, c) && CheckElevation(here, At(grid, c))
      {
        OrthogonalInGrid(grid, node, c);
      }
    }
    r
  }

  /** One allowed step. */
  ghost predicate Edge(grid: Grid, a: Cell, b: Cell)
    requires Rectangular(grid)
  {
    InGrid(grid, a) && b in Adjacent(a, grid)
  }

  /** A sequence of squares each one allowed step from the one before. */
  ghost predicate IsWalk(grid: Grid, path: seq<Cell>)
    requires Rectangular(grid)
  {
    |path| >= 1 && forall k :: 0 <= k < |path| - 1 ==> Edge(grid, path[k], path[k + 1])
  }

  /** `target` can be reached from `source` in exactly `n` steps. */
  ghost predicate Reach(grid: Grid, source: Cell, target: Cell, n: nat)
    requires Rectangular(grid)
  {
    exists path :: |path| == n + 1 && path[0] == source && path[n] == target && IsWalk(grid, path)
  }

  /** `d` is the fewest steps from `source` to `target`, or `Infinite`
      when no walk connects them: the reference the search is held to. */
  ghost predicate ShortestDistance(grid: Grid, source: Cell, target: Cell, d: Distance)
    requires Rectangular(grid)
  {
    match d
    case Finite(n) => Reach(grid, source, target, n) && forall m :: 0 <= m < n ==> !Reach(grid, source, target, m)
    case Infinite => forall m: nat :: !Reach(grid, source, target, m)
  }

  /** The shortest distance between two squares is unique. */
  lemma ShortestUnique(grid: Grid, source: Cell, target: Cell, d1: Distance, d2: Distance)
    requires Rectangular(grid)
    requires ShortestDistance(grid, source, target, d1) && ShortestDistance(grid, source, target, d2)
    ensures d1 == d2
  {
  }

  lemma ReachStart(grid: Grid, start: Cell)
    requires Rectangular(grid)
    ensures Reach(grid, start, start, 0)
  {
    assert IsWalk(grid, [start]);
  }

  /** A walk to `p` followed by one allowed step is a walk to `q`. */
  lemma ReachStep(grid: Grid, start: Cell, p: Cell, q: Cell, n: nat)
    requires Rectangular(grid)
    requires Reach(grid, start, p, n) && Edge(grid, p, q)
    ensures Reach(grid, start, q, n + 1)
  {
    var path :| |path| == n + 1 && path[0] == start && path[n] == p && IsWalk(grid, path);
    var longer := path + [q];
    assert forall k :: 0 <= k < |longer| - 1 ==> longer[k] == path[k];
    assert IsWalk(grid, longer);
  }

  // ---------------------------------------------------------------------
  // The breadth-first search, and the facts its loop keeps.
  // ---------------------------------------------------------------------

  /** Every square of the grid. */
  function AllCells(grid: Grid): set<Cell> {
    set i, j | 0 <= i < |grid| && 0 <= j < |grid[i]| :: Cell(i, j)
  }

  /** The distance recorded for `c`, read as a number (0 for a square
      still at the sentinel). */
  function Level(distances: map<Cell, Distance>, c: Cell): nat {
    if c in distances && distances[c].Finite? then distances[c].steps else 0
  }

  predicate Distinct(s: seq<Cell>) {
    forall i, j :: 0 <= i < j < |s| ==> s[i] != s[j]
  }

  /** Distinct squares drawn from `cells` are at most as many as it has. */
  lemma {:induction false} DistinctWithin(s: seq<Cell>, cells: set<Cell>)
    requires Distinct(s) && forall c :: c in s ==> c in cells
    ensures |s| <= |cells|
  {
    if s != [] {
      var last := s[|s| - 1];
      var rest := s[..|s| - 1];
      assert forall c :: c in rest ==> c in cells - {last} by {
        forall c | c in rest
          ensures c in cells - {last}
        {
          var i :| 0 <= i < |rest| && rest[i] == c;
          assert s[i] == c;
        }
      }
      DistinctWithin(rest, cells - {last});
    }
  }

  /** Every square ever enqueued, in order, appears once, is marked
      visited, and the visited set holds nothing else. */
  ghost predicate Enqueued(grid: Grid, start: Cell, enqueued: seq<Cell>, visited: set<Cell>) {
    && |enqueued| > 0 && enqueued[0] == start
    && Distinct(enqueued)
    && (forall c :: c in visited <==> c in enqueued)
    && (forall c :: c in visited ==> InGrid(grid, c))
  }

  /** Distances along the order of discovery never decrease, and the
      newest is at most one more than `bound`'s. */
  ghost predicate Layered(enqueued: seq<Cell>, distances: map<Cell, Distance>, bound: Cell) {
    && (forall i, j :: 0 <= i <= j < |enqueued| ==> Level(distances, enqueued[i]) <= Level(distances, enqueued[j]))
    && (|enqueued| > 0 ==> Level(distances, enqueued[|enqueued| - 1]) <= Level(distances, bound) + 1)
  }

  /** Every square one step from `p` is visited, at most one further. */
  ghost predicate Closed(grid: Grid, p: Cell, visited: set<Cell>, distances: map<Cell, Distance>)
    requires Rectangular(grid)
  {
    InGrid(grid, p) &&
    forall q :: q in Adjacent(p, grid) ==> q in visited && Level(distances, q) <= Level(distances, p) + 1
  }

  /** The first `count` squares taken off the queue are closed. */
  ghost predicate Explored(grid: Grid, enqueued: seq<Cell>, count: nat, visited: set<Cell>, distances: map<Cell, Distance>)
    requires Rectangular(grid)
  {
    count <= |enqueued| &&
    forall i :: 0 <= i < count ==> Closed(grid, enqueued[i], visited, distances)
  }

  /** What the three maps say: every square of the grid has a distance,
      the sentinel exactly off the visited set; the start is at 0; every
      visited square is reachable in its recorded number of steps, and
      every other visited square has a parent one step before it. */
  ghost predicate Recorded(grid: Grid, start: Cell, visited: set<Cell>, distances: map<Cell, Distance>, parents: map<Cell, Cell>)
    requires Rectangular(grid)
  {
    RecordedDistances(grid, start, visited, distances) && RecordedParents(grid, start, visited, distances, parents)
  }

  ghost predicate RecordedDistances(grid: Grid, start: Cell, visited: set<Cell>, distances: map<Cell, Distance>)
    requires Rectangular(grid)
  {
    && (forall c :: InGrid(grid, c) ==> c in distances)
    && (forall c :: c in distances ==> (c in visited <==> distances[c].Finite?))
    && start in distances && distances[start] == Finite(0)
    && (forall c :: c in visited ==> Reach(grid, start, c, Level(distances, c)))
  }

  ghost predicate RecordedParents(grid: Grid, start: Cell, visited: set<Cell>, distances: map<Cell, Distance>, parents: map<Cell, Cell>)
    requires Rectangular(grid)
  {
    forall c :: c in visited && c != start ==>
      c in parents && parents[c] in visited && Edge(grid, parents[c], c) &&
      Level(distances, c) == Level(distances, parents[c]) + 1
  }

  /** Sets every square of the grid to the unreachable sentinel. */
  method InitialDistances(grid: Grid) returns (distances: map<Cell, Distance>)
    ensures forall c :: c in distances <==> InGrid(grid, c)
    ensures forall c :: c in distances ==> distances[c] == Infinite
  {
    distances := map[];
    for i := 0 to |grid|
      invariant forall c :: c in distances <==> 0 <= c.row < i && 0 <= c.col < |grid[c.row]|
      invariant forall c :: c in distances ==> distances[c] == Infinite
    {
      for j := 0 to |grid[i]|
        invariant forall c :: c in distances <==>
          (0 <= c.row < i && 0 <= c.col < |grid[c.row]|) || (c.row == i && 0 <= c.col < j)
        invariant forall c :: c in distances ==> distances[c] == Infinite
      {
        distances := distances[Cell(i, j) := Infinite];
      }
    }
  }

  /** Discovering `edge`: it is queued once and becomes visited. */
  lemma DiscoverEnqueued(grid: Grid, start: Cell, enqueued: seq<Cell>, visited: set<Cell>, edge: Cell)
    requires Enqueued(grid, start, enqueued, visited)
    requires edge !in visited && InGrid(grid, edge)
    ensures Enqueued(grid, start, enqueued + [edge], visited + {edge})
  {
    var enqueued' := enqueued + [edge];
    forall i, j | 0 <= i < j < |enqueued'|
      ensures enqueued'[i] != enqueued'[j]
    {
      if j == |enqueued| {
        assert enqueued'[i] == enqueued[i] && enqueued[i] in visited;
      } else {
        assert enqueued'[i] == enqueued[i] && enqueued'[j] == enqueued[j];
      }
    }
  }

  /** Discovering `edge` one step beyond `node` keeps the layers in order. */
  lemma DiscoverLayered(enqueued: seq<Cell>, distances: map<Cell, Distance>, node: Cell, edge: Cell)
    requires Layered(enqueued, distances, node)
    requires edge !in enqueued
    ensures Layered(enqueued + [edge], distances[edge := Finite(Level(distances, node) + 1)], node)
  {
    var d := Level(distances, node) + 1;
    var enqueued' := enqueued + [edge];
    var distances' := distances[edge := Finite(d)];
    assert node != edge ==> Level(distances', node) == Level(distances, node);
    forall i, j | 0 <= i <= j < |enqueued'|
      ensures Level(distances', enqueued'[i]) <= Level(distances', enqueued'[j])
    {
      assert i < |enqueued| ==> enqueued'[i] == enqueued[i] && enqueued[i] != edge;
      assert j < |enqueued| ==> enqueued'[j] == enqueued[j] && enqueued[j] != edge;
      if i < |enqueued| {
        assert Level(distances, enqueued[i]) <= Level(distances, enqueued[|enqueued| - 1]);
      }
    }
  }

  /** Discovering a square that was not visited leaves closed squares
      closed: none of them has it as a neighbour. */
  lemma DiscoverExplored(grid: Grid, enqueued: seq<Cell>, count: nat, visited: set<Cell>,
                         distances: map<Cell, Distance>, edge: Cell, d: nat)
    requires Rectangular(grid)
    requires Explored(grid, enqueued, count, visited, distances)
    requires edge !in visited && edge !in enqueued
    ensures Explored(grid, enqueued + [edge], count, visited + {edge}, distances[edge := Finite(d)])
  {
    var distances' := distances[edge := Finite(d)];
    forall i | 0 <= i < count
      ensures Closed(grid, (enqueued + [edge])[i], visited + {edge}, distances')
    {
      var p := enqueued[i];
      assert (enqueued + [edge])[i] == p;
      assert Closed(grid, p, visited, distances);
      forall q | q in Adjacent(p, grid)
        ensures q in visited + {edge} && Level(distances', q) <= Level(distances', p) + 1
      {
        assert q in visited && q != edge && p != edge;
      }
    }
  }

  /** Discovering `edge` from the visited square `node` records a walk
      one step longer and `node` as the parent. */
  lemma DiscoverRecorded(grid: Grid, start: Cell, visited: set<Cell>, distances: map<Cell, Distance>,
                         parents: map<Cell, Cell>, node: Cell, edge: Cell)
    requires Rectangular(grid)
    requires Recorded(grid, start, visited, distances, parents)
    requires node in visited && edge !in visited && InGrid(grid, node) && edge in Adjacent(node, grid)
    ensures Recorded(grid, start, visited + {edge}, distances[edge := Finite(Level(distances, node) + 1)], parents[edge := node])
  {
    DiscoverDistances(grid, start, visited, distances, node, edge);
    DiscoverParents(grid, start, visited, distances, parents, node, edge);
  }

  lemma DiscoverDistances(grid: Grid, start: Cell, visited: set<Cell>, distances: map<Cell, Distance>, node: Cell, edge: Cell)
    requires Rectangular(grid)
    requires RecordedDistances(grid, start, visited, distances)
    requires node in visited && edge !in visited && InGrid(grid, node) && edge in Adjacent(node, grid)
    ensures RecordedDistances(grid, start, visited + {edge}, distances[edge := Finite(Level(distances, node) + 1)])
  {
    var distances' := distances[edge := Finite(Level(distances, node) + 1)];
    assert edge in distances;
    ReachStep(grid, start, node, edge, Level(distances, node));
    forall c | c in visited + {edge}
      ensures Reach(grid, start, c, Level(distances', c))
    {
      if c != edge {
        assert Level(distances', c) == Level(distances, c);
      }
    }
  }

  lemma DiscoverParents(grid: Grid, start: Cell, visited: set<Cell>, distances: map<Cell, Distance>,
                        parents: map<Cell, Cell>, node: Cell, edge: Cell)
    requires Rectangular(grid)
    requires RecordedParents(grid, start, visited, distances, parents) && start in visited
    requires node in visited && edge !in visited && InGrid(grid, node) && edge in Adjacent(node, grid)
    ensures RecordedParents(grid, start, visited + {edge}, distances[edge := Finite(Level(distances, node) + 1)], parents[edge := node])
  {
    var visited' := visited + {edge};
    var distances' := distances[edge := Finite(Level(distances, node) + 1)];
    var parents' := parents[edge := node];
    forall c | c in visited' && c != start
      ensures c in parents' && parents'[c] in visited' && Edge(grid, parents'[c], c)
      ensures Level(distances', c) == Level(distances', parents'[c]) + 1
    {
      if c != edge {
        assert parents'[c] == parents[c] && parents[c] != edge;
        assert Level(distances', c) == Level(distances, c);
        assert Level(distances', parents[c]) == Level(distances, parents[c]);
      } else {
        assert Level(distances', node) == Level(distances, node);
      }
    }
  }

  /** The walk argument behind optimality: along a walk from the start
      whose first `k` squares are all closed, square `k` is visited with a
      recorded distance of at most `k`. */
  lemma {:induction false} ClosedPrefix(grid: Grid, start: Cell, enqueued: seq<Cell>, count: nat, visited: set<Cell>,
                                        distances: map<Cell, Distance>, parents: map<Cell, Cell>, path: seq<Cell>, k: nat)
    requires Rectangular(grid)
    requires Enqueued(grid, start, enqueued, visited)
    requires Explored(grid, enqueued, count, visited, distances)
    requires Recorded(grid, start, visited, distances, parents)
    requires IsWalk(grid, path) && path[0] == start && k < |path|
    requires forall j :: 0 <= j < k ==> path[j] in enqueued[..count]
    ensures path[k] in visited && Level(distances, path[k]) <= k
  {
    if k == 0 {
      assert start in enqueued;
    } else {
      ClosedPrefix(grid, start, enqueued, count, visited, distances, parents, path, k - 1);
      assert path[k - 1] in enqueued[..count];
      var i :| 0 <= i < count && enqueued[i] == path[k - 1];
      assert Closed(grid, enqueued[i], visited, distances);
      assert Edge(grid, path[k - 1], path[k]);
    }
  }

  /** The first square of `path` outside `processed`, when the last one is. */
  lemma FirstOutside(path: seq<Cell>, processed: seq<Cell>) returns (k: nat)
    requires |path| > 0 && path[|path| - 1] !in processed
    ensures k < |path| && path[k] !in processed
    ensures forall j :: 0 <= j < k ==> path[j] in processed
  {
    k := 0;
    while path[k] in processed
      invariant k < |path|
      invariant forall j :: 0 <= j < k ==> path[j] in processed
      decreases |path| - k
    {
      k := k + 1;
    }
  }

  /** When the goal is the square just taken off the queue, no walk to it
      is shorter than its recorded distance. */
  lemma WalkNotShorter(grid: Grid, start: Cell, enqueued: seq<Cell>, head: nat, visited: set<Cell>,
                       distances: map<Cell, Distance>, parents: map<Cell, Cell>, end: Cell, path: seq<Cell>)
    requires Rectangular(grid)
    requires 0 < head <= |enqueued| && enqueued[head - 1] == end
    requires Enqueued(grid, start, enqueued, visited)
    requires Layered(enqueued, distances, end)
    requires Explored(grid, enqueued, head - 1, visited, distances)
    requires Recorded(grid, start, visited, distances, parents)
    requires IsWalk(grid, path) && path[0] == start && path[|path| - 1] == end
    ensures Level(distances, end) <= |path| - 1
  {
    var processed := enqueued[..head - 1];
    assert end !in processed;
    var k := FirstOutside(path, processed);
    ClosedPrefix(grid, start, enqueued, head - 1, visited, distances, parents, path, k);
    var i :| 0 <= i < |enqueued| && enqueued[i] == path[k];
    assert forall j :: 0 <= j < head - 1 ==> processed[j] == enqueued[j];
    assert Level(distances, end) <= Level(distances, path[k]);
  }

  /** So the goal's recorded distance is its shortest distance. */
  lemma FoundIsShortest(grid: Grid, start: Cell, enqueued: seq<Cell>, head: nat, visited: set<Cell>,
                        distances: map<Cell, Distance>, parents: map<Cell, Cell>, end: Cell)
    requires Rectangular(grid)
    requires 0 < head <= |enqueued| && enqueued[head - 1] == end
    requires Enqueued(grid, start, enqueued, visited)
    requires Layered(enqueued, distances, end)
    requires Explored(grid, enqueued, head - 1, visited, distances)
    requires Recorded(grid, start, visited, distances, parents)
    ensures ShortestDistance(grid, start, end, distances[end])
  {
    assert end in visited;
    forall m: nat | Reach(grid, start, end, m)
      ensures Level(distances, end) <= m
    {
      var path :| |path| == m + 1 && path[0] == start && path[m] == end && IsWalk(grid, path);
      WalkNotShorter(grid, start, enqueued, head, visited, distances, parents, end, path);
    }
  }

  /** Once every visited square is closed and the goal was never visited,
      no walk reaches the goal. */
  lemma DrainedIsUnreachable(grid: Grid, start: Cell, enqueued: seq<Cell>, visited: set<Cell>,
                             distances: map<Cell, Distance>, parents: map<Cell, Cell>, end: Cell)
    requires Rectangular(grid)
    requires Enqueued(grid, start, enqueued, visited)
    requires Explored(grid, enqueued, |enqueued|, visited, distances)
    requires Recorded(grid, start, visited, distances, parents)
    requires end !in visited
    ensures forall m: nat :: !Reach(grid, start, end, m)
  {
    forall m: nat | Reach(grid, start, end, m)
      ensures false
    {
      var path :| |path| == m + 1 && path[0] == start && path[m] == end && IsWalk(grid, path);
      assert enqueued[..|enqueued|] == enqueued;
      var k := FirstOutside(path, enqueued);
      ClosedPrefix(grid, start, enqueued, |enqueued|, visited, distances, parents, path, k);
    }
  }

  /** Every square of `edges` is visited, at most one step beyond `node`. */
  ghost predicate Handled(edges: seq<Cell>, visited: set<Cell>, distances: map<Cell, Distance>, node: Cell) {
    forall c :: c in edges ==> c in visited && Level(distances, c) <= Level(distances, node) + 1
  }

  lemma HandledNew(edges: seq<Cell>, visited: set<Cell>, distances: map<Cell, Distance>, node: Cell, edge: Cell)
    requires Handled(edges, visited, distances, node)
    requires node in visited && edge !in visited
    ensures Handled(edges + [edge], visited + {edge}, distances[edge := Finite(Level(distances, node) + 1)], node)
  {
    var distances' := distances[edge := Finite(Level(distances, node) + 1)];
    assert Level(distances', node) == Level(distances, node);
    forall c | c in edges + [edge]
      ensures c in visited + {edge} && Level(distances', c) <= Level(distances', node) + 1
    {
      if c != edge {
        assert c in edges;
      }
    }
  }

  lemma HandledSeen(edges: seq<Cell>, enqueued: seq<Cell>, visited: set<Cell>, distances: map<Cell, Distance>, node: Cell, edge: Cell)
    requires Handled(edges, visited, distances, node)
    requires Layered(enqueued, distances, node)
    requires forall c :: c in visited <==> c in enqueued
    requires edge in visited
    ensures Handled(edges + [edge], visited, distances, node)
  {
    var i :| 0 <= i < |enqueued| && enqueued[i] == edge;
    assert Level(distances, edge) <= Level(distances, enqueued[|enqueued| - 1]);
  }

  lemma SliceNext(s: seq<Cell>, i: nat)
    requires i < |s|
    ensures s[..i + 1] == s[..i] + [s[i]]
  {
  }

  lemma AppendSlices(s: seq<Cell>, x: Cell, from: nat, prefix: nat)
    requires from <= |s| && prefix <= |s|
    ensures (s + [x])[from..] == s[from..] + [x]
    ensures (s + [x])[..prefix] == s[..prefix]
  {
  }

  /** The search right after the start square is queued. */
  lemma InitialSearch(grid: Grid, start: Cell, initial: map<Cell, Distance>)
    requires Rectangular(grid) && InGrid(grid, start)
    requires forall c :: c in initial <==> InGrid(grid, c)
    requires forall c :: c in initial ==> initial[c] == Infinite
    requires Reach(grid, start, start, 0)
    ensures Enqueued(grid, start, [start], {start})
    ensures Layered([start], initial[start := Finite(0)], start)
    ensures Explored(grid, [start], 0, {start}, initial[start := Finite(0)])
    ensures Recorded(grid, start, {start}, initial[start := Finite(0)], map[])
    ensures start !in [start][..0] && |[start]| <= |AllCells(grid)|
  {
    EnqueuedBound(grid, start, [start], {start});
  }

  lemma EnqueuedBound(grid: Grid, start: Cell, enqueued: seq<Cell>, visited: set<Cell>)
    requires Enqueued(grid, start, enqueued, visited)
    ensures |enqueued| <= |AllCells(grid)|
  {
    forall c | c in enqueued
      ensures c in AllCells(grid)
    {
      assert c in visited && InGrid(grid, c);
    }
    DistinctWithin(enqueued, AllCells(grid));
  }

  /** The next square in the queue bounds the newest one as well. */
  lemma LayeredAdvance(enqueued: seq<Cell>, distances: map<Cell, Distance>, head: nat)
    requires 0 < head < |enqueued|
    requires Layered(enqueued, distances, enqueued[head - 1])
    ensures Layered(enqueued, distances, enqueued[head])
  {
    assert Level(distances, enqueued[head - 1]) <= Level(distances, enqueued[head]);
  }

  /** The state of the search while the squares next to `node`, the
      `head`-th square taken off the queue, are examined. */
  ghost predicate Discovering(grid: Grid, start: Cell, node: Cell, enqueued: seq<Cell>, head: nat, visited: set<Cell>,
                              distances: map<Cell, Distance>, parents: map<Cell, Cell>)
  {
    && Rectangular(grid)
    && 0 < head <= |enqueued| && enqueued[head - 1] == node
    && Enqueued(grid, start, enqueued, visited)
    && Layered(enqueued, distances, node)
    && Explored(grid, enqueued, head - 1, visited, distances)
    && Recorded(grid, start, visited, distances, parents)
  }

  /** One turn of the inner loop: `edge`, a square one step from `node`,
      is marked visited, given a distance and a parent, and queued unless
      it was visited before. */
  method Visit(grid: Grid, start: Cell, node: Cell, edge: Cell, queue: seq<Cell>, visited: set<Cell>,
               distances: map<Cell, Distance>, parents: map<Cell, Cell>,
               ghost enqueued: seq<Cell>, ghost head: nat, ghost handled: seq<Cell>)
    returns (queue': seq<Cell>, visited': set<Cell>, distances': map<Cell, Distance>, parents': map<Cell, Cell>,
             ghost enqueued': seq<Cell>)
    requires Discovering(grid, start, node, enqueued, head, visited, distances, parents)
    requires queue == enqueued[head..]
    requires edge in Adjacent(node, grid)
    requires Handled(handled, visited, distances, node)
    ensures Discovering(grid, start, node, enqueued', head, visited', distances', parents')
    ensures queue' == enqueued'[head..] && enqueued'[..head] == enqueued[..head]
    ensures Handled(handled + [edge], visited', distances', node)
  {
    queue', visited', distances', parents', enqueued' := queue, visited, distances, parents, enqueued;
    if edge !in visited {
      assert node in visited && InGrid(grid, node) && InGrid(grid, edge);
      var d := Level(distances, node) + 1;
      DiscoverEnqueued(grid, start, enqueued, visited, edge);
      DiscoverLayered(enqueued, distances, node, edge);
      DiscoverExplored(grid, enqueued, head - 1, visited, distances, edge, d);
      DiscoverRecorded(grid, start, visited, distances, parents, node, edge);
      AppendSlices(enqueued, edge, head, head);
      HandledNew(handled, visited, distances, node, edge);
      visited' := visited + {edge};
      distances' := distances[edge := Finite(d)];
      parents' := parents[edge := node];
      queue' := queue + [edge];
      enqueued' := enqueued + [edge];
      assert enqueued'[head - 1] == node;
    } else {
      HandledSeen(handled, enqueued, visited, distances, node, edge);
    }
  }

  /** The source's inner loop: adds the not yet visited squares one step
      from `node`, after which `node` is closed. */
  method Discover(grid: Grid, start: Cell, node: Cell, queue: seq<Cell>, visited: set<Cell>,
                  distances: map<Cell, Distance>, parents: map<Cell, Cell>,
                  ghost enqueued: seq<Cell>, ghost head: nat)
    returns (queue': seq<Cell>, visited': set<Cell>, distances': map<Cell, Distance>, parents': map<Cell, Cell>,
             ghost enqueued': seq<Cell>)
    requires Discovering(grid, start, node, enqueued, head, visited, distances, parents)
    requires queue == enqueued[head..]
    ensures Discovering(grid, start, node, enqueued', head, visited', distances', parents')
    ensures queue' == enqueued'[head..] && enqueued'[..head] == enqueued[..head]
    ensures Explored(grid, enqueued', head, visited', distances')
  {
    queue', visited', distances', parents', enqueued' := queue, visited, distances, parents, enqueued;
    var edges := Adjacent(node, grid);
    for i := 0 to |edges|
      invariant Discovering(grid, start, node, enqueued', head, visited', distances', parents')
      invariant queue' == enqueued'[head..] && enqueued'[..head] == enqueued[..head]
      invariant Handled(edges[..i], visited', distances', node)
    {
      queue', visited', distances', parents', enqueued' :=
        Visit(grid, start, node, edges[i], queue', visited', distances', parents', enqueued', head, edges[..i]);
      SliceNext(edges, i);
    }
    assert edges[..|edges|] == edges;
    CloseNode(grid, start, node, enqueued', head, visited', distances', parents');
  }

  /** Once every square next to `node` is handled, `node` is closed too. */
  lemma CloseNode(grid: Grid, start: Cell, node: Cell, enqueued: seq<Cell>, head: nat, visited: set<Cell>,
                  distances: map<Cell, Distance>, parents: map<Cell, Cell>)
    requires Discovering(grid, start, node, enqueued, head, visited, distances, parents)
    requires Handled(Adjacent(node, grid), visited, distances, node)
    ensures Explored(grid, enqueued, head, visited, distances)
  {
    assert node in visited;
    assert Closed(grid, node, visited, distances);
  }

  /** The source's `bfs`: the search from `start`, stopping as soon as
      `end` is taken off the queue. Returns the goal when it was found and
      `None` when the queue ran dry, with the visited set, the distance of
      every square (the sentinel for those never reached) and the parent
      of every visited square but the start. */
  method Bfs(start: Cell, end: Cell, grid: Grid)
    returns (found: Option<Cell>, visited: set<Cell>, distances: map<Cell, Distance>, parents: map<Cell, Cell>,
             ghost enqueued: seq<Cell>)
    requires Rectangular(grid) && InGrid(grid, start)
    ensures found == Some(end) || found == None
    ensures found == Some(end) <==> end in visited
    ensures Enqueued(grid, start, enqueued, visited)
    ensures Recorded(grid, start, visited, distances, parents)
    ensures InGrid(grid, end) ==> ShortestDistance(grid, start, end, distances[end])
    ensures found == None ==> forall m: nat :: !Reach(grid, start, end, m)
  {
    var initial := InitialDistances(grid);
    var queue := [start];
    distances := initial[start := Finite(0)];
    visited := {start};
    parents := map[];
    enqueued := [start];
    ghost var head := 0;
    ReachStart(grid, start);
    InitialSearch(grid, start, initial);
    while queue != []
      invariant head <= |enqueued| && queue == enqueued[head..]
      invariant Enqueued(grid, start, enqueued, visited)
      invariant queue != [] ==> Layered(enqueued, distances, enqueued[head])
      invariant Explored(grid, enqueued, head, visited, distances)
      invariant Recorded(grid, start, visited, distances, parents)
      invariant end !in enqueued[..head]
      invariant |enqueued| <= |AllCells(grid)|
      decreases |AllCells(grid)| - head
    {
      var node := queue[0];
      queue := queue[1..];
      head := head + 1;
      if node == end {
        FoundIsShortest(grid, start, enqueued, head, visited, distances, parents, end);
        assert end in enqueued;
        return Some(node), visited, distances, parents, enqueued;
      }
      SliceNext(enqueued, head - 1);
      queue, visited, distances, parents, enqueued :=
        Discover(grid, start, node, queue, visited, distances, parents, enqueued, head);
      EnqueuedBound(grid, start, enqueued, visited);
      if queue != [] {
        LayeredAdvance(enqueued, distances, head);
      }
    }
    assert enqueued[..head] == enqueued;
    DrainedIsUnreachable(grid, start, enqueued, visited, distances, parents, end);
    found := None;
  }

  // ---------------------------------------------------------------------
  // The two parts.
  // ---------------------------------------------------------------------

  /** A search from `start` followed by reading the goal's recorded
      distance, as both parts do. */
  method GoalDistance(start: Cell, end: Cell, grid: Grid) returns (distance: Distance)
    requires Rectangular(grid) && InGrid(grid, start) && InGrid(grid, end)
    ensures ShortestDistance(grid, start, end, distance)
  {
    var _, _, distances, _, _ := Bfs(start, end, grid);
    distance := distances[end];
  }

  /** The source's `indexOf`: the first column of `row` holding `square`,
      or -1. */
  function IndexOf(row: seq<char>, square: char): (r: int)
    ensures -1 <= r < |row|
    ensures r >= 0 ==> row[r] == square && forall j :: 0 <= j < r ==> row[j] != square
    ensures r == -1 ==> forall j :: 0 <= j < |row| ==> row[j] != square
  {
    if row == [] then -1
    else if row[0] == square then 0
    else var rest := IndexOf(row[1..], square);
      if rest == -1 then -1 else rest + 1
  }

  /** The first square holding `square`, in reading order; the source's
      `first { it.second >= 0 }` throws when there is none. */
  function FindSquare(grid: Grid, square: char, from: nat): (r: Option<Cell>)
    requires from <= |grid|
    ensures r.Some? ==> from <= r.value.row && InGrid(grid, r.value) && At(grid, r.value) == square
    ensures r.Some? ==> forall c :: InGrid(grid, c) && from <= c.row && At(grid, c) == square ==>
      r.value.row < c.row || (r.value.row == c.row && r.value.col <= c.col)
    ensures r.None? ==> forall c :: InGrid(grid, c) && from <= c.row ==> At(grid, c) != square
    decreases |grid| - from
  {
    if from == |grid| then None
    else
      var col := IndexOf(grid[from], square);
      if col >= 0 then Some(Cell(from, col)) else FindSquare(grid, square, from + 1)
  }

  /** Part one: the fewest steps from 'S' to 'E' (the sentinel when none
      reaches it); `None` where the source throws for a missing 'S' or 'E'. */
  method Part1(grid: Grid) returns (result: Option<Distance>)
    requires Rectangular(grid)
    ensures result.None? <==> FindSquare(grid, 'S', 0).None? || FindSquare(grid, 'E', 0).None?
    ensures result.Some? ==> ShortestDistance(grid, FindSquare(grid, 'S', 0).value, FindSquare(grid, 'E', 0).value, result.value)
  {
    var startPosition := FindSquare(grid, 'S', 0);
    var endPosition := FindSquare(grid, 'E', 0);
    if startPosition.None? || endPosition.None? {
      return None;
    }
    var distance := GoalDistance(startPosition.value, endPosition.value, grid);
    return Some(distance);
  }

  /** The squares of elevation 'a' (including 'S'), in reading order. */
  function LowSquares(grid: Grid, rows: nat, cols: nat): (r: seq<Cell>)
    requires rows < |grid| && cols <= |grid[rows]|
    ensures forall c :: c in r <==>
      InGrid(grid, c) && (c.row < rows || (c.row == rows && c.col < cols)) && (At(grid, c) == 'S' || At(grid, c) == 'a')
    decreases rows, cols
  {
    if cols > 0 then
      var c := Cell(rows, cols - 1);
      LowSquares(grid, rows, cols - 1) + (if At(grid, c) == 'S' || At(grid, c) == 'a' then [c] else [])
    else if rows > 0 then LowSquares(grid, rows - 1, |grid[rows - 1]|)
    else []
  }

  function AllLowSquares(grid: Grid): seq<Cell> {
    if grid == [] then [] else LowSquares(grid, |grid| - 1, |grid[|grid| - 1]|)
  }

  lemma AllLowSquaresMeaning(grid: Grid)
    ensures forall c :: c in AllLowSquares(grid) <==> InGrid(grid, c) && (At(grid, c) == 'S' || At(grid, c) == 'a')
  {
  }

  /** Part two: the fewest steps to 'E' from any square of elevation 'a'
      (the sentinel when none reaches it); `None` where the source throws
      for a missing 'E'. */
  method Part2(grid: Grid) returns (result: Option<Distance>)
    requires Rectangular(grid)
    ensures result.None? <==> FindSquare(grid, 'E', 0).None?
    ensures result.Some? ==> forall c, d :: c in AllLowSquares(grid) && ShortestDistance(grid, c, FindSquare(grid, 'E', 0).value, d) ==>
      !d.Below(result.value)
    ensures result.Some? && result.value.Finite? ==>
      exists c :: c in AllLowSquares(grid) && ShortestDistance(grid, c, FindSquare(grid, 'E', 0).value, result.value)
  {
    var startPositions := AllLowSquares(grid);
    AllLowSquaresMeaning(grid);
    var endPosition := FindSquare(grid, 'E', 0);
    if endPosition.None? {
      return None;
    }
    var end := endPosition.value;
    var minDistance := Infinite;
    for i := 0 to |startPositions|
      invariant forall k, d :: 0 <= k < i && ShortestDistance(grid, startPositions[k], end, d) ==> !d.Below(minDistance)
      invariant minDistance.Finite? ==> exists k :: 0 <= k < i && ShortestDistance(grid, startPositions[k], end, minDistance)
    {
      var distance := GoalDistance(startPositions[i], end, grid);
      if distance.Below(minDistance) {
        forall k, d | 0 <= k < i && ShortestDistance(grid, startPositions[k], end, d)
          ensures !d.Below(distance)
        {
          assert !d.Below(minDistance);
        }
        minDistance := distance;
      }
      forall d | ShortestDistance(grid, startPositions[i], end, d)
        ensures !d.Below(minDistance)
      {
        ShortestUnique(grid, startPositions[i], end, d, distance);
      }
    }
    return Some(minDistance);
  }
}
