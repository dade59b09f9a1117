/** Rope bridge: a head knot moved one step at a time, and nine knots
    behind it, each of which follows the knot in front of it. */
module Day09 {
  import opened Common

  /** `NUM_TAILS`: the knots behind the head. */
  const KnotCount := 9

  datatype Position = Position(x: int, y: int)

  const Origin := Position(0, 0)

  datatype Direction = Up | Down | Right | Left

  datatype Motion = Motion(direction: Direction, steps: int)

  /** Two knots touch: they overlap or are neighbours, diagonals included. */
  predicate IsAdjacent(head: Position, tail: Position) {
    Abs(head.x - tail.x) <= 1 && Abs(head.y - tail.y) <= 1
  }

  const Offsets := [-1, 0, 1]

  /** The nine cells of the 3x3 square centred on `p`. */
  function Neighbourhood(p: Position): set<Position> {
    set dx, dy | dx in Offsets && dy in Offsets :: Position(p.x + dx, p.y + dy)
  }

  /** Touching means lying in the 3x3 square around the other knot. */
  lemma AdjacentMeaning(head: Position, tail: Position)
    ensures IsAdjacent(head, tail) <==> tail in Neighbourhood(head)
  {
    if IsAdjacent(head, tail) {
      var dx, dy := tail.x - head.x, tail.y - head.y;
      assert dx in Offsets && dy in Offsets;
      assert tail == Position(head.x + dx, head.y + dy);
    }
  }

  lemma AdjacentSymmetric(a: Position, b: Position)
    ensures IsAdjacent(a, b) <==> IsAdjacent(b, a)
  {
  }

  /** One step of the head: exactly one coordinate changes, by one. */
  function MoveHead(head: Position, direction: Direction): (r: Position)
    ensures Abs(r.x - head.x) + Abs(r.y - head.y) == 1
  {
    match direction
    case Up => head.(y := head.y + 1)
    case Down => head.(y := head.y - 1)
    case Right => head.(x := head.x + 1)
    case Left => head.(x := head.x - 1)
  }

  function Opposite(direction: Direction): Direction {
    match direction
    case Up => Down
    case Down => Up
    case Right => Left
    case Left => Right
  }

  /** A step in the opposite direction undoes a step of the head. */
  lemma MoveHeadUndone(head: Position, direction: Direction)
    ensures MoveHead(MoveHead(head, direction), Opposite(direction)) == head
  {
  }

  /** A head step keeps the head touching where it was. */
  lemma MoveHeadAdjacent(head: Position, direction: Direction)
    ensures IsAdjacent(head, MoveHead(head, direction))
  {
  }

  /** One unit toward `target` along one axis. */
  function Toward(from: int, target: int): int {
    if target > from then from + 1 else from - 1
  }

  /** A knot catching up with the knot in front of it: it stays when they
      touch, moves straight when they share a row or column two apart, and
      moves diagonally when they differ in both coordinates. */
  function MoveKnot(previous: Position, tail: Position): (r: Position)
    ensures IsAdjacent(previous, tail) ==> r == tail
    ensures IsAdjacent(tail, r)
    ensures Abs(previous.x - r.x) <= Abs(previous.x - tail.x)
    ensures Abs(previous.y - r.y) <= Abs(previous.y - tail.y)
  {
    if IsAdjacent(previous, tail) then tail
    else if previous.y == tail.y && Abs(previous.x - tail.x) == 2 then
      tail.(x := Toward(tail.x, previous.x))
    else if previous.x == tail.x && Abs(previous.y - tail.y) == 2 then
      tail.(y := Toward(tail.y, previous.y))
    else if Abs(previous.x - tail.x) >= 1 && Abs(previous.y - tail.y) >= 1 then
      Position(Toward(tail.x, previous.x), Toward(tail.y, previous.y))
    else
      tail
  }

  /** A knot that touched the knot in front of it before that knot moved by
      at most one in each coordinate touches it again after its own move. */
  lemma CatchUp(oldPrevious: Position, newPrevious: Position, tail: Position)
    requires IsAdjacent(oldPrevious, tail)
    requires IsAdjacent(oldPrevious, newPrevious)
    ensures IsAdjacent(newPrevious, MoveKnot(newPrevious, tail))
  {
  }

  /** The knot in front of knot `i`: the leader for the first one. */
  function Predecessor(leader: Position, knots: seq<Position>, i: nat): Position
    requires i < |knots|
  {
    if i == 0 then leader else knots[i - 1]
  }

  /** The knots moved one after the other, each after the one in front of
      it has already moved. */
  function Follow(leader: Position, knots: seq<Position>): (r: seq<Position>)
    ensures |r| == |knots|
    decreases knots
  {
    if knots == [] then []
    else
      var first := MoveKnot(leader, knots[0]);
      [first] + Follow(first, knots[1..])
  }

  /** Knot `i` of the moved rope is knot `i` moved after its already moved
      predecessor. */
  lemma {:induction false} FollowAt(leader: Position, knots: seq<Position>, i: nat)
    requires i < |knots|
    ensures Follow(leader, knots)[i] == MoveKnot(Predecessor(leader, Follow(leader, knots), i), knots[i])
    decreases i
  {
    if i > 0 {
      var first := MoveKnot(leader, knots[0]);
      FollowAt(first, knots[1..], i - 1);
    }
  }

  /** Every knot touches the knot in front of it. */
  predicate Taut(leader: Position, knots: seq<Position>) {
    forall i :: 0 <= i < |knots| ==> IsAdjacent(Predecessor(leader, knots, i), knots[i])
  }

  /** When the leader moves by at most one in each coordinate, the knots
      that followed it still touch one another after following again. */
  lemma {:induction false} FollowKeepsTaut(oldLeader: Position, newLeader: Position, knots: seq<Position>)
    requires Taut(oldLeader, knots)
    requires IsAdjacent(oldLeader, newLeader)
    ensures Taut(newLeader, Follow(newLeader, knots))
    decreases knots
  {
    if knots != [] {
      var first := MoveKnot(newLeader, knots[0]);
      assert IsAdjacent(oldLeader, knots[0]) by {
        assert Predecessor(oldLeader, knots, 0) == oldLeader;
      }
      CatchUp(oldLeader, newLeader, knots[0]);
      var rest := knots[1..];
      assert Taut(knots[0], rest) by {
        forall i | 0 <= i < |rest|
          ensures IsAdjacent(Predecessor(knots[0], rest, i), rest[i])
        {
          assert Predecessor(knots[0], rest, i) == Predecessor(oldLeader, knots, i + 1);
        }
      }
      FollowKeepsTaut(knots[0], first, rest);
      var moved := Follow(newLeader, knots);
      assert moved == [first] + Follow(first, rest);
      forall i | 0 <= i < |moved|
        ensures IsAdjacent(Predecessor(newLeader, moved, i), moved[i])
      {
        if i > 0 {
          assert Predecessor(newLeader, moved, i) == Predecessor(first, Follow(first, rest), i - 1);
        }
      }
    }
  }

  /** The head and the knots behind it, first to last. */
  datatype Rope = Rope(head: Position, knots: seq<Position>)

  /** `n` knots at the origin. */
  function AtOrigin(n: nat): (r: seq<Position>)
    ensures |r| == n && forall k :: 0 <= k < n ==> r[k] == Origin
  {
    if n == 0 then [] else AtOrigin(n - 1) + [Origin]
  }

  /** All knots at the origin. */
  const InitialRope := Rope(Origin, AtOrigin(KnotCount))

  /** One head step followed by every knot catching up in turn. */
  function Step(rope: Rope, direction: Direction): (r: Rope)
    ensures |r.knots| == |rope.knots|
  {
    var head := MoveHead(rope.head, direction);
    Rope(head, Follow(head, rope.knots))
  }

  /** A step keeps every knot touching its predecessor. */
  lemma StepKeepsTaut(rope: Rope, direction: Direction)
    requires Taut(rope.head, rope.knots)
    ensures Taut(Step(rope, direction).head, Step(rope, direction).knots)
  {
    MoveHeadAdjacent(rope.head, direction);
    FollowKeepsTaut(rope.head, MoveHead(rope.head, direction), rope.knots);
  }

  /** `n` repetitions of one direction (none when `n` is not positive). */
  function Repeat(direction: Direction, n: int): (r: seq<Direction>)
    ensures |r| == if n <= 0 then 0 else n
    ensures forall k :: 0 <= k < |r| ==> r[k] == direction
  {
    if n <= 0 then [] else seq(n, _ => direction)
  }

  /** The single head steps that the motions stand for, in order. */
  function Directions(motions: seq<Motion>): seq<Direction> {
    if motions == [] then []
    else
      var last := motions[|motions| - 1];
      Directions(motions[..|motions| - 1]) + Repeat(last.direction, last.steps)
  }

  /** The rope after all the steps. */
  function Final(start: Rope, directions: seq<Direction>): (r: Rope)
    ensures |r.knots| == |start.knots|
    decreases directions
  {
    if directions == [] then start
    else Step(Final(start, directions[..|directions| - 1]), directions[|directions| - 1])
  }

  /** The rope after each step: one entry per step, the start excluded. */
  function Trace(start: Rope, directions: seq<Direction>): (r: seq<Rope>)
    ensures |r| == |directions|
    ensures forall k :: 0 <= k < |r| ==> |r[k].knots| == |start.knots|
    decreases directions
  {
    if directions == [] then []
    else Trace(start, directions[..|directions| - 1]) + [Final(start, directions)]
  }

  /** Knot `i`'s position after step `k` is that of the rope after the first
      `k + 1` steps. */
  lemma {:induction false} TraceAt(start: Rope, directions: seq<Direction>, k: nat)
    requires k < |directions|
    ensures Trace(start, directions)[k] == Final(start, directions[..k + 1])
    decreases |directions|
  {
    var init := directions[..|directions| - 1];
    if k < |init| {
      TraceAt(start, init, k);
      assert init[..k + 1] == directions[..k + 1];
    } else {
      assert directions[..k + 1] == directions;
    }
  }

  /** The positions knot `i` occupies after the steps of a trace. */
  function Visited(trace: seq<Rope>, i: nat): set<Position> {
    set rope | rope in trace && i < |rope.knots| :: rope.knots[i]
  }

  lemma VisitedAppend(trace: seq<Rope>, rope: Rope, i: nat)
    requires i < |rope.knots|
    ensures Visited(trace + [rope], i) == Visited(trace, i) + {rope.knots[i]}
  {
    assert forall r :: r in trace + [rope] <==> r in trace || r == rope;
  }

  /** Each step adds at most one position to a knot's set. */
  lemma {:induction false} VisitedAtMostSteps(trace: seq<Rope>, i: nat)
    ensures |Visited(trace, i)| <= |trace|
  {
    if trace != [] {
      var init := trace[..|trace| - 1];
      VisitedAtMostSteps(init, i);
      assert trace == init + [trace[|trace| - 1]];
      if i < |trace[|trace| - 1].knots| {
        VisitedAppend(init, trace[|trace| - 1], i);
      } else {
        assert forall r :: r in trace <==> r in init || r == trace[|trace| - 1];
        assert Visited(trace, i) == Visited(init, i);
      }
    }
  }

  /** The rope stays taut after every step. */
  lemma {:induction false} FinalTaut(directions: seq<Direction>)
    ensures Taut(Final(InitialRope, directions).head, Final(InitialRope, directions).knots)
  {
    if directions == [] {
      assert Taut(InitialRope.head, InitialRope.knots);
    } else {
      FinalTaut(directions[..|directions| - 1]);
      StepKeepsTaut(Final(InitialRope, directions[..|directions| - 1]), directions[|directions| - 1]);
    }
  }

  /** After every head step, the first knot touches the head and every
      other knot touches the knot in front of it. */
  lemma TraceTaut(directions: seq<Direction>, k: nat)
    requires k < |directions|
    ensures var rope := Trace(InitialRope, directions)[k];
      && IsAdjacent(rope.head, rope.knots[0])
      && forall i :: 1 <= i < KnotCount ==> IsAdjacent(rope.knots[i - 1], rope.knots[i])
  {
    TraceAt(InitialRope, directions, k);
    FinalTaut(directions[..k + 1]);
    var rope := Trace(InitialRope, directions)[k];
    assert Predecessor(rope.head, rope.knots, 0) == rope.head;
    forall i | 1 <= i < KnotCount
      ensures IsAdjacent(rope.knots[i - 1], rope.knots[i])
    {
      assert Predecessor(rope.head, rope.knots, i) == rope.knots[i - 1];
    }
  }

  /** Every position knot `i + 1` visits touches a position knot `i`
      visits. */
  lemma FollowerShadowsLeader(directions: seq<Direction>, i: nat, p: Position)
    requires i + 1 < KnotCount
    requires p in Visited(Trace(InitialRope, directions), i + 1)
    ensures exists q :: q in Visited(Trace(InitialRope, directions), i) && IsAdjacent(q, p)
  {
    var trace := Trace(InitialRope, directions);
    var k :| 0 <= k < |trace| && trace[k].knots[i + 1] == p;
    TraceTaut(directions, k);
    assert trace[k].knots[i] in Visited(trace, i);
  }

  /** Knot `i` of the rope moved after the head: `tails[i] =
      moveKnot(headPosition, tails, i)` for each `i` in turn, recording
      each new position. */
  method MoveKnots(head: Position, tails: seq<Position>, positions: seq<set<Position>>)
    returns (newTails: seq<Position>, newPositions: seq<set<Position>>)
    requires |positions| == |tails|
    ensures newTails == Follow(head, tails)
    ensures |newPositions| == |tails|
    ensures forall i :: 0 <= i < |tails| ==> newPositions[i] == positions[i] + {newTails[i]}
  {
    newTails := tails;
    newPositions := positions;
    ghost var moved := Follow(head, tails);
    for i := 0 to |tails|
      invariant |newTails| == |tails| && |newPositions| == |tails|
      invariant forall j :: 0 <= j < i ==> newTails[j] == moved[j]
      invariant forall j :: i <= j < |tails| ==> newTails[j] == tails[j]
      invariant forall j :: 0 <= j < i ==> newPositions[j] == positions[j] + {newTails[j]}
      invariant forall j :: i <= j < |tails| ==> newPositions[j] == positions[j]
    {
      var previous := if i == 0 then head else newTails[i - 1];
      FollowAt(head, tails, i);
      newTails := newTails[i := MoveKnot(previous, newTails[i])];
      newPositions := newPositions[i := newPositions[i] + {newTails[i]}];
    }
  }

  /** The rope state and recorded positions agree with the steps taken
      so far. */
  ghost predicate Recorded(head: Position, tails: seq<Position>, positions: seq<set<Position>>, done: seq<Direction>) {
    && Rope(head, tails) == Final(InitialRope, done)
    && |positions| == KnotCount
    && forall i :: 0 <= i < KnotCount ==> positions[i] == Visited(Trace(InitialRope, done), i)
  }

  /** The body of `for (i in 0 until motion.numberOfSteps)`: one head step
      after another, the knots following each. */
  method ExecuteMotion(head: Position, tails: seq<Position>, positions: seq<set<Position>>, motion: Motion, ghost done: seq<Direction>)
    returns (newHead: Position, newTails: seq<Position>, newPositions: seq<set<Position>>)
    requires Recorded(head, tails, positions, done)
    ensures Recorded(newHead, newTails, newPositions, done + Repeat(motion.direction, motion.steps))
  {
    newHead, newTails, newPositions := head, tails, positions;
    assert done + Repeat(motion.direction, 0) == done;
    var s := 0;
    while s < motion.steps
      invariant s <= motion.steps || s == 0
      invariant Recorded(newHead, newTails, newPositions, done + Repeat(motion.direction, s))
      decreases motion.steps - s
    {
      ghost var before := done + Repeat(motion.direction, s);
      ghost var (oldHead, oldTails, oldPositions) := (newHead, newTails, newPositions);
      newHead := MoveHead(newHead, motion.direction);
      newTails, newPositions := MoveKnots(newHead, newTails, newPositions);
      RecordedStep(oldHead, oldTails, oldPositions, before, motion.direction, newHead, newTails, newPositions);
      RepeatOnce(done, motion.direction, s);
      s := s + 1;
    }
    if motion.steps <= 0 {
      assert Repeat(motion.direction, motion.steps) == Repeat(motion.direction, s);
    }
  }

  /** One more step in the same direction extends the steps taken. */
  lemma RepeatOnce(done: seq<Direction>, direction: Direction, s: nat)
    ensures done + Repeat(direction, s) + [direction] == done + Repeat(direction, s + 1)
  {
    assert Repeat(direction, s + 1) == Repeat(direction, s) + [direction];
  }

  /** One head step and the knots' catching up extend the record by that
      step. */
  lemma RecordedStep(head: Position, tails: seq<Position>, positions: seq<set<Position>>, done: seq<Direction>,
                     direction: Direction, newHead: Position, newTails: seq<Position>, newPositions: seq<set<Position>>)
    requires Recorded(head, tails, positions, done)
    requires newHead == MoveHead(head, direction) && newTails == Follow(newHead, tails)
    requires |newPositions| == |tails|
    requires forall i :: 0 <= i < |tails| ==> newPositions[i] == positions[i] + {newTails[i]}
    ensures Recorded(newHead, newTails, newPositions, done + [direction])
  {
    var after := done + [direction];
    assert after[..|done|] == done;
    forall i | 0 <= i < KnotCount
      ensures newPositions[i] == Visited(Trace(InitialRope, after), i)
    {
      VisitedAppend(Trace(InitialRope, done), Final(InitialRope, after), i);
    }
  }

  /** `executeMotions`: the sets of positions each of the nine knots
      occupies after each head step. */
  method ExecuteMotions(motions: seq<Motion>) returns (tailsPositions: seq<set<Position>>)
    ensures |tailsPositions| == KnotCount
    ensures forall i :: 0 <= i < KnotCount ==>
      tailsPositions[i] == Visited(Trace(InitialRope, Directions(motions)), i)
  {
    var head := Origin;
    var tails: seq<Position> := [];
    tailsPositions := [];
    var n := 0;
    while n < KnotCount
      invariant 0 <= n <= KnotCount
      invariant tails == AtOrigin(n)
      invariant tailsPositions == seq(n, _ => {})
    {
      tails := tails + [Origin];
      tailsPositions := tailsPositions + [{}];
      n := n + 1;
    }
    for m := 0 to |motions|
      invariant Recorded(head, tails, tailsPositions, Directions(motions[..m]))
    {
      head, tails, tailsPositions := ExecuteMotion(head, tails, tailsPositions, motions[m], Directions(motions[..m]));
      assert motions[..m + 1][..m] == motions[..m];
    }
    assert motions[..|motions|] == motions;
  }

  /** Positions visited by the knot right behind the head. */
  method Part1(motions: seq<Motion>) returns (r: nat)
    ensures r == |Visited(Trace(InitialRope, Directions(motions)), 0)|
    ensures r <= |Directions(motions)|
  {
    var positions := ExecuteMotions(motions);
    r := |positions[0]|;
    VisitedAtMostSteps(Trace(InitialRope, Directions(motions)), 0);
  }

  /** Positions visited by the last knot. */
  method Part2(motions: seq<Motion>) returns (r: nat)
    ensures r == |Visited(Trace(InitialRope, Directions(motions)), KnotCount - 1)|
    ensures r <= |Directions(motions)|
  {
    var positions := ExecuteMotions(motions);
    r := |positions[KnotCount - 1]|;
    VisitedAtMostSteps(Trace(InitialRope, Directions(motions)), KnotCount - 1);
  }

}
