/** Pyroclastic flow: rocks of five shapes fall in turn into a chamber seven
    columns wide, pushed sideways by a repeating pattern of jets; the tower
    height after many rocks is extrapolated from a detected cycle. */
module Day17 {
  import opened Common

  const ChamberWidth := 7

  datatype RockType = HorizontalLine | Plus | L | VerticalLine | Square

  /** `RockType.values()`, in declaration order. */
  const RockTypes := [HorizontalLine, Plus, L, VerticalLine, Square]

  datatype Movement = Left | Right

  datatype Pos = Pos(x: int, y: int)

  /** The settled rock cells (the source's map whose values are all `true`). */
  type Tower = set<Pos>

  /** One record per settled rock: its number and type, the jet that moved
      it last, and the tower height right after it came to rest. */
  datatype Data = Data(rockNumber: int, rockType: RockType, movementIndex: int, towerHeight: int)

  // ---------------------------------------------------------------------
  // Rock shapes

  function Width(t: RockType): nat {
    match t
    case HorizontalLine => 4
    case Plus => 3
    case L => 3
    case VerticalLine => 1
    case Square => 2
  }

  function Height(t: RockType): nat {
    match t
    case HorizontalLine => 1
    case Plus => 3
    case L => 3
    case VerticalLine => 4
    case Square => 2
  }

  /** Number of cells of each shape. */
  function CellCount(t: RockType): nat {
    match t
    case HorizontalLine => 4
    case Plus => 5
    case L => 5
    case VerticalLine => 4
    case Square => 4
  }

  /** The cells of each rock at the origin, in the order `getPoints` lists
      them, indexed by `Ordinal`. */
  const Shapes: seq<seq<Pos>> := [
    [Pos(0, 0), Pos(1, 0), Pos(2, 0), Pos(3, 0)],
    [Pos(1, 0), Pos(0, 1), Pos(1, 1), Pos(1, 2), Pos(2, 1)],
    [Pos(0, 0), Pos(1, 0), Pos(2, 0), Pos(2, 1), Pos(2, 2)],
    [Pos(0, 0), Pos(0, 1), Pos(0, 2), Pos(0, 3)],
    [Pos(0, 0), Pos(0, 1), Pos(1, 0), Pos(1, 1)]]

  /** The position of a rock type in `RockType.values()`. */
  function Ordinal(t: RockType): nat {
    match t
    case HorizontalLine => 0
    case Plus => 1
    case L => 2
    case VerticalLine => 3
    case Square => 4
  }

  function Shape(t: RockType): seq<Pos> {
    Shapes[Ordinal(t)]
  }

  /** `getPoints`: the cells of a rock whose bounding box has its
      bottom-left corner at `p`. */
  function GetPoints(t: RockType, p: Pos): seq<Pos> {
    Shift(Shape(t), p)
  }

  /** Each rock has its number of cells, all inside a box exactly `Width`
      by `Height`: some cell touches its left, right and bottom sides; and
      no cell is listed twice. */
  lemma GetPointsShape(t: RockType, p: Pos) returns (left: nat, right: nat, bottom: nat)
    ensures var cells := GetPoints(t, p);
      && |cells| == CellCount(t)
      && (forall i :: 0 <= i < |cells| ==> p.x <= cells[i].x < p.x + Width(t) && p.y <= cells[i].y < p.y + Height(t))
      && left < |cells| && cells[left].x == p.x
      && right < |cells| && cells[right].x == p.x + Width(t) - 1
      && bottom < |cells| && cells[bottom].y == p.y
      && forall i, j :: 0 <= i < j < |cells| ==> cells[i] != cells[j]
  {
    var cells := GetPoints(t, p);
    match t
    case HorizontalLine => left, right, bottom := 0, 3, 0;
    case Plus => left, right, bottom := 1, 4, 0;
    case L => left, right, bottom := 0, 2, 0;
    case VerticalLine => left, right, bottom := 0, 0, 0;
    case Square => left, right, bottom := 0, 2, 0;
  }

  function Shift(cells: seq<Pos>, offset: Pos): seq<Pos> {
    seq(|cells|, i requires 0 <= i < |cells| => Pos(cells[i].x + offset.x, cells[i].y + offset.y))
  }

  /** A rock at `p` is the rock at the origin translated by `p`. */
  lemma PointsTranslate(t: RockType, p: Pos)
    ensures GetPoints(t, p) == Shift(GetPoints(t, Pos(0, 0)), p)
  {
    var a, b := GetPoints(t, p), Shift(GetPoints(t, Pos(0, 0)), p);
    assert |a| == |b|;
    forall i | 0 <= i < |a|
      ensures a[i] == b[i]
    {
      if t == L {
        if i < 3 {
          assert a[i] == Pos(p.x + i, p.y);
        } else {
          assert a[i] == Pos(p.x + 2, p.y + i - 2);
        }
      }
    }
  }

  // ---------------------------------------------------------------------
  // Jets and falls

  /** The jet's test: no cell of the pushed rock is in the tower or
      outside the columns `0 .. ChamberWidth - 1`. */
  predicate PushFits(tower: Tower, cells: seq<Pos>) {
    forall i :: 0 <= i < |cells| ==> !(cells[i] in tower || cells[i].x < 0 || cells[i].x >= ChamberWidth)
  }

  /** The fall's test: no cell of the lowered rock is in the tower or
      below the floor `y = 0`. */
  predicate FallFits(tower: Tower, cells: seq<Pos>) {
    forall i :: 0 <= i < |cells| ==> !(cells[i] in tower || cells[i].y < 0)
  }

  predicate Clear(tower: Tower, cells: seq<Pos>) {
    forall i :: 0 <= i < |cells| ==> cells[i] !in tower
  }

  /** A position a falling rock may occupy: inside the chamber, on or
      above the floor, overlapping no settled cell. */
  predicate Free(tower: Tower, t: RockType, p: Pos) {
    0 <= p.x && p.x + Width(t) <= ChamberWidth && 0 <= p.y && Clear(tower, GetPoints(t, p))
  }

  /** Every settled cell is inside the chamber and on or above the floor. */
  predicate InChamber(tower: Tower) {
    forall c :: c in tower ==> 0 <= c.x < ChamberWidth && 0 <= c.y
  }

  /** The jet's test accepts exactly the positions whose bounding box lies
      between the walls and that overlap no settled cell. */
  lemma PushFitsMeaning(tower: Tower, t: RockType, q: Pos)
    ensures PushFits(tower, GetPoints(t, q)) <==> 0 <= q.x && q.x + Width(t) <= ChamberWidth && Clear(tower, GetPoints(t, q))
  {
    var left, right, bottom := GetPointsShape(t, q);
  }

  /** The fall's test accepts exactly the positions on or above the floor
      that overlap no settled cell. */
  lemma FallFitsMeaning(tower: Tower, t: RockType, q: Pos)
    ensures FallFits(tower, GetPoints(t, q)) <==> 0 <= q.y && Clear(tower, GetPoints(t, q))
  {
    var left, right, bottom := GetPointsShape(t, q);
  }

  function Pushed(p: Pos, m: Movement): Pos {
    match m
    case Left => p.(x := p.x - 1)
    case Right => p.(x := p.x + 1)
  }

  /** The position after one jet: pushed if the push fits, else unmoved. */
  function Jet(tower: Tower, t: RockType, p: Pos, m: Movement): (q: Pos)
    requires Free(tower, t, p)
    ensures Free(tower, t, q) && q.y == p.y
    ensures q == p || q == Pushed(p, m)
  {
    var pushed := Pushed(p, m);
    PushFitsMeaning(tower, t, pushed);
    if PushFits(tower, GetPoints(t, pushed)) then pushed else p
  }

  /** `(movementIndex + 1) % movements.size`: the jets repeat. */
  function NextJet(index: nat, count: nat): (next: nat)
    requires index < count
    ensures next < count
    ensures next == if index == count - 1 then 0 else index + 1
  {
    (index + 1) % count
  }

  /** Where a falling rock comes to rest, the jet that moved it last and
      the jet that comes next. */
  datatype Landing = Landing(pos: Pos, lastJet: nat, nextJet: nat)

  /** The outcome of one jet and one attempted fall. */
  datatype Step = Falls(pos: Pos) | Rests(pos: Pos)

  /** One iteration of the inner loop of `play`: push by the jet, then fall
      one row if the fall fits, else rest where the push left the rock. */
  function Move(tower: Tower, t: RockType, p: Pos, m: Movement): (s: Step)
    requires Free(tower, t, p)
    ensures Free(tower, t, s.pos)
    ensures s.pos.y == if s.Falls? then p.y - 1 else p.y
    ensures s.Rests? ==> !FallFits(tower, GetPoints(t, s.pos.(y := s.pos.y - 1)))
  {
    var pushed := Jet(tower, t, p, m);
    var fallen := pushed.(y := pushed.y - 1);
    FallFitsMeaning(tower, t, fallen);
    if FallFits(tower, GetPoints(t, fallen)) then Falls(fallen) else Rests(pushed)
  }

  /** The inner loop of `play`: move until the rock rests; the jet index
      advances cyclically after each push. */
  function Settle(tower: Tower, t: RockType, p: Pos, movements: seq<Movement>, index: nat): (r: Landing)
    requires index < |movements|
    requires Free(tower, t, p)
    ensures Free(tower, t, r.pos) && r.pos.y <= p.y
    ensures r.lastJet < |movements| && r.nextJet == NextJet(r.lastJet, |movements|)
    ensures !FallFits(tower, GetPoints(t, r.pos.(y := r.pos.y - 1)))
    decreases p.y
  {
    var s := Move(tower, t, p, movements[index]);
    var next := NextJet(index, |movements|);
    if s.Falls? then
      var r := Settle(tower, t, s.pos, movements, next);
      assert r.pos.y <= p.y;
      r
    else Landing(s.pos, index, next)
  }

  /** `Move` performs the source's two tests in turn. */
  lemma MoveMeaning(tower: Tower, t: RockType, p: Pos, m: Movement, pushed: Pos)
    requires Free(tower, t, p)
    requires pushed == Jet(tower, t, p, m)
    ensures var s := Move(tower, t, p, m);
      if FallFits(tower, GetPoints(t, pushed.(y := pushed.y - 1)))
      then s == Falls(pushed.(y := pushed.y - 1))
      else s == Rests(pushed)
  {
  }

  /** One step of `Settle`: after a fall the rock settles from one row
      lower, with the next jet; otherwise it rests here. */
  lemma SettleStep(tower: Tower, t: RockType, p: Pos, movements: seq<Movement>, index: nat)
    requires index < |movements| && Free(tower, t, p)
    ensures var s := Move(tower, t, p, movements[index]);
      Settle(tower, t, p, movements, index)
      == if s.Falls? then Settle(tower, t, s.pos, movements, NextJet(index, |movements|))
         else Landing(s.pos, index, NextJet(index, |movements|))
  {
  }

  /** `SettleStep` for a rock that falls: it lands where it would from one
      row lower. */
  lemma SettleFalls(tower: Tower, t: RockType, p: Pos, movements: seq<Movement>, index: nat, fallen: Pos, landing: Landing)
    requires index < |movements| && Free(tower, t, p)
    requires Move(tower, t, p, movements[index]) == Falls(fallen)
    requires Settle(tower, t, fallen, movements, NextJet(index, |movements|)) == landing
    ensures Settle(tower, t, p, movements, index) == landing
  {
    SettleStep(tower, t, p, movements, index);
  }

  /** `SettleStep` for a rock that rests. */
  lemma SettleLands(tower: Tower, t: RockType, p: Pos, movements: seq<Movement>, index: nat, pos: Pos)
    requires index < |movements| && Free(tower, t, p)
    requires Move(tower, t, p, movements[index]) == Rests(pos)
    ensures Settle(tower, t, p, movements, index) == Landing(pos, index, NextJet(index, |movements|))
  {
    SettleStep(tower, t, p, movements, index);
  }

  /** A rock comes to rest on the floor or on the tower: one row lower it
      would leave the chamber or overlap a settled cell. */
  lemma SettleRests(tower: Tower, t: RockType, p: Pos, movements: seq<Movement>, index: nat)
    requires index < |movements| && Free(tower, t, p)
    ensures var r := Settle(tower, t, p, movements, index);
      r.pos.y == 0 || exists c :: c in GetPoints(t, r.pos.(y := r.pos.y - 1)) && c in tower
  {
    var r := Settle(tower, t, p, movements, index);
    var below := r.pos.(y := r.pos.y - 1);
    FallFitsMeaning(tower, t, below);
    if r.pos.y != 0 {
      var i :| 0 <= i < |GetPoints(t, below)| && GetPoints(t, below)[i] in tower;
      assert GetPoints(t, below)[i] in GetPoints(t, below);
    }
  }

  function Cells(t: RockType, p: Pos): set<Pos> {
    set c | c in GetPoints(t, p)
  }

  /** Settling a rock keeps every tower cell inside the chamber. */
  lemma AddKeepsInChamber(tower: Tower, t: RockType, p: Pos)
    requires InChamber(tower) && Free(tower, t, p)
    ensures InChamber(tower + Cells(t, p))
  {
    var left, right, bottom := GetPointsShape(t, p);
  }

  // ---------------------------------------------------------------------
  // Tower height

  /** The highest settled row. */
  ghost function TopY(tower: Tower): (m: int)
    requires tower != {}
    ensures exists c :: c in tower && c.y == m
    ensures forall c :: c in tower ==> c.y <= m
    decreases |tower|
  {
    var c := Pick(tower);
    var rest := tower - {c};
    assert forall d :: d in tower ==> d == c || d in rest;
    if rest == {} then c.y else Max(c.y, TopY(rest))
  }

  /** `tower.maxOf { it.key.second }`: the highest settled row, found by
      visiting every cell once. */
  method MaxOfY(tower: Tower) returns (m: int)
    requires tower != {}
    ensures m == TopY(tower)
  {
    var c :| c in tower;
    m := c.y;
    var remaining := tower - {c};
    while remaining != {}
      invariant remaining <= tower
      invariant exists d :: d in tower && d.y == m
      invariant forall d :: d in tower && d !in remaining ==> d.y <= m
      decreases |remaining|
    {
      var d :| d in remaining;
      if d.y > m {
        m := d.y;
      }
      remaining := remaining - {d};
    }
  }

  /** Where each rock appears: two columns from the left wall and three
      empty rows above the tower (`-1` stands for the top of an empty tower). */
  ghost function Spawn(tower: Tower): Pos {
    Pos(2, (if tower == {} then -1 else TopY(tower)) + 1 + 3)
  }

  /** A freshly spawned rock overlaps nothing. */
  lemma SpawnFree(tower: Tower, t: RockType)
    requires InChamber(tower)
    ensures Free(tower, t, Spawn(tower))
  {
    var p := Spawn(tower);
    var cells := GetPoints(t, p);
    var left, right, bottom := GetPointsShape(t, p);
    forall i | 0 <= i < |cells|
      ensures cells[i] !in tower
    {
      assert cells[i] in cells;
    }
  }

  // ---------------------------------------------------------------------
  // The whole simulation

  /** The chamber after a number of rocks have settled. */
  datatype Sim = Sim(tower: Tower, data: seq<Data>, movementIndex: nat)

  /** Record `i` is of rock number `i`, whose type is `i mod 5`. */
  predicate Numbered(data: seq<Data>) {
    forall i :: 0 <= i < |data| ==> data[i].rockNumber == i && data[i].rockType == RockTypes[i % 5]
  }

  /** What holds of the chamber after any number of rocks: the tower is
      inside the chamber, the records are numbered, and the last record
      holds the tower height right after its rock settled. */
  ghost predicate Recorded(s: Sim, movements: seq<Movement>) {
    && s.movementIndex < |movements|
    && InChamber(s.tower)
    && (s.data == [] <==> s.tower == {})
    && Numbered(s.data)
    && (forall i :: 0 <= i < |s.data| ==> 0 <= s.data[i].movementIndex < |movements|)
    && (s.data != [] ==> s.data[|s.data| - 1].towerHeight == TopY(s.tower) + 1)
  }

  /** `n` rocks dropped in turn from an empty chamber, starting at jet 0. */
  ghost function Simulate(movements: seq<Movement>, n: nat): (s: Sim)
    requires movements != []
    ensures Recorded(s, movements) && |s.data| == n
  {
    if n == 0 then Sim({}, [], 0)
    else
      var s := Simulate(movements, n - 1);
      DropOne(s, movements)
  }

  /** One more rock is `DropOne` on the chamber after the ones before. */
  lemma SimulateNext(movements: seq<Movement>, n: nat)
    requires movements != []
    ensures Simulate(movements, n + 1) == DropOne(Simulate(movements, n), movements)
  {
  }

  /** Adding a settled rock and its record keeps what `Recorded` states. */
  lemma RecordedStep(s: Sim, movements: seq<Movement>, t: RockType, pos: Pos, last: nat, next: nat)
    requires Recorded(s, movements) && t == RockTypes[|s.data| % 5]
    requires Free(s.tower, t, pos) && last < |movements| && next < |movements|
    ensures s.tower + Cells(t, pos) != {}
    ensures var tower := s.tower + Cells(t, pos);
      Recorded(Sim(tower, s.data + [Data(|s.data|, t, last, TopY(tower) + 1)], next), movements)
  {
    var tower := s.tower + Cells(t, pos);
    assert GetPoints(t, pos)[0] in tower;
    AddKeepsInChamber(s.tower, t, pos);
    var data := s.data + [Data(|s.data|, t, last, TopY(tower) + 1)];
    assert forall i :: 0 <= i < |s.data| ==> data[i] == s.data[i];
  }

  /** One rock of the next type dropped into the chamber `s`. */
  ghost function DropOne(s: Sim, movements: seq<Movement>): (next: Sim)
    requires Recorded(s, movements)
    ensures Recorded(next, movements) && |next.data| == |s.data| + 1
    ensures s.data <= next.data && s.tower <= next.tower
  {
    var n := |s.data|;
    var t := RockTypes[n % 5];
    SpawnFree(s.tower, t);
    var landing := Settle(s.tower, t, Spawn(s.tower), movements, s.movementIndex);
    RecordedStep(s, movements, t, landing.pos, landing.lastJet, landing.nextJet);
    Placed(s, t, landing)
  }

  /** The chamber `s` with a rock of type `t` settled at `landing` and its
      record appended. */
  ghost function Placed(s: Sim, t: RockType, landing: Landing): Sim
    requires s.tower + Cells(t, landing.pos) != {}
  {
    var tower := s.tower + Cells(t, landing.pos);
    Sim(tower, s.data + [Data(|s.data|, t, landing.lastJet, TopY(tower) + 1)], landing.nextJet)
  }

  // ---------------------------------------------------------------------
  // Cycle detection

  /** Records `k` and `2k + 1` start with the same rock type at the same jet. */
  predicate Repeats(data: seq<Data>, k: nat)
    requires 2 * k + 1 < |data|
  {
    data[k].rockType == data[2 * k + 1].rockType && data[k].movementIndex == data[2 * k + 1].movementIndex
  }

  /** The first tortoise position from `k` on whose hare record repeats it. */
  function RepeatFrom(data: seq<Data>, k: nat): (r: Option<nat>)
    ensures r.Some? ==> k <= r.value && 2 * r.value + 1 < |data| && Repeats(data, r.value)
    decreases |data| - k
  {
    if 2 * k + 1 >= |data| then None
    else if Repeats(data, k) then Some(k)
    else RepeatFrom(data, k + 1)
  }

  /** What `findCycle` answers: the rock numbers of the first pair
      (tortoise `k`, hare `2k + 1`) that repeats, or nothing. */
  function CycleOf(data: seq<Data>): Option<(int, int)> {
    match RepeatFrom(data, 0)
    case None => None
    case Some(k) => Some((data[k].rockNumber, data[2 * k + 1].rockNumber))
  }

  /** `RepeatFrom` finds the first repeating position: none before it
      repeats, and if it finds none, none at all repeats. */
  lemma {:induction false} RepeatFromFirst(data: seq<Data>, k: nat, j: nat)
    requires k <= j && 2 * j + 1 < |data| && Repeats(data, j)
    ensures RepeatFrom(data, k).Some? && RepeatFrom(data, k).value <= j
    decreases j - k
  {
    if !Repeats(data, k) {
      RepeatFromFirst(data, k + 1, j);
    }
  }

  /** No tortoise position below `bound` repeats. */
  predicate NoRepeatBelow(data: seq<Data>, bound: int) {
    forall j :: 0 <= j < bound && 2 * j + 1 < |data| ==> !Repeats(data, j)
  }

  /** `CycleOf` is empty exactly when no tortoise position repeats, and
      otherwise names the first that does. */
  lemma CycleOfMeaning(data: seq<Data>)
    ensures CycleOf(data).None? <==> forall k :: 0 <= k && 2 * k + 1 < |data| ==> !Repeats(data, k)
    ensures CycleOf(data).Some? ==>
      exists k :: 0 <= k && 2 * k + 1 < |data| && Repeats(data, k)
        && CycleOf(data).value == (data[k].rockNumber, data[2 * k + 1].rockNumber)
        && NoRepeatBelow(data, k)
  {
    var r := RepeatFrom(data, 0);
    forall j | 0 <= j && 2 * j + 1 < |data| && Repeats(data, j)
      ensures r.Some? && r.value <= j
    {
      RepeatFromFirst(data, 0, j);
    }
  }

  /** `findCycle`: the tortoise steps one record, the hare two. */
  method FindCycle(data: seq<Data>) returns (r: Option<(int, int)>)
    ensures r == CycleOf(data)
  {
    if |data| < 2 {
      return None;
    }
    var tortoise, hare := 0, 1;
    while hare < |data|
      invariant hare == 2 * tortoise + 1
      invariant RepeatFrom(data, 0) == RepeatFrom(data, tortoise)
      decreases |data| - hare
    {
      var tortoiseData, hareData := data[tortoise], data[hare];
      if tortoiseData.rockType == hareData.rockType && tortoiseData.movementIndex == hareData.movementIndex {
        return Some((tortoiseData.rockNumber, hareData.rockNumber));
      }
      tortoise := tortoise + 1;
      hare := hare + 2;
    }
    return None;
  }

  /** Records without a repeat keep none in any prefix. */
  lemma {:induction false} NoCycleInPrefix(data: seq<Data>, m: nat)
    requires CycleOf(data) == None && m <= |data|
    ensures CycleOf(data[..m]) == None
  {
    CycleOfMeaning(data);
    CycleOfMeaning(data[..m]);
    forall k | 0 <= k && 2 * k + 1 < m
      ensures !Repeats(data[..m], k)
    {
      assert !Repeats(data, k);
      assert data[..m][k] == data[k] && data[..m][2 * k + 1] == data[2 * k + 1];
    }
  }

  lemma RockTypeResidue(i: nat, j: nat)
    requires RockTypes[i % 5] == RockTypes[j % 5]
    ensures i % 5 == j % 5
  {
  }

  /** Rock numbers `k` and `2k + 1` have the same type only when `k + 1`
      is a multiple of 5. */
  lemma TortoiseHareResidue(k: nat)
    requires k % 5 == (2 * k + 1) % 5
    ensures (k + 1) % 5 == 0
  {
    var a, q := k % 5, k / 5;
    assert k == 5 * q + a;
    assert 2 * k + 1 == 5 * (2 * q) + (2 * a + 1);
    assert (2 * k + 1) % 5 == (2 * a + 1) % 5;
  }

  /** In a simulation's records a cycle `(first, second)` is the pair of
      rock numbers `(k, 2k + 1)` for some `k` with `k + 1` a multiple of 5,
      so `first` is at least 4, and both are records. */
  lemma CycleInRecords(data: seq<Data>, first: int, second: int)
    requires Numbered(data) && CycleOf(data) == Some((first, second))
    ensures 4 <= first < second < |data|
    ensures second == 2 * first + 1
    ensures (first + 1) % 5 == 0
  {
    var k := RepeatFrom(data, 0).value;
    var h := 2 * k + 1;
    var a, b := k % 5, h % 5;
    assert data[k].rockType == RockTypes[a];
    assert data[h].rockType == RockTypes[b];
    RockTypeResidue(a, b);
    TortoiseHareResidue(k);
  }

  // ---------------------------------------------------------------------
  // Extrapolation

  /** Kotlin's `Long` division: truncates toward zero. */
  function DivTrunc(a: int, b: int): (q: int)
    requires b != 0
    ensures a >= 0 && b > 0 ==> q == a / b
  {
    var q := Abs(a) / Abs(b);
    if (a < 0) != (b < 0) then -q else q
  }

  /** Kotlin's `Long` remainder: takes the sign of the dividend. */
  function RemTrunc(a: int, b: int): (r: int)
    requires b != 0
    ensures a >= 0 && b > 0 ==> r == a % b
  {
    a - b * DivTrunc(a, b)
  }

  /** `findTowerSizeForRockNumber`: the height recorded with the first
      record of that rock number; `None` where `!!` would throw. */
  function FindTowerSize(rockNumber: int, data: seq<Data>): Option<int> {
    if data == [] then None
    else if data[0].rockNumber == rockNumber then Some(data[0].towerHeight)
    else FindTowerSize(rockNumber, data[1..])
  }

  /** The lookup fails exactly when no record has that rock number, and
      otherwise answers the height of a record that has it. */
  lemma {:induction false} FindTowerSizeMeaning(rockNumber: int, data: seq<Data>)
    ensures var r := FindTowerSize(rockNumber, data);
      && (r.None? <==> forall i :: 0 <= i < |data| ==> data[i].rockNumber != rockNumber)
      && (r.Some? ==> exists i :: 0 <= i < |data| && data[i].rockNumber == rockNumber && r.value == data[i].towerHeight)
  {
    if data != [] && data[0].rockNumber != rockNumber {
      FindTowerSizeMeaning(rockNumber, data[1..]);
      assert forall i :: 1 <= i < |data| ==> data[i] == data[1..][i - 1];
      var r := FindTowerSize(rockNumber, data[1..]);
      if r.Some? {
        var i :| 0 <= i < |data[1..]| && data[1..][i].rockNumber == rockNumber && r.value == data[1..][i].towerHeight;
        assert data[i + 1] == data[1..][i];
      }
    }
  }

  /** The cycle branch of `calculateTowerSize`: the height before the cycle,
      whole cycles times the height one cycle adds, and the height the
      leftover rocks add. `None` where a lookup or the division would throw. */
  function Extrapolate(cycle: (int, int), data: seq<Data>, maxRocks: int): Option<int> {
    var first, second := cycle.0, cycle.1;
    var cycleSize := second - first;
    var atSecond, atFirst, beforeCycle := FindTowerSize(second, data), FindTowerSize(first, data), FindTowerSize(first - 1, data);
    if atSecond.None? || atFirst.None? || beforeCycle.None? || cycleSize == 0 then None
    else
      var cycleHeight := atSecond.value - atFirst.value;
      var cycledRocks := maxRocks - first;
      var numCycles := DivTrunc(cycledRocks, cycleSize);
      var remainingRocks := RemTrunc(cycledRocks, cycleSize);
      var afterRemainder := FindTowerSize(first - 1 + remainingRocks, data);
      if afterRemainder.None? then None
      else Some(beforeCycle.value + numCycles * cycleHeight + (afterRemainder.value - beforeCycle.value))
  }

  /** The height `calculateTowerSize` reports: extrapolated from a cycle,
      or the highest settled row plus one (`None` for an empty tower, where
      `maxOf` throws). */
  ghost function TowerSize(tower: Tower, foundCycle: Option<(int, int)>, data: seq<Data>, maxRocks: int): Option<int> {
    match foundCycle
    case Some(cycle) => Extrapolate(cycle, data, maxRocks)
    case None => if tower == {} then None else Some(TopY(tower) + 1)
  }

  /** `calculateTowerSize`. */
  method CalculateTowerSize(tower: Tower, foundCycle: Option<(int, int)>, data: seq<Data>, maxRocks: int) returns (size: Option<int>)
    ensures size == TowerSize(tower, foundCycle, data, maxRocks)
  {
    if foundCycle.Some? {
      size := Extrapolate(foundCycle.value, data, maxRocks);
    } else if tower == {} {
      size := None;
    } else {
      var top := MaxOfY(tower);
      size := Some(top + 1);
    }
  }

  /** From rock `from` on, every `cycle` more rocks add `growth` to the height. */
  ghost predicate Periodic(height: int -> int, from: int, cycle: int, growth: int) {
    forall n, m :: from <= n && m == n + cycle ==> height(m) == height(n) + growth
  }

  /** If from rock `first - 1` on every `cycle` more rocks add `growth` to
      the height, the height after rock `first - 1 + q * cycle + rest` is the
      height after rock `first - 1 + rest` plus `q * growth`. */
  lemma {:induction false} PeriodicHeight(height: int -> int, first: int, cycle: nat, growth: int, q: nat, rest: nat)
    requires Periodic(height, first - 1, cycle, growth)
    ensures height(first - 1 + q * cycle + rest) == height(first - 1 + rest) + q * growth
  {
    if q > 0 {
      PeriodicHeight(height, first, cycle, growth, q - 1, rest);
      var n := first - 1 + (q - 1) * cycle + rest;
      assert n + cycle == first - 1 + q * cycle + rest;
      assert height(n + cycle) == height(n) + growth;
    }
  }

  /** In records numbered by position, the lookup finds the record itself. */
  lemma FindInRecords(data: seq<Data>, n: int)
    requires forall i :: 0 <= i < |data| ==> data[i].rockNumber == i
    requires 0 <= n < |data|
    ensures FindTowerSize(n, data) == Some(data[n].towerHeight)
  {
    FindTowerSizeMeaning(n, data);
    assert data[n].rockNumber == n;
  }

  /** With `q` whole cycles and `rest` leftover rocks after rock `first`,
      the last rock is `first - 1 + q * cycle + rest`; Kotlin's truncating
      division agrees with Euclid's on these non-negative operands. */
  lemma CycleSplit(first: int, second: int, maxRocks: int, q: int, rest: int)
    requires 1 <= first < second && first <= maxRocks
    requires q == (maxRocks - first) / (second - first) && rest == (maxRocks - first) % (second - first)
    ensures first - 1 + q * (second - first) + rest == maxRocks - 1
    ensures DivTrunc(maxRocks - first, second - first) == q && RemTrunc(maxRocks - first, second - first) == rest
    ensures 0 <= q && 0 <= rest < second - first
  {
  }

  /** `Extrapolate` adds `q` cycle heights to the height before the cycle
      and the leftover rocks' height, given the four lookups. */
  lemma ExtrapolateValue(data: seq<Data>, first: int, second: int, maxRocks: int, q: int, rest: int,
                         atSecond: int, atFirst: int, beforeCycle: int, afterRemainder: int, growth: int)
    requires 1 <= first < second && first <= maxRocks
    requires q == (maxRocks - first) / (second - first) && rest == (maxRocks - first) % (second - first)
    requires FindTowerSize(second, data) == Some(atSecond) && FindTowerSize(first, data) == Some(atFirst)
    requires FindTowerSize(first - 1, data) == Some(beforeCycle)
    requires FindTowerSize(first - 1 + rest, data) == Some(afterRemainder)
    requires growth == atSecond - atFirst
    ensures Extrapolate((first, second), data, maxRocks) == Some(afterRemainder + q * growth)
  {
    CycleSplit(first, second, maxRocks, q, rest);
  }

  /** The extrapolation is exact when the heights really repeat: if the
      records hold `height(i)` for rock `i` and from rock `first - 1` on
      every `second - first` rocks add the same height, `Extrapolate`
      returns the height after rock `maxRocks - 1`. */
  lemma ExtrapolationExact(data: seq<Data>, height: int -> int, first: int, second: int, maxRocks: int)
    requires 1 <= first < second < |data| && first <= maxRocks
    requires forall i :: 0 <= i < |data| ==> data[i].rockNumber == i && data[i].towerHeight == height(i)
    requires Periodic(height, first - 1, second - first, height(second) - height(first))
    ensures Extrapolate((first, second), data, maxRocks) == Some(height(maxRocks - 1))
  {
    var cycle := second - first;
    var q, rest := (maxRocks - first) / cycle, (maxRocks - first) % cycle;
    var growth := height(second) - height(first);
    var value := RecordedExtrapolation(data, height, first, second, maxRocks, q, rest, growth);
    PeriodicAtEnd(height, first, second, maxRocks, q, rest, growth);
  }

  /** With records holding `height`, `Extrapolate` adds `q` cycle heights
      to the height the leftover rocks reach. */
  lemma RecordedExtrapolation(data: seq<Data>, height: int -> int, first: int, second: int, maxRocks: int,
                              q: int, rest: int, growth: int) returns (value: int)
    requires 1 <= first < second && second < |data| && first <= maxRocks
    requires forall i :: 0 <= i < |data| ==> data[i].rockNumber == i && data[i].towerHeight == height(i)
    requires q == (maxRocks - first) / (second - first) && rest == (maxRocks - first) % (second - first)
    requires growth == height(second) - height(first)
    ensures value == height(first - 1 + rest) + q * growth
    ensures Extrapolate((first, second), data, maxRocks) == Some(value)
  {
    CycleSplit(first, second, maxRocks, q, rest);
    FindInRecords(data, second);
    FindInRecords(data, first);
    FindInRecords(data, first - 1);
    FindInRecords(data, first - 1 + rest);
    ExtrapolateValue(data, first, second, maxRocks, q, rest,
      height(second), height(first), height(first - 1), height(first - 1 + rest), growth);
    value := height(first - 1 + rest) + q * growth;
  }

  /** The periodic height at the last rock. */
  lemma PeriodicAtEnd(height: int -> int, first: int, second: int, maxRocks: int, q: int, rest: int, growth: int)
    requires 1 <= first < second && first <= maxRocks
    requires q == (maxRocks - first) / (second - first) && rest == (maxRocks - first) % (second - first)
    requires Periodic(height, first - 1, second - first, growth)
    ensures height(maxRocks - 1) == height(first - 1 + rest) + q * growth
  {
    CycleSplit(first, second, maxRocks, q, rest);
    PeriodicHeight(height, first, second - first, growth, q, rest);
  }

  // ---------------------------------------------------------------------
  // The drop loop

  /** `DropOne` spelled out for a given rock type and landing. */
  lemma DropOneIs(s: Sim, movements: seq<Movement>, t: RockType, landing: Landing)
    requires Recorded(s, movements) && t == RockTypes[|s.data| % 5]
    requires Free(s.tower, t, Spawn(s.tower))
    requires landing == Settle(s.tower, t, Spawn(s.tower), movements, s.movementIndex)
    ensures DropOne(s, movements) == Placed(s, t, landing)
  {
  }

  /** `Placed` spelled out for a given settled tower and height. */
  lemma PlacedIs(s: Sim, t: RockType, landing: Landing, tower: Tower, height: int)
    requires tower == s.tower + Cells(t, landing.pos) && tower != {} && height == TopY(tower) + 1
    ensures Placed(s, t, landing) == Sim(tower, s.data + [Data(|s.data|, t, landing.lastJet, height)], landing.nextJet)
  {
  }

  /** `points.forEach { tower[it] = true }`. */
  method AddPoints(tower: Tower, points: seq<Pos>) returns (settled: Tower)
    ensures settled == tower + set c | c in points
  {
    settled := tower;
    for i := 0 to |points|
      invariant settled == tower + set c | c in points[..i]
    {
      settled := settled + {points[i]};
      assert points[..i + 1] == points[..i] + [points[i]];
    }
    assert points[..|points|] == points;
  }

  /** The inner loop of `play`: jets and falls until the rock rests, then
      its cells join the tower. */
  method DropRock(tower: Tower, t: RockType, spawn: Pos, movements: seq<Movement>, index: nat)
    returns (settled: Tower, last: nat, next: nat)
    requires index < |movements| && Free(tower, t, spawn)
    ensures var landing := Settle(tower, t, spawn, movements, index);
      settled == tower + Cells(t, landing.pos) && last == landing.lastJet && next == landing.nextJet
  {
    ghost var landing := Settle(tower, t, spawn, movements, index);
    var bottomLeftPosition := spawn;
    var movementIndex: nat := index;
    var stop := false;
    settled := tower;
    last, next := index, index;
    while !stop
      invariant movementIndex < |movements|
      invariant !stop ==> settled == tower && Free(tower, t, bottomLeftPosition)
      invariant !stop ==> Settle(tower, t, bottomLeftPosition, movements, movementIndex) == landing
      invariant stop ==> settled == tower + Cells(t, landing.pos) && last == landing.lastJet && next == landing.nextJet
      decreases if stop then 0 else bottomLeftPosition.y + 1
    {
      ghost var before, jet := bottomLeftPosition, movementIndex;
      var newBottomLeftPosition := Pushed(bottomLeftPosition, movements[movementIndex]);
      if PushFits(tower, GetPoints(t, newBottomLeftPosition)) {
        bottomLeftPosition := newBottomLeftPosition;
      }
      assert bottomLeftPosition == Jet(tower, t, before, movements[jet]);
      MoveMeaning(tower, t, before, movements[jet], bottomLeftPosition);
      SettleStep(tower, t, before, movements, jet);
      var newFallenBottomLeftPosition := bottomLeftPosition.(y := bottomLeftPosition.y - 1);
      if FallFits(tower, GetPoints(t, newFallenBottomLeftPosition)) {
        bottomLeftPosition := newFallenBottomLeftPosition;
      } else {
        settled := AddPoints(tower, GetPoints(t, bottomLeftPosition));
        stop := true;
        last, next := movementIndex, NextJet(movementIndex, |movements|);
      }
      movementIndex := NextJet(movementIndex, |movements|);
    }
  }

  /** One pass of the outer loop of `play` up to `findCycle`: spawn rock
      number `rockNumber`, drop it, and record it. */
  method DropNextRock(movements: seq<Movement>, rockNumber: nat, tower: Tower, data: seq<Data>, movementIndex: nat)
    returns (tower': Tower, data': seq<Data>, movementIndex': nat)
    requires movements != [] && rockNumber == |data|
    requires Recorded(Sim(tower, data, movementIndex), movements)
    ensures Sim(tower', data', movementIndex') == DropOne(Sim(tower, data, movementIndex), movements)
  {
    var rockType := RockTypes[rockNumber % 5];
    var top := -1;
    if tower != {} {
      top := MaxOfY(tower);
    }
    var bottomLeftPosition := Pos(2, top + 1 + 3);
    assert bottomLeftPosition == Spawn(tower);
    SpawnFree(tower, rockType);
    var last, next;
    tower', last, next := DropRock(tower, rockType, bottomLeftPosition, movements, movementIndex);
    ghost var landing := Settle(tower, rockType, bottomLeftPosition, movements, movementIndex);
    RecordedStep(Sim(tower, data, movementIndex), movements, rockType, landing.pos, last, next);
    var height := MaxOfY(tower');
    data' := data + [Data(rockNumber, rockType, last, height + 1)];
    movementIndex' := next;
    DropOneIs(Sim(tower, data, movementIndex), movements, rockType, landing);
    PlacedIs(Sim(tower, data, movementIndex), rockType, landing, tower', height + 1);
  }

  /** `play`: drops rocks until `maxRocks` have fallen or a cycle shows in
      the records, then reports `calculateTowerSize`. `None` where the source
      throws: no jets at all (`movements[0]`), or no rock dropped (`maxOf`
      on an empty tower). The ghost outputs name the number of rocks dropped
      and the cycle found; one rock earlier the records showed no cycle. */
  method Play(movements: seq<Movement>, maxRocks: int) returns (size: Option<int>, ghost dropped: nat, ghost cycle: Option<(int, int)>)
    ensures movements == [] || maxRocks <= 0 ==> size == None
    ensures movements != [] && maxRocks > 0 ==>
      && 0 < dropped <= maxRocks
      && var s := Simulate(movements, dropped);
      && cycle == CycleOf(s.data)
      && (dropped == maxRocks || cycle.Some?)
      && CycleOf(s.data[..dropped - 1]) == None
      && size == TowerSize(s.tower, cycle, s.data, maxRocks)
      && size.Some?
  {
    if movements == [] {
      return None, 0, None;
    }
    var data: seq<Data> := [];
    var tower: Tower := {};
    var movementIndex: nat := 0;
    var rockNumber: nat := 0;
    var foundCycle: Option<(int, int)> := None;
    while rockNumber < maxRocks && foundCycle == None
      invariant if maxRocks > 0 then rockNumber <= maxRocks else rockNumber == 0
      invariant Simulate(movements, rockNumber) == Sim(tower, data, movementIndex)
      invariant foundCycle == CycleOf(data)
      invariant rockNumber > 0 ==> CycleOf(data[..rockNumber - 1]) == None
      decreases maxRocks - rockNumber
    {
      ghost var before := data;
      tower, data, movementIndex := DropNextRock(movements, rockNumber, tower, data, movementIndex);
      SimulateNext(movements, rockNumber);
      assert data[..rockNumber] == before;
      foundCycle := FindCycle(data);
      rockNumber := rockNumber + 1;
    }
    dropped, cycle := rockNumber, foundCycle;
    size := CalculateTowerSize(tower, foundCycle, data, maxRocks);
    if maxRocks <= 0 {
      assert tower == {};
    } else {
      PlayOutcome(Simulate(movements, rockNumber), movements, maxRocks, foundCycle);
    }
  }

  /** When the drop loop of `play` stops, at least one rock has fallen and
      `calculateTowerSize` has a size to report. */
  lemma PlayOutcome(s: Sim, movements: seq<Movement>, maxRocks: int, cycle: Option<(int, int)>)
    requires Recorded(s, movements) && 0 < maxRocks && |s.data| <= maxRocks
    requires cycle == CycleOf(s.data) && (|s.data| == maxRocks || cycle.Some?)
    ensures 0 < |s.data|
    ensures TowerSize(s.tower, cycle, s.data, maxRocks).Some?
  {
    if cycle.Some? {
      var first, second := cycle.value.0, cycle.value.1;
      CycleInRecords(s.data, first, second);
      ExtrapolateDefined(s.data, first, second, maxRocks);
    } else {
      assert s.tower != {};
    }
  }

  /** With the records numbered and a cycle inside them, every lookup of
      the extrapolation succeeds. */
  lemma ExtrapolateDefined(data: seq<Data>, first: int, second: int, maxRocks: int)
    requires Numbered(data) && 1 <= first < second < |data| && first <= maxRocks
    ensures Extrapolate((first, second), data, maxRocks).Some?
  {
    var q, rest := (maxRocks - first) / (second - first), (maxRocks - first) % (second - first);
    CycleSplit(first, second, maxRocks, q, rest);
    FindInRecords(data, second);
    FindInRecords(data, first);
    FindInRecords(data, first - 1);
    FindInRecords(data, first - 1 + rest);
    var atSecond, atFirst := data[second].towerHeight, data[first].towerHeight;
    ExtrapolateValue(data, first, second, maxRocks, q, rest, atSecond, atFirst,
      data[first - 1].towerHeight, data[first - 1 + rest].towerHeight, atSecond - atFirst);
  }

  /** Without a cycle `play` reports the height recorded after the last rock. */
  lemma PlayWithoutCycle(movements: seq<Movement>, maxRocks: nat)
    requires movements != [] && maxRocks > 0
    ensures var s := Simulate(movements, maxRocks);
      TowerSize(s.tower, None, s.data, maxRocks) == Some(s.data[maxRocks - 1].towerHeight)
  {
    RecordedSize(Simulate(movements, maxRocks), movements);
  }

  /** Records kept as `Recorded` states give the last record's height as the
      size of a tower without a cycle. */
  lemma RecordedSize(s: Sim, movements: seq<Movement>)
    requires Recorded(s, movements) && s.data != []
    ensures TowerSize(s.tower, None, s.data, |s.data|) == Some(s.data[|s.data| - 1].towerHeight)
  {
  }

  // ---------------------------------------------------------------------
  // The example's jets

  const SampleJets: seq<Movement> := [Right, Right, Right, Left, Left, Right, Left, Right, Right, Left]

  /** In the empty chamber a rock fits wherever its box is between the
      walls and on or above the floor. */
  lemma FreeInEmpty(t: RockType, p: Pos)
    requires 0 <= p.x && p.x + Width(t) <= ChamberWidth && 0 <= p.y
    ensures Free({}, t, p)
  {
  }

  /** The first rock of the example, a horizontal line, takes four jets
      (`>>><`) and rests on the floor at columns 2..5. */
  lemma FirstSampleRock(jets: seq<Movement>)
    requires jets == SampleJets
    ensures Settle({}, HorizontalLine, Pos(2, 3), jets, 0) == Landing(Pos(2, 0), 3, 4)
  {
    var t := HorizontalLine;
    FirstSampleMoves();
    assert jets[0] == Right && jets[1] == Right && jets[2] == Right && jets[3] == Left;
    FreeInEmpty(t, Pos(3, 0));
    FreeInEmpty(t, Pos(3, 1));
    FreeInEmpty(t, Pos(3, 2));
    FreeInEmpty(t, Pos(2, 3));
    var landing := Landing(Pos(2, 0), 3, 4);
    SettleLands({}, t, Pos(3, 0), jets, 3, Pos(2, 0));
    SettleFalls({}, t, Pos(3, 1), jets, 2, Pos(3, 0), landing);
    SettleFalls({}, t, Pos(3, 2), jets, 1, Pos(3, 1), landing);
    SettleFalls({}, t, Pos(2, 3), jets, 0, Pos(3, 2), landing);
  }

  /** The four moves of that rock: it falls three times (the second and
      third pushes hit the right wall) and rests after the fourth push. */
  lemma FirstSampleMoves()
    ensures Move({}, HorizontalLine, Pos(2, 3), Right) == Falls(Pos(3, 2))
    ensures Move({}, HorizontalLine, Pos(3, 2), Right) == Falls(Pos(3, 1))
    ensures Move({}, HorizontalLine, Pos(3, 1), Right) == Falls(Pos(3, 0))
    ensures Move({}, HorizontalLine, Pos(3, 0), Left) == Rests(Pos(2, 0))
  {
    var t := HorizontalLine;
    assert Jet({}, t, Pos(2, 3), Right) == Pos(3, 3);
    assert Jet({}, t, Pos(3, 2), Right) == Pos(3, 2) by {
      assert GetPoints(t, Pos(4, 2))[3].x == 7;
    }
    assert Jet({}, t, Pos(3, 1), Right) == Pos(3, 1) by {
      assert GetPoints(t, Pos(4, 1))[3].x == 7;
    }
    assert Jet({}, t, Pos(3, 0), Left) == Pos(2, 0);
    assert GetPoints(t, Pos(2, -1))[0].y == -1;
  }
}
