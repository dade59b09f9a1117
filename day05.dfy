/** Supply stacks: crates are moved between stacks by a crane, either one
    crate at a time or several at once. Each stack is a deque whose front is
    the top crate. */
module Day05 {
  import opened Common

  /** A move with zero-based stack indices; a stack number 0 in the input
      becomes the index -1. */
  datatype Move = Move(numCrates: nat, fromStack: int, toStack: int)

  /** The move as the input states it, with stacks numbered from 1;
      `parseMovements` subtracts one from both stack numbers. */
  function MoveFromNumbers(numCrates: nat, fromNumber: nat, toNumber: nat): (m: Move)
    ensures m.fromStack + 1 == fromNumber && m.toStack + 1 == toNumber && m.numCrates == numCrates
  {
    Move(numCrates, fromNumber - 1, toNumber - 1)
  }

  function Reverse<T>(s: seq<T>): (r: seq<T>)
    ensures |r| == |s| && forall i :: 0 <= i < |s| ==> r[i] == s[|s| - 1 - i]
  {
    seq(|s|, i requires 0 <= i < |s| => s[|s| - 1 - i])
  }

  lemma ReverseReverse<T>(s: seq<T>)
    ensures Reverse(Reverse(s)) == s
  {
  }

  lemma ReverseMultiset<T>(s: seq<T>)
    ensures multiset(Reverse(s)) == multiset(s)
    decreases |s|
  {
    if s != [] {
      var r := Reverse(s);
      ReverseMultiset(s[1..]);
      assert Reverse(s[1..]) == r[..|s| - 1];
      assert r == r[..|s| - 1] + [s[0]];
      assert s == [s[0]] + s[1..];
    }
  }

  /** Both stacks exist and the source stack holds enough crates for
      `removeFirst`. */
  predicate Performable(stacks: seq<seq<char>>, m: Move) {
    0 <= m.fromStack < |stacks| && 0 <= m.toStack < |stacks| && m.numCrates <= |stacks[m.fromStack]|
  }

  /** The move runs without an exception: a move of no crates touches no
      stack (`repeat(0)` removes nothing and the empty list adds nothing),
      whatever stacks it names; any other move must be performable. */
  predicate ValidMove(stacks: seq<seq<char>>, m: Move) {
    m.numCrates == 0 || Performable(stacks, m)
  }

  /** The block as it lands: taken off top first and pushed one by one, it is
      reversed, unless several crates are moved at once by the newer crane. */
  function Landing(block: seq<char>, multipleAtOnce: bool): seq<char> {
    if |block| > 1 && multipleAtOnce then block else Reverse(block)
  }

  /** One move: take the top `numCrates` crates off the source stack, then
      put the landed block on top of the destination stack. */
  function ApplyMove(stacks: seq<seq<char>>, m: Move, multipleAtOnce: bool): (r: seq<seq<char>>)
    requires ValidMove(stacks, m)
    ensures |r| == |stacks|
    ensures forall k :: 0 <= k < |stacks| && k != m.fromStack && k != m.toStack ==> r[k] == stacks[k]
    ensures m.numCrates == 0 ==> r == stacks
  {
    if m.numCrates == 0 then stacks
    else
    var block := stacks[m.fromStack][..m.numCrates];
    var removed := stacks[m.fromStack := stacks[m.fromStack][m.numCrates..]];
    removed[m.toStack := Landing(block, multipleAtOnce) + removed[m.toStack]]
  }

  /** Between two different stacks, the old crane lands the block reversed
      and the new crane keeps its order; the source keeps the crates below
      the block and the destination keeps its crates below the new ones. */
  lemma MoveOrder(stacks: seq<seq<char>>, m: Move, multipleAtOnce: bool)
    requires Performable(stacks, m) && m.fromStack != m.toStack
    ensures var r := ApplyMove(stacks, m, multipleAtOnce);
      var n := m.numCrates;
      && r[m.fromStack] == stacks[m.fromStack][n..]
      && r[m.toStack][n..] == stacks[m.toStack]
      && (!multipleAtOnce ==> r[m.toStack][..n] == Reverse(stacks[m.fromStack][..n]))
      && (multipleAtOnce ==> r[m.toStack][..n] == stacks[m.fromStack][..n])
  {
    var block := stacks[m.fromStack][..m.numCrates];
    if |block| <= 1 {
      assert Reverse(block) == block;
    }
  }

  /** With a single crate both cranes do the same. */
  lemma SingleCrateSame(stacks: seq<seq<char>>, m: Move)
    requires ValidMove(stacks, m) && m.numCrates <= 1
    ensures ApplyMove(stacks, m, true) == ApplyMove(stacks, m, false)
  {
    if m.numCrates == 1 {
      var block := stacks[m.fromStack][..m.numCrates];
      assert Reverse(block) == block;
    }
  }

  /** All crates of all stacks, as a multiset. */
  function AllCrates(stacks: seq<seq<char>>): multiset<char> {
    if stacks == [] then multiset{} else AllCrates(stacks[..|stacks| - 1]) + multiset(stacks[|stacks| - 1])
  }

  lemma {:induction false} AllCratesUpdate(stacks: seq<seq<char>>, j: nat, v: seq<char>)
    requires j < |stacks|
    ensures AllCrates(stacks[j := v]) + multiset(stacks[j]) == AllCrates(stacks) + multiset(v)
  {
    var n := |stacks| - 1;
    var updated := stacks[j := v];
    assert AllCrates(updated) == AllCrates(updated[..n]) + multiset(updated[n]);
    assert AllCrates(stacks) == AllCrates(stacks[..n]) + multiset(stacks[n]);
    if j < n {
      AllCratesUpdate(stacks[..n], j, v);
      assert updated[..n] == stacks[..n][j := v];
      assert updated[n] == stacks[n];
      calc {
        AllCrates(updated) + multiset(stacks[j]);
        AllCrates(stacks[..n][j := v]) + multiset(stacks[n]) + multiset(stacks[j]);
        AllCrates(stacks[..n]) + multiset(v) + multiset(stacks[n]);
      }
    } else {
      assert updated[..n] == stacks[..n];
    }
  }

  lemma MultisetCancel(a: multiset<char>, b: multiset<char>, x: multiset<char>)
    requires a + x == b + x
    ensures a == b
  {
    forall c | true
      ensures a[c] == b[c]
    {
      assert (a + x)[c] == (b + x)[c];
    }
  }

  /** Taking the top `n` crates off stack `j` sets exactly those aside. */
  lemma TakeConserves(stacks: seq<seq<char>>, j: nat, n: nat)
    requires j < |stacks| && n <= |stacks[j]|
    ensures AllCrates(stacks[j := stacks[j][n..]]) + multiset(stacks[j][..n]) == AllCrates(stacks)
  {
    var block, rest := stacks[j][..n], stacks[j][n..];
    AllCratesUpdate(stacks, j, rest);
    assert stacks[j] == block + rest;
    MultisetCancel(AllCrates(stacks[j := rest]) + multiset(block), AllCrates(stacks), multiset(rest));
  }

  /** Putting a block on top of stack `j` adds exactly its crates. */
  lemma PutConserves(stacks: seq<seq<char>>, j: nat, block: seq<char>)
    requires j < |stacks|
    ensures AllCrates(stacks[j := block + stacks[j]]) == AllCrates(stacks) + multiset(block)
  {
    AllCratesUpdate(stacks, j, block + stacks[j]);
    MultisetCancel(AllCrates(stacks[j := block + stacks[j]]), AllCrates(stacks) + multiset(block), multiset(stacks[j]));
  }

  /** A move neither creates nor destroys crates. */
  lemma MoveConserves(stacks: seq<seq<char>>, m: Move, multipleAtOnce: bool)
    requires ValidMove(stacks, m)
    ensures AllCrates(ApplyMove(stacks, m, multipleAtOnce)) == AllCrates(stacks)
  {
    if m.numCrates == 0 {
      return;
    }
    var block := stacks[m.fromStack][..m.numCrates];
    var removed := stacks[m.fromStack := stacks[m.fromStack][m.numCrates..]];
    TakeConserves(stacks, m.fromStack, m.numCrates);
    PutConserves(removed, m.toStack, Landing(block, multipleAtOnce));
    ReverseMultiset(block);
  }

  /** `executeMovements`, as a function: `None` when some move cannot be
      carried out (the source would throw). */
  function ApplyMoves(stacks: seq<seq<char>>, moves: seq<Move>, multipleAtOnce: bool): (r: Option<seq<seq<char>>>)
    ensures r.Some? ==> |r.value| == |stacks|
    decreases |moves|
  {
    if moves == [] then Some(stacks)
    else if !ValidMove(stacks, moves[0]) then None
    else ApplyMoves(ApplyMove(stacks, moves[0], multipleAtOnce), moves[1..], multipleAtOnce)
  }

  /** A move of no crates is skipped whatever stacks it names, even ones
      that do not exist (stack number 0, or one past the last stack). */
  lemma ZeroCratesSkipped(stacks: seq<seq<char>>, m: Move, rest: seq<Move>, multipleAtOnce: bool)
    requires m.numCrates == 0
    ensures ApplyMoves(stacks, [m] + rest, multipleAtOnce) == ApplyMoves(stacks, rest, multipleAtOnce)
  {
    assert ([m] + rest)[1..] == rest;
  }

  /** Every sequence of moves conserves the crates. */
  lemma {:induction false} MovesConserve(stacks: seq<seq<char>>, moves: seq<Move>, multipleAtOnce: bool)
    requires ApplyMoves(stacks, moves, multipleAtOnce).Some?
    ensures AllCrates(ApplyMoves(stacks, moves, multipleAtOnce).value) == AllCrates(stacks)
    decreases |moves|
  {
    if moves != [] {
      MoveConserves(stacks, moves[0], multipleAtOnce);
      MovesConserve(ApplyMove(stacks, moves[0], multipleAtOnce), moves[1..], multipleAtOnce);
    }
  }

  /** One parsed drawing row: the crate, if any, above each stack number. */
  type Row = seq<Option<char>>

  /** The crates of stack `j` in the drawing, read from the top row down. */
  function Column(rows: seq<Row>, j: nat): seq<char> {
    if rows == [] then []
    else (if j < |rows[0]| && rows[0][j].Some? then [rows[0][j].value] else []) + Column(rows[1..], j)
  }

  /** The stacks `parseStacks` builds from the drawing. */
  function InitialStacks(rows: seq<Row>, numStacks: nat): (stacks: seq<seq<char>>)
    ensures |stacks| == numStacks
    ensures forall k :: 0 <= k < numStacks ==> stacks[k] == Column(rows, k)
  {
    seq(numStacks, k requires 0 <= k < numStacks => Column(rows, k))
  }

  /** `play`'s answer: the front crate of every stack, in order; `first()`
      throws on an empty stack, which is `None` here. */
  function Tops(stacks: seq<seq<char>>): (r: Option<string>)
    ensures r.Some? <==> forall k :: 0 <= k < |stacks| ==> stacks[k] != []
    ensures r.Some? ==> |r.value| == |stacks| && forall k :: 0 <= k < |stacks| ==> r.value[k] == stacks[k][0]
  {
    if stacks == [] then Some([])
    else
      var init := Tops(stacks[..|stacks| - 1]);
      if init.None? || stacks[|stacks| - 1] == [] then None
      else Some(init.value + [stacks[|stacks| - 1][0]])
  }

  /** The stacks, each an `ArrayDeque` whose front is its top crate. */
  class CrateStacks {
    var stacks: seq<seq<char>>

    /** `repeat(numStacks) { stacks.add(ArrayDeque()) }`. */
    constructor (numStacks: nat)
      ensures |stacks| == numStacks && forall k :: 0 <= k < numStacks ==> stacks[k] == []
    {
      stacks := seq(numStacks, _ => []);
    }

    method AddFirst(j: nat, crate: char)
      requires j < |stacks|
      modifies this
      ensures stacks == old(stacks)[j := [crate] + old(stacks)[j]]
    {
      stacks := stacks[j := [crate] + stacks[j]];
    }

    method RemoveFirst(j: nat) returns (crate: char)
      requires j < |stacks| && stacks[j] != []
      modifies this
      ensures crate == old(stacks)[j][0]
      ensures stacks == old(stacks)[j := old(stacks)[j][1..]]
    {
      crate := stacks[j][0];
      stacks := stacks[j := stacks[j][1..]];
    }

    /** The stack-building part of `parseStacks`: the drawing rows are read
        bottom-up and each crate is pushed on the front of its stack, so the
        top row's crates end up in front. */
    method LoadRows(rows: seq<Row>)
      requires forall i :: 0 <= i < |rows| ==> |rows[i]| <= |stacks|
      requires forall k :: 0 <= k < |stacks| ==> stacks[k] == []
      modifies this
      ensures |stacks| == old(|stacks|)
      ensures forall k :: 0 <= k < |stacks| ==> stacks[k] == Column(rows, k)
    {
      var i := |rows|;
      while i > 0
        invariant 0 <= i <= |rows|
        invariant |stacks| == old(|stacks|)
        invariant forall k :: 0 <= k < |stacks| ==> stacks[k] == Column(rows[i..], k)
      {
        i := i - 1;
        var row := rows[i];
        assert rows[i..][1..] == rows[i + 1..];
        for j := 0 to |row|
          invariant |stacks| == old(|stacks|)
          invariant forall k :: 0 <= k < j ==> stacks[k] == Column(rows[i..], k)
          invariant forall k :: j <= k < |stacks| ==> stacks[k] == Column(rows[i + 1..], k)
        {
          if row[j].Some? {
            AddFirst(j, row[j].value);
          }
        }
      }
    }

    /** One move of `executeMovements`: the crates are removed one by one
        into a list, which the newer crane reverses when it moves several,
        and then pushed one by one on the destination. */
    method ExecuteMove(m: Move, multipleAtOnce: bool)
      requires ValidMove(stacks, m)
      modifies this
      ensures stacks == ApplyMove(old(stacks), m, multipleAtOnce)
    {
      if m.numCrates == 0 {
        // both loops of the source run zero times: no stack is indexed
        return;
      }
      var source := stacks[m.fromStack];
      var crates: seq<char> := [];
      for i := 0 to m.numCrates
        invariant crates == source[..i]
        invariant stacks == old(stacks)[m.fromStack := source[i..]]
      {
        var crate := RemoveFirst(m.fromStack);
        crates := crates + [crate];
      }
      if m.numCrates > 1 && multipleAtOnce {
        crates := Reverse(crates);
      }
      ghost var removed := stacks;
      assert Reverse(crates[..0]) == [];
      assert Reverse(crates[..0]) + removed[m.toStack] == removed[m.toStack];
      for i := 0 to |crates|
        invariant stacks == removed[m.toStack := Reverse(crates[..i]) + removed[m.toStack]]
      {
        assert Reverse(crates[..i + 1]) == [crates[i]] + Reverse(crates[..i]);
        assert Reverse(crates[..i + 1]) + removed[m.toStack] == [crates[i]] + (Reverse(crates[..i]) + removed[m.toStack]);
        AddFirst(m.toStack, crates[i]);
      }
      assert crates[..|crates|] == crates;
      ghost var block := source[..m.numCrates];
      if m.numCrates > 1 && multipleAtOnce {
        ReverseReverse(block);
      }
    }

    /** `executeMovements`: the moves in order. A move that cannot be
        carried out stops the run with `ok` false, where the source throws
        (`removeFirst` on an empty deque or a missing stack index). */
    method ExecuteMovements(moves: seq<Move>, multipleAtOnce: bool) returns (ok: bool)
      modifies this
      ensures ok <==> ApplyMoves(old(stacks), moves, multipleAtOnce).Some?
      ensures ok ==> stacks == ApplyMoves(old(stacks), moves, multipleAtOnce).value
    {
      for i := 0 to |moves|
        invariant ApplyMoves(stacks, moves[i..], multipleAtOnce) == ApplyMoves(old(stacks), moves, multipleAtOnce)
      {
        assert moves[i..][1..] == moves[i + 1..];
        if !ValidMove(stacks, moves[i]) {
          return false;
        }
        ExecuteMove(moves[i], multipleAtOnce);
      }
      ok := true;
    }
  }

  /** `play`: builds the stacks from the drawing, carries out the moves
      (given with one-based stack numbers) and reads the top crates. */
  method Play(numStacks: nat, rows: seq<Row>, moves: seq<(nat, nat, nat)>, multipleAtOnce: bool)
    returns (tops: Option<string>)
    requires forall i :: 0 <= i < |rows| ==> |rows[i]| <= numStacks
    ensures ApplyMoves(InitialStacks(rows, numStacks), ZeroBased(moves), multipleAtOnce).None? ==> tops == None
    ensures ApplyMoves(InitialStacks(rows, numStacks), ZeroBased(moves), multipleAtOnce).Some? ==>
      tops == Tops(ApplyMoves(InitialStacks(rows, numStacks), ZeroBased(moves), multipleAtOnce).value)
  {
    var crates := new CrateStacks(numStacks);
    crates.LoadRows(rows);
    assert crates.stacks == InitialStacks(rows, numStacks);
    var ok := crates.ExecuteMovements(ZeroBased(moves), multipleAtOnce);
    if !ok {
      return None;
    }
    tops := Tops(crates.stacks);
  }

  /** The index shift of `parseMovements` over all moves. */
  function ZeroBased(moves: seq<(nat, nat, nat)>): (r: seq<Move>)
    ensures |r| == |moves|
    ensures forall i :: 0 <= i < |moves| ==> r[i] == MoveFromNumbers(moves[i].0, moves[i].1, moves[i].2)
  {
    seq(|moves|, i requires 0 <= i < |moves| => MoveFromNumbers(moves[i].0, moves[i].1, moves[i].2))
  }

  /** The sample drawing: stack 1 holds N over Z, stack 2 D over C over M,
      stack 3 only P. */
  const SampleRows: seq<Row> := [[None, Some('D')], [Some('N'), Some('C')], [Some('Z'), Some('M'), Some('P')]]
  const SampleMoves: seq<(nat, nat, nat)> := [(1, 2, 1), (3, 1, 3), (2, 2, 1), (1, 1, 2)]

  lemma SampleStacks()
    ensures InitialStacks(SampleRows, 3) == ["NZ", "DCM", "P"]
  {
    var rows := SampleRows;
    assert rows[1..][1..][1..] == [];
    assert Column(rows, 0) == "NZ";
    assert Column(rows, 1) == "DCM";
    assert Column(rows, 2) == "P";
  }

  lemma MoveResult(stacks: seq<seq<char>>, m: Move, multipleAtOnce: bool, r: seq<seq<char>>)
    requires Performable(stacks, m) && m.numCrates > 0 && m.fromStack != m.toStack && |r| == |stacks|
    requires r[m.fromStack] == stacks[m.fromStack][m.numCrates..]
    requires r[m.toStack] == Landing(stacks[m.fromStack][..m.numCrates], multipleAtOnce) + stacks[m.toStack]
    requires forall k :: 0 <= k < |r| && k != m.fromStack && k != m.toStack ==> r[k] == stacks[k]
    ensures ApplyMove(stacks, m, multipleAtOnce) == r
  {
  }

  function SampleStart(): seq<seq<char>> {
    ["NZ", "DCM", "P"]
  }

  lemma SampleMovesZeroBased()
    ensures ZeroBased(SampleMoves) == [Move(1, 1, 0), Move(3, 0, 2), Move(2, 1, 0), Move(1, 0, 1)]
  {
  }

  const SampleZeroBased: seq<Move> := [Move(1, 1, 0), Move(3, 0, 2), Move(2, 1, 0), Move(1, 0, 1)]

  /** The old crane's four steps on the sample. */
  lemma SampleSteps1()
    ensures ValidMove(SampleStart(), SampleZeroBased[0])
      && ApplyMove(SampleStart(), SampleZeroBased[0], false) == ["DNZ", "CM", "P"]
    ensures ValidMove(["DNZ", "CM", "P"], SampleZeroBased[1])
      && ApplyMove(["DNZ", "CM", "P"], SampleZeroBased[1], false) == ["", "CM", "ZNDP"]
    ensures ValidMove(["", "CM", "ZNDP"], SampleZeroBased[2])
      && ApplyMove(["", "CM", "ZNDP"], SampleZeroBased[2], false) == ["MC", "", "ZNDP"]
    ensures ValidMove(["MC", "", "ZNDP"], SampleZeroBased[3])
      && ApplyMove(["MC", "", "ZNDP"], SampleZeroBased[3], false) == ["C", "M", "ZNDP"]
  {
    var moves := SampleZeroBased;
    assert Reverse("D") == "D" && Reverse("DNZ") == "ZND" && Reverse("CM") == "MC" && Reverse("M") == "M";
    assert "DCM"[..1] == "D" && "DCM"[1..] == "CM";
    MoveResult(SampleStart(), moves[0], false, ["DNZ", "CM", "P"]);
    assert "DNZ"[..3] == "DNZ" && "DNZ"[3..] == "";
    MoveResult(["DNZ", "CM", "P"], moves[1], false, ["", "CM", "ZNDP"]);
    assert "CM"[..2] == "CM" && "CM"[2..] == "";
    MoveResult(["", "CM", "ZNDP"], moves[2], false, ["MC", "", "ZNDP"]);
    assert "MC"[..1] == "M" && "MC"[1..] == "C";
    MoveResult(["MC", "", "ZNDP"], moves[3], false, ["C", "M", "ZNDP"]);
  }

  /** The old crane leaves C, M and Z on top. */
  lemma SamplePart1()
    ensures ApplyMoves(SampleStart(), ZeroBased(SampleMoves), false) == Some(["C", "M", "ZNDP"])
  {
    SampleMovesZeroBased();
    SampleSteps1();
    var m := SampleZeroBased;
    assert m[4..] == [];
    assert m[3..][1..] == m[4..];
    assert m[2..][1..] == m[3..];
    assert m[1..][1..] == m[2..];
    assert ApplyMoves(["C", "M", "ZNDP"], m[4..], false) == Some(["C", "M", "ZNDP"]);
    assert ApplyMoves(["MC", "", "ZNDP"], m[3..], false) == Some(["C", "M", "ZNDP"]);
    assert ApplyMoves(["", "CM", "ZNDP"], m[2..], false) == Some(["C", "M", "ZNDP"]);
    assert ApplyMoves(["DNZ", "CM", "P"], m[1..], false) == Some(["C", "M", "ZNDP"]);
  }

  /** The new crane's four steps on the sample. */
  lemma SampleSteps2()
    ensures ValidMove(SampleStart(), SampleZeroBased[0])
      && ApplyMove(SampleStart(), SampleZeroBased[0], true) == ["DNZ", "CM", "P"]
    ensures ValidMove(["DNZ", "CM", "P"], SampleZeroBased[1])
      && ApplyMove(["DNZ", "CM", "P"], SampleZeroBased[1], true) == ["", "CM", "DNZP"]
    ensures ValidMove(["", "CM", "DNZP"], SampleZeroBased[2])
      && ApplyMove(["", "CM", "DNZP"], SampleZeroBased[2], true) == ["CM", "", "DNZP"]
    ensures ValidMove(["CM", "", "DNZP"], SampleZeroBased[3])
      && ApplyMove(["CM", "", "DNZP"], SampleZeroBased[3], true) == ["M", "C", "DNZP"]
  {
    var moves := SampleZeroBased;
    assert Reverse("D") == "D" && Reverse("C") == "C";
    assert "DCM"[..1] == "D" && "DCM"[1..] == "CM";
    MoveResult(SampleStart(), moves[0], true, ["DNZ", "CM", "P"]);
    assert "DNZ"[..3] == "DNZ" && "DNZ"[3..] == "";
    MoveResult(["DNZ", "CM", "P"], moves[1], true, ["", "CM", "DNZP"]);
    assert "CM"[..2] == "CM" && "CM"[2..] == "";
    MoveResult(["", "CM", "DNZP"], moves[2], true, ["CM", "", "DNZP"]);
    assert "CM"[..1] == "C" && "CM"[1..] == "M";
    MoveResult(["CM", "", "DNZP"], moves[3], true, ["M", "C", "DNZP"]);
  }

  /** The new crane leaves M, C and D on top. */
  lemma SamplePart2()
    ensures ApplyMoves(SampleStart(), ZeroBased(SampleMoves), true) == Some(["M", "C", "DNZP"])
  {
    SampleMovesZeroBased();
    SampleSteps2();
    var m := SampleZeroBased;
    assert m[4..] == [];
    assert m[3..][1..] == m[4..];
    assert m[2..][1..] == m[3..];
    assert m[1..][1..] == m[2..];
    assert ApplyMoves(["M", "C", "DNZP"], m[4..], true) == Some(["M", "C", "DNZP"]);
    assert ApplyMoves(["CM", "", "DNZP"], m[3..], true) == Some(["M", "C", "DNZP"]);
    assert ApplyMoves(["", "CM", "DNZP"], m[2..], true) == Some(["M", "C", "DNZP"]);
    assert ApplyMoves(["DNZ", "CM", "P"], m[1..], true) == Some(["M", "C", "DNZP"]);
  }

  /** The top crates spell "CMZ" after the old crane and "MCD" after the
      new one. */
  lemma SampleTops()
    ensures Tops(["C", "M", "ZNDP"]) == Some("CMZ")
    ensures Tops(["M", "C", "DNZP"]) == Some("MCD")
  {
    var r1 := Tops(["C", "M", "ZNDP"]);
    assert r1.Some? && r1.value[0] == 'C' && r1.value[1] == 'M' && r1.value[2] == 'Z';
    assert |r1.value| == 3;
    assert r1.value == "CMZ";
    var r2 := Tops(["M", "C", "DNZP"]);
    assert r2.Some? && r2.value[0] == 'M' && r2.value[1] == 'C' && r2.value[2] == 'D';
    assert |r2.value| == 3;
    assert r2.value == "MCD";
  }
}
