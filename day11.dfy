/** Monkey in the middle: monkeys inspect the items they hold, change
    their worry levels, and throw each to another monkey chosen by a
    divisibility test. */
module Day11 {
  import opened Common

  const RoundsPartOne := 20
  const RoundsPartTwo := 10000

  /** The right operand of `new = old <op> <value>`. */
  datatype Operand = Old | Constant(value: nat)

  /** The four functions `parseOperation` can build. */
  datatype Operation = Square | Double | Add(addend: nat) | Multiply(factor: nat)

  function Apply(operation: Operation, worry: nat): nat {
    match operation
    case Square => worry * worry
    case Double => worry + worry
    case Add(c) => worry + c
    case Multiply(c) => worry * c
  }

  /** `parseOperation`: the squaring and doubling forms are recognised
      first; otherwise the operand must be a number (`toLong` fails on
      "old" with any other operator). */
  function ParseOperation(operator: char, operand: Operand): Option<Operation> {
    if operator == '*' && operand == Old then Some(Square)
    else if operator == '+' && operand == Old then Some(Double)
    else if operand == Old then None
    else if operator == '+' then Some(Add(operand.value))
    else Some(Multiply(operand.value))
  }

  /** The parsed function computes `old + value` for '+' and `old * value`
      for '*', with "old" standing for the old value itself. */
  lemma ParseOperationMeaning(operator: char, operand: Operand, worry: nat)
    requires operator == '+' || operator == '*'
    ensures ParseOperation(operator, operand).Some?
    ensures var value := if operand == Old then worry else operand.value;
      Apply(ParseOperation(operator, operand).value, worry)
        == if operator == '+' then worry + value else worry * value
  {
  }

  /** A monkey with its operation, its test `worry % divisor == 0` and the
      two monkeys of its `throwMap`. */
  datatype Monkey = Monkey(items: seq<nat>, operation: Operation, divisor: nat, ifTrue: nat, ifFalse: nat)

  /** The conditions under which `play` does not fail: every divisor is
      positive, and every monkey throws to another monkey that exists (a
      monkey throwing to itself would change the list being iterated). */
  predicate WellFormed(monkeys: seq<Monkey>) {
    forall i :: 0 <= i < |monkeys| ==>
      && monkeys[i].divisor > 0
      && monkeys[i].ifTrue < |monkeys| && monkeys[i].ifTrue != i
      && monkeys[i].ifFalse < |monkeys| && monkeys[i].ifFalse != i
  }

  /** How worry is reduced after an inspection: divided by three in part 1,
      reduced modulo the divisors' product in part 2; `Keep` is exact
      arithmetic, the reference the reduction is compared with. */
  datatype Relief = DivideByThree | Modulo(modulus: nat) | Keep {
    predicate Valid() {
      Modulo? ==> modulus > 0
    }
  }

  function Relieve(worry: nat, relief: Relief): nat
    requires relief.Valid()
  {
    match relief
    case DivideByThree => worry / 3
    case Modulo(m) => worry % m
    case Keep => worry
  }

  /** The new worry level of an item inspected by `monkey`. */
  function Inspect(monkey: Monkey, worry: nat, relief: Relief): nat
    requires relief.Valid()
  {
    Relieve(Apply(monkey.operation, worry), relief)
  }

  /** `throwMap[test(worry)]`. */
  function Target(monkey: Monkey, worry: nat): nat
    requires monkey.divisor > 0
  {
    if worry % monkey.divisor == 0 then monkey.ifTrue else monkey.ifFalse
  }

  /** The items each monkey holds and the inspections counted so far (a
      monkey is in the map once it has inspected an item). */
  datatype State = State(items: seq<seq<nat>>, inspected: map<nat, nat>)

  function InitialState(monkeys: seq<Monkey>): (r: State)
    ensures |r.items| == |monkeys|
  {
    State(seq(|monkeys|, i requires 0 <= i < |monkeys| => monkeys[i].items), map[])
  }

  function Count(inspected: map<nat, nat>, i: nat): nat {
    if i in inspected then inspected[i] else 0
  }

  predicate Fits(state: State, monkeys: seq<Monkey>) {
    WellFormed(monkeys) && |state.items| == |monkeys|
  }

  /** Monkey `i` inspects one item of worry `worry`: its count goes up by
      one and the item, with its new worry level, goes to the end of the
      target's list. */
  function ThrowItem(state: State, monkeys: seq<Monkey>, i: nat, worry: nat, relief: Relief): (r: State)
    requires Fits(state, monkeys) && i < |monkeys| && relief.Valid()
    ensures |r.items| == |state.items|
  {
    var inspected := state.inspected[i := Count(state.inspected, i) + 1];
    var newWorry := Inspect(monkeys[i], worry, relief);
    var target := Target(monkeys[i], newWorry);
    State(state.items[target := state.items[target] + [newWorry]], inspected)
  }

  /** Monkey `i` inspects the items `worries` in order. */
  function ThrowItems(state: State, monkeys: seq<Monkey>, i: nat, worries: seq<nat>, relief: Relief): (r: State)
    requires Fits(state, monkeys) && i < |monkeys| && relief.Valid()
    ensures |r.items| == |state.items|
  {
    if worries == [] then state
    else
      ThrowItem(ThrowItems(state, monkeys, i, worries[..|worries| - 1], relief), monkeys, i, worries[|worries| - 1], relief)
  }

  /** Monkey `i`'s turn: it inspects all it holds and ends empty-handed. */
  function Turn(state: State, monkeys: seq<Monkey>, i: nat, relief: Relief): (r: State)
    requires Fits(state, monkeys) && i < |monkeys| && relief.Valid()
    ensures |r.items| == |state.items|
  {
    var thrown := ThrowItems(state, monkeys, i, state.items[i], relief);
    thrown.(items := thrown.items[i := []])
  }

  /** The turns of monkeys `0` to `k - 1`, in order. */
  function Turns(state: State, monkeys: seq<Monkey>, k: nat, relief: Relief): (r: State)
    requires Fits(state, monkeys) && k <= |monkeys| && relief.Valid()
    ensures |r.items| == |state.items|
  {
    if k == 0 then state
    else Turn(Turns(state, monkeys, k - 1, relief), monkeys, k - 1, relief)
  }

  function Round(state: State, monkeys: seq<Monkey>, relief: Relief): (r: State)
    requires Fits(state, monkeys) && relief.Valid()
    ensures |r.items| == |state.items|
  {
    Turns(state, monkeys, |monkeys|, relief)
  }

  function Rounds(state: State, monkeys: seq<Monkey>, n: nat, relief: Relief): (r: State)
    requires Fits(state, monkeys) && relief.Valid()
    ensures |r.items| == |state.items|
  {
    if n == 0 then state else Round(Rounds(state, monkeys, n - 1, relief), monkeys, relief)
  }

  // ---------------------------------------------------------------------
  // What a turn does

  /** The new worry levels of the items of `worries` that `monkey` throws
      to `j`, in order. */
  function ThrownTo(monkey: Monkey, worries: seq<nat>, j: nat, relief: Relief): seq<nat>
    requires monkey.divisor > 0 && relief.Valid()
  {
    if worries == [] then []
    else
      var w := Inspect(monkey, worries[|worries| - 1], relief);
      ThrownTo(monkey, worries[..|worries| - 1], j, relief) + (if Target(monkey, w) == j then [w] else [])
  }

  lemma {:induction false} ThrowItemsMeaning(state: State, monkeys: seq<Monkey>, i: nat, worries: seq<nat>, relief: Relief)
    requires Fits(state, monkeys) && i < |monkeys| && relief.Valid()
    ensures var r := ThrowItems(state, monkeys, i, worries, relief);
      && Count(r.inspected, i) == Count(state.inspected, i) + |worries|
      && (forall k :: k != i ==> Count(r.inspected, k) == Count(state.inspected, k))
      && (forall k :: k in r.inspected <==> k in state.inspected || (k == i && worries != []))
      && r.items[i] == state.items[i]
      && forall j :: 0 <= j < |monkeys| && j != i ==>
        r.items[j] == state.items[j] + ThrownTo(monkeys[i], worries, j, relief)
  {
    if worries != [] {
      ThrowItemsMeaning(state, monkeys, i, worries[..|worries| - 1], relief);
    }
  }

  /** During its turn a monkey inspects every item it holds, once each: its
      count goes up by the number of items and no other count changes; it
      ends with no items, and every other monkey receives, at the end of
      its list, exactly the items whose test sends them there. */
  lemma TurnMeaning(state: State, monkeys: seq<Monkey>, i: nat, relief: Relief)
    requires Fits(state, monkeys) && i < |monkeys| && relief.Valid()
    ensures var r := Turn(state, monkeys, i, relief);
      && Count(r.inspected, i) == Count(state.inspected, i) + |state.items[i]|
      && (forall k :: k != i ==> Count(r.inspected, k) == Count(state.inspected, k))
      && r.items[i] == []
      && forall j :: 0 <= j < |monkeys| && j != i ==>
        r.items[j] == state.items[j] + ThrownTo(monkeys[i], state.items[i], j, relief)
  {
    ThrowItemsMeaning(state, monkeys, i, state.items[i], relief);
  }

  // ---------------------------------------------------------------------
  // Items are neither lost nor created

  function Lengths(items: seq<seq<nat>>): (r: seq<int>)
    ensures |r| == |items|
  {
    seq(|items|, j requires 0 <= j < |items| => |items[j]|)
  }

  function TotalItems(items: seq<seq<nat>>): int {
    Sum(Lengths(items))
  }

  lemma {:induction false} SumUpdate(s: seq<int>, j: nat, v: int)
    requires j < |s|
    ensures Sum(s[j := v]) == Sum(s) - s[j] + v
    decreases |s|
  {
    var n := |s| - 1;
    if j < n {
      SumUpdate(s[..n], j, v);
      assert s[j := v][..n] == s[..n][j := v];
    } else {
      assert s[j := v][..n] == s[..n];
    }
  }

  lemma TotalItemsUpdate(items: seq<seq<nat>>, j: nat, list: seq<nat>)
    requires j < |items|
    ensures TotalItems(items[j := list]) == TotalItems(items) - |items[j]| + |list|
  {
    assert Lengths(items[j := list]) == Lengths(items)[j := |list|];
    SumUpdate(Lengths(items), j, |list|);
  }

  lemma {:induction false} ThrowItemsTotal(state: State, monkeys: seq<Monkey>, i: nat, worries: seq<nat>, relief: Relief)
    requires Fits(state, monkeys) && i < |monkeys| && relief.Valid()
    ensures TotalItems(ThrowItems(state, monkeys, i, worries, relief).items) == TotalItems(state.items) + |worries|
  {
    if worries != [] {
      var init := worries[..|worries| - 1];
      ThrowItemsTotal(state, monkeys, i, init, relief);
      var before := ThrowItems(state, monkeys, i, init, relief);
      var w := Inspect(monkeys[i], worries[|worries| - 1], relief);
      var t := Target(monkeys[i], w);
      TotalItemsUpdate(before.items, t, before.items[t] + [w]);
    }
  }

  /** A turn moves items between monkeys without losing any. */
  lemma TurnKeepsTotal(state: State, monkeys: seq<Monkey>, i: nat, relief: Relief)
    requires Fits(state, monkeys) && i < |monkeys| && relief.Valid()
    ensures TotalItems(Turn(state, monkeys, i, relief).items) == TotalItems(state.items)
  {
    ThrowItemsTotal(state, monkeys, i, state.items[i], relief);
    ThrowItemsMeaning(state, monkeys, i, state.items[i], relief);
    var thrown := ThrowItems(state, monkeys, i, state.items[i], relief);
    TotalItemsUpdate(thrown.items, i, []);
  }

  lemma {:induction false} TurnsKeepTotal(state: State, monkeys: seq<Monkey>, k: nat, relief: Relief)
    requires Fits(state, monkeys) && k <= |monkeys| && relief.Valid()
    ensures TotalItems(Turns(state, monkeys, k, relief).items) == TotalItems(state.items)
  {
    if k > 0 {
      TurnsKeepTotal(state, monkeys, k - 1, relief);
      TurnKeepsTotal(Turns(state, monkeys, k - 1, relief), monkeys, k - 1, relief);
    }
  }

  /** Any number of rounds keeps the number of items in play. */
  lemma {:induction false} RoundsKeepTotal(state: State, monkeys: seq<Monkey>, n: nat, relief: Relief)
    requires Fits(state, monkeys) && relief.Valid()
    ensures TotalItems(Rounds(state, monkeys, n, relief).items) == TotalItems(state.items)
  {
    if n > 0 {
      RoundsKeepTotal(state, monkeys, n - 1, relief);
      TurnsKeepTotal(Rounds(state, monkeys, n - 1, relief), monkeys, |monkeys|, relief);
    }
  }

  // ---------------------------------------------------------------------
  // Worry reduction modulo the product of the divisors

  /** The divisors in order of first appearance, each once: the iteration
      order of the set built while parsing. */
  function Dividends(monkeys: seq<Monkey>): (r: seq<nat>)
    ensures forall i :: 0 <= i < |monkeys| ==> monkeys[i].divisor in r
    ensures forall d :: d in r ==> exists i :: 0 <= i < |monkeys| && monkeys[i].divisor == d
    ensures |r| == 0 <==> |monkeys| == 0
  {
    if monkeys == [] then []
    else
      var init := Dividends(monkeys[..|monkeys| - 1]);
      var d := monkeys[|monkeys| - 1].divisor;
      assert forall i :: 0 <= i < |monkeys| - 1 ==> monkeys[..|monkeys| - 1][i] == monkeys[i];
      if d in init then init else init + [d]
  }

  function Product(s: seq<nat>): nat {
    if s == [] then 1 else Product(s[..|s| - 1]) * s[|s| - 1]
  }

  /** Every element of the sequence divides its product. */
  lemma {:induction false} ProductMultiple(s: seq<nat>, d: nat)
    requires d in s
    ensures exists e: nat :: Product(s) == d * e
  {
    var n := |s| - 1;
    if s[n] == d {
      assert Product(s) == d * Product(s[..n]);
    } else {
      assert d in s[..n];
      ProductMultiple(s[..n], d);
      var e: nat :| Product(s[..n]) == d * e;
      MultiplyAssociative(d, e, s[n]);
    }
  }

  lemma MultiplyAssociative(a: int, b: int, c: int)
    ensures (a * b) * c == a * (b * c)
  {
  }

  lemma {:induction false} ProductPositive(s: seq<nat>)
    requires forall k :: 0 <= k < |s| ==> s[k] > 0
    ensures Product(s) > 0
  {
    if s != [] {
      ProductPositive(s[..|s| - 1]);
    }
  }

  lemma MultiplyBounds(x: int, m: int)
    requires m > 0
    ensures x >= 1 ==> x * m >= m
    ensures x <= -1 ==> x * m <= -m
  {
  }

  /** `r` is the remainder of `a` by `m` whenever `a = q * m + r` with
      `0 <= r < m`. */
  lemma ModUnique(a: int, m: int, q: int, r: int)
    requires m > 0 && 0 <= r < m && a == q * m + r
    ensures a % m == r
  {
    var q', r' := a / m, a % m;
    assert (q - q') * m == r' - r;
    MultiplyBounds(q - q', m);
  }

  /** Adding a multiple of `m` keeps the remainder. */
  lemma ModShift(a: int, t: int, m: int)
    requires m > 0
    ensures (a + t * m) % m == a % m
  {
    assert a + t * m == (a / m + t) * m + a % m;
    ModUnique(a + t * m, m, a / m + t, a % m);
  }

  /** `a` and `b` leave the same remainder modulo `m`. */
  predicate Congruent(a: int, b: int, m: int)
    requires m > 0
  {
    a % m == b % m
  }

  lemma CongruentDifference(a: int, b: int, m: int)
    requires m > 0 && Congruent(a, b, m)
    ensures a == b + (a / m - b / m) * m
  {
  }

  /** Congruent values stay congruent through any operation. */
  lemma ApplyCongruent(operation: Operation, a: nat, b: nat, m: nat)
    requires m > 0 && Congruent(a, b, m)
    ensures Congruent(Apply(operation, a), Apply(operation, b), m)
  {
    CongruentDifference(a, b, m);
    ApplyShift(operation, a, b, a / m - b / m, m);
  }

  /** An operation applied to `b` and to `b` plus a multiple of `m` gives
      congruent results. */
  lemma ApplyShift(operation: Operation, a: nat, b: nat, t: int, m: nat)
    requires m > 0 && a == b + t * m
    ensures Congruent(Apply(operation, a), Apply(operation, b), m)
  {
    match operation
    case Square =>
      SquareShift(a, b, t, m);
      ModShift(b * b, 2 * b * t + t * t * m, m);
    case Double =>
      assert a + a == b + b + (2 * t) * m;
      ModShift(b + b, 2 * t, m);
    case Add(c) =>
      assert a + c == b + c + t * m;
      ModShift(b + c, t, m);
    case Multiply(c) =>
      ProductShift(a, b, c, t, m);
      ModShift(b * c, t * c, m);
  }

  lemma SquareShift(a: int, b: int, t: int, m: int)
    requires a == b + t * m
    ensures a * a == b * b + (2 * b * t + t * t * m) * m
  {
    calc {
      a * a;
      (b + t * m) * (b + t * m);
      b * b + 2 * b * (t * m) + (t * m) * (t * m);
      b * b + (2 * b * t + t * t * m) * m;
    }
  }

  lemma ProductShift(a: int, b: int, c: int, t: int, m: int)
    requires a == b + t * m
    ensures a * c == b * c + (t * c) * m
  {
    calc {
      a * c;
      (b + t * m) * c;
      b * c + (t * m) * c;
      b * c + (t * c) * m;
    }
  }

  /** Values congruent modulo `m` are congruent modulo any divisor of
      `m`. */
  lemma CongruentDivisor(a: int, b: int, m: int, d: int, e: int)
    requires m > 0 && d > 0 && e > 0 && m == d * e && Congruent(a, b, m)
    ensures Congruent(a, b, d)
  {
    CongruentDifference(a, b, m);
    assert a == b + ((a / m - b / m) * e) * d;
    ModShift(b, (a / m - b / m) * e, d);
  }

  lemma ModIdempotent(a: int, m: int)
    requires m > 0
    ensures Congruent(a % m, a, m)
  {
    ModUnique(a % m, m, 0, a % m);
  }

  /** Two runs whose states agree up to multiples of `m`: the same counts,
      the same number of items in each hand, and congruent worry levels. */
  predicate Agree(reduced: State, exact: State, m: nat)
    requires m > 0
  {
    && reduced.inspected == exact.inspected
    && |reduced.items| == |exact.items|
    && forall j :: 0 <= j < |reduced.items| ==>
      && |reduced.items[j]| == |exact.items[j]|
      && forall k :: 0 <= k < |reduced.items[j]| ==> Congruent(reduced.items[j][k], exact.items[j][k], m)
  }

  /** Every divisor divides `m`. */
  predicate Divides(monkeys: seq<Monkey>, m: nat)
    requires WellFormed(monkeys)
  {
    forall i :: 0 <= i < |monkeys| ==> m % monkeys[i].divisor == 0
  }

  /** Reduced modulo `m` and exact, an inspection sends an item to the same
      monkey, with congruent worry levels. */
  lemma InspectAgrees(monkeys: seq<Monkey>, i: nat, a: nat, b: nat, m: nat)
    requires WellFormed(monkeys) && i < |monkeys| && m > 0 && Divides(monkeys, m)
    requires Congruent(a, b, m)
    ensures Congruent(Inspect(monkeys[i], a, Modulo(m)), Inspect(monkeys[i], b, Keep), m)
    ensures Target(monkeys[i], Inspect(monkeys[i], a, Modulo(m))) == Target(monkeys[i], Inspect(monkeys[i], b, Keep))
  {
    var x, y := Apply(monkeys[i].operation, a), Apply(monkeys[i].operation, b);
    ApplyCongruent(monkeys[i].operation, a, b, m);
    ModIdempotent(x, m);
    var d := monkeys[i].divisor;
    var e := m / d;
    assert m == d * e;
    CongruentDivisor(x % m, y, m, d, e);
  }

  lemma {:induction false} ThrowItemsAgree(reduced: State, exact: State, monkeys: seq<Monkey>, i: nat, a: seq<nat>, b: seq<nat>, m: nat)
    requires Fits(reduced, monkeys) && Fits(exact, monkeys) && i < |monkeys| && m > 0 && Divides(monkeys, m)
    requires Agree(reduced, exact, m)
    requires |a| == |b| && forall k :: 0 <= k < |a| ==> Congruent(a[k], b[k], m)
    ensures Agree(ThrowItems(reduced, monkeys, i, a, Modulo(m)), ThrowItems(exact, monkeys, i, b, Keep), m)
  {
    if a != [] {
      var n := |a| - 1;
      ThrowItemsAgree(reduced, exact, monkeys, i, a[..n], b[..n], m);
      var r := ThrowItems(reduced, monkeys, i, a[..n], Modulo(m));
      var x := ThrowItems(exact, monkeys, i, b[..n], Keep);
      InspectAgrees(monkeys, i, a[n], b[n], m);
      var t := Target(monkeys[i], Inspect(monkeys[i], a[n], Modulo(m)));
      var r' := ThrowItem(r, monkeys, i, a[n], Modulo(m));
      var x' := ThrowItem(x, monkeys, i, b[n], Keep);
      forall j | 0 <= j < |r'.items|
        ensures |r'.items[j]| == |x'.items[j]|
        ensures forall k :: 0 <= k < |r'.items[j]| ==> Congruent(r'.items[j][k], x'.items[j][k], m)
      {
        if j == t {
          assert forall k :: 0 <= k < |r.items[j]| ==> r'.items[j][k] == r.items[j][k] && x'.items[j][k] == x.items[j][k];
        } else {
          assert r'.items[j] == r.items[j] && x'.items[j] == x.items[j];
        }
      }
    }
  }

  lemma TurnAgrees(reduced: State, exact: State, monkeys: seq<Monkey>, i: nat, m: nat)
    requires Fits(reduced, monkeys) && Fits(exact, monkeys) && i < |monkeys| && m > 0 && Divides(monkeys, m)
    requires Agree(reduced, exact, m)
    ensures Agree(Turn(reduced, monkeys, i, Modulo(m)), Turn(exact, monkeys, i, Keep), m)
  {
    ThrowItemsAgree(reduced, exact, monkeys, i, reduced.items[i], exact.items[i], m);
    var r := ThrowItems(reduced, monkeys, i, reduced.items[i], Modulo(m));
    var x := ThrowItems(exact, monkeys, i, exact.items[i], Keep);
    var r', x' := r.items[i := []], x.items[i := []];
    forall j | 0 <= j < |r'|
      ensures |r'[j]| == |x'[j]|
      ensures forall k :: 0 <= k < |r'[j]| ==> Congruent(r'[j][k], x'[j][k], m)
    {
      if j != i {
        assert r'[j] == r.items[j] && x'[j] == x.items[j];
      }
    }
  }

  lemma {:induction false} TurnsAgree(reduced: State, exact: State, monkeys: seq<Monkey>, k: nat, m: nat)
    requires Fits(reduced, monkeys) && Fits(exact, monkeys) && k <= |monkeys| && m > 0 && Divides(monkeys, m)
    requires Agree(reduced, exact, m)
    ensures Agree(Turns(reduced, monkeys, k, Modulo(m)), Turns(exact, monkeys, k, Keep), m)
  {
    if k > 0 {
      TurnsAgree(reduced, exact, monkeys, k - 1, m);
      TurnAgrees(Turns(reduced, monkeys, k - 1, Modulo(m)), Turns(exact, monkeys, k - 1, Keep), monkeys, k - 1, m);
    }
  }

  lemma {:induction false} RoundsAgree(reduced: State, exact: State, monkeys: seq<Monkey>, n: nat, m: nat)
    requires Fits(reduced, monkeys) && Fits(exact, monkeys) && m > 0 && Divides(monkeys, m)
    requires Agree(reduced, exact, m)
    ensures Agree(Rounds(reduced, monkeys, n, Modulo(m)), Rounds(exact, monkeys, n, Keep), m)
  {
    if n > 0 {
      RoundsAgree(reduced, exact, monkeys, n - 1, m);
      TurnsAgree(Rounds(reduced, monkeys, n - 1, Modulo(m)), Rounds(exact, monkeys, n - 1, Keep), monkeys, |monkeys|, m);
    }
  }

  /** Part 2's reduction modulo the product of the divisors changes no
      test: after any number of rounds every monkey has inspected exactly
      as many items as with exact arithmetic. */
  lemma ReductionKeepsCounts(monkeys: seq<Monkey>, n: nat)
    requires WellFormed(monkeys) && monkeys != []
    ensures Product(Dividends(monkeys)) > 0
    ensures Rounds(InitialState(monkeys), monkeys, n, Modulo(Product(Dividends(monkeys)))).inspected
      == Rounds(InitialState(monkeys), monkeys, n, Keep).inspected
  {
    var dividends := Dividends(monkeys);
    forall k | 0 <= k < |dividends|
      ensures dividends[k] > 0
    {
      assert dividends[k] in dividends;
      var i :| 0 <= i < |monkeys| && monkeys[i].divisor == dividends[k];
    }
    ProductPositive(dividends);
    var m := Product(dividends);
    forall i | 0 <= i < |monkeys|
      ensures m % monkeys[i].divisor == 0
    {
      ProductMultiple(dividends, monkeys[i].divisor);
      var e: nat :| m == monkeys[i].divisor * e;
      ModUnique(m, monkeys[i].divisor, e, 0);
    }
    RoundsAgree(InitialState(monkeys), InitialState(monkeys), monkeys, n, m);
  }

  // ---------------------------------------------------------------------
  // Monkey business

  /** The counts in the map, by monkey number. */
  function CountValues(inspected: map<nat, nat>, n: nat): seq<nat> {
    if n == 0 then []
    else CountValues(inspected, n - 1) + (if n - 1 in inspected then [inspected[n - 1]] else [])
  }

  /** Every value of a map whose keys are below `n`, once per key. */
  lemma {:induction false} CountValuesComplete(inspected: map<nat, nat>, n: nat)
    ensures |CountValues(inspected, n)| == |set k | k in inspected && k < n|
    ensures forall v :: v in CountValues(inspected, n) <==> exists k :: k in inspected && k < n && inspected[k] == v
  {
    if n > 0 {
      CountValuesComplete(inspected, n - 1);
      var below := set k | k in inspected && k < n - 1;
      if n - 1 in inspected {
        assert (set k | k in inspected && k < n) == below + {n - 1};
      } else {
        assert (set k | k in inspected && k < n) == below;
      }
    }
  }

  /** `sortedDescending().take(2).reduce { acc, next -> acc * next }`: the
      largest count times the largest of the others (just the largest when
      there is one; nothing when there is none, where `reduce` fails). */
  function Business(counts: seq<int>): Option<int> {
    if counts == [] then None
    else
      var i := ArgMaxIndex(counts);
      var rest := counts[..i] + counts[i + 1..];
      if rest == [] then Some(counts[i])
      else Some(counts[i] * rest[ArgMaxIndex(rest)])
  }

  lemma MultiplyMonotone(a: int, b: int, c: int, d: int)
    requires 0 <= a && 0 <= b
    requires a <= c && b <= d
    ensures a * b <= c * d
  {
    assert a * b <= c * b;
    assert c * b <= c * d;
  }

  /** The business is the product of two different monkeys' counts, and no
      other two monkeys' counts multiply to more. */
  lemma BusinessMeaning(counts: seq<int>)
    requires |counts| >= 2 && forall k :: 0 <= k < |counts| ==> counts[k] >= 0
    ensures Business(counts).Some?
    ensures exists x, y :: 0 <= x < |counts| && 0 <= y < |counts| && x != y && Business(counts).value == counts[x] * counts[y]
    ensures forall x, y :: 0 <= x < |counts| && 0 <= y < |counts| && x != y ==> counts[x] * counts[y] <= Business(counts).value
  {
    var i := ArgMaxIndex(counts);
    var rest := counts[..i] + counts[i + 1..];
    var j := ArgMaxIndex(rest);
    var y := if j < i then j else j + 1;
    assert rest[j] == counts[y];
    forall k | 0 <= k < |counts| && k != i
      ensures counts[k] <= counts[y]
    {
      assert counts[k] == rest[if k < i then k else k - 1];
    }
    forall x, z | 0 <= x < |counts| && 0 <= z < |counts| && x != z
      ensures counts[x] * counts[z] <= counts[i] * counts[y]
    {
      PairBelowTop(counts[x], counts[z], counts[i], counts[y], x == i, z == i);
    }
  }

  /** Of two values, at most one is the largest and the other is at most
      the runner-up, so their product is at most the top two's. */
  lemma PairBelowTop(a: int, b: int, top: int, second: int, aTop: bool, bTop: bool)
    requires 0 <= a && 0 <= b && second <= top && !(aTop && bTop)
    requires if aTop then a == top else a <= second
    requires if bTop then b == top else b <= second
    ensures a * b <= top * second
  {
    if aTop {
      MultiplyMonotone(a, b, top, second);
    } else if bTop {
      MultiplyMonotone(b, a, top, second);
      assert a * b == b * a;
    } else {
      MultiplyMonotone(a, b, top, second);
    }
  }

  /** What `play` computes: the business after the rounds, or nothing when
      no monkey ever inspected an item. */
  function PlayResult(monkeys: seq<Monkey>, partOne: bool): Option<int>
    requires WellFormed(monkeys) && monkeys != []
  {
    var m := Product(Dividends(monkeys));
    ReductionKeepsCounts(monkeys, 0);
    var relief := if partOne then DivideByThree else Modulo(m);
    var rounds := if partOne then RoundsPartOne else RoundsPartTwo;
    Business(CountValues(Rounds(InitialState(monkeys), monkeys, rounds, relief).inspected, |monkeys|))
  }

  // ---------------------------------------------------------------------
  // The loops of `play`

  /** One monkey's turn: `for (item in monkey.items)`, then
      `monkey.items.clear()`. */
  method TakeTurn(items: seq<seq<nat>>, inspected: map<nat, nat>, monkeys: seq<Monkey>, index: nat, partOne: bool, lcmDividends: nat)
    returns (newItems: seq<seq<nat>>, newInspected: map<nat, nat>)
    requires WellFormed(monkeys) && |items| == |monkeys| && index < |monkeys| && lcmDividends > 0
    ensures |newItems| == |items|
    ensures State(newItems, newInspected)
      == Turn(State(items, inspected), monkeys, index, if partOne then DivideByThree else Modulo(lcmDividends))
  {
    ghost var relief := if partOne then DivideByThree else Modulo(lcmDividends);
    var monkey := monkeys[index];
    var held := items[index];
    newItems, newInspected := items, inspected;
    for k := 0 to |held|
      invariant |newItems| == |items|
      invariant State(newItems, newInspected) == ThrowItems(State(items, inspected), monkeys, index, held[..k], relief)
    {
      if index !in newInspected {
        newInspected := newInspected[index := 1];
      } else {
        newInspected := newInspected[index := newInspected[index] + 1];
      }
      var worryLevel := if partOne then Apply(monkey.operation, held[k]) / 3 else Apply(monkey.operation, held[k]) % lcmDividends;
      var testResult := worryLevel % monkey.divisor == 0;
      var monkeyToThrowTo := if testResult then monkey.ifTrue else monkey.ifFalse;
      newItems := newItems[monkeyToThrowTo := newItems[monkeyToThrowTo] + [worryLevel]];
      assert held[..k + 1][..k] == held[..k];
    }
    assert held[..|held|] == held;
    newItems := newItems[index := []];
  }

  /** One round: every monkey's turn, in order. */
  method PlayRound(items: seq<seq<nat>>, inspected: map<nat, nat>, monkeys: seq<Monkey>, partOne: bool, lcmDividends: nat)
    returns (newItems: seq<seq<nat>>, newInspected: map<nat, nat>)
    requires WellFormed(monkeys) && |items| == |monkeys| && lcmDividends > 0
    ensures |newItems| == |items|
    ensures State(newItems, newInspected)
      == Round(State(items, inspected), monkeys, if partOne then DivideByThree else Modulo(lcmDividends))
  {
    ghost var relief := if partOne then DivideByThree else Modulo(lcmDividends);
    newItems, newInspected := items, inspected;
    for index := 0 to |monkeys|
      invariant |newItems| == |monkeys|
      invariant State(newItems, newInspected) == Turns(State(items, inspected), monkeys, index, relief)
    {
      newItems, newInspected := TakeTurn(newItems, newInspected, monkeys, index, partOne, lcmDividends);
    }
  }

  /** `play`: the product of the divisors, then 20 rounds dividing worry by
      three, or 10000 rounds reducing it modulo that product, and the
      business of the two busiest monkeys; nothing when there are no
      monkeys (`reduce` of an empty set fails). */
  method Play(monkeys: seq<Monkey>, partOne: bool) returns (result: Option<int>)
    requires WellFormed(monkeys)
    ensures monkeys == [] ==> result == None
    ensures monkeys != [] ==> result == PlayResult(monkeys, partOne)
  {
    if monkeys == [] {
      return None;
    }
    var dividends := Dividends(monkeys);
    var lcmDividends := dividends[0];
    assert dividends[..1][..0] == [];
    for k := 1 to |dividends|
      invariant lcmDividends == Product(dividends[..k])
    {
      assert dividends[..k + 1][..k] == dividends[..k];
      lcmDividends := lcmDividends * dividends[k];
    }
    assert dividends[..|dividends|] == dividends;
    ReductionKeepsCounts(monkeys, 0);
    ghost var relief := if partOne then DivideByThree else Modulo(lcmDividends);
    var items := InitialState(monkeys).items;
    var inspected: map<nat, nat> := map[];
    var numRounds := if partOne then RoundsPartOne else RoundsPartTwo;
    for round := 0 to numRounds
      invariant |items| == |monkeys|
      invariant State(items, inspected) == Rounds(InitialState(monkeys), monkeys, round, relief)
    {
      items, inspected := PlayRound(items, inspected, monkeys, partOne, lcmDividends);
    }
    result := Business(CountValues(inspected, |monkeys|));
  }
}
