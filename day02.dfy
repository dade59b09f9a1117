/** Rock paper scissors: each round names the opponent's shape and either
    our own shape (part one) or the outcome we must reach (part two). */
module Day02 {
  import opened Common

  const LoseScore := 0
  const DrawScore := 3
  const WinScore := 6

  datatype Shape = Rock | Paper | Scissors {
    function Score(): int {
      match this
      case Rock => 1
      case Paper => 2
      case Scissors => 3
    }

    /** The shape this one defeats. */
    function Beats(): Shape {
      match this
      case Rock => Scissors
      case Paper => Rock
      case Scissors => Paper
    }

    /** `playAgainst`: the shape's own score plus the outcome score. */
    function PlayAgainst(other: Shape): (r: int)
      ensures 1 <= r <= 9
      ensures r - Score() == DrawScore <==> other == this
      ensures r - Score() == WinScore <==> other == Beats()
      ensures r - Score() == LoseScore <==> other.Beats() == this
    {
      Score() + if other == this then DrawScore else if other == Beats() then WinScore else LoseScore
    }
  }

  /** `Shape.values()`, in declaration order. */
  const Shapes: seq<Shape> := [Rock, Paper, Scissors]

  /** `beats` is a cycle of length three through all shapes. */
  lemma BeatsCycle(s: Shape)
    ensures s.Beats() != s
    ensures s.Beats().Beats() != s
    ensures s.Beats().Beats().Beats() == s
  {
  }

  /** Of two different shapes, exactly one beats the other. */
  lemma ExactlyOneWins(a: Shape, b: Shape)
    requires a != b
    ensures (a.Beats() == b) != (b.Beats() == a)
  {
  }

  /** A round scores six outcome points between the two players, whoever
      wins. */
  lemma OutcomesShareSix(a: Shape, b: Shape)
    ensures (a.PlayAgainst(b) - a.Score()) + (b.PlayAgainst(a) - b.Score()) == 6
  {
  }

  datatype RoundResult = Lose | Draw | Win {
    function Points(): int {
      match this
      case Lose => LoseScore
      case Draw => DrawScore
      case Win => WinScore
    }

    /** `calculateSelfShape`: the shape that gives this outcome against the
        opponent. */
    function CalculateSelfShape(opponent: Shape): (s: Shape)
      ensures s.PlayAgainst(opponent) - s.Score() == Points()
    {
      match this
      case Lose => opponent.Beats()
      case Draw => opponent
      case Win =>
        var winner := opponent.Beats().Beats();
        assert winner.Beats() == opponent && winner in Shapes;
        FirstBeating(Shapes, opponent).value
    }
  }

  /** `first { it.beats == opponent }`, searching the shapes in order. */
  function FirstBeating(shapes: seq<Shape>, opponent: Shape): (r: Option<Shape>)
    ensures r.Some? ==> r.value in shapes && r.value.Beats() == opponent
    ensures r.None? ==> forall s :: s in shapes ==> s.Beats() != opponent
  {
    if shapes == [] then None
    else if shapes[0].Beats() == opponent then Some(shapes[0])
    else FirstBeating(shapes[1..], opponent)
  }

  /** `RoundResult.values()`, in declaration order. */
  const Results: seq<RoundResult> := [Lose, Draw, Win]

  /** One round as written: the opponent's code and our code. */
  type Round = (char, char)

  /** The codes index `Shape.values()` and `RoundResult.values()`, so they
      must be within 'A'..'C' and 'X'..'Z'. */
  predicate ValidRound(round: Round) {
    'A' <= round.0 <= 'C' && 'X' <= round.1 <= 'Z'
  }

  function RoundScore(round: Round, isPart1: bool): (r: int)
    requires ValidRound(round)
    ensures 1 <= r <= 9
  {
    var opponent := Shapes[round.0 as int - 'A' as int];
    var self := if isPart1 then Shapes[round.1 as int - 'X' as int]
      else Results[round.1 as int - 'X' as int].CalculateSelfShape(opponent);
    self.PlayAgainst(opponent)
  }

  /** `play`: the total score over all rounds. */
  function Play(rounds: seq<Round>, isPart1: bool): (r: int)
    requires forall k :: 0 <= k < |rounds| ==> ValidRound(rounds[k])
    ensures |rounds| <= r <= 9 * |rounds|
  {
    if rounds == [] then 0
    else Play(rounds[..|rounds| - 1], isPart1) + RoundScore(rounds[|rounds| - 1], isPart1)
  }

  /** In part two the second code decides the outcome: X loses, Y draws,
      Z wins. */
  lemma Part2Outcome(round: Round)
    requires ValidRound(round)
    ensures var opponent := Shapes[round.0 as int - 'A' as int];
      var r := RoundScore(round, false);
      (round.1 == 'X' ==> opponent.Beats().PlayAgainst(opponent) == r && r <= 3)
      && (round.1 == 'Y' ==> r == opponent.Score() + DrawScore)
      && (round.1 == 'Z' ==> r >= 7)
  {
  }

  const Sample: seq<Round> := [('A', 'Y'), ('B', 'X'), ('C', 'Z')]

  /** The sample strategy guide scores 15, then 12. */
  lemma SampleScores()
    ensures Play(Sample, true) == 15 && Play(Sample, false) == 12
  {
    assert Sample[..2][..1] == [('A', 'Y')];
    assert Sample[..2] == [('A', 'Y'), ('B', 'X')];
  }
}
