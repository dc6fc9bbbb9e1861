/**
  Day 2: a strategy guide for rock-paper-scissors. Each line holds the opponent's letter and a second
  letter. The first score reads the second letter as the player's shape; the second score reads it as
  the outcome the player must arrange.
 */
module Day2 {
  import opened Wrappers
  import opened Text
  import opened Seqs
  import opened Lines

  datatype Shape = Rock | Paper | Scissors {

    /** The points for playing the shape: 1, 2 and 3 for rock, paper and scissors. */
    function Score(): (s: int)
      ensures 1 <= s <= 3
      ensures s == 1 <==> this == Rock
      ensures s == 2 <==> this == Paper
      ensures s == 3 <==> this == Scissors
    {
      match this
      case Rock => 1
      case Paper => 2
      case Scissors => 3
    }

    /** The points for playing this shape against `other`: 6 for a win, 3 for a draw, 0 for a loss. */
    function Versus(other: Shape): (r: int)
      ensures r == 0 || r == 3 || r == 6
    {
      match (this, other)
      case (Rock, Rock) => 3
      case (Rock, Paper) => 0
      case (Rock, Scissors) => 6
      case (Paper, Rock) => 6
      case (Paper, Paper) => 3
      case (Paper, Scissors) => 0
      case (Scissors, Rock) => 0
      case (Scissors, Paper) => 6
      case (Scissors, Scissors) => 3
    }

    /** The shape that loses to this one. */
    function ToLose(): (r: Shape)
      ensures r.Versus(this) == 0 && this.Versus(r) == 6
    {
      match this
      case Rock => Scissors
      case Paper => Rock
      case Scissors => Paper
    }

    /** The shape that beats this one. */
    function ToWin(): (r: Shape)
      ensures r.Versus(this) == 6 && this.Versus(r) == 0
    {
      match this
      case Rock => Paper
      case Paper => Scissors
      case Scissors => Rock
    }

    /** The shape that draws with this one. */
    function ToDraw(): (r: Shape)
      ensures r.Versus(this) == 3
      ensures r == this
    {
      match this
      case Rock => Rock
      case Paper => Paper
      case Scissors => Scissors
    }

    /** The player's shape when this is the opponent's and `needed` names the outcome: `X` a loss,
        `Z` a win, `Y` and any other text a draw. */
    function OutcomeRequired(needed: string): (r: Shape)
      ensures needed == "X" ==> r.Versus(this) == 0
      ensures needed == "Z" ==> r.Versus(this) == 6
      ensures needed != "X" && needed != "Z" ==> r.Versus(this) == 3
    {
      match needed
      case "X" => ToLose()
      case "Y" => ToDraw()
      case "Z" => ToWin()
      case _ => ToDraw()
    }
  }

  /** A shape is decided by the outcome it has against any one fixed shape. */
  lemma {:induction false} VersusDecides(a: Shape, b: Shape, other: Shape)
    requires a.Versus(other) == b.Versus(other)
    ensures a == b
  {
  }

  /** A draw against oneself, and two plays that share out six points between them. */
  lemma {:induction false} VersusAntisymmetric(a: Shape, b: Shape)
    ensures a.Versus(a) == 3
    ensures a.Versus(b) + b.Versus(a) == 6
  {
  }

  /** Each shape beats the one whose points are one below its own, counting round modulo 3. */
  lemma {:induction false} VersusCyclic(a: Shape, b: Shape)
    ensures a.Versus(b) == 3 * ((a.Score() - b.Score() + 1) % 3)
  {
  }

  /** Losing to a shape and beating it undo each other. */
  lemma {:induction false} WinLoseInverse(s: Shape)
    ensures s.ToWin().ToLose() == s
    ensures s.ToLose().ToWin() == s
  {
  }

  /** The letter decoder: `A` and `X` rock, `B` and `Y` paper, `C` and `Z` scissors; anything else
      is an error. */
  function FromStr(s: string): (r: Option<Shape>)
    ensures r == Some(Rock) <==> s == "A" || s == "X"
    ensures r == Some(Paper) <==> s == "B" || s == "Y"
    ensures r == Some(Scissors) <==> s == "C" || s == "Z"
  {
    match s
    case "A" => Some(Rock)
    case "B" => Some(Paper)
    case "C" => Some(Scissors)
    case "X" => Some(Rock)
    case "Y" => Some(Paper)
    case "Z" => Some(Scissors)
    case _ => None
  }

  /** The player's points for one round: the shape's points and the outcome's points. */
  function RoundScore(opponent: Shape, player: Shape): (r: int)
    ensures 1 <= r <= 9
  {
    player.Score() + player.Versus(opponent)
  }

  /** A round's points tell the player's shape and the outcome apart: no two pairs of shape points
      and outcome points add up to the same score. */
  lemma {:induction false} RoundScoreDecodes(opponent: Shape, player: Shape)
    ensures (RoundScore(opponent, player) - 1) % 3 + 1 == player.Score()
    ensures (RoundScore(opponent, player) - 1) / 3 * 3 == player.Versus(opponent)
  {
  }

  /** The opponent's shape, the player's shape and the outcome letter of one line, or `None` where
      the program panics: no space, or a field that is not a shape letter. */
  function ParseRound(line: string): Option<Round> {
    match SplitOnce(line, ' ')
    case None => None
    case Some((a, b)) =>
      match (FromStr(a), FromStr(b))
      case (Some(opponent), Some(player)) => Some((opponent, player, opponent.OutcomeRequired(b)))
      case _ => None
  }

  /** An accepted line is two shape letters around a space, and the round holds their shapes. */
  lemma {:induction false} ParseRoundFields(line: string)
    ensures ParseRound(line).Some? ==> exists a, b :: (line == a + " " + b
      && FromStr(a) == Some(ParseRound(line).value.0) && FromStr(b) == Some(ParseRound(line).value.1)
      && ParseRound(line).value.2 == ParseRound(line).value.0.OutcomeRequired(b))
  {
  }

  /** Two shape letters around a space are always accepted, and read back as their shapes. */
  lemma {:induction false} ParseRoundLetters(a: string, b: string)
    requires FromStr(a).Some? && FromStr(b).Some?
    ensures ParseRound(a + " " + b)
      == Some((FromStr(a).value, FromStr(b).value, FromStr(a).value.OutcomeRequired(b)))
  {
    assert ' ' !in a;
    SplitOnceAt(a, b, ' ');
  }

  /** A round as the guide gives it: the opponent's shape, the shape the second letter names, and
      the shape the second reading plays, `opponent.OutcomeRequired(b)` for the second letter `b`
      read as the outcome. */
  type Round = (Shape, Shape, Shape)

  /** The points of one round under both readings of its second letter. */
  function Points(round: Round): (int, int) {
    var (opponent, player, rigged) := round;
    (RoundScore(opponent, player), RoundScore(opponent, rigged))
  }

  /** The rounds of the guide, line by line, or `None` if some line makes the program panic. */
  function Guide(lines: seq<string>): Option<seq<Round>> {
    ParseEach(lines, ParseRound)
  }

  /** The two scores of a list of rounds: the player's shapes as written, and the arranged outcomes. */
  function Total(rounds: seq<Round>): (int, int) {
    if rounds == [] then (0, 0)
    else
      var (total, rigged) := Total(rounds[..|rounds| - 1]);
      var (points, riggedPoints) := Points(rounds[|rounds| - 1]);
      (total + points, rigged + riggedPoints)
  }

  /** What the program prints for the given lines, or `None` if it panics. */
  function Tally(lines: seq<string>): Option<(int, int)> {
    match Guide(lines)
    case None => None
    case Some(rounds) => Some(Total(rounds))
  }

  /** One pass of the loop body: read the line, score it both ways, add the points. */
  method ScoreLine(line: string, totalScore: int, riggedScore: int, ghost rounds: seq<Round>)
    returns (ok: bool, newTotal: int, newRigged: int, ghost newRounds: seq<Round>)
    requires Total(rounds) == (totalScore, riggedScore)
    ensures ok <==> ParseRound(line).Some?
    ensures ok ==> newRounds == rounds + [ParseRound(line).value]
    ensures ok ==> Total(newRounds) == (newTotal, newRigged)
  {
    var round := ParseRound(line);
    if round.None? {
      return false, totalScore, riggedScore, rounds;
    }
    var (opponentShape, playerShape, riggedShape) := round.value;
    var roundScore := RoundScore(opponentShape, playerShape);
    var riggedRoundScore := RoundScore(opponentShape, riggedShape);
    newRounds := rounds + [round.value];
    assert newRounds[..|rounds|] == rounds;
    ok, newTotal, newRigged := true, totalScore + roundScore, riggedScore + riggedRoundScore;
  }

  /** The scoring loop over the lines of the guide. */
  method Scores(lines: seq<string>) returns (r: Option<(int, int)>)
    ensures r == Tally(lines)
  {
    var totalScore := 0;
    var riggedScore := 0;
    ghost var rounds := [];
    for i := 0 to |lines|
      invariant Guide(lines[..i]) == Some(rounds)
      invariant Total(rounds) == (totalScore, riggedScore)
    {
      PrefixStep(lines, i);
      var ok;
      ok, totalScore, riggedScore, rounds := ScoreLine(lines[i], totalScore, riggedScore, rounds);
      if !ok {
        EachStopsAtPanic(lines, ParseRound, i + 1);
        return None;
      }
    }
    PrefixWhole(lines);
    r := Some((totalScore, riggedScore));
  }

  /** A line made of two shape letters around a space. */
  ghost predicate Letters(line: string) {
    exists a, b :: line == a + " " + b && FromStr(a).Some? && FromStr(b).Some?
  }

  /** A line is accepted exactly when it is two shape letters around a space. */
  lemma {:induction false} ParseRoundAccepts(line: string)
    ensures ParseRound(line).Some? <==> Letters(line)
  {
    if Letters(line) {
      var a, b :| line == a + " " + b && FromStr(a).Some? && FromStr(b).Some?;
      ParseRoundLetters(a, b);
    } else {
      ParseRoundFields(line);
    }
  }

  /** A guide is accepted exactly when every line is two shape letters around a space. */
  lemma {:induction false} GuideAcceptsLetters(lines: seq<string>)
    ensures Guide(lines).Some? <==> forall k :: 0 <= k < |lines| ==> Letters(lines[k])
  {
    if Guide(lines).Some? {
      EachLineByLine(lines, ParseRound);
      forall k | 0 <= k < |lines| ensures Letters(lines[k]) {
        ParseRoundAccepts(lines[k]);
      }
    } else if forall k :: 0 <= k < |lines| ==> Letters(lines[k]) {
      forall k | 0 <= k < |lines| ensures ParseRound(lines[k]).Some? {
        ParseRoundAccepts(lines[k]);
      }
      EachAccepts(lines, ParseRound);
    }
  }

  /** Both scores earn between 1 and 9 points per round. */
  lemma {:induction false} TotalBounds(rounds: seq<Round>)
    ensures |rounds| <= Total(rounds).0 <= 9 * |rounds|
    ensures |rounds| <= Total(rounds).1 <= 9 * |rounds|
    decreases |rounds|
  {
    if rounds != [] {
      TotalBounds(rounds[..|rounds| - 1]);
    }
  }

  /** The two readings of a round score the same exactly when they pick the same shape. */
  lemma {:induction false} ReadingsAgree(round: Round)
    ensures Points(round).0 == Points(round).1 <==> round.1 == round.2
  {
    var (opponent, player, rigged) := round;
    if RoundScore(opponent, player) == RoundScore(opponent, rigged) {
      RoundScoreDecodes(opponent, player);
      RoundScoreDecodes(opponent, rigged);
      assert player.Score() == rigged.Score();
    }
  }
}
