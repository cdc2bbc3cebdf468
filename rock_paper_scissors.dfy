/**
 * Rock-paper-scissors against a random computer, first to a chosen number of
 * round wins. The round tallies are fields of the game object.
 */
module RockPaperScissorsGame {
  import opened ScoreLedger

  /**
   * determineWinner on zero-based choices (0 rock, 1 paper, 2 scissors):
   * 0 for a draw, 1 when the player wins, -1 when the computer wins.
   */
  function DetermineWinner(playerChoice: int, computerChoice: int): (r: int)
    ensures r == 0 || r == 1 || r == -1
    ensures r == 0 <==> playerChoice == computerChoice
    ensures 0 <= playerChoice <= 2 && 0 <= computerChoice <= 2 && playerChoice != computerChoice ==>
      (r == 1 <==> computerChoice == (playerChoice + 2) % 3)
  {
    if playerChoice == computerChoice then 0
    else if (playerChoice == 0 && computerChoice == 2)
         || (playerChoice == 1 && computerChoice == 0)
         || (playerChoice == 2 && computerChoice == 1) then 1
    else -1
  }

  /** Swapping the two choices swaps the winner. */
  lemma DetermineWinnerAntisymmetric(a: int, b: int)
    requires 0 <= a <= 2 && 0 <= b <= 2
    ensures DetermineWinner(a, b) == -DetermineWinner(b, a)
  {
  }

  /** Each choice beats exactly the one before it in the cycle and loses to the one after it. */
  lemma EachChoiceBeatsOneLosesToOne(c: int)
    requires 0 <= c <= 2
    ensures DetermineWinner(c, (c + 2) % 3) == 1
    ensures DetermineWinner(c, (c + 1) % 3) == -1
    ensures forall d :: 0 <= d <= 2 && DetermineWinner(c, d) == 1 ==> d == (c + 2) % 3
    ensures forall d :: 0 <= d <= 2 && DetermineWinner(c, d) == -1 ==> d == (c + 1) % 3
  {
  }

  /** choiceToString on one-based choices; anything else names no choice. */
  function ChoiceToString(choice: int): (s: string)
    ensures s != "" <==> 1 <= choice <= 3
  {
    match choice
    case 1 => "Rock"
    case 2 => "Paper"
    case 3 => "Scissors"
    case _ => ""
  }

  /** Different choices have different names. */
  lemma ChoiceToStringInjective(a: int, b: int)
    requires 1 <= a <= 3 && 1 <= b <= 3
    requires ChoiceToString(a) == ChoiceToString(b)
    ensures a == b
  {
  }

  /** The rounds needed to win, for target menu choices 1 to 3. */
  function WinTarget(targetChoice: int): (t: int)
    requires 1 <= targetChoice <= 3
    ensures 3 <= t <= 10
  {
    match targetChoice
    case 1 => 3
    case 2 => 5
    case 3 => 10
  }

  /** A longer match option asks for more round wins. */
  lemma LongerMatchesNeedMoreWins(a: int, b: int)
    requires 1 <= a < b <= 3
    ensures WinTarget(a) < WinTarget(b)
  {
  }

  /** The computer's choice drawn from a random value (rand() is never negative). */
  function ComputerChoice(roll: nat): (c: int)
    ensures 1 <= c <= 3
  {
    roll % 3 + 1
  }

  /** One round: the player's accepted choice (1 to 3) and the random value behind the computer's. */
  datatype Round = Round(playerChoice: int, roll: nat)

  function RoundWinner(round: Round): int
  {
    DetermineWinner(round.playerChoice - 1, ComputerChoice(round.roll) - 1)
  }

  /** The tallies a match ends on and the number of rounds it takes. */
  datatype MatchRun = MatchRun(player: int, computer: int, played: nat)

  predicate Reached(player: int, computer: int, target: int)
  {
    player >= target || computer >= target
  }

  /** The round loop from the given tallies; it stops once a tally reaches the target or the rounds run out. */
  function RunMatch(player: int, computer: int, target: int, rounds: seq<Round>): MatchRun
    decreases |rounds|
  {
    if Reached(player, computer, target) || rounds == [] then MatchRun(player, computer, 0)
    else
      var w := RoundWinner(rounds[0]);
      var next := RunMatch(player + (if w == 1 then 1 else 0), computer + (if w == -1 then 1 else 0),
                           target, rounds[1..]);
      next.(played := next.played + 1)
  }

  /**
   * Starting below the target, a match that ends has exactly one tally at the target and
   * the other below it; tallies only grow, by at most one between them per round played.
   */
  lemma {:induction false} MatchStopsAtTarget(player: int, computer: int, target: int, rounds: seq<Round>)
    requires player < target && computer < target
    ensures var m := RunMatch(player, computer, target, rounds);
      && player <= m.player && computer <= m.computer
      && m.player + m.computer <= player + computer + m.played
      && m.played <= |rounds|
      && (Reached(m.player, m.computer, target) ==>
            (m.player == target && m.computer < target) || (m.computer == target && m.player < target))
      && (!Reached(m.player, m.computer, target) ==> m.played == |rounds|)
    decreases |rounds|
  {
    if rounds != [] {
      var w := RoundWinner(rounds[0]);
      var p := player + (if w == 1 then 1 else 0);
      var c := computer + (if w == -1 then 1 else 0);
      if !Reached(p, c, target) {
        MatchStopsAtTarget(p, c, target, rounds[1..]);
      }
    }
  }

  /** Rounds after the deciding one are never read: the match on any longer prefix is the same. */
  lemma {:induction false} LaterRoundsIgnored(player: int, computer: int, target: int, rounds: seq<Round>, k: nat)
    requires RunMatch(player, computer, target, rounds).played <= k <= |rounds|
    requires Reached(RunMatch(player, computer, target, rounds).player, RunMatch(player, computer, target, rounds).computer, target)
    ensures RunMatch(player, computer, target, rounds[..k]) == RunMatch(player, computer, target, rounds)
    decreases |rounds|
  {
    if !Reached(player, computer, target) {
      assert rounds != [];
      assert rounds[..k] != [] && rounds[..k][0] == rounds[0] && rounds[..k][1..] == rounds[1..][..k - 1];
      var w := RoundWinner(rounds[0]);
      LaterRoundsIgnored(player + (if w == 1 then 1 else 0), computer + (if w == -1 then 1 else 0),
                         target, rounds[1..], k - 1);
    }
  }

  /**
   * The tallies are never tied at the end of a match, unless both start at zero against
   * a target no round can reach: so the draw branch of the scoring is never taken.
   */
  lemma NoTieAtEndOfMatch(player: int, computer: int, target: int, rounds: seq<Round>)
    requires target >= 1
    requires player == computer ==> player == 0
    requires Reached(RunMatch(player, computer, target, rounds).player, RunMatch(player, computer, target, rounds).computer, target)
    ensures RunMatch(player, computer, target, rounds).player != RunMatch(player, computer, target, rounds).computer
  {
    if !Reached(player, computer, target) {
      MatchStopsAtTarget(player, computer, target, rounds);
    }
  }

  /** A tally left at or above the target by an earlier match makes the next match play no round. */
  lemma ReplayWithoutReset(player: int, computer: int, target: int, rounds: seq<Round>)
    requires Reached(player, computer, target)
    ensures RunMatch(player, computer, target, rounds) == MatchRun(player, computer, 0)
  {
  }

  /**
   * Tallies carried below a larger new target are not reset either: a 3-1 tally left by a
   * match to 3 resumes in a match to 5, and one won round makes it 4-1.
   */
  lemma ReplayResumesFromCarriedTallies()
    ensures !Reached(3, 1, 5)
    ensures RunMatch(3, 1, 5, [Round(1, 2)]) == MatchRun(4, 1, 1)
  {
    assert RoundWinner(Round(1, 2)) == 1;
  }

  /** The record of a finished match: 20 points a round on a win, nothing on a loss, 5 a round on a draw. */
  function RpsAward(playerName: string, player: int, computer: int): Award
  {
    if player > computer then Award("RockPaperScissors", playerName, player * 20, 1)
    else if computer > player then Award("RockPaperScissors", playerName, 0, 0)
    else Award("RockPaperScissors", playerName, player * 5, 0)
  }

  /** Only a won match counts as a win, and a won match to 3 or more scores at least 60. */
  lemma RpsScoringPolicy(playerName: string, target: int, rounds: seq<Round>)
    requires target >= 3
    ensures var m := RunMatch(0, 0, target, rounds);
      Reached(m.player, m.computer, target) ==>
        var a := RpsAward(playerName, m.player, m.computer);
        && (a.wins == 1 <==> m.player == target)
        && (a.wins == 1 ==> a.score == 20 * target >= 60)
        && (a.wins == 0 ==> a.score == 0)
  {
    MatchStopsAtTarget(0, 0, target, rounds);
  }

  class RockPaperScissors {
    var playerName: string
    var playerScore: int
    var computerScore: int

    /** Tallies are never negative and never tied above zero. */
    ghost predicate Valid()
      reads this
    {
      0 <= playerScore && 0 <= computerScore && (playerScore == computerScore ==> playerScore == 0)
    }

    constructor ()
      ensures Valid() && playerScore == 0 && computerScore == 0
    {
      playerName := "";
      playerScore := 0;
      computerScore := 0;
    }

    /**
     * One match. `targetChoice` is the accepted target menu choice and `rounds` the rounds
     * played, each choice already accepted by its re-prompt loop. The tallies carry on from
     * earlier matches. `finished` is false when the rounds run out before a tally reaches
     * the target; only a finished match is recorded.
     */
    method Play(scoreManager: ScoreManager, name: string, targetChoice: int, rounds: seq<Round>)
      returns (finished: bool)
      requires scoreManager.Valid()
      requires 1 <= targetChoice <= 3
      requires forall k :: 0 <= k < |rounds| ==> 1 <= rounds[k].playerChoice <= 3
      modifies this, scoreManager
      ensures scoreManager.Valid()
      ensures playerName == name
      ensures var m := RunMatch(old(playerScore), old(computerScore), WinTarget(targetChoice), rounds);
        playerScore == m.player && computerScore == m.computer
        && finished == Reached(m.player, m.computer, WinTarget(targetChoice))
      ensures scoreManager.Snapshot() ==
        if finished then SaveAll(old(scoreManager.Snapshot()), [RpsAward(name, playerScore, computerScore)])
        else old(scoreManager.Snapshot())
      ensures old(Valid()) && finished ==> Valid()
    {
      playerName := name;
      var winTarget;
      match targetChoice {
        case 1 => winTarget := 3;
        case 2 => winTarget := 5;
        case 3 => winTarget := 10;
      }
      ghost var p0, c0 := playerScore, computerScore;
      finished := RoundLoop(winTarget, rounds);
      if finished {
        if old(Valid()) {
          if !Reached(p0, c0, winTarget) {
            MatchStopsAtTarget(p0, c0, winTarget, rounds);
          }
          NoTieAtEndOfMatch(p0, c0, winTarget, rounds);
        }
        RecordMatch(scoreManager);
      }
    }

    /** The round loop: each round reads the player's choice and a random value, and moves at most one tally. */
    method RoundLoop(winTarget: int, rounds: seq<Round>) returns (finished: bool)
      requires forall k :: 0 <= k < |rounds| ==> 1 <= rounds[k].playerChoice <= 3
      modifies this`playerScore, this`computerScore
      ensures var m := RunMatch(old(playerScore), old(computerScore), winTarget, rounds);
        playerScore == m.player && computerScore == m.computer
        && finished == Reached(m.player, m.computer, winTarget)
    {
      ghost var m0 := RunMatch(playerScore, computerScore, winTarget, rounds);
      var round := 0;
      while playerScore < winTarget && computerScore < winTarget
        invariant 0 <= round <= |rounds|
        invariant var m := RunMatch(playerScore, computerScore, winTarget, rounds[round..]);
          m.player == m0.player && m.computer == m0.computer && m.played + round == m0.played
        decreases |rounds| - round
      {
        if round == |rounds| {
          return false;
        }
        round := round + 1;
        var playerChoice := rounds[round - 1].playerChoice;
        var computerChoice := (rounds[round - 1].roll % 3) + 1;
        var result := DetermineWinner(playerChoice - 1, computerChoice - 1);
        assert rounds[round - 1..][1..] == rounds[round..];
        if result == 1 {
          playerScore := playerScore + 1;
        } else if result == -1 {
          computerScore := computerScore + 1;
        }
      }
      finished := true;
    }

    /** The scoring at the end of a finished match, from the final tallies. */
    method RecordMatch(scoreManager: ScoreManager)
      requires scoreManager.Valid()
      modifies scoreManager
      ensures scoreManager.Valid()
      ensures scoreManager.Snapshot() ==
        SaveAll(old(scoreManager.Snapshot()), [RpsAward(playerName, playerScore, computerScore)])
    {
      ghost var a := RpsAward(playerName, playerScore, computerScore);
      SaveAllOne(scoreManager.Snapshot(), a);
      if playerScore > computerScore {
        var totalScore := playerScore * 20;
        assert a == Award("RockPaperScissors", playerName, totalScore, 1);
        scoreManager.SaveScore("RockPaperScissors", playerName, totalScore, 1);
      } else if computerScore > playerScore {
        assert a == Award("RockPaperScissors", playerName, 0, 0);
        scoreManager.SaveScore("RockPaperScissors", playerName, 0, 0);
      } else {
        var consolation := playerScore * 5;
        assert a == Award("RockPaperScissors", playerName, consolation, 0);
        scoreManager.SaveScore("RockPaperScissors", playerName, consolation, 0);
      }
    }
  }
}
