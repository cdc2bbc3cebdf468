/**
 * The number-guessing game: a secret drawn from the preset's range, a bounded
 * number of guesses, and a score that rewards the attempts left over.
 */
module NumberGuessingGame {
  import opened ScoreLedger

  /** A difficulty's range bound and attempt limit. */
  datatype Preset = Preset(maxNumber: int, maxAttempts: int)

  /** The preset table for difficulties 1 (easy) to 4 (expert). */
  function PresetFor(difficulty: int): (p: Preset)
    requires 1 <= difficulty <= 4
    ensures p.maxNumber >= 50 && p.maxAttempts >= 5
  {
    match difficulty
    case 1 => Preset(50, 10)
    case 2 => Preset(100, 10)
    case 3 => Preset(200, 5)
    case 4 => Preset(500, 10)
  }

  /** A harder difficulty always draws from a wider range. */
  lemma HarderPresetsWiden(d1: int, d2: int)
    requires 1 <= d1 < d2 <= 4
    ensures PresetFor(d1).maxNumber < PresetFor(d2).maxNumber
    ensures PresetFor(d2).maxAttempts <= PresetFor(d1).maxAttempts || d2 == 4
  {
  }

  /** generateNumber: `roll` is the value of rand(), never negative. */
  function DrawSecret(maxNumber: int, roll: nat): (secret: int)
    requires maxNumber >= 1
    ensures 1 <= secret <= maxNumber
  {
    roll % maxNumber + 1
  }

  /** Every value of the range is drawn by some roll. */
  lemma EverySecretIsDrawable(maxNumber: int, secret: int)
    requires 1 <= secret <= maxNumber
    ensures DrawSecret(maxNumber, secret - 1) == secret
  {
  }

  /** How a game ends: the attempt that found the secret, no attempts left, or input that runs out first. */
  datatype GuessResult = Found(attempts: int) | Exhausted | Unfinished

  /** The guessing loop from attempt `used` on, no earlier guess having been right. */
  function GuessFrom(secret: int, maxAttempts: int, guesses: seq<int>, used: nat): GuessResult
    decreases maxAttempts - used
  {
    if used >= maxAttempts then Exhausted
    else if used >= |guesses| then Unfinished
    else if guesses[used] == secret then Found(used + 1)
    else GuessFrom(secret, maxAttempts, guesses, used + 1)
  }

  function GuessGame(secret: int, maxAttempts: int, guesses: seq<int>): GuessResult
  {
    GuessFrom(secret, maxAttempts, guesses, 0)
  }

  lemma {:induction false} GuessFromSpec(secret: int, maxAttempts: int, guesses: seq<int>, used: nat)
    requires forall k :: 0 <= k < used && k < |guesses| ==> guesses[k] != secret
    requires used <= |guesses| || used >= maxAttempts
    ensures var r := GuessFrom(secret, maxAttempts, guesses, used);
      && (r.Found? <==>
            exists k :: used <= k < maxAttempts && k < |guesses| && guesses[k] == secret)
      && (r.Found? ==> used < r.attempts <= maxAttempts && r.attempts <= |guesses|
                       && guesses[r.attempts - 1] == secret
                       && forall k :: 0 <= k < r.attempts - 1 ==> guesses[k] != secret)
      && (r.Exhausted? <==>
            (|guesses| >= maxAttempts || used >= maxAttempts)
            && forall k :: 0 <= k < maxAttempts && k < |guesses| ==> guesses[k] != secret)
    decreases maxAttempts - used
  {
    if used < maxAttempts && used < |guesses| && guesses[used] != secret {
      GuessFromSpec(secret, maxAttempts, guesses, used + 1);
    }
  }

  /**
   * The game stops at the first right guess within the attempt limit; it is lost when the
   * limit is reached with no right guess; otherwise the input ran out first.
   */
  lemma GuessGameSpec(secret: int, maxAttempts: int, guesses: seq<int>)
    ensures var r := GuessGame(secret, maxAttempts, guesses);
      && (r.Found? ==> 1 <= r.attempts <= maxAttempts && r.attempts <= |guesses|
                       && guesses[r.attempts - 1] == secret
                       && forall k :: 0 <= k < r.attempts - 1 ==> guesses[k] != secret)
      && (r.Found? <==> exists k :: 0 <= k < maxAttempts && k < |guesses| && guesses[k] == secret)
      && (r.Exhausted? <==> |guesses| >= maxAttempts
                            && forall k :: 0 <= k < maxAttempts && k < |guesses| ==> guesses[k] != secret)
  {
    GuessFromSpec(secret, maxAttempts, guesses, 0);
  }

  /** The points of a finished game: (100 + 20 per attempt saved) times the difficulty index on a find, else 0. */
  function NgAward(playerName: string, difficulty: int, maxAttempts: int, result: GuessResult): Award
    requires !result.Unfinished?
  {
    if result.Found? then
      Award("NumberGuessing", playerName, (100 + (maxAttempts - result.attempts) * 20) * difficulty, 1)
    else
      Award("NumberGuessing", playerName, 0, 0)
  }

  /**
   * A find is worth at least 100 times the difficulty, and one found in fewer attempts
   * is worth strictly more; a lost game is worth nothing and is not a win.
   */
  lemma NgScoringPolicy(playerName: string, difficulty: int, maxAttempts: int, n1: int, n2: int)
    requires 1 <= difficulty <= 4
    requires 1 <= n1 < n2 <= maxAttempts
    ensures NgAward(playerName, difficulty, maxAttempts, Found(n2)).score >= 100 * difficulty
    ensures NgAward(playerName, difficulty, maxAttempts, Found(n1)).score
          > NgAward(playerName, difficulty, maxAttempts, Found(n2)).score
    ensures NgAward(playerName, difficulty, maxAttempts, Found(n1)).wins == 1
    ensures NgAward(playerName, difficulty, maxAttempts, Exhausted) == Award("NumberGuessing", playerName, 0, 0)
  {
    var s1 := 100 + (maxAttempts - n1) * 20;
    var s2 := 100 + (maxAttempts - n2) * 20;
    assert s1 > s2 >= 100;
    assert s1 * difficulty - s2 * difficulty == (s1 - s2) * difficulty;
  }

  /** Easy game, secret 27: the sixth guess finds it and scores (100 + 4 * 20) * 1. */
  lemma SixthGuessExample()
    ensures GuessGame(27, PresetFor(1).maxAttempts, [50, 25, 37, 31, 28, 27]) == Found(6)
    ensures NgAward("p", 1, PresetFor(1).maxAttempts, Found(6)).score == 180
  {
  }

  class NumberGuessing {
    var secretNumber: int
    var playerName: string
    var maxAttempts: int
    var difficulty: int
    var maxNumber: int

    constructor ()
    {
      secretNumber, playerName, maxAttempts, difficulty, maxNumber := 0, "", 0, 0, 0;
    }

    method GenerateNumber(roll: nat)
      requires maxNumber >= 1
      modifies this`secretNumber
      ensures secretNumber == DrawSecret(maxNumber, roll)
      ensures 1 <= secretNumber <= maxNumber
    {
      secretNumber := roll % maxNumber + 1;
    }

    /**
     * One game. `level` is the difficulty menu choice and `guesses` the guesses typed,
     * both already accepted by their re-prompt loops; `roll` is the random value behind
     * the secret. Every finished game is recorded once, under "NumberGuessing".
     */
    method Play(scoreManager: ScoreManager, name: string, level: int, roll: nat, guesses: seq<int>)
      returns (result: GuessResult)
      requires scoreManager.Valid()
      requires 1 <= level <= 4
      requires forall k :: 0 <= k < |guesses| ==> 1 <= guesses[k] <= PresetFor(level).maxNumber
      modifies this, scoreManager
      ensures scoreManager.Valid()
      ensures playerName == name && difficulty == level
      ensures maxNumber == PresetFor(level).maxNumber && maxAttempts == PresetFor(level).maxAttempts
      ensures secretNumber == DrawSecret(maxNumber, roll)
      ensures result == GuessGame(secretNumber, maxAttempts, guesses)
      ensures scoreManager.Snapshot() ==
        if result.Unfinished? then old(scoreManager.Snapshot())
        else SaveAll(old(scoreManager.Snapshot()), [NgAward(name, level, maxAttempts, result)])
    {
      playerName := name;
      difficulty := level;
      match difficulty {
        case 1 =>
          maxNumber := 50;
          maxAttempts := 10;
        case 2 =>
          maxNumber := 100;
          maxAttempts := 10;
        case 3 =>
          maxNumber := 200;
          maxAttempts := 5;
        case 4 =>
          maxNumber := 500;
          maxAttempts := 10;
      }

      GenerateNumber(roll);
      result := GuessLoop(guesses);
      if !result.Unfinished? {
        RecordGame(scoreManager, result);
      }
    }

    /** The attempt loop: each attempt reads the next guess and stops the game on the secret. */
    method GuessLoop(guesses: seq<int>) returns (result: GuessResult)
      ensures result == GuessGame(secretNumber, maxAttempts, guesses)
    {
      var attempts := 0;
      var won := false;
      while attempts < maxAttempts && !won
        invariant 0 <= attempts && (attempts <= maxAttempts || attempts == 0) && attempts <= |guesses|
        invariant !won ==> GuessFrom(secretNumber, maxAttempts, guesses, attempts) == GuessGame(secretNumber, maxAttempts, guesses)
        invariant won ==> GuessGame(secretNumber, maxAttempts, guesses) == Found(attempts)
        decreases maxAttempts - attempts, if won then 0 else 1
      {
        attempts := attempts + 1;
        if attempts - 1 == |guesses| {
          return Unfinished;
        }
        var guess := guesses[attempts - 1];
        if guess == secretNumber {
          won := true;
        }
      }
      if won {
        result := Found(attempts);
      } else {
        result := Exhausted;
      }
    }

    /** The scoring at the end of a finished game. */
    method RecordGame(scoreManager: ScoreManager, result: GuessResult)
      requires scoreManager.Valid()
      requires !result.Unfinished?
      modifies scoreManager
      ensures scoreManager.Valid()
      ensures scoreManager.Snapshot() ==
        SaveAll(old(scoreManager.Snapshot()), [NgAward(playerName, difficulty, maxAttempts, result)])
    {
      ghost var a := NgAward(playerName, difficulty, maxAttempts, result);
      SaveAllOne(scoreManager.Snapshot(), a);
      if result.Found? {
        var baseScore := 100;
        var attemptBonus := (maxAttempts - result.attempts) * 20;
        var diffMultiplier := difficulty;
        var totalScore := (baseScore + attemptBonus) * diffMultiplier;
        assert a == Award("NumberGuessing", playerName, totalScore, 1);
        scoreManager.SaveScore("NumberGuessing", playerName, totalScore, 1);
      } else {
        assert a == Award("NumberGuessing", playerName, 0, 0);
        scoreManager.SaveScore("NumberGuessing", playerName, 0, 0);
      }
    }
  }
}
