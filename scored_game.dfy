/**
 * The scored number-guessing game: a secret in [1, 100], ten attempts per
 * round, tiered hints after every miss, a score that decays with the number of
 * attempts, and session statistics over repeated rounds.
 *
 * The player's typed lines reach this model already parsed: `None` is a line
 * that `int()` rejected, `Some(n)` a whole number. The random secret is a
 * parameter.
 */
module ScoredGame {
  import opened Options
  import opened Guessing

  const MinNumber := 1
  const MaxNumber := 100
  const MaxAttempts := 10

  predicate InRange(n: int) {
    MinNumber <= n <= MaxNumber
  }

  // ---------------------------------------------------------------------------
  // Input validation
  // ---------------------------------------------------------------------------

  /** Validation of one parsed line: a whole number inside the guessing range is
      a guess, anything else is rejected (and, in the round, costs no attempt). */
  function GetPlayerGuess(parsed: Option<int>): (guess: Option<int>)
    ensures guess.Some? <==> parsed.Some? && InRange(parsed.value)
    ensures guess.Some? ==> guess == parsed
  {
    match parsed
    case None => None
    case Some(g) => if g < MinNumber || g > MaxNumber then None else Some(g)
  }

  // ---------------------------------------------------------------------------
  // Hints
  // ---------------------------------------------------------------------------

  /** Which way the player should move the next guess. */
  datatype Direction = Higher | Lower

  /** How far a miss was: within 5, within 15, or further. */
  datatype Tier = VeryClose | Warmer | Far

  /** The feedback for one accepted guess. `Correct` is the `True` that
      provide_hint returns; a `Miss` is its `False` with the message it prints. */
  datatype Hint = Correct | Miss(direction: Direction, tier: Tier)

  function Abs(x: int): nat {
    if x < 0 then -x else x
  }

  function TierFor(difference: nat): (tier: Tier)
    ensures tier == VeryClose <==> difference <= 5
    ensures tier == Warmer <==> 5 < difference <= 15
    ensures tier == Far <==> difference > 15
  {
    if difference <= 5 then VeryClose
    else if difference <= 15 then Warmer
    else Far
  }

  function ProvideHint(guess: int, secret: int): (hint: Hint)
    ensures hint.Correct? <==> guess == secret
    ensures hint.Miss? ==> (hint.direction == Higher <==> guess < secret)
    ensures hint.Miss? ==> (hint.tier == VeryClose <==> Abs(secret - guess) <= 5)
    ensures hint.Miss? ==> (hint.tier == Warmer <==> 5 < Abs(secret - guess) <= 15)
    ensures hint.Miss? ==> (hint.tier == Far <==> Abs(secret - guess) > 15)
  {
    var difference := Abs(secret - guess);
    if guess == secret then Correct
    else if guess < secret then Miss(Higher, TierFor(difference))
    else Miss(Lower, TierFor(difference))
  }

  /** A miss by `d` below the secret and a miss by `d` above it get the same
      tier and opposite directions: the tier depends on the distance alone. */
  lemma HintMirror(secret: int, d: int)
    requires d > 0
    ensures ProvideHint(secret - d, secret).Miss?
    ensures ProvideHint(secret + d, secret).Miss?
    ensures ProvideHint(secret - d, secret).direction == Higher
    ensures ProvideHint(secret + d, secret).direction == Lower
    ensures ProvideHint(secret - d, secret).tier == ProvideHint(secret + d, secret).tier
  {
  }

  // ---------------------------------------------------------------------------
  // Score
  // ---------------------------------------------------------------------------

  /** 1000 less 100 per attempt, never below 100. */
  function CalculateScore(attemptsUsed: int): (score: int)
    ensures score >= 100
    ensures attemptsUsed <= 9 ==> score == 1000 - 100 * attemptsUsed
    ensures attemptsUsed >= 9 ==> score == 100
  {
    var score := 1000 - attemptsUsed * 100;
    if score < 100 then 100 else score
  }

  /** Using more attempts never earns more points. */
  lemma ScoreNonIncreasing(j: int, k: int)
    requires j <= k
    ensures CalculateScore(k) <= CalculateScore(j)
  {
  }

  /** The scores for a win on attempt 1, 2, ..., 10. */
  lemma ScoreTable()
    ensures seq(MaxAttempts, i => CalculateScore(i + 1))
         == [900, 800, 700, 600, 500, 400, 300, 200, 100, 100]
  {
  }

  // ---------------------------------------------------------------------------
  // One round
  // ---------------------------------------------------------------------------

  /** The guesses a round accepts from `inputs`, in order: rejected lines are
      skipped. */
  function Accepted(inputs: seq<Option<int>>): (guesses: seq<int>)
    ensures |guesses| <= |inputs|
    ensures forall i :: 0 <= i < |guesses| ==> InRange(guesses[i])
  {
    if inputs == [] then []
    else
      var earlier := Accepted(inputs[..|inputs| - 1]);
      match GetPlayerGuess(inputs[|inputs| - 1])
      case None => earlier
      case Some(g) => earlier + [g]
  }

  /** Reading more input only adds accepted guesses at the end. */
  lemma {:induction false} AcceptedPrefix(inputs: seq<Option<int>>, n: nat)
    requires n <= |inputs|
    ensures Accepted(inputs[..n]) <= Accepted(inputs)
    decreases |inputs| - n
  {
    if n < |inputs| {
      var front := inputs[..|inputs| - 1];
      AcceptedPrefix(front, n);
      assert front[..n] == inputs[..n];
    } else {
      assert inputs[..n] == inputs;
    }
  }

  /** The hint shown for each accepted guess. */
  function Hints(secret: int, guesses: seq<int>): (hints: seq<Hint>)
    ensures |hints| == |guesses|
  {
    seq(|guesses|, i requires 0 <= i < |guesses| => ProvideHint(guesses[i], secret))
  }

  /** What a round returns, given every guess the player would make: the score
      for the first match when it falls within the attempt budget, 0 when the
      budget runs out first, and None when the guesses end before either (the
      player stopped answering, so the round has no result). */
  function RoundScore(secret: int, guesses: seq<int>): (score: Option<int>)
    ensures score.Some? ==> score.value == 0 || 100 <= score.value <= 900
  {
    var k := FirstIndex(guesses, secret);
    if k < |guesses| && k < MaxAttempts then Some(CalculateScore(k + 1))
    else if |guesses| >= MaxAttempts then Some(0)
    else None
  }

  /** The two outcomes of a round, stated without `FirstIndex`. */
  lemma RoundScoreOutcomes(secret: int, guesses: seq<int>)
    ensures RoundScore(secret, guesses) == Some(0)
        <==> |guesses| >= MaxAttempts && forall i :: 0 <= i < MaxAttempts ==> guesses[i] != secret
    ensures (exists k :: 0 <= k < |guesses| && k < MaxAttempts && guesses[k] == secret)
        <==> RoundScore(secret, guesses).Some? && RoundScore(secret, guesses).value > 0
    ensures forall k ::
              (0 <= k < |guesses| && k < MaxAttempts && guesses[k] == secret &&
               forall i :: 0 <= i < k ==> guesses[i] != secret)
              ==> RoundScore(secret, guesses) == Some(CalculateScore(k + 1))
    ensures RoundScore(secret, guesses).None?
        <==> |guesses| < MaxAttempts && forall i :: 0 <= i < |guesses| ==> guesses[i] != secret
  {
    var k := FirstIndex(guesses, secret);
    if k < |guesses| && k < MaxAttempts {
      assert guesses[k] == secret;
    }
  }

  /** Guesses past the attempt budget are never looked at. */
  lemma RoundScoreIgnoresExtraGuesses(secret: int, guesses: seq<int>)
    requires |guesses| >= MaxAttempts
    ensures RoundScore(secret, guesses) == RoundScore(secret, guesses[..MaxAttempts])
  {
    FirstIndexOfExtension(guesses[..MaxAttempts], guesses, secret);
  }

  /** Reading line `n` either adds its guess at the end or adds nothing. */
  lemma AcceptedStep(inputs: seq<Option<int>>, n: nat)
    requires n < |inputs|
    ensures GetPlayerGuess(inputs[n]).None? ==> Accepted(inputs[..n + 1]) == Accepted(inputs[..n])
    ensures GetPlayerGuess(inputs[n]).Some? ==>
              Accepted(inputs[..n + 1]) == Accepted(inputs[..n]) + [inputs[n].value]
  {
    assert inputs[..n + 1][..n] == inputs[..n];
  }

  lemma HintsStep(secret: int, guesses: seq<int>, g: int)
    ensures Hints(secret, guesses + [g]) == Hints(secret, guesses) + [ProvideHint(g, secret)]
  {
  }

  /** Once the guesses read so far decide the round, the rest of the input
      cannot change its result. */
  lemma DecidedEarly(secret: int, inputs: seq<Option<int>>, n: nat)
    requires n <= |inputs|
    requires RoundScore(secret, Accepted(inputs[..n])).Some?
    ensures RoundScore(secret, Accepted(inputs)) == RoundScore(secret, Accepted(inputs[..n]))
  {
    var early, all := Accepted(inputs[..n]), Accepted(inputs);
    AcceptedPrefix(inputs, n);
    FirstIndexOfExtension(early, all, secret);
    var k := FirstIndex(early, secret);
    if !(k < |early| && k < MaxAttempts) {
      assert |early| >= MaxAttempts;
      assert FirstIndex(all, secret) >= MaxAttempts;
    }
  }

  /** play_game: read lines until a match or until the attempt budget is spent;
      a rejected line gives its attempt back. `consumed` is the number of lines
      read and `hints` the feedback shown. When `inputs` runs out first the
      round has no result (`None`): the program would stop at end of input. */
  method PlayGame(secret: int, inputs: seq<Option<int>>)
    returns (score: Option<int>, attemptsUsed: nat, consumed: nat, hints: seq<Hint>)
    requires InRange(secret)
    ensures consumed <= |inputs|
    ensures attemptsUsed == |Accepted(inputs[..consumed])| <= MaxAttempts
    ensures hints == Hints(secret, Accepted(inputs[..consumed]))
    ensures score == RoundScore(secret, Accepted(inputs))
    ensures score.None? ==> consumed == |inputs|
    ensures score == Some(0) ==> attemptsUsed == MaxAttempts
    ensures score.Some? && score.value != 0 ==>
              score.value == CalculateScore(attemptsUsed) && hints[attemptsUsed - 1] == Correct
    ensures score.Some? && score.value != 0 ==> attemptsUsed == FirstIndex(Accepted(inputs), secret) + 1
    ensures score.Some? ==> RoundScore(secret, Accepted(inputs[..consumed])) == score
  {
    ghost var guesses: seq<int> := [];
    score, attemptsUsed, consumed, hints := None, 0, 0, [];
    while attemptsUsed < MaxAttempts
      invariant consumed <= |inputs|
      invariant guesses == Accepted(inputs[..consumed])
      invariant attemptsUsed == |guesses| <= MaxAttempts
      invariant FirstIndex(guesses, secret) == |guesses|
      invariant hints == Hints(secret, guesses)
      decreases |inputs| - consumed
    {
      attemptsUsed := attemptsUsed + 1;
      if consumed == |inputs| {
        // end of input: the round is left without a result
        attemptsUsed := attemptsUsed - 1;
        assert inputs[..consumed] == inputs;
        return;
      }
      var guess := GetPlayerGuess(inputs[consumed]);
      AcceptedStep(inputs, consumed);
      consumed := consumed + 1;
      if guess.None? {
        attemptsUsed := attemptsUsed - 1;  // give back the attempt
        continue;
      }
      FirstIndexAppend(guesses, guess.value, secret);
      HintsStep(secret, guesses, guess.value);
      guesses := guesses + [guess.value];
      var hint := ProvideHint(guess.value, secret);
      hints := hints + [hint];
      if hint == Correct {
        score := Some(CalculateScore(attemptsUsed));
        DecidedEarly(secret, inputs, consumed);
        AcceptedPrefix(inputs, consumed);
        FirstIndexOfExtension(guesses, Accepted(inputs), secret);
        return;
      }
    }
    score := Some(0);
    DecidedEarly(secret, inputs, consumed);
  }

  /** A sample round: secret 50 and the lines "abc", 25, 150, 75, 50. The word
      and the out-of-range 150 cost nothing; 50 wins on the third attempt. */
  lemma WorkedRound()
    ensures Accepted([None, Some(25), Some(150), Some(75), Some(50)]) == [25, 75, 50]
    ensures Hints(50, [25, 75, 50]) == [Miss(Higher, Far), Miss(Lower, Far), Correct]
    ensures RoundScore(50, [25, 75, 50]) == Some(700)
  {
    var inputs: seq<Option<int>> := [None, Some(25), Some(150), Some(75), Some(50)];
    assert Accepted(inputs[..1]) == [] by {
      assert inputs[..1][..0] == [];
    }
    assert Accepted(inputs[..2]) == [25] by {
      assert inputs[..2][..1] == inputs[..1];
    }
    assert Accepted(inputs[..3]) == [25] by {
      assert inputs[..3][..2] == inputs[..2];
    }
    assert Accepted(inputs[..4]) == [25, 75] by {
      assert inputs[..4][..3] == inputs[..3];
    }
    assert inputs[..5][..4] == inputs[..4];
    assert inputs[..5] == inputs;
    assert FirstIndex([75, 50], 50) == 1;
  }

  // ---------------------------------------------------------------------------
  // The session
  // ---------------------------------------------------------------------------

  /** One round as the player plays it: the secret drawn for it and the lines
      typed during it. */
  datatype Round = Round(secret: int, inputs: seq<Option<int>>)

  /** The round's secret is one the game can draw, and the player answered
      until the round ended. */
  predicate Completes(r: Round) {
    InRange(r.secret) && RoundScore(r.secret, Accepted(r.inputs)).Some?
  }

  /** Each round's score: 0 for a loss, 100 to 900 for a win. */
  function Scores(rounds: seq<Round>): (scores: seq<int>)
    requires forall i :: 0 <= i < |rounds| ==> Completes(rounds[i])
    ensures |scores| == |rounds|
    ensures forall i :: 0 <= i < |scores| ==> scores[i] == 0 || 100 <= scores[i] <= 900
  {
    if rounds == [] then []
    else
      var last := rounds[|rounds| - 1];
      assert Completes(last);
      Scores(rounds[..|rounds| - 1]) + [RoundScore(last.secret, Accepted(last.inputs)).value]
  }

  /** The sum of the round scores. */
  function Total(scores: seq<int>): int {
    if scores == [] then 0 else Total(scores[..|scores| - 1]) + scores[|scores| - 1]
  }

  /** The number of rounds with a positive score, that is, the rounds won. */
  function Wins(scores: seq<int>): (wins: nat)
    ensures wins <= |scores|
  {
    if scores == [] then 0
    else Wins(scores[..|scores| - 1]) + (if scores[|scores| - 1] > 0 then 1 else 0)
  }

  /** Every win adds between 100 and 900 points and a loss adds none. */
  lemma {:induction false} TotalBounds(scores: seq<int>)
    requires forall i :: 0 <= i < |scores| ==> scores[i] == 0 || 100 <= scores[i] <= 900
    ensures 100 * Wins(scores) <= Total(scores) <= 900 * Wins(scores)
  {
    if scores != [] {
      TotalBounds(scores[..|scores| - 1]);
    }
  }

  /** The statistics never go down as the session goes on: those after the
      first `n` rounds are at most those at the end. */
  lemma {:induction false} StatsNonDecreasing(scores: seq<int>, n: nat)
    requires n <= |scores|
    requires forall i :: 0 <= i < |scores| ==> scores[i] >= 0
    ensures Total(scores[..n]) <= Total(scores)
    ensures Wins(scores[..n]) <= Wins(scores)
    decreases |scores| - n
  {
    if n < |scores| {
      var front := scores[..|scores| - 1];
      StatsNonDecreasing(front, n);
      assert front[..n] == scores[..n];
    } else {
      assert scores[..n] == scores;
    }
  }

  lemma ScoresStep(rounds: seq<Round>, n: nat)
    requires n < |rounds|
    requires forall i :: 0 <= i < |rounds| ==> Completes(rounds[i])
    ensures Completes(rounds[n])
    ensures Scores(rounds[..n + 1])
         == Scores(rounds[..n]) + [RoundScore(rounds[n].secret, Accepted(rounds[n].inputs)).value]
  {
    assert rounds[..n + 1][..n] == rounds[..n];
  }

  /** The scores of the first n rounds are the first n scores of the session. */
  lemma {:induction false} ScoresPrefix(rounds: seq<Round>, n: nat)
    requires n <= |rounds|
    requires forall i :: 0 <= i < |rounds| ==> Completes(rounds[i])
    ensures Scores(rounds[..n]) == Scores(rounds)[..n]
    decreases |rounds| - n
  {
    if n < |rounds| {
      var front := rounds[..|rounds| - 1];
      ScoresPrefix(front, n);
      assert front[..n] == rounds[..n];
    } else {
      assert rounds[..n] == rounds;
    }
  }

  lemma StatsStep(scores: seq<int>, score: int)
    ensures Total(scores + [score]) == Total(scores) + score
    ensures Wins(scores + [score]) == Wins(scores) + (if score > 0 then 1 else 0)
  {
    assert (scores + [score])[..|scores|] == scores;
  }

  /** The statistics loop of the game's entry point: play the rounds in turn
      and update games played, total score and wins after each. */
  method PlaySession(rounds: seq<Round>) returns (gamesPlayed: nat, totalScore: int, wins: nat)
    requires forall i :: 0 <= i < |rounds| ==> Completes(rounds[i])
    ensures gamesPlayed == |rounds|
    ensures totalScore == Total(Scores(rounds))
    ensures wins == Wins(Scores(rounds))
    ensures wins <= gamesPlayed
    ensures 100 * wins <= totalScore <= 900 * wins
  {
    gamesPlayed, totalScore, wins := 0, 0, 0;
    while gamesPlayed < |rounds|
      invariant gamesPlayed <= |rounds|
      invariant totalScore == Total(Scores(rounds[..gamesPlayed]))
      invariant wins == Wins(Scores(rounds[..gamesPlayed]))
    {
      ScoresStep(rounds, gamesPlayed);
      StatsStep(Scores(rounds[..gamesPlayed]), RoundScore(rounds[gamesPlayed].secret, Accepted(rounds[gamesPlayed].inputs)).value);
      var round := rounds[gamesPlayed];
      var result, _, _, _ := PlayGame(round.secret, round.inputs);
      var score := result.value;
      gamesPlayed := gamesPlayed + 1;
      totalScore := totalScore + score;
      if score > 0 {
        wins := wins + 1;
      }
    }
    assert rounds[..gamesPlayed] == rounds;
    TotalBounds(Scores(rounds));
  }
}
