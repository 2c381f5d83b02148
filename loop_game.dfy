/**
 * The unscored guessing game: a secret in [1, 50], seven attempts, a
 * higher/lower hint after every miss, and a count of games played and won.
 *
 * Unlike the scored game it has no range check: every whole number counts as
 * an attempt, and only a line that `int()` rejects (`None` here) gives its
 * attempt back.
 */
module LoopGame {
  import opened Options
  import opened Guessing

  const LowSecret := 1
  const HighSecret := 50
  const MaxAttempts := 7

  /** The answer printed after a guess. */
  datatype Feedback = Correct | GoHigher | GoLower

  function Check(guess: int, secret: int): (feedback: Feedback)
    ensures feedback == Correct <==> guess == secret
    ensures feedback == GoHigher <==> guess < secret
    ensures feedback == GoLower <==> guess > secret
  {
    if guess == secret then Correct
    else if guess < secret then GoHigher
    else GoLower
  }

  /** The whole numbers among the lines, in order: these are the attempts. */
  function Parsed(inputs: seq<Option<int>>): (guesses: seq<int>)
    ensures |guesses| <= |inputs|
  {
    if inputs == [] then []
    else
      var earlier := Parsed(inputs[..|inputs| - 1]);
      match inputs[|inputs| - 1]
      case None => earlier
      case Some(g) => earlier + [g]
  }

  /** With no rejected line, every number is an attempt, whatever its value. */
  lemma {:induction false} ParsedKeepsEveryNumber(inputs: seq<Option<int>>)
    requires forall i :: 0 <= i < |inputs| ==> inputs[i].Some?
    ensures |Parsed(inputs)| == |inputs|
    ensures forall i :: 0 <= i < |inputs| ==> Parsed(inputs)[i] == inputs[i].value
  {
    if inputs != [] {
      ParsedKeepsEveryNumber(inputs[..|inputs| - 1]);
    }
  }

  /** Whatever the other lines are, a number on line n is an attempt, with its
      value unchanged: it comes right after the attempts of the earlier lines. */
  lemma ParsedCountsEveryNumber(inputs: seq<Option<int>>, n: nat)
    requires n < |inputs| && inputs[n].Some?
    ensures |Parsed(inputs[..n])| < |Parsed(inputs)|
    ensures Parsed(inputs)[|Parsed(inputs[..n])|] == inputs[n].value
  {
    ParsedStep(inputs, n);
    ParsedPrefix(inputs, n + 1);
  }

  lemma {:induction false} ParsedPrefix(inputs: seq<Option<int>>, n: nat)
    requires n <= |inputs|
    ensures Parsed(inputs[..n]) <= Parsed(inputs)
    decreases |inputs| - n
  {
    if n < |inputs| {
      var front := inputs[..|inputs| - 1];
      ParsedPrefix(front, n);
      assert front[..n] == inputs[..n];
    } else {
      assert inputs[..n] == inputs;
    }
  }

  lemma ParsedStep(inputs: seq<Option<int>>, n: nat)
    requires n < |inputs|
    ensures inputs[n].None? ==> Parsed(inputs[..n + 1]) == Parsed(inputs[..n])
    ensures inputs[n].Some? ==> Parsed(inputs[..n + 1]) == Parsed(inputs[..n]) + [inputs[n].value]
  {
    assert inputs[..n + 1][..n] == inputs[..n];
  }

  function Feedbacks(secret: int, guesses: seq<int>): (feedback: seq<Feedback>)
    ensures |feedback| == |guesses|
  {
    seq(|guesses|, i requires 0 <= i < |guesses| => Check(guesses[i], secret))
  }

  /** What a round returns, given every number the player would type: true at a
      match within the seven attempts, false once seven numbers have missed,
      None when the numbers end before either. */
  function RoundWon(secret: int, guesses: seq<int>): (won: Option<bool>)
    ensures |guesses| >= MaxAttempts ==> won.Some?
  {
    var k := FirstIndex(guesses, secret);
    if k < |guesses| && k < MaxAttempts then Some(true)
    else if |guesses| >= MaxAttempts then Some(false)
    else None
  }

  /** A loss means seven numbers that all missed; a win means a match among
      the first seven. */
  lemma RoundWonOutcomes(secret: int, guesses: seq<int>)
    ensures RoundWon(secret, guesses) == Some(false)
        <==> |guesses| >= MaxAttempts && forall i :: 0 <= i < MaxAttempts ==> guesses[i] != secret
    ensures RoundWon(secret, guesses) == Some(true)
        <==> exists k :: 0 <= k < |guesses| && k < MaxAttempts && guesses[k] == secret
    ensures RoundWon(secret, guesses).None?
        <==> |guesses| < MaxAttempts && forall i :: 0 <= i < |guesses| ==> guesses[i] != secret
  {
    var k := FirstIndex(guesses, secret);
    if k < |guesses| && k < MaxAttempts {
      assert guesses[k] == secret;
    }
  }

  lemma DecidedEarly(secret: int, inputs: seq<Option<int>>, n: nat)
    requires n <= |inputs|
    requires RoundWon(secret, Parsed(inputs[..n])).Some?
    ensures RoundWon(secret, Parsed(inputs)) == RoundWon(secret, Parsed(inputs[..n]))
  {
    var early, all := Parsed(inputs[..n]), Parsed(inputs);
    ParsedPrefix(inputs, n);
    FirstIndexOfExtension(early, all, secret);
    var k := FirstIndex(early, secret);
    if !(k < |early| && k < MaxAttempts) {
      assert |early| >= MaxAttempts;
      assert FirstIndex(all, secret) >= MaxAttempts;
    }
  }

  /** play_game: read lines until a number equals the secret or seven numbers
      have been read; a line that is not a number gives its attempt back.
      When `inputs` runs out first the round has no result (`None`). */
  method PlayGame(secret: int, inputs: seq<Option<int>>)
    returns (won: Option<bool>, attempts: nat, consumed: nat, feedback: seq<Feedback>)
    requires LowSecret <= secret <= HighSecret
    ensures consumed <= |inputs|
    ensures attempts == |Parsed(inputs[..consumed])| <= MaxAttempts
    ensures feedback == Feedbacks(secret, Parsed(inputs[..consumed]))
    ensures won == RoundWon(secret, Parsed(inputs))
    ensures won.None? ==> consumed == |inputs|
    ensures won == Some(false) ==> attempts == MaxAttempts
    ensures won == Some(true) ==> attempts >= 1 && feedback[attempts - 1] == Correct
    ensures won == Some(true) ==> attempts == FirstIndex(Parsed(inputs), secret) + 1
    ensures won.Some? ==> RoundWon(secret, Parsed(inputs[..consumed])) == won
  {
    ghost var guesses: seq<int> := [];
    won, attempts, consumed, feedback := None, 0, 0, [];
    while attempts < MaxAttempts
      invariant consumed <= |inputs|
      invariant guesses == Parsed(inputs[..consumed])
      invariant attempts == |guesses| <= MaxAttempts
      invariant FirstIndex(guesses, secret) == |guesses|
      invariant feedback == Feedbacks(secret, guesses)
      decreases |inputs| - consumed
    {
      attempts := attempts + 1;
      if consumed == |inputs| {
        // end of input: the round is left without a result
        attempts := attempts - 1;
        assert inputs[..consumed] == inputs;
        return;
      }
      var line := inputs[consumed];
      ParsedStep(inputs, consumed);
      consumed := consumed + 1;
      if line.None? {
        attempts := attempts - 1;  // don't count invalid input
        continue;
      }
      var guess := line.value;
      FirstIndexAppend(guesses, guess, secret);
      assert Feedbacks(secret, guesses + [guess]) == Feedbacks(secret, guesses) + [Check(guess, secret)];
      guesses := guesses + [guess];
      var answer := Check(guess, secret);
      feedback := feedback + [answer];
      if answer == Correct {
        won := Some(true);
        DecidedEarly(secret, inputs, consumed);
        ParsedPrefix(inputs, consumed);
        FirstIndexOfExtension(guesses, Parsed(inputs), secret);
        return;
      }
    }
    won := Some(false);
    DecidedEarly(secret, inputs, consumed);
  }

  // ---------------------------------------------------------------------------
  // The session
  // ---------------------------------------------------------------------------

  datatype Round = Round(secret: int, inputs: seq<Option<int>>)

  /** The round's secret is one the game can draw, and the player answered
      until the round ended. */
  predicate Completes(r: Round) {
    LowSecret <= r.secret <= HighSecret && RoundWon(r.secret, Parsed(r.inputs)).Some?
  }

  /** The number of rounds won. */
  function WinCount(rounds: seq<Round>): (wins: nat)
    requires forall i :: 0 <= i < |rounds| ==> Completes(rounds[i])
    ensures wins <= |rounds|
  {
    if rounds == [] then 0
    else
      var last := rounds[|rounds| - 1];
      assert Completes(last);
      WinCount(rounds[..|rounds| - 1]) + (if RoundWon(last.secret, Parsed(last.inputs)).value then 1 else 0)
  }

  /** The statistics loop of the game's entry point: play the rounds in turn,
      counting every game and every win. */
  method PlaySession(rounds: seq<Round>) returns (gamesPlayed: nat, gamesWon: nat)
    requires forall i :: 0 <= i < |rounds| ==> Completes(rounds[i])
    ensures gamesPlayed == |rounds|
    ensures gamesWon == WinCount(rounds)
    ensures gamesWon <= gamesPlayed
  {
    gamesPlayed, gamesWon := 0, 0;
    while gamesPlayed < |rounds|
      invariant gamesPlayed <= |rounds|
      invariant gamesWon == WinCount(rounds[..gamesPlayed])
    {
      var round := rounds[gamesPlayed];
      var won, _, _, _ := PlayGame(round.secret, round.inputs);
      if won.value {
        gamesWon := gamesWon + 1;
      }
      gamesPlayed := gamesPlayed + 1;
      assert rounds[..gamesPlayed][..gamesPlayed - 1] == rounds[..gamesPlayed - 1];
    }
    assert rounds[..gamesPlayed] == rounds;
  }
}
