# Teaching scripts: guessing games, Fibonacci and a to-do list, in Dafny

This project models the logic of four small Python teaching scripts and proves
what they promise:

- `number_guessing_game.py`, the scored guessing game. A secret lies in
  [1, 100] and a round allows ten attempts. A typed line that is not a whole
  number, or is outside the range, is refused and gives its attempt back.
  Each miss gets a hint: the direction, and a tier for how far off it was
  (within 5, within 15, or further). A win on attempt k scores
  `max(100, 1000 - 100·k)` and a loss scores 0. The entry point keeps
  counters of games played, games won and total score (module `ScoredGame`).
- `guess_number_loops.py`, the unscored guessing game. A secret lies in
  [1, 50] and a round allows seven attempts. Any whole number counts as an
  attempt, with no range check. Only a line that is not a number is refused.
  A round returns won or lost, and the entry point counts games played and
  games won (module `LoopGame`).
- `fibonacci_recursion.py`: the recursive definition and the loop that keeps
  two consecutive values (module `Fibonacci`).
- `todo_list_functions.py`: the module-level task list with `add_task`,
  `mark_completed` and `delete_task` (module `Todo`, class `TodoList`).

Both games share `Guessing.FirstIndex` (the first position of a value in a
sequence) and the `Options.Option` type.

How things are represented:

- Keyboard input is a sequence of lines that have already been parsed.
  `None` is a line that `int()` rejects; `Some(n)` is a whole number.
- The random secret is a parameter. Its range is a precondition.
- Each round loop is a method. It is proved equal to a reference function of
  all the guesses the player would make. `RoundScore` gives the scored
  game's result and `RoundWon` the unscored game's. Each function looks at
  the first match within the attempt budget.
- The Fibonacci loop is a method. It is proved equal to the recursive
  function.
- The to-do list is a class with a `seq<Task>` field. Its methods are proved
  against the pure functions `Added`, `Completed` and `Deleted`. The lemmas
  relating these functions are what hold for the methods.

The program has no configuration or illegal-state error paths: the constants
are fixed, and a finished round simply returns.

## Model

| member | source | states |
|---|---|---|
| `ScoredGame.GetPlayerGuess` | number_guessing_game.py:97-111 | a parsed line is accepted exactly when it is a whole number in [1, 100], and is then unchanged; a non-number or out-of-range number yields None |
| `ScoredGame.TierFor` | number_guessing_game.py:137-151 | a miss is very close exactly for a distance of at most 5, warmer exactly for 6..15, and far exactly beyond 15 |
| `ScoredGame.ProvideHint` | number_guessing_game.py:114-153 | the hint is Correct exactly when guess == secret; a miss says Higher exactly when guess < secret; its tier is VeryClose exactly for distance ≤ 5, Warmer for 6..15, Far for > 15 |
| `ScoredGame.HintMirror` | number_guessing_game.py:129-151 | misses by the same distance below and above the secret get the same tier and opposite directions |
| `ScoredGame.CalculateScore` | number_guessing_game.py:156-178 | the score is at least 100; 1000 − 100·k for k ≤ 9 and 100 from k = 9 on |
| `ScoredGame.ScoreNonIncreasing` | number_guessing_game.py:172-176 | more attempts never give a higher score |
| `ScoredGame.ScoreTable` | number_guessing_game.py:166-178 | wins on attempts 1..10 score 900, 800, …, 200, 100, 100 |
| `ScoredGame.Accepted` | number_guessing_game.py:259-269 | the guesses a round counts are at most as many as the lines read, and all lie in [1, 100] |
| `ScoredGame.AcceptedPrefix` | number_guessing_game.py:259-269 | reading more lines only appends accepted guesses: those of a prefix of the input are a prefix of those of the whole |
| `ScoredGame.Hints` | number_guessing_game.py:271-272 | one hint per accepted guess |
| `ScoredGame.RoundScore` | number_guessing_game.py:259-280 | a decided round scores 0 (a loss) or between 100 and 900 (a win) |
| `ScoredGame.RoundScoreOutcomes` | number_guessing_game.py:259-280 | a round scores 0 exactly when the first ten accepted guesses all miss; it scores above 0 exactly when one of the first ten matches, and then it scores `CalculateScore(k)` for the first match at attempt k; it is undecided exactly when fewer than ten guesses were made and all missed |
| `ScoredGame.RoundScoreIgnoresExtraGuesses` | number_guessing_game.py:259 | guesses beyond the tenth never affect the result |
| `ScoredGame.DecidedEarly` | number_guessing_game.py:272-276 | once the lines read so far decide the round, later input cannot change its result |
| `ScoredGame.PlayGame` | number_guessing_game.py:235-280 | the attempts used equal the number of accepted guesses among the lines read, never more than 10; one hint per accepted guess; the result is the reference `RoundScore` of the player's guesses; a win returns `CalculateScore(attemptsUsed)` with the last hint Correct, and `attemptsUsed` is the position of the first matching guess; the lines read already decide the result; a 0 comes only after 10 attempts; no result only when the input ran out |
| `ScoredGame.WorkedRound` | number_guessing_game.py:235-280 | secret 50 and the lines "abc", 25, 150, 75, 50: the accepted guesses are 25, 75, 50; the hints are far-higher, far-lower, correct; the score is 700 |
| `ScoredGame.Scores` | number_guessing_game.py:338-344 | one score per round, each 0 (a loss) or between 100 and 900 (a win) |
| `ScoredGame.Wins` | number_guessing_game.py:343-344 | the rounds won never outnumber the rounds played |
| `ScoredGame.TotalBounds` | number_guessing_game.py:341-344 | the total score lies between 100 and 900 times the number of wins |
| `ScoredGame.StatsNonDecreasing` | number_guessing_game.py:340-344 | total score and wins after any prefix of the session are at most their final values |
| `ScoredGame.ScoresPrefix` | number_guessing_game.py:338-344 | the scores of the first n rounds are the first n scores of the session |
| `ScoredGame.StatsStep` | number_guessing_game.py:341-344 | after each round the total grows by exactly that round's score, and wins by one exactly when the score is positive |
| `ScoredGame.PlaySession` | number_guessing_game.py:327-344 | games played is the number of rounds; total score is the sum of the round scores; wins is the number of rounds with a positive score; wins ≤ games played; 100·wins ≤ total ≤ 900·wins |
| `LoopGame.Check` | guess_number_loops.py:28-34 | Correct exactly when guess == secret, GoHigher exactly when guess < secret, GoLower exactly when guess > secret |
| `LoopGame.Parsed` | guess_number_loops.py:16-25 | the attempts are at most as many as the lines read |
| `LoopGame.ParsedKeepsEveryNumber` | guess_number_loops.py:20-25 | with no rejected line, every line is an attempt, in order, with its value unchanged and no range check |
| `LoopGame.ParsedCountsEveryNumber` | guess_number_loops.py:20-25 | whatever the other lines are, a number on line n is an attempt with its value unchanged, placed right after the attempts of the earlier lines |
| `LoopGame.ParsedPrefix` | guess_number_loops.py:16-25 | the numbers of a prefix of the input are a prefix of the numbers of the whole |
| `LoopGame.Feedbacks` | guess_number_loops.py:28-34 | one answer per number read |
| `LoopGame.RoundWon` | guess_number_loops.py:16-38 | seven numbers always decide the round |
| `LoopGame.RoundWonOutcomes` | guess_number_loops.py:16-38 | a round is lost exactly when the first seven numbers all miss, won exactly when one of the first seven matches, and undecided exactly when fewer than seven numbers were read and all missed |
| `LoopGame.DecidedEarly` | guess_number_loops.py:28-30 | once the lines read so far decide the round, later input cannot change its result |
| `LoopGame.PlayGame` | guess_number_loops.py:4-38 | attempts equal the number of numbers read, never more than 7; one answer per number; the result is the reference `RoundWon`; True comes with a last answer of Correct, and `attempts` is the position of the first matching number; the lines read already decide the result; False comes only after 7 attempts; no result only when the input ran out |
| `LoopGame.WinCount` | guess_number_loops.py:52-55 | the rounds won never outnumber the rounds played |
| `LoopGame.PlaySession` | guess_number_loops.py:48-55 | games played is the number of rounds; games won is the number of rounds whose game returned True, and never exceeds games played |
| `Fibonacci.FibonacciRecursive` | fibonacci_recursion.py:1-15 | every value is non-negative, and it is at least 1 from position 1 on |
| `Fibonacci.FirstTen` | fibonacci_recursion.py:5 | positions 0..9 give 0, 1, 1, 2, 3, 5, 8, 13, 21, 34 |
| `Fibonacci.FibonacciLoop` | fibonacci_recursion.py:18-28 | the loop returns exactly the recursive value, for every integer position; this is the equality the program's comparison displays (fibonacci_recursion.py lines 71-74) |
| `Todo.StripLeading` | todo_list_functions.py:7 | the result is a suffix of the name; the part removed is all whitespace (Python's `isspace` characters); the result is empty or starts with a non-whitespace character |
| `Todo.StripTrailing` | todo_list_functions.py:7 | the result is a prefix of the name; the part removed is all whitespace; the result is empty or ends with a non-whitespace character |
| `Todo.Strip` | todo_list_functions.py:7 | `name.strip()` is empty exactly when every character of the name is whitespace; otherwise it neither starts nor ends with whitespace |
| `Todo.Added` | todo_list_functions.py:5-11 | a blank name leaves the list as it was; any other name is appended at the end, unstripped and not completed, with the earlier entries unchanged |
| `Todo.Completed` | todo_list_functions.py:26-32 | same length and names; every entry except number k is unchanged; for a valid k, entry k is completed; for an invalid k, the list is unchanged |
| `Todo.Deleted` | todo_list_functions.py:35-41 | for a valid k the list is one shorter: the entries before k stay in place and those after k move up by one; the removed entry plus the rest form the old multiset; for an invalid k, the list is unchanged |
| `Todo.CompletedIdempotent` | todo_list_functions.py:28-29 | completing the same entry twice equals completing it once |
| `Todo.DeleteUndoesAdd` | todo_list_functions.py:35-38 | for any name, deleting entry number length + 1 right after adding restores the list: a non-blank name's new entry is removed, and after a blank name the number is invalid and nothing changes |
| `Todo.DeleteAfterComplete` | todo_list_functions.py:28-38 | completing an entry and then deleting it equals deleting it |
| `Todo.TodoList.constructor` | todo_list_functions.py:1-2 | the list starts empty |
| `Todo.TodoList.AddTask` | todo_list_functions.py:5-11 | reports success exactly when the name is not blank; the new list is `Added(old list, name)` |
| `Todo.TodoList.MarkCompleted` | todo_list_functions.py:26-32 | reports success exactly when 1 ≤ k ≤ length; the new list is `Completed(old list, k)` |
| `Todo.TodoList.DeleteTask` | todo_list_functions.py:35-41 | returns the removed entry exactly when 1 ≤ k ≤ length, and None otherwise; the new list is `Deleted(old list, k)` |

## Left out

- Terminal I/O is not modelled: prompts, printed messages and emoji, screen
  clearing, delays, the welcome, win, lose and final-statistics displays,
  `get_player_name`, `display_tasks` and `display_sequence`. Hints are the
  `Hint`/`Feedback` datatypes rather than text.
- `random.randint` is not modelled. The secret is a parameter, and its range
  is a precondition.
- Python's `int()` text parsing (whitespace, signs, underscores) is not
  modelled. Each line arrives already parsed.
- The "play again?" question is represented only by the number of rounds
  given to a session.
- End of input is handled as follows. In Python, `input()` raises an uncaught
  `EOFError` there, and endless invalid input makes a round loop forever.
  Here the input is finite, and a round that runs out of lines returns `None`.
- ScoredGame.PlaySession: requires every round's lines to last until that
  round ends. The program itself would stop on end of input partway through
  a session.
- LoopGame.PlaySession: requires every round's lines to last until that round
  ends, for the same reason.
- The win-rate percentage (number_guessing_game.py line 297) is not
  modelled. It is float division with one-decimal formatting.
- The menu loops in `main` of `fibonacci_recursion.py` and
  `todo_list_functions.py` are not modelled. They only dispatch to the
  modelled operations.
- The `attempt_number` argument of `get_player_guess` is not modelled. It is
  used only in the prompt.
- `todo_gui.py` is not part of this model. It is a tkinter front end whose
  list changes follow widget selection and dialogs.
- Each task is a value (`Task`), not a shared dictionary. No other reference
  to a task's dictionary exists in the script, so the in-place field update
  is the same as replacing the entry.
- No integer wrap-around is modelled, because Python integers are unbounded.
