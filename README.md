# Mastermind: feedback, score ledger and turn controller

A Dafny model of the game logic of `mastermind.py`, a two-player,
terminal-based variant of Mastermind. Each player sets a secret of five
decimal digits; the players then alternately guess each other's secret.
Every guess earns a five-slot feedback line, the list of guessed digits
that do not occur in the secret, and a count of exact matches. Five exact
matches win. After any other guess the player may exit instead of going
on. A win, and also an exit, records a win for that player in a scores
table keyed by player name, with that player's guess count.

The model has four modules, one per piece of logic:

- `codes.dfy`, module `Codes`: the shape check both prompts apply to the
  whitespace-split input: exactly five tokens, each a single digit.
  `ParseCode` accepts exactly those token lists and returns the code they
  spell.
- `feedback.dfy`, module `Feedback`: `give_feedback`. `GiveFeedback` keeps
  the source's two passes over a five-slot array. It is proved equal to
  three specification functions: `Marks` (slot by slot), `WrongDigits` and
  `ExactCount`. The lemmas then state what those functions mean. The `'_'`
  mark is kept exactly as written: it tests membership in the secret, not
  the remaining multiplicity of the digit, so it differs from classic
  Mastermind scoring (`PresentNotCountLimited`).
- `scores.dfy`, module `Scores`: the `scores` table, modelled as a
  `map<string, Record>` inside the class `Ledger`. `SaveScore` does the
  lookup, then the update or insert, of `save_score`. `DisplayScores` gives
  the rows of `ORDER BY wins DESC`. `IsListing` specifies that listing:
  a permutation of the rows, ordered by wins, highest first, with no
  order among equal wins.
- `game.dfy`, module `Game`: the loop of `mastermind_multiplayer` as the
  class `Session`. Its fields are the two names, the two secrets, the two
  guess counters, whose turn it is, the phase, and the ledger it saves to.
  Console input becomes method parameters: the tokens of a secret or
  guess, and the player's exit choice. `Valid()` keeps strict alternation.
  Player one makes the 1st, 3rd, ... guess and player two the 2nd,
  4th, .... Each counter is the number of guesses its player has made.

Four scenario lemmas pin down concrete cases: `RepeatedSecretDigit`,
`NoCommonDigitExample`, `SaveTwice` and `ListingExample`. With secret
`1 1 2 3 4` and guess `1 2 1 3 4` the feedback line is `1 _ _ 3 4`:
positions 0, 3 and 4 are exact matches, and positions 1 and 2 get `_`
because their guessed digits, `2` and `1`, occur in the secret.

## Model

| member | source | states |
|---|---|---|
| `Codes.ParseCode` | mastermind.py:73-78 | the guess prompt's test: accepted iff there are exactly 5 tokens, each one character long and a digit; an accepted list yields the code whose tokens were typed (the same test guards the secret prompt, mastermind.py:104) |
| `Codes.ParseTokens` | mastermind.py:101-106 | every five-digit code, typed one digit per token, is accepted and read back unchanged |
| `Codes.RejectedShapes` | mastermind.py:104-106 | four tokens, six tokens, a two-character token and a non-digit token are each rejected |
| `Feedback.GiveFeedback` | mastermind.py:81-98 | the two-pass in-place computation returns exactly `Marks`, `WrongDigits` and `ExactCount` of the secret and guess |
| `Feedback.ExactCount` | mastermind.py:84-89 | the exact-match count never exceeds the number of positions (so it lies in 0..5) |
| `Feedback.ExactCountIsMatches` | mastermind.py:86-89 | the exact-match count equals the number of positions i with guess[i] == secret[i] |
| `Feedback.FullCountIffEqual` | mastermind.py:86-89 | the count reaches 5, the win condition of mastermind.py:134 and :152, iff the guess equals the secret; a code scored against itself gives 5 |
| `Feedback.MarksAt` | mastermind.py:82-96 | for digit codes, slot i is guess[i] iff it is an exact match; it is '_' iff it is not exact and guess[i] occurs anywhere in the secret, whatever its multiplicity; otherwise it is ' ' |
| `Feedback.WrongDigitsCount` | mastermind.py:83-91 | the wrong-digit list holds each digit as many times as the guess does when the secret lacks it, and never when the secret has it |
| `Feedback.WrongDigitsAppend` | mastermind.py:86-91 | the wrong digits of a guess split anywhere are those of the first part followed by those of the rest, so they are listed in position order |
| `Feedback.WrongAndExactFit` | mastermind.py:86-91 | the number of wrong digits plus the exact count is at most the number of positions |
| `Feedback.NoCommonDigit` | mastermind.py:81-98 | a guess with no digit in the secret gets five blanks, exact count 0, and all its digits, in order, as wrong digits |
| `Feedback.PresentNotCountLimited` | mastermind.py:93-96 | secret 12345 against guess 11111 gives `1____`: the single '1' of the secret earns one exact mark and four '_' marks |
| `Feedback.RepeatedSecretDigit` | mastermind.py:81-98 | secret 11234 against guess 12134 gives `1__34` and no wrong digits |
| `Feedback.NoCommonDigitExample` | mastermind.py:81-98 | secret 12345 against guess 67890: five blanks, count 0, wrong digits 67890 |
| `Scores.Ledger.constructor` | mastermind.py:12-19 | a freshly created scores table is empty |
| `Scores.Ledger.SaveScore` | mastermind.py:27-43 | the table becomes `AfterSave` of the old one: a new name gets (wins 1, guesses g), a known name gets wins + 1 and guesses overwritten by g; every record keeps at least one win |
| `Scores.SaveRecord` | mastermind.py:32-41 | after a save the name is present, its guesses are exactly the saved count (not a sum), and its wins are the old wins plus one (0 if absent) |
| `Scores.SaveKeepsOthers` | mastermind.py:37-41 | a save neither adds, removes nor changes the record of any other name |
| `Scores.SaveTwice` | mastermind.py:32-41 | Alice winning with 7 and then 4 guesses leaves (wins 1, guesses 7) and then (wins 2, guesses 4) |
| `Scores.Ledger.DisplayScores` | mastermind.py:50-54 | returns every stored row exactly once (as a multiset, a permutation of the table's entries), ordered by wins, highest first |
| `Scores.ListingRows` | mastermind.py:53-54 | any such listing contains each stored record exactly once and only stored records |
| `Scores.ListingExample` | mastermind.py:53 | players with 3, 1 and 2 wins are listed with 3, 2, 1 wins |
| `Game.Session.constructor` | mastermind.py:113-114 | a session starts with the two names, awaiting player one's secret, both counters 0 |
| `Game.Session.SubmitSecret` | mastermind.py:116-125 | rejected tokens change nothing; player one's accepted secret is set first, then player two's, after which player one is to guess and both counters are 0 |
| `Game.Session.SubmitGuess` | mastermind.py:127-155 | rejected tokens change nothing; an accepted guess is scored against the opponent's secret, the guesser's counter goes up by exactly 1 and the other counter does not change; a count of 5 ends the game and saves the guesser's name with the guesser's counter; otherwise the ledger is untouched and the guesser chooses next |
| `Game.Session.Decide` | mastermind.py:139-162 | choosing exit ends the game and saves the exiting player's name with that player's own counter (so the exiting player also gains a win); going on passes the turn to the opponent; counters and secrets do not change |
| `Game.GuessRecorded` | mastermind.py:127-151 | recording a guess by the player on turn keeps strict alternation and adds one to that player's count only |
| `Game.CountersAlternate` | mastermind.py:124-151 | under alternation, after k guesses player one has made (k+1)/2 and player two k/2, so the counters never differ by more than one |
| `Game.NoDoubleTurn` | mastermind.py:127-162 | the player of the next guess is always the other player; `Decide` relies on it when the turn passes, so alternation survives "try again" |

## Left out

- Connection handling: opening, committing and closing the sqlite connection, and the `finally` clause, are not modelled (mastermind.py:28-47, 51-55). `setup_database`'s `CREATE TABLE IF NOT EXISTS` (mastermind.py:9-24) is modelled only as the empty table the constructor creates. A table that persists between runs is modelled by one `Ledger` object outliving any number of `Session`s.
- The `sqlite3.IntegrityError` handler (mastermind.py:44-47): in a sequential map model the lookup and the insert cannot collide.
- The `id` autoincrement column and the `DEFAULT 0` of `wins`: no insert relies on the default, and only the left-out `display_scores_table` reads `id` (its `SELECT *`, mastermind.py:66).
- `display_scores_table` and its pandas rendering (mastermind.py:64-70): a foreign library, used only for presentation.
- All printing and prompting: `clear_screen`, the feedback and wrong-digit lines, and the messages. The re-prompt loops of `get_valid_guess` and `get_valid_secret_number` are also left out: each call of `SubmitSecret` or `SubmitGuess` is one attempt, and a rejected attempt leaves the state unchanged.
- Game.Session.Decide: takes the player's choice as a boolean. The normalisation `strip().lower() == 'exit'` of the typed text (mastermind.py:139-140, 157-158) belongs to the console shell.
- The `display_scores()` calls after an exit or at the end of the game (mastermind.py:143, 161, 166): the shell calls `Ledger.DisplayScores`.
- The bare `except:` (mastermind.py:163-164): it catches input failures, which do not exist in a model whose inputs are parameters, and every storage failure of `save_score` other than `IntegrityError`, which passes through the `finally` of mastermind.py:46-47 with the table not updated. The model's storage cannot fail: `Ledger.SaveScore` always updates the table.
- The module-level calls `setup_database()` and `mastermind_multiplayer()` (mastermind.py:24, 169).
- Codes.ParseCode: accepts only the ASCII digits '0'-'9'. Python's `str.isdigit` also accepts other Unicode digit characters, such as Arabic-Indic digits and superscript two; the model has no Unicode character database.
- Scores.Ledger.DisplayScores: returns one particular order among rows with equal wins. The database promises no order among them, so `IsListing`, the contract, leaves ties unordered.
