# The Magical Wheel: game rules of the server

A Dafny model of the game logic in `server.py`. This is a small word-guessing
server. Players register with a nickname, the server draws a keyword and a hint
from a keyword file, and every player's guesses are then judged against one
shared round state:

- the keyword;
- a win flag (`correct_keyword`);
- one miss counter shared by all players (`turn_count`);
- a points table keyed by nickname.

The project has two modules:

- `PyStr` (`pystr.dfy`) holds the three Python string operations the rules rely on:
  - `str.strip()`, with Python's full `isspace` set;
  - `str.lower()`, modelled as the ASCII mapping;
  - `str.count` of one character.
- `Server` (`server.dfy`) holds the rules themselves:
  - `Select` reads keyword record `k` from the file's lines. It is pure; the random index is a parameter.
  - `StartMask` and `Mask` are the masks the server sends.
  - `Judge` gives the verdict on one guess as an `Outcome` value, in place of the message text. `Award`, `IsMiss` and `Ends` say what that verdict does to the points, the miss counter and the win flag.
  - `Run` gives the outcomes of the gameplay loop over a sequence of guesses.
  - `Credited` and `Earned` describe the points table those guesses produce.
  - `GameServer` is a class whose fields are the server's globals.
    - `Register` is the registration block.
    - `DrawKeyword` is the keyword draw.
    - `ProcessGuess` is one pass of the loop body. It splits into `GuessLetter` and `GuessWord`.
    - `Play` is the `while` loop with its guard. `PlayMove` is one pass of it.

The class keeps the invariant `Valid()`:

- the roster's nicknames are distinct;
- each registered nickname has a points entry of at least 0 and its 1-based join position as its order;
- the miss counter stays within 0..5.

Every method that changes state is specified against a pure function. For example, `ProcessGuess` yields `Judge` of the old state and credits `Award` to the guesser alone. `Play` yields `Run` and leaves `Credited` as the points table. The lemmas state the game's rules about those functions.

The model follows the code, which has these rules:

- There is no turn rotation. The code keeps one miss counter for all players, not a guess count per player.
- There is no elimination and no per-turn timeout.
- A letter already guessed is not rejected. Guessing it again is judged afresh.
- A whole-word guess may have any length other than 1, not only the keyword's length. Before the first miss it is refused.
- The mask is not cumulative. It shows only the current letter's positions, so a letter can complete it only when the keyword is that letter repeated (`LetterWinsOnlyRepeatedKeyword`). A letter that completes the mask earns 5 points in place of the 1 for a letter found.
- Nicknames are compared exactly, so case matters. They have no length bound.
- Guessing the placeholder `*` itself counts every `*` in the keyword. Those positions still show `*` in the mask, so "count = shown positions" holds only for letters other than `*` (`MaskShowsCount`, `JudgeLetter`).

## Model

| member | source | states |
|---|---|---|
| PyStr.LowerChar | server.py:56 | a character's lower-case form: A-Z map to a-z at the fixed distance, every other character is kept, no result is upper case, whitespace-ness is kept |
| PyStr.Lower | server.py:27 | `lower()` keeps the length and maps each position by `LowerChar`, so no upper-case letter is left |
| PyStr.Count | server.py:57 | `count(ch)` is at most the length and is 0 exactly when `ch` does not occur |
| PyStr.CountAll | server.py:57 | `count(ch)` equals the length exactly when every character is `ch` |
| PyStr.CountIsMultiplicity | server.py:57 | `count(ch)` is the number of occurrences of `ch`: its multiplicity in the string |
| PyStr.IsSpace | server.py:27-28 | the whitespace that `strip()` removes: Python's `isspace` set, the ASCII controls \t to \r and \x1c to \x1f, the space, and the Unicode space and separator characters; `LowerChar` keeps whitespace-ness, so a stripped line stays stripped when lower-cased (`LowerKeepsTrimmed`) |
| PyStr.TrimStart | server.py:27-28 | the left strip is a suffix of the input whose first character is not whitespace, and everything cut off is whitespace |
| PyStr.TrimEnd | server.py:27-28 | the right strip is a prefix of the input whose last character is not whitespace, and everything cut off is whitespace |
| PyStr.Strip | server.py:27-28 | `strip()` leaves no whitespace at either end and never lengthens the string |
| PyStr.StripCutsOnlyOuterSpace | server.py:27-28 | `strip()` returns a contiguous piece of the line with only whitespace before and after it, so nothing between the outer whitespace is lost |
| PyStr.TwoCuts | server.py:27-28 | cutting leading whitespace and then trailing whitespace leaves a piece of the line with only whitespace outside it |
| PyStr.StripTrimmed | server.py:27-28 | stripping a string with no outer whitespace returns it unchanged |
| PyStr.LowerKeepsTrimmed | server.py:27 | lower-casing a stripped line leaves it stripped |
| PyStr.LowerIdempotent | server.py:27 | lower-casing twice is the same as once |
| Server.Select | server.py:21-28 | record k fails exactly when line 2k-1 is missing, yields keyword and hint exactly when line 2k exists too, and any keyword read is lower case and stripped |
| Server.SelectRecord | server.py:25-28 | for a file of n records and 1 <= k <= n, the keyword is lower(strip(line 2k-1)) with no upper-case letter and the hint is strip(line 2k) |
| Server.StartMask | server.py:50 | the start mask is exactly one `*` per keyword character |
| Server.Mask | server.py:58 | the mask has the keyword's length; position i shows keyword[i] when it equals the letter and `*` otherwise |
| Server.MaskShowsCount | server.py:57-58 | for a letter other than `*`, the count equals the letter's occurrences in the mask, and count plus hidden positions is the keyword length |
| Server.MaskCompleteIff | server.py:58-60 | for a present letter, the mask has no `*` exactly when the letter is not `*` and fills the whole keyword |
| Server.AbsentLetterMask | server.py:56-58 | an absent letter's mask is the start mask |
| Server.RevealedIff | server.py:60 | `Revealed(mask)` holds exactly when `*` does not occur in the mask |
| Server.Judge | server.py:55-85 | the verdict on one guess: a guess of length 1 gets the letter verdict on its lower-cased character, any other length (the empty guess included) gets the whole-word verdict; its properties are `JudgeLetter` and `JudgeWord` |
| Server.JudgeLetterGuess | server.py:56-69 | the letter branch: an occurrence with the count and the mask when the letter is in the keyword, and a miss otherwise (stated in `JudgeLetter`) |
| Server.JudgeWordGuess | server.py:73-85 | the whole-word branch: refused before the first miss, a win when the lower-cased guess is the keyword, and a miss otherwise (stated in `JudgeWord`) |
| Server.Ends | server.py:60-76 | the verdicts that set `correct_keyword`: a letter whose mask has no `*` left, or a correct whole word; `Award` is 5 exactly for them |
| Server.IsMiss | server.py:67-83 | the verdicts that add one to `turn_count`: an absent letter or a wrong whole word, never a refused early word guess; `Award` gives them no points |
| Server.Award | server.py:60-66 | the award is positive exactly for an occurring letter or a word win, is 5 exactly when the round is won, and no miss earns points |
| Server.JudgeLetter | server.py:55-69 | a letter occurs exactly when the verdict is an occurrence: count >= 1 and equal to the letter's multiplicity in the keyword, mask of keyword length, count = shown positions (letter not `*`), no miss, +5 when nothing is hidden and +1 otherwise; an absent letter is a miss worth 0 that does not win |
| Server.LetterWinsOnlyRepeatedKeyword | server.py:56-61 | a letter guess ends the round exactly when the keyword is non-empty and consists only of that (lower-cased, non-`*`) letter |
| Server.JudgeWord | server.py:71-85 | before the first miss a non-letter guess is refused with no effect; afterwards it wins 5 exactly when its lower-cased form is the keyword, and is otherwise a miss worth 0 |
| Server.WordGuessIgnoresCase | server.py:75 | against a stored keyword, a word guess wins exactly when it equals the keyword up to letter case |
| Server.GuessCaseIgnored | server.py:55-75 | the letter case of a guess never matters: a guess and its lower-cased form get the same verdict, letters and whole words alike |
| Server.MissCount | server.py:69 | no more misses than judged guesses |
| Server.Run | server.py:53-85 | the loop judges at most one outcome per guess received |
| Server.RunStaysInBudget | server.py:53 | from a counter of at most 5, the counter plus the misses of the loop never exceeds 5 |
| Server.RunAdvance | server.py:53-85 | after i judged guesses, the (i+1)-th outcome is the verdict on guess i and the rest of the run continues from the new state |
| Server.RunEndsAtWin | server.py:60-61 | no guess is judged after a winning one: only the last outcome may end the round |
| Server.RunDone | server.py:53 | once the guard is false (round won or 5 misses), or no guess is left, the loop judges nothing more |
| Server.RunStopsOnlyWhenOver | server.py:53 | guesses are left unjudged only when the round was already won, a judged guess won it, or the misses reached 5 |
| Server.MissCountStep | server.py:69 | one more judged guess adds one to the misses exactly when it is a miss |
| Server.Earned | server.py:62-77 | the points one player gains over the judged guesses: the sum of the awards of that player's own guesses (`EarnedNonNegative`, `EarnedOnlyByGuesser`, `EarnedAtMost`) |
| Server.Credited | server.py:62-77 | the points table after `player_points[nickname] += …` for each judged guess in turn; it keeps the players (`CreditedKeys`), gives each their start plus `Earned` (`CreditedIsEarned`), and changes only the guesser's entry per guess (`CreditedStep`) |
| Server.CreditedKeys | server.py:62-66 | crediting guesses never adds or removes a nickname from the points table |
| Server.CreditedIsEarned | server.py:62-66 | each registered player's final points are their starting points plus what they earned by their own guesses |
| Server.CreditedStep | server.py:62-66 | crediting one more judged guess changes only its guesser's entry, by that guess's award |
| Server.EarnedNonNegative | server.py:62-66 | what a player earns is never negative, so points never decrease |
| Server.EarnedOnlyByGuesser | server.py:62-66 | a player who made none of the guesses earns nothing: only the guesser's points change |
| Server.EarnedAtMost | server.py:62 | a player earns at most 5 points per judged guess, whoever made it |
| Server.PlayStep | server.py:53-85 | one pass of the loop keeps the judged outcomes a prefix of the run and the counter equal to its start plus the misses |
| Server.RosterKeys | server.py:38-40 | a nickname has a points entry and an order exactly when it is on the roster |
| Server.RosterFacts | server.py:34-40 | roster entries are distinct, the i-th has order i+1, and no score is negative |
| Server.OrdersArePositions | server.py:38-40 | every order handed out lies in 1..roster length and names that position of the roster |
| Server.RosterCredit | server.py:62 | adding points to a registered player keeps the roster invariant |
| Server.RosterAppend | server.py:38-40 | appending a new nickname with 0 points and order = new length keeps the roster invariant |
| Server.GameServer.Running | server.py:53 | the loop guard `not correct_keyword and turn_count < 5`; `Play` stops early only when it is false |
| Server.GameServer.constructor | server.py:12-18 | the initial globals: empty roster and tables, empty keyword and hint, no win, counter 0 |
| Server.GameServer.Register | server.py:33-42 | a nickname already on the roster is refused and nothing changes; otherwise it is appended with 0 points and order = new roster length, which is returned |
| Server.GameServer.DrawKeyword | server.py:21-28 | the invariant is kept; the keyword is replaced when its line exists and the hint only when its line exists too; the start mask of the new keyword is returned only when the whole record was read, since a missing line raises before any announcement |
| Server.GameServer.Credit | server.py:62 | `player_points[nick] += n` changes that entry alone and keeps the invariant |
| Server.GameServer.ProcessGuess | server.py:54-85 | one pass of the loop body: the outcome is `Judge` of the old state, only the guesser gains its award, a miss adds one to the counter, the win flag is set exactly when the round is won |
| Server.GameServer.GuessLetter | server.py:55-70 | the letter branch: the outcome is the letter verdict, with its award, miss and win effects |
| Server.GameServer.GuessWord | server.py:71-85 | the whole-word branch: the outcome is the word verdict, with its award, miss and win effects |
| Server.GameServer.PlayMove | server.py:53-85 | one pass of the loop extends the judged outcomes along `Run`, keeps the counter and the points table as `MissCount` and `Credited` say, and sets the win flag by the outcome |
| Server.GameServer.Play | server.py:53-85 | the loop's outcomes are `Run` from the old state, it stops early only when the guard is false, the counter grows by the misses, the win flag is set by a winning last outcome, and the points are the old table credited with each guess's award |

## Left out

- Sockets, message text, the registration log `print` and the broadcasts (server.py:41, 42, 49-50, 59, 63-64, 68, 78-79, 82, 85, 87-91, and `start_game` and the listener at 93-127): each verdict is an `Outcome` value, not a message. The "Game over" broadcast at 87-91 sends no state change and is not modelled.
- Threads and the busy wait for `MAX_PLAYERS` (server.py:44-45). Each registration and each guess is one atomic call. In the server, each handler thread tests the loop guard and then blocks on its own socket, so a guess can arrive after another thread has already ended the round; `Play` takes the guard to be tested in the same step that processes the guess.
- The keyword drawn anew by every handler thread (server.py:48): `DrawKeyword` models one draw, and a second draw is a second call.
- Reading the file, `int(lines[0])` and `random.randint(1, n)` (server.py:23-26): the lines and the index `k` are parameters. A count line that is not an integer, or an n below 1, raises before any state changes and is not modelled, so `Select` requires k >= 1.
- A keyword file too short for record k makes the server raise `IndexError`. `DrawKeyword` reports this as `RecordMissing` (nothing changes) or `HintMissing` (the keyword was already replaced).
- PyStr.Lower: only A-Z are mapped. Python's full Unicode case mapping is not modelled, including mappings that change a string's length.
- Decoding of received bytes (`recv(...).decode()`): guesses and nicknames are strings of characters from the start.
- The `break` at server.py:80 is not modelled separately: the win flag it follows already makes the guard false.
- client.py and gui.py: a socket client and a pygame interface with no game rules of their own.
