# python-demos in Dafny

A Dafny model of the two small programs in the python-demos repository:

- **numbergame** — a high/low number-guessing game. The computer keeps a range
  `[minValue, maxValue]`, the guesses of the current game, the scores of the
  finished games and an in-progress flag. Each round it guesses the lower
  midpoint of the range; if that number was already guessed it probes upward
  and downward for the nearest unused number, and ties go to the higher one.
  The player answers `l` (the number is higher), `h` (it is lower) or `c`
  (correct), and the game ends on `c` or when the answers leave the range
  empty.
- **chesscalc** — a single-piece move calculator. A piece (knight, king,
  queen, "rook", "castle") stands on a square of an 8×8 board given as
  `[a-h][digit]`, and the program lists, sorted, every square it may move to
  on an otherwise empty board. In this program the piece called *rook* moves
  diagonally and the one called *castle* moves along rows and columns; the
  model keeps that.

Modules, one per source file plus two helpers:

- `Numbers` (numbers.dfy) — `numbergame/numbers.py`. `Game` is a class with
  the fields of `NumberGame`; its methods update them in place. The probing
  loops `GetHighGuess`/`GetLowGuess` are `while` loops proved equal to the
  recursive functions `HighGuess`/`LowGuess`, and `GetNextGuess` equals the
  function `NextGuess`, whose meaning is proved in `NextGuessNearest` and
  `ClearRangeGuessIsMidpoint`. `DoGuess` is one round of `doGuess` with the
  player's answer as a parameter.
- `ChessPiece` (chesspiece.dfy) — `chesscalc/chesspiece.py`. Pieces are a
  datatype (kind, row, column); `IsValidMove` dispatches on the kind. The
  knight's flag loop over its offset table is the method `KnightIsValidMove`.
  The global name→class dict is the class `Registry` with a `map` field.
- `Chess` (chess.dfy) — `chesscalc/chess.py`: column letter/index
  conversion, the board orderings, the move collection of `run` (nested
  loops, then `sorted`) and the checks of the `ChessCalculator` constructor.
- `Ordering` (ordering.dfy) — Python 2 string comparison and `sorted` on a
  list of strings, used by `run`.
- `Wrappers` (wrappers.dfy) — `Option` (Python's `None`) and `Result`.
- `Integers` (integers.dfy) — `Abs`, Python's `abs` on ints.

Python 2 semantics that matter are written out: `/` on ints floors (Dafny's
`/` by 2 agrees), `None` compares below every int (so
`isBoundErrorCondition` holds when max is unset), `0` and `None` are false
in `if not x`, and `str.lower` only changes `A`–`Z`.

The docstrings of `getHighGuess` and `getLowGuess`
(numbergame/numbers.py:137-139 and 146-148) say they skip values already
used, but the loops stop *at* max (or min) and return that value without
checking it, so a number can be guessed twice (`ProbeRepeatsBound`). The
model follows the loops. In a game started by `StartPlay` this cannot happen,
whatever the player answers: `DoGuess` keeps `Game.PlayInvariant` (no earlier
guess lies in the range), because an answer that contradicts an earlier one
empties the range and the bound check ends the game; under the invariant the
guess is always the midpoint (`ClearRangeGuessIsMidpoint`) and every round
that does not end the game halves the range (`ClearRangeAnswerHalves`). The
probing path is reached only by setting the range or the guesses directly.
A negative starting bound is the one case where an answer moves the wrong
way: the range [1, max] is empty, a high answer raises max (−5 → −3) and a
low answer lowers min (1 → −1), and then the bound check ends the game
(`NegativeBoundRound`). For the
same reason as above the guess
stays inside the range whenever it holds at least two values
(`NextGuessInRange`), but a one-value range whose value was already guessed
yields the value above it (`SingletonRangeLeaves`).

## Model

| member | source | states |
|---|---|---|
| `Numbers.Midpoint` | numbergame/numbers.py:159-160 | For min ≤ max the midpoint lies in the range and is the lower middle: its distance to max is its distance to min or one more; for min > max it lies in [max, min), and its distance to min is its distance to max or one more. |
| `Numbers.HighGuess` | numbergame/numbers.py:136-143 | The upward probe from g stops at a value ≥ g that is unused or has reached max, and every value it skipped is below max and already guessed. |
| `Numbers.LowGuess` | numbergame/numbers.py:145-152 | The downward probe from g stops at a value ≤ g that is unused or has reached min, and every value it skipped is above min and already guessed. |
| `Numbers.HighGuessAtMost` | numbergame/numbers.py:140-143 | An upward probe that starts at or below max never passes max. |
| `Numbers.LowGuessAtLeast` | numbergame/numbers.py:149-152 | A downward probe that starts at or above min never passes min. |
| `Numbers.NextGuess` | numbergame/numbers.py:154-171 | The guess is the midpoint exactly when the midpoint is unused, and then it lies in [min, max] when min ≤ max. |
| `Numbers.NextGuessNearest` | numbergame/numbers.py:164-171 | When the midpoint is used, the guess differs from it and is unused or the bound a probe stopped at (or the first step off the midpoint); every value strictly nearer to the midpoint is used; the values on the other side up to the same distance are all used and strictly inside the bounds, so a tie goes to the higher value. |
| `Numbers.NextGuessInRange` | numbergame/numbers.py:154-171 | For min < max the guess lies in [min, max] for every list of earlier guesses. |
| `Numbers.SingletonRangeLeaves` | numbergame/numbers.py:164-171 | For min = max = m with m already guessed, the guess is m + 1, outside the range. |
| `Numbers.NextGuessExamples` | numbergame/test_numbers.py:69-133 | On 1..10: no guesses gives 5; [5] gives 6; [5,6] gives 4; [3,4,5,6] gives 7, with the probe values the tests check. |
| `Numbers.ProbeRepeatsBound` | numbergame/numbers.py:140-143 | On [1,3] with 2 and 3 guessed, the next guess is 3 again: the bound is returned unchecked. |
| `Numbers.IsBoundErrorCondition` | numbergame/numbers.py:198-202 | min > max, where an unset max (None) counts as below every min. |
| `Numbers.BoundErrorExamples` | numbergame/test_numbers.py:135-143 | (10, 100) is no bound error and (10, 5) is one. |
| `Numbers.AverageScore` | numbergame/numbers.py:225-227 | For a non-empty score list, average × count equals the sum of the scores. |
| `Numbers.AverageWithinBounds` | numbergame/numbers.py:225-227 | The average lies between any lower and upper bound of the scores. |
| `Numbers.AverageScoreExample` | numbergame/test_numbers.py:145-149 | The average of [2, 5] is 3.5. |
| `Numbers.ClearRangeGuessIsMidpoint` | numbergame/numbers.py:159-162 | If no earlier guess lies in [min, max] (and the range is non-empty or nothing was guessed), the next guess is the midpoint. |
| `Numbers.AnswerNarrows` | numbergame/numbers.py:190-193 | In a range of two or more values, a high answer moves max strictly down, a low answer moves min strictly up, and the range gets strictly narrower. |
| `Numbers.ClearRangeAnswerHalves` | numbergame/numbers.py:175-193 | With no earlier guess in a non-empty range, either answer leaves at most half of the range (rounded down). |
| `Numbers.NegativeBoundRound` | numbergame/numbers.py:122-196 | Starting a fresh game with bound −5 and answering once: the guess is −2; high raises max to −3, low lowers min to −1; either way the game ends with no score. |
| `Numbers.Game.PlayInvariant` | numbergame/numbers.py:173-196 | What every round keeps whatever the answers: while a game runs with max set, the range is non-empty once something was guessed, and no earlier guess lies inside it. |
| `Numbers.Game.constructor` | numbergame/numbers.py:12-19 | A new game has no scores, min 1, max and starting max unset, no guesses, and is not in progress. |
| `Numbers.Game.SetMinValue` | numbergame/numbers.py:29-31 | Sets min and nothing else. |
| `Numbers.Game.SetMaxValue` | numbergame/numbers.py:33-35 | Sets max and nothing else. |
| `Numbers.Game.ClearGuesses` | numbergame/numbers.py:59-61 | Empties the guesses and changes nothing else. |
| `Numbers.Game.AddGuess` | numbergame/numbers.py:63-65 | Appends the guess and changes nothing else. |
| `Numbers.Game.Reset` | numbergame/numbers.py:115-120 | min = 1, max unset, guesses empty, in progress; scores and starting max unchanged; the play invariant holds. |
| `Numbers.Game.StartPlay` | numbergame/numbers.py:122-129 | After reset, a missing or zero starting max is replaced by the entered number, max becomes the starting max, and the play invariant holds. |
| `Numbers.Game.GetHighGuess` | numbergame/numbers.py:136-143 | The loop returns HighGuess from midpoint + 1 (midpoint + 1 when max is unset) and changes nothing. |
| `Numbers.Game.GetLowGuess` | numbergame/numbers.py:145-152 | The loop returns LowGuess from midpoint − 1 and changes nothing. |
| `Numbers.Game.GetNextGuess` | numbergame/numbers.py:154-171 | Returns NextGuess of the current range and guesses, built from the two probing loops. |
| `Numbers.Game.BoundError` | numbergame/numbers.py:204-214 | Ends the game and changes nothing else (no score). |
| `Numbers.Game.DoGuess` | numbergame/numbers.py:173-196 | Appends the next guess; the answer is forced to correct when min == max; correct appends the new guess count to the scores and ends the game, high sets max = guess − 1, low sets min = guess + 1; an empty range ends the game; nothing else changes. The play invariant is preserved, and under it the guess is the midpoint and a game that goes on keeps at most half its range; in a range of two or more values high moves max strictly down, low moves min strictly up, and a game that goes on has a strictly narrower range. |
| `ChessPiece.IsPiecePosition` | chesscalc/chesspiece.py:38-40 | True exactly on the piece's own row and column. |
| `ChessPiece.IsPiecePositionExamples` | chesscalc/test_chesspiece.py:65-72 | A piece on (4,3) is at (4,3) and not at (3,4), (2,5) or (5,3). |
| `ChessPiece.BoardCharacter` | chesscalc/chesspiece.py:56-147 | The board letter of each kind: k, K, Q, R, C. |
| `ChessPiece.BoardCharactersDistinct` | chesscalc/chesspiece.py:53-147 | The five board letters are pairwise different. |
| `ChessPiece.IsValidMove` | chesscalc/chesspiece.py:60-154 | The five isValidMove methods: never the own square; knight by the offset table, king one step, queen a line or diagonal, rook a diagonal, castle a row or column. |
| `ChessPiece.OwnSquareNeverValid` | chesscalc/chesspiece.py:60-154 | No piece may move to its own square. |
| `ChessPiece.KnightIsValidMove` | chesscalc/chesspiece.py:60-74 | The flag loop over the offset table returns exactly the knight's IsValidMove. |
| `ChessPiece.KnightMoveIsLShape` | chesscalc/chesspiece.py:65-74 | A knight move is valid iff the row and column differences are 1 and 2 or 2 and 1 in size. |
| `ChessPiece.QueenIsCastleOrRook` | chesscalc/chesspiece.py:104-119 | A queen move is valid iff the castle (orthogonal) or the rook (diagonal) move from the same square is. |
| `ChessPiece.KingAndKnightAgainstQueen` | chesscalc/chesspiece.py:84-94 | Every king move is a queen move; no knight move is. |
| `ChessPiece.MoveSymmetric` | chesscalc/chesspiece.py:129-154 | For every kind, A→B is valid iff B→A is valid for the same kind. |
| `ChessPiece.BoardExamples` | chesscalc/test_chesspiece.py:107-189 | On the board, a knight on (4,4) and a king on (3,3) have exactly the eight targets the tests list. |
| `ChessPiece.Registry.constructor` | chesscalc/chesspiece.py:157-161 | Loading the module registers exactly knight, king, queen, rook and castle. |
| `ChessPiece.Registry.RegisterClass` | chesscalc/chesspiece.py:13-15 | After registering, the name gives the new kind and every other name gives what it gave before. |
| `ChessPiece.Registry.GetClass` | chesscalc/chesspiece.py:18-20 | Gives Some(kind) iff the name is registered, with the registered kind; None otherwise. |
| `ChessPiece.BuiltinRegistry` | chesscalc/chesspiece.py:157-161 | The built-in names are exactly the five, with board letters k, K, Q, R, C; "bishop" is not registered. |
| `Ordering.LessIrreflexive` | chesscalc/chess.py:107 | No string is below itself. |
| `Ordering.LessTrichotomy` | chesscalc/chess.py:107 | Of two different strings one is below the other. |
| `Ordering.LessTransitive` | chesscalc/chess.py:107 | String order is transitive. |
| `Ordering.Insert` | chesscalc/chess.py:107 | Inserting adds exactly one copy of the element (multiset). |
| `Ordering.SortStrings` | chesscalc/chess.py:107 | The sorted list is a permutation of the input. |
| `Ordering.InsertSorted` | chesscalc/chess.py:107 | Inserting a new element into a strictly increasing list keeps it strictly increasing. |
| `Ordering.SortStringsSorted` | chesscalc/chess.py:107 | A list without repeats sorts into a strictly increasing list. |
| `Ordering.StrictlySortedDistinct` | chesscalc/chess.py:107 | A strictly increasing list has no repeats. |
| `Ordering.SortedUnique` | chesscalc/chess.py:107 | Two strictly increasing permutations of each other are equal, so any correct sort gives the same list. |
| `Chess.Find` | chesscalc/chess.py:119 | Gives the first position holding the character, or −1 exactly when it is absent. |
| `Chess.ColumnsAscend` | chesscalc/chess.py:111 | Column i holds the i-th letter of the alphabet. |
| `Chess.ColumnLetters` | chesscalc/chess.py:116 | A character is a column letter iff it is between a and h. |
| `Chess.ColumnIndex` | chesscalc/chess.py:109-119 | Gives a value iff the input is one letter a–h, and then a column 1..8 holding that letter; empty input and other characters give None. |
| `Chess.ColumnLetter` | chesscalc/chess.py:121-135 | Gives a letter iff the index is 1..8 (None, 0 and other numbers give None), and that letter converts back to the same index. |
| `Chess.IndexLetterRoundTrip` | chesscalc/chess.py:109-135 | A letter a–h converts to an index and back to itself. |
| `Chess.ColumnIndexOfLetter` | chesscalc/chess.py:109-119 | Letter c converts to its place in the alphabet (a → 1, …, h → 8). |
| `Chess.ColumnExamples` | chesscalc/test_chess.py:16-50 | a→1, d→4, h→8; i, z, 5 and empty give None; 1→a, 8→h; 0, 9, −1 and None give None. |
| `Chess.BoardRows` | chesscalc/chess.py:67-72 | Eight rows, 8 down to 1; exactly the numbers 1..8. |
| `Chess.BoardColumns` | chesscalc/chess.py:74-76 | Eight columns, 1 up to 8; exactly the numbers 1..8. |
| `Chess.SquareName` | chesscalc/chess.py:92 | The name of an on-board square is two characters that parse back to the same column and row. |
| `Chess.SquareNameParses` | chesscalc/chess.py:92 | Every letter-digit name is the name of the square it parses to. |
| `Chess.SquareNameOrder` | chesscalc/chess.py:107 | Sorting square names as strings orders by column, then by row. |
| `Chess.Run` | chesscalc/chess.py:78-107 | The result holds only square names, contains a square's name iff the piece may move there, is strictly increasing (each square once), and never holds the piece's own square. |
| `Chess.MoveListUnique` | chesscalc/chess.py:83-107 | The properties Run promises determine the list completely. |
| `Chess.Lower` | chesscalc/chess.py:42 | Same length; no upper-case ASCII letter remains; A–Z move to a–z and every other character is kept. |
| `Chess.LowerIdempotent` | chesscalc/chess.py:42 | Lower-casing twice gives the same as once. |
| `Chess.Setup` | chesscalc/chess.py:25-49 | Accepts any position the constructor reads without failing, including one-character ones it rejects. Invalid column iff the first character is not a–h; invalid row iff the column is fine and the second character is not a digit; an unknown-piece error carries the lower-cased name and occurs iff both are fine and that name is unregistered; a piece iff the name is registered, standing on the named column and the digit's row (0–9, unchecked). |
| `Chess.SetupReadsTwoCharacters` | chesscalc/chess.py:27-35 | Only the first two characters of the position matter. |
| `Chess.SetupBuildsPiece` | chesscalc/chess.py:27-49 | "knight" on b3 builds a knight on row 3, column 2; "Castle" on a9 builds a castle on row 9. |
| `Chess.SetupRejects` | chesscalc/chess.py:27-47 | i3 and the one-character z are invalid columns, bx an invalid row, and "Bishop" an unknown piece "bishop". |
| `Chess.Calculate` | chesscalc/chess.py:25-51 | A failed check gives its error; otherwise the result is the move list of the piece Setup builds. |

## Left out

- Console I/O and the interactive control flow of the game: `instructions`, `getRawInput`, `getIntegerInput`, `menu`, the prompting and the `while` loop of `play`, and the replay prompt of `gameOver`. The player's answer is a parameter of `DoGuess`, and the entered upper bound a parameter of `StartPlay`.
- Numbers.Game.DoGuess: in the source, `gameOver` runs inside the correct branch before the bound check, and a "y" reply restarts the game from there; the model ends the round instead.
- The message text of `printStats` and `boundError`, and the `%0.1f` formatting of the average; `AverageScore` is an exact real, not a float.
- The plain accessors (`getMinValue`, `getGuesses`, `setStartMaxValue`, `setGameInProgress`, …): the model reads and writes the fields directly.
- Numbers.Game.GetNextGuess: requires max to be set; the source fails with a TypeError on arithmetic with None.
- Numbers.Game.DoGuess: requires max to be set, for the same reason.
- Terminal colours, the drawn board and the column label line (`colorString`, the row strings of `run`), `usage` and the argparse entry points.
- Chess.Run: returns the sorted list; the source prints it joined with ", ".
- Ordering.SortStrings: Python's `sorted` is a different algorithm; `SortedUnique` shows that every correct sort gives the same list here.
- Registering arbitrary Python classes under new names: the registry maps names to the five piece kinds only.
- Chess.ColumnIndex: takes strings of at most one character; for longer strings the source's `in` is a substring test, which is not modelled (the constructor passes one character).
- Chess.ColumnLetter: takes an optional integer; the source's `int()` conversion of strings and its ValueError path are not modelled.
- Chess.Setup: requires a non-empty position whose second character exists unless the first is not a–h; the source raises an uncaught IndexError on an empty position and on a one-character position whose letter is a–h. Lower-casing and digit parsing cover ASCII only, as Python 2 byte strings do.
- Chess.Calculate: the same requirement on the position, for the same reason.
