# Hangman, modelled in Dafny

This is a model of the console hangman game `index.ts`. A session works like this:
- The player chooses a language ("en" or "ru") and a number of rounds.
- Each round plays a word drawn from that language's word file with five attempts.
- In each round the player types letters until the word is revealed or the attempts are used up.
- After the last round the game prints the tally of wins and losses and a verdict, then offers a replay.

The model has five modules:

- `Letters` (`letters.dfy`):
  - the two languages and their alphabets, written out as listings and proved equal to ranges of code points;
  - lower-casing;
  - `isValidLetter`;
  - the two checks of the guess prompt (one character, then a letter of the alphabet).
- `Round` (`round.dfy`): one round as a value.
  - A `State` holds the lower-cased word, the pattern, the attempts and the used letters.
  - `Guess`, `HasWon` and `IsGameOver` are functions on it.
  - `Run` is a round over the lines the player types.
  - The invariant the round keeps is `Consistent`. It says two things. First, the pattern is the *mask* of the used letters: slot i shows `word[i]` exactly when that letter has been used, and `_` otherwise. Second, no letter is used twice.
  - Alongside it, the attempts plus the misses among the used letters never change.
- `Game` (`hangman.dfy`): the `Hangman` class itself.
  - The pattern is an `array<char>` updated in place by the reveal loop of `guess`.
  - The used letters and the attempts are fields that `guess` reassigns.
  - `StartGame` is the prompt loop of `startGame`.
  - Each method is proved to move the object's abstract value (`State()`) exactly as the `Round` function does.
- `WordList` (`words.dfy`): `data.split("\n").filter(word => word.trim().length > 0)`, with JavaScript's `split` and `trim` written out.
- `Session` (`session.dfy`):
  - `playRound` and the loop over the rounds with its `wins`/`losses` counters;
  - the verdict;
  - the language, round-count and replay prompts as a step function between prompts.

The outside world comes in through parameters:
- **Typed lines.** Everything the player types is one sequence of lines, consumed from the front by round after round. When that sequence runs out, the model stops and reports that it is still waiting (`AwaitingInput`, `Stalled`). The program itself would wait for more input instead.
- **The word file.** Its contents are an `Option<string>`, with `None` when it cannot be read.
- **`Math.random`.** The words drawn are a sequence of indices into the word list, one per round.
- **`parseInt`.** It is a function parameter from the typed line to an optional integer.

## Model

| member | source | states |
|---|---|---|
| Game.Hangman.constructor | index.ts:13-19 | The new object's pattern has one `_` per character of the word as given, its word is the lower-cased word, no letter is used, the attempts are the argument, and the round invariant holds. |
| Round.Init | index.ts:13-19 | The initial round: the lower-cased word, a pattern of one placeholder per character of the word, the given attempts, no used letters. It satisfies the round invariant and has no misses. |
| Game.Hangman.Guess | index.ts:64-85 | `guess` moves the object from `State()` to `Round.Guess(old(State()), letter)`, updating the pattern array in place, and keeps the invariant. |
| Round.Guess | index.ts:64-82 | A used letter changes nothing. A fresh letter is appended exactly once. A hit reveals exactly the slots holding the letter and keeps the attempts. A miss costs exactly one attempt and keeps the pattern. No revealed slot reverts. The invariant is preserved. Attempts plus misses is unchanged. |
| Round.GuessAllKeeps | index.ts:64-82 | Through any sequence of guesses: the word is unchanged, the pattern keeps the length of the word and stays the mask of the used letters, and every slot is `_` or `word[i]`. A revealed slot stays revealed. Every letter guessed ends up among the used letters. The attempts drop by at most one per guess. |
| Round.MissesCostOneEach | index.ts:80-82 | Guessing k fresh, distinct letters absent from the word costs exactly k attempts and leaves the pattern as it was. `guess` has no guard of its own, so the count goes below zero if the caller does not stop. |
| Round.HitsCostNothing | index.ts:74-79 | Guessing only letters of the word never costs an attempt. |
| Round.GuessingTheWordWins | index.ts:74-79 | Guessing every letter of a word free of `_` reveals the whole word, so `hasWon` holds. |
| Round.HasWon | index.ts:126-128 | `hasWon` holds iff no slot shows `_`. Under the invariant, this means every letter of the word is not `_` and has been used. |
| Game.Hangman.HasWon | index.ts:126-128 | `hasWon` on the object: no element of the pattern array is `_`. |
| Round.IsGameOver | index.ts:122-124 | Under the invariant, the round is over iff no attempts are left or every letter of the word has been guessed. |
| Game.Hangman.IsGameOver | index.ts:122-124 | `isGameOver` on the object: no attempts are left or no element of the pattern array is `_`. |
| Letters.EnglishLettersAre | index.ts:60 | The English listing holds exactly the code points U+0061–U+007A (a–z). |
| Letters.RussianLettersAre | index.ts:61 | The Russian listing holds exactly U+0430–U+044F (а–я) and U+0451 (ё). |
| Letters.RussianCapitalsAre | index.ts:61 | The Russian capitals hold exactly U+0410–U+042F (А–Я) and U+0401 (Ё). |
| Letters.LowerCharInEnglish | index.ts:58-62 | Lower-casing takes a character into a–z exactly when it is in a–z or A–Z. |
| Letters.LowerCharInRussian | index.ts:58-62 | Lower-casing takes a character into а–я/ё exactly when it is in а–я/ё or А–Я/Ё. |
| Letters.LowerChar | index.ts:14 | `toLowerCase` on one character leaves every character but a capital unchanged, changes every capital, and never yields a capital, so lower-casing twice is the same as once. |
| Letters.LowerString | index.ts:14 | `toLowerCase` keeps the length and lower-cases character by character. |
| Letters.IsValidLetter | index.ts:58-62 | The character-class test written as code-point ranges holds iff the answer is one character whose lower case is in the language's alphabet. |
| Letters.CheckAnswer | index.ts:30-45 | The gate of the guess prompt. A line whose length is not 1 is rejected for its length. A line is accepted iff `isValidLetter` holds. An accepted line becomes its lower-cased character, which is in the alphabet. |
| Round.Run | index.ts:26-56 | A round over the typed lines. When it finishes, it has consumed at least one line and returns the unread suffix. The word and the pattern length are kept. |
| Game.Hangman.StartGame | index.ts:26-56 | The prompt loop returns exactly `Round.Run` of the object's starting state. The object ends in the final (or still-waiting) state, and the invariant holds. |
| Round.RunEnds | index.ts:44-53 | From a consistent state with attempts left: a finished round is over, `won` is `hasWon` of the last state, and the attempts never go below zero. A lost round has no attempts left and a `_` remaining. A round still waiting has attempts left and, if the round was not over at the start, it is still not over. Together with `RunAppend`, the loop stops exactly at game over. |
| Round.RunAppend | index.ts:44-53 | A round's result does not depend on the lines after the guess that ends it. Those lines are left unread, unchanged, for the next round, and a round still waiting goes on with the lines that follow. |
| Round.RejectedLinesIgnored | index.ts:30-43 | Lines the gate rejects are skipped with no effect on the round. |
| Round.RunNeverRevealsForeign | index.ts:74-79 | A word character outside the alphabet, not yet used, is never revealed, so the round can never be won. |
| WordList.Split | index.ts:145 | `split("\n")` yields at least one piece, no piece holds the separator, and joining the pieces with the separator gives back the text. |
| WordList.SplitJoin | index.ts:145 | Splitting the text of separator-free pieces joined by the separator gives back exactly those pieces. |
| WordList.TrimStart | index.ts:145 | The leading half of `trim()`: the result is a suffix of the line, everything removed is whitespace, and the result does not start with whitespace. |
| WordList.TrimEnd | index.ts:145 | The trailing half of `trim()`: the result is a prefix of the line, everything removed is whitespace, and the result does not end with whitespace. |
| WordList.Trim | index.ts:145 | `trim()` is non-empty iff the line holds a character that is not ECMAScript whitespace or a line terminator. |
| WordList.NonBlank | index.ts:145 | `filter(word => word.trim().length > 0)`: no more lines than were given, and every line kept is non-blank. |
| WordList.NonBlankKeeps | index.ts:145 | The filter keeps a line iff it does not trim to nothing. |
| WordList.Words | index.ts:145 | Every word is a non-blank line of the file holding no newline, and every non-blank line of the file is a word. |
| WordList.WordsOfLines | index.ts:145 | The words of a text made of given lines are exactly the non-blank ones among those lines, in order and untrimmed. |
| Session.CarriageReturnNeverRevealed | index.ts:145 | A word that keeps a trailing "\r" from a Windows line ending is never won, and its last slot stays `_`. |
| Session.PlayRound | index.ts:165-173 | One round is a fresh five-attempt game run on the typed lines. When it finishes, its attempts are between 0 and 5, it is won iff no `_` remains, and a lost round has no attempts left. |
| Session.PlayRounds | index.ts:147-183 | The `playRound(round + 1)` recursion from a given round to the last: at most one outcome per round still to play. |
| Session.PlayRoundsConsumes | index.ts:173-179 | The rounds read the typed lines from the front: each finished round reads at least one line, and what is left unread is a suffix of the input. |
| Session.CountAppend | index.ts:174-178 | A finished round adds one to the counter of its outcome and nothing to the other. |
| Session.CountsAddUp | index.ts:174-178 | The win count plus the loss count is the number of finished rounds. |
| Session.PlayAllRounds | index.ts:147-183 | `wins` and `losses` are the counts of won and lost rounds in `PlayRounds`. All rounds finish iff the session completes. Then `wins + losses == rounds` and the verdict is `Decide(wins, losses)`. |
| Session.StartGameRounds | index.ts:131-145 | An unreadable file ends with no rounds. Otherwise the rounds are played on the file's words, and the tally is that of `PlayRounds`. A completed session has `wins + losses == rounds`, the verdict `Decide(wins, losses)`, and the input its rounds left unread. |
| Session.Decide | index.ts:154-160 | The verdict is won iff wins > losses, lost iff losses > wins, and a draw iff they are equal. |
| Session.SelectLanguage | index.ts:216-225 | The language prompt accepts "en" or "ru" in any mix of case and nothing else. |
| Session.AcceptRounds | index.ts:235-236 | A round count is accepted iff it parsed and is positive. |
| Session.IsReplay | index.ts:198 | A replay is "yes" or "да" in any mix of case, in either language. |
| Session.Next | index.ts:209-250 | An invalid language asks again. Once a language is chosen it is never asked again and is kept. An invalid round count asks for rounds again. An accepted count is positive. The replay prompt (index.ts:198-200) leads back to the round count, in the same language, iff the answer is a replay token, and ends otherwise. |

## Left out

- Console output is not modelled: the localised messages, `showStatus` (including the `join(" ")` rendering) and the prompts' text. Only which prompt comes next is modelled.
- `readline`, `rl.close()` and the callback style are replaced by loops and recursion. When the typed lines run out, the model stops with `AwaitingInput`/`Stalled`, where the program would wait forever.
- `fs.readFile` is I/O; its result is given as `Option<string>`, and the file name choice is not modelled.
- `Math.random` is not modelled: the indices of the words drawn are given. They must lie inside the word list. The program would crash on an empty list.
- `parseInt` is an abstract function parameter. Its prefix parsing, whitespace and radix rules are not modelled.
- Letters.LowerChar: `toLowerCase` is modelled only for A–Z, the Latin-1 capitals (U+00C0–U+00DE except U+00D7) and the Cyrillic capitals U+0400–U+042F. Every other character is left unchanged. So the model never changes the length of a word, which full Unicode lower-casing can (for example U+0130).
- Letters.IsValidLetter: the case-insensitive `/i` flag is modelled as the listed capitals only. Without the `u` flag, `/i` compares upper-case forms, so a JavaScript engine also matches the rare Cyrillic variants U+1C80–U+1C86 against `[а-яё]`.
- Characters are Unicode scalar values, not UTF-16 code units. An astral character therefore has length 1 here and reaches the alphabet check, where JavaScript reports it as two characters.
- The `won` and `rl` fields of `Hangman` are not modelled; the round's outcome carries `won`.
- Round.Guess: it requires the pattern to be as long as the word. The constructor guarantees this in the model.

## Notes on behaviour

- The model follows the code in these places, not a reading of the game as a session that starts over from scratch:
  - A replay keeps the language already chosen (index.ts:200) and asks only for the number of rounds.
  - An invalid round count also keeps the language (index.ts:243).
  - The replay prompt accepts "yes" and "да" whichever the language (index.ts:198).
