/** One round of hangman as a value: the secret word, the pattern shown to the
    player, the remaining attempts and the letters used so far, with the
    transition of one guess and the run of a round over the lines typed. */
module Round {
  import opened Letters

  /** The pattern slot of a letter not yet revealed. */
  const Placeholder: char := '_'

  datatype State = State(word: string, pattern: seq<char>, attempts: int, used: seq<char>)

  predicate NoDuplicates(s: seq<char>)
  {
    forall i, j :: 0 <= i < j < |s| ==> s[i] != s[j]
  }

  /** The pattern the used letters determine: slot i shows the word's letter
      once that letter has been guessed, and the placeholder until then. */
  function Mask(word: string, used: seq<char>): seq<char>
  {
    seq(|word|, i requires 0 <= i < |word| => if word[i] in used then word[i] else Placeholder)
  }

  /** Wrong letters among the used ones, i.e. the attempts they have cost. */
  function Misses(word: string, used: seq<char>): nat
  {
    if used == [] then 0
    else Misses(word, used[..|used| - 1]) + (if used[|used| - 1] in word then 0 else 1)
  }

  /** The invariant of a round: the pattern is the mask of the used letters
      over the word, and no letter was used twice. */
  ghost predicate Consistent(s: State)
  {
    s.pattern == Mask(s.word, s.used) && NoDuplicates(s.used)
  }

  /** A new round (`new Hangman(word, attempts, language)`): the lower-cased
      word, one placeholder per letter of the word as given, no used letters. */
  function Init(word: string, attempts: int): (s: State)
    ensures s.word == LowerString(word) && |s.pattern| == |word|
    ensures forall i :: 0 <= i < |s.pattern| ==> s.pattern[i] == Placeholder
    ensures s.attempts == attempts && s.used == []
    ensures Consistent(s) && Misses(s.word, s.used) == 0
  {
    State(LowerString(word), seq(|word|, _ => Placeholder), attempts, [])
  }

  /** `guess`: a used letter changes nothing; a fresh letter is appended to the
      used letters, and then either reveals each of its occurrences or, when
      the word does not contain it, costs one attempt. */
  function Guess(s: State, letter: char): (r: State)
    requires |s.pattern| == |s.word|
    ensures r.word == s.word && |r.pattern| == |s.pattern|
    ensures letter in s.used ==> r == s
    ensures letter !in s.used ==> r.used == s.used + [letter]
    ensures letter !in s.used && letter in s.word ==>
              r.attempts == s.attempts &&
              forall i :: 0 <= i < |s.word| ==>
                r.pattern[i] == if s.word[i] == letter then letter else s.pattern[i]
    ensures letter !in s.used && letter !in s.word ==>
              r.attempts == s.attempts - 1 && r.pattern == s.pattern
    ensures Consistent(s) ==> Consistent(r)
    ensures Consistent(s) ==>
              forall i :: 0 <= i < |s.pattern| && s.pattern[i] != Placeholder ==> r.pattern[i] == s.pattern[i]
    ensures r.attempts + Misses(r.word, r.used) == s.attempts + Misses(s.word, s.used)
  {
    if letter in s.used then s
    else
      var used := s.used + [letter];
      assert used[..|used| - 1] == s.used;
      if letter in s.word then
        var r := s.(pattern := seq(|s.pattern|, i requires 0 <= i < |s.pattern| =>
                                     if s.word[i] == letter then letter else s.pattern[i]),
                    used := used);
        assert Consistent(s) ==> r.pattern == Mask(r.word, r.used);
        r
      else
        var r := s.(attempts := s.attempts - 1, used := used);
        assert Consistent(s) ==> r.pattern == Mask(r.word, r.used);
        r
  }

  /** `hasWon`: no placeholder is left, which for a consistent round means
      every letter of the word has been guessed (a placeholder character in the
      word itself can never be guessed through the gate). */
  function HasWon(s: State): (b: bool)
    ensures b <==> forall i :: 0 <= i < |s.pattern| ==> s.pattern[i] != Placeholder
    ensures Consistent(s) ==>
              (b <==> forall i :: 0 <= i < |s.word| ==> s.word[i] != Placeholder && s.word[i] in s.used)
  {
    assert Consistent(s) ==> forall i :: 0 <= i < |s.word| ==>
      s.pattern[i] == if s.word[i] in s.used then s.word[i] else Placeholder;
    Placeholder !in s.pattern
  }

  /** `isGameOver`: the attempts are used up or the word is revealed. */
  function IsGameOver(s: State): (b: bool)
    ensures Consistent(s) ==>
              (b <==> s.attempts == 0 || forall i :: 0 <= i < |s.word| ==> s.word[i] != Placeholder && s.word[i] in s.used)
  {
    s.attempts == 0 || HasWon(s)
  }

  /** The guesses of a round applied one after the other. */
  function GuessAll(s: State, letters: seq<char>): State
    requires |s.pattern| == |s.word|
    decreases |letters|
  {
    if letters == [] then s
    else
      var t := Guess(s, letters[0]);
      GuessAll(t, letters[1..])
  }

  /** Through any sequence of guesses the word stays, the pattern keeps its
      length and stays the mask of the used letters, a revealed slot stays
      revealed, and every used letter has cost either nothing or one attempt. */
  lemma {:induction false} GuessAllKeeps(s: State, letters: seq<char>)
    requires |s.pattern| == |s.word| && Consistent(s)
    ensures var r := GuessAll(s, letters);
            r.word == s.word && |r.pattern| == |s.word| && Consistent(r) &&
            (forall i :: 0 <= i < |s.word| && s.pattern[i] != Placeholder ==> r.pattern[i] == s.pattern[i]) &&
            (forall i :: 0 <= i < |s.word| ==> r.pattern[i] == Placeholder || r.pattern[i] == s.word[i]) &&
            (forall c :: c in s.used || c in letters ==> c in r.used) &&
            s.attempts - |letters| <= r.attempts <= s.attempts &&
            r.attempts + Misses(r.word, r.used) == s.attempts + Misses(s.word, s.used)
    decreases |letters|
  {
    if letters != [] {
      var t := Guess(s, letters[0]);
      GuessAllKeeps(t, letters[1..]);
    }
  }

  /** How a round ends: finished, with whether it was won, its last state and
      the input left unread; or still waiting for another line. */
  datatype RoundOutcome =
    | Finished(won: bool, final: State, rest: seq<string>)
    | AwaitingInput(current: State)

  /** `startGame`: read lines one by one; a rejected line changes nothing and
      the prompt repeats; an accepted letter is guessed, and the round ends as
      soon as it is over. */
  function Run(lang: Language, s: State, answers: seq<string>): (r: RoundOutcome)
    requires |s.pattern| == |s.word|
    ensures r.Finished? ==> |r.rest| < |answers| && r.rest == answers[|answers| - |r.rest|..]
    ensures r.Finished? ==> r.final.word == s.word && |r.final.pattern| == |s.word|
    ensures r.AwaitingInput? ==> r.current.word == s.word && |r.current.pattern| == |s.word|
    decreases |answers|
  {
    if answers == [] then AwaitingInput(s)
    else
      match CheckAnswer(lang, answers[0])
      case Letter(c) =>
        var t := Guess(s, c);
        if IsGameOver(t) then Finished(HasWon(t), t, answers[1..]) else Run(lang, t, answers[1..])
      case _ => Run(lang, s, answers[1..])
  }

  /** A round that starts with attempts left never goes below zero: when it
      finishes it is over, `won` is whether the word is revealed, a lost round
      has no attempts left and a placeholder remaining, and a round still
      waiting for input has attempts left. */
  lemma {:induction false} RunEnds(lang: Language, s: State, answers: seq<string>)
    requires |s.pattern| == |s.word| && Consistent(s) && s.attempts > 0
    ensures match Run(lang, s, answers)
            case Finished(won, f, _) =>
              Consistent(f) && IsGameOver(f) && won == HasWon(f) &&
              0 <= f.attempts <= s.attempts &&
              (!won <==> f.attempts == 0 && Placeholder in f.pattern)
            case AwaitingInput(c) =>
              Consistent(c) && 0 < c.attempts <= s.attempts && (!IsGameOver(s) ==> !IsGameOver(c))
    decreases |answers|
  {
    if answers != [] {
      match CheckAnswer(lang, answers[0])
      case Letter(c) =>
        var t := Guess(s, c);
        if !IsGameOver(t) {
          RunEnds(lang, t, answers[1..]);
        }
      case _ =>
        RunEnds(lang, s, answers[1..]);
    }
  }

  /** A round reads the typed lines only up to the guess that ends it: its
      result does not depend on the lines after that, which are left unread
      as they were; and a round still waiting goes on with the next lines. */
  lemma {:induction false} RunAppend(lang: Language, s: State, a: seq<string>, b: seq<string>)
    requires |s.pattern| == |s.word|
    ensures Run(lang, s, a + b) ==
            match Run(lang, s, a)
            case Finished(won, f, rest) => Finished(won, f, rest + b)
            case AwaitingInput(c) => Run(lang, c, b)
    decreases |a|
  {
    if a == [] {
      assert a + b == b;
    } else {
      assert (a + b)[0] == a[0] && (a + b)[1..] == a[1..] + b;
      match CheckAnswer(lang, a[0])
      case Letter(c) =>
        var t := Guess(s, c);
        if !IsGameOver(t) {
          RunAppend(lang, t, a[1..], b);
        }
      case _ =>
        RunAppend(lang, s, a[1..], b);
    }
  }

  /** A word holding a character outside the game's alphabet (the "\r" a
      Windows line ending leaves on a word, say) can never be won: that slot
      stays a placeholder whatever is typed. */
  lemma {:induction false} RunNeverRevealsForeign(lang: Language, s: State, answers: seq<string>, k: nat)
    requires |s.pattern| == |s.word| && Consistent(s)
    requires k < |s.word| && s.word[k] !in Alphabet(lang) && s.word[k] !in s.used
    ensures match Run(lang, s, answers)
            case Finished(won, f, _) => !won && f.pattern[k] == Placeholder
            case AwaitingInput(c) => c.pattern[k] == Placeholder
    decreases |answers|
  {
    if answers != [] {
      match CheckAnswer(lang, answers[0])
      case Letter(c) =>
        var t := Guess(s, c);
        if !IsGameOver(t) {
          RunNeverRevealsForeign(lang, t, answers[1..], k);
        }
      case _ =>
        RunNeverRevealsForeign(lang, s, answers[1..], k);
    }
  }

  /** Lines the gate rejects are skipped without any effect on the round. */
  lemma {:induction false} RejectedLinesIgnored(lang: Language, s: State, junk: seq<string>, rest: seq<string>)
    requires |s.pattern| == |s.word|
    requires forall i :: 0 <= i < |junk| ==> !CheckAnswer(lang, junk[i]).Letter?
    ensures Run(lang, s, junk + rest) == Run(lang, s, rest)
    decreases |junk|
  {
    if junk == [] {
      assert junk + rest == rest;
    } else {
      assert (junk + rest)[0] == junk[0] && (junk + rest)[1..] == junk[1..] + rest;
      assert !CheckAnswer(lang, junk[0]).Letter?;
      assert Run(lang, s, junk + rest) == Run(lang, s, junk[1..] + rest);
      RejectedLinesIgnored(lang, s, junk[1..], rest);
    }
  }

  /** Letters missing from the word, none of them used before, each cost one
      attempt and leave the pattern as it was. */
  lemma {:induction false} MissesCostOneEach(s: State, letters: seq<char>)
    requires |s.pattern| == |s.word| && NoDuplicates(letters)
    requires forall i :: 0 <= i < |letters| ==> letters[i] !in s.word && letters[i] !in s.used
    ensures GuessAll(s, letters).attempts == s.attempts - |letters|
    ensures GuessAll(s, letters).pattern == s.pattern
    decreases |letters|
  {
    if letters != [] {
      var t := Guess(s, letters[0]);
      assert forall i :: 0 <= i < |letters| - 1 ==> letters[1..][i] == letters[i + 1];
      MissesCostOneEach(t, letters[1..]);
    }
  }

  /** Letters of the word cost no attempt, whatever the ones before them did. */
  lemma {:induction false} HitsCostNothing(s: State, letters: seq<char>)
    requires |s.pattern| == |s.word|
    requires forall i :: 0 <= i < |letters| ==> letters[i] in s.word
    ensures GuessAll(s, letters).attempts == s.attempts
    decreases |letters|
  {
    if letters != [] {
      var t := Guess(s, letters[0]);
      HitsCostNothing(t, letters[1..]);
    }
  }

  /** Guessing every letter of the word reveals all of it, so the round is won
      (and, by `HitsCostNothing`, without losing an attempt when only letters
      of the word are guessed). */
  lemma GuessingTheWordWins(s: State, letters: seq<char>)
    requires |s.pattern| == |s.word| && Consistent(s)
    requires forall i :: 0 <= i < |s.word| ==> s.word[i] != Placeholder && s.word[i] in letters
    ensures HasWon(GuessAll(s, letters))
  {
    GuessAllKeeps(s, letters);
  }

}
