/** The `Hangman` class: one round whose pattern is an array updated in place.
    Its abstract value is a `Round.State`, and each method is proved to move
    that value exactly as the corresponding `Round` function does. */
module Game {
  import opened Letters
  import opened Round

  class Hangman {
    const word: string
    const guessedLetters: array<char>
    var attempts: int
    var usedLetters: seq<char>
    const language: Language

    /** The round this object currently plays. */
    function State(): Round.State
      reads this, guessedLetters
    {
      Round.State(word, guessedLetters[..], attempts, usedLetters)
    }

    ghost predicate Valid()
      reads this, guessedLetters
    {
      guessedLetters.Length == |word| && Consistent(State())
    }

    constructor (word: string, attempts: int, language: Language)
      ensures Valid() && fresh(guessedLetters)
      ensures State() == Init(word, attempts) && this.language == language
    {
      this.word := LowerString(word);
      this.attempts := attempts;
      this.guessedLetters := new char[|word|](_ => Placeholder);
      this.usedLetters := [];
      this.language := language;
      new;
      assert guessedLetters[..] == Init(word, attempts).pattern;
    }

    /** `guess`: a used letter is ignored; a fresh one is recorded, and then
        every slot holding it is revealed, or one attempt is lost. */
    method Guess(letter: char)
      requires Valid()
      modifies this, guessedLetters
      ensures Valid()
      ensures State() == Round.Guess(old(State()), letter)
    {
      ghost var before := State();
      if letter in usedLetters {
        return;
      }
      usedLetters := usedLetters + [letter];
      if letter in word {
        var index := 0;
        while index < |word|
          invariant 0 <= index <= |word|
          modifies guessedLetters
          invariant forall k :: 0 <= k < index ==>
                      guessedLetters[k] == if word[k] == letter then letter else old(guessedLetters[k])
          invariant forall k :: index <= k < |word| ==> guessedLetters[k] == old(guessedLetters[k])
        {
          if word[index] == letter {
            guessedLetters[index] := word[index];
          }
          index := index + 1;
        }
      } else {
        attempts := attempts - 1;
      }
      ghost var after := Round.Guess(before, letter);
      assert guessedLetters[..] == after.pattern;
      assert State() == after;
    }

    /** `hasWon`: no slot of the pattern still shows the placeholder. */
    function HasWon(): (b: bool)
      reads this, guessedLetters
      ensures b <==> forall i :: 0 <= i < guessedLetters.Length ==> guessedLetters[i] != Placeholder
    {
      Round.HasWon(State())
    }

    /** `isGameOver`: no attempts are left or the word is revealed. */
    function IsGameOver(): (b: bool)
      reads this, guessedLetters
      ensures b <==> attempts == 0 || forall i :: 0 <= i < guessedLetters.Length ==> guessedLetters[i] != Placeholder
    {
      Round.IsGameOver(State())
    }

    /** `startGame`: prompt for a letter until the round is over. A line of the
        wrong length or outside the alphabet is rejected and changes nothing;
        an accepted letter is lower-cased and guessed. */
    method StartGame(answers: seq<string>) returns (outcome: RoundOutcome)
      requires Valid()
      modifies this, guessedLetters
      ensures Valid()
      ensures outcome == Run(language, old(State()), answers)
      ensures outcome.Finished? ==> State() == outcome.final
      ensures outcome.AwaitingInput? ==> State() == outcome.current
    {
      var k := 0;
      while k < |answers|
        invariant 0 <= k <= |answers| && Valid()
        invariant Run(language, old(State()), answers) == Run(language, State(), answers[k..])
      {
        assert answers[k..][0] == answers[k] && answers[k..][1..] == answers[k + 1..];
        match CheckAnswer(language, answers[k]) {
          case Letter(c) =>
            Guess(c);
            if IsGameOver() {
              return Finished(HasWon(), State(), answers[k + 1..]);
            }
          case _ =>
        }
        k := k + 1;
      }
      return AwaitingInput(State());
    }
  }
}
