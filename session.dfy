/** A session: the rounds played one after another with a word drawn from the
    word list for each, the tally of wins and losses and the final verdict;
    then the prompts around it (language, number of rounds, replay). */
module Session {
  import opened Letters
  import opened Round
  import opened Game
  import opened WordList

  datatype Option<T> = None | Some(value: T)

  /** Every round starts with five attempts. */
  const InitialAttempts: int := 5

  /** One round, as the session plays it: a fresh game with five attempts,
      driven by the lines the player types. */
  method PlayRound(lang: Language, word: string, answers: seq<string>) returns (outcome: RoundOutcome)
    ensures outcome == Run(lang, Init(word, InitialAttempts), answers)
    ensures outcome.Finished? ==> 0 <= outcome.final.attempts <= InitialAttempts
    ensures outcome.Finished? ==> (outcome.won <==> Placeholder !in outcome.final.pattern)
    ensures outcome.Finished? && !outcome.won ==> outcome.final.attempts == 0
  {
    var game := new Hangman(word, InitialAttempts, lang);
    outcome := game.StartGame(answers);
    RunEnds(lang, Init(word, InitialAttempts), answers);
  }

  /** A word read from a file with Windows line endings keeps its final "\r",
      which no alphabet holds: that slot is never revealed and the round can
      only be lost. */
  lemma CarriageReturnNeverRevealed(lang: Language, word: string, answers: seq<string>)
    requires |word| > 0 && word[|word| - 1] == '\r'
    ensures match Run(lang, Init(word, InitialAttempts), answers)
            case Finished(won, f, _) => !won && f.pattern[|word| - 1] == Placeholder
            case AwaitingInput(c) => c.pattern[|word| - 1] == Placeholder
  {
    var s := Init(word, InitialAttempts);
    var k := |word| - 1;
    assert s.word[k] == '\r' by {
      assert s.word[k] == LowerChar(word[k]);
    }
    assert '\r' !in Alphabet(lang) by {
      EnglishLettersAre('\r');
      RussianLettersAre('\r');
    }
    RunNeverRevealsForeign(lang, s, answers, k);
  }

  /** The number of entries of `outcomes` equal to `b`. */
  function Count(outcomes: seq<bool>, b: bool): nat
  {
    if outcomes == [] then 0
    else Count(outcomes[..|outcomes| - 1], b) + (if outcomes[|outcomes| - 1] == b then 1 else 0)
  }

  /** One more round adds one to the tally of its outcome and nothing to the
      other. */
  lemma CountAppend(outcomes: seq<bool>, won: bool)
    ensures Count(outcomes + [won], true) == Count(outcomes, true) + (if won then 1 else 0)
    ensures Count(outcomes + [won], false) == Count(outcomes, false) + (if won then 0 else 1)
  {
    assert (outcomes + [won])[..|outcomes|] == outcomes;
  }

  /** Every round is either won or lost. */
  lemma {:induction false} CountsAddUp(outcomes: seq<bool>)
    ensures Count(outcomes, true) + Count(outcomes, false) == |outcomes|
  {
    if outcomes != [] {
      CountsAddUp(outcomes[..|outcomes| - 1]);
    }
  }

  /** The rounds of a session played so far, and the input not yet read. */
  datatype Progress = Progress(outcomes: seq<bool>, rest: seq<string>)

  predicate ValidPicks(words: seq<string>, picks: seq<nat>)
  {
    forall i :: 0 <= i < |picks| ==> picks[i] < |words|
  }

  /** `playRound` from round `k + 1` to the last: round i plays the word at
      `picks[i]` (the draw of `Math.random`) on the input the rounds before it
      left unread. When a round is still waiting for input, the session stops
      there. */
  function PlayRounds(lang: Language, words: seq<string>, picks: seq<nat>, k: nat, input: seq<string>): (p: Progress)
    requires k <= |picks| && ValidPicks(words, picks)
    ensures |p.outcomes| <= |picks| - k
    decreases |picks| - k
  {
    if k == |picks| then Progress([], input)
    else
      match Run(lang, Init(words[picks[k]], InitialAttempts), input)
      case AwaitingInput(_) => Progress([], [])
      case Finished(won, _, rest) =>
        var p := PlayRounds(lang, words, picks, k + 1, rest);
        Progress([won] + p.outcomes, p.rest)
  }

  /** The rounds read the typed lines from the front, each finished round at
      least one of them, and what is left unread is a suffix of the input. */
  lemma {:induction false} PlayRoundsConsumes(lang: Language, words: seq<string>, picks: seq<nat>, k: nat,
                                              input: seq<string>)
    requires k <= |picks| && ValidPicks(words, picks)
    ensures var p := PlayRounds(lang, words, picks, k, input);
            |p.rest| <= |input| - |p.outcomes| && p.rest == input[|input| - |p.rest|..]
    decreases |picks| - k
  {
    if k < |picks| {
      var outcome := Run(lang, Init(words[picks[k]], InitialAttempts), input);
      if outcome.Finished? {
        PlayRoundsConsumes(lang, words, picks, k + 1, outcome.rest);
      }
    }
  }

  /** One more round of `PlayRounds`, with the outcomes of the rounds before
      it already known. */
  lemma PlayRoundsStep(lang: Language, words: seq<string>, picks: seq<nat>, k: nat, input: seq<string>,
                       before: seq<bool>, total: Progress, outcome: RoundOutcome)
    requires k < |picks| && ValidPicks(words, picks)
    requires var p := PlayRounds(lang, words, picks, k, input);
             total == Progress(before + p.outcomes, p.rest)
    requires outcome == Run(lang, Init(words[picks[k]], InitialAttempts), input)
    ensures outcome.AwaitingInput? ==> total.outcomes == before
    ensures outcome.Finished? ==>
              var p := PlayRounds(lang, words, picks, k + 1, outcome.rest);
              total == Progress((before + [outcome.won]) + p.outcomes, p.rest)
  {
    assert PlayRounds(lang, words, picks, k, input) ==
           match outcome
           case AwaitingInput(_) => Progress([], [])
           case Finished(won, _, rest) =>
             var p := PlayRounds(lang, words, picks, k + 1, rest);
             Progress([won] + p.outcomes, p.rest);
    if outcome.AwaitingInput? {
      assert before + [] == before;
    } else {
      var p := PlayRounds(lang, words, picks, k + 1, outcome.rest);
      assert before + ([outcome.won] + p.outcomes) == (before + [outcome.won]) + p.outcomes;
    }
  }

  /** How the session ends (`Math.random` and the file are given). */
  datatype SessionEnd =
    | ReadError
    | Completed(wins: nat, losses: nat, verdict: Verdict, rest: seq<string>)
    | Stalled(wins: nat, losses: nat)

  datatype Verdict = GameWon | GameLost | Draw

  /** The closing message: won with more wins, lost with more losses, a draw
      otherwise. */
  function Decide(wins: nat, losses: nat): (v: Verdict)
    ensures v == GameWon <==> wins > losses
    ensures v == GameLost <==> losses > wins
    ensures v == Draw <==> wins == losses
  {
    if wins > losses then GameWon
    else if losses > wins then GameLost
    else Draw
  }

  /** `playRound(1)` to `playRound(rounds)`: play the rounds in order on the
      words `picks` selects, and count each finished round as exactly one win
      or one loss; a round left waiting for input stalls the session. */
  method PlayAllRounds(lang: Language, words: seq<string>, rounds: nat, picks: seq<nat>, input: seq<string>)
    returns (result: SessionEnd)
    requires |picks| == rounds && ValidPicks(words, picks)
    ensures !result.ReadError?
    ensures var p := PlayRounds(lang, words, picks, 0, input);
            result.wins == Count(p.outcomes, true) && result.losses == Count(p.outcomes, false) &&
            (result.Completed? <==> |p.outcomes| == rounds) &&
            (result.Completed? ==>
               result.wins + result.losses == rounds &&
               result.verdict == Decide(result.wins, result.losses) &&
               result.rest == p.rest)
  {
    var wins, losses := 0, 0;
    var round := 0;
    var rest := input;
    ghost var outcomes: seq<bool> := [];
    ghost var total := PlayRounds(lang, words, picks, 0, input);
    while round < rounds
      invariant 0 <= round <= rounds && |outcomes| == round
      invariant wins == Count(outcomes, true) && losses == Count(outcomes, false)
      invariant var p := PlayRounds(lang, words, picks, round, rest);
                total == Progress(outcomes + p.outcomes, p.rest)
    {
      var outcome := PlayRound(lang, words[picks[round]], rest);
      PlayRoundsStep(lang, words, picks, round, rest, outcomes, total, outcome);
      match outcome {
        case AwaitingInput(_) =>
          return Stalled(wins, losses);
        case Finished(won, _, unread) =>
          if won {
            wins := wins + 1;
          } else {
            losses := losses + 1;
          }
          CountAppend(outcomes, won);
          outcomes := outcomes + [won];
          rest := unread;
          round := round + 1;
      }
    }
    assert outcomes + [] == outcomes;
    CountsAddUp(outcomes);
    return Completed(wins, losses, Decide(wins, losses), rest);
  }

  /** `startGameRounds`: read the word list of the language (an unreadable
      file ends the session with no rounds and no replay), then play the
      rounds on its words. */
  method StartGameRounds(lang: Language, file: Option<string>, rounds: nat, picks: seq<nat>, input: seq<string>)
    returns (result: SessionEnd)
    requires file.Some? ==> |picks| == rounds && ValidPicks(Words(file.value), picks)
    ensures file.None? <==> result.ReadError?
    ensures file.Some? ==>
              var p := PlayRounds(lang, Words(file.value), picks, 0, input);
              result.wins == Count(p.outcomes, true) && result.losses == Count(p.outcomes, false) &&
              (result.Completed? <==> |p.outcomes| == rounds) &&
              (result.Completed? ==>
                 result.wins + result.losses == rounds &&
                 result.verdict == Decide(result.wins, result.losses) &&
                 result.rest == p.rest)
  {
    if file.None? {
      return ReadError;
    }
    result := PlayAllRounds(lang, Words(file.value), rounds, picks, input);
  }

  /** The language prompt: "en" or "ru" in any case. */
  function SelectLanguage(answer: string): (r: Option<Language>)
    ensures r == Some(En) <==> |answer| == 2 && answer[0] in "eE" && answer[1] in "nN"
    ensures r == Some(Ru) <==> |answer| == 2 && answer[0] in "rR" && answer[1] in "uU"
  {
    var a := LowerString(answer);
    assert (a == "en" <==> |answer| == 2 && answer[0] in "eE" && answer[1] in "nN") &&
           (a == "ru" <==> |answer| == 2 && answer[0] in "rR" && answer[1] in "uU") by {
      assert a == "en" <==> |answer| == 2 && LowerChar(answer[0]) == 'e' && LowerChar(answer[1]) == 'n';
      assert a == "ru" <==> |answer| == 2 && LowerChar(answer[0]) == 'r' && LowerChar(answer[1]) == 'u';
      if |answer| == 2 {
        LowerCharTo(answer[0], 'e');
        LowerCharTo(answer[1], 'n');
        LowerCharTo(answer[0], 'r');
        LowerCharTo(answer[1], 'u');
      }
    }
    if a == "en" then Some(En)
    else if a == "ru" then Some(Ru)
    else None
  }

  /** The round-count prompt: the number `parseInt` read, when it is one and
      is positive. */
  function AcceptRounds(parsed: Option<int>): (r: Option<nat>)
    ensures r.Some? <==> parsed.Some? && parsed.value > 0
    ensures r.Some? ==> r.value == parsed.value
  {
    match parsed
    case Some(n) => if n > 0 then Some(n) else None
    case None => None
  }

  /** The replay prompt: "yes" or "да" in any case, whichever the language. */
  function IsReplay(answer: string): (b: bool)
    ensures b <==>
              (|answer| == 3 && answer[0] in "yY" && answer[1] in "eE" && answer[2] in "sS") ||
              (|answer| == 2 && answer[0] in "дД" && answer[1] in "аА")
  {
    var a := LowerString(answer);
    assert (a == "yes" <==> |answer| == 3 && answer[0] in "yY" && answer[1] in "eE" && answer[2] in "sS") &&
           (a == "да" <==> |answer| == 2 && answer[0] in "дД" && answer[1] in "аА") by {
      assert a == "yes" <==> |answer| == 3 && LowerChar(answer[0]) == 'y' && LowerChar(answer[1]) == 'e' && LowerChar(answer[2]) == 's';
      assert a == "да" <==> |answer| == 2 && LowerChar(answer[0]) == 'д' && LowerChar(answer[1]) == 'а';
      if |answer| == 3 {
        LowerCharTo(answer[0], 'y');
        LowerCharTo(answer[1], 'e');
        LowerCharTo(answer[2], 's');
      }
      if |answer| == 2 {
        LowerCharTo(answer[0], 'д');
        LowerCharTo(answer[1], 'а');
      }
    }
    a == "yes" || a == "да"
  }

  /** Where the program is between two lines of input. */
  datatype Prompt =
    | AskLanguage
    | AskRounds(lang: Language)
    | Playing(lang: Language, rounds: nat)
    | AskReplay(lang: Language)
    | Done

  /** `startNewGame` and `askPlayAgain`: what the next line typed leads to.
      An invalid language asks again; an invalid round count and a replay
      both keep the language already chosen and ask for the rounds again. */
  function Next(p: Prompt, answer: string, parseInt: string -> Option<int>): (q: Prompt)
    requires p.AskLanguage? || p.AskRounds? || p.AskReplay?
    ensures p.AskLanguage? ==> (q.AskRounds? <==> SelectLanguage(answer).Some?) && (q.AskRounds? || q == AskLanguage)
    ensures p.AskLanguage? && q.AskRounds? ==> q.lang == SelectLanguage(answer).value
    ensures !p.AskLanguage? ==> q != AskLanguage
    ensures !p.AskLanguage? && q != Done ==> q.lang == p.lang
    ensures p.AskRounds? ==> (q.Playing? || q == p) && (q.Playing? <==> AcceptRounds(parseInt(answer)).Some?)
    ensures q.Playing? ==> q.rounds > 0 && Some(q.rounds as int) == parseInt(answer)
    ensures p.AskReplay? ==> (q == AskRounds(p.lang) <==> IsReplay(answer)) && (q == Done <==> !IsReplay(answer))
  {
    match p
    case AskLanguage =>
      (match SelectLanguage(answer)
       case Some(l) => AskRounds(l)
       case None => AskLanguage)
    case AskRounds(l) =>
      (match AcceptRounds(parseInt(answer))
       case Some(n) => Playing(l, n)
       case None => AskRounds(l))
    case AskReplay(l) =>
      if IsReplay(answer) then AskRounds(l) else Done
  }
}
