/** The two game languages, their alphabets, lower-casing as far as the game
    needs it, and the gate that decides which typed answer becomes a guess. */
module Letters {

  datatype Language = En | Ru

  /** The 26 lower-case letters an English game accepts. */
  const EnglishLetters: string := "abcdefghijklmnopqrstuvwxyz"

  /** The 33 lower-case letters a Russian game accepts (а–я and ё). */
  const RussianLetters: string := "абвгдеёжзийклмнопрстуфхцчшщъыьэюя"

  const EnglishCapitals: string := "ABCDEFGHIJKLMNOPQRSTUVWXYZ"
  const RussianCapitals: string := "АБВГДЕЁЖЗИЙКЛМНОПРСТУФХЦЧШЩЪЫЬЭЮЯ"

  function Alphabet(lang: Language): string
  {
    match lang
    case En => EnglishLetters
    case Ru => RussianLetters
  }

  lemma AlphabetSizes()
    ensures |Alphabet(En)| == 26 && |Alphabet(Ru)| == 33
  {
  }

  // The listings above, read as ranges of code points.

  lemma EnglishLettersAre(c: char)
    ensures c in EnglishLetters <==> 0x61 <= c as int <= 0x7A
  {
    forall i | 0 <= i < 26 ensures EnglishLetters[i] as int == 0x61 + i {}
    if 0x61 <= c as int <= 0x7A { assert EnglishLetters[c as int - 0x61] == c; }
  }

  lemma EnglishCapitalsAre(c: char)
    ensures c in EnglishCapitals <==> 0x41 <= c as int <= 0x5A
  {
    forall i | 0 <= i < 26 ensures EnglishCapitals[i] as int == 0x41 + i {}
    if 0x41 <= c as int <= 0x5A { assert EnglishCapitals[c as int - 0x41] == c; }
  }

  lemma RussianLettersListed()
    ensures |RussianLetters| == 33
    ensures forall i :: 0 <= i < 6 ==> RussianLetters[i] as int == 0x430 + i
    ensures RussianLetters[6] as int == 0x451
    ensures forall i :: 7 <= i < 33 ==> RussianLetters[i] as int == 0x42F + i
  {
    forall i | 0 <= i < 6 ensures RussianLetters[i] as int == 0x430 + i {}
    forall i | 7 <= i < 33 ensures RussianLetters[i] as int == 0x42F + i {}
  }

  lemma RussianCapitalsListed()
    ensures |RussianCapitals| == 33
    ensures forall i :: 0 <= i < 6 ==> RussianCapitals[i] as int == 0x410 + i
    ensures RussianCapitals[6] as int == 0x401
    ensures forall i :: 7 <= i < 33 ==> RussianCapitals[i] as int == 0x40F + i
  {
    forall i | 0 <= i < 6 ensures RussianCapitals[i] as int == 0x410 + i {}
    forall i | 7 <= i < 33 ensures RussianCapitals[i] as int == 0x40F + i {}
  }

  lemma RussianLettersAre(c: char)
    ensures c in RussianLetters <==> 0x430 <= c as int <= 0x44F || c as int == 0x451
  {
    var n := c as int;
    if 0x430 <= n <= 0x44F || n == 0x451 { RussianLettersHas(c); }
    if c in RussianLetters { RussianLettersOnly(c); }
  }

  lemma RussianLettersHas(c: char)
    requires 0x430 <= c as int <= 0x44F || c as int == 0x451
    ensures c in RussianLetters
  {
    RussianLettersListed();
    var n := c as int;
    if n == 0x451 { assert RussianLetters[6] == c; }
    else if n < 0x436 { assert RussianLetters[n - 0x430] == c; }
    else { assert RussianLetters[n - 0x42F] == c; }
  }

  lemma RussianLettersOnly(c: char)
    requires c in RussianLetters
    ensures 0x430 <= c as int <= 0x44F || c as int == 0x451
  {
    RussianLettersListed();
  }

  lemma RussianCapitalsAre(c: char)
    ensures c in RussianCapitals <==> 0x410 <= c as int <= 0x42F || c as int == 0x401
  {
    var n := c as int;
    if 0x410 <= n <= 0x42F || n == 0x401 { RussianCapitalsHas(c); }
    if c in RussianCapitals { RussianCapitalsOnly(c); }
  }

  lemma RussianCapitalsHas(c: char)
    requires 0x410 <= c as int <= 0x42F || c as int == 0x401
    ensures c in RussianCapitals
  {
    RussianCapitalsListed();
    var n := c as int;
    if n == 0x401 { assert RussianCapitals[6] == c; }
    else if n < 0x416 { assert RussianCapitals[n - 0x410] == c; }
    else { assert RussianCapitals[n - 0x40F] == c; }
  }

  lemma RussianCapitalsOnly(c: char)
    requires c in RussianCapitals
    ensures 0x410 <= c as int <= 0x42F || c as int == 0x401
  {
    RussianCapitalsListed();
  }

  /** The upper-case letters `LowerChar` knows: A–Z, the Latin-1 capitals
      U+00C0–U+00DE but for the sign U+00D7, and the Cyrillic capitals
      U+0400–U+042F. */
  predicate IsCapital(c: char)
  {
    var n := c as int;
    0x41 <= n <= 0x5A || (0xC0 <= n <= 0xDE && n != 0xD7) || 0x400 <= n <= 0x42F
  }

  /** `String.prototype.toLowerCase` on one character, for the upper-case
      letters of ASCII, Latin-1 and the basic Cyrillic block; every other
      character is left as it is. The result is never a capital, so
      lower-casing twice changes nothing more. */
  function LowerChar(c: char): (r: char)
    ensures !IsCapital(c) ==> r == c
    ensures !IsCapital(r)
    ensures IsCapital(c) ==> r != c
  {
    var n := c as int;
    if 0x41 <= n <= 0x5A || (0xC0 <= n <= 0xDE && n != 0xD7) || 0x410 <= n <= 0x42F then
      (n + 0x20) as char
    else if 0x400 <= n <= 0x40F then
      (n + 0x50) as char
    else
      c
  }

  /** Lower-casing takes exactly the letters and capitals of an alphabet to
      its letters. */
  lemma LowerCharInEnglish(c: char)
    ensures LowerChar(c) in EnglishLetters <==> c in EnglishLetters || c in EnglishCapitals
  {
    EnglishLettersAre(c);
    EnglishCapitalsAre(c);
    EnglishLettersAre(LowerChar(c));
  }

  lemma LowerCharInRussian(c: char)
    ensures LowerChar(c) in RussianLetters <==> c in RussianLetters || c in RussianCapitals
  {
    var l := LowerChar(c);
    if c in RussianLetters {
      RussianLettersOnly(c);
      RussianLettersHas(l);
    } else if c in RussianCapitals {
      RussianCapitalsOnly(c);
      RussianLettersHas(l);
    } else {
      RussianLettersAre(c);
      RussianCapitalsAre(c);
      RussianLettersAre(l);
    }
  }

  /** The characters that lower-case to a given lower-case letter of either
      alphabet: the letter itself and its capital. */
  lemma LowerCharTo(c: char, x: char)
    requires 0x61 <= x as int <= 0x7A || 0x430 <= x as int <= 0x44F
    ensures LowerChar(c) == x <==> c == x || c as int == x as int - 0x20
  {
  }

  /** `String.prototype.toLowerCase` on a whole string, character by character. */
  function LowerString(s: string): (r: string)
    ensures |r| == |s|
    ensures forall i :: 0 <= i < |s| ==> r[i] == LowerChar(s[i])
  {
    if s == [] then [] else [LowerChar(s[0])] + LowerString(s[1..])
  }

  /** The regular expression test of `isValidLetter`: `/^[a-z]$/i` for English
      and `/^[а-яё]$/i` for Russian, as ranges of code points. */
  function IsValidLetter(lang: Language, letter: string): (b: bool)
    ensures b <==> |letter| == 1 && LowerChar(letter[0]) in Alphabet(lang)
  {
    if |letter| != 1 then false
    else
      var n := letter[0] as int;
      EnglishLettersAre(letter[0]);
      EnglishCapitalsAre(letter[0]);
      RussianLettersAre(letter[0]);
      RussianCapitalsAre(letter[0]);
      LowerCharInEnglish(letter[0]);
      LowerCharInRussian(letter[0]);
      match lang
      case En => 0x61 <= n <= 0x7A || 0x41 <= n <= 0x5A
      case Ru => 0x430 <= n <= 0x44F || n == 0x451 || 0x410 <= n <= 0x42F || n == 0x401
  }

  /** What the guess prompt does with one line typed by the player. */
  datatype Answer = WrongLength | NotALetter | Letter(c: char)

  /** The two checks of the guess prompt, in order: the length, then the
      alphabet; an accepted answer is lower-cased before it is guessed. */
  function CheckAnswer(lang: Language, answer: string): (r: Answer)
    ensures r.WrongLength? <==> |answer| != 1
    ensures r.Letter? <==> IsValidLetter(lang, answer)
    ensures r.Letter? ==> r.c == LowerChar(answer[0]) && r.c in Alphabet(lang)
  {
    if |answer| != 1 then WrongLength
    else if !IsValidLetter(lang, answer) then NotALetter
    else Letter(LowerString(answer)[0])
  }
}
