/** The word list of a language: the file's text split on "\n", keeping the
    lines that are not blank. Lines are kept as they are (not trimmed). */
module WordList {

  const Newline: char := '\n'

  /** `String.prototype.split` with a one-character separator: the pieces
      between separators, an empty piece where two separators meet or at
      either end. */
  function Split(s: string, sep: char): (r: seq<string>)
    ensures |r| >= 1
    ensures forall i :: 0 <= i < |r| ==> sep !in r[i]
    ensures Join(r, sep) == s
    decreases |s|
  {
    if s == [] then [[]]
    else
      var rest := Split(s[1..], sep);
      if s[0] == sep then [[]] + rest
      else
        var r := [[s[0]] + rest[0]] + rest[1..];
        assert Join(r, sep) == [s[0]] + Join(rest, sep) by {
          JoinHead(rest, sep);
          JoinHead(r, sep);
          assert r[1..] == rest[1..];
        }
        r
  }

  /** The pieces glued back together with the separator between them. */
  function Join(pieces: seq<string>, sep: char): string
  {
    if pieces == [] then []
    else if |pieces| == 1 then pieces[0]
    else pieces[0] + [sep] + Join(pieces[1..], sep)
  }

  lemma JoinHead(pieces: seq<string>, sep: char)
    requires |pieces| >= 1
    ensures Join(pieces, sep) == pieces[0] + (if |pieces| == 1 then [] else [sep] + Join(pieces[1..], sep))
  {
  }

  /** Split undoes Join for pieces free of the separator, so a list of lines
      is recovered exactly from the file's text. */
  lemma {:induction false} SplitJoin(pieces: seq<string>, sep: char)
    requires |pieces| >= 1 && forall i :: 0 <= i < |pieces| ==> sep !in pieces[i]
    ensures Split(Join(pieces, sep), sep) == pieces
    decreases |pieces|
  {
    if |pieces| == 1 {
      SplitNoSeparator(pieces[0], sep);
    } else {
      SplitAfterPiece(pieces[0], Join(pieces[1..], sep), sep);
      SplitJoin(pieces[1..], sep);
      assert pieces == [pieces[0]] + pieces[1..];
    }
  }

  lemma {:induction false} SplitNoSeparator(p: string, sep: char)
    requires sep !in p
    ensures Split(p, sep) == [p]
    decreases |p|
  {
    if p != [] {
      SplitNoSeparator(p[1..], sep);
      assert [p[0]] + p[1..] == p;
    }
  }

  lemma {:induction false} SplitAfterPiece(p: string, rest: string, sep: char)
    requires sep !in p
    ensures Split(p + [sep] + rest, sep) == [p] + Split(rest, sep)
    decreases |p|
  {
    var s := p + [sep] + rest;
    if p == [] {
      assert s == [sep] + rest;
    } else {
      assert s[0] == p[0] && s[1..] == p[1..] + [sep] + rest;
      SplitAfterPiece(p[1..], rest, sep);
      assert [p[0]] + p[1..] == p;
    }
  }

  /** The characters `String.prototype.trim` removes: ECMAScript WhiteSpace
      and LineTerminator code points. */
  predicate IsWhitespace(c: char)
  {
    var n := c as int;
    n == 0x09 || n == 0x0A || n == 0x0B || n == 0x0C || n == 0x0D || n == 0x20 ||
    n == 0xA0 || n == 0x1680 || 0x2000 <= n <= 0x200A || n == 0x2028 || n == 0x2029 ||
    n == 0x202F || n == 0x205F || n == 0x3000 || n == 0xFEFF
  }

  /** The string without its leading whitespace. */
  function TrimStart(s: string): (r: string)
    ensures |r| <= |s| && r == s[|s| - |r|..]
    ensures forall i :: 0 <= i < |s| - |r| ==> IsWhitespace(s[i])
    ensures r != [] ==> !IsWhitespace(r[0])
    decreases |s|
  {
    if s != [] && IsWhitespace(s[0]) then TrimStart(s[1..]) else s
  }

  /** The string without its trailing whitespace. */
  function TrimEnd(s: string): (r: string)
    ensures |r| <= |s| && r == s[..|r|]
    ensures forall i :: |r| <= i < |s| ==> IsWhitespace(s[i])
    ensures r != [] ==> !IsWhitespace(r[|r| - 1])
    decreases |s|
  {
    if s != [] && IsWhitespace(s[|s| - 1]) then TrimEnd(s[..|s| - 1]) else s
  }

  /** `String.prototype.trim`: a line trims to something non-empty exactly
      when it holds a character that is not whitespace. */
  function Trim(s: string): (r: string)
    ensures |r| > 0 <==> exists i :: 0 <= i < |s| && !IsWhitespace(s[i])
  {
    var t := TrimStart(s);
    var r := TrimEnd(t);
    assert |r| == 0 ==> forall i :: 0 <= i < |s| ==> IsWhitespace(s[i]) by {
      if |r| == 0 {
        assert t == [];
        forall i | 0 <= i < |s| ensures IsWhitespace(s[i]) {
        }
      }
    }
    r
  }

  /** The filter `word.trim().length > 0`: the kept lines in their order, and
      a line is kept exactly when it does not trim to nothing. */
  function NonBlank(lines: seq<string>): (r: seq<string>)
    ensures |r| <= |lines|
    ensures forall i :: 0 <= i < |r| ==> |Trim(r[i])| > 0
    decreases |lines|
  {
    if lines == [] then []
    else if |Trim(lines[0])| > 0 then [lines[0]] + NonBlank(lines[1..])
    else NonBlank(lines[1..])
  }

  /** A line is kept exactly when it does not trim to nothing. */
  lemma {:induction false} NonBlankKeeps(lines: seq<string>)
    ensures forall w :: w in NonBlank(lines) <==> w in lines && |Trim(w)| > 0
    decreases |lines|
  {
    if lines != [] {
      NonBlankKeeps(lines[1..]);
      assert lines == [lines[0]] + lines[1..];
    }
  }

  /** The words a file's text yields: its non-blank lines, none holding a
      newline, each one exactly as it stood in the file. */
  function Words(data: string): (r: seq<string>)
    ensures forall w :: w in r ==> w in Split(data, Newline) && Newline !in w && |Trim(w)| > 0
    ensures forall i :: 0 <= i < |Split(data, Newline)| && |Trim(Split(data, Newline)[i])| > 0 ==>
              Split(data, Newline)[i] in r
  {
    NonBlankKeeps(Split(data, Newline));
    NonBlank(Split(data, Newline))
  }

  /** The words of a text made of given lines are those lines that are not
      blank, each kept whole: nothing is trimmed off a word. */
  lemma WordsOfLines(lines: seq<string>)
    requires |lines| >= 1 && forall i :: 0 <= i < |lines| ==> Newline !in lines[i]
    ensures Words(Join(lines, Newline)) == NonBlank(lines)
  {
    SplitJoin(lines, Newline);
  }
}
