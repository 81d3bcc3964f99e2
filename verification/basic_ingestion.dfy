/** The string cleaning the basic ingester applies before splicing a value into a single-quoted Cypher
    literal, and the clause text preview built with it. */
module BasicIngestion {
  import opened Wrappers
  import opened PyStr
  import opened Escapes

  /** How the cleaner spells one character. */
  function CleanChar(c: char): string {
    if c == '\'' then "\\'" else if c == '"' then "\\\"" else if c == '\n' then " " else [c]
  }

  /** Single quotes escaped, then double quotes escaped, then newlines replaced by spaces; backslashes are
      left as they are. */
  function CleanStringForCypher(s: string): string {
    ReplaceAll(ReplaceAll(ReplaceAll(s, "'", "\\'"), "\"", "\\\""), "\n", " ")
  }

  /** Escaping single quotes, as a per-character rewrite. */
  function EscapeSingle(c: char): string {
    if c == '\'' then "\\'" else [c]
  }

  /** Escaping both kinds of quote, as a per-character rewrite. */
  function EscapeBoth(c: char): string {
    if c == '\'' then "\\'" else if c == '"' then "\\\"" else [c]
  }

  lemma EscapeBothAfterSingle()
    ensures forall x :: EscapeBoth(x) == ReplaceChar(EscapeSingle(x), '"', "\\\"")
  {
    forall x ensures EscapeBoth(x) == ReplaceChar(EscapeSingle(x), '"', "\\\"") {
      if x == '\'' {
        assert ReplaceChar("'", '"', "\\\"") == "'";
        assert ReplaceChar("\\'", '"', "\\\"") == "\\" + ReplaceChar("'", '"', "\\\"");
      } else {
        assert ReplaceChar([x], '"', "\\\"") == (if x == '"' then "\\\"" else [x]) + ReplaceChar([], '"', "\\\"");
      }
    }
  }

  lemma CleanCharAfterBoth()
    ensures forall x :: CleanChar(x) == ReplaceChar(EscapeBoth(x), '\n', " ")
  {
    forall x ensures CleanChar(x) == ReplaceChar(EscapeBoth(x), '\n', " ") {
      if x == '\'' {
        assert ReplaceChar("'", '\n', " ") == "'";
        assert ReplaceChar("\\'", '\n', " ") == "\\" + ReplaceChar("'", '\n', " ");
      } else if x == '"' {
        assert ReplaceChar("\"", '\n', " ") == "\"";
        assert ReplaceChar("\\\"", '\n', " ") == "\\" + ReplaceChar("\"", '\n', " ");
      } else {
        assert ReplaceChar([x], '\n', " ") == (if x == '\n' then " " else [x]) + ReplaceChar([], '\n', " ");
      }
    }
  }

  /** The three chained `replace` calls rewrite each character independently. */
  lemma CleanIsMap(s: string)
    ensures CleanStringForCypher(s) == MapChars(s, CleanChar)
  {
    ReplaceAllSingle(s, '\'', "\\'");
    ReplaceCharIsMap(s, '\'', "\\'", EscapeSingle);
    ReplaceAllSingle(MapChars(s, EscapeSingle), '"', "\\\"");
    EscapeBothAfterSingle();
    ReplaceCharAfterMap(s, EscapeSingle, EscapeBoth, '"', "\\\"");
    ReplaceAllSingle(MapChars(s, EscapeBoth), '\n', " ");
    CleanCharAfterBoth();
    ReplaceCharAfterMap(s, EscapeBoth, CleanChar, '\n', " ");
  }

  /** The cleaned value never holds a raw newline, so the generated statement stays on its lines. */
  lemma CleanSingleLine(s: string)
    ensures '\n' !in CleanStringForCypher(s)
  {
    CleanIsMap(s);
    MapCharsAvoids(s, CleanChar, '\n');
  }

  /** `s` with each newline replaced by a space, character for character. */
  function NewlinesAsSpaces(s: string): (r: string)
    ensures |r| == |s|
  {
    seq(|s|, i requires 0 <= i < |s| => if s[i] == '\n' then ' ' else s[i])
  }

  /** For text without backslashes, the single-quoted literal the cleaner produces reads back as the text
      with newlines turned into spaces. */
  lemma CleanReadsBack(s: string)
    requires '\\' !in s
    ensures Unescape(CleanStringForCypher(s), '\'') == Some(NewlinesAsSpaces(s))
  {
    CleanIsMap(s);
    var target := NewlinesAsSpaces(s);
    forall i | 0 <= i < |s| ensures Spells(CleanChar(s[i]), target[i], '\'') {
      assert s[i] != '\\';
    }
    UnescapeMapCharsTo(s, CleanChar, '\'', target);
  }

  /** Backslashes are not escaped: a value ending in one turns the closing quote into an escaped quote, and
      the literal no longer reads back. */
  lemma CleanTrailingBackslashBreaksLiteral()
    ensures Unescape(CleanStringForCypher("a\\"), '\'') == None
  {
    CleanIsMap("a\\");
    assert MapChars("a\\", CleanChar) == "a" + MapChars("\\", CleanChar);
    assert MapChars("\\", CleanChar) == "\\" + MapChars([], CleanChar);
    assert CleanStringForCypher("a\\") == "a\\";
    assert Unescape("\\", '\'') == None;
  }

  /** The clause preview: the cleaned first 200 characters of the text, then `...`. */
  function TextPreview(text: string): (r: string)
    ensures |r| >= 3 && r[|r| - 3..] == "..."
    ensures '\n' !in r
  {
    CleanSingleLine(Prefix(text, 200));
    CleanStringForCypher(Prefix(text, 200)) + "..."
  }

  /** For text without backslashes, the preview literal reads back as the first 200 characters, newlines as
      spaces, followed by `...`. */
  lemma PreviewReadsBack(text: string)
    requires '\\' !in text
    ensures Unescape(TextPreview(text), '\'') == Some(NewlinesAsSpaces(Prefix(text, 200)) + "...")
  {
    var p := Prefix(text, 200);
    assert '\\' !in p by {
      assert forall i :: 0 <= i < |p| ==> p[i] == text[i];
    }
    CleanThenDotsReadsBack(p);
  }

  lemma DotsAreClean()
    ensures MapChars("...", CleanChar) == "..."
  {
    assert MapChars("...", CleanChar) == "." + MapChars("..", CleanChar);
    assert MapChars("..", CleanChar) == "." + MapChars(".", CleanChar);
    assert MapChars(".", CleanChar) == "." + MapChars([], CleanChar);
  }

  /** A cleaned backslash-free text followed by `...` reads back as the text, newlines as spaces, then
      `...`. */
  lemma CleanThenDotsReadsBack(p: string)
    requires '\\' !in p
    ensures Unescape(CleanStringForCypher(p) + "...", '\'') == Some(NewlinesAsSpaces(p) + "...")
  {
    var q := p + "...";
    CleanIsMap(p);
    DotsAreClean();
    MapCharsAppend(p, "...", CleanChar);
    var target := NewlinesAsSpaces(p) + "...";
    forall i | 0 <= i < |q| ensures Spells(CleanChar(q[i]), target[i], '\'') {
      if i < |p| {
        assert q[i] == p[i] && p[i] != '\\';
      } else {
        assert q[i] == '.' && target[i] == '.';
      }
    }
    UnescapeMapCharsTo(q, CleanChar, '\'', target);
  }
}
