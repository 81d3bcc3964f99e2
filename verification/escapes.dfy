/** Character-by-character rewriting, and the reading of a Cypher quoted string literal's body.

    The exporters build Cypher text by chaining `str.replace` calls; each chain is proved equal to one
    per-character rewrite here, and `Unescape` is the independent reference for what the database reads
    back from the quoted literal. */
module Escapes {
  import opened Wrappers
  import opened PyStr

  /** Replace every character `x` of `s` by `f(x)`. */
  function MapChars(s: string, f: char -> string): string {
    if s == [] then [] else f(s[0]) + MapChars(s[1..], f)
  }

  lemma {:induction false} MapCharsAppend(a: string, b: string, f: char -> string)
    ensures MapChars(a + b, f) == MapChars(a, f) + MapChars(b, f)
    decreases |a|
  {
    if a == [] {
      assert a + b == b;
    } else {
      assert (a + b)[0] == a[0];
      assert (a + b)[1..] == a[1..] + b;
      MapCharsAppend(a[1..], b, f);
    }
  }

  /** A character that no image of `f` contains is absent from every mapped string. */
  lemma {:induction false} MapCharsAvoids(s: string, f: char -> string, c: char)
    requires forall x :: c !in f(x)
    ensures c !in MapChars(s, f)
    decreases |s|
  {
    if s != [] {
      MapCharsAvoids(s[1..], f, c);
      assert c !in f(s[0]);
    }
  }

  /** Replacing one character after a per-character rewrite is itself a per-character rewrite. */
  lemma {:induction false} ReplaceCharAfterMap(s: string, f: char -> string, g: char -> string, c: char, t: string)
    requires forall x :: g(x) == ReplaceChar(f(x), c, t)
    ensures ReplaceChar(MapChars(s, f), c, t) == MapChars(s, g)
    decreases |s|
  {
    if s != [] {
      ReplaceCharAppend(f(s[0]), MapChars(s[1..], f), c, t);
      ReplaceCharAfterMap(s[1..], f, g, c, t);
    }
  }

  /** `ReplaceChar` is the per-character rewrite that changes only `c`. */
  lemma {:induction false} ReplaceCharIsMap(s: string, c: char, t: string, f: char -> string)
    requires forall x :: f(x) == if x == c then t else [x]
    ensures ReplaceChar(s, c, t) == MapChars(s, f)
    decreases |s|
  {
    if s != [] {
      ReplaceCharIsMap(s[1..], c, t, f);
    }
  }

  // ---------------------------------------------------------------------------------------------
  // Reading a quoted literal back
  // ---------------------------------------------------------------------------------------------

  /** The character a backslash escape `\e` stands for inside a Cypher string literal. */
  function EscapeTarget(e: char): Option<char> {
    if e == '\\' then Some('\\')
    else if e == '"' then Some('"')
    else if e == '\'' then Some('\'')
    else if e == 'n' then Some('\n')
    else None
  }

  /** The string a Cypher literal delimited by `quote` denotes, given the text between the delimiters;
      `None` when that text would end the literal early (a bare delimiter) or holds a malformed escape. */
  function Unescape(s: string, quote: char): (r: Option<string>)
    ensures r.Some? ==> |r.value| <= |s|
    ensures '\\' !in s ==> (r.Some? <==> quote !in s)
    ensures '\\' !in s && r.Some? ==> r.value == s
    decreases |s|
  {
    if s == [] then Some([])
    else if s[0] == quote then None
    else if s[0] != '\\' then
      match Unescape(s[1..], quote)
      case None => None
      case Some(t) => Some([s[0]] + t)
    else if |s| < 2 then None
    else
      match EscapeTarget(s[1])
      case None => None
      case Some(c) =>
        match Unescape(s[2..], quote)
        case None => None
        case Some(t) => Some([c] + t)
  }

  /** `t` is a complete, self-delimiting spelling of `x` inside a literal delimited by `quote`. */
  predicate Spells(t: string, x: char, quote: char) {
    || (t == [x] && x != '\\' && x != quote)
    || (|t| == 2 && t[0] == '\\' && EscapeTarget(t[1]) == Some(x))
  }

  /** Reading a complete spelling of `x` followed by more text yields `x` followed by that text's reading. */
  lemma UnescapeSpelled(t: string, x: char, rest: string, quote: char, tail: string)
    requires quote != '\\' && Spells(t, x, quote) && Unescape(rest, quote) == Some(tail)
    ensures Unescape(t + rest, quote) == Some([x] + tail)
  {
    var m := t + rest;
    if t == [x] && x != '\\' && x != quote {
      assert m[0] == x && m[1..] == rest;
    } else {
      assert m[0] == '\\' && m[1] == t[1] && m[2..] == rest;
    }
  }

  /** A rewrite that spells each character of `s` completely as the matching character of `target` is
      read back as `target`. */
  lemma {:induction false} UnescapeMapCharsTo(s: string, f: char -> string, quote: char, target: string)
    requires quote != '\\' && |target| == |s|
    requires forall i :: 0 <= i < |s| ==> Spells(f(s[i]), target[i], quote)
    ensures Unescape(MapChars(s, f), quote) == Some(target)
    decreases |s|
  {
    if s != [] {
      assert Spells(f(s[0]), target[0], quote);
      UnescapeMapCharsTo(s[1..], f, quote, target[1..]);
      UnescapeSpelled(f(s[0]), target[0], MapChars(s[1..], f), quote, target[1..]);
      assert [target[0]] + target[1..] == target;
    }
  }

  /** A rewrite that spells every character completely is read back as the original string. */
  lemma UnescapeMapChars(s: string, f: char -> string, quote: char)
    requires quote != '\\'
    requires forall x :: Spells(f(x), x, quote)
    ensures Unescape(MapChars(s, f), quote) == Some(s)
  {
    UnescapeMapCharsTo(s, f, quote, s);
  }
}
