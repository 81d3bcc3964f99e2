/** Python's format-string language, as far as the query templates use it: literal text with `{{` and `}}`
    standing for single braces, and replacement fields `{name}` filled from keyword arguments.

    A format string is parsed left to right into tokens, the way `string.Formatter().parse` and
    `str.format` both read it; filling the tokens from a map of keyword arguments gives the formatted
    text or the exception `str.format` raises. */
module PyFormat {
  import opened Wrappers
  import opened PyStr

  /** One element of a parsed format string: a literal character, or a replacement field by name. */
  datatype Tok = Char(c: char) | Field(name: string)

  /** A format string as its author meant it: runs of literal text (braces not doubled) and named fields. */
  datatype Piece = Text(s: string) | Slot(name: string)

  /** Why a format string could not be parsed or filled. */
  datatype FormatError =
    | Malformed(message: string)   // ValueError raised while parsing
    | Unsupported(field: string)   // conversions, format specs, attribute or index lookups, nested fields
    | MissingKey(key: string)      // KeyError: a named field without a keyword argument
    | MissingIndex(field: string)  // IndexError: an automatic or numbered field, and no positional arguments

  /** A keyword argument: the query parameters are integers (versions) or strings. */
  datatype Param = PInt(i: int) | PStr(s: string)

  const SingleOpen := "Single '{' encountered in format string"
  const SingleClose := "Single '}' encountered in format string"
  const Unterminated := "expected '}' before end of string"

  /** `str(p)`, which is what an empty format spec gives. */
  function Show(p: Param): string {
    match p
    case PInt(i) => IntToString(i)
    case PStr(s) => s
  }

  /** A field name the model fills: no conversion (`!`), format spec (`:`), attribute (`.`) or index
      (`[`) part, and no braces. */
  predicate IsPlainName(name: string) {
    forall i :: 0 <= i < |name| ==> name[i] !in "{}:![."
  }

  /** A field that refers to a positional argument: empty (automatic numbering) or all digits. */
  predicate IsPositional(name: string) {
    forall i :: 0 <= i < |name| ==> IsDigit(name[i])
  }

  // ---------------------------------------------------------------------------------------------
  // Parsing
  // ---------------------------------------------------------------------------------------------

  /** The position of the first `}` at or after `i`. */
  function CloseBrace(t: string, i: nat): (j: Option<nat>)
    requires i <= |t|
    ensures j.Some? ==> i <= j.value < |t| && t[j.value] == '}'
    decreases |t| - i
  {
    if i == |t| then None else if t[i] == '}' then Some(i) else CloseBrace(t, i + 1)
  }

  /** The `}` found is the first one, and when none is found there is none. */
  lemma {:induction false} CloseBraceSpec(t: string, i: nat)
    requires i <= |t|
    ensures CloseBrace(t, i).Some? ==> forall k :: i <= k < CloseBrace(t, i).value ==> t[k] != '}'
    ensures CloseBrace(t, i).None? ==> forall k :: i <= k < |t| ==> t[k] != '}'
    decreases |t| - i
  {
    if i < |t| && t[i] != '}' {
      CloseBraceSpec(t, i + 1);
    }
  }

  /** The tokens `ts` in front of whatever `r` parsed to; an error stays as it is. */
  function Prepend(ts: seq<Tok>, r: Result<seq<Tok>, FormatError>): Result<seq<Tok>, FormatError> {
    match r
    case Ok(rest) => Ok(ts + rest)
    case Err(e) => Err(e)
  }

  /** The tokens of `t[i..]`, or the error met first. */
  function ParseFrom(t: string, i: nat): (r: Result<seq<Tok>, FormatError>)
    requires i <= |t|
    decreases |t| - i
  {
    if i == |t| then Ok([])
    else if t[i] == '{' then
      if i + 1 == |t| then Err(Malformed(SingleOpen))
      else if t[i + 1] == '{' then Prepend([Char('{')], ParseFrom(t, i + 2))
      else
        match CloseBrace(t, i + 1)
        case None => Err(Malformed(Unterminated))
        case Some(j) =>
          var name := t[i + 1..j];
          if IsPlainName(name) then Prepend([Field(name)], ParseFrom(t, j + 1)) else Err(Unsupported(name))
    else if t[i] == '}' then
      if i + 1 < |t| && t[i + 1] == '}' then Prepend([Char('}')], ParseFrom(t, i + 2))
      else Err(Malformed(SingleClose))
    else Prepend([Char(t[i])], ParseFrom(t, i + 1))
  }

  function Parse(t: string): Result<seq<Tok>, FormatError> {
    ParseFrom(t, 0)
  }

  /** The names of the fields, in order and with repeats, leaving out empty ones: what
      `[fname for _, fname, _, _ in Formatter().parse(t) if fname]` lists. */
  function FieldNames(toks: seq<Tok>): (names: seq<string>)
    ensures |names| <= |toks|
  {
    if toks == [] then []
    else
      var last := toks[|toks| - 1];
      FieldNames(toks[..|toks| - 1]) + (if last.Field? && last.name != "" then [last.name] else [])
  }

  /** The field names listed are exactly the non-empty names of fields. */
  lemma {:induction false} FieldNamesMembers(toks: seq<Tok>, n: string)
    ensures n in FieldNames(toks) <==> n != "" && Field(n) in toks
    decreases |toks|
  {
    if toks != [] {
      var init := toks[..|toks| - 1];
      assert toks == init + [toks[|toks| - 1]];
      FieldNamesMembers(init, n);
    }
  }

  // ---------------------------------------------------------------------------------------------
  // Filling
  // ---------------------------------------------------------------------------------------------

  /** `str.format(**params)` on parsed tokens, from token `k` on: the first field that cannot be filled
      raises. */
  function FillFrom(toks: seq<Tok>, params: map<string, Param>, k: nat): Result<string, FormatError>
    requires k <= |toks|
    decreases |toks| - k
  {
    if k == |toks| then Ok("")
    else
      match toks[k]
      case Char(c) =>
        (match FillFrom(toks, params, k + 1)
         case Ok(s) => Ok([c] + s)
         case Err(e) => Err(e))
      case Field(name) =>
        if IsPositional(name) then Err(MissingIndex(name))
        else if name !in params then Err(MissingKey(name))
        else
          match FillFrom(toks, params, k + 1)
          case Ok(s) => Ok(Show(params[name]) + s)
          case Err(e) => Err(e)
  }

  function Fill(toks: seq<Tok>, params: map<string, Param>): Result<string, FormatError> {
    FillFrom(toks, params, 0)
  }

  /** A filling error names a field of `toks` that is positional, or a key missing from `params`. */
  predicate Explains(e: FormatError, toks: seq<Tok>, params: map<string, Param>) {
    || (e.MissingKey? && Field(e.key) in toks && !IsPositional(e.key) && e.key !in params)
    || (e.MissingIndex? && Field(e.field) in toks && IsPositional(e.field))
  }

  /** Filling succeeds exactly when every field is a keyword field with an argument; otherwise the
      error names a field that is positional or a key that is missing. */
  lemma {:induction false} FillFromOkIff(toks: seq<Tok>, params: map<string, Param>, k: nat)
    requires k <= |toks|
    ensures FillFrom(toks, params, k).Ok? <==>
      forall m :: k <= m < |toks| && toks[m].Field? ==> !IsPositional(toks[m].name) && toks[m].name in params
    ensures FillFrom(toks, params, k).Err? ==> Explains(FillFrom(toks, params, k).error, toks[k..], params)
    decreases |toks| - k
  {
    if k < |toks| {
      FillFromOkIff(toks, params, k + 1);
      assert toks[k..] == [toks[k]] + toks[k + 1..];
    }
  }

  lemma FillOkIff(toks: seq<Tok>, params: map<string, Param>)
    ensures Fill(toks, params).Ok? <==>
      forall m :: 0 <= m < |toks| && toks[m].Field? ==> !IsPositional(toks[m].name) && toks[m].name in params
    ensures Fill(toks, params).Err? ==> Explains(Fill(toks, params).error, toks, params)
    ensures Fill(toks, params).Err? && Fill(toks, params).error.MissingKey? ==> Fill(toks, params).error.key in FieldNames(toks)
  {
    FillFromOkIff(toks, params, 0);
    assert toks[0..] == toks;
    if Fill(toks, params).Err? && Fill(toks, params).error.MissingKey? {
      FieldNamesMembers(toks, Fill(toks, params).error.key);
    }
  }

  // ---------------------------------------------------------------------------------------------
  // Writing a format string from its pieces, and reading it back
  // ---------------------------------------------------------------------------------------------

  /** A literal character as written in a format string: braces are doubled. */
  function EscapeChar(c: char): string {
    if c == '{' then "{{" else if c == '}' then "}}" else [c]
  }

  /** Literal text as written in a format string, from character `k` on. */
  function EscapeFrom(s: string, k: nat): string
    requires k <= |s|
    decreases |s| - k
  {
    if k == |s| then "" else EscapeChar(s[k]) + EscapeFrom(s, k + 1)
  }

  function PieceText(p: Piece): string {
    match p
    case Text(s) => EscapeFrom(s, 0)
    case Slot(name) => "{" + name + "}"
  }

  /** The format string that the pieces from `k` on are written as. */
  function UnparseFrom(ps: seq<Piece>, k: nat): string
    requires k <= |ps|
    decreases |ps| - k
  {
    if k == |ps| then "" else PieceText(ps[k]) + UnparseFrom(ps, k + 1)
  }

  function Unparse(ps: seq<Piece>): string {
    UnparseFrom(ps, 0)
  }

  function CharToks(s: string): (ts: seq<Tok>)
    ensures |ts| == |s| && forall i :: 0 <= i < |s| ==> ts[i] == Char(s[i])
  {
    seq(|s|, i requires 0 <= i < |s| => Char(s[i]))
  }

  function PieceToks(p: Piece): seq<Tok> {
    match p
    case Text(s) => CharToks(s)
    case Slot(name) => [Field(name)]
  }

  /** The tokens the pieces from `k` on stand for. */
  function ExplodeFrom(ps: seq<Piece>, k: nat): seq<Tok>
    requires k <= |ps|
    decreases |ps| - k
  {
    if k == |ps| then [] else PieceToks(ps[k]) + ExplodeFrom(ps, k + 1)
  }

  function Explode(ps: seq<Piece>): seq<Tok> {
    ExplodeFrom(ps, 0)
  }

  /** The names of the non-empty slots, in order. */
  function SlotNamesFrom(ps: seq<Piece>, k: nat): seq<string>
    requires k <= |ps|
    decreases |ps| - k
  {
    if k == |ps| then []
    else (if ps[k].Slot? && ps[k].name != "" then [ps[k].name] else []) + SlotNamesFrom(ps, k + 1)
  }

  predicate PlainSlots(ps: seq<Piece>) {
    forall k :: 0 <= k < |ps| && ps[k].Slot? ==> IsPlainName(ps[k].name)
  }

  /** Parsing only looks at the text from the current position on. */
  lemma {:induction false} CloseBraceShift(a: string, b: string, i: nat)
    requires i <= |b|
    ensures CloseBrace(a + b, |a| + i) == match CloseBrace(b, i) case None => None case Some(j) => Some(|a| + j)
    decreases |b| - i
  {
    if i < |b| {
      assert (a + b)[|a| + i] == b[i];
      CloseBraceShift(a, b, i + 1);
    }
  }

  lemma {:induction false} ParseFromShift(a: string, b: string, i: nat)
    requires i <= |b|
    ensures ParseFrom(a + b, |a| + i) == ParseFrom(b, i)
    decreases |b| - i, 1
  {
    var t := a + b;
    if i < |b| {
      assert t[|a| + i] == b[i];
      if i + 1 < |b| {
        assert t[|a| + i + 1] == b[i + 1];
      }
      if b[i] == '{' && i + 1 < |b| && b[i + 1] != '{' {
        ParseFromShiftField(a, b, i);
      } else if b[i] == '{' && i + 1 < |b| {
        ParseFromShift(a, b, i + 2);
      } else if b[i] == '}' && i + 1 < |b| && b[i + 1] == '}' {
        ParseFromShift(a, b, i + 2);
      } else if b[i] != '{' && b[i] != '}' {
        ParseFromShift(a, b, i + 1);
      }
    }
  }

  /** The shift, for a position where a replacement field opens. */
  lemma {:induction false} ParseFromShiftField(a: string, b: string, i: nat)
    requires i + 1 < |b| && b[i] == '{' && b[i + 1] != '{'
    ensures ParseFrom(a + b, |a| + i) == ParseFrom(b, i)
    decreases |b| - i, 0
  {
    var t := a + b;
    assert t[|a| + i] == b[i] && t[|a| + i + 1] == b[i + 1];
    CloseBraceShift(a, b, i + 1);
    match CloseBrace(b, i + 1)
    case None =>
    case Some(j) =>
      assert t[|a| + i + 1..|a| + j] == b[i + 1..j];
      ParseFromShift(a, b, j + 1);
  }

  lemma ParseAfter(a: string, b: string)
    ensures ParseFrom(a + b, |a|) == ParseFrom(b, 0)
  {
    ParseFromShift(a, b, 0);
  }

  /** An escaped literal character reads back as that character. */
  lemma ParseEscapeChar(c: char, rest: string)
    ensures ParseFrom(EscapeChar(c) + rest, 0) == Prepend([Char(c)], ParseFrom(rest, 0))
  {
    var t := EscapeChar(c) + rest;
    ParseAfter(EscapeChar(c), rest);
    assert t[0] == c;
    if c == '{' || c == '}' {
      assert t[1] == c;
    }
  }

  lemma PrependPrepend(xs: seq<Tok>, ys: seq<Tok>, r: Result<seq<Tok>, FormatError>)
    ensures Prepend(xs, Prepend(ys, r)) == Prepend(xs + ys, r)
  {
    if r.Ok? {
      assert xs + (ys + r.value) == (xs + ys) + r.value;
    }
  }

  /** Escaped literal text reads back as its characters. */
  lemma {:induction false} ParseEscapeFrom(s: string, k: nat, rest: string)
    requires k <= |s|
    ensures ParseFrom(EscapeFrom(s, k) + rest, 0) == Prepend(CharToks(s[k..]), ParseFrom(rest, 0))
    decreases |s| - k
  {
    if k == |s| {
      assert EscapeFrom(s, k) + rest == rest;
      assert CharToks(s[k..]) == [];
      if ParseFrom(rest, 0).Ok? {
        assert [] + ParseFrom(rest, 0).value == ParseFrom(rest, 0).value;
      }
    } else {
      var tail := EscapeFrom(s, k + 1) + rest;
      assert EscapeFrom(s, k) + rest == EscapeChar(s[k]) + tail;
      ParseEscapeChar(s[k], tail);
      ParseEscapeFrom(s, k + 1, rest);
      PrependPrepend([Char(s[k])], CharToks(s[k + 1..]), ParseFrom(rest, 0));
      assert [Char(s[k])] + CharToks(s[k + 1..]) == CharToks(s[k..]);
    }
  }

  lemma {:induction false} CloseBraceAt(t: string, i: nat, j: nat)
    requires i <= j < |t| && t[j] == '}'
    requires forall k :: i <= k < j ==> t[k] != '}'
    ensures CloseBrace(t, i) == Some(j)
    decreases j - i
  {
    if i < j {
      CloseBraceAt(t, i + 1, j);
    }
  }

  /** A plain slot reads back as its field. */
  lemma ParseSlot(name: string, rest: string)
    requires IsPlainName(name)
    ensures ParseFrom("{" + name + "}" + rest, 0) == Prepend([Field(name)], ParseFrom(rest, 0))
  {
    var u := "{" + name + "}";
    var t := u + rest;
    assert t[0] == '{';
    assert t[1] != '{' by {
      if name == [] { assert t[1] == '}'; } else { assert t[1] == name[0]; }
    }
    forall k | 1 <= k < |name| + 1 ensures t[k] != '}' {
      assert t[k] == name[k - 1];
    }
    assert t[|name| + 1] == '}';
    CloseBraceAt(t, 1, |name| + 1);
    assert t[1..|name| + 1] == name;
    ParseAfter(u, rest);
  }

  lemma ParsePiece(p: Piece, rest: string)
    requires p.Slot? ==> IsPlainName(p.name)
    ensures ParseFrom(PieceText(p) + rest, 0) == Prepend(PieceToks(p), ParseFrom(rest, 0))
  {
    match p
    case Text(s) =>
      ParseEscapeFrom(s, 0, rest);
      assert s[0..] == s;
    case Slot(name) =>
      ParseSlot(name, rest);
  }

  /** Writing pieces out as a format string and parsing it gives back exactly the pieces' tokens. */
  lemma {:induction false} ParseUnparseFrom(ps: seq<Piece>, k: nat)
    requires k <= |ps| && PlainSlots(ps)
    ensures ParseFrom(UnparseFrom(ps, k), 0) == Ok(ExplodeFrom(ps, k))
    decreases |ps| - k
  {
    if k < |ps| {
      ParsePiece(ps[k], UnparseFrom(ps, k + 1));
      ParseUnparseFrom(ps, k + 1);
    }
  }

  lemma ParseUnparse(ps: seq<Piece>)
    requires PlainSlots(ps)
    ensures Parse(Unparse(ps)) == Ok(Explode(ps))
  {
    ParseUnparseFrom(ps, 0);
  }

  /** The field names of the tokens are the names of the slots. */
  lemma {:induction false} FieldNamesExplodeFrom(ps: seq<Piece>, k: nat)
    requires k <= |ps|
    ensures FieldNames(ExplodeFrom(ps, k)) == SlotNamesFrom(ps, k)
    decreases |ps| - k
  {
    if k < |ps| {
      var a := PieceToks(ps[k]);
      var b := ExplodeFrom(ps, k + 1);
      FieldNamesExplodeFrom(ps, k + 1);
      FieldNamesAppend(a, b);
      FieldNamesOfPiece(ps[k]);
    }
  }

  lemma FieldNamesOfPiece(p: Piece)
    ensures FieldNames(PieceToks(p)) == if p.Slot? && p.name != "" then [p.name] else []
  {
    if p.Text? {
      FieldNamesOfChars(CharToks(p.s));
    } else {
      assert [Field(p.name)][..0] == [];
    }
  }

  lemma {:induction false} FieldNamesAppend(xs: seq<Tok>, ys: seq<Tok>)
    ensures FieldNames(xs + ys) == FieldNames(xs) + FieldNames(ys)
    decreases |ys|
  {
    if ys != [] {
      var init := ys[..|ys| - 1];
      assert xs + ys == (xs + init) + [ys[|ys| - 1]];
      assert (xs + ys)[..|xs + ys| - 1] == xs + init;
      FieldNamesAppend(xs, init);
    } else {
      assert xs + ys == xs;
    }
  }

  lemma {:induction false} FieldNamesOfChars(ts: seq<Tok>)
    requires forall i :: 0 <= i < |ts| ==> ts[i].Char?
    ensures FieldNames(ts) == []
    decreases |ts|
  {
    if ts != [] {
      FieldNamesOfChars(ts[..|ts| - 1]);
    }
  }

  /** The text of a format string with no fields, written from literal text, is that text. */
  lemma {:induction false} FillChars(s: string, params: map<string, Param>, k: nat)
    requires k <= |s|
    ensures FillFrom(CharToks(s), params, k) == Ok(s[k..])
    decreases |s| - k
  {
    if k < |s| {
      FillChars(s, params, k + 1);
      assert CharToks(s)[k] == Char(s[k]);
      assert s[k..] == [s[k]] + s[k + 1..];
    } else {
      assert s[k..] == [];
    }
  }

  // ---------------------------------------------------------------------------------------------
  // Filling a format string written from pieces
  // ---------------------------------------------------------------------------------------------

  /** The pieces from `k` on with every slot replaced by its argument's `str()`. */
  function SubstituteFrom(ps: seq<Piece>, params: map<string, Param>, k: nat): string
    requires k <= |ps|
    requires forall m :: k <= m < |ps| && ps[m].Slot? ==> ps[m].name in params
    decreases |ps| - k
  {
    if k == |ps| then ""
    else (match ps[k] case Text(s) => s case Slot(name) => Show(params[name])) + SubstituteFrom(ps, params, k + 1)
  }

  /** Joining the results of filling two token runs: the first error wins. */
  function Concat(x: Result<string, FormatError>, y: Result<string, FormatError>): Result<string, FormatError> {
    match x
    case Err(e) => Err(e)
    case Ok(s) => match y case Err(e) => Err(e) case Ok(t) => Ok(s + t)
  }

  lemma {:induction false} FillFromAppend(a: seq<Tok>, b: seq<Tok>, params: map<string, Param>, k: nat)
    requires k <= |a|
    ensures FillFrom(a + b, params, k) == Concat(FillFrom(a, params, k), Fill(b, params))
    decreases |a| - k
  {
    if k == |a| {
      FillFromShift(a, b, params, 0);
      if Fill(b, params).Ok? {
        assert "" + Fill(b, params).value == Fill(b, params).value;
      }
    } else {
      assert (a + b)[k] == a[k];
      FillFromAppend(a, b, params, k + 1);
      if FillFrom(a, params, k + 1).Ok? && Fill(b, params).Ok? {
        var x := FillFrom(a, params, k + 1).value;
        var y := Fill(b, params).value;
        match a[k]
        case Char(c) => assert [c] + (x + y) == ([c] + x) + y;
        case Field(name) =>
          if !IsPositional(name) && name in params {
            assert Show(params[name]) + (x + y) == (Show(params[name]) + x) + y;
          }
      }
    }
  }

  lemma {:induction false} FillFromShift(a: seq<Tok>, b: seq<Tok>, params: map<string, Param>, i: nat)
    requires i <= |b|
    ensures FillFrom(a + b, params, |a| + i) == FillFrom(b, params, i)
    decreases |b| - i
  {
    if i < |b| {
      assert (a + b)[|a| + i] == b[i];
      FillFromShift(a, b, params, i + 1);
    }
  }

  /** Filling the tokens of pieces whose slots all have keyword arguments gives the pieces with each slot
      replaced by its argument. */
  lemma {:induction false} FillExplodeFrom(ps: seq<Piece>, params: map<string, Param>, k: nat)
    requires k <= |ps|
    requires forall m :: k <= m < |ps| && ps[m].Slot? ==> ps[m].name in params && !IsPositional(ps[m].name)
    ensures Fill(ExplodeFrom(ps, k), params) == Ok(SubstituteFrom(ps, params, k))
    decreases |ps| - k
  {
    if k == |ps| {
    } else {
      FillExplodeFrom(ps, params, k + 1);
      var head := PieceToks(ps[k]);
      FillFromAppend(head, ExplodeFrom(ps, k + 1), params, 0);
      match ps[k]
      case Text(s) =>
        FillChars(s, params, 0);
        assert s[0..] == s;
      case Slot(name) =>
        assert FillFrom(head, params, 1) == Ok("");
        var v := Show(params[name]);
        assert (v + "") + SubstituteFrom(ps, params, k + 1) == v + SubstituteFrom(ps, params, k + 1);
    }
  }
}
