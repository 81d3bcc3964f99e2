/** Answering a question: match it, build the Cypher query, run it, and format the rows.

    The graph store is a function supplied by the caller from query text to the rows it returns, or to
    the message of the exception the store raised. */
module NlQuery {
  import opened Wrappers
  import opened PyStr
  import opened PyFormat
  import opened Values
  import opened NlPatterns
  import opened NlMatch
  import opened NlFormat

  /** `graph.query(cypher).result_set`, or the text of the exception raised. */
  type Store = string -> Result<seq<Row>, string>

  /** What `execute_query` returns, or the exception that escapes it. */
  datatype Outcome =
    | NotUnderstood(error: string, suggestions: seq<string>)
    | Succeeded(question: string, description: string, resultsCount: nat, results: string, cypher: string)
    | ExecutionFailed(error: string, cypher: string)
    | Uncaught(exception: Raised)

  const NotUnderstoodMessage := "Could not understand the question"
  const ExecutionErrorPrefix := "Query execution error: "

  /** Words never taken as the search keyword. */
  const CommonWords: set<string> := {"find", "show", "get", "list", "all", "the", "a", "an", "clause", "clauses"}

  /** Would the keyword fallback take this word. */
  predicate IsKeywordWord(w: string) {
    w !in CommonWords && |w| > 2
  }

  /** The first word, from position `k` on, that the keyword fallback takes, or `""` when none. */
  function FallbackFrom(words: seq<string>, k: nat): (w: string)
    requires k <= |words|
    ensures w == "" || (w in words[k..] && IsKeywordWord(w))
    decreases |words| - k
  {
    if k == |words| then "" else if IsKeywordWord(words[k]) then words[k] else FallbackFrom(words, k + 1)
  }

  lemma {:induction false} FallbackFromIsFirst(words: seq<string>, k: nat)
    requires k <= |words|
    ensures FallbackFrom(words, k) == "" <==> forall m :: k <= m < |words| ==> !IsKeywordWord(words[m])
    ensures FallbackFrom(words, k) != "" ==>
      exists m :: k <= m < |words| && words[m] == FallbackFrom(words, k) && forall m2 :: k <= m2 < m ==> !IsKeywordWord(words[m2])
    decreases |words| - k
  {
    if k < |words| && !IsKeywordWord(words[k]) {
      FallbackFromIsFirst(words, k + 1);
    }
  }

  /** The keyword guessed from the question when a template needs one and the match gave none: the first
      word of the lower-cased question that is not a common word and is longer than two characters. */
  function KeywordFallback(question: string): string {
    FallbackFrom(Split(Lower(question)), 0)
  }

  /** The parameters after the keyword fallback: a template field `keyword` without a value gets one. */
  function WithKeyword(names: seq<string>, params: Params, question: string): (r: Params)
    ensures r.Keys == params.Keys + (if "keyword" in names then {"keyword"} else {})
    ensures forall k :: k in params ==> r[k] == params[k]
  {
    if "keyword" in names && "keyword" !in params then params["keyword" := PStr(KeywordFallback(question))] else params
  }

  /** The Cypher text of a match and the parameters the formatter is given: a fixed query as it is, a
      template parsed, its `keyword` field filled in if need be, and formatted. */
  function BuildCypher(spec: PatternSpec, params: Params, question: string): (r: Result<(string, Params), FormatError>)
    ensures spec.source.Fixed? ==> r == Ok((spec.source.cypher, params))
    ensures r.Ok? ==> params.Keys <= r.value.1.Keys <= params.Keys + {"keyword"}
    ensures r.Ok? ==> forall k :: k in params ==> r.value.1[k] == params[k]
  {
    match spec.source
    case Fixed(cypher) => Ok((cypher, params))
    case Template(ps) =>
      match Parse(Unparse(ps))
      case Err(e) => Err(e)
      case Ok(toks) =>
        var filled := WithKeyword(FieldNames(toks), params, question);
        match Fill(toks, filled)
        case Err(e) => Err(e)
        case Ok(cypher) => Ok((cypher, filled))
  }

  /** Running the query and formatting its rows; any exception here is caught and reported. */
  function Run(spec: PatternSpec, cypher: string, params: Params, question: string, run: Store): (r: Outcome)
    ensures r.Succeeded? || r.ExecutionFailed?
    ensures r.ExecutionFailed? ==> r.cypher == cypher && |r.error| >= |ExecutionErrorPrefix| && r.error[..|ExecutionErrorPrefix|] == ExecutionErrorPrefix
    ensures r.Succeeded? ==>
      && run(cypher).Ok? && r.resultsCount == |run(cypher).value| && r.cypher == cypher
      && r.question == question && r.description == spec.description
      && FormatRows(spec.formatter, run(cypher).value, params) == Ok(r.results)
  {
    match run(cypher)
    case Err(message) => ExecutionFailed(ExecutionErrorPrefix + message, cypher)
    case Ok(rows) =>
      match FormatRows(spec.formatter, rows, params)
      case Err(message) => ExecutionFailed(ExecutionErrorPrefix + message, cypher)
      case Ok(text) => Succeeded(question, spec.description, |rows|, text, cypher)
  }

  /** `execute_query` over the pattern table `table`, with the matcher reading parameters as `reading` says. */
  function ExecuteQuery(reading: Reading, table: seq<PatternSpec>, search: Search, run: Store, question: string): (r: Outcome)
    ensures r.NotUnderstood? ==> r.error == NotUnderstoodMessage && r.suggestions == ExampleQuestions
  {
    match MatchQuery(reading, table, search, question)
    case Err(e) => Uncaught(e)
    case Ok(None) => NotUnderstood(NotUnderstoodMessage, ExampleQuestions)
    case Ok(Some(m)) =>
      match BuildCypher(m.spec, m.params, question)
      case Err(e) => Uncaught(FormatFailed(e))
      case Ok((cypher, params)) => Run(m.spec, cypher, params, question, run)
  }

  /** The interface as it is constructed: over the table of patterns, reading parameters as
      `match_query` does. */
  function Answer(search: Search, run: Store, question: string): Outcome {
    ExecuteQuery(AsWritten, Table, search, run, question)
  }

  /** The interface with the corrected parameter reading. */
  function AnswerIntended(search: Search, run: Store, question: string): Outcome {
    ExecuteQuery(Intended, Table, search, run, question)
  }

  // ---------------------------------------------------------------------------------------------
  // Properties of answering
  // ---------------------------------------------------------------------------------------------

  /** The question is not understood exactly when no pattern is found in it. */
  lemma NotUnderstoodIff(reading: Reading, table: seq<PatternSpec>, search: Search, run: Store, question: string)
    ensures ExecuteQuery(reading, table, search, run, question).NotUnderstood? <==>
      forall i: nat, j: nat :: ValidPosition(table, i, j) ==> search(table[i].patterns[j], Normalize(question)).None?
  {
    NoMatchIff(reading, table, search, question);
  }

  /** Slots a template can have: plain names, none positional. */
  predicate KeywordSlots(ps: seq<Piece>) {
    PlainSlots(ps) && forall k :: 0 <= k < |ps| && ps[k].Slot? ==> !IsPositional(ps[k].name)
  }

  /** A template query is built exactly when every field other than `keyword` has a parameter; it is
      then the template with each field replaced by its parameter, and otherwise the error is the
      `KeyError` of a field without one. */
  lemma TemplateQuery(spec: PatternSpec, params: Params, question: string)
    requires spec.source.Template? && KeywordSlots(spec.source.pieces)
    ensures var ps := spec.source.pieces;
      BuildCypher(spec, params, question).Ok? <==> forall n :: n in SlotNamesFrom(ps, 0) ==> n in params || n == "keyword"
    ensures var ps := spec.source.pieces;
      BuildCypher(spec, params, question).Ok? ==>
        var filled := BuildCypher(spec, params, question).value.1;
        && (forall m :: 0 <= m < |ps| && ps[m].Slot? ==> ps[m].name in filled)
        && BuildCypher(spec, params, question).value.0 == SubstituteFrom(ps, filled, 0)
    ensures BuildCypher(spec, params, question).Err? ==>
      var e := BuildCypher(spec, params, question).error;
      e.MissingKey? && e.key in SlotNamesFrom(spec.source.pieces, 0) && e.key != "keyword" && e.key !in params
  {
    var ps := spec.source.pieces;
    TemplateTokens(ps);
    var toks := Explode(ps);
    var filled := WithKeyword(FieldNames(toks), params, question);
    FillOkIff(toks, filled);
    if forall m :: 0 <= m < |ps| && ps[m].Slot? ==> ps[m].name in filled {
      FillExplodeFrom(ps, filled, 0);
    }
    if Fill(toks, filled).Err? {
      FieldNamesMembers(toks, Fill(toks, filled).error.key);
    }
  }

  /** What parsing a template's text gives: its pieces' tokens, whose fields are its slots. */
  lemma TemplateTokens(ps: seq<Piece>)
    requires KeywordSlots(ps)
    ensures Parse(Unparse(ps)) == Ok(Explode(ps))
    ensures FieldNames(Explode(ps)) == SlotNamesFrom(ps, 0)
    ensures forall n :: n in SlotNamesFrom(ps, 0) <==> n != "" && exists m :: 0 <= m < |ps| && ps[m] == Slot(n)
    ensures forall n :: Field(n) in Explode(ps) <==> exists m :: 0 <= m < |ps| && ps[m] == Slot(n)
  {
    ParseUnparse(ps);
    FieldNamesExplodeFrom(ps, 0);
    forall m | 0 <= m < |ps| && ps[m].Slot? && ps[m].name != "" ensures ps[m].name in SlotNamesFrom(ps, 0) {
      SlotNamesMember(ps, 0, m);
    }
    forall n | n in SlotNamesFrom(ps, 0) ensures n != "" && exists m :: 0 <= m < |ps| && ps[m] == Slot(n) {
      SlotNamesWitness(ps, 0, n);
    }
    ExplodeFields(ps, 0);
  }

  lemma {:induction false} SlotNamesMember(ps: seq<Piece>, k: nat, m: nat)
    requires k <= m < |ps| && ps[m].Slot? && ps[m].name != ""
    ensures ps[m].name in SlotNamesFrom(ps, k)
    decreases m - k
  {
    if k < m {
      SlotNamesMember(ps, k + 1, m);
    }
  }

  lemma {:induction false} SlotNamesWitness(ps: seq<Piece>, k: nat, n: string)
    requires k <= |ps| && n in SlotNamesFrom(ps, k)
    ensures n != "" && exists m :: k <= m < |ps| && ps[m] == Slot(n)
    decreases |ps| - k
  {
    if !(ps[k].Slot? && ps[k].name == n && n != "") {
      SlotNamesWitness(ps, k + 1, n);
    }
  }

  /** The fields among the tokens of pieces are the slots of the pieces. */
  lemma {:induction false} ExplodeFields(ps: seq<Piece>, k: nat)
    requires k <= |ps|
    ensures forall n :: Field(n) in ExplodeFrom(ps, k) <==> exists m :: k <= m < |ps| && ps[m] == Slot(n)
    decreases |ps| - k
  {
    if k < |ps| {
      ExplodeFields(ps, k + 1);
      var head := PieceToks(ps[k]);
      var tail := ExplodeFrom(ps, k + 1);
      assert ExplodeFrom(ps, k) == head + tail;
      forall n ensures Field(n) in head + tail <==> exists m :: k <= m < |ps| && ps[m] == Slot(n) {
        assert Field(n) in head <==> ps[k] == Slot(n);
        if Field(n) in tail {
          var m :| k + 1 <= m < |ps| && ps[m] == Slot(n);
        }
      }
    }
  }

  /** An answer that succeeded reports the entry's description, the number of rows the store returned,
      and the formatted rows; a failure while running or formatting is reported with the query. */
  lemma AnswerReportsRun(reading: Reading, table: seq<PatternSpec>, search: Search, run: Store, question: string)
    ensures var r := ExecuteQuery(reading, table, search, run, question);
      r.Succeeded? ==> exists m: Match, params: Params ::
        && MatchQuery(reading, table, search, question) == Ok(Some(m))
        && BuildCypher(m.spec, m.params, question) == Ok((r.cypher, params))
        && run(r.cypher).Ok? && r.resultsCount == |run(r.cypher).value|
        && r.description == m.spec.description
        && FormatRows(m.spec.formatter, run(r.cypher).value, params) == Ok(r.results)
    ensures var r := ExecuteQuery(reading, table, search, run, question);
      r.ExecutionFailed? ==>
        && r.error[..|ExecutionErrorPrefix|] == ExecutionErrorPrefix
        && exists m: Match, params: Params ::
          && MatchQuery(reading, table, search, question) == Ok(Some(m))
          && BuildCypher(m.spec, m.params, question) == Ok((r.cypher, params))
          && (run(r.cypher).Err? || FormatRows(m.spec.formatter, run(r.cypher).value, params).Err?)
  {
    match MatchQuery(reading, table, search, question)
    case Err(_) =>
    case Ok(None) =>
    case Ok(Some(m)) =>
      match BuildCypher(m.spec, m.params, question)
      case Err(_) =>
      case Ok((cypher, params)) =>
        var r := Run(m.spec, cypher, params, question, run);
        assert ExecuteQuery(reading, table, search, run, question) == r;
  }

  // ---------------------------------------------------------------------------------------------
  // The clause-history pattern that mentions a version
  // ---------------------------------------------------------------------------------------------

  /** The parameters `{version: n}` a round or version capture gives. */
  function VersionParams(v: int): Params {
    map["version" := PInt(v)]
  }

  /** An entry built like the clause-history entry: its patterns, and a template with one field,
      `clause_number`, between two runs of text. */
  predicate ClauseHistoryShaped(spec: PatternSpec) {
    spec.patterns == ClauseHistoryPatterns && ClauseNumberTemplate(spec)
  }

  /** A template with one field, `clause_number`, between two runs of text. */
  predicate ClauseNumberTemplate(spec: PatternSpec) {
    && spec.source.Template?
    && |spec.source.pieces| == 3
    && spec.source.pieces[0].Text? && spec.source.pieces[1] == Slot("clause_number") && spec.source.pieces[2].Text?
  }

  lemma ClauseHistorySpecShaped()
    ensures ClauseHistoryShaped(ClauseHistorySpec)
  {
  }

  lemma ClauseHistoryShapeFacts(spec: PatternSpec)
    requires ClauseNumberTemplate(spec)
    ensures KeywordSlots(spec.source.pieces)
    ensures spec.Fields() == ["clause_number"]
  {
    var ps := spec.source.pieces;
    var name := "clause_number";
    assert forall i :: 0 <= i < |name| ==> 'a' <= name[i] <= 'z' || name[i] == '_';
    assert IsPlainName(name);
    assert !IsDigit(name[0]);
    assert SlotNamesFrom(ps, 3) == [];
    assert SlotNamesFrom(ps, 2) == [];
    assert SlotNamesFrom(ps, 1) == ["clause_number"];
  }

  /** As `match_query` reads it, the second clause-history pattern mentions `version`, so its capture
      is sent through `int`: a clause number such as `1.1` raises `ValueError`, and a whole number becomes
      a `version` parameter, after which the template's `clause_number` field raises `KeyError`. */
  lemma ClauseHistoryAsWrittenFails(spec: PatternSpec, groups: seq<string>, text: string, question: string)
    requires ClauseHistoryShaped(spec) && |groups| > 0
    ensures var g := groups[0];
      var r := InferParamsAsWritten(spec, spec.patterns[1], groups, text);
      || (ParseInt(g).None? && r == Err(IntError(g)))
      || (ParseInt(g).Some? && r == Ok(VersionParams(ParseInt(g).value))
          && BuildCypher(spec, r.value, question) == Err(MissingKey("clause_number")))
  {
    var p := spec.patterns[1];
    assert p[37..37 + |"version"|] == "version";
    ContainsWitness(p, "version", 37);
    if ParseInt(groups[0]).Some? {
      ClauseHistoryShapeFacts(spec);
      var params := VersionParams(ParseInt(groups[0]).value);
      TemplateQuery(spec, params, question);
      assert "clause_number" in SlotNamesFrom(spec.source.pieces, 0);
    }
  }

  /** The whole answer as the program computes it: when the first pattern found in the question is the
      second clause-history pattern, the question escapes `execute_query` as the `ValueError` of `int`
      or as the `KeyError` of the template's `clause_number` field. */
  lemma ClauseHistoryAnswerFails(table: seq<PatternSpec>, search: Search, run: Store, question: string, i: nat,
                                 groups: seq<string>)
    requires i < |table| && ClauseHistoryShaped(table[i]) && |groups| > 0
    requires search(table[i].patterns[1], Normalize(question)) == Some(groups)
    requires forall i2: nat, j2: nat :: ValidPosition(table, i2, j2) && Before(i2, j2, i, 1) ==>
      search(table[i2].patterns[j2], Normalize(question)).None?
    ensures ExecuteQuery(AsWritten, table, search, run, question)
         == if ParseInt(groups[0]).None? then Uncaught(IntError(groups[0]))
            else Uncaught(FormatFailed(MissingKey("clause_number")))
  {
    MatchIsFirst(AsWritten, table, search, question, i, 1, groups);
    ClauseHistoryAsWrittenFails(table[i], groups, Normalize(question), question);
  }

  /** Two concrete questions: `clause 1.1 history` raises `ValueError`, `clause 3 history` `KeyError`. */
  lemma ClauseHistoryAsWrittenExamples(spec: PatternSpec, question: string)
    requires ClauseHistoryShaped(spec)
    ensures InferParamsAsWritten(spec, spec.patterns[1], ["1.1"], "clause 1.1 history") == Err(IntError("1.1"))
    ensures InferParamsAsWritten(spec, spec.patterns[1], ["3"], "clause 3 history") == Ok(VersionParams(3))
    ensures BuildCypher(spec, VersionParams(3), question) == Err(MissingKey("clause_number"))
  {
    assert !IsDigit("1.1"[1]);
    ClauseHistoryAsWrittenFails(spec, ["1.1"], "clause 1.1 history", question);
    assert DigitsValue("3") == 3 by {
      assert "3"[..0] == [];
    }
    ClauseHistoryAsWrittenFails(spec, ["3"], "clause 3 history", question);
  }

  /** With the version test limited to templates that have a `version` field, every clause-history
      pattern gives the clause number. */
  lemma ClauseHistoryIntended(spec: PatternSpec, j: nat, groups: seq<string>, text: string)
    requires ClauseHistoryShaped(spec) && j < |spec.patterns| && |groups| > 0
    ensures InferParams(spec, spec.patterns[j], groups, text) == Ok(map["clause_number" := PStr(groups[0])])
  {
    ClauseHistoryShapeFacts(spec);
    var p := spec.patterns[j];
    if j == 0 {
      assert p[29..35] == "clause";
      ContainsWitness(p, "clause", 29);
    } else if j == 1 {
      assert p[0..6] == "clause";
      ContainsWitness(p, "clause", 0);
    } else {
      assert p[5..11] == "clause";
      ContainsWitness(p, "clause", 5);
    }
    ClauseNumberInTemplate(spec);
  }

  /** ... and the query run is the template with that clause number filled in. */
  lemma ClauseHistoryIntendedQuery(spec: PatternSpec, g: string, question: string)
    requires ClauseNumberTemplate(spec)
    ensures var params := map["clause_number" := PStr(g)];
      BuildCypher(spec, params, question) == Ok((SubstituteFrom(spec.source.pieces, params, 0), params))
  {
    ClauseHistoryShapeFacts(spec);
    var ps := spec.source.pieces;
    var params := map["clause_number" := PStr(g)];
    TemplateTokens(ps);
    assert FieldNames(Explode(ps)) == ["clause_number"];
    assert WithKeyword(FieldNames(Explode(ps)), params, question) == params;
    FillExplodeFrom(ps, params, 0);
  }

  /** With the corrected reading, a question whose first pattern found is a clause-history pattern runs
      the template with the captured clause number filled in. */
  lemma ClauseHistoryAnswerIntended(table: seq<PatternSpec>, search: Search, run: Store, question: string, i: nat,
                                    j: nat, groups: seq<string>)
    requires i < |table| && ClauseHistoryShaped(table[i]) && j < |table[i].patterns| && |groups| > 0
    requires search(table[i].patterns[j], Normalize(question)) == Some(groups)
    requires forall i2: nat, j2: nat :: ValidPosition(table, i2, j2) && Before(i2, j2, i, j) ==>
      search(table[i2].patterns[j2], Normalize(question)).None?
    ensures var params := map["clause_number" := PStr(groups[0])];
      ExecuteQuery(Intended, table, search, run, question)
        == Run(table[i], SubstituteFrom(table[i].source.pieces, params, 0), params, question, run)
  {
    MatchIsFirst(Intended, table, search, question, i, j, groups);
    ClauseHistoryIntended(table[i], j, groups, Normalize(question));
    ClauseHistoryIntendedQuery(table[i], groups[0], question);
  }

  lemma ClauseNumberInTemplate(spec: PatternSpec)
    requires ClauseNumberTemplate(spec)
    ensures Contains(spec.TemplateText(), "clause_number")
  {
    var ps := spec.source.pieces;
    var a := PieceText(ps[0]);
    var rest := UnparseFrom(ps, 2);
    assert UnparseFrom(ps, 1) == "{" + "clause_number" + ("}" + rest);
    assert Unparse(ps) == (a + "{") + "clause_number" + ("}" + rest);
    ContainsMiddle(a + "{", "clause_number", "}" + rest);
  }
}
