/** Matching a question against the pattern table, and reading the query parameters off the match.

    The regular-expression engine is not modelled: a search function, supplied by the caller, takes a
    pattern's source text and the question and answers with the capture groups of the first match, or
    `None` when the pattern does not occur. */
module NlMatch {
  import opened Wrappers
  import opened PyStr
  import opened PyFormat
  import opened NlPatterns

  /** `re.search(pattern, text)`: the groups of the first match (empty for a pattern without groups). */
  type Search = (string, string) -> Option<seq<string>>

  type Params = map<string, Param>

  /** An exception that `execute_query` does not catch. */
  datatype Raised =
    | IntError(text: string)          // `int(group)` on a capture that is not a decimal number
    | FormatFailed(e: FormatError)    // parsing or filling the Cypher template

  /** Where a question matched: the entry, the pattern within the entry, and the capture groups. */
  datatype Hit = Hit(spec: nat, pattern: nat, groups: seq<string>)

  /** A successful match: the entry and the parameters read off the question. */
  datatype Match = Match(spec: PatternSpec, params: Params)

  /** The terms looked for, in this order, when a keyword template matched without a capture. */
  const DomainTerms: seq<string> := ["liability", "indemnit", "warrant", "termination", "payment", "data", "ip", "intellectual"]

  /** The text patterns are matched against: `question.lower().strip()`. */
  function Normalize(question: string): string {
    Strip(Lower(question))
  }

  /** Pattern `j` of entry `i` comes strictly before pattern `j2` of entry `i2` in the search order. */
  predicate Before(i: nat, j: nat, i2: nat, j2: nat) {
    i < i2 || (i == i2 && j < j2)
  }

  predicate ValidPosition(table: seq<PatternSpec>, i: nat, j: nat) {
    i < |table| && j < |table[i].patterns|
  }

  /** The first pattern, from entry `i` pattern `j` on, that the search finds in `text`. */
  function FirstHitFrom(table: seq<PatternSpec>, search: Search, text: string, i: nat, j: nat): (h: Option<Hit>)
    requires i <= |table| && (i < |table| ==> j <= |table[i].patterns|)
    ensures h.Some? ==> ValidPosition(table, h.value.spec, h.value.pattern) && !Before(h.value.spec, h.value.pattern, i, j)
    ensures h.Some? ==> search(table[h.value.spec].patterns[h.value.pattern], text) == Some(h.value.groups)
    decreases |table| - i, if i < |table| then |table[i].patterns| - j else 0
  {
    if i == |table| then None
    else if j == |table[i].patterns| then FirstHitFrom(table, search, text, i + 1, 0)
    else
      match search(table[i].patterns[j], text)
      case Some(g) => Some(Hit(i, j, g))
      case None => FirstHitFrom(table, search, text, i, j + 1)
  }

  /** The hit is the first: every pattern between the start and the hit is not found, and when there is
      no hit no pattern from the start on is found. */
  lemma {:induction false} FirstHitFromIsFirst(table: seq<PatternSpec>, search: Search, text: string, i: nat, j: nat)
    requires i <= |table| && (i < |table| ==> j <= |table[i].patterns|)
    ensures FirstHitFrom(table, search, text, i, j).None? ==>
      forall i2: nat, j2: nat :: ValidPosition(table, i2, j2) && !Before(i2, j2, i, j) ==> search(table[i2].patterns[j2], text).None?
    ensures FirstHitFrom(table, search, text, i, j).Some? ==>
      var h := FirstHitFrom(table, search, text, i, j).value;
      forall i2: nat, j2: nat :: ValidPosition(table, i2, j2) && !Before(i2, j2, i, j) && Before(i2, j2, h.spec, h.pattern) ==>
        search(table[i2].patterns[j2], text).None?
    decreases |table| - i, if i < |table| then |table[i].patterns| - j else 0
  {
    if i < |table| {
      if j == |table[i].patterns| {
        FirstHitFromIsFirst(table, search, text, i + 1, 0);
      } else if search(table[i].patterns[j], text).None? {
        FirstHitFromIsFirst(table, search, text, i, j + 1);
      }
    }
  }

  /** The first pattern of the table found in the normalised question. */
  function FirstHit(table: seq<PatternSpec>, search: Search, question: string): Option<Hit> {
    FirstHitFrom(table, search, Normalize(question), 0, 0)
  }

  /** The first of the domain terms, from position `k` on, that occurs in `text`. */
  function FirstTermFrom(text: string, k: nat): (t: Option<string>)
    requires k <= |DomainTerms|
    ensures t.Some? ==> t.value in DomainTerms[k..] && Contains(text, t.value)
    decreases |DomainTerms| - k
  {
    if k == |DomainTerms| then None
    else if Contains(text, DomainTerms[k]) then Some(DomainTerms[k])
    else FirstTermFrom(text, k + 1)
  }

  lemma {:induction false} FirstTermFromSpec(text: string, k: nat)
    requires k <= |DomainTerms|
    ensures FirstTermFrom(text, k).None? <==> forall m :: k <= m < |DomainTerms| ==> !Contains(text, DomainTerms[m])
    ensures FirstTermFrom(text, k).Some? ==>
      exists m :: k <= m < |DomainTerms| && DomainTerms[m] == FirstTermFrom(text, k).value
        && forall m2 :: k <= m2 < m ==> !Contains(text, DomainTerms[m2])
    decreases |DomainTerms| - k
  {
    if k < |DomainTerms| && !Contains(text, DomainTerms[k]) {
      FirstTermFromSpec(text, k + 1);
    }
  }

  /** The parameters `match_query` reads off a match of `pattern` (an entry of `spec`) in the normalised
      question `text` with capture groups `groups`. With a capture, the first group fills one parameter,
      chosen by the first test that holds: a round or version pattern of an entry whose template has a
      `version` field gives `version` (through `int`), a clause pattern for a template mentioning
      `clause_number` gives that, a matter pattern gives `matter_id`, a template mentioning `actor` gives
      the name in title case, and anything else gives `keyword`. Without a capture, a template mentioning
      `keyword` takes the first domain term found in the question.

      This is the intended reading. `match_query` itself applies the first test to every pattern whose
      text mentions a round or a version, whatever its template; `InferParamsAsWritten` is that reading. */
  function InferParams(spec: PatternSpec, pattern: string, groups: seq<string>, text: string): (r: Result<Params, Raised>)
    ensures |groups| == 0 ==> r.Ok? && r.value.Keys <= {"keyword"}
    ensures |groups| > 0 && r.Err? ==>
      VersionCapture(spec, pattern) && ParseInt(groups[0]).None? && r.error == IntError(groups[0])
    ensures |groups| > 0 && r.Ok? ==>
      && |r.value| == 1
      && ("version" in r.value <==> VersionCapture(spec, pattern))
      && ("version" in r.value ==> r.value["version"].PInt? && ParseInt(groups[0]) == Some(r.value["version"].i))
      && (forall k :: k in r.value && k != "version" ==> r.value[k] == PStr(groups[0]) || r.value[k] == PStr(Title(groups[0])))
  {
    var template := spec.TemplateText();
    if |groups| > 0 then
      var g := groups[0];
      if VersionCapture(spec, pattern) then
        match ParseInt(g)
        case None => Err(IntError(g))
        case Some(v) => Ok(map["version" := PInt(v)])
      else CaptureParam(spec, pattern, g)
    else NoCaptureParams(spec, text)
  }

  /** `"round" in pattern or "version" in pattern`. */
  predicate MentionsVersion(pattern: string) {
    Contains(pattern, "round") || Contains(pattern, "version")
  }

  /** Does the first group of `pattern` fill the `version` parameter. */
  predicate VersionCapture(spec: PatternSpec, pattern: string) {
    MentionsVersion(pattern) && "version" in spec.Fields()
  }

  /** The parameter a capture that is not a version fills: the clause number, matter, actor or keyword. */
  function CaptureParam(spec: PatternSpec, pattern: string, g: string): Result<Params, Raised> {
    var template := spec.TemplateText();
    if Contains(pattern, "clause") && Contains(template, "clause_number") then Ok(map["clause_number" := PStr(g)])
    else if Contains(pattern, "matter") then Ok(map["matter_id" := PStr(g)])
    else if Contains(template, "actor") then Ok(map["actor" := PStr(Title(g))])
    else Ok(map["keyword" := PStr(g)])
  }

  /** The parameters of a match without a capture: the first domain term, when the template asks. */
  function NoCaptureParams(spec: PatternSpec, text: string): Result<Params, Raised> {
    if Contains(spec.TemplateText(), "keyword") then
      match FirstTermFrom(text, 0)
      case Some(t) => Ok(map["keyword" := PStr(t)])
      case None => Ok(map[])
    else Ok(map[])
  }

  /** `match_query`'s parameter reading as the program has it: any pattern mentioning a round or a
      version sends its capture through `int` into `version`. */
  function InferParamsAsWritten(spec: PatternSpec, pattern: string, groups: seq<string>, text: string): (r: Result<Params, Raised>)
    ensures |groups| > 0 && MentionsVersion(pattern) ==>
      && (r.Err? <==> ParseInt(groups[0]).None?)
      && (r.Err? ==> r.error == IntError(groups[0]))
      && (r.Ok? ==> r.value.Keys == {"version"} && r.value["version"].PInt? && ParseInt(groups[0]) == Some(r.value["version"].i))
    ensures !(|groups| > 0 && MentionsVersion(pattern)) ==> r == InferParams(spec, pattern, groups, text)
  {
    if |groups| > 0 && MentionsVersion(pattern) then
      var g := groups[0];
      match ParseInt(g)
      case None => Err(IntError(g))
      case Some(v) => Ok(map["version" := PInt(v)])
    else InferParams(spec, pattern, groups, text)
  }

  /** Which parameter reading a match uses: `match_query`'s own (`AsWritten`), or the one whose version
      test is limited to templates with a `version` field (`Intended`). */
  datatype Reading = AsWritten | Intended

  function Infer(reading: Reading, spec: PatternSpec, pattern: string, groups: seq<string>, text: string): Result<Params, Raised> {
    match reading
    case AsWritten => InferParamsAsWritten(spec, pattern, groups, text)
    case Intended => InferParams(spec, pattern, groups, text)
  }

  /** The version test of a reading: any mention of a round or a version as written, and additionally a
      `version` template field in the corrected reading. */
  predicate VersionTest(reading: Reading, spec: PatternSpec, pattern: string) {
    match reading
    case AsWritten => MentionsVersion(pattern)
    case Intended => VersionCapture(spec, pattern)
  }

  /** With a capture, under either reading: the version test sends the first group through `int` into
      `version`; otherwise exactly one parameter is set, chosen by the first test that holds — `clause_number`
      for a clause pattern whose template mentions it, then `matter_id` for a matter pattern, then `actor`
      (title-cased) for a template mentioning `actor`, and `keyword` when none does — holding the group. */
  lemma InferParamsPriority(reading: Reading, spec: PatternSpec, pattern: string, groups: seq<string>, text: string)
    requires |groups| > 0
    ensures var r := Infer(reading, spec, pattern, groups, text);
      VersionTest(reading, spec, pattern) ==>
        && (r.Err? <==> ParseInt(groups[0]).None?)
        && (r.Err? ==> r.error == IntError(groups[0]))
        && (r.Ok? ==> r.value == map["version" := PInt(ParseInt(groups[0]).value)])
    ensures var r := Infer(reading, spec, pattern, groups, text);
      var g := groups[0];
      var t := spec.TemplateText();
      var clause := Contains(pattern, "clause") && Contains(t, "clause_number");
      var matter := !clause && Contains(pattern, "matter");
      var actor := !clause && !matter && Contains(t, "actor");
      !VersionTest(reading, spec, pattern) ==>
        && r.Ok? && |r.value| == 1
        && ("clause_number" in r.value <==> clause)
        && ("matter_id" in r.value <==> matter)
        && ("actor" in r.value <==> actor)
        && ("keyword" in r.value <==> !clause && !matter && !actor)
        && (actor ==> r.value["actor"] == PStr(Title(g)))
        && (forall k :: k in r.value && k != "actor" ==> r.value[k] == PStr(g))
  {
  }

  /** `match_query` (under `AsWritten`): the entry and parameters of the first pattern found in the
      question, `None` when no pattern is found, or the exception raised while reading the parameters. */
  function MatchQuery(reading: Reading, table: seq<PatternSpec>, search: Search, question: string): (r: Result<Option<Match>, Raised>)
    ensures r.Ok? && r.value.Some? ==> r.value.value.spec in table
  {
    match FirstHit(table, search, question)
    case None => Ok(None)
    case Some(h) =>
      var spec := table[h.spec];
      match Infer(reading, spec, spec.patterns[h.pattern], h.groups, Normalize(question))
      case Err(e) => Err(e)
      case Ok(params) => Ok(Some(Match(spec, params)))
  }

  // ---------------------------------------------------------------------------------------------
  // Properties of the matcher
  // ---------------------------------------------------------------------------------------------

  /** No match exactly when no pattern of the table is found in the normalised question. */
  lemma NoMatchIff(reading: Reading, table: seq<PatternSpec>, search: Search, question: string)
    ensures MatchQuery(reading, table, search, question) == Ok(None) <==>
      forall i: nat, j: nat :: ValidPosition(table, i, j) ==> search(table[i].patterns[j], Normalize(question)).None?
  {
    FirstHitFromIsFirst(table, search, Normalize(question), 0, 0);
  }

  /** A match comes from the first pattern found, in table order, and its parameters from that
      pattern's groups. */
  lemma MatchIsFirst(reading: Reading, table: seq<PatternSpec>, search: Search, question: string, i: nat, j: nat, groups: seq<string>)
    requires ValidPosition(table, i, j) && search(table[i].patterns[j], Normalize(question)) == Some(groups)
    requires forall i2: nat, j2: nat :: ValidPosition(table, i2, j2) && Before(i2, j2, i, j) ==> search(table[i2].patterns[j2], Normalize(question)).None?
    ensures MatchQuery(reading, table, search, question) ==
      match Infer(reading, table[i], table[i].patterns[j], groups, Normalize(question))
      case Err(e) => Err(e)
      case Ok(params) => Ok(Some(Match(table[i], params)))
  {
    var text := Normalize(question);
    FirstHitFromIsFirst(table, search, text, 0, 0);
    var h := FirstHitFrom(table, search, text, 0, 0);
    assert h.Some?;
    assert h.value.spec == i && h.value.pattern == j;
  }

  /** Without a capture, the only parameter ever set is `keyword`, and it is the first domain term found
      in the question, present exactly when the template mentions `keyword` and some term occurs. */
  lemma NoCaptureKeyword(spec: PatternSpec, pattern: string, text: string)
    ensures "keyword" in InferParams(spec, pattern, [], text).value <==>
      Contains(spec.TemplateText(), "keyword") && exists m :: 0 <= m < |DomainTerms| && Contains(text, DomainTerms[m])
    ensures "keyword" in InferParams(spec, pattern, [], text).value ==>
      exists m :: 0 <= m < |DomainTerms| && InferParams(spec, pattern, [], text).value["keyword"] == PStr(DomainTerms[m])
        && Contains(text, DomainTerms[m]) && forall m2 :: 0 <= m2 < m ==> !Contains(text, DomainTerms[m2])
  {
    FirstTermFromSpec(text, 0);
  }
}
