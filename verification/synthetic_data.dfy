/** The deterministic parts of the synthetic negotiation generator: placeholder substitution in clause
    templates, the clause mutations between versions, identifier construction, and the gates that decide
    whether a recommendation or a concession is generated.

    Randomness enters only as parameters: a `draw` is the value `random.random()` returned, a real in
    [0, 1). The two mutations written with regular expressions are a parameter too. */
module SyntheticData {
  import opened Wrappers
  import opened PyStr
  import opened Ids

  // ---------------------------------------------------------------------------------------------
  // Identifiers
  // ---------------------------------------------------------------------------------------------

  /** `generate_id(prefix, *components)`: the prefix, `_`, and the first 16 hex digits of the SHA-256 of the
      components joined by `|`. */
  function GenerateId(sha: Sha256, prefix: string, components: seq<string>): (r: string)
    ensures |r| == |prefix| + 17
    ensures r[..|prefix| + 1] == prefix + "_"
    ensures IsLowerHex(r[|prefix| + 1..])
  {
    var digest := sha(Join("|", components));
    assert IsHexDigest(digest);
    var r := prefix + "_" + digest[..16];
    assert r[|prefix| + 1..] == digest[..16];
    r
  }

  // ---------------------------------------------------------------------------------------------
  // Template substitution
  // ---------------------------------------------------------------------------------------------

  /** A keyword argument of `format_text`: a plain value, shown as `str(value)`, or a dictionary whose
      entries fill `{key.subkey}` placeholders. `shown` is `str()` of the dictionary itself, taken as given. */
  datatype Arg = Scalar(text: string) | Nested(entries: seq<(string, string)>, shown: string)

  function Shown(a: Arg): string {
    match a
    case Scalar(text) => text
    case Nested(_, shown) => shown
  }

  function Placeholder(key: string): string {
    "{" + key + "}"
  }

  function NestedPlaceholder(key: string, subkey: string): string {
    "{" + key + "." + subkey + "}"
  }

  /** The dictionary entries of one argument substituted in order. */
  function ApplyEntries(text: string, key: string, entries: seq<(string, string)>): string {
    if entries == [] then text
    else
      var last := entries[|entries| - 1];
      ReplaceAll(ApplyEntries(text, key, entries[..|entries| - 1]), NestedPlaceholder(key, last.0), last.1)
  }

  /** One keyword argument substituted. */
  function ApplyArg(text: string, kw: (string, Arg)): string {
    match kw.1
    case Scalar(v) => ReplaceAll(text, Placeholder(kw.0), v)
    case Nested(entries, _) => ApplyEntries(text, kw.0, entries)
  }

  /** The first pass of `format_text`: the keyword arguments substituted in the order they were given. */
  function FirstPass(text: string, kwargs: seq<(string, Arg)>): string {
    if kwargs == [] then text else ApplyArg(FirstPass(text, kwargs[..|kwargs| - 1]), kwargs[|kwargs| - 1])
  }

  /** The value given for `key`, if any. */
  function Lookup(kwargs: seq<(string, Arg)>, key: string): (r: Option<Arg>)
    ensures r.Some? <==> exists k :: 0 <= k < |kwargs| && kwargs[k].0 == key
  {
    if kwargs == [] then None
    else if kwargs[0].0 == key then Some(kwargs[0].1)
    else
      var r := Lookup(kwargs[1..], key);
      assert forall k :: 1 <= k < |kwargs| ==> kwargs[1..][k - 1] == kwargs[k];
      r
  }

  /** The second pass: leftover `{provider}` and `{customer}` are filled when those arguments were given. */
  function SecondPass(text: string, kwargs: seq<(string, Arg)>): string {
    var t := if Lookup(kwargs, "provider").Some? then ReplaceAll(text, "{provider}", Shown(Lookup(kwargs, "provider").value)) else text;
    if Lookup(kwargs, "customer").Some? then ReplaceAll(t, "{customer}", Shown(Lookup(kwargs, "customer").value)) else t
  }

  /** `format_text(template, **kwargs)`, with the keyword arguments in the order they were passed. */
  method FormatText(template: string, kwargs: seq<(string, Arg)>) returns (text: string)
    ensures text == SecondPass(FirstPass(template, kwargs), kwargs)
  {
    text := template;
    for i := 0 to |kwargs|
      invariant text == FirstPass(template, kwargs[..i])
    {
      assert kwargs[..i + 1][..i] == kwargs[..i];
      var (key, value) := kwargs[i];
      match value {
        case Nested(entries, _) =>
          var start := text;
          for j := 0 to |entries|
            invariant text == ApplyEntries(start, key, entries[..j])
          {
            assert entries[..j + 1][..j] == entries[..j];
            text := ReplaceAll(text, NestedPlaceholder(key, entries[j].0), entries[j].1);
          }
          assert entries[..|entries|] == entries;
        case Scalar(v) =>
          text := ReplaceAll(text, Placeholder(key), v);
      }
    }
    assert kwargs[..|kwargs|] == kwargs;
    var provider := Lookup(kwargs, "provider");
    if provider.Some? {
      text := ReplaceAll(text, "{provider}", Shown(provider.value));
    }
    var customer := Lookup(kwargs, "customer");
    if customer.Some? {
      text := ReplaceAll(text, "{customer}", Shown(customer.value));
    }
  }

  /** Substituting the arguments `a + b` is substituting `a`, then `b`: arguments act in the order given. */
  lemma {:induction false} FirstPassAppend(text: string, a: seq<(string, Arg)>, b: seq<(string, Arg)>)
    ensures FirstPass(text, a + b) == FirstPass(FirstPass(text, a), b)
    decreases |b|
  {
    if b == [] {
      assert a + b == a;
    } else {
      var ab := a + b;
      assert ab[..|ab| - 1] == a + b[..|b| - 1];
      assert ab[|ab| - 1] == b[|b| - 1];
      FirstPassAppend(text, a, b[..|b| - 1]);
    }
  }

  /** None of the placeholders the arguments could fill occurs in `text`. */
  predicate NoPlaceholders(text: string, kwargs: seq<(string, Arg)>) {
    && !Contains(text, "{provider}")
    && !Contains(text, "{customer}")
    && forall k :: 0 <= k < |kwargs| ==>
         match kwargs[k].1
         case Scalar(_) => !Contains(text, Placeholder(kwargs[k].0))
         case Nested(entries, _) => forall e :: 0 <= e < |entries| ==> !Contains(text, NestedPlaceholder(kwargs[k].0, entries[e].0))
  }

  lemma {:induction false} ApplyEntriesAbsent(text: string, key: string, entries: seq<(string, string)>)
    requires forall e :: 0 <= e < |entries| ==> !Contains(text, NestedPlaceholder(key, entries[e].0))
    ensures ApplyEntries(text, key, entries) == text
    decreases |entries|
  {
    if entries != [] {
      var init := entries[..|entries| - 1];
      assert forall e :: 0 <= e < |init| ==> init[e] == entries[e];
      ApplyEntriesAbsent(text, key, init);
      ReplaceAllAbsent(text, NestedPlaceholder(key, entries[|entries| - 1].0), entries[|entries| - 1].1);
    }
  }

  lemma {:induction false} FirstPassAbsent(text: string, kwargs: seq<(string, Arg)>)
    requires NoPlaceholders(text, kwargs)
    ensures FirstPass(text, kwargs) == text
    decreases |kwargs|
  {
    if kwargs != [] {
      var init := kwargs[..|kwargs| - 1];
      assert forall k :: 0 <= k < |init| ==> init[k] == kwargs[k];
      assert NoPlaceholders(text, init);
      FirstPassAbsent(text, init);
      var last := kwargs[|kwargs| - 1];
      match last.1 {
        case Scalar(v) =>
          ReplaceAllAbsent(text, Placeholder(last.0), v);
        case Nested(entries, _) =>
          ApplyEntriesAbsent(text, last.0, entries);
      }
    }
  }

  /** A template containing none of the placeholders comes back unchanged. */
  lemma FormatUnchangedWithoutPlaceholders(template: string, kwargs: seq<(string, Arg)>)
    requires NoPlaceholders(template, kwargs)
    ensures SecondPass(FirstPass(template, kwargs), kwargs) == template
  {
    FirstPassAbsent(template, kwargs);
    ReplaceAllAbsent(template, "{provider}", "");
    if Lookup(kwargs, "provider").Some? {
      ReplaceAllAbsent(template, "{provider}", Shown(Lookup(kwargs, "provider").value));
    }
    if Lookup(kwargs, "customer").Some? {
      ReplaceAllAbsent(template, "{customer}", Shown(Lookup(kwargs, "customer").value));
    }
  }

  /** With no keyword arguments, formatting is the identity. */
  lemma FormatWithoutArguments(template: string)
    ensures SecondPass(FirstPass(template, []), []) == template
  {
  }

  // ---------------------------------------------------------------------------------------------
  // Clause mutation
  // ---------------------------------------------------------------------------------------------

  datatype Clause = Clause(clauseId: string, clauseNumber: string, title: string, text: string, category: string, version: int)

  const ExpansivePhrase: string := "cascading effects and derivative losses extending beyond direct contractual performance"
  const EachParty: string := "Each Party"
  const ReciprocalSentence: string := EachParty + " shall have reciprocal obligations. "

  /** The `delete_expansive` mutation: three fixed phrases shortened, every occurrence. */
  function DeleteExpansive(text: string): string {
    var t1 := ReplaceAll(text, ExpansivePhrase, "[DELETED]");
    var t2 := ReplaceAll(t1, "any and all", "any");
    ReplaceAll(t2, "including without limitation", "including")
  }

  /** The `add_qualifier` mutation: the first `shall` is qualified unless the text already speaks of
      something `material`, then the first `liable for` becomes `liable for direct` unless `direct` is
      already there. */
  function AddQualifier(text: string): string {
    var t1 := if Contains(text, "shall") && !Contains(text, "material")
              then ReplaceFirst(text, "shall", "shall, subject to reasonable efforts,") else text;
    if Contains(t1, "liable for") && !Contains(t1, "direct") then ReplaceFirst(t1, "liable for", "liable for direct") else t1
  }

  /** The `add_reciprocal` mutation: the reciprocity sentence is put in front when the customer is named and
      no sentence about `Each Party` is there yet. */
  function AddReciprocal(text: string, customerName: string): string {
    if Contains(text, customerName) && !Contains(text, EachParty) then ReciprocalSentence + text else text
  }

  /** The mutated text of a clause. `regexRewrite(mutationType, text)` stands for the two mutations written
      with regular expressions, `blank_numbers` and `numeric_compromise`. */
  function MutateText(text: string, mutationType: string, customerName: string, regexRewrite: (string, string) -> string): string {
    if mutationType == "blank_numbers" || mutationType == "numeric_compromise" then regexRewrite(mutationType, text)
    else if mutationType == "delete_expansive" then DeleteExpansive(text)
    else if mutationType == "add_qualifier" then AddQualifier(text)
    else if mutationType == "add_reciprocal" then AddReciprocal(text, customerName)
    else text
  }

  predicate KnownMutation(mutationType: string) {
    mutationType in ["blank_numbers", "delete_expansive", "add_qualifier", "numeric_compromise", "add_reciprocal"]
  }

  /** `mutate_clause_for_version`: a new clause with the mutated text and a fresh id, everything else of the
      base clause kept, and the version set. */
  function MutateClause(sha: Sha256, base: Clause, version: int, mutationType: string, customerName: string,
                        regexRewrite: (string, string) -> string): (c: Clause)
    ensures c.clauseNumber == base.clauseNumber && c.title == base.title && c.category == base.category
    ensures c.version == version
    ensures !KnownMutation(mutationType) ==> c.text == base.text
    ensures c.clauseId == GenerateId(sha, "clause", [base.clauseNumber, Prefix(c.text, 50)])
  {
    var text := MutateText(base.text, mutationType, customerName, regexRewrite);
    Clause(GenerateId(sha, "clause", [base.clauseNumber, Prefix(text, 50)]), base.clauseNumber, base.title, text,
           base.category, version)
  }

  lemma ContainsAtFront(p: string, t: string, w: string)
    requires StartsWith(p, w)
    ensures Contains(p + t, w)
  {
    assert (p + t)[..|w|] == p[..|w|];
    ContainsWitness(p + t, w, 0);
  }

  /** Adding the reciprocity sentence twice is adding it once. */
  lemma AddReciprocalIdempotent(text: string, customerName: string)
    ensures AddReciprocal(AddReciprocal(text, customerName), customerName) == AddReciprocal(text, customerName)
  {
    if Contains(text, customerName) && !Contains(text, EachParty) {
      assert ReciprocalSentence[..|EachParty|] == EachParty;
      ContainsAtFront(ReciprocalSentence, text, EachParty);
    }
  }

  /** The sentence goes in front exactly when the customer is named and `Each Party` is absent. */
  lemma AddReciprocalGate(text: string, customerName: string)
    ensures AddReciprocal(text, customerName) != text <==> Contains(text, customerName) && !Contains(text, EachParty)
  {
    assert |ReciprocalSentence + text| > |text|;
  }

  /** The `liable for` rewrite marks the text `direct`, so applying it again changes nothing. */
  lemma QualifiedLiabilityIsDirect(t: string)
    requires Contains(t, "liable for") && !Contains(t, "direct")
    ensures Contains(ReplaceFirst(t, "liable for", "liable for direct"), "direct")
  {
    var i := Find(t, "liable for").value;
    var r := ReplaceFirst(t, "liable for", "liable for direct");
    assert r == t[..i] + "liable for direct" + t[i + 10..];
    assert r[i + 11..i + 17] == "direct";
    ContainsWitness(r, "direct", i + 11);
  }

  /** Text with neither gate open is left alone by `add_qualifier`. */
  lemma AddQualifierClosedGates(text: string)
    requires !Contains(text, "shall") || Contains(text, "material")
    requires !Contains(text, "liable for") || Contains(text, "direct")
    ensures AddQualifier(text) == text
  {
  }

  /** When the `liable for` gate is open, `add_qualifier` leaves the text saying `direct`. */
  lemma AddQualifierMakesLiabilityDirect(text: string)
    requires !Contains(text, "shall") || Contains(text, "material")
    requires Contains(text, "liable for") && !Contains(text, "direct")
    ensures Contains(AddQualifier(text), "direct")
  {
    QualifiedLiabilityIsDirect(text);
  }

  /** `delete_expansive` never makes a text longer. */
  lemma DeleteExpansiveShrinks(text: string)
    ensures |DeleteExpansive(text)| <= |text|
  {
    var t1 := ReplaceAll(text, ExpansivePhrase, "[DELETED]");
    var t2 := ReplaceAll(t1, "any and all", "any");
    ReplaceAllShrinks(text, ExpansivePhrase, "[DELETED]");
    ReplaceAllShrinks(t1, "any and all", "any");
    ReplaceAllShrinks(t2, "including without limitation", "including");
  }

  // ---------------------------------------------------------------------------------------------
  // Generation gates
  // ---------------------------------------------------------------------------------------------

  datatype Intensity = High | Medium | Low

  /** `negotiation_intensity` of every clause template. */
  const TemplateIntensity: map<string, Intensity> := map[
    "liability_cap" := High,
    "liability_carveouts" := High,
    "sla_availability" := High,
    "service_credits" := High,
    "data_breach_notification" := High,
    "data_breach_liability" := High,
    "termination_convenience" := Medium,
    "audit_rights" := Medium,
    "ip_ownership" := Medium,
    "confidentiality_term" := Low,
    "payment_terms" := Medium,
    "insurance_requirements" := Low
  ]

  /** The recommendation probability table; a version outside 1..4 has probability 0. */
  function Probability(intensity: Intensity, version: int): (p: real)
    ensures 0.0 <= p <= 0.8
  {
    match intensity
    case High => if version == 1 then 0.8 else if version == 2 then 0.4 else if version == 3 then 0.2 else if version == 4 then 0.05 else 0.0
    case Medium => if version == 1 then 0.4 else if version == 2 then 0.2 else if version == 3 then 0.1 else if version == 4 then 0.05 else 0.0
    case Low => if version == 1 then 0.1 else if version == 2 then 0.05 else if version == 3 then 0.05 else 0.0
  }

  datatype LookupError = KeyError(key: string)

  /** `should_generate_recommendation(key, version)` with `draw` the random number it compares against the
      table; an unknown template key raises `KeyError`. */
  function ShouldGenerateRecommendation(templateKey: string, version: int, draw: real): (r: Result<bool, LookupError>)
    ensures r.Err? <==> templateKey !in TemplateIntensity
    ensures r.Ok? ==> (r.value <==> draw < Probability(TemplateIntensity[templateKey], version))
  {
    if templateKey !in TemplateIntensity then Err(KeyError(templateKey))
    else Ok(draw < Probability(TemplateIntensity[templateKey], version))
  }

  /** A zero table entry means no recommendation whatever the draw: a version outside 1..4, or a
      low-intensity clause at version 4. */
  lemma NoRecommendationAtZeroProbability(templateKey: string, version: int, draw: real)
    requires templateKey in TemplateIntensity
    requires 0.0 <= draw < 1.0
    requires version < 1 || version > 4 || (TemplateIntensity[templateKey] == Low && version == 4)
    ensures ShouldGenerateRecommendation(templateKey, version, draw) == Ok(false)
  {
  }

  /** High-intensity clauses are never less likely to draw a recommendation than low-intensity ones. */
  lemma HighIntensityDominatesLow(version: int)
    ensures Probability(Low, version) <= Probability(Medium, version) <= Probability(High, version)
  {
  }

  /** `should_generate_concession(decision, recommendation)` with `draw` the random number it would use. */
  function ShouldGenerateConcession(decisionType: string, classification: string, draw: real): (r: bool)
    ensures r ==> decisionType == "override" && classification == "unfavorable"
    ensures decisionType == "override" && classification == "unfavorable" ==> (r <==> draw < 0.5)
  {
    if decisionType == "override" && classification == "unfavorable" then draw < 0.5 else false
  }
}
