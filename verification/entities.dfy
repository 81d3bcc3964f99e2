/** The entity records of the negotiation graph and the checks their constructors apply.

    Each record with a closed set of allowed strings for a field is built by a `New…` function that
    accepts exactly the allowed values and otherwise reports every offending field, in declaration
    order, as the record library's validation error does.  An optional argument given as `None`
    stands for "not supplied", so the field takes its declared default. */
module Entities {
  import opened Wrappers
  import opened PyStr
  import opened Values
  import opened Ids

  // ---------------------------------------------------------------------------------------------
  // Closed value sets
  // ---------------------------------------------------------------------------------------------

  const PartyRoles: seq<string> := ["customer", "provider", "service_provider", "vendor", "client"]
  const EntityTypes: seq<string> := ["individual", "company", "partnership", "government"]
  const VersionSources: seq<string> := ["customer", "counterparty", "agent"]
  const Severities: seq<string> := ["low", "medium", "high", "critical"]
  const SuggestedActions: seq<string> := ["ACCEPT", "EDIT", "REMOVE"]
  const RecommendationStatuses: seq<string> := ["pending", "applied", "overridden", "deferred"]
  const EditOps: seq<string> := ["insert", "replace", "delete"]
  const ReasoningTypes: seq<string> := ["risk_based", "precedent_based", "strategy"]
  const DecisionTypes: seq<string> := ["APPLY_RECOMMENDATION", "OVERRIDE", "DEFER", "CUSTOM_EDIT"]
  const DecisionStatuses: seq<string> := ["logged", "implemented", "superseded"]
  const ConcessionTriggers: seq<string> := ["user_initiated", "counterparty_pressure"]
  const EpisodeTypes: seq<string> := ["negotiation_round", "user_edit", "agent_suggestion", "ingestion_event"]

  /** The fields whose values were rejected, in declaration order. */
  datatype ValidationError = ValidationError(fields: seq<string>)

  /** `[field]` when the check failed, nothing otherwise. */
  function Check(field: string, ok: bool): (r: seq<string>)
    ensures ok <==> r == []
    ensures !ok ==> r == [field]
  {
    if ok then [] else [field]
  }

  /** An optional field restricted to `allowed`: absent is always accepted. */
  predicate OptionalIn(v: Option<string>, allowed: seq<string>) {
    v.None? || v.value in allowed
  }

  // ---------------------------------------------------------------------------------------------
  // The trim-or-None validators
  // ---------------------------------------------------------------------------------------------

  /** `v.strip() or None`, with `None` passed through: the validator on both
      `AgentRecommendation.suggested_language` and `UserDecision.notes`. */
  function TrimToNone(v: Option<string>): (r: Option<string>)
    ensures r.None? <==> v.None? || AllSpace(v.value)
    ensures r.Some? ==> r.value == Strip(v.value) && r.value != []
    ensures r.Some? ==> !IsSpace(r.value[0]) && !IsSpace(r.value[|r.value| - 1])
  {
    match v
    case None => None
    case Some(s) =>
      StripEmptyIffAllSpace(s);
      var t := Strip(s);
      if t == [] then None else Some(t)
  }

  /** Applying the validator to its own output changes nothing. */
  lemma TrimToNoneIdempotent(v: Option<string>)
    ensures TrimToNone(TrimToNone(v)) == TrimToNone(v)
  {
    if TrimToNone(v).Some? {
      var t := TrimToNone(v).value;
      StripOfTrimmed(t);
    }
  }

  // ---------------------------------------------------------------------------------------------
  // Records
  // ---------------------------------------------------------------------------------------------

  datatype Party = Party(
    partyId: string, name: string, role: string, entityType: Option<string>,
    jurisdiction: Option<string>, contactInfo: Option<string>)

  function NewParty(
    partyId: string, name: string, role: string, entityType: Option<string>,
    jurisdiction: Option<string>, contactInfo: Option<string>): (r: Result<Party, ValidationError>)
    ensures r.Ok? <==> role in PartyRoles && OptionalIn(entityType, EntityTypes)
    ensures r.Ok? ==> r.value.role == role && r.value.entityType == entityType && r.value.name == name
    ensures r.Err? ==> ("role" in r.error.fields <==> role !in PartyRoles)
    ensures r.Err? ==> ("entity_type" in r.error.fields <==> !OptionalIn(entityType, EntityTypes))
  {
    var errs := Check("role", role in PartyRoles) + Check("entity_type", OptionalIn(entityType, EntityTypes));
    if errs == [] then Ok(Party(partyId, name, role, entityType, jurisdiction, contactInfo))
    else Err(ValidationError(errs))
  }

  datatype Document = Document(
    docId: string, matterId: string, title: string, counterparty: Option<string>,
    documentType: Option<string>, jurisdiction: Option<string>, createdAt: Option<Timestamp>)

  datatype DocVersion = DocVersion(
    versionId: string, docId: string, versionNo: int, source: string, ts: Timestamp,
    hash: Option<string>, state: Option<string>, negotiationRound: Option<int>)

  function NewDocVersion(
    versionId: string, docId: string, versionNo: int, source: string, ts: Timestamp,
    hash: Option<string>, state: Option<string>, negotiationRound: Option<int>): (r: Result<DocVersion, ValidationError>)
    ensures r.Ok? <==> source in VersionSources
    ensures r.Ok? ==> r.value.source == source && r.value.versionNo == versionNo
    ensures r.Err? ==> r.error.fields == ["source"]
  {
    if source in VersionSources then Ok(DocVersion(versionId, docId, versionNo, source, ts, hash, state, negotiationRound))
    else Err(ValidationError(["source"]))
  }

  datatype Clause = Clause(
    clauseId: string, canonicalClauseId: string, versionId: string, sectionPath: string,
    clauseName: Option<string>, clauseType: Option<string>, text: string, textHash: Option<string>,
    startChar: Option<int>, endChar: Option<int>, page: Option<int>, wordCount: Option<int>,
    riskLevel: Option<string>, positionScore: Option<real>, tags: seq<string>, playbookFlags: map<string, Value>)

  /** A clause built from its required fields; every optional field is left unset and the two
      collection fields start empty. */
  function NewClause(clauseId: string, canonicalClauseId: string, versionId: string, sectionPath: string, text: string): (c: Clause)
    ensures c.tags == [] && c.playbookFlags == map[]
    ensures c.clauseId == clauseId && c.canonicalClauseId == canonicalClauseId && c.text == text
    ensures c.textHash.None? && c.startChar.None? && c.endChar.None?
  {
    Clause(clauseId, canonicalClauseId, versionId, sectionPath, None, None, text, None,
           None, None, None, None, None, None, [], map[])
  }

  datatype AgentRecommendation = AgentRecommendation(
    recId: string, clauseId: string, issueType: string, severity: string, suggestedAction: string,
    suggestedLanguage: Option<string>, status: string, modelVersion: Option<string>, ts: Timestamp)

  function NewAgentRecommendation(
    recId: string, clauseId: string, issueType: string, severity: string, suggestedAction: string,
    suggestedLanguage: Option<string>, status: Option<string>, modelVersion: Option<string>,
    ts: Timestamp): (r: Result<AgentRecommendation, ValidationError>)
    ensures r.Ok? <==> severity in Severities && suggestedAction in SuggestedActions
                        && OptionalIn(status, RecommendationStatuses)
    ensures r.Ok? && status.None? ==> r.value.status == "pending"
    ensures r.Ok? && status.Some? ==> r.value.status == status.value
    ensures r.Ok? ==> r.value.suggestedLanguage == TrimToNone(suggestedLanguage)
    ensures r.Ok? ==> r.value.status in RecommendationStatuses && r.value.severity == severity
    ensures r.Err? ==> ("severity" in r.error.fields <==> severity !in Severities)
    ensures r.Err? ==> ("suggested_action" in r.error.fields <==> suggestedAction !in SuggestedActions)
    ensures r.Err? ==> ("status" in r.error.fields <==> !OptionalIn(status, RecommendationStatuses))
  {
    var errs := Check("severity", severity in Severities)
      + Check("suggested_action", suggestedAction in SuggestedActions)
      + Check("status", OptionalIn(status, RecommendationStatuses));
    if errs == [] then
      Ok(AgentRecommendation(recId, clauseId, issueType, severity, suggestedAction,
                             TrimToNone(suggestedLanguage), status.GetOr("pending"), modelVersion, ts))
    else Err(ValidationError(errs))
  }

  datatype SuggestedEdit = SuggestedEdit(
    editId: string, recId: string, clauseId: string, op: string, payload: map<string, Value>,
    proposedBy: string, proposedAt: Timestamp)

  function NewSuggestedEdit(
    editId: string, recId: string, clauseId: string, op: string, payload: map<string, Value>,
    proposedBy: string, proposedAt: Timestamp): (r: Result<SuggestedEdit, ValidationError>)
    ensures r.Ok? <==> op in EditOps
    ensures r.Ok? ==> r.value.op == op && r.value.payload == payload
    ensures r.Err? ==> r.error.fields == ["op"]
  {
    if op in EditOps then Ok(SuggestedEdit(editId, recId, clauseId, op, payload, proposedBy, proposedAt))
    else Err(ValidationError(["op"]))
  }

  datatype Rationale = Rationale(
    rationaleId: string, recId: string, rationaleText: string, reasoningType: Option<string>,
    confidence: Option<real>, ts: Timestamp)

  function NewRationale(
    rationaleId: string, recId: string, rationaleText: string, reasoningType: Option<string>,
    confidence: Option<real>, ts: Timestamp): (r: Result<Rationale, ValidationError>)
    ensures r.Ok? <==> OptionalIn(reasoningType, ReasoningTypes)
                        && (confidence.None? || 0.0 <= confidence.value <= 1.0)
    ensures r.Ok? ==> r.value.reasoningType == reasoningType && r.value.confidence == confidence
    ensures r.Err? ==> ("confidence" in r.error.fields <==> confidence.Some? && !(0.0 <= confidence.value <= 1.0))
  {
    var errs := Check("reasoning_type", OptionalIn(reasoningType, ReasoningTypes))
      + Check("confidence", confidence.None? || 0.0 <= confidence.value <= 1.0);
    if errs == [] then Ok(Rationale(rationaleId, recId, rationaleText, reasoningType, confidence, ts))
    else Err(ValidationError(errs))
  }

  datatype UserDecision = UserDecision(
    decisionId: string, recId: string, clauseId: string, decisionType: string, status: string,
    actor: string, ts: Timestamp, notes: Option<string>)

  function NewUserDecision(
    decisionId: string, recId: string, clauseId: string, decisionType: string, status: Option<string>,
    actor: string, ts: Timestamp, notes: Option<string>): (r: Result<UserDecision, ValidationError>)
    ensures r.Ok? <==> decisionType in DecisionTypes && OptionalIn(status, DecisionStatuses)
    ensures r.Ok? && status.None? ==> r.value.status == "logged"
    ensures r.Ok? && status.Some? ==> r.value.status == status.value
    ensures r.Ok? ==> r.value.notes == TrimToNone(notes) && r.value.decisionType == decisionType
    ensures r.Err? ==> ("decision_type" in r.error.fields <==> decisionType !in DecisionTypes)
    ensures r.Err? ==> ("status" in r.error.fields <==> !OptionalIn(status, DecisionStatuses))
  {
    var errs := Check("decision_type", decisionType in DecisionTypes)
      + Check("status", OptionalIn(status, DecisionStatuses));
    if errs == [] then
      Ok(UserDecision(decisionId, recId, clauseId, decisionType, status.GetOr("logged"), actor, ts, TrimToNone(notes)))
    else Err(ValidationError(errs))
  }

  datatype Concession = Concession(
    concessionId: string, clauseId: string, decisionId: string, description: string, trigger: string,
    valueImpact: Option<string>, ts: Timestamp)

  function NewConcession(
    concessionId: string, clauseId: string, decisionId: string, description: string, trigger: string,
    valueImpact: Option<string>, ts: Timestamp): (r: Result<Concession, ValidationError>)
    ensures r.Ok? <==> trigger in ConcessionTriggers
    ensures r.Ok? ==> r.value.trigger == trigger && r.value.description == description
    ensures r.Err? ==> r.error.fields == ["trigger"]
  {
    if trigger in ConcessionTriggers then Ok(Concession(concessionId, clauseId, decisionId, description, trigger, valueImpact, ts))
    else Err(ValidationError(["trigger"]))
  }

  datatype ReviewSession = ReviewSession(
    sessionId: string, actor: string, tsStarted: Timestamp, tsCompleted: Option<Timestamp>, summary: Option<string>)

  datatype Episode = Episode(
    episodeId: string, episodeType: string, referenceTime: Timestamp, ingestionTime: Timestamp,
    actor: Option<string>, toolVersion: Option<string>, checksum: Option<string>, metadata: map<string, Value>)

  /** An episode; `metadata` starts empty when not supplied. */
  function NewEpisode(
    episodeId: string, episodeType: string, referenceTime: Timestamp, ingestionTime: Timestamp,
    actor: Option<string>, toolVersion: Option<string>, checksum: Option<string>,
    metadata: Option<map<string, Value>>): (r: Result<Episode, ValidationError>)
    ensures r.Ok? <==> episodeType in EpisodeTypes
    ensures r.Ok? ==> r.value.episodeType == episodeType
    ensures r.Ok? && metadata.None? ==> r.value.metadata == map[]
    ensures r.Err? ==> r.error.fields == ["episode_type"]
  {
    if episodeType in EpisodeTypes then
      Ok(Episode(episodeId, episodeType, referenceTime, ingestionTime, actor, toolVersion, checksum, metadata.GetOr(map[])))
    else Err(ValidationError(["episode_type"]))
  }

  // ---------------------------------------------------------------------------------------------
  // Properties
  // ---------------------------------------------------------------------------------------------

  /** A validated record carries a value from its closed set; the validator is the membership test. */
  lemma RecommendationFieldsClosed(r: Result<AgentRecommendation, ValidationError>, recId: string, clauseId: string,
                                   issueType: string, severity: string, action: string, language: Option<string>,
                                   status: Option<string>, modelVersion: Option<string>, ts: Timestamp)
    requires r == NewAgentRecommendation(recId, clauseId, issueType, severity, action, language, status, modelVersion, ts)
    requires r.Ok?
    ensures r.value.severity in Severities && r.value.suggestedAction in SuggestedActions
    ensures r.value.status in RecommendationStatuses
    ensures r.value.suggestedLanguage.Some? ==> !AllSpace(r.value.suggestedLanguage.value)
  {
    if r.value.suggestedLanguage.Some? {
      var t := r.value.suggestedLanguage.value;
      assert t == TrimToNone(language).value;
    }
  }
}
