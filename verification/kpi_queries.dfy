/** The KPI query catalogue: four fixed Cypher templates and the code that binds caller parameters to them. */
module KpiQueries {
  import opened PyStr

  /** A named, described Cypher text; immutable. */
  datatype QueryTemplate = QueryTemplate(name: string, description: string, cypher: string) {

    /** The template bound to exactly the given parameters. */
    function WithParameters(params: map<string, string>): (q: Query)
      ensures q.template == this && q.parameters == params
      ensures q.Name() == name && q.Cypher() == cypher && q.Description() == description
    {
      Query(this, params)
    }
  }

  /** A template together with the parameter values bound to it. */
  datatype Query = Query(template: QueryTemplate, parameters: map<string, string>) {
    function Name(): string { template.name }
    function Cypher(): string { template.cypher }
    function Description(): string { template.description }
  }

  /** The serialisable summary `describe_queries` emits for one query. */
  datatype QueryDescription = QueryDescription(name: string, description: string, cypher: string, parameters: map<string, string>)

  const ClauseLineage: QueryTemplate := QueryTemplate(
    "clause_lineage",
    "Track clause lineage with associated decisions across versions.",
    @"
MATCH path = (c1:Clause {canonical_clause_id:$canonical_clause_id})-[:EVOLVES_TO*0..]->(cN)
WITH nodes(path) AS clauses
UNWIND clauses AS clause
OPTIONAL MATCH (clause)-[:HAS_AGENT_RECOMMENDATION]->(rec)
OPTIONAL MATCH (rec)<-[:APPLIES_TO]-(decision)
RETURN clause.version_id AS version_id,
       clause.section_path AS section_path,
       rec.rec_id AS recommendation_id,
       decision.decision_type AS decision_type,
       decision.actor AS actor,
       decision.ts AS decided_at
ORDER BY clause.version_id;
")

  const OutstandingRecommendations: QueryTemplate := QueryTemplate(
    "outstanding_recommendations",
    "Identify pending recommendations awaiting user action.",
    @"
MATCH (rec:AgentRecommendation)
WHERE rec.status = 'pending'
  AND NOT EXISTS { MATCH (:UserDecision)-[:APPLIES_TO]->(rec) }
RETURN rec.rec_id AS recommendation_id,
       rec.issue_type AS issue_type,
       rec.severity AS severity,
       rec.ts AS created_at
ORDER BY rec.ts;
")

  const HandoverSnapshot: QueryTemplate := QueryTemplate(
    "handover_snapshot",
    "Gather session-specific context for a lawyer handover.",
    @"
MATCH (session:ReviewSession {session_id:$session_id})
MATCH (session)<-[:LOGGED_IN]-(decision:UserDecision)-[:APPLIES_TO]->(rec:AgentRecommendation)
MATCH (rec)<-[:HAS_AGENT_RECOMMENDATION]-(clause:Clause)
OPTIONAL MATCH (rec)-[:JUSTIFIED_BY]->(rat:Rationale)
RETURN clause.section_path AS section_path,
       rec.issue_type AS issue_type,
       rec.severity AS severity,
       decision.decision_type AS decision_type,
       decision.status AS status,
       decision.actor AS actor,
       decision.ts AS decided_at,
       rat.rationale_text AS rationale
ORDER BY clause.section_path;
")

  const ConcessionTrail: QueryTemplate := QueryTemplate(
    "concession_trail",
    "List recent concessions with timing and impact.",
    @"
MATCH (cons:Concession)-[:AFFECTS_CLAUSE]->(clause:Clause)
WHERE cons.ts >= datetime($since)
RETURN clause.canonical_clause_id AS canonical_clause_id,
       clause.section_path AS section_path,
       cons.description AS description,
       cons.trigger AS trigger,
       cons.value_impact AS value_impact,
       cons.ts AS conceded_at
ORDER BY cons.ts DESC;
")

  function DefaultTemplates(): seq<QueryTemplate> {
    [ClauseLineage, OutstandingRecommendations, HandoverSnapshot, ConcessionTrail]
  }

  /** The entries of `params` whose key occurs as a substring of `cypher`, values unchanged. */
  function KeySubset(params: map<string, string>, cypher: string): (r: map<string, string>)
    ensures r.Keys <= params.Keys
    ensures forall k :: k in params ==> (k in r <==> Contains(cypher, k))
    ensures forall k :: k in r ==> r[k] == params[k]
  {
    map k | k in params && Contains(cypher, k) :: params[k]
  }

  /** One query per template, in template order, each bound to the parameters its text mentions. */
  method BindTemplates(templates: seq<QueryTemplate>, params: map<string, string>) returns (queries: seq<Query>)
    ensures |queries| == |templates|
    ensures forall i :: 0 <= i < |queries| ==> queries[i].template == templates[i]
    ensures forall i :: 0 <= i < |queries| ==> queries[i].parameters == KeySubset(params, queries[i].Cypher())
  {
    queries := [];
    for j := 0 to |templates|
      invariant |queries| == j
      invariant forall i :: 0 <= i < j ==> queries[i].template == templates[i]
      invariant forall i :: 0 <= i < j ==> queries[i].parameters == KeySubset(params, templates[i].cypher)
    {
      var template := templates[j];
      queries := queries + [template.WithParameters(KeySubset(params, template.cypher))];
    }
  }

  /** `build_queries`: the default templates bound to the caller's parameters. */
  method BuildQueries(params: map<string, string>) returns (queries: seq<Query>)
    ensures |queries| == |DefaultTemplates()|
    ensures forall i :: 0 <= i < |queries| ==> queries[i].template == DefaultTemplates()[i]
    ensures forall i :: 0 <= i < |queries| ==> queries[i].parameters == KeySubset(params, queries[i].Cypher())
  {
    queries := BindTemplates(DefaultTemplates(), params);
  }

  /** One description per query, in order, with the Cypher text's outer whitespace removed. */
  method DescribeQueries(queries: seq<Query>) returns (payload: seq<QueryDescription>)
    ensures |payload| == |queries|
    ensures forall i :: 0 <= i < |queries| ==>
      payload[i].name == queries[i].Name() && payload[i].description == queries[i].Description()
      && payload[i].parameters == queries[i].parameters
    ensures forall i :: 0 <= i < |queries| ==> payload[i].cypher == Strip(queries[i].Cypher())
  {
    payload := [];
    for j := 0 to |queries|
      invariant |payload| == j
      invariant forall i :: 0 <= i < j ==>
        payload[i] == QueryDescription(queries[i].Name(), queries[i].Description(), Strip(queries[i].Cypher()), queries[i].parameters)
    {
      var q := queries[j];
      payload := payload + [QueryDescription(q.Name(), q.Description(), Strip(q.Cypher()), q.parameters)];
    }
  }
}
