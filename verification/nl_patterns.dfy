/** The question patterns of the natural-language query interface and the Cypher each one runs.

    Every entry lists its regular expressions (as source text, matched by a search function the caller
    supplies), a description, and either a fixed query or a query template. A template is kept as the
    pieces it is written from: runs of literal text, with braces as they appear in the query, and named
    fields; the template's text, with braces doubled, is `Unparse` of the pieces and is character for
    character the text of `scripts/nl_query.py`. A pattern longer than forty characters is written as
    two concatenated halves; the value is the same string. */
module NlPatterns {
  import opened PyFormat

  /** Which result formatter an entry names. */
  datatype Formatter =
    | Concessions | RoundDecisions | ClauseSearch | ActorDecisions | UnfavorableTerms
    | MatterOverview | ClauseHistory | Statistics | DecisionDistribution

  /** An entry's query: a `cypher` string run as it is, or a `cypher_template` filled from parameters. */
  datatype QuerySource = Fixed(cypher: string) | Template(pieces: seq<Piece>)

  datatype PatternSpec = PatternSpec(patterns: seq<string>, description: string, source: QuerySource, formatter: Formatter)
  {
    /** `pattern_dict.get("cypher_template", "")`: the template text, or empty for a fixed query. */
    function TemplateText(): string {
      match source
      case Fixed(_) => ""
      case Template(ps) => Unparse(ps)
    }

    /** The named fields of the template, in order; none for a fixed query. */
    function Fields(): seq<string> {
      match source
      case Fixed(_) => []
      case Template(ps) => SlotNamesFrom(ps, 0)
    }
  }

  const ConcessionsPatterns: seq<string> := [
    @"show.*concession",
    @"find.*concession",
    @"list.*concession",
    @"what concession",
    @"all concession",
    @"get.*concession"]
  const ConcessionsDescription := @"Find all concessions made during negotiations"
  const ConcessionsCypher := @"
                    MATCH (d:Decision)-[:RESULTED_IN_CONCESSION]->(con:Concession)
                    MATCH (c:Clause {clause_id: con.clause_id})
                    RETURN con.matter_id as matter,
                           c.clause_number as clause,
                           c.title as clause_title,
                           d.actor as who_made_it,
                           con.description as what_happened,
                           con.impact as impact_level,
                           con.rationale as why,
                           d.timestamp as when
                    ORDER BY d.timestamp
                "
  const ConcessionsSpec := PatternSpec(ConcessionsPatterns, ConcessionsDescription, Fixed(ConcessionsCypher), Concessions)

  const RoundDecisionsPatterns: seq<string> := [
    @"what.*(?:agree|agreed).*" + @"(?:round|version)\s*(\d+)",
    @"show.*(?:round|version)\s*(\d+)",
    @"(?:round|version)\s*(\d" + @"+).*(?:decision|change)"]
  const RoundDecisionsDescription := @"Show decisions made in a specific round/version"
  const RoundDecisionsText0 := @"
                    MATCH (m:Matter {version: "
  const RoundDecisionsText2 := @"})
                    MATCH (c:Clause {matter_id: m.matter_id, version: "
  const RoundDecisionsText4 := @"})
                    OPTIONAL MATCH (c)-[:HAS_RECOMMENDATION]->(r:Recommendation)
                    OPTIONAL MATCH (r)-[:HAS_DECISION]->(d:Decision)
                    RETURN m.matter_id as matter,
                           m.version as version,
                           c.clause_number as clause,
                           c.title as clause_title,
                           r.classification as recommendation,
                           d.decision_type as decision,
                           d.actor as who_decided,
                           d.notes as notes
                    ORDER BY c.clause_number
                "
  const RoundDecisionsTemplate: seq<Piece> := [Text(RoundDecisionsText0), Slot("version"), Text(RoundDecisionsText2), Slot("version"), Text(RoundDecisionsText4)]
  const RoundDecisionsSpec := PatternSpec(RoundDecisionsPatterns, RoundDecisionsDescription, Template(RoundDecisionsTemplate), RoundDecisions)

  const ClauseSearchPatterns: seq<string> := [
    @"find.*(?:clause|clauses).*(?:about|co" + @"ntain|with|re:?)?\s+['\""]?(\w+)['\""]?",
    @"show.*(?:clause|clauses).*(?:about|co" + @"ntain|with|re:?)?\s+['\""]?(\w+)['\""]?",
    @"search.*(?:clause|clau" + @"ses).*['\""]?(\w+)['\""]?",
    @"(liability|indemnit|warrant|termination" + @"|payment|data|ip|intellectual)\s*clause"]
  const ClauseSearchDescription := @"Find clauses containing specific terms"
  const ClauseSearchText0 := @"
                    MATCH (c:Clause)
                    WHERE toLower(c.title) CONTAINS toLower('"
  const ClauseSearchText2 := @"')
                       OR toLower(c.category) CONTAINS toLower('"
  const ClauseSearchText4 := @"')
                    RETURN DISTINCT c.matter_id as matter,
                           c.version as version,
                           c.clause_number as clause,
                           c.title as title,
                           c.category as category
                    ORDER BY c.matter_id, c.version, c.clause_number
                "
  const ClauseSearchTemplate: seq<Piece> := [Text(ClauseSearchText0), Slot("keyword"), Text(ClauseSearchText2), Slot("keyword"), Text(ClauseSearchText4)]
  const ClauseSearchSpec := PatternSpec(ClauseSearchPatterns, ClauseSearchDescription, Template(ClauseSearchTemplate), ClauseSearch)

  const ActorDecisionsPatterns: seq<string> := [
    @"(?:decision|review|work).*(?:by|from|mad" + @"e by)\s+([A-Z][a-z]+(?:\s+[A-Z][a-z]+)?)",
    @"what.*([A-Z][a-z]+(?:\s+[A-Z][" + @"a-z]+)?)\s+(?:decide|review|do)",
    @"show.*([A-Z][a-z]+(?:\s+[A-Z][a-z]" + @"+)?)'?s?\s+(?:decision|review|work)"]
  const ActorDecisionsDescription := @"Show decisions made by a specific person"
  const ActorDecisionsText0 := @"
                    MATCH (d:Decision {actor: '"
  const ActorDecisionsText2 := @"'})
                    MATCH (r:Recommendation)-[:HAS_DECISION]->(d)
                    MATCH (c:Clause)-[:HAS_RECOMMENDATION]->(r)
                    RETURN d.matter_id as matter,
                           c.clause_number as clause,
                           c.title as clause_title,
                           r.classification as recommendation_type,
                           d.decision_type as decision,
                           d.timestamp as when,
                           LEFT(d.notes, 100) as notes
                    ORDER BY d.timestamp
                "
  const ActorDecisionsTemplate: seq<Piece> := [Text(ActorDecisionsText0), Slot("actor"), Text(ActorDecisionsText2)]
  const ActorDecisionsSpec := PatternSpec(ActorDecisionsPatterns, ActorDecisionsDescription, Template(ActorDecisionsTemplate), ActorDecisions)

  const UnfavorableTermsPatterns: seq<string> := [
    @"unfavorable",
    @"(?:bad|problematic|ri" + @"sky)\s+(?:term|clause)",
    @"(?:issue|problem|concern|risk).*clause"]
  const UnfavorableTermsDescription := @"Find all unfavorable terms flagged in reviews"
  const UnfavorableTermsCypher := @"
                    MATCH (c:Clause)-[:HAS_RECOMMENDATION]->(r:Recommendation {classification: 'unfavorable'})
                    OPTIONAL MATCH (r)-[:HAS_DECISION]->(d:Decision)
                    RETURN c.matter_id as matter,
                           c.version as version,
                           c.clause_number as clause,
                           c.title as clause_title,
                           r.issue_type as issue,
                           d.decision_type as decision,
                           d.actor as reviewed_by
                    ORDER BY c.matter_id, c.version, c.clause_number
                    LIMIT 20
                "
  const UnfavorableTermsSpec := PatternSpec(UnfavorableTermsPatterns, UnfavorableTermsDescription, Fixed(UnfavorableTermsCypher), UnfavorableTerms)

  const MatterOverviewPatterns: seq<string> := [
    @"(?:overview|summary|status)." + @"*(?:matter|contract)\s+(\w+)",
    @"(?:matter|contract)\s+(\w+)\" + @"s+(?:overview|summary|status)",
    @"show.*(?:matter|contract)\s+(\w+)"]
  const MatterOverviewDescription := @"Show overview of a specific matter"
  const MatterOverviewText0 := @"
                    MATCH (m:Matter {matter_id: '"
  const MatterOverviewText2 := @"'})
                    OPTIONAL MATCH (c:Clause {matter_id: '"
  const MatterOverviewText4 := @"', version: m.version})
                    OPTIONAL MATCH (c)-[:HAS_RECOMMENDATION]->(r:Recommendation)
                    OPTIONAL MATCH (r)-[:HAS_DECISION]->(d:Decision)
                    OPTIONAL MATCH (d)-[:RESULTED_IN_CONCESSION]->(con:Concession)
                    RETURN m.matter_id as matter,
                           m.version as version,
                           m.matter_type as type,
                           m.timestamp as last_updated,
                           COUNT(DISTINCT c) as total_clauses,
                           COUNT(DISTINCT r) as recommendations,
                           COUNT(DISTINCT d) as decisions,
                           COUNT(DISTINCT con) as concessions
                    ORDER BY m.version
                "
  const MatterOverviewTemplate: seq<Piece> := [Text(MatterOverviewText0), Slot("matter_id"), Text(MatterOverviewText2), Slot("matter_id"), Text(MatterOverviewText4)]
  const MatterOverviewSpec := PatternSpec(MatterOverviewPatterns, MatterOverviewDescription, Template(MatterOverviewTemplate), MatterOverview)

  const ClauseHistoryPatterns: seq<string> := [
    @"(?:track|history|evolut" + @"ion).*clause\s+([\d.]+)",
    @"clause\s+([\d.]+).*(?:" + @"change|history|version)",
    @"how.*clause\s+([\d.]" + @"+).*(?:change|evolve)"]
  const ClauseHistoryDescription := @"Track how a specific clause evolved across versions"
  const ClauseHistoryText0 := @"
                    MATCH (c:Clause {clause_number: '"
  const ClauseHistoryText2 := @"'})
                    OPTIONAL MATCH (c)-[:HAS_RECOMMENDATION]->(r:Recommendation)
                    OPTIONAL MATCH (r)-[:HAS_DECISION]->(d:Decision)
                    RETURN c.matter_id as matter,
                           c.version as version,
                           c.clause_number as clause,
                           c.title as title,
                           r.classification as recommendation,
                           r.issue_type as issue,
                           d.decision_type as decision
                    ORDER BY c.matter_id, c.version
                "
  const ClauseHistoryTemplate: seq<Piece> := [Text(ClauseHistoryText0), Slot("clause_number"), Text(ClauseHistoryText2)]
  const ClauseHistorySpec := PatternSpec(ClauseHistoryPatterns, ClauseHistoryDescription, Template(ClauseHistoryTemplate), ClauseHistory)

  const StatisticsPatterns: seq<string> := [
    @"(?:statistics|stats|count)",
    @"how many",
    @"total.*(?:clause|recommend" + @"ation|decision|concession)"]
  const StatisticsDescription := @"Show overall system statistics"
  const StatisticsCypher := @"
                    MATCH (m:Matter)
                    WITH COUNT(DISTINCT m) as matters
                    MATCH (p:Party)
                    WITH matters, COUNT(DISTINCT p) as parties
                    MATCH (c:Clause)
                    WITH matters, parties, COUNT(DISTINCT c) as clauses
                    OPTIONAL MATCH (r:Recommendation)
                    WITH matters, parties, clauses, COUNT(DISTINCT r) as recommendations
                    OPTIONAL MATCH (d:Decision)
                    WITH matters, parties, clauses, recommendations, COUNT(DISTINCT d) as decisions
                    OPTIONAL MATCH (con:Concession)
                    RETURN matters, parties, clauses, recommendations, decisions, COUNT(DISTINCT con) as concessions
                "
  const StatisticsSpec := PatternSpec(StatisticsPatterns, StatisticsDescription, Fixed(StatisticsCypher), Statistics)

  const DecisionDistributionPatterns: seq<string> := [
    @"decision.*(?:distrib" + @"ution|breakdown|type)",
    @"(?:apply|override|defer).*decision"]
  const DecisionDistributionDescription := @"Show breakdown of decision types"
  const DecisionDistributionCypher := @"
                    MATCH (d:Decision)
                    WITH COUNT(d) as total
                    MATCH (d2:Decision)
                    WITH d2.decision_type as decision_type, COUNT(d2) as count, total
                    RETURN decision_type, count, ROUND(100.0 * count / total) as percentage
                    ORDER BY count DESC
                "
  const DecisionDistributionSpec := PatternSpec(DecisionDistributionPatterns, DecisionDistributionDescription, Fixed(DecisionDistributionCypher), DecisionDistribution)

  /** The entries in the order `match_query` tries them. */
  const Table: seq<PatternSpec> := [ConcessionsSpec, RoundDecisionsSpec, ClauseSearchSpec, ActorDecisionsSpec, UnfavorableTermsSpec, MatterOverviewSpec, ClauseHistorySpec, StatisticsSpec, DecisionDistributionSpec]

  /** The suggestions offered when no pattern matches. */
  const ExampleQuestions: seq<string> := [
    @"Show me all concessions",
    @"What did we agree to in round 2?",
    @"Find liability clauses",
    @"What did Sarah Chen decide?",
    @"Show unfavorable terms",
    @"Overview of matter_001",
    @"Track clause 1.1 history",
    @"How many clauses are there?",
    @"Show decision distribution"]
}
