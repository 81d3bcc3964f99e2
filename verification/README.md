# Negotiation continuity: a Dafny model of the question interpreter and its helpers

This project models the deterministic core of a contract-negotiation knowledge graph. The graph records matters, document versions, clauses, agent recommendations, user decisions and concessions. The model covers the parts that do not depend on the graph database, and proves properties of each.

- **Natural-language query interface** (`scripts/nl_query.py`):
  - the ordered table of question patterns, with their Cypher queries and templates (`NlPatterns`);
  - matching a lower-cased, stripped question against the table and reading one parameter off the match (`NlMatch`);
  - building the Cypher text, with the `keyword` fallback and Python's `str.format` (`PyFormat`, `NlQuery`);
  - the four outcomes: not understood, success, execution error, and an exception that escapes;
  - the parameter reading as the program has it, and a corrected one (see Findings), both selectable in the matcher;
  - the nine result formatters (`NlFormat`).
- **Identifiers** (`models/ids.py`): whitespace normalisation and the SHA-256 pre-images of the canonical ids (`Ids`).
- **Entity records** (`models/entities.py`): closed value sets, defaults and the trim-or-None validators (`Entities`).
- **KPI catalogue** (`analytics/kpi_queries.py`): binding caller parameters to the four templates, and describing the result (`KpiQueries`).
- **Synthetic data generator** (`scripts/generate/synthetic_data.py`):
  - placeholder substitution;
  - the deterministic clause mutations;
  - id generation;
  - the recommendation and concession gates (`SyntheticData`).
- **Document comparison and extraction** (`scripts/compare_contracts.py`, `scripts/extract_docx.py`):
  - sorting diff lines;
  - the heading tests;
  - paragraph and table extraction (`CompareContracts`, `ExtractDocx`, `Headings`).
- **Cypher text writers** (`scripts/export_to_cloud.py`, `scripts/export_to_cypher_file.py`, `scripts/ingest/basic_ingestion.py`): value escaping, property lists and statement lines (`CypherExport`, `BasicIngestion`, `Escapes`).
- **Payload summary** (`scripts/ingest/load_graphiti.py`): counting the collections of a batch of JSON payloads (`LoadGraphiti`).

Three external services are parameters of the model:

- The regular-expression engine is a search function from a pattern and a text to the capture groups of the first match.
- The graph store is a function from query text to rows or an error message.
- SHA-256 is any function that returns 64 lower-case hex digits.

Python's string operations that the code relies on are defined in `PyStr`. They cover `strip`, `split`, `lower`, `title`, `in`, `replace`, `int` and `str`. `Values` holds the scalar values that flow between the graph store and the renderers.

Escaping is checked against `Escapes.Unescape`, an independent reader of Cypher string literals. The two exporters' escapers are proved to be read back by it as the original text. `clean_string_for_cypher` is proved to read back, for backslash-free text, as the original with its newlines turned into spaces; a value ending in a backslash does not read back.

The pattern table in `nl_patterns.dfy` holds the source's regular expressions, descriptions and Cypher text character for character. Each template is kept as the pieces it is written from: literal text and named fields. `Unparse` turns the pieces back into the source's format string, with doubled braces. A pattern longer than forty characters is written as two concatenated halves; the string value is the same.

## Model

| member | source | states |
|---|---|---|
| BasicIngestion.CleanIsMap | scripts/ingest/basic_ingestion.py:18-20 | the three chained `replace` calls rewrite each character on its own: `'` becomes `\'`, `"` becomes `\"`, a newline becomes a space, and every other character (backslash included) is copied |
| BasicIngestion.CleanSingleLine | scripts/ingest/basic_ingestion.py:18-20 | the cleaned string never contains a newline |
| BasicIngestion.CleanReadsBack | scripts/ingest/basic_ingestion.py:18-20 | for backslash-free text, the cleaned value read back as a single-quoted Cypher literal is the text with newlines turned into spaces |
| BasicIngestion.CleanTrailingBackslashBreaksLiteral | scripts/ingest/basic_ingestion.py:18-20 | backslashes are not escaped: the cleaned form of `a\` escapes the closing quote and does not read back |
| BasicIngestion.TextPreview | scripts/ingest/basic_ingestion.py:93-101 | the clause preview ends in `...` and holds no newline |
| BasicIngestion.PreviewReadsBack | scripts/ingest/basic_ingestion.py:93-101 | for backslash-free text, the preview literal reads back as the first 200 characters (newlines as spaces) followed by `...` |
| CompareContracts.ClassifyDiff | scripts/compare_contracts.py:34-67 | removed and added are the texts after the two-character tag of the `- ` and `+ ` lines, in diff order; modified stays empty; the paragraph counts are copied; total_changes is the number of removals plus additions |
| CompareContracts.TaggedDisjoint | scripts/compare_contracts.py:45-65 | removals plus additions never exceed the number of diff lines |
| CompareContracts.TaggedMembers | scripts/compare_contracts.py:49-59 | a text is a removal (addition) exactly when some `- ` (`+ `) line carries it |
| CompareContracts.IdentifyClauseChanges | scripts/compare_contracts.py:70-105 | at most one entry per removed or added line; every removal entry precedes every addition entry; each entry's clause is the first 100 characters of its full text |
| CompareContracts.HeaderChangesReport | scripts/compare_contracts.py:80-103 | within one list, a line is reported exactly when it is in the list and passes one of the three heading tests |
| CompareContracts.RemovedReported | scripts/compare_contracts.py:80-91 | a line is reported with type removed exactly when it is a removed line that looks like a clause header |
| CompareContracts.AddedReported | scripts/compare_contracts.py:93-103 | a line is reported with type added exactly when it is an added line that looks like a clause header |
| CompareContracts.ReportedInOrder | scripts/compare_contracts.py:80-103 | the reported lines of one list are an order-preserving subsequence of that list |
| CompareContracts.NumberedHeadingReported | scripts/compare_contracts.py:82-85 | a line whose stripped text is a digit 1-9, an optional second digit, then a dot, is reported whatever its indentation |
| Headings.StartsWithNumberedShape | scripts/compare_contracts.py:83 | `startswith` over the 99 prefixes `1.`..`99.` holds exactly when the text starts with a non-zero digit, an optional digit, and a dot |
| CypherExport.EscapeQuotedIsMap | scripts/export_to_cloud.py:228 | doubling backslashes and then escaping double quotes rewrites each character on its own: `\` becomes `\\`, `"` becomes `\"` |
| CypherExport.EscapeMultilineIsMap | scripts/export_to_cypher_file.py:41 | the file exporter's three `replace` calls rewrite each character on its own, a newline becoming `\n` |
| CypherExport.EscapeQuotedReadsBack | scripts/export_to_cloud.py:228-230 | the cloud-escaped value, read back as the body of a double-quoted literal, is the original string |
| CypherExport.EscapeMultilineReadsBack | scripts/export_to_cypher_file.py:41-42 | the file-escaped value, read back as the body of a double-quoted literal, is the original string |
| CypherExport.EscapeMultilineSingleLine | scripts/export_to_cypher_file.py:41 | a file-escaped value contains no raw newline |
| CypherExport.EscapeQuotedKeepsNewlines | scripts/export_to_cloud.py:142 | the cloud exporter leaves newlines alone: the escaped value has a newline exactly when the input does |
| CypherExport.IdField | scripts/export_to_cloud.py:214-224 | the identity field is the six-entry label table's entry, or `id` for any other label |
| CypherExport.Lookup | scripts/export_to_cloud.py:225 | `properties.get`: absent exactly when no entry has the key, otherwise the value of an entry with that key |
| CypherExport.GetIdProperty | scripts/export_to_cloud.py:212-230 | renders when the identity is missing or a string, and then parses back as the identity field and the stored string (empty when missing); a non-string identity raises on `replace` |
| CypherExport.GetIdMatch | scripts/export_to_cypher_file.py:85-102 | renders under the same conditions as the cloud exporter and parses back with the same identity field |
| CypherExport.IdPropertyParses | scripts/export_to_cloud.py:230 | `field: "escaped"` with a colon-free field splits back into the field and the original value |
| CypherExport.RenderProp | scripts/export_to_cypher_file.py:39-46 | a string is quoted and escaped for the exporter, a bool is `true`/`false`, `None` is dropped, anything else is its `str()` |
| CypherExport.Present | scripts/export_to_cloud.py:139-149 | the kept entries are the properties filtered by `value is not None`, in property order |
| CypherExport.PresentSelects | scripts/export_to_cloud.py:139-149 | the kept entries are read at exactly the positions whose value is not `None`, in increasing order; an entry is kept exactly when it is a property with a value |
| CypherExport.PresentAll | scripts/export_to_cloud.py:139-149 | with no `None` value, every property is written, in order |
| CypherExport.PropParts | scripts/export_to_cloud.py:138-149 | one rendered part per present property, in property order, each as `RenderProp` gives it |
| CypherExport.CreateLine | scripts/export_to_cypher_file.py:48-49 | the statement opens with `CREATE (:Type {`, closes with `})`, and between them holds the rendered parts joined by `, ` |
| CypherExport.RelationshipLines | scripts/export_to_cypher_file.py:75-79 | two lines: a MATCH on both endpoints' identity renderings, then `CREATE (a)-[:REL]->(b)`; fails exactly when an endpoint's identity does |
| CypherExport.FilePropsSingleLine | scripts/export_to_cypher_file.py:38-48 | with newline-free keys and non-string renderings, the file exporter's property list is one line |
| Entities.TrimToNone | models/entities.py:70-74 | the `suggested_language` validator, and the identical `notes` validator at models/entities.py:111-115: `None` when the input is `None` or all whitespace; otherwise the stripped text, non-empty and without whitespace at either end |
| Entities.TrimToNoneIdempotent | models/entities.py:70-74 | validating an already validated value changes nothing |
| Entities.NewParty | models/entities.py:9-16 | accepted exactly when the role is one of the five roles and the entity type is absent or one of the four types; each rejected field is reported |
| Entities.NewDocVersion | models/entities.py:29-37 | accepted exactly when the source is customer, counterparty or agent; otherwise the error names `source` |
| Entities.NewClause | models/entities.py:40-56 | a fresh clause has no tags, an empty playbook-flag map, and unset hash and offsets |
| Entities.NewAgentRecommendation | models/entities.py:59-74 | accepted exactly when severity, suggested action and (given) status are in their closed sets; status defaults to `pending`; the language passes through the validator; each rejected field is reported |
| Entities.NewSuggestedEdit | models/entities.py:77-84 | accepted exactly when the operation is insert, replace or delete |
| Entities.NewRationale | models/entities.py:87-93 | accepted exactly when the reasoning type is absent or allowed and the confidence is absent or within 0..1 |
| Entities.NewUserDecision | models/entities.py:96-115 | accepted exactly when the decision type is one of the four and the (given) status is allowed; status defaults to `logged`; notes pass through the validator |
| Entities.NewConcession | models/entities.py:118-125 | accepted exactly when the trigger is user_initiated or counterparty_pressure |
| Entities.NewEpisode | models/entities.py:136-149 | accepted exactly when the episode type is one of the four; metadata defaults to an empty map |
| Entities.RecommendationFieldsClosed | models/entities.py:63-74 | a validated recommendation carries allowed severity, action and status, and never a whitespace-only language |
| Ids.HashParts | models/ids.py:17-22 | the identifier is 64 lower-case hex digits |
| Ids.HashPreimageAppend | models/ids.py:19-21 | the hashed text of a concatenation of part lists is the concatenation of their hashed texts, each part followed by two vertical bars |
| Ids.PreimageChangesWithOnePart | models/ids.py:17-22 | changing exactly one part, all others fixed, changes the hashed text |
| Ids.NormalizeText | models/ids.py:10-14 | `None` gives ""; the result has no outer whitespace and its only whitespace is single spaces between words |
| Ids.NormalizeIsJoinOfWords | models/ids.py:13 | stripping and then collapsing whitespace runs equals joining the text's words with single spaces |
| Ids.SplitOfJoin | models/ids.py:13 | splitting words joined by single spaces gives the words back |
| Ids.NormalizeIdempotent | models/ids.py:10-14 | normalising normalised text changes nothing |
| Ids.NormalizeLayoutInsensitive | models/ids.py:10-14 | texts with the same words normalise alike, however their whitespace is laid out |
| Ids.LowerNormalize | models/ids.py:26 | lower-casing after normalising equals normalising the lower-cased text |
| Ids.CanonicalDocId | models/ids.py:25-27 | the document id is a 64-digit hex digest |
| Ids.KeyIgnoresCaseAndLayout | models/ids.py:26 | `normalize_text(s).lower()` is the same for two texts with the same lower-cased words |
| Ids.DocIdIgnoresCaseAndLayout | models/ids.py:25-27 | two documents whose matter ids agree after stripping and whose titles have the same lower-cased words get the same id |
| Ids.CanonicalVersionId | models/ids.py:30-42 | the version id is a 64-digit hex digest |
| Ids.VersionIdIgnoresCaseAndLayout | models/ids.py:36-42 | file names and uploaders with the same lower-cased words, such as names differing only in case, give the same version id, as ids.py:38 hashes `normalize_text(x).lower()` |
| Ids.VersionPreimageChangesWithFileName | models/ids.py:36-42 | file names that still differ after normalising and lower-casing (`normalize_text(x).lower()`) give different hashed texts; names differing only in case hash alike |
| Ids.OffsetText | models/ids.py:55-56 | an offset renders as "" exactly when it is missing or 0 |
| Ids.CanonicalClauseId | models/ids.py:45-59 | the clause id is a 64-digit hex digest |
| Ids.ClauseIdZeroOffsetIsMissing | models/ids.py:52-58 | a start or end offset of 0 gives the same clause id as a missing one, and an empty text hash the same as a missing one |
| Ids.ClauseIdNonZeroOffsetDiffers | models/ids.py:52-58 | a non-zero start offset gives a different hashed text from a missing one |
| Ids.CanonicalRecommendationId | models/ids.py:62-67 | the recommendation id is a 64-digit hex digest |
| Ids.RecommendationIdIgnoresIssueLayout | models/ids.py:67 | issue types with the same lower-cased words give the same recommendation id |
| Ids.CanonicalDecisionId | models/ids.py:70-71 | the decision id is a 64-digit hex digest, so it has the length of every other id |
| Ids.DecisionIdIgnoresActorLayout | models/ids.py:71 | actors with the same lower-cased words give the same decision id |
| Ids.KeyedPreimageChangesWithName | models/ids.py:62-71 | issue types (for recommendation ids) or actors (for decision ids) that still differ after normalising and lower-casing (`normalize_text(x).lower()`) give different hashed texts; names differing only in case hash alike |
| KpiQueries.QueryTemplate.WithParameters | analytics/kpi_queries.py:13-14 | the query keeps the template and exactly the given parameters, and its name, Cypher and description are the template's |
| KpiQueries.KeySubset | analytics/kpi_queries.py:125-129 | a parameter is kept exactly when its key occurs in the template's Cypher text; values are unchanged and no key is added |
| KpiQueries.BindTemplates | analytics/kpi_queries.py:122-131 | one query per template, in template order, each bound to the parameters its Cypher mentions |
| KpiQueries.BuildQueries | analytics/kpi_queries.py:113-131 | exactly one query per default template, in the templates' order, with the filtered parameters |
| KpiQueries.DescribeQueries | analytics/kpi_queries.py:134-145 | one description per query, in order, with name, description and parameters copied and the Cypher stripped of outer whitespace |
| LoadGraphiti.BadKey | scripts/ingest/load_graphiti.py:69-78 | absent exactly when every counted key the payload has holds a value with a length; otherwise the first counted key, in the loop's order, whose value has none |
| LoadGraphiti.SummarizePayloads | scripts/ingest/load_graphiti.py:60-79 | succeeds exactly when every payload's counted values have lengths; then each of the five counts is the sum of the lengths over the payloads holding that key; otherwise the error names a bad key of a payload all of whose predecessors are fine |
| LoadGraphiti.TotalAppend | scripts/ingest/load_graphiti.py:68-78 | the count over two concatenated batches is the sum of the two batches' counts |
| LoadGraphiti.TotalOfUnrelated | scripts/ingest/load_graphiti.py:68-78 | payloads that lack a key contribute nothing to its count |
| ExtractDocx.AsParagraphs | scripts/extract_docx.py:37-40 | each kept paragraph records its text as read and its style name, or `Normal` when it has none |
| ExtractDocx.KeptParagraphsSelect | scripts/extract_docx.py:35-40 | the kept paragraphs are exactly the paragraphs with text left after stripping, in document order, each with its style name |
| ExtractDocx.KeptParagraphsHaveText | scripts/extract_docx.py:36 | no kept paragraph is blank |
| ExtractDocx.StripCells | scripts/extract_docx.py:47-52 | the tables keep their shape and every cell is its stripped text |
| ExtractDocx.StripCellsIdempotent | scripts/extract_docx.py:50 | trimming already trimmed cells changes nothing |
| ExtractDocx.StylesOfMembers | scripts/extract_docx.py:41 | a style is in the used set exactly when some kept paragraph has it |
| ExtractDocx.ExtractStructure | scripts/extract_docx.py:13-57 | the filename is copied; the paragraphs are the kept ones; total_paragraphs and total_chars count them and their characters, total_tables counts the tables; cells are trimmed; styles_used is strictly sorted and holds exactly the kept paragraphs' styles |
| ExtractDocx.StylesUsed | scripts/extract_docx.py:41-55 | the style list is strictly sorted and holds exactly the styles of the given paragraphs |
| ExtractDocx.StylesUsedIsSortedSet | scripts/extract_docx.py:55 | any strictly sorted list with the same members equals styles_used, so it is `sorted(set(...))` |
| ExtractDocx.Candidate | scripts/extract_docx.py:111-115 | a candidate has the stripped text, that text's first 100 characters as title, and the paragraph's style |
| ExtractDocx.IdentifyClauses | scripts/extract_docx.py:91-117 | at most one candidate per paragraph, each with a title of at most 100 characters that begins its full text |
| ExtractDocx.IdentifyClausesSelects | scripts/extract_docx.py:100-117 | the candidates come from exactly the paragraphs that pass one of the four heading tests, in document order, one each |
| ExtractDocx.CandidatesAreTrimmed | scripts/extract_docx.py:101 | every candidate's full text has no outer whitespace |
| ExtractDocx.HeadingStyleOrNumberIsCandidate | scripts/extract_docx.py:105-110 | a paragraph in a Heading 1-3 style, or whose stripped text starts with a one- or two-digit number and a dot, is a candidate |
| SyntheticData.GenerateId | scripts/generate/synthetic_data.py:337-341 | the id is the prefix, `_`, and 16 lower-case hex digits |
| SyntheticData.Lookup | scripts/generate/synthetic_data.py:361-364 | a value is found exactly when some keyword argument has that name |
| SyntheticData.FormatText | scripts/generate/synthetic_data.py:349-366 | the loop computes the reference two-pass substitution: every argument in order (`{key}` by its text, `{key.subkey}` per dictionary entry), then leftover `{provider}` and `{customer}` |
| SyntheticData.FirstPassAppend | scripts/generate/synthetic_data.py:352-358 | substituting the arguments `a + b` is substituting `a` and then `b` |
| SyntheticData.FormatUnchangedWithoutPlaceholders | scripts/generate/synthetic_data.py:349-366 | a template containing none of the placeholders the arguments could fill comes back unchanged |
| SyntheticData.FormatWithoutArguments | scripts/generate/synthetic_data.py:349-366 | with no keyword arguments the template comes back unchanged |
| SyntheticData.MutateClause | scripts/generate/synthetic_data.py:413-469 | clause number, title and category are kept, the version is set, an unknown mutation keeps the text, and the id is generated from the clause number and the first 50 characters of the new text |
| SyntheticData.AddReciprocalIdempotent | scripts/generate/synthetic_data.py:454-457 | adding the reciprocity sentence twice is adding it once |
| SyntheticData.AddReciprocalGate | scripts/generate/synthetic_data.py:456 | the text changes exactly when the customer is named and `Each Party` is absent |
| SyntheticData.QualifiedLiabilityIsDirect | scripts/generate/synthetic_data.py:441-442 | after the `liable for` rewrite the text mentions `direct`, so the gate is closed for a second application |
| SyntheticData.AddQualifierClosedGates | scripts/generate/synthetic_data.py:437-442 | when neither gate is open the text is unchanged |
| SyntheticData.AddQualifierMakesLiabilityDirect | scripts/generate/synthetic_data.py:437-442 | when only the `liable for` gate is open, the result mentions `direct` |
| SyntheticData.DeleteExpansiveShrinks | scripts/generate/synthetic_data.py:431-435 | `delete_expansive` never lengthens the text |
| SyntheticData.Probability | scripts/generate/synthetic_data.py:488-494 | every table entry lies between 0 and 0.8 |
| SyntheticData.ShouldGenerateRecommendation | scripts/generate/synthetic_data.py:476-495 | an unknown template key raises; otherwise a recommendation is generated exactly when the draw is below the table probability |
| SyntheticData.NoRecommendationAtZeroProbability | scripts/generate/synthetic_data.py:488-495 | a version outside 1..4, or a low-intensity clause at version 4, never yields a recommendation |
| SyntheticData.HighIntensityDominatesLow | scripts/generate/synthetic_data.py:488-492 | at every version, low intensity is no more likely than medium, and medium no more likely than high |
| SyntheticData.ShouldGenerateConcession | scripts/generate/synthetic_data.py:660-670 | false unless the decision is an override of an unfavorable recommendation, and then exactly when the draw is below 0.5 |
| PyFormat.FieldNamesMembers | scripts/nl_query.py:333 | the listed field names are exactly the non-empty names of the template's fields |
| PyFormat.FillOkIff | scripts/nl_query.py:350 | `format(**params)` succeeds exactly when every field is a named field with an argument; otherwise the error names a positional field or a missing key, and a missing key is one of the listed field names |
| PyFormat.ParseUnparse | scripts/nl_query.py:333 | a template written from text runs (braces doubled) and plain named fields parses back into exactly those characters and fields |
| PyFormat.FieldNamesExplodeFrom | scripts/nl_query.py:333 | the field names listed for such a template are its named fields, in order |
| PyFormat.FillExplodeFrom | scripts/nl_query.py:350 | when every field has an argument, formatting the template gives its text with each field replaced by its argument's `str()` |
| NlMatch.FirstHitFrom | scripts/nl_query.py:274-277 | a hit is a pattern at or after the starting position, in table order, that the search finds, with the groups it found |
| NlMatch.FirstHitFromIsFirst | scripts/nl_query.py:274-277 | no pattern between the starting position and the hit is found, and with no hit no pattern from the start on is found |
| NlMatch.FirstTermFromSpec | scripts/nl_query.py:297-300 | the term chosen is the first domain term, in list order, that occurs in the question, and none is chosen exactly when none occurs |
| NlMatch.InferParams | scripts/nl_query.py:279-300 | the corrected reading of these lines (see Findings), which the intended matcher uses: without groups only `keyword` can be set; with groups exactly one parameter is set, `version` exactly for a round or version pattern of an entry whose template has a `version` field (holding the parsed integer, and raising when the capture is not a number), otherwise the capture or its title case |
| NlMatch.InferParamsAsWritten | scripts/nl_query.py:279-300 | the reading `match_query` has: with a capture, a pattern mentioning `round` or `version` sets `version` alone, to the parsed integer, and raises exactly when the capture is not a number; any other case agrees with the corrected reading |
| NlMatch.InferParamsPriority | scripts/nl_query.py:280-291 | with a capture, under either reading: the version test gives `version` through `int`; otherwise exactly one parameter holds the capture, chosen in priority order — `clause_number` for a clause pattern whose template mentions it, then `matter_id` for a matter pattern, then `actor` in title case for a template mentioning `actor`, else `keyword` |
| NlMatch.MatchQuery | scripts/nl_query.py:265-304 | `match_query` under the `AsWritten` reading (the corrected one under `Intended`): a match names an entry of the table |
| NlMatch.NoMatchIff | scripts/nl_query.py:272-304 | no match exactly when no pattern of the table is found in the lower-cased, stripped question |
| NlMatch.MatchIsFirst | scripts/nl_query.py:272-302 | when a pattern is found and no earlier pattern is, the match is that pattern's entry with the parameters read off its groups: under `AsWritten` exactly as lines 279-300 read them, including the `ValueError` of `int` |
| NlMatch.NoCaptureKeyword | scripts/nl_query.py:292-300 | without a capture, `keyword` is set exactly when the template mentions it and some domain term occurs, and it is then the first such term |
| NlFormat.FirstMisfitSpec | scripts/nl_query.py:394-395 | the position found is the first row of the wrong length, and none is found exactly when every row has the right length |
| NlFormat.FormatRows | scripts/nl_query.py:385-562 | no rows gives the formatter's fixed empty message, echoing the parameter it names or `?` |
| NlFormat.FormatRowsFailsIff | scripts/nl_query.py:385-562 | a formatter fails exactly when a row it unpacks has the wrong length (only the first row for the statistics), with Python's unpacking message for the first such row |
| NlFormat.StatisticsUseFirstRow | scripts/nl_query.py:529-547 | the statistics depend on the first row alone |
| NlFormat.RoundBlocksAreDecidedEntries | scripts/nl_query.py:414-422 | the round formatter's lines are the entries of exactly the rows with a truthy decision, in order, each numbered by its position among all rows |
| NlFormat.RoundBlocksEmptyIff | scripts/nl_query.py:414-422 | no entry lines exactly when no row has a decision, and otherwise at least four lines |
| NlFormat.RoundNothingRecordedIff | scripts/nl_query.py:405-424 | with rows present, the answer is "No decisions recorded for version V." exactly when no row carries a decision |
| NlQuery.FallbackFromIsFirst | scripts/nl_query.py:341-348 | the fallback keyword is the first word that is not a common word and is longer than two characters, and it is "" exactly when there is none |
| NlQuery.WithKeyword | scripts/nl_query.py:336-348 | only `keyword` can be added, and only when the template has it; every given parameter keeps its value |
| NlQuery.BuildCypher | scripts/nl_query.py:326-350 | a fixed query is used verbatim with the parameters unchanged; a built template's parameters are the given ones plus at most `keyword` |
| NlQuery.TemplateQuery | scripts/nl_query.py:328-350 | a template query is built exactly when every field other than `keyword` has a parameter, and is then the template with each field replaced; otherwise the `KeyError` names a field with no parameter |
| NlQuery.TemplateTokens | scripts/nl_query.py:333 | the template text parses back into its pieces, and the field names listed are its slots |
| NlQuery.Run | scripts/nl_query.py:357-379 | success reports the question, the entry's description, the row count, the formatted rows and the executed query; a store or formatting failure reports `Query execution error: ` and the query |
| NlQuery.ExecuteQuery | scripts/nl_query.py:314-321 | `execute_query` (under `AsWritten`): a question that is not understood gets the fixed error and the nine example questions |
| NlQuery.NotUnderstoodIff | scripts/nl_query.py:314-321 | the question is not understood exactly when no pattern is found in it |
| NlQuery.AnswerReportsRun | scripts/nl_query.py:306-379 | a success or an execution failure comes from a match, the query built for it and the store's answer to that query, as `Run` describes |
| NlQuery.ClauseHistoryShapeFacts | scripts/nl_query.py:197-205 | the clause-history template has exactly one field, `clause_number` |
| NlQuery.ClauseHistoryAsWrittenFails | scripts/nl_query.py:200 | as written, a capture by the second clause-history pattern either raises in `int` or becomes `version`, after which the template raises `KeyError('clause_number')` |
| NlQuery.ClauseHistoryAsWrittenExamples | scripts/nl_query.py:280-282 | `clause 1.1 history` raises in `int`; `clause 3 history` gives `version` 3 and then the missing `clause_number` |
| NlQuery.ClauseHistoryIntended | scripts/nl_query.py:283-284 | with the corrected version test, every clause-history pattern gives the clause number |
| NlQuery.ClauseHistoryIntendedQuery | scripts/nl_query.py:350 | with the clause number given, the clause-history query is its template with the number filled in |
| NlQuery.ClauseHistoryAnswerFails | scripts/nl_query.py:200 | as written, when the second clause-history pattern is the first found, `execute_query` raises: `ValueError` from `int` (line 282) for a capture that is not a number, otherwise `KeyError('clause_number')` from `template.format` (line 350) |
| NlQuery.ClauseHistoryAnswerIntended | scripts/nl_query.py:197-217 | with the corrected reading, a question first found by any clause-history pattern runs the template with the captured clause number filled in |
| NlQuery.ClauseNumberInTemplate | scripts/nl_query.py:205 | the clause-history template text mentions `clause_number` |
| PyStr.StripCutsOnlySpace | scripts/nl_query.py:272 | `strip()` removes only whitespace, and only from the two ends |
| PyStr.StripEmptyIffAllSpace | models/entities.py:74 | stripping leaves nothing exactly when the text is all whitespace |
| PyStr.StripIdempotent | scripts/extract_docx.py:101 | stripping stripped text changes nothing |
| PyStr.Title | scripts/nl_query.py:288 | `title()` upper-cases each letter that does not follow a letter and lower-cases each that does |
| PyStr.ParseInt | scripts/nl_query.py:282 | `int()` succeeds exactly on a non-empty run of decimal digits, giving a non-negative number |
| PyStr.ParseIntOfString | scripts/nl_query.py:282 | reading back a number's decimal text gives the number |
| PyStr.Find | scripts/generate/synthetic_data.py:440-442 | the position found is the first occurrence, and none is found exactly when the text does not occur |
| PyStr.ReplaceFirst | scripts/generate/synthetic_data.py:440-442 | `replace(old, new, 1)` replaces the first occurrence and changes nothing when there is none |
| PyStr.ReplaceAllAbsent | scripts/generate/synthetic_data.py:356-358 | replacing text that does not occur changes nothing |
| Values.Render | scripts/export_to_cypher_file.py:46 | `str()` of None is `None`, of a bool `True`/`False`, of a string the string itself, and of an integer its decimal text |

## Left out

- **The regex engine.** Python's regular-expression engine is not modelled. Matching goes through the search function parameter. Two consequences follow:
  - nothing is proved about which concrete question matches which entry;
  - two behaviours of the source are left unproved: the actor patterns test `[A-Z]` on text that was already lower-cased (`scripts/nl_query.py:122-124`, `:272`), and `Overview of matter_001` needs a space after `matter` (`scripts/nl_query.py:171-173`).
  - The `blank_numbers` and `numeric_compromise` mutations of the synthetic generator are a rewrite function parameter for the same reason. The second also depends on float multiplication.
- **The graph database.** FalkorDB connections, query execution and network code are not modelled; the store is a parameter. This covers ingestion, export, KPI measurement and connection tests.
- **SHA-256 and Unicode.**
  - SHA-256 and the UTF-8 encoding are an oracle whose only known fact is its output shape.
  - NFC normalisation is taken as the identity.
  - `lower`, `upper` and `title` act on ASCII letters only.
  - `int()` accepts only ASCII decimal digits: no sign, surrounding whitespace, underscores or non-ASCII digits.
- **Randomness and time.** `random.*`, `weighted_choice`, `datetime.now()` and the `generate_*` drivers are left out; they are nondeterministic. Where a gate draws a random number, the draw is a parameter: a real in [0, 1).
- **Floats.** Float values are carried as their `str()` text. The `confidence` bound is checked on reals.
- **Foreign libraries and output.** These are left out because they are foreign libraries or output only:
  - the difflib similarity ratios and python-docx file reading (the paragraphs, tables and diff lines arrive as values);
  - the Streamlit app, help text and console printing;
  - the typer CLI, directory iteration and pydantic datetime parsing.
- **Never reached or unused.**
  - `_format_generic` is never used, because every table entry names its formatter.
  - The "Query pattern configuration error" branch cannot be reached, because every entry has a `cypher` or a `cypher_template`.
  - The `requires_params` flag is never read.
- **Format fields.** `str.format` is modelled for literal text, doubled braces and plain named fields. A field with a conversion, a format spec, an attribute or index lookup, or a nested field is reported as unsupported; the query templates have none.
- **Other Python details.**
  - The unpacking error messages are those of Python 3.12 and earlier.
  - A capture group is assumed to have taken part in the match, so `group(1)` is a string.
  - `str()` of a dictionary argument to `format_text` is given as text.
  - Keyword arguments are a sequence; Python guarantees their names are distinct, and the model does not rely on it.
- **Weaker contracts.**
  - NlFormat.FormatRows: its contract fixes the empty-rows message. The failure condition and the round formatter's content are separate lemmas. The text of each formatter's entries is given only by its definition (`Block`), with no separate characterisation.
  - NlMatch.MatchQuery: its own contract states only that the entry comes from the table. The search order and the parameters are stated by `NoMatchIff`, `MatchIsFirst`, `InferParamsAsWritten` and `InferParams`.
  - NlQuery.ExecuteQuery: its own contract states only the not-understood answer. The other outcomes are stated by `NotUnderstoodIff`, `AnswerReportsRun` and, for the clause-history exceptions, `ClauseHistoryAnswerFails`.
  - Ids.CanonicalDocId: states the digest shape. What the hash depends on is stated by `DocIdIgnoresCaseAndLayout`.
  - Ids.CanonicalVersionId: states the digest shape. What the hash depends on is stated by `VersionIdIgnoresCaseAndLayout` and, on the pre-image, by `VersionPreimageChangesWithFileName`.
  - Ids.CanonicalClauseId: states the digest shape. What the hash depends on is stated by `ClauseIdZeroOffsetIsMissing` and `ClauseIdNonZeroOffsetDiffers`.
  - Ids.CanonicalRecommendationId: states the digest shape. What the hash depends on is stated by `RecommendationIdIgnoresIssueLayout` and `KeyedPreimageChangesWithName`.
  - Ids.CanonicalDecisionId: states the digest shape. What the hash depends on is stated by `DecisionIdIgnoresActorLayout` and `KeyedPreimageChangesWithName`.

## Findings

| source | as written | input that shows it | evidently intended | confidence | as-written member | corrected member |
|---|---|---|---|---|---|---|
| scripts/nl_query.py:200 | `match_query` sends the capture of any pattern whose text contains `round` or `version` through `int()` into `version` (line 281). The second clause-history pattern ends with a group of alternatives that includes `version`, so its clause-number capture is read as a version. | `clause 1.1 history`: `int("1.1")` raises `ValueError`. `clause 3 history`: `version` is 3, and `template.format` then raises `KeyError('clause_number')` outside the `try`. | The version test applies only to entries whose template has a `version` field, so the clause-history entry takes the clause-number branch. | not executed | NlMatch.InferParamsAsWritten, NlQuery.ClauseHistoryAsWrittenFails, NlQuery.ClauseHistoryAnswerFails | NlMatch.InferParams, NlQuery.ClauseHistoryIntended, NlQuery.ClauseHistoryAnswerIntended |

The matcher and `execute_query` take the reading as a parameter. `NlQuery.Answer` follows the program as written; `NlQuery.AnswerIntended` uses the corrected reading.
