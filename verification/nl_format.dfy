/** The result formatters of the natural-language query interface: each turns the rows a query returned
    into the text shown to the user.

    Every formatter unpacks each row into a fixed number of names; a row of another length raises
    `ValueError`, which the caller reports as a failed query. The header lines carry pictographs that the
    source file holds in mis-decoded form; the constants below are those characters exactly. */
module NlFormat {
  import opened Wrappers
  import opened PyStr
  import opened PyFormat
  import opened Values
  import opened Seqs
  import opened NlPatterns

  /** One result row: the values of the query's `RETURN` columns, in order. */
  type Row = seq<Value>

  type Params = map<string, Param>

  const MarkSearch := "\U{011F}\U{0178}\U{201D}"
  const MarkClipboard := "\U{011F}\U{0178}\U{201C}\U{2039}"
  const MarkPerson := "\U{011F}\U{0178}\U{2018}\U{00A4}"
  const MarkWarning := "\U{00E2}\U{0161}\U{00A0}\U{00EF}\U{00B8}"
  const MarkChart := "\U{011F}\U{0178}\U{201C}\U{0160}"
  const MarkScroll := "\U{011F}\U{0178}\U{201C}\U{0153}"

  /** How many names each formatter unpacks a row into. */
  function Arity(f: Formatter): nat {
    match f
    case Concessions => 8
    case RoundDecisions => 8
    case ClauseSearch => 5
    case ActorDecisions => 7
    case UnfavorableTerms => 7
    case MatterOverview => 8
    case ClauseHistory => 7
    case Statistics => 6
    case DecisionDistribution => 3
  }

  /** The message of the `ValueError` raised by unpacking `got` values into `n` names. */
  function UnpackError(n: nat, got: nat): string
    requires got != n
  {
    if got > n then "too many values to unpack (expected " + NatToString(n) + ")"
    else "not enough values to unpack (expected " + NatToString(n) + ", got " + NatToString(got) + ")"
  }

  /** `params.get(key, default)` as an f-string shows it. */
  function ParamText(params: Params, key: string, default: string): string {
    if key in params then Show(params[key]) else default
  }

  /** `{v or alt}`: the value when it is truthy, otherwise the fallback text. */
  function OrElse(v: Value, alt: string): string {
    if Truthy(v) then Render(v) else alt
  }

  /** The text returned when the query found no rows. */
  function EmptyMessage(f: Formatter, params: Params): string {
    match f
    case Concessions => "No concessions found in the database."
    case RoundDecisions => "No decisions found for version " + ParamText(params, "version", "?") + "."
    case ClauseSearch => "No clauses found containing '" + ParamText(params, "keyword", "?") + "'."
    case ActorDecisions => "No decisions found for " + ParamText(params, "actor", "?") + "."
    case UnfavorableTerms => "No unfavorable terms found."
    case MatterOverview => "Matter " + ParamText(params, "matter_id", "?") + " not found."
    case ClauseHistory => "No history found for clause " + ParamText(params, "clause_number", "?") + "."
    case Statistics => "No statistics available."
    case DecisionDistribution => "No decision data available."
  }

  /** The first line of a non-empty result. */
  function Header(f: Formatter, count: nat, params: Params): string {
    match f
    case Concessions => "\n" + MarkSearch + " Found " + NatToString(count) + " concession(s):\n"
    case RoundDecisions => "\n" + MarkClipboard + " Decisions in Round/Version " + ParamText(params, "version", "?") + ":\n"
    case ClauseSearch =>
      "\n" + MarkSearch + " Found " + NatToString(count) + " clause(s) matching '" + ParamText(params, "keyword", "") + "':\n"
    case ActorDecisions => "\n" + MarkPerson + " Decisions by " + ParamText(params, "actor", "?") + ":\n"
    case UnfavorableTerms => "\n" + MarkWarning + "  Found " + NatToString(count) + " unfavorable term(s):\n"
    case MatterOverview => "\n" + MarkChart + " Matter Overview:\n"
    case ClauseHistory => "\n" + MarkScroll + " History of Clause " + ParamText(params, "clause_number", "?") + ":\n"
    case Statistics => "\n" + MarkChart + " System Statistics:\n"
    case DecisionDistribution => "\n" + MarkChart + " Decision Distribution:\n"
  }

  /** Does the round formatter show this row: it has a decision. */
  predicate IsDecided(row: Row) {
    |row| == 8 && Truthy(row[5])
  }

  const IsDecidedFn: Row -> bool := IsDecided

  /** The lines for the row at 0-based position `k`, numbered from 1 where the formatter numbers them. */
  function Block(f: Formatter, k: nat, row: Row): seq<string>
    requires |row| == Arity(f)
  {
    var n := NatToString(k + 1) + ". ";
    var v := (i: nat) requires i < |row| => Render(row[i]);
    match f
    case Concessions =>
      [ n + v(0) + " - Clause " + v(1) + ": " + v(2),
        "   Who: " + v(3), "   What: " + v(4), "   Impact: " + v(5), "   Rationale: " + v(6), "   When: " + v(7), ""]
    case RoundDecisions =>
      if IsDecided(row) then
        [ n + "Clause " + v(2) + ": " + v(3),
          "   Recommendation: " + OrElse(row[4], "None"),
          "   Decision: " + v(5) + " (by " + v(6) + ")"]
        + (if Truthy(row[7]) then ["   Notes: " + v(7)] else []) + [""]
      else []
    case ClauseSearch =>
      [n + v(0) + " v" + v(1) + " - Clause " + v(2) + ": " + v(3), "   Category: " + v(4), ""]
    case ActorDecisions =>
      [ n + v(0) + " - Clause " + v(1) + ": " + v(2),
        "   Recommendation type: " + v(3), "   Decision: " + v(4), "   When: " + v(5)]
      + (if Truthy(row[6]) then ["   Notes: " + v(6) + "..."] else []) + [""]
    case UnfavorableTerms =>
      [ n + v(0) + " v" + v(1) + " - Clause " + v(2) + ": " + v(3),
        "   Issue: " + v(4),
        "   Decision: " + OrElse(row[5], "Pending") + " " + (if Truthy(row[6]) then "by " + v(6) else ""),
        ""]
    case MatterOverview =>
      [ "Matter: " + v(0) + " (Version " + v(1) + ")", "Type: " + v(2), "Last updated: " + v(3), "",
        "Statistics:", "  - Clauses: " + v(4), "  - Recommendations: " + v(5), "  - Decisions: " + v(6),
        "  - Concessions: " + v(7), ""]
    case ClauseHistory =>
      [n + "Version " + v(1) + " (" + v(0) + "): " + v(3)]
      + (if Truthy(row[4]) then ["   Recommendation: " + v(4) + " (" + v(5) + ")", "   Decision: " + OrElse(row[6], "Pending")]
         else ["   No recommendations"])
      + [""]
    case Statistics =>
      [ "Matters: " + v(0), "Parties: " + v(1), "Clauses: " + v(2), "Recommendations: " + v(3),
        "Decisions: " + v(4), "Concessions: " + v(5), ""]
    case DecisionDistribution =>
      [v(0) + ": " + v(1) + " (" + v(2) + "%)"]
  }

  /** All rows have the formatter's arity. */
  predicate WellShaped(f: Formatter, rows: seq<Row>) {
    forall k :: 0 <= k < |rows| ==> |rows[k]| == Arity(f)
  }

  /** The blocks of the first `n` rows, in order. */
  function BlocksTo(f: Formatter, rows: seq<Row>, n: nat): seq<string>
    requires n <= |rows| && WellShaped(f, rows)
  {
    if n == 0 then [] else BlocksTo(f, rows, n - 1) + Block(f, n - 1, rows[n - 1])
  }

  /** The position of the first row, from `k` on, whose length is not `n`. */
  function FirstMisfit(rows: seq<Row>, n: nat, k: nat): (r: Option<nat>)
    requires k <= |rows|
    ensures r.Some? ==> k <= r.value < |rows| && |rows[r.value]| != n
    decreases |rows| - k
  {
    if k == |rows| then None else if |rows[k]| != n then Some(k) else FirstMisfit(rows, n, k + 1)
  }

  lemma {:induction false} FirstMisfitSpec(rows: seq<Row>, n: nat, k: nat)
    requires k <= |rows|
    ensures FirstMisfit(rows, n, k).None? <==> forall i :: k <= i < |rows| ==> |rows[i]| == n
    ensures FirstMisfit(rows, n, k).Some? ==> forall i :: k <= i < FirstMisfit(rows, n, k).value ==> |rows[i]| == n
    decreases |rows| - k
  {
    if k < |rows| && |rows[k]| == n {
      FirstMisfitSpec(rows, n, k + 1);
    }
  }

  /** The formatter `f` applied to the rows a query returned: the text, or the message of the
      `ValueError` an ill-shaped row raises. */
  function FormatRows(f: Formatter, rows: seq<Row>, params: Params): (r: Result<string, string>)
    ensures rows == [] ==> r == Ok(EmptyMessage(f, params))
  {
    if rows == [] then Ok(EmptyMessage(f, params))
    else if f == Statistics then
      if |rows[0]| != 6 then Err(UnpackError(6, |rows[0]|))
      else Ok(Join("\n", [Header(f, |rows|, params)] + Block(f, 0, rows[0])))
    else
      match FirstMisfit(rows, Arity(f), 0)
      case Some(k) => Err(UnpackError(Arity(f), |rows[k]|))
      case None =>
        FirstMisfitSpec(rows, Arity(f), 0);
        var lines := [Header(f, |rows|, params)] + BlocksTo(f, rows, |rows|)
                     + (if f == DecisionDistribution then [""] else []);
        if f == RoundDecisions && |lines| <= 2 then Ok("No decisions recorded for version " + ParamText(params, "version", "?") + ".")
        else Ok(Join("\n", lines))
  }

  /** Formatting fails exactly when a row that is unpacked has the wrong length: the first row for the
      statistics, any row for the others; the message is Python's for the first such row. */
  lemma FormatRowsFailsIff(f: Formatter, rows: seq<Row>, params: Params)
    ensures f == Statistics ==> (FormatRows(f, rows, params).Err? <==> rows != [] && |rows[0]| != 6)
    ensures f != Statistics ==> (FormatRows(f, rows, params).Err? <==> !WellShaped(f, rows))
    ensures FormatRows(f, rows, params).Err? ==>
      exists k :: 0 <= k < |rows| && |rows[k]| != Arity(f) && FormatRows(f, rows, params).error == UnpackError(Arity(f), |rows[k]|)
        && forall i :: 0 <= i < k ==> |rows[i]| == Arity(f)
  {
    if rows != [] {
      FirstMisfitSpec(rows, Arity(f), 0);
    }
  }

  /** The statistics come from the first row alone; further rows change nothing. */
  lemma StatisticsUseFirstRow(first: Row, more: seq<Row>, params: Params)
    ensures FormatRows(Statistics, [first] + more, params) == FormatRows(Statistics, [first], params)
  {
    if |first| == 6 {
      assert ([first] + more)[0] == first;
    }
  }

  // ---------------------------------------------------------------------------------------------
  // The round formatter shows the decided rows only
  // ---------------------------------------------------------------------------------------------

  /** The entries for the rows at positions `idx`, each numbered by its position among all rows. */
  function EntriesAt(rows: seq<Row>, idx: seq<nat>): seq<string>
    requires WellShaped(RoundDecisions, rows)
    requires forall j :: 0 <= j < |idx| ==> idx[j] < |rows|
  {
    if idx == [] then []
    else
      var last := idx[|idx| - 1];
      EntriesAt(rows, idx[..|idx| - 1]) + Block(RoundDecisions, last, rows[last])
  }

  /** The round formatter's lines are the entries of exactly the decided rows, in order, numbered by
      their position among all rows. */
  lemma {:induction false} RoundBlocksAreDecidedEntries(rows: seq<Row>, n: nat)
    requires n <= |rows| && WellShaped(RoundDecisions, rows)
    ensures BlocksTo(RoundDecisions, rows, n) == EntriesAt(rows, KeptIndices(rows, IsDecidedFn, n))
  {
    if n > 0 {
      RoundBlocksAreDecidedEntries(rows, n - 1);
      var before := KeptIndices(rows, IsDecidedFn, n - 1);
      if IsDecided(rows[n - 1]) {
        var idx := before + [n - 1];
        assert KeptIndices(rows, IsDecidedFn, n) == idx;
        assert idx[..|idx| - 1] == before;
      } else {
        assert KeptIndices(rows, IsDecidedFn, n) == before;
      }
    }
  }

  /** No lines beyond the header exactly when no row of the first `n` has a decision; otherwise at
      least four. */
  lemma {:induction false} RoundBlocksEmptyIff(rows: seq<Row>, n: nat)
    requires n <= |rows| && WellShaped(RoundDecisions, rows)
    ensures BlocksTo(RoundDecisions, rows, n) == [] <==> forall k :: 0 <= k < n ==> !IsDecided(rows[k])
    ensures BlocksTo(RoundDecisions, rows, n) != [] ==> |BlocksTo(RoundDecisions, rows, n)| >= 4
  {
    if n > 0 {
      RoundBlocksEmptyIff(rows, n - 1);
    }
  }

  /** A round query that found rows reports that nothing was recorded exactly when no row carries a
      decision. */
  lemma RoundNothingRecordedIff(rows: seq<Row>, params: Params)
    requires rows != [] && WellShaped(RoundDecisions, rows)
    ensures FormatRows(RoundDecisions, rows, params) == Ok("No decisions recorded for version " + ParamText(params, "version", "?") + ".")
      <==> forall k :: 0 <= k < |rows| ==> !IsDecided(rows[k])
  {
    FirstMisfitSpec(rows, 8, 0);
    RoundBlocksEmptyIff(rows, |rows|);
    var blocks := BlocksTo(RoundDecisions, rows, |rows|);
    var lines := [Header(RoundDecisions, |rows|, params)] + blocks;
    if blocks != [] {
      var text := Join("\n", lines);
      assert text[0] == '\n' by {
        assert lines[0][0] == '\n';
        assert |lines| > 1;
      }
    }
  }
}
