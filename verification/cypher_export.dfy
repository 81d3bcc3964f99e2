/** The Cypher text the two exporters write: quoted-value escaping, node property lists, `CREATE` lines and
    the identity match used to reconnect relationships.

    The cloud exporter (`export_to_cloud.py`) escapes backslashes and double quotes; the file exporter
    (`export_to_cypher_file.py`) also turns newlines into `\n`.  Both share the node-type-to-identity-field
    table and the identity rendering. */
module CypherExport {
  import opened Wrappers
  import opened PyStr
  import opened Values
  import opened Escapes
  import opened Seqs

  /** Which exporter is rendering: the two differ only in newline handling inside string values. */
  datatype Dialect = Cloud | File

  /** A node's properties, in the store's iteration order. */
  type Props = seq<(string, Value)>

  // ---------------------------------------------------------------------------------------------
  // Escaping
  // ---------------------------------------------------------------------------------------------

  /** How the cloud exporter spells one character inside a double-quoted value. */
  function QuotedChar(c: char): string {
    if c == '\\' then "\\\\" else if c == '"' then "\\\"" else [c]
  }

  /** How the file exporter spells one character inside a double-quoted value. */
  function MultilineChar(c: char): string {
    if c == '\n' then "\\n" else QuotedChar(c)
  }

  /** Backslashes doubled, then double quotes escaped. */
  function EscapeQuoted(s: string): string {
    ReplaceAll(ReplaceAll(s, "\\", "\\\\"), "\"", "\\\"")
  }

  /** As `EscapeQuoted`, then newlines written as `\n`. */
  function EscapeMultiline(s: string): string {
    ReplaceAll(EscapeQuoted(s), "\n", "\\n")
  }

  function EscapeFor(d: Dialect, s: string): string {
    match d
    case Cloud => EscapeQuoted(s)
    case File => EscapeMultiline(s)
  }

  /** Doubling backslashes, as a per-character rewrite. */
  function DoubleBackslash(c: char): string {
    if c == '\\' then "\\\\" else [c]
  }

  lemma QuotedCharAfterDoubling()
    ensures forall x :: QuotedChar(x) == ReplaceChar(DoubleBackslash(x), '"', "\\\"")
  {
    forall x ensures QuotedChar(x) == ReplaceChar(DoubleBackslash(x), '"', "\\\"") {
      if x == '\\' {
        assert ReplaceChar("\\", '"', "\\\"") == "\\";
        assert ReplaceChar("\\\\", '"', "\\\"") == "\\" + ReplaceChar("\\", '"', "\\\"");
      } else if x == '"' {
        assert ReplaceChar([x], '"', "\\\"") == "\\\"" + ReplaceChar([], '"', "\\\"");
      } else {
        assert ReplaceChar([x], '"', "\\\"") == [x] + ReplaceChar([], '"', "\\\"");
      }
    }
  }

  /** The chained `replace` calls of the cloud exporter rewrite each character independently. */
  lemma EscapeQuotedIsMap(s: string)
    ensures EscapeQuoted(s) == MapChars(s, QuotedChar)
  {
    ReplaceAllSingle(s, '\\', "\\\\");
    ReplaceCharIsMap(s, '\\', "\\\\", DoubleBackslash);
    var once := MapChars(s, DoubleBackslash);
    ReplaceAllSingle(once, '"', "\\\"");
    QuotedCharAfterDoubling();
    ReplaceCharAfterMap(s, DoubleBackslash, QuotedChar, '"', "\\\"");
  }

  lemma MultilineCharAfterQuoting()
    ensures forall x :: MultilineChar(x) == ReplaceChar(QuotedChar(x), '\n', "\\n")
  {
    forall x ensures MultilineChar(x) == ReplaceChar(QuotedChar(x), '\n', "\\n") {
      if x == '\\' {
        assert ReplaceChar("\\", '\n', "\\n") == "\\";
        assert ReplaceChar("\\\\", '\n', "\\n") == "\\" + ReplaceChar("\\", '\n', "\\n");
      } else if x == '"' {
        assert ReplaceChar("\"", '\n', "\\n") == "\"";
        assert ReplaceChar("\\\"", '\n', "\\n") == "\\" + ReplaceChar("\"", '\n', "\\n");
      } else {
        assert ReplaceChar([x], '\n', "\\n") == (if x == '\n' then "\\n" else [x]) + ReplaceChar([], '\n', "\\n");
      }
    }
  }

  /** The file exporter's chain is also a per-character rewrite. */
  lemma EscapeMultilineIsMap(s: string)
    ensures EscapeMultiline(s) == MapChars(s, MultilineChar)
  {
    EscapeQuotedIsMap(s);
    ReplaceAllSingle(MapChars(s, QuotedChar), '\n', "\\n");
    MultilineCharAfterQuoting();
    ReplaceCharAfterMap(s, QuotedChar, MultilineChar, '\n', "\\n");
  }

  /** A cloud-escaped value read back from its double-quoted literal is the original string. */
  lemma EscapeQuotedReadsBack(s: string)
    ensures Unescape(EscapeQuoted(s), '"') == Some(s)
  {
    EscapeQuotedIsMap(s);
    assert forall x :: Spells(QuotedChar(x), x, '"');
    UnescapeMapChars(s, QuotedChar, '"');
  }

  /** A file-escaped value read back from its double-quoted literal is the original string. */
  lemma EscapeMultilineReadsBack(s: string)
    ensures Unescape(EscapeMultiline(s), '"') == Some(s)
  {
    EscapeMultilineIsMap(s);
    assert forall x :: Spells(MultilineChar(x), x, '"');
    UnescapeMapChars(s, MultilineChar, '"');
  }

  /** The file exporter never writes a raw newline inside a value. */
  lemma EscapeMultilineSingleLine(s: string)
    ensures '\n' !in EscapeMultiline(s)
  {
    EscapeMultilineIsMap(s);
    MapCharsAvoids(s, MultilineChar, '\n');
  }

  /** The cloud exporter leaves newlines in place: the escaped value has one exactly when the input does. */
  lemma {:induction false} EscapeQuotedKeepsNewlines(s: string)
    ensures '\n' in EscapeQuoted(s) <==> '\n' in s
  {
    EscapeQuotedIsMap(s);
    MapCharsKeeps(s, QuotedChar, '\n');
  }

  lemma {:induction false} MapCharsKeeps(s: string, f: char -> string, c: char)
    requires forall x :: c in f(x) <==> x == c
    ensures c in MapChars(s, f) <==> c in s
    decreases |s|
  {
    if s != [] {
      MapCharsKeeps(s[1..], f, c);
      assert c in s <==> s[0] == c || c in s[1..];
    }
  }

  // ---------------------------------------------------------------------------------------------
  // Node identity
  // ---------------------------------------------------------------------------------------------

  /** The identity property of each exported node label. */
  const IdFields: map<string, string> := map[
    "Matter" := "matter_id", "Party" := "party_id", "Clause" := "clause_id",
    "Recommendation" := "recommendation_id", "Decision" := "decision_id", "Concession" := "concession_id"]

  /** The identity property of a node label; `id` for a label outside the table. */
  function IdField(nodeType: string): (f: string)
    ensures nodeType in IdFields ==> f == IdFields[nodeType]
    ensures nodeType !in IdFields ==> f == "id"
    ensures f != [] && ':' !in f && '"' !in f
  {
    if nodeType in IdFields then IdFields[nodeType] else "id"
  }

  /** `properties.get(key)`: the first entry with that key. */
  function Lookup(props: Props, key: string): (r: Option<Value>)
    ensures r.None? <==> forall i :: 0 <= i < |props| ==> props[i].0 != key
    ensures r.Some? ==> exists i :: 0 <= i < |props| && props[i] == (key, r.value)
  {
    if props == [] then None
    else if props[0].0 == key then Some(props[0].1)
    else Lookup(props[1..], key)
  }

  /** Why an identity could not be rendered: its stored value is not a string, and has no `replace`. */
  datatype ExportError = AttributeError(field: string)

  /** `field: "value"` for a node's identity, with a missing identity rendered as the empty string. */
  function GetIdProperty(nodeType: string, props: Props): (r: Result<string, ExportError>)
    ensures var v := Lookup(props, IdField(nodeType));
            r.Ok? <==> v.None? || v.value.Str?
    ensures r.Ok? ==> ParseIdProperty(r.value)
                      == Some((IdField(nodeType), match Lookup(props, IdField(nodeType)) case Some(Str(s)) => s case _ => ""))
    ensures r.Err? ==> r.error == AttributeError(IdField(nodeType))
  {
    var field := IdField(nodeType);
    var value := Lookup(props, field);
    if value.None? then
      IdPropertyParses(field, "");
      Ok(field + ": \"" + EscapeQuoted("") + "\"")
    else if value.value.Str? then
      IdPropertyParses(field, value.value.s);
      Ok(field + ": \"" + EscapeQuoted(value.value.s) + "\"")
    else Err(AttributeError(field))
  }

  /** The file exporter's identity match, which renders exactly as the cloud exporter's. */
  function GetIdMatch(nodeType: string, props: Props): (r: Result<string, ExportError>)
    ensures var v := Lookup(props, IdField(nodeType));
            r.Ok? <==> v.None? || v.value.Str?
    ensures r.Ok? ==> ParseIdProperty(r.value).Some? && ParseIdProperty(r.value).value.0 == IdField(nodeType)
  {
    GetIdProperty(nodeType, props)
  }

  /** The first index of `c` in `s`. */
  function IndexOf(s: string, c: char): (r: Option<nat>)
    ensures r.None? <==> c !in s
    ensures r.Some? ==> r.value < |s| && s[r.value] == c && c !in s[..r.value]
  {
    if s == [] then None
    else if s[0] == c then Some(0)
    else match IndexOf(s[1..], c)
      case None => None
      case Some(i) => assert s[..i + 1] == [s[0]] + s[1..][..i]; Some(i + 1)
  }

  /** Reads `field: "body"` back into the field name and the string the body denotes. */
  function ParseIdProperty(line: string): Option<(string, string)> {
    match IndexOf(line, ':')
    case None => None
    case Some(i) =>
      if i + 4 <= |line| && line[i..i + 3] == ": \"" && line[|line| - 1] == '"' then
        match Unescape(line[i + 3..|line| - 1], '"')
        case None => None
        case Some(v) => Some((line[..i], v))
      else None
  }

  lemma IdPropertyParses(field: string, value: string)
    requires ':' !in field
    ensures ParseIdProperty(field + ": \"" + EscapeQuoted(value) + "\"") == Some((field, value))
  {
    var body := EscapeQuoted(value);
    var line := field + ": \"" + body + "\"";
    assert line[|field|] == ':';
    assert line[..|field|] == field;
    assert IndexOf(line, ':') == Some(|field|);
    assert line[|field|..|field| + 3] == ": \"";
    assert line[|field| + 3..|line| - 1] == body;
    EscapeQuotedReadsBack(value);
  }

  // ---------------------------------------------------------------------------------------------
  // Property lists and statements
  // ---------------------------------------------------------------------------------------------

  /** One `key: value` entry, or nothing for a `None` value. */
  function RenderProp(d: Dialect, key: string, v: Value): (r: Option<string>)
    ensures r.None? <==> v.Null?
    ensures v.Str? ==> r == Some(key + ": \"" + EscapeFor(d, v.s) + "\"")
    ensures v.Bool? ==> r == Some(key + ": " + (if v.b then "true" else "false"))
    ensures !v.Null? && !v.Str? && !v.Bool? ==> r == Some(key + ": " + Render(v))
  {
    match v
    case Str(s) => Some(key + ": \"" + EscapeFor(d, s) + "\"")
    case Bool(b) => Some(key + ": " + (if b then "true" else "false"))
    case Null => None
    case _ => Some(key + ": " + Render(v))
  }

  /** `value is not None`: the entry is written out. */
  predicate IsPresent(p: (string, Value)) {
    !p.1.Null?
  }

  const IsPresentFn: ((string, Value)) -> bool := IsPresent

  /** The entries whose value is not `None`, in order. */
  function Present(props: Props): (r: Props)
    ensures r == Filter(props, IsPresentFn)
  {
    if props == [] then []
    else
      FilterCons(props[0], props[1..], IsPresentFn);
      assert props == [props[0]] + props[1..];
      if props[0].1.Null? then Present(props[1..])
      else [props[0]] + Present(props[1..])
  }

  /** The kept entries are exactly the entries with a value, in property order, and all of them when
      no value is `None`. */
  lemma PresentSelects(props: Props)
    ensures Selects(KeptIndices(props, IsPresentFn, |props|), props, IsPresentFn)
    ensures |Present(props)| == |KeptIndices(props, IsPresentFn, |props|)|
    ensures forall k :: 0 <= k < |Present(props)| ==> Present(props)[k] == props[KeptIndices(props, IsPresentFn, |props|)[k]]
    ensures forall p :: p in Present(props) <==> p in props && !p.1.Null?
  {
    FilterSelects(props, IsPresentFn);
    FilterMembers(props, IsPresentFn);
  }

  /** Without a `None` value every entry is written out. */
  lemma {:induction false} PresentAll(props: Props)
    requires forall i :: 0 <= i < |props| ==> !props[i].1.Null?
    ensures Present(props) == props
  {
    if props != [] {
      PresentAll(props[1..]);
    }
  }

  /** The rendered entries, one per present property, in property order. */
  function PropParts(d: Dialect, props: Props): (r: seq<string>)
    ensures |r| == |Present(props)|
    ensures forall i :: 0 <= i < |r| ==> Some(r[i]) == RenderProp(d, Present(props)[i].0, Present(props)[i].1)
  {
    if props == [] then []
    else match RenderProp(d, props[0].0, props[0].1)
      case None => PropParts(d, props[1..])
      case Some(p) => [p] + PropParts(d, props[1..])
  }

  /** `CREATE (:Type {k1: v1, k2: v2})`. */
  function CreateLine(d: Dialect, nodeType: string, props: Props): (r: string)
    ensures StartsWith(r, "CREATE (:" + nodeType + " {")
    ensures r[|r| - 2..] == "})"
    ensures |r| == |"CREATE (:" + nodeType + " {"| + |Join(", ", PropParts(d, props))| + 2
    ensures r[|"CREATE (:" + nodeType + " {"|..|r| - 2] == Join(", ", PropParts(d, props))
  {
    var head := "CREATE (:" + nodeType + " {";
    var r := head + Join(", ", PropParts(d, props)) + "})";
    assert r[..|head|] == head;
    assert r[|head|..|r| - 2] == Join(", ", PropParts(d, props));
    r
  }

  /** The two lines that recreate one relationship: match both endpoints by identity, then connect them. */
  function RelationshipLines(relType: string, fromType: string, fromProps: Props, toType: string, toProps: Props)
    : (r: Result<seq<string>, ExportError>)
    ensures r.Ok? <==> GetIdMatch(fromType, fromProps).Ok? && GetIdMatch(toType, toProps).Ok?
    ensures r.Ok? ==> |r.value| == 2 && r.value[1] == "CREATE (a)-[:" + relType + "]->(b)"
    ensures r.Ok? ==> r.value[0] == "MATCH (a:" + fromType + " {" + GetIdMatch(fromType, fromProps).value + "}), (b:"
                                    + toType + " {" + GetIdMatch(toType, toProps).value + "})"
  {
    var fromId :- GetIdMatch(fromType, fromProps);
    var toId :- GetIdMatch(toType, toProps);
    Ok(["MATCH (a:" + fromType + " {" + fromId + "}), (b:" + toType + " {" + toId + "})",
        "CREATE (a)-[:" + relType + "]->(b)"])
  }

  /** A present entry with a newline-free key and, unless it is a string, a newline-free rendering, is
      written by the file exporter on one line. */
  lemma FilePropSingleLine(k: string, v: Value)
    requires !v.Null? && '\n' !in k
    requires !v.Str? ==> '\n' !in Render(v)
    ensures '\n' !in RenderProp(File, k, v).value
  {
    if v.Str? {
      EscapeMultilineSingleLine(v.s);
    }
  }

  /** With newline-free keys and non-string values, the file exporter's property list is a single line. */
  lemma FilePropsSingleLine(props: Props)
    requires forall p | p in props :: '\n' !in p.0
    requires forall p | p in props :: !p.1.Str? ==> '\n' !in Render(p.1)
    ensures '\n' !in Join(", ", PropParts(File, props))
  {
    var parts := PropParts(File, props);
    var present := Present(props);
    forall i | 0 <= i < |parts| ensures '\n' !in parts[i] {
      assert present[i] in props;
      FilePropSingleLine(present[i].0, present[i].1);
    }
    JoinAvoids(", ", parts, '\n');
  }

  lemma {:induction false} JoinAvoids(sep: string, parts: seq<string>, c: char)
    requires c !in sep
    requires forall i :: 0 <= i < |parts| ==> c !in parts[i]
    ensures c !in Join(sep, parts)
    decreases |parts|
  {
    if |parts| > 1 {
      JoinAvoids(sep, parts[1..], c);
      assert c !in parts[0];
    }
  }
}
