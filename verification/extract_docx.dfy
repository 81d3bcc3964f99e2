/** The document structure extractor: which paragraphs of a Word document are kept, the statistics about
    them, the tables with their cells trimmed, and the heading-like paragraphs picked out as clause
    candidates. Reading the file itself is outside the model: the paragraphs and tables arrive as values. */
module ExtractDocx {
  import opened Wrappers
  import opened PyStr
  import opened Headings
  import opened Seqs

  /** A paragraph as the document reader delivers it; `style` is absent when the paragraph has no style. */
  datatype RawParagraph = RawParagraph(text: string, style: Option<string>)

  /** A kept paragraph: its text as read, and its style name. */
  datatype Paragraph = Paragraph(text: string, style: string)

  /** A table is a list of rows, each a list of cell texts. */
  type Table = seq<seq<string>>

  datatype Stats = Stats(totalParagraphs: nat, totalTables: nat, totalChars: nat)

  datatype Structure = Structure(
    filename: string, paragraphs: seq<Paragraph>, tables: seq<Table>, stylesUsed: seq<string>, stats: Stats)

  /** The style name recorded for a paragraph: its own, or `Normal` when it has none. */
  function StyleName(p: RawParagraph): string {
    p.style.GetOr("Normal")
  }

  /** `if para.text.strip():` — a paragraph is kept when something other than whitespace is left. */
  predicate HasText(p: RawParagraph) {
    Strip(p.text) != []
  }

  const HasTextFn: RawParagraph -> bool := HasText

  function AsParagraphs(ps: seq<RawParagraph>): (r: seq<Paragraph>)
    ensures |r| == |ps|
    ensures forall k :: 0 <= k < |ps| ==> r[k] == Paragraph(ps[k].text, StyleName(ps[k]))
  {
    seq(|ps|, k requires 0 <= k < |ps| => Paragraph(ps[k].text, StyleName(ps[k])))
  }

  /** The paragraphs the extractor keeps, in document order. */
  function KeptParagraphs(paras: seq<RawParagraph>): seq<Paragraph> {
    AsParagraphs(Filter(paras, HasTextFn))
  }

  /** The characters of the kept paragraphs, counted before stripping. */
  function TotalChars(ps: seq<Paragraph>): nat {
    if ps == [] then 0 else TotalChars(ps[..|ps| - 1]) + |ps[|ps| - 1].text|
  }

  /** The kept paragraphs are the paragraphs with text left after stripping, each with its style name,
      in document order, and no others. */
  lemma KeptParagraphsSelect(paras: seq<RawParagraph>)
    ensures exists idx: seq<nat> ::
      && Selects(idx, paras, HasTextFn)
      && |idx| == |KeptParagraphs(paras)|
      && (forall k :: 0 <= k < |idx| ==> KeptParagraphs(paras)[k] == Paragraph(paras[idx[k]].text, StyleName(paras[idx[k]])))
  {
    FilterSelects(paras, HasTextFn);
    var idx := KeptIndices(paras, HasTextFn, |paras|);
    assert |idx| == |KeptParagraphs(paras)|;
  }

  /** No kept paragraph is blank. */
  lemma KeptParagraphsHaveText(paras: seq<RawParagraph>)
    ensures forall k :: 0 <= k < |KeptParagraphs(paras)| ==> Strip(KeptParagraphs(paras)[k].text) != []
  {
    FilterMembers(paras, HasTextFn);
  }

  /** Every cell of every table with its outer whitespace removed; the table shapes are kept. */
  function StripCells(tables: seq<Table>): (r: seq<Table>)
    ensures |r| == |tables|
    ensures forall t :: 0 <= t < |r| ==> |r[t]| == |tables[t]|
    ensures forall t, w :: 0 <= t < |r| && 0 <= w < |r[t]| ==> |r[t][w]| == |tables[t][w]|
    ensures forall t, w, c :: 0 <= t < |r| && 0 <= w < |r[t]| && 0 <= c < |r[t][w]| ==> r[t][w][c] == Strip(tables[t][w][c])
  {
    seq(|tables|, t requires 0 <= t < |tables| =>
      seq(|tables[t]|, w requires 0 <= w < |tables[t]| =>
        seq(|tables[t][w]|, c requires 0 <= c < |tables[t][w]| => Strip(tables[t][w][c]))))
  }

  /** Trimmed cells stay trimmed: extracting from already trimmed tables changes nothing. */
  lemma StripCellsIdempotent(tables: seq<Table>)
    ensures StripCells(StripCells(tables)) == StripCells(tables)
  {
    var once := StripCells(tables);
    var twice := StripCells(once);
    forall t, w, c | 0 <= t < |once| && 0 <= w < |once[t]| && 0 <= c < |once[t][w]|
      ensures twice[t][w][c] == once[t][w][c]
    {
      StripIdempotent(tables[t][w][c]);
    }
    forall t | 0 <= t < |once| ensures twice[t] == once[t] {
      forall w | 0 <= w < |once[t]| ensures twice[t][w] == once[t][w] {
      }
    }
  }

  lemma TotalCharsAppend(ps: seq<Paragraph>, p: Paragraph)
    ensures TotalChars(ps + [p]) == TotalChars(ps) + |p.text|
  {
    assert (ps + [p])[..|ps|] == ps;
  }

  /** The set of style names of some paragraphs. */
  function StylesOf(ps: seq<Paragraph>): set<string> {
    if ps == [] then {} else StylesOf(ps[..|ps| - 1]) + {ps[|ps| - 1].style}
  }

  lemma {:induction false} StylesOfMembers(ps: seq<Paragraph>, s: string)
    ensures s in StylesOf(ps) <==> exists k :: 0 <= k < |ps| && ps[k].style == s
  {
    if ps != [] {
      var init := ps[..|ps| - 1];
      StylesOfMembers(init, s);
      if exists k :: 0 <= k < |init| && init[k].style == s {
        var k :| 0 <= k < |init| && init[k].style == s;
        assert ps[k] == init[k];
      }
      if exists k :: 0 <= k < |ps| && ps[k].style == s {
        var k :| 0 <= k < |ps| && ps[k].style == s;
        if k < |init| {
          assert init[k] == ps[k];
        }
      }
    }
  }

  /** `extract_docx_structure` after the document has been read: keep the non-blank paragraphs with their
      style names, count them and their characters, trim the table cells, and list the styles used, sorted
      and without repeats. */
  method ExtractStructure(filename: string, paras: seq<RawParagraph>, tables: seq<Table>) returns (r: Structure)
    ensures r.filename == filename
    ensures r.paragraphs == KeptParagraphs(paras)
    ensures r.stats == Stats(|r.paragraphs|, |tables|, TotalChars(r.paragraphs))
    ensures r.tables == StripCells(tables)
    ensures StrictlySorted(r.stylesUsed)
    ensures forall s :: s in r.stylesUsed <==> s in StylesOf(r.paragraphs)
  {
    var paragraphs: seq<Paragraph> := [];
    var chars := 0;
    for i := 0 to |paras|
      invariant paragraphs == AsParagraphs(FilterTo(paras, HasTextFn, i))
      invariant chars == TotalChars(paragraphs)
    {
      KeepStep(paras, i);
      var p := paras[i];
      if Strip(p.text) != [] {
        TotalCharsAppend(paragraphs, Paragraph(p.text, StyleName(p)));
        paragraphs := paragraphs + [Paragraph(p.text, StyleName(p))];
        chars := chars + |p.text|;
      }
    }
    var styles := StylesUsed(paragraphs);
    r := Structure(filename, paragraphs, StripCells(tables), styles, Stats(|paragraphs|, |tables|, chars));
  }

  /** Looking at one more paragraph appends it, with its style name, exactly when it has text. */
  lemma KeepStep(paras: seq<RawParagraph>, i: nat)
    requires i < |paras|
    ensures AsParagraphs(FilterTo(paras, HasTextFn, i + 1))
         == AsParagraphs(FilterTo(paras, HasTextFn, i))
            + (if HasText(paras[i]) then [Paragraph(paras[i].text, StyleName(paras[i]))] else [])
  {
    FilterToStep(paras, HasTextFn, i);
  }

  /** The style names of some paragraphs, sorted and without repeats. */
  method StylesUsed(ps: seq<Paragraph>) returns (styles: seq<string>)
    ensures StrictlySorted(styles)
    ensures forall s :: s in styles <==> s in StylesOf(ps)
  {
    styles := [];
    for i := 0 to |ps|
      invariant StrictlySorted(styles)
      invariant forall s :: s in styles <==> s in StylesOf(ps[..i])
    {
      assert ps[..i + 1][..i] == ps[..i];
      styles := Insert(styles, ps[i].style);
    }
    assert ps[..|ps|] == ps;
  }

  /** `styles_used` is the only sorted, repeat-free list of the styles used: `sorted(set(...))`. */
  lemma StylesUsedIsSortedSet(r: Structure, ys: seq<string>)
    requires StrictlySorted(r.stylesUsed) && StrictlySorted(ys)
    requires forall s :: s in r.stylesUsed <==> s in StylesOf(r.paragraphs)
    requires forall s :: s in ys <==> s in StylesOf(r.paragraphs)
    ensures ys == r.stylesUsed
  {
    SortedUnique(ys, r.stylesUsed);
  }

  // ---------------------------------------------------------------------------------------------
  // Clause candidates
  // ---------------------------------------------------------------------------------------------

  /** One clause candidate: the first 100 characters of the stripped text, the style, the stripped text. */
  datatype ClauseCandidate = ClauseCandidate(title: string, style: string, fullText: string)

  const HeadingStyles: seq<string> := ["Heading 1", "Heading 2", "Heading 3"]

  /** The four tests of `identify_clauses`, any of which marks a paragraph as a clause heading. */
  predicate IsClauseHeading(p: Paragraph) {
    var text := Strip(p.text);
    || StartsWithNumbered(text)
    || Contains(Prefix(Lower(text), 30), "section")
    || Contains(Prefix(Lower(text), 30), "article")
    || p.style in HeadingStyles
  }

  const IsClauseHeadingFn: Paragraph -> bool := IsClauseHeading

  function Candidate(p: Paragraph): (c: ClauseCandidate)
    ensures c.style == p.style && c.fullText == Strip(p.text) && c.title == Prefix(c.fullText, 100)
  {
    var text := Strip(p.text);
    ClauseCandidate(Prefix(text, 100), p.style, text)
  }

  /** `identify_clauses`: a candidate for every heading-like paragraph, in document order. */
  function IdentifyClauses(paras: seq<Paragraph>): (r: seq<ClauseCandidate>)
    ensures |r| <= |paras|
    ensures forall k :: 0 <= k < |r| ==> |r[k].title| <= 100 && r[k].title == Prefix(r[k].fullText, 100)
  {
    var heads := Filter(paras, IsClauseHeadingFn);
    seq(|heads|, k requires 0 <= k < |heads| => Candidate(heads[k]))
  }

  /** The candidates come from the heading-like paragraphs and from nothing else, one per paragraph, in
      document order. */
  lemma IdentifyClausesSelects(paras: seq<Paragraph>)
    ensures exists idx: seq<nat> ::
      && Selects(idx, paras, IsClauseHeadingFn)
      && |idx| == |IdentifyClauses(paras)|
      && (forall k :: 0 <= k < |idx| ==> IdentifyClauses(paras)[k] == Candidate(paras[idx[k]]))
  {
    FilterSelects(paras, IsClauseHeadingFn);
    var idx := KeptIndices(paras, IsClauseHeadingFn, |paras|);
    assert |idx| == |IdentifyClauses(paras)|;
  }

  /** Every candidate's text has no outer whitespace, and its title is never longer than 100 characters. */
  lemma CandidatesAreTrimmed(paras: seq<Paragraph>)
    ensures forall k :: 0 <= k < |IdentifyClauses(paras)| ==> Strip(IdentifyClauses(paras)[k].fullText) == IdentifyClauses(paras)[k].fullText
  {
    var r := IdentifyClauses(paras);
    var heads := Filter(paras, IsClauseHeadingFn);
    forall k | 0 <= k < |r| ensures Strip(r[k].fullText) == r[k].fullText {
      StripIdempotent(heads[k].text);
    }
  }

  /** A paragraph in a heading style is a candidate whatever its text, and so is a numbered one whatever its
      indentation. */
  lemma HeadingStyleOrNumberIsCandidate(p: Paragraph)
    requires p.style in HeadingStyles || NumberedShape(Strip(p.text))
    ensures IsClauseHeading(p)
  {
    if NumberedShape(Strip(p.text)) {
      StartsWithNumberedShape(Strip(p.text));
    }
  }
}
