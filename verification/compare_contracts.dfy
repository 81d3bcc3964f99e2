/** Comparison of two contract versions: sorting `difflib.Differ` output lines into removed and added text,
    then picking out the lines that look like clause headings. */
module CompareContracts {
  import opened PyStr
  import opened Headings
  import opened Seqs

  datatype Stats = Stats(baseParagraphs: nat, round1Paragraphs: nat, totalChanges: nat)

  /** `modified` is never filled by the comparison; it is kept for the record's shape. */
  datatype Changes = Changes(added: seq<string>, removed: seq<string>, modified: seq<string>, stats: Stats)

  datatype ChangeKind = Removed | Added

  /** One reported clause change: the first 100 characters and the whole line. */
  datatype ClauseChange = ClauseChange(kind: ChangeKind, clause: string, fullText: string)

  /** The text after the two-character tag of every diff line carrying that tag, in order. */
  function Tagged(diff: seq<string>, tag: string): (r: seq<string>)
    requires |tag| == 2
    ensures |r| <= |diff|
  {
    if diff == [] then []
    else if StartsWith(diff[|diff| - 1], tag) then Tagged(diff[..|diff| - 1], tag) + [diff[|diff| - 1][2..]]
    else Tagged(diff[..|diff| - 1], tag)
  }

  /** The comparison loop: `- ` lines are removals, `+ ` lines are additions, everything else (`  ` and
      `? ` lines) is ignored. */
  method ClassifyDiff(diff: seq<string>, baseParagraphs: nat, round1Paragraphs: nat) returns (c: Changes)
    ensures c.removed == Tagged(diff, "- ") && c.added == Tagged(diff, "+ ")
    ensures c.modified == []
    ensures c.stats == Stats(baseParagraphs, round1Paragraphs, |c.removed| + |c.added|)
  {
    var added: seq<string> := [];
    var removed: seq<string> := [];
    var total := 0;
    var i := 0;
    while i < |diff|
      invariant 0 <= i <= |diff|
      invariant removed == Tagged(diff[..i], "- ") && added == Tagged(diff[..i], "+ ")
      invariant total == |removed| + |added|
    {
      var line := diff[i];
      assert diff[..i + 1][..i] == diff[..i];
      if StartsWith(line, "- ") {
        removed := removed + [line[2..]];
        total := total + 1;
      } else if StartsWith(line, "+ ") {
        added := added + [line[2..]];
        total := total + 1;
      }
      i := i + 1;
    }
    assert diff[..|diff|] == diff;
    c := Changes(added, removed, [], Stats(baseParagraphs, round1Paragraphs, total));
  }

  /** No diff line is both a removal and an addition, so the change count never exceeds the line count. */
  lemma {:induction false} TaggedDisjoint(diff: seq<string>)
    ensures |Tagged(diff, "- ")| + |Tagged(diff, "+ ")| <= |diff|
  {
    if diff != [] {
      TaggedDisjoint(diff[..|diff| - 1]);
    }
  }

  /** Every removal is the text of a `- ` line of the diff, and every such line's text is a removal. */
  lemma {:induction false} TaggedMembers(diff: seq<string>, tag: string, x: string)
    requires |tag| == 2
    ensures x in Tagged(diff, tag) <==> exists i :: 0 <= i < |diff| && StartsWith(diff[i], tag) && diff[i][2..] == x
  {
    if diff != [] {
      var init := diff[..|diff| - 1];
      TaggedMembers(init, tag, x);
      assert forall i :: 0 <= i < |init| ==> init[i] == diff[i];
      if exists i :: 0 <= i < |diff| && StartsWith(diff[i], tag) && diff[i][2..] == x {
        var i :| 0 <= i < |diff| && StartsWith(diff[i], tag) && diff[i][2..] == x;
        if i < |init| {
          assert init[i] == diff[i];
        }
      }
    }
  }

  /** The three heading tests of the clause-change scan. */
  predicate LooksLikeClauseHeader(line: string) {
    || StartsWithNumbered(Strip(line))
    || Contains(Prefix(line, 30), "Section")
    || Contains(line, "[Heading")
  }

  /** The heading test as a value, for filtering. */
  const IsClauseHeader: string -> bool := LooksLikeClauseHeader

  /** Each line as a reported change of the given kind. */
  function Tag(lines: seq<string>, kind: ChangeKind): (r: seq<ClauseChange>)
    ensures |r| == |lines|
    ensures forall i :: 0 <= i < |r| ==> r[i].kind == kind && r[i].clause == Prefix(r[i].fullText, 100)
    ensures forall i :: 0 <= i < |r| ==> r[i].fullText == lines[i]
  {
    seq(|lines|, i requires 0 <= i < |lines| => ClauseChange(kind, Prefix(lines[i], 100), lines[i]))
  }

  lemma TagReports(lines: seq<string>, kind: ChangeKind, line: string)
    ensures (exists i :: 0 <= i < |Tag(lines, kind)| && Tag(lines, kind)[i].fullText == line) <==> line in lines
  {
    var r := Tag(lines, kind);
    if line in lines {
      var k :| 0 <= k < |lines| && lines[k] == line;
      assert r[k].fullText == line;
    }
  }

  /** The heading-like lines of one list, tagged with their kind, in order. */
  function HeaderChanges(lines: seq<string>, kind: ChangeKind): (r: seq<ClauseChange>)
    ensures |r| <= |lines|
    ensures forall i :: 0 <= i < |r| ==> r[i].kind == kind && r[i].clause == Prefix(r[i].fullText, 100)
  {
    Tag(Filter(lines, IsClauseHeader), kind)
  }

  /** All removed heading lines, then all added heading lines. */
  function IdentifyClauseChanges(changes: Changes): (r: seq<ClauseChange>)
    ensures |r| <= |changes.removed| + |changes.added|
    ensures forall i, j :: 0 <= i < j < |r| && r[j].kind == Removed ==> r[i].kind == Removed
    ensures forall i :: 0 <= i < |r| ==> r[i].clause == Prefix(r[i].fullText, 100)
  {
    HeaderChanges(changes.removed, Removed) + HeaderChanges(changes.added, Added)
  }

  /** Within one list, a line is reported exactly when it is heading-like. */
  lemma HeaderChangesReport(lines: seq<string>, kind: ChangeKind, line: string)
    ensures (exists i :: 0 <= i < |HeaderChanges(lines, kind)| && HeaderChanges(lines, kind)[i].fullText == line)
            <==> line in lines && IsClauseHeader(line)
  {
    var kept := Filter(lines, IsClauseHeader);
    assert HeaderChanges(lines, kind) == Tag(kept, kind);
    TagReports(kept, kind, line);
    FilterMembers(lines, IsClauseHeader);
    assert line in kept <==> line in lines && IsClauseHeader(line);
  }

  /** A removed line is reported as a removal exactly when it is heading-like. */
  lemma RemovedReported(changes: Changes, line: string)
    ensures (exists i :: 0 <= i < |IdentifyClauseChanges(changes)| && IdentifyClauseChanges(changes)[i].kind == Removed
                         && IdentifyClauseChanges(changes)[i].fullText == line)
            <==> line in changes.removed && LooksLikeClauseHeader(line)
  {
    var r := IdentifyClauseChanges(changes);
    var rm := HeaderChanges(changes.removed, Removed);
    HeaderChangesReport(changes.removed, Removed, line);
    assert forall i :: 0 <= i < |rm| ==> r[i] == rm[i];
    assert forall i :: |rm| <= i < |r| ==> r[i].kind == Added;
  }

  /** An added line is reported as an addition exactly when it is heading-like. */
  lemma AddedReported(changes: Changes, line: string)
    ensures (exists i :: 0 <= i < |IdentifyClauseChanges(changes)| && IdentifyClauseChanges(changes)[i].kind == Added
                         && IdentifyClauseChanges(changes)[i].fullText == line)
            <==> line in changes.added && LooksLikeClauseHeader(line)
  {
    var r := IdentifyClauseChanges(changes);
    var rm := HeaderChanges(changes.removed, Removed);
    var ad := HeaderChanges(changes.added, Added);
    HeaderChangesReport(changes.added, Added, line);
    if exists i :: 0 <= i < |ad| && ad[i].fullText == line {
      var i :| 0 <= i < |ad| && ad[i].fullText == line;
      assert r[|rm| + i] == ad[i];
    }
    if exists i :: 0 <= i < |r| && r[i].kind == Added && r[i].fullText == line {
      var i :| 0 <= i < |r| && r[i].kind == Added && r[i].fullText == line;
      assert i >= |rm|;
      assert ad[i - |rm|] == r[i];
    }
  }

  /** Each group of reported lines keeps the order the lines had in the change list. */
  lemma ReportedInOrder(lines: seq<string>)
    ensures Subseq(Filter(lines, IsClauseHeader), lines)
  {
    FilterIsSubseq(lines, IsClauseHeader);
  }

  /** A numbered heading is reported whatever its indentation. */
  lemma NumberedHeadingReported(line: string)
    requires NumberedShape(Strip(line))
    ensures LooksLikeClauseHeader(line)
  {
    StartsWithNumberedShape(Strip(line));
  }
}
