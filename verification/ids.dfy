/** Deterministic identifiers (models/ids.py): text normalisation and SHA-256 over `||`-terminated parts.

    SHA-256 is an oracle of type `Sha256`: any function that maps a pre-image to 64 lower-case hex digits.
    The UTF-8 encoding of the pre-image is folded into that oracle, and Unicode NFC normalisation is taken
    to be the identity (it is for text that is already NFC, such as ASCII). */
module Ids {
  import opened Wrappers
  import opened PyStr

  // ---------------------------------------------------------------------------------------------
  // Hashing
  // ---------------------------------------------------------------------------------------------

  predicate IsLowerHex(s: string) {
    forall i :: 0 <= i < |s| ==> IsDigit(s[i]) || 'a' <= s[i] <= 'f'
  }

  /** What `hexdigest()` of a SHA-256 hasher returns. */
  predicate IsHexDigest(s: string) {
    |s| == 64 && IsLowerHex(s)
  }

  const ZeroDigest: string := seq(64, _ => '0')

  /** `hashlib.sha256(preimage.encode("utf-8")).hexdigest()`, left uninterpreted. */
  type Sha256 = f: string -> string | forall x :: IsHexDigest(f(x)) witness (x: string) => ZeroDigest

  /** `ts.isoformat()` of a `datetime`, which the model receives already rendered. */
  datatype Timestamp = Timestamp(iso: string)

  /** The text `_hash_parts` feeds to the hasher: every part followed by `||`, in order. */
  function HashPreimage(parts: seq<string>): string {
    if parts == [] then "" else parts[0] + "||" + HashPreimage(parts[1..])
  }

  /** `_hash_parts(parts)`. */
  function HashParts(sha: Sha256, parts: seq<string>): (r: string)
    ensures IsHexDigest(r)
  {
    sha(HashPreimage(parts))
  }

  lemma {:induction false} HashPreimageAppend(a: seq<string>, b: seq<string>)
    ensures HashPreimage(a + b) == HashPreimage(a) + HashPreimage(b)
  {
    if a != [] {
      assert (a + b)[0] == a[0];
      assert (a + b)[1..] == a[1..] + b;
      HashPreimageAppend(a[1..], b);
    } else {
      assert a + b == b;
    }
  }

  /** Changing exactly one part, all others fixed, changes the hashed pre-image. */
  lemma PreimageChangesWithOnePart(parts: seq<string>, i: nat, x: string)
    requires i < |parts| && parts[i] != x
    ensures HashPreimage(parts) != HashPreimage(parts[i := x])
  {
    var other := parts[i := x];
    assert parts == parts[..i] + [parts[i]] + parts[i + 1..];
    assert other == parts[..i] + [x] + parts[i + 1..];
    HashPreimageAppend(parts[..i] + [parts[i]], parts[i + 1..]);
    HashPreimageAppend(parts[..i], [parts[i]]);
    HashPreimageAppend(parts[..i] + [x], parts[i + 1..]);
    HashPreimageAppend(parts[..i], [x]);
    var p := HashPreimage(parts[..i]);
    var q := HashPreimage(parts[i + 1..]);
    assert HashPreimage([parts[i]]) == parts[i] + "||";
    assert HashPreimage([x]) == x + "||";
    assert HashPreimage(parts) == p + (parts[i] + "||") + q;
    assert HashPreimage(other) == p + (x + "||") + q;
    var a := p + (parts[i] + "||") + q;
    var b := p + (x + "||") + q;
    if |parts[i]| != |x| {
      assert |a| != |b|;
    } else {
      assert a[|p|..|p| + |x|] == parts[i];
      assert b[|p|..|p| + |x|] == x;
    }
  }

  // ---------------------------------------------------------------------------------------------
  // Text normalisation
  // ---------------------------------------------------------------------------------------------

  /** `re.sub(r"\s+", " ", s[i..])`: every maximal run of whitespace becomes a single space, and the text
      between runs is copied. */
  function CollapseFrom(s: string, i: nat): string
    requires i <= |s|
    decreases |s| - i
  {
    if i == |s| then []
    else if IsSpace(s[i]) then " " + CollapseFrom(s, SkipSpaces(s, i))
    else
      var b := SkipWord(s, i);
      s[i..b] + CollapseFrom(s, b)
  }

  /** `re.sub(r"\s+", " ", s)`. */
  function CollapseWhitespace(s: string): string {
    CollapseFrom(s, 0)
  }

  /** The shape of normalised text: whitespace only as single inner spaces. */
  predicate IsNormalised(r: string) {
    forall i :: 0 <= i < |r| && IsSpace(r[i]) ==> r[i] == ' ' && 0 < i < |r| - 1 && !IsSpace(r[i + 1])
  }

  /** `normalize_text(value)`: `None` or "" give "", otherwise NFC, strip and collapse whitespace runs. */
  function NormalizeText(value: Option<string>): (r: string)
    ensures IsNormalised(r)
    ensures value.None? ==> r == ""
  {
    var s := value.GetOr("");
    NormalizeIsJoinOfWords(s);
    SplitWords(s);
    JoinedWordsAreNormalised(Split(s));
    CollapseWhitespace(Strip(s))
  }

  lemma JoinCons(sep: string, w: string, ws: seq<string>)
    requires ws != []
    ensures Join(sep, [w] + ws) == w + sep + Join(sep, ws)
  {
    assert ([w] + ws)[1..] == ws;
  }

  /** On text that does not end with whitespace, collapsing from the start of a word joins the remaining
      words with single spaces. */
  lemma {:induction false} CollapseTrimmedFrom(t: string, i: nat)
    requires i <= |t|
    requires i < |t| ==> !IsSpace(t[i])
    requires |t| > 0 ==> !IsSpace(t[|t| - 1])
    ensures CollapseFrom(t, i) == Join(" ", WordsFrom(t, i).ToSeq())
    decreases |t| - i
  {
    if i < |t| {
      SkipSpacesAt(t, i, i);
      var b := SkipWord(t, i);
      SkipWordSpec(t, i);
      var w := t[i..b];
      assert WordsFrom(t, i) == Cons(w, WordsFrom(t, b));
      if b < |t| {
        var c := SkipSpaces(t, b);
        SkipSpacesSpec(t, b);
        assert c < |t|;
        assert CollapseFrom(t, b) == " " + CollapseFrom(t, c);
        CollapseTrimmedFrom(t, c);
        WordsFromSkip(t, b);
        JoinCons(" ", w, WordsFrom(t, c).ToSeq());
      }
    }
  }

  /** Scanning whitespace in a window `s[a..e]` followed only by whitespace is scanning it in `s`. */
  lemma WindowSkipSpaces(s: string, a: nat, e: nat, i: nat)
    requires a <= e <= |s| && i <= e - a
    requires forall k :: e <= k < |s| ==> IsSpace(s[k])
    ensures SkipSpaces(s, a + i) == if SkipSpaces(s[a..e], i) == e - a then |s| else a + SkipSpaces(s[a..e], i)
  {
    var t := s[a..e];
    var c := SkipSpaces(t, i);
    SkipSpacesSpec(t, i);
    forall k | a + i <= k < a + c ensures IsSpace(s[k]) {
      assert s[k] == t[k - a];
    }
    if c == |t| {
      SkipSpacesAt(s, a + i, |s|);
    } else {
      assert s[a + c] == t[c];
      SkipSpacesAt(s, a + i, a + c);
    }
  }

  /** Scanning a word in a window `s[a..e]` followed only by whitespace is scanning it in `s`. */
  lemma WindowSkipWord(s: string, a: nat, e: nat, c: nat)
    requires a <= e <= |s| && c <= e - a
    requires forall k :: e <= k < |s| ==> IsSpace(s[k])
    ensures SkipWord(s, a + c) == a + SkipWord(s[a..e], c)
  {
    var t := s[a..e];
    var b := SkipWord(t, c);
    SkipWordSpec(t, c);
    forall k | a + c <= k < a + b ensures !IsSpace(s[k]) {
      assert s[k] == t[k - a];
    }
    if b < |t| {
      assert s[a + b] == t[b];
    }
    SkipWordAt(s, a + c, a + b);
  }

  /** The words of a window `s[a..e]` followed only by whitespace are the words of `s` from `a` on. */
  lemma {:induction false} WordsOfWindow(s: string, a: nat, e: nat, i: nat)
    requires a <= e <= |s| && i <= e - a
    requires forall k :: e <= k < |s| ==> IsSpace(s[k])
    ensures WordsFrom(s[a..e], i) == WordsFrom(s, a + i)
    decreases e - a - i
  {
    var t := s[a..e];
    var c := SkipSpaces(t, i);
    WindowSkipSpaces(s, a, e, i);
    if c < |t| {
      var b := SkipWord(t, c);
      WindowSkipWord(s, a, e, c);
      WordsOfWindow(s, a, e, b);
      SliceOfSlice(s, a, e, c, b);
      WordsFromStep(t, i, c, b);
      WordsFromStep(s, a + i, a + c, a + b);
      ConsEqual(WordsFrom(t, i), WordsFrom(s, a + i), t[c..b], s[a + c..a + b], WordsFrom(t, b), WordsFrom(s, a + b));
    }
  }

  /** Stripping does not change the words. */
  lemma SplitOfStrip(s: string)
    ensures Split(Strip(s)) == Split(s)
  {
    var a := SkipSpaces(s, 0);
    var e := TrimEnd(s, a, |s|);
    TrimEndSpec(s, a, |s|);
    WordsOfWindow(s, a, e, 0);
    WordsFromSkip(s, 0);
  }

  /** `normalize_text(s)` is the words of `s` joined by single spaces. */
  lemma NormalizeIsJoinOfWords(s: string)
    ensures CollapseWhitespace(Strip(s)) == Join(" ", Split(s))
  {
    CollapseTrimmedFrom(Strip(s), 0);
    SplitOfStrip(s);
  }

  lemma {:induction false} JoinedWordsAreNormalised(ws: seq<string>)
    requires AreWords(ws)
    ensures IsNormalised(Join(" ", ws))
    ensures |ws| > 0 ==> |Join(" ", ws)| > 0 && !IsSpace(Join(" ", ws)[0])
  {
    if |ws| > 1 {
      JoinedWordsAreNormalised(ws[1..]);
      var w := ws[0];
      var j := Join(" ", ws[1..]);
      var r := w + " " + j;
      assert forall i :: 0 <= i < |w| ==> r[i] == w[i];
      forall i | 0 <= i < |r| && IsSpace(r[i])
        ensures r[i] == ' ' && 0 < i < |r| - 1 && !IsSpace(r[i + 1])
      {
        if i == |w| {
          assert r[i + 1] == j[0];
        } else {
          assert r[i] == j[i - |w| - 1];
          if i + 1 < |r| { assert r[i + 1] == j[i - |w|]; }
        }
      }
    }
  }

  /** The words after a prefix are the words of what follows it. */
  lemma {:induction false} WordsAfterPrefix(p: string, q: string, i: nat)
    requires i <= |q|
    ensures WordsFrom(p + q, |p| + i) == WordsFrom(q, i)
    decreases |q| - i
  {
    var s := p + q;
    var c := SkipSpaces(q, i);
    SkipSpacesSpec(q, i);
    forall k | |p| + i <= k < |p| + c ensures IsSpace(s[k]) {
      assert s[k] == q[k - |p|];
    }
    if c < |q| {
      assert s[|p| + c] == q[c];
    }
    SkipSpacesAt(s, |p| + i, |p| + c);
    if c < |q| {
      var b := SkipWord(q, c);
      SkipWordSpec(q, c);
      forall k | |p| + c <= k < |p| + b ensures !IsSpace(s[k]) {
        assert s[k] == q[k - |p|];
      }
      if b < |q| {
        assert s[|p| + b] == q[b];
      }
      SkipWordAt(s, |p| + c, |p| + b);
      assert s[|p| + c..|p| + b] == q[c..b];
      WordsAfterPrefix(p, q, b);
    }
  }

  /** A word, one space, then text starting with a word: the first word, then the words of the rest. */
  lemma WordsOfWordThenRest(w: string, j: string)
    requires |w| > 0 && NoSpace(w) && |j| > 0 && !IsSpace(j[0])
    ensures WordsFrom(w + " " + j, 0) == Cons(w, WordsFrom(j, 0))
  {
    var p := w + " ";
    var s := p + j;
    assert w + " " + j == s;
    assert forall k :: 0 <= k < |w| ==> s[k] == w[k];
    assert s[|w|] == ' ' && s[|p|] == j[0];
    SkipSpacesAt(s, 0, 0);
    SkipWordAt(s, 0, |w|);
    assert s[0..|w|] == w;
    SkipSpacesAt(s, |w|, |p|);
    WordsFromSkip(s, |w|);
    WordsAfterPrefix(p, j, 0);
  }

  lemma WordsOfOneWord(w: string)
    requires |w| > 0 && NoSpace(w)
    ensures WordsFrom(w, 0) == Cons(w, Nil)
  {
    SkipSpacesAt(w, 0, 0);
    SkipWordAt(w, 0, |w|);
    assert w[0..|w|] == w;
  }

  /** Splitting joined words gives the words back. */
  lemma {:induction false} SplitOfJoin(ws: seq<string>)
    requires AreWords(ws)
    ensures Split(Join(" ", ws)) == ws
  {
    if |ws| == 1 {
      WordsOfOneWord(ws[0]);
    } else if |ws| > 1 {
      var rest := ws[1..];
      assert AreWords(rest) by {
        assert forall k :: 0 <= k < |rest| ==> rest[k] == ws[k + 1];
      }
      JoinedWordsAreNormalised(rest);
      WordsOfWordThenRest(ws[0], Join(" ", rest));
      SplitOfJoin(rest);
      assert ws == [ws[0]] + rest;
    }
  }

  /** Normalising twice is normalising once. */
  lemma NormalizeIdempotent(s: string)
    ensures NormalizeText(Some(NormalizeText(Some(s)))) == NormalizeText(Some(s))
  {
    NormalizeIsJoinOfWords(s);
    var n := NormalizeText(Some(s));
    NormalizeIsJoinOfWords(n);
    SplitWords(s);
    SplitOfJoin(Split(s));
  }

  /** Two texts with the same words normalise alike, however their whitespace is laid out. */
  lemma NormalizeLayoutInsensitive(s: string, t: string)
    requires Split(s) == Split(t)
    ensures NormalizeText(Some(s)) == NormalizeText(Some(t))
  {
    NormalizeIsJoinOfWords(s);
    NormalizeIsJoinOfWords(t);
  }

  // ---------------------------------------------------------------------------------------------
  // Case mapping commutes with normalisation
  // ---------------------------------------------------------------------------------------------

  lemma LowerAppend(a: string, b: string)
    ensures Lower(a + b) == Lower(a) + Lower(b)
  {
  }

  /** Every word lower-cased. */
  function LowerWords(ws: Words): Words {
    if ws.Nil? then Nil else Cons(Lower(ws.head), LowerWords(ws.tail))
  }

  /** Lower-casing keeps every character's whitespace class, so it keeps the word boundaries. */
  lemma {:induction false} WordsOfLower(s: string, i: nat)
    requires i <= |s|
    ensures WordsFrom(Lower(s), i) == LowerWords(WordsFrom(s, i))
    decreases |s| - i
  {
    var ls := Lower(s);
    var a := SkipSpaces(s, i);
    SkipSpacesSpec(s, i);
    SkipSpacesAt(ls, i, a);
    if a < |s| {
      var b := SkipWord(s, a);
      SkipWordSpec(s, a);
      SkipWordAt(ls, a, b);
      assert ls[a..b] == Lower(s[a..b]);
      WordsOfLower(s, b);
    }
  }

  /** Lower-casing joined words is joining the lower-cased words. */
  lemma {:induction false} LowerJoin(ws: Words)
    ensures Lower(Join(" ", ws.ToSeq())) == Join(" ", LowerWords(ws).ToSeq())
  {
    if ws.Cons? {
      if ws.tail.Nil? {
        assert ws.ToSeq() == [ws.head];
        assert LowerWords(ws).ToSeq() == [Lower(ws.head)];
      } else {
        LowerJoin(ws.tail);
        JoinCons(" ", ws.head, ws.tail.ToSeq());
        JoinCons(" ", Lower(ws.head), LowerWords(ws.tail).ToSeq());
        LowerAppend(ws.head + " ", Join(" ", ws.tail.ToSeq()));
        LowerAppend(ws.head, " ");
      }
    }
  }

  /** `normalize_text(s).lower()` is `normalize_text(s.lower())`. */
  lemma LowerNormalize(s: string)
    ensures Lower(NormalizeText(Some(s))) == NormalizeText(Some(Lower(s)))
  {
    NormalizeIsJoinOfWords(s);
    NormalizeIsJoinOfWords(Lower(s));
    LowerJoin(WordsFrom(s, 0));
    WordsOfLower(s, 0);
  }

  // ---------------------------------------------------------------------------------------------
  // Canonical identifiers
  // ---------------------------------------------------------------------------------------------

  /** The normalised, lower-cased form every canonical id hashes for its free-text inputs. */
  function Key(s: string): string {
    Lower(NormalizeText(Some(s)))
  }

  /** `canonical_doc_id(matter_id, title)`. */
  function CanonicalDocId(sha: Sha256, matterId: string, title: string): (r: string)
    ensures IsHexDigest(r)
  {
    HashParts(sha, [Strip(matterId), Key(title)])
  }

  /** `canonical_version_id(doc_id, file_name, uploader, ts)`. */
  function CanonicalVersionId(sha: Sha256, docId: string, fileName: string, uploader: string, ts: Timestamp): (r: string)
    ensures IsHexDigest(r)
  {
    HashParts(sha, VersionIdParts(docId, fileName, uploader, ts))
  }

  function VersionIdParts(docId: string, fileName: string, uploader: string, ts: Timestamp): seq<string> {
    [docId, Key(fileName), Key(uploader), ts.iso]
  }

  /** `str(n or "")` for an optional integer: `None` and `0` are both falsy and render as "". */
  function OffsetText(n: Option<int>): (r: string)
    ensures r == "" <==> n.None? || n.value == 0
  {
    match n
    case None => ""
    case Some(v) => if v == 0 then "" else IntToString(v)
  }

  /** `canonical_clause_id(version_id, section_path, start_char, end_char, text_hash)`. */
  function CanonicalClauseId(sha: Sha256, versionId: string, sectionPath: string, startChar: Option<int>,
                             endChar: Option<int>, textHash: Option<string>): (r: string)
    ensures IsHexDigest(r)
  {
    HashParts(sha, ClauseIdParts(versionId, sectionPath, startChar, endChar, textHash))
  }

  function ClauseIdParts(versionId: string, sectionPath: string, startChar: Option<int>, endChar: Option<int>,
                         textHash: Option<string>): seq<string> {
    [versionId, Key(sectionPath), OffsetText(startChar), OffsetText(endChar), Lower(textHash.GetOr(""))]
  }

  /** `canonical_recommendation_id(clause_id, issue_type, ts)`. */
  function CanonicalRecommendationId(sha: Sha256, clauseId: string, issueType: string, ts: Timestamp): (r: string)
    ensures IsHexDigest(r)
  {
    HashParts(sha, [clauseId, Key(issueType), ts.iso])
  }

  /** `canonical_decision_id(rec_id, actor, ts)`. */
  function CanonicalDecisionId(sha: Sha256, recId: string, actor: string, ts: Timestamp): (r: string)
    ensures IsHexDigest(r)
  {
    HashParts(sha, [recId, Key(actor), ts.iso])
  }

  /** The document id ignores the title's case and whitespace layout and the matter id's outer whitespace. */
  lemma DocIdIgnoresCaseAndLayout(sha: Sha256, matter1: string, title1: string, matter2: string, title2: string)
    requires Strip(matter1) == Strip(matter2)
    requires Split(Lower(title1)) == Split(Lower(title2))
    ensures CanonicalDocId(sha, matter1, title1) == CanonicalDocId(sha, matter2, title2)
  {
    KeyIgnoresCaseAndLayout(title1, title2);
  }

  /** `normalize_text(s).lower()` depends only on the words of the lower-cased text. */
  lemma KeyIgnoresCaseAndLayout(s: string, t: string)
    requires Split(Lower(s)) == Split(Lower(t))
    ensures Key(s) == Key(t)
  {
    LowerNormalize(s);
    LowerNormalize(t);
    NormalizeLayoutInsensitive(Lower(s), Lower(t));
  }

  /** The version id ignores the case and whitespace layout of the file name and of the uploader. */
  lemma VersionIdIgnoresCaseAndLayout(sha: Sha256, docId: string, file1: string, file2: string,
                                      uploader1: string, uploader2: string, ts: Timestamp)
    requires Split(Lower(file1)) == Split(Lower(file2))
    requires Split(Lower(uploader1)) == Split(Lower(uploader2))
    ensures CanonicalVersionId(sha, docId, file1, uploader1, ts) == CanonicalVersionId(sha, docId, file2, uploader2, ts)
  {
    KeyIgnoresCaseAndLayout(file1, file2);
    KeyIgnoresCaseAndLayout(uploader1, uploader2);
  }

  /** A file name whose key (normalised, then lower-cased) differs yields a different version-id pre-image;
      names that differ only in case share a key, and so a pre-image. */
  lemma VersionPreimageChangesWithFileName(docId: string, file1: string, file2: string, uploader: string, ts: Timestamp)
    requires Key(file1) != Key(file2)
    ensures HashPreimage(VersionIdParts(docId, file1, uploader, ts)) != HashPreimage(VersionIdParts(docId, file2, uploader, ts))
  {
    var parts := VersionIdParts(docId, file1, uploader, ts);
    assert VersionIdParts(docId, file2, uploader, ts) == parts[1 := Key(file2)];
    PreimageChangesWithOnePart(parts, 1, Key(file2));
  }

  /** A start or end offset of 0 gives the same clause id as a missing one, and so does an empty text hash. */
  lemma ClauseIdZeroOffsetIsMissing(sha: Sha256, versionId: string, sectionPath: string, endChar: Option<int>,
                                    textHash: Option<string>)
    ensures CanonicalClauseId(sha, versionId, sectionPath, Some(0), endChar, textHash)
         == CanonicalClauseId(sha, versionId, sectionPath, None, endChar, textHash)
    ensures CanonicalClauseId(sha, versionId, sectionPath, endChar, Some(0), textHash)
         == CanonicalClauseId(sha, versionId, sectionPath, endChar, None, textHash)
    ensures CanonicalClauseId(sha, versionId, sectionPath, endChar, endChar, Some(""))
         == CanonicalClauseId(sha, versionId, sectionPath, endChar, endChar, None)
  {
  }

  /** A non-zero start offset is hashed, so it is distinguished from a missing one. */
  lemma ClauseIdNonZeroOffsetDiffers(versionId: string, sectionPath: string, start: int, endChar: Option<int>,
                                     textHash: Option<string>)
    requires start != 0
    ensures HashPreimage(ClauseIdParts(versionId, sectionPath, Some(start), endChar, textHash))
         != HashPreimage(ClauseIdParts(versionId, sectionPath, None, endChar, textHash))
  {
    var parts := ClauseIdParts(versionId, sectionPath, Some(start), endChar, textHash);
    assert ClauseIdParts(versionId, sectionPath, None, endChar, textHash) == parts[2 := ""];
    PreimageChangesWithOnePart(parts, 2, "");
  }

  /** The recommendation id ignores the issue type's case and whitespace layout. */
  lemma RecommendationIdIgnoresIssueLayout(sha: Sha256, clauseId: string, issue1: string, issue2: string, ts: Timestamp)
    requires Split(Lower(issue1)) == Split(Lower(issue2))
    ensures CanonicalRecommendationId(sha, clauseId, issue1, ts) == CanonicalRecommendationId(sha, clauseId, issue2, ts)
  {
    KeyIgnoresCaseAndLayout(issue1, issue2);
  }

  /** The recommendation and decision ids hash an id, a keyed name and a timestamp: names (issue types, or actors)
      whose keys, normalised and then lower-cased, differ give different pre-images. */
  lemma KeyedPreimageChangesWithName(id: string, name1: string, name2: string, ts: Timestamp)
    requires Key(name1) != Key(name2)
    ensures HashPreimage([id, Key(name1), ts.iso]) != HashPreimage([id, Key(name2), ts.iso])
  {
    var parts := [id, Key(name1), ts.iso];
    assert [id, Key(name2), ts.iso] == parts[1 := Key(name2)];
    PreimageChangesWithOnePart(parts, 1, Key(name2));
  }

  /** The decision id ignores the actor's case and whitespace layout. */
  lemma DecisionIdIgnoresActorLayout(sha: Sha256, recId: string, actor1: string, actor2: string, ts: Timestamp)
    requires Split(Lower(actor1)) == Split(Lower(actor2))
    ensures CanonicalDecisionId(sha, recId, actor1, ts) == CanonicalDecisionId(sha, recId, actor2, ts)
  {
    KeyIgnoresCaseAndLayout(actor1, actor2);
  }
}
