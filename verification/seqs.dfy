/** Sequence facts shared by the document scanners: order-preserving subsequences, and Python's ordering of
    strings (code point by code point, a proper prefix first) with the sorted, duplicate-free lists
    `sorted(set(...))` produces. */
module Seqs {

  /** `idx` picks the elements of `a` out of `b` at strictly increasing positions. */
  ghost predicate IsEmbedding<T>(idx: seq<nat>, a: seq<T>, b: seq<T>) {
    && |idx| == |a|
    && (forall k :: 0 <= k < |idx| ==> idx[k] < |b| && a[k] == b[idx[k]])
    && (forall k, m :: 0 <= k < m < |idx| ==> idx[k] < idx[m])
  }

  /** `a` can be obtained from `b` by deleting elements. */
  ghost predicate Subseq<T>(a: seq<T>, b: seq<T>) {
    exists idx: seq<nat> :: IsEmbedding(idx, a, b)
  }

  /** The positions below `n` whose element `keep` accepts, in increasing order. */
  function KeptIndices<T>(xs: seq<T>, keep: T -> bool, n: nat): (idx: seq<nat>)
    requires n <= |xs|
    ensures |idx| <= n
    ensures forall k :: 0 <= k < |idx| ==> idx[k] < n
  {
    if n == 0 then [] else KeptIndices(xs, keep, n - 1) + (if keep(xs[n - 1]) then [n - 1] else [])
  }

  /** The kept positions are increasing, each holds an accepted element, and no accepted position is
      missed. */
  lemma {:induction false} KeptIndicesSpec<T>(xs: seq<T>, keep: T -> bool, n: nat)
    requires n <= |xs|
    ensures forall k, m :: 0 <= k < m < |KeptIndices(xs, keep, n)| ==> KeptIndices(xs, keep, n)[k] < KeptIndices(xs, keep, n)[m]
    ensures forall k :: 0 <= k < |KeptIndices(xs, keep, n)| ==> keep(xs[KeptIndices(xs, keep, n)[k]])
    ensures forall i :: 0 <= i < n && keep(xs[i]) ==> i in KeptIndices(xs, keep, n)
  {
    if n > 0 {
      KeptIndicesSpec(xs, keep, n - 1);
    }
  }

  /** The elements of `xs[..n]` satisfying `keep`, in order. */
  function FilterTo<T>(xs: seq<T>, keep: T -> bool, n: nat): (r: seq<T>)
    requires n <= |xs|
    ensures |r| <= n
  {
    var idx := KeptIndices(xs, keep, n);
    seq(|idx|, k requires 0 <= k < |idx| => xs[idx[k]])
  }

  /** The elements of `xs` satisfying `keep`, in order: Python's `[x for x in xs if keep(x)]`. */
  function Filter<T>(xs: seq<T>, keep: T -> bool): (r: seq<T>)
    ensures |r| <= |xs|
  {
    FilterTo(xs, keep, |xs|)
  }

  /** Filtering one more element appends it when it is accepted: the loop form of a filter. */
  lemma FilterToStep<T>(xs: seq<T>, keep: T -> bool, n: nat)
    requires n < |xs|
    ensures FilterTo(xs, keep, n + 1) == FilterTo(xs, keep, n) + (if keep(xs[n]) then [xs[n]] else [])
  {
    var before := KeptIndices(xs, keep, n);
    assert KeptIndices(xs, keep, n + 1) == before + (if keep(xs[n]) then [n] else []);
  }

  /** Filtering a sequence with one more element in front puts that element first when it is accepted. */
  lemma FilterCons<T>(x: T, xs: seq<T>, keep: T -> bool)
    ensures Filter([x] + xs, keep) == (if keep(x) then [x] else []) + Filter(xs, keep)
  {
    FilterToCons(x, xs, keep, |xs|);
  }

  lemma {:induction false} FilterToCons<T>(x: T, xs: seq<T>, keep: T -> bool, n: nat)
    requires n <= |xs|
    ensures FilterTo([x] + xs, keep, n + 1) == (if keep(x) then [x] else []) + FilterTo(xs, keep, n)
  {
    var ys := [x] + xs;
    FilterToStep(ys, keep, n);
    if n > 0 {
      FilterToCons(x, xs, keep, n - 1);
      FilterToStep(xs, keep, n - 1);
      assert ys[n] == xs[n - 1];
    } else {
      assert FilterTo(ys, keep, 0) == [] && FilterTo(xs, keep, 0) == [];
    }
  }

  /** What a filter keeps is accepted, and it keeps exactly the accepted elements. */
  lemma FilterMembers<T>(xs: seq<T>, keep: T -> bool)
    ensures forall k :: 0 <= k < |Filter(xs, keep)| ==> keep(Filter(xs, keep)[k])
    ensures forall x :: x in Filter(xs, keep) <==> x in xs && keep(x)
  {
    var idx := KeptIndices(xs, keep, |xs|);
    var r := Filter(xs, keep);
    assert r == FilterTo(xs, keep, |xs|);
    KeptIndicesSpec(xs, keep, |xs|);
    forall x | x in xs && keep(x) ensures x in r {
      var i :| 0 <= i < |xs| && xs[i] == x;
      var k :| 0 <= k < |idx| && idx[k] == i;
      assert r[k] == x;
    }
  }

  /** `idx` lists, in increasing order, exactly the positions of `xs` whose element `keep` accepts. */
  ghost predicate Selects<T>(idx: seq<nat>, xs: seq<T>, keep: T -> bool) {
    && (forall k :: 0 <= k < |idx| ==> idx[k] < |xs|)
    && (forall k, m :: 0 <= k < m < |idx| ==> idx[k] < idx[m])
    && (forall i :: 0 <= i < |xs| ==> (keep(xs[i]) <==> i in idx))
  }

  /** A filter is the accepted positions read in increasing order. */
  lemma FilterSelects<T>(xs: seq<T>, keep: T -> bool)
    ensures Selects(KeptIndices(xs, keep, |xs|), xs, keep)
    ensures |Filter(xs, keep)| == |KeptIndices(xs, keep, |xs|)|
    ensures forall k :: 0 <= k < |Filter(xs, keep)| ==> Filter(xs, keep)[k] == xs[KeptIndices(xs, keep, |xs|)[k]]
  {
    KeptIndicesSpec(xs, keep, |xs|);
    assert Filter(xs, keep) == FilterTo(xs, keep, |xs|);
  }

  /** A filter keeps the order of what it keeps. */
  lemma FilterIsSubseq<T>(xs: seq<T>, keep: T -> bool)
    ensures Subseq(Filter(xs, keep), xs)
  {
    KeptIndicesSpec(xs, keep, |xs|);
    assert Filter(xs, keep) == FilterTo(xs, keep, |xs|);
    assert IsEmbedding(KeptIndices(xs, keep, |xs|), Filter(xs, keep), xs);
  }

  // ---------------------------------------------------------------------------------------------
  // String order
  // ---------------------------------------------------------------------------------------------

  /** Python's `a < b` on strings. */
  predicate Less(a: string, b: string)
    decreases |a|
  {
    if b == [] then false
    else if a == [] then true
    else if a[0] != b[0] then a[0] < b[0]
    else Less(a[1..], b[1..])
  }

  lemma {:induction false} LessIrreflexive(a: string)
    ensures !Less(a, a)
    decreases |a|
  {
    if a != [] {
      LessIrreflexive(a[1..]);
    }
  }

  lemma {:induction false} LessTransitive(a: string, b: string, c: string)
    requires Less(a, b) && Less(b, c)
    ensures Less(a, c)
    decreases |a|
  {
    if a != [] && a[0] == b[0] && b[0] == c[0] {
      LessTransitive(a[1..], b[1..], c[1..]);
    }
  }

  lemma {:induction false} LessTotal(a: string, b: string)
    ensures a == b || Less(a, b) || Less(b, a)
    decreases |a|
  {
    if a != [] && b != [] && a[0] == b[0] {
      LessTotal(a[1..], b[1..]);
      if a[1..] == b[1..] {
        assert a == [a[0]] + a[1..] && b == [b[0]] + b[1..];
      }
    }
  }

  predicate StrictlySorted(xs: seq<string>) {
    forall i, j :: 0 <= i < j < |xs| ==> Less(xs[i], xs[j])
  }

  /** `x` added to a strictly sorted list, at its place, unless already present. */
  function Insert(xs: seq<string>, x: string): (r: seq<string>)
    requires StrictlySorted(xs)
    ensures StrictlySorted(r)
    ensures forall y :: y in r <==> y in xs || y == x
  {
    if xs == [] then [x]
    else if x == xs[0] then xs
    else if Less(x, xs[0]) then
      forall j | 0 <= j < |xs| ensures Less(x, xs[j]) {
        if j > 0 {
          LessTransitive(x, xs[0], xs[j]);
        }
      }
      [x] + xs
    else
      LessTotal(x, xs[0]);
      var rest := Insert(xs[1..], x);
      assert forall y :: y in rest ==> Less(xs[0], y);
      [xs[0]] + rest
  }

  lemma LessAsymmetric(a: string, b: string)
    ensures !(Less(a, b) && Less(b, a))
  {
    if Less(a, b) && Less(b, a) {
      LessTransitive(a, b, a);
      LessIrreflexive(a);
    }
  }

  /** The head of a strictly sorted list is its least element. */
  lemma HeadIsLeast(xs: seq<string>, y: string)
    requires StrictlySorted(xs) && y in xs
    ensures y == xs[0] || Less(xs[0], y)
  {
    var k :| 0 <= k < |xs| && xs[k] == y;
  }

  /** Strictly sorted lists with the same elements are equal: the sorted, duplicate-free list of a set is
      unique. */
  lemma {:induction false} SortedUnique(xs: seq<string>, ys: seq<string>)
    requires StrictlySorted(xs) && StrictlySorted(ys)
    requires forall y :: y in xs <==> y in ys
    ensures xs == ys
    decreases |xs|
  {
    if xs != [] {
      assert xs[0] in ys;
    }
    if ys != [] {
      assert ys[0] in xs;
    }
    if xs != [] && ys != [] {
      HeadIsLeast(xs, ys[0]);
      HeadIsLeast(ys, xs[0]);
      LessAsymmetric(xs[0], ys[0]);
      forall y ensures y in xs[1..] <==> y in ys[1..] {
        if y in xs[1..] {
          var k :| 1 <= k < |xs| && xs[k] == y;
          assert Less(xs[0], xs[k]);
          LessIrreflexive(y);
          assert y in ys;
          var m :| 0 <= m < |ys| && ys[m] == y;
          assert m != 0;
          assert ys[1..][m - 1] == y;
        }
        if y in ys[1..] {
          var k :| 1 <= k < |ys| && ys[k] == y;
          assert Less(ys[0], ys[k]);
          LessIrreflexive(y);
          assert y in xs;
          var m :| 0 <= m < |xs| && xs[m] == y;
          assert m != 0;
          assert xs[1..][m - 1] == y;
        }
      }
      SortedUnique(xs[1..], ys[1..]);
      assert xs == [xs[0]] + xs[1..] && ys == [ys[0]] + ys[1..];
    }
  }
}
