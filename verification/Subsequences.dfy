/** Subsequences: leaving elements out keeps the order of the others and repeats none, what
    is left out once can be left out in two steps, a suffix is one, and of a sequence of
    distinct elements a subsequence is told by its elements alone. */
module Subsequences {

  /** `xs` is `ys` with some elements left out. */
  predicate Subsequence<T(==)>(xs: seq<T>, ys: seq<T>)
    decreases |ys|
  {
    || xs == []
    || (ys != [] && Subsequence(xs, ys[..|ys| - 1]))
    || (ys != [] && xs[|xs| - 1] == ys[|ys| - 1] && Subsequence(xs[..|xs| - 1], ys[..|ys| - 1]))
  }

  lemma SubsequenceSnoc<T>(xs: seq<T>, ys: seq<T>, e: T)
    requires Subsequence(xs, ys)
    ensures Subsequence(xs + [e], ys + [e]) && Subsequence(xs, ys + [e])
  {
  }

  lemma {:induction false} SubsequenceTrans<T>(xs: seq<T>, ys: seq<T>, zs: seq<T>)
    requires Subsequence(xs, ys) && Subsequence(ys, zs)
    ensures Subsequence(xs, zs)
    decreases |zs|
  {
    if xs != [] && ys != [] {
      if Subsequence(ys, zs[..|zs| - 1]) {
        SubsequenceTrans(xs, ys, zs[..|zs| - 1]);
      } else if Subsequence(xs, ys[..|ys| - 1]) {
        SubsequenceTrans(xs, ys[..|ys| - 1], zs[..|zs| - 1]);
      } else {
        SubsequenceTrans(xs[..|xs| - 1], ys[..|ys| - 1], zs[..|zs| - 1]);
      }
    }
  }

  predicate Distinct<T(==)>(xs: seq<T>) {
    forall i, j :: 0 <= i < j < |xs| ==> xs[i] != xs[j]
  }

  predicate Before<T(==)>(xs: seq<T>, x: T, y: T) {
    exists i, j :: 0 <= i < j < |xs| && xs[i] == x && xs[j] == y
  }

  lemma BeforeAcross<T>(xs: seq<T>, ys: seq<T>, x: T, y: T)
    requires x in xs && y in ys
    ensures Before(xs + ys, x, y)
  {
    var k :| 0 <= k < |xs| && xs[k] == x;
    var m :| 0 <= m < |ys| && ys[m] == y;
    assert (xs + ys)[k] == x && (xs + ys)[|xs| + m] == y;
  }

  lemma SamePrefix<T>(xs: seq<T>, ys: seq<T>, zs: seq<T>)
    ensures xs + ys == xs + zs <==> ys == zs
  {
    assert (xs + ys)[|xs|..] == ys && (xs + zs)[|xs|..] == zs;
  }

  lemma {:induction false} SubsequenceIn<T>(xs: seq<T>, ys: seq<T>)
    requires Subsequence(xs, ys)
    ensures forall x :: x in xs ==> x in ys
    decreases |ys|
  {
    if xs != [] {
      var front := ys[..|ys| - 1];
      assert ys == front + [ys[|ys| - 1]] && xs == xs[..|xs| - 1] + [xs[|xs| - 1]];
      if Subsequence(xs, front) { SubsequenceIn(xs, front); } else { SubsequenceIn(xs[..|xs| - 1], front); }
    }
  }

  lemma {:induction false} SubsequenceDistinct<T>(xs: seq<T>, ys: seq<T>)
    requires Subsequence(xs, ys) && Distinct(ys)
    ensures Distinct(xs)
    decreases |ys|
  {
    if xs != [] {
      var front, last := ys[..|ys| - 1], ys[|ys| - 1];
      if Subsequence(xs, front) {
        SubsequenceDistinct(xs, front);
      } else {
        SubsequenceDistinct(xs[..|xs| - 1], front);
        SubsequenceIn(xs[..|xs| - 1], front);
        assert last !in front;
      }
    }
  }

  lemma {:induction false} SuffixIsSubsequence<T>(xs: seq<T>, ys: seq<T>)
    ensures Subsequence(ys, xs + ys)
    decreases |ys|
  {
    if ys != [] {
      SuffixIsSubsequence(xs, ys[..|ys| - 1]);
      assert (xs + ys)[..|xs + ys| - 1] == xs + ys[..|ys| - 1];
    }
  }

  /** Distinct elements can be left out of a sequence in one way only. */
  lemma {:induction false} SubsequenceUnique<T>(xs: seq<T>, ys: seq<T>, zs: seq<T>)
    requires Subsequence(xs, zs) && Subsequence(ys, zs) && Distinct(zs)
    requires forall x :: x in xs <==> x in ys
    ensures xs == ys
    decreases |zs|
  {
    assert (xs != [] ==> xs[0] in xs) && (ys != [] ==> ys[0] in ys);
    if xs != [] {
      var front, last := zs[..|zs| - 1], zs[|zs| - 1];
      assert last !in front;
      if last in xs {
        LastIsLast(xs, zs);
        LastIsLast(ys, zs);
        var xs', ys' := xs[..|xs| - 1], ys[..|ys| - 1];
        assert xs == xs' + [last] && ys == ys' + [last];
        SubsequenceIn(xs', front);
        SubsequenceIn(ys', front);
        forall x ensures x in xs' <==> x in ys' {
          assert x in xs' ==> x in xs && x != last;
          assert x in ys' ==> x in ys && x != last;
        }
        SubsequenceUnique(xs', ys', front);
      } else {
        assert xs[|xs| - 1] in xs && ys[|ys| - 1] in ys;
        SubsequenceUnique(xs, ys, front);
      }
    }
  }

  lemma LastIsLast<T>(xs: seq<T>, zs: seq<T>)
    requires Subsequence(xs, zs) && Distinct(zs) && zs != [] && zs[|zs| - 1] in xs
    ensures xs[|xs| - 1] == zs[|zs| - 1] && Subsequence(xs[..|xs| - 1], zs[..|zs| - 1])
  {
    var front, last := zs[..|zs| - 1], zs[|zs| - 1];
    assert last !in front;
    if Subsequence(xs, front) { SubsequenceIn(xs, front); }
  }
}
