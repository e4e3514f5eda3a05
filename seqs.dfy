/** Small facts about sequences used throughout the model. */
module Seqs {

  /** No element occurs twice. */
  ghost predicate Distinct<T>(s: seq<T>) {
    forall i, j :: 0 <= i < j < |s| ==> s[i] != s[j]
  }

  /** The elements of `xs` that belong to `keep`, in the order of `xs`. */
  function FilterIn<T(==,!new)>(xs: seq<T>, keep: set<T>): (r: seq<T>)
    ensures |r| <= |xs|
    ensures forall x {:trigger x in r} :: x in r <==> x in xs && x in keep
    ensures forall i :: 0 <= i < |r| ==> r[i] in keep
  {
    if |xs| == 0 then []
    else FilterIn(xs[..|xs| - 1], keep) + (if xs[|xs| - 1] in keep then [xs[|xs| - 1]] else [])
  }

  /** The set of the elements of a sequence. */
  function Elements<T(!new)>(xs: seq<T>): (r: set<T>)
    ensures forall x :: x in r <==> x in xs
  {
    set x | x in xs
  }

  lemma {:induction false} DistinctPrefix<T>(xs: seq<T>, n: nat)
    requires Distinct(xs) && n <= |xs|
    ensures Distinct(xs[..n])
  {
  }

  /** Every element of a prefix is an element of the whole sequence. */
  lemma PrefixMembers<T>(xs: seq<T>, n: nat)
    requires n <= |xs|
    ensures forall x :: x in xs[..n] ==> x in xs
  {
    forall x | x in xs[..n]
      ensures x in xs
    {
      var i :| 0 <= i < n && xs[..n][i] == x;
      assert xs[i] == x;
    }
  }

  /** The last element of a duplicate-free sequence is not among the ones before it. */
  lemma LastNotInPrefix<T>(xs: seq<T>)
    requires Distinct(xs) && |xs| > 0
    ensures xs[|xs| - 1] !in xs[..|xs| - 1]
  {
  }

  /** Appending a new element keeps a sequence duplicate-free. */
  lemma DistinctSnoc<T>(xs: seq<T>, x: T)
    requires Distinct(xs) && x !in xs
    ensures Distinct(xs + [x])
  {
    var ys := xs + [x];
    forall i, j | 0 <= i < j < |ys|
      ensures ys[i] != ys[j]
    {
      if j == |xs| {
        assert ys[i] == xs[i];
      } else {
        assert ys[i] == xs[i] && ys[j] == xs[j];
      }
    }
  }

  /** Filtering a duplicate-free sequence keeps it duplicate-free. */
  lemma {:induction false} FilterInDistinct<T(!new)>(xs: seq<T>, keep: set<T>)
    requires Distinct(xs)
    ensures Distinct(FilterIn(xs, keep))
  {
    if |xs| > 0 {
      var init := xs[..|xs| - 1];
      DistinctPrefix(xs, |xs| - 1);
      FilterInDistinct(init, keep);
      LastNotInPrefix(xs);
      var last := xs[|xs| - 1];
      if last in keep {
        assert last !in FilterIn(init, keep);
        DistinctSnoc(FilterIn(init, keep), last);
      }
    }
  }

  /** The elements of a sequence extended by one element. */
  lemma ElementsSnoc<T(!new)>(xs: seq<T>, x: T)
    ensures Elements(xs + [x]) == Elements(xs) + {x}
  {
    forall y
      ensures y in Elements(xs + [x]) <==> y in Elements(xs) + {x}
    {
      assert y in xs + [x] <==> y in xs || y == x;
    }
  }

  /** Growing the filter set by elements that do not occur in `xs` changes nothing. */
  lemma {:induction false} FilterInIgnoresAbsent<T(!new)>(xs: seq<T>, keep: set<T>, extra: set<T>)
    requires forall x :: x in extra ==> x !in xs
    ensures FilterIn(xs, keep + extra) == FilterIn(xs, keep)
  {
    if |xs| > 0 {
      FilterInIgnoresAbsent(xs[..|xs| - 1], keep, extra);
    }
  }

  /** The filter of a sequence extended by one element. */
  lemma FilterInSnoc<T(!new)>(xs: seq<T>, x: T, keep: set<T>)
    ensures FilterIn(xs + [x], keep) == FilterIn(xs, keep) + (if x in keep then [x] else [])
  {
    assert (xs + [x])[..|xs + [x]| - 1] == xs;
  }

  /** `r` is `s` with some elements left out and the rest kept in order. */
  predicate Subsequence<T(==)>(r: seq<T>, s: seq<T>)
    decreases |s|
  {
    if |r| == 0 then true
    else if |s| == 0 then false
    else (r[|r| - 1] == s[|s| - 1] && Subsequence(r[..|r| - 1], s[..|s| - 1])) || Subsequence(r, s[..|s| - 1])
  }

  /** Extending `s` by one element keeps every subsequence, with or without that element at its end. */
  lemma SubsequenceSnoc<T>(r: seq<T>, s: seq<T>, x: T)
    requires Subsequence(r, s)
    ensures Subsequence(r, s + [x]) && Subsequence(r + [x], s + [x])
  {
    assert (s + [x])[..|s + [x]| - 1] == s;
    assert (r + [x])[..|r + [x]| - 1] == r;
  }

  /** Two duplicate-free sequences with no element in common concatenate to a duplicate-free one. */
  lemma DistinctConcat<T>(a: seq<T>, b: seq<T>)
    requires Distinct(a) && Distinct(b)
    requires forall i, j :: 0 <= i < |a| && 0 <= j < |b| ==> a[i] != b[j]
    ensures Distinct(a + b)
  {
    var ab := a + b;
    forall i, j | 0 <= i < j < |ab|
      ensures ab[i] != ab[j]
    {
      if j < |a| {
        assert ab[i] == a[i] && ab[j] == a[j];
      } else if i < |a| {
        assert ab[i] == a[i] && ab[j] == b[j - |a|];
      } else {
        assert ab[i] == b[i - |a|] && ab[j] == b[j - |a|];
      }
    }
  }
}
