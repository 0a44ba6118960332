/**
  Sequence combinators shared by the alert and position pages: the
  `Array.prototype.filter` and `reduce`-to-a-sum idioms over immutable lists,
  and the subsequence relation used to state what a filter keeps.
 */
module Seqs {

  /** The elements of `s` satisfying `p`, in their original order
      (`Array.prototype.filter`). */
  function Filter<T(!new)>(s: seq<T>, p: T -> bool): (r: seq<T>)
    ensures |r| <= |s|
    ensures forall x :: x in r <==> x in s && p(x)
    decreases |s|
  {
    if |s| == 0 then []
    else
      assert s == [s[0]] + s[1..];
      if p(s[0]) then [s[0]] + Filter(s[1..], p) else Filter(s[1..], p)
  }

  /** `a` can be obtained from `b` by deleting elements. */
  ghost predicate IsSubseq<T>(a: seq<T>, b: seq<T>)
    decreases |b|
  {
    |a| == 0 || (|b| > 0 && ((a[0] == b[0] && IsSubseq(a[1..], b[1..])) || IsSubseq(a, b[1..])))
  }

  /** How many elements of `s` satisfy `p`, counted one position at a time. */
  function Count<T>(s: seq<T>, p: T -> bool): nat
    decreases |s|
  {
    if |s| == 0 then 0 else (if p(s[0]) then 1 else 0) + Count(s[1..], p)
  }

  /** Sum of `f` over `s` (the `reduce((sum, x) => sum + f(x), 0)` idiom). */
  function Sum<T>(s: seq<T>, f: T -> real): real
    decreases |s|
  {
    if |s| == 0 then 0.0 else f(s[0]) + Sum(s[1..], f)
  }

  /** A filter keeps the relative order of what it keeps. */
  lemma {:induction false} FilterIsSubseq<T(!new)>(s: seq<T>, p: T -> bool)
    ensures IsSubseq(Filter(s, p), s)
    decreases |s|
  {
    if |s| > 0 {
      FilterIsSubseq(s[1..], p);
      var r := Filter(s, p);
      if p(s[0]) {
        assert r[0] == s[0] && r[1..] == Filter(s[1..], p);
      } else {
        assert r == Filter(s[1..], p);
      }
    }
  }

  /** A filter that rejects nothing in `s` returns `s` itself. */
  lemma {:induction false} FilterKeepsAll<T(!new)>(s: seq<T>, p: T -> bool)
    requires forall x :: x in s ==> p(x)
    ensures Filter(s, p) == s
    decreases |s|
  {
    if |s| > 0 {
      assert s == [s[0]] + s[1..];
      FilterKeepsAll(s[1..], p);
    }
  }

  /** A filter that accepts nothing in `s` returns the empty list. */
  lemma FilterKeepsNone<T(!new)>(s: seq<T>, p: T -> bool)
    requires forall x :: x in s ==> !p(x)
    ensures Filter(s, p) == []
  {
  }

  /** A filter keeps every copy of what passes and no copy of the rest. */
  lemma {:induction false} FilterCount<T(!new)>(s: seq<T>, p: T -> bool)
    ensures forall x :: multiset(Filter(s, p))[x] == if p(x) then multiset(s)[x] else 0
    decreases |s|
  {
    if |s| > 0 {
      FilterCount(s[1..], p);
      assert s == [s[0]] + s[1..];
      assert multiset(s) == multiset{s[0]} + multiset(s[1..]);
    }
  }

  /** The length of a filter is the number of elements passing it. */
  lemma {:induction false} FilterLength<T(!new)>(s: seq<T>, p: T -> bool)
    ensures |Filter(s, p)| == Count(s, p)
    decreases |s|
  {
    if |s| > 0 {
      FilterLength(s[1..], p);
    }
  }

  /** A filter returns the empty list exactly when nothing in `s` passes. */
  lemma FilterEmptyIff<T(!new)>(s: seq<T>, p: T -> bool)
    ensures Filter(s, p) == [] <==> forall x :: x in s ==> !p(x)
  {
    var r := Filter(s, p);
    if r != [] {
      assert r[0] in r;
    }
  }

  /** A filter keeps every element exactly when everything in `s` passes. */
  lemma FilterFullIff<T(!new)>(s: seq<T>, p: T -> bool)
    ensures |Filter(s, p)| == |s| <==> forall x :: x in s ==> p(x)
  {
    var notP := (x: T) => !p(x);
    FilterPartition(s, p, notP);
    FilterEmptyIff(s, notP);
  }

  /** Two predicates that agree on `s` select the same list. */
  lemma {:induction false} FilterExt<T(!new)>(s: seq<T>, p: T -> bool, q: T -> bool)
    requires forall x :: x in s ==> p(x) == q(x)
    ensures Filter(s, p) == Filter(s, q)
    decreases |s|
  {
    if |s| > 0 {
      assert s == [s[0]] + s[1..];
      FilterExt(s[1..], p, q);
    }
  }

  /** Filtering distributes over concatenation. */
  lemma {:induction false} FilterConcat<T(!new)>(s: seq<T>, t: seq<T>, p: T -> bool)
    ensures Filter(s + t, p) == Filter(s, p) + Filter(t, p)
    decreases |s|
  {
    if |s| == 0 {
      assert s + t == t;
    } else {
      assert (s + t)[0] == s[0];
      assert (s + t)[1..] == s[1..] + t;
      FilterConcat(s[1..], t, p);
    }
  }

  /** Inserting a rejected element anywhere does not change the filter. */
  lemma {:induction false} FilterInsertRejected<T(!new)>(s: seq<T>, i: int, x: T, p: T -> bool)
    requires 0 <= i <= |s| && !p(x)
    ensures Filter(s[..i] + [x] + s[i..], p) == Filter(s, p)
    decreases i
  {
    var t := s[..i] + [x] + s[i..];
    if i == 0 {
      assert t[0] == x && t[1..] == s;
    } else {
      var u := s[1..][..i - 1] + [x] + s[1..][i - 1..];
      FilterInsertRejected(s[1..], i - 1, x, p);
      assert t[0] == s[0] && t[1..] == u;
      assert s == [s[0]] + s[1..];
    }
  }

  /** Filtering twice is filtering once by the conjunction. */
  lemma {:induction false} FilterFilter<T(!new)>(s: seq<T>, p: T -> bool, q: T -> bool, both: T -> bool)
    requires forall x :: x in s ==> both(x) == (p(x) && q(x))
    ensures Filter(Filter(s, p), q) == Filter(s, both)
    decreases |s|
  {
    if |s| > 0 {
      assert s == [s[0]] + s[1..];
      FilterFilter(s[1..], p, q, both);
      if p(s[0]) {
        var f := Filter(s, p);
        assert f == [s[0]] + Filter(s[1..], p);
        assert f[0] == s[0] && f[1..] == Filter(s[1..], p);
      }
    }
  }

  /** A predicate and its negation split `s` between them. */
  lemma {:induction false} FilterPartition<T(!new)>(s: seq<T>, p: T -> bool, q: T -> bool)
    requires forall x :: x in s ==> q(x) == !p(x)
    ensures |Filter(s, p)| + |Filter(s, q)| == |s|
    decreases |s|
  {
    if |s| > 0 {
      assert s == [s[0]] + s[1..];
      FilterPartition(s[1..], p, q);
    }
  }

  /** Summing `f` over the elements passing `p` is summing, over the whole
      list, a `g` that agrees with `f` on passing elements and is zero on the
      rest. */
  lemma {:induction false} SumFilter<T(!new)>(s: seq<T>, p: T -> bool, f: T -> real, g: T -> real)
    requires forall x :: x in s ==> g(x) == if p(x) then f(x) else 0.0
    ensures Sum(Filter(s, p), f) == Sum(s, g)
    decreases |s|
  {
    if |s| > 0 {
      assert s == [s[0]] + s[1..];
      SumFilter(s[1..], p, f, g);
      var r := Filter(s, p);
      if p(s[0]) {
        assert r[0] == s[0] && r[1..] == Filter(s[1..], p);
      }
    }
  }

  /** A sum of non-negative terms is non-negative. */
  lemma {:induction false} SumNonNegative<T>(s: seq<T>, f: T -> real)
    requires forall x :: x in s ==> f(x) >= 0.0
    ensures Sum(s, f) >= 0.0
    decreases |s|
  {
    if |s| > 0 {
      assert s[0] in s;
      assert forall x :: x in s[1..] ==> x in s;
      SumNonNegative(s[1..], f);
    }
  }
}
