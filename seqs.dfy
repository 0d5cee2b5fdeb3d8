/** Sequence helpers shared by the table models: filtering, de-duplication
    and keeping the present values of a list of optional ones. */
module Seqs {
  import opened Wrappers

  predicate NoDuplicates<T(==)>(s: seq<T>) {
    forall i, j :: 0 <= i < j < |s| ==> s[i] != s[j]
  }

  /** The elements of `s` that satisfy `p`, in their original order. */
  function Filter<T(!new)>(s: seq<T>, p: T -> bool): (r: seq<T>)
    ensures |r| <= |s|
    ensures forall x :: x in r <==> x in s && p(x)
  {
    if s == [] then [] else (if p(s[0]) then [s[0]] else []) + Filter(s[1..], p)
  }

  /** Filtering a concatenation filters each part: the kept elements stay in order. */
  lemma {:induction false} FilterConcat<T(!new)>(a: seq<T>, b: seq<T>, p: T -> bool)
    ensures Filter(a + b, p) == Filter(a, p) + Filter(b, p)
  {
    if a == [] {
      assert a + b == b;
    } else {
      assert (a + b)[0] == a[0] && (a + b)[1..] == a[1..] + b;
      FilterConcat(a[1..], b, p);
    }
  }

  /** Filtering by a predicate and by its negation splits `s` into two parts
      that together hold every element exactly as often as `s` does. */
  lemma {:induction false} FilterPartition<T(!new)>(s: seq<T>, p: T -> bool, q: T -> bool)
    requires forall x :: q(x) == !p(x)
    ensures multiset(Filter(s, p)) + multiset(Filter(s, q)) == multiset(s)
  {
    if s != [] {
      var rest := s[1..];
      var fp, fq := Filter(rest, p), Filter(rest, q);
      FilterPartition(rest, p, q);
      assert multiset(fp) + multiset(fq) == multiset(rest);
      assert s == [s[0]] + rest;
      assert multiset(s) == multiset{s[0]} + multiset(rest);
      if p(s[0]) {
        assert Filter(s, p) == [s[0]] + fp;
        assert Filter(s, q) == fq;
        assert multiset(Filter(s, p)) == multiset{s[0]} + multiset(fp);
      } else {
        assert Filter(s, p) == fp;
        assert Filter(s, q) == [s[0]] + fq;
        assert multiset(Filter(s, q)) == multiset{s[0]} + multiset(fq);
      }
    }
  }

  /** Filtering a duplicate-free sequence keeps it duplicate-free. */
  lemma {:induction false} FilterNoDuplicates<T(!new)>(s: seq<T>, p: T -> bool)
    requires NoDuplicates(s)
    ensures NoDuplicates(Filter(s, p))
  {
    if s != [] {
      FilterNoDuplicates(s[1..], p);
      assert s[0] !in s[1..];
    }
  }

  /** The distinct values of `s` in order of first appearance
      (pandas' `Series.unique()`). */
  function Dedup<T(==,!new)>(s: seq<T>): (r: seq<T>)
    ensures NoDuplicates(r)
    ensures forall x :: x in r <==> x in s
  {
    if s == [] then []
    else
      var d := Dedup(s[..|s| - 1]);
      assert forall x :: x in s <==> x in s[..|s| - 1] || x == s[|s| - 1];
      if s[|s| - 1] in d then d else d + [s[|s| - 1]]
  }

  /** Appending values never reorders the distinct values seen so far:
      the distinct values of a prefix are a prefix of the distinct values. */
  lemma {:induction false} DedupPrefix<T(!new)>(s: seq<T>, t: seq<T>)
    ensures Dedup(s) <= Dedup(s + t)
  {
    if t != [] {
      var u := s + t[..|t| - 1];
      assert (s + t)[..|s + t| - 1] == u;
      DedupPrefix(s, t[..|t| - 1]);
    } else {
      assert s + t == s;
    }
  }

  /** The values of the `Some` entries of `xs`, in order. */
  function Present<T(!new)>(xs: seq<Option<T>>): (r: seq<T>)
    ensures |r| <= |xs|
    ensures forall x :: x in r <==> Some(x) in xs
  {
    if xs == [] then []
    else
      var rest := Present(xs[1..]);
      assert forall o :: o in xs <==> o == xs[0] || o in xs[1..];
      if xs[0].Some? then [xs[0].value] + rest else rest
  }

  /** Keeping the present values of a concatenation keeps those of each part, in order. */
  lemma {:induction false} PresentConcat<T(!new)>(a: seq<Option<T>>, b: seq<Option<T>>)
    ensures Present(a + b) == Present(a) + Present(b)
  {
    if a == [] {
      assert a + b == b;
    } else {
      assert (a + b)[0] == a[0] && (a + b)[1..] == a[1..] + b;
      PresentConcat(a[1..], b);
    }
  }
}
