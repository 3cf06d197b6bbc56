/** Generic facts about selecting elements of a sequence, shared by the detectors. */
module Sequences {

  /** The elements of `s` that satisfy `p`, in their order in `s`
      (what a `findAll` or an `if` inside a `forEach` keeps). */
  function Filter<T>(s: seq<T>, p: T -> bool): (r: seq<T>)
    ensures |r| <= |s|
    ensures forall x <- r :: x in s && p(x)
    ensures forall x <- s :: p(x) ==> x in r
  {
    if s == [] then []
    else
      assert s == s[..|s| - 1] + [s[|s| - 1]];
      Filter(s[..|s| - 1], p) + (if p(s[|s| - 1]) then [s[|s| - 1]] else [])
  }

  /** `a` is obtained from `b` by deleting elements; order is kept. */
  predicate Subsequence<T(==)>(a: seq<T>, b: seq<T>)
    decreases |b|
  {
    || a == []
    || (&& b != []
        && (|| (a[|a| - 1] == b[|b| - 1] && Subsequence(a[..|a| - 1], b[..|b| - 1]))
            || Subsequence(a, b[..|b| - 1])))
  }

  lemma {:induction false} SubsequenceMembers<T>(a: seq<T>, b: seq<T>)
    requires Subsequence(a, b)
    ensures |a| <= |b|
    ensures forall x <- a :: x in b
    decreases |b|
  {
    if a == [] {
    } else if a[|a| - 1] == b[|b| - 1] && Subsequence(a[..|a| - 1], b[..|b| - 1]) {
      SubsequenceMembers(a[..|a| - 1], b[..|b| - 1]);
      assert a == a[..|a| - 1] + [a[|a| - 1]];
      assert b == b[..|b| - 1] + [b[|b| - 1]];
    } else {
      SubsequenceMembers(a, b[..|b| - 1]);
      assert b == b[..|b| - 1] + [b[|b| - 1]];
    }
  }

  lemma {:induction false} FilterAppend<T>(a: seq<T>, b: seq<T>, p: T -> bool)
    ensures Filter(a + b, p) == Filter(a, p) + Filter(b, p)
    decreases |b|
  {
    if b == [] {
      assert a + b == a;
    } else {
      var b' := b[..|b| - 1];
      assert (a + b)[..|a + b| - 1] == a + b';
      FilterAppend(a, b', p);
    }
  }

  /** Selecting by a weaker predicate keeps everything a stronger one selects, in order. */
  lemma {:induction false} FilterMonotone<T>(s: seq<T>, p: T -> bool, q: T -> bool)
    requires forall x :: p(x) ==> q(x)
    ensures Subsequence(Filter(s, p), Filter(s, q))
  {
    if s != [] {
      var s', x := s[..|s| - 1], s[|s| - 1];
      FilterMonotone(s', p, q);
      var a, b := Filter(s, p), Filter(s, q);
      if p(x) {
        assert a[..|a| - 1] == Filter(s', p) && b[..|b| - 1] == Filter(s', q);
      } else if q(x) {
        assert a == Filter(s', p) && b[..|b| - 1] == Filter(s', q);
        assert Subsequence(a, b[..|b| - 1]);
      } else {
        assert a == Filter(s', p) && b == Filter(s', q);
      }
    }
  }

  /** Selecting by `p` then by `q` is selecting by `q` when `q` implies `p`. */
  lemma {:induction false} FilterFilter<T>(s: seq<T>, p: T -> bool, q: T -> bool)
    requires forall x :: q(x) ==> p(x)
    ensures Filter(Filter(s, p), q) == Filter(s, q)
  {
    if s != [] {
      var s' := s[..|s| - 1];
      var x := s[|s| - 1];
      FilterFilter(s', p, q);
      FilterAppend(Filter(s', p), if p(x) then [x] else [], q);
    }
  }

  /** Two exclusive selections under a common one together select no more than it does. */
  lemma {:induction false} FilterDisjointCount<T>(s: seq<T>, p: T -> bool, q: T -> bool, r: T -> bool)
    requires forall x :: !(p(x) && q(x))
    requires forall x :: p(x) ==> r(x)
    requires forall x :: q(x) ==> r(x)
    ensures |Filter(s, p)| + |Filter(s, q)| <= |Filter(s, r)|
  {
    if s != [] {
      FilterDisjointCount(s[..|s| - 1], p, q, r);
    }
  }

  /** Two selections that agree on every element of `s` select the same elements. */
  lemma {:induction false} FilterCongruent<T>(s: seq<T>, p: T -> bool, q: T -> bool)
    requires forall x <- s :: p(x) == q(x)
    ensures Filter(s, p) == Filter(s, q)
  {
    if s != [] {
      var s' := s[..|s| - 1];
      assert forall x <- s' :: x in s;
      FilterCongruent(s', p, q);
      assert s[|s| - 1] in s;
    }
  }

  /** A selection that no element of `s` satisfies is empty. */
  lemma FilterNone<T>(s: seq<T>, p: T -> bool)
    requires forall x <- s :: !p(x)
    ensures Filter(s, p) == []
  {
  }

  /** A selection that every element of `s` satisfies keeps all of `s`. */
  lemma {:induction false} FilterAll<T>(s: seq<T>, p: T -> bool)
    requires forall x <- s :: p(x)
    ensures Filter(s, p) == s
  {
    if s != [] {
      var s' := s[..|s| - 1];
      assert forall x <- s' :: x in s;
      FilterAll(s', p);
      assert s[|s| - 1] in s;
      assert s == s' + [s[|s| - 1]];
    }
  }

  lemma AppendAssociative<T>(a: seq<T>, b: seq<T>, c: seq<T>)
    ensures (a + b) + c == a + (b + c)
  {
  }
}
