/**
 * Stream operations the services apply to repository listings: `filter`, `count` and
 * distinctness of id lists, defined once with the facts the statistics rely on.
 */
module Sequences {

  /** The number of elements of `s` that satisfy `p` (`stream().filter(p).count()`). */
  function Count<T>(s: seq<T>, p: T -> bool): (n: nat)
    ensures n <= |s|
  {
    if s == [] then 0
    else Count(s[..|s| - 1], p) + (if p(s[|s| - 1]) then 1 else 0)
  }

  /** The elements of `s` that satisfy `p`, in their order in `s` (`stream().filter(p).toList()`). */
  function Filter<T>(s: seq<T>, p: T -> bool): (r: seq<T>)
    ensures |r| == Count(s, p)
    ensures forall i | 0 <= i < |r| :: r[i] in s && p(r[i])
    ensures forall i | 0 <= i < |s| && p(s[i]) :: s[i] in r
  {
    if s == [] then []
    else Filter(s[..|s| - 1], p) + (if p(s[|s| - 1]) then [s[|s| - 1]] else [])
  }

  /** The positions of `s` whose element satisfies `p`: the reference definition of a count. */
  ghost function Positions<T>(s: seq<T>, p: T -> bool): set<int>
  {
    set i | 0 <= i < |s| && p(s[i])
  }

  /** Counting by a stream agrees with counting the matching positions. */
  lemma {:induction false} CountIsPositions<T>(s: seq<T>, p: T -> bool)
    ensures Count(s, p) == |Positions(s, p)|
  {
    if s != [] {
      var n := |s| - 1;
      var init := s[..n];
      CountIsPositions(init, p);
      assert Positions(init, p) == set i | 0 <= i < n && p(s[i]);
      if p(s[n]) {
        assert Positions(s, p) == Positions(init, p) + {n};
        assert n !in Positions(init, p);
      } else {
        assert Positions(s, p) == Positions(init, p);
      }
    }
  }

  /** Every element satisfies exactly one of `p` and its complement `q`, so the two counts add up. */
  lemma {:induction false} CountPartition<T>(s: seq<T>, p: T -> bool, q: T -> bool)
    requires forall x :: q(x) == !p(x)
    ensures Count(s, p) + Count(s, q) == |s|
  {
    if s != [] {
      CountPartition(s[..|s| - 1], p, q);
    }
  }

  /** Counting with a predicate implied by another one can only give more. */
  lemma {:induction false} CountMonotonic<T>(s: seq<T>, p: T -> bool, q: T -> bool)
    requires forall x :: p(x) ==> q(x)
    ensures Count(s, p) <= Count(s, q)
  {
    if s != [] {
      CountMonotonic(s[..|s| - 1], p, q);
    }
  }

  /** Extending a listing by one element adds one to the count exactly when it matches. */
  lemma CountSnoc<T>(s: seq<T>, x: T, p: T -> bool)
    ensures Count(s + [x], p) == Count(s, p) + (if p(x) then 1 else 0)
  {
    assert (s + [x])[..|s|] == s;
  }

  /** No value occurs twice in `s`. */
  ghost predicate Distinct<T>(s: seq<T>)
  {
    forall i, j | 0 <= i < j < |s| :: s[i] != s[j]
  }

  /** A list without repetitions has as many elements as the set of its elements. */
  lemma {:induction false} DistinctCardinality<T>(s: seq<T>)
    requires Distinct(s)
    ensures |set x | x in s| == |s|
  {
    if s != [] {
      var n := |s| - 1;
      var init := s[..n];
      DistinctCardinality(init);
      assert (set x | x in s) == (set x | x in init) + {s[n]};
      assert s[n] !in init;
    }
  }

  /** The values of `s` that satisfy `p`. */
  ghost function Matches<T>(s: seq<T>, p: T -> bool): set<T>
  {
    set x | x in s && p(x)
  }

  /** In a list without repetitions, the matching elements are as many as the matching values. */
  lemma {:induction false} CountDistinct<T>(s: seq<T>, p: T -> bool)
    requires Distinct(s)
    ensures Count(s, p) == |Matches(s, p)|
  {
    if s != [] {
      var n := |s| - 1;
      var init := s[..n];
      CountDistinct(init, p);
      assert s[n] !in init;
      if p(s[n]) {
        assert Matches(s, p) == Matches(init, p) + {s[n]};
      } else {
        assert Matches(s, p) == Matches(init, p);
      }
    }
  }

  /** Filtering keeps a list free of repetitions. */
  lemma {:induction false} FilterDistinct<T>(s: seq<T>, p: T -> bool)
    requires Distinct(s)
    ensures Distinct(Filter(s, p))
  {
    if s != [] {
      var n := |s| - 1;
      FilterDistinct(s[..n], p);
      assert s[n] !in s[..n];
    }
  }

  /** `n` copies of `x`: the rows a join produces for one row with `n` matching entries. */
  function Copies<T>(x: T, n: nat): (r: seq<T>)
    ensures |r| == n
    ensures forall i | 0 <= i < n :: r[i] == x
  {
    seq(n, i => x)
  }

  /** Counting over a concatenation adds the counts of the two parts. */
  lemma {:induction false} CountConcat<T>(a: seq<T>, b: seq<T>, p: T -> bool)
    ensures Count(a + b, p) == Count(a, p) + Count(b, p)
  {
    if b == [] {
      assert a + b == a;
    } else {
      var n := |b| - 1;
      CountConcat(a, b[..n], p);
      assert (a + b)[..|a + b| - 1] == a + b[..n];
      assert (a + b)[|a + b| - 1] == b[n];
    }
  }

  /** Among `n` copies of `x`, all or none match. */
  lemma {:induction false} CountCopies<T>(x: T, n: nat, p: T -> bool)
    ensures Count(Copies(x, n), p) == (if p(x) then n else 0)
  {
    if n > 0 {
      CountCopies(x, n - 1, p);
      assert Copies(x, n)[..n - 1] == Copies(x, n - 1);
    }
  }

  /** Two lists of equal length whose elements match pairwise have equal counts. */
  lemma {:induction false} CountAlong<A, B>(a: seq<A>, b: seq<B>, p: A -> bool, q: B -> bool)
    requires |a| == |b|
    requires forall i | 0 <= i < |a| :: p(a[i]) == q(b[i])
    ensures Count(a, p) == Count(b, q)
  {
    if a != [] {
      CountAlong(a[..|a| - 1], b[..|b| - 1], p, q);
    }
  }
}
