/**
 * A query over a table is modelled as the sequence of rows it returns.  A
 * `where` clause (and so every local query scope of the models) keeps the
 * rows that satisfy a predicate, in their original order.
 */
module Query {

  /** `r` is obtained from `s` by deleting elements: an order-preserving subset. */
  ghost predicate IsSubsequence<T>(r: seq<T>, s: seq<T>)
    decreases |s|
  {
    r == [] ||
    (s != [] && ((r[0] == s[0] && IsSubsequence(r[1..], s[1..])) || IsSubsequence(r, s[1..])))
  }

  /** The rows of `s` satisfying `p`, in the order of `s`. */
  function Filter<T>(s: seq<T>, p: T -> bool): (r: seq<T>)
    ensures |r| <= |s|
    ensures forall x | x in r :: x in s && p(x)
    ensures forall x | x in s && p(x) :: x in r
    ensures forall x | x in s :: multiset(r)[x] == if p(x) then multiset(s)[x] else 0
    ensures IsSubsequence(r, s)
  {
    if s == [] then []
    else
      assert s == [s[0]] + s[1..];
      if p(s[0]) then [s[0]] + Filter(s[1..], p) else Filter(s[1..], p)
  }

  /** Applying the same `where` twice is applying it once. */
  lemma {:induction false} FilterIdempotent<T>(s: seq<T>, p: T -> bool)
    ensures Filter(Filter(s, p), p) == Filter(s, p)
  {
    if s != [] {
      FilterIdempotent(s[1..], p);
      var rest := Filter(s[1..], p);
      if p(s[0]) {
        assert ([s[0]] + rest)[1..] == rest;
      }
    }
  }

  /** A `where` clause every row satisfies changes nothing. */
  lemma {:induction false} FilterKeepsAll<T>(s: seq<T>, p: T -> bool)
    requires forall x | x in s :: p(x)
    ensures Filter(s, p) == s
  {
    if s != [] {
      assert p(s[0]) by { assert s[0] in s; }
      forall x | x in s[1..] ensures p(x) {
        var k :| 0 <= k < |s[1..]| && s[1..][k] == x;
        assert s[k + 1] == x;
      }
      FilterKeepsAll(s[1..], p);
    }
  }

  /** Two `where` clauses in sequence are one clause testing both predicates. */
  lemma {:induction false} FilterConjunction<T>(s: seq<T>, p: T -> bool, q: T -> bool, pq: T -> bool)
    requires forall x :: pq(x) == (p(x) && q(x))
    ensures Filter(Filter(s, p), q) == Filter(s, pq)
  {
    if s != [] {
      FilterConjunction(s[1..], p, q, pq);
      var rest := Filter(s[1..], p);
      if p(s[0]) {
        assert ([s[0]] + rest)[1..] == rest;
      }
    }
  }

  /** The order in which two `where` clauses are added does not matter. */
  lemma {:induction false} FilterCommutes<T>(s: seq<T>, p: T -> bool, q: T -> bool)
    ensures Filter(Filter(s, p), q) == Filter(Filter(s, q), p)
  {
    if s != [] {
      FilterCommutes(s[1..], p, q);
      var restP := Filter(s[1..], p);
      var restQ := Filter(s[1..], q);
      if p(s[0]) {
        assert ([s[0]] + restP)[1..] == restP;
      }
      if q(s[0]) {
        assert ([s[0]] + restQ)[1..] == restQ;
      }
    }
  }

  /** Every earlier element of `s` is related by `le` to every later one. */
  ghost predicate Chained<T>(s: seq<T>, le: (T, T) -> bool)
  {
    forall i, j | 0 <= i < j < |s| :: le(s[i], s[j])
  }

  lemma ChainedTail<T>(s: seq<T>, le: (T, T) -> bool)
    requires s != [] && Chained(s, le)
    ensures Chained(s[1..], le)
    ensures forall y | y in s[1..] :: le(s[0], y)
  {
    var tail := s[1..];
    forall i, j | 0 <= i < j < |tail| ensures le(tail[i], tail[j]) {
      assert tail[i] == s[i + 1] && tail[j] == s[j + 1];
    }
    forall y | y in tail ensures le(s[0], y) {
      var k :| 0 <= k < |tail| && tail[k] == y;
      assert s[k + 1] == y;
    }
  }

  lemma ChainedCons<T>(x: T, rest: seq<T>, le: (T, T) -> bool)
    requires Chained(rest, le)
    requires forall y | y in rest :: le(x, y)
    ensures Chained([x] + rest, le)
  {
    var r := [x] + rest;
    forall i, j | 0 <= i < j < |r| ensures le(r[i], r[j]) {
      assert r[j] == rest[j - 1] && r[j] in rest;
      if i > 0 {
        assert r[i] == rest[i - 1];
      }
    }
  }

  /** A `where` keeps every ordering relation that held between the input rows. */
  lemma {:induction false} FilterKeepsOrder<T>(s: seq<T>, p: T -> bool, le: (T, T) -> bool)
    requires Chained(s, le)
    ensures Chained(Filter(s, p), le)
  {
    if s != [] {
      ChainedTail(s, le);
      FilterKeepsOrder(s[1..], p, le);
      if p(s[0]) {
        ChainedCons(s[0], Filter(s[1..], p), le);
      }
    }
  }

  /** Filtering two arrangements of the same rows gives two arrangements of the same result. */
  lemma FilterSameRows<T>(s: seq<T>, t: seq<T>, p: T -> bool)
    requires multiset(s) == multiset(t)
    ensures multiset(Filter(s, p)) == multiset(Filter(t, p))
  {
    var a, b := Filter(s, p), Filter(t, p);
    forall x ensures multiset(a)[x] == multiset(b)[x] {
      if x !in s {
        assert x !in multiset(t);
        assert x !in a && x !in b;
      } else {
        assert x in multiset(t);
      }
    }
  }
}
