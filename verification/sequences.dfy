/** Order-preserving selections, element-wise maps and first-seen
    de-duplication over sequences: the shapes that the table operations of the
    application (boolean-mask filters, row-wise fills, `unique()`) take. */
module Sequences {

  /** True when no element occurs twice. */
  predicate Distinct<T(==)>(s: seq<T>)
  {
    forall i, j :: 0 <= i < j < |s| ==> s[i] != s[j]
  }

  /** True when `a` can be obtained from `b` by deleting elements: only
      elements of `b`, in their relative order in `b`. */
  predicate IsSubsequence<T(==)>(a: seq<T>, b: seq<T>)
  {
    if a == [] then true
    else if b == [] then false
    else if a[0] == b[0] then IsSubsequence(a[1..], b[1..])
    else IsSubsequence(a, b[1..])
  }

  /** Keeps the elements of `s` that satisfy `p`, in their original order. */
  function Filter<T(!new)>(s: seq<T>, p: T -> bool): (r: seq<T>)
    ensures |r| <= |s|
    ensures forall x {:trigger x in r} :: x in r <==> x in s && p(x)
    ensures forall x {:trigger multiset(r)[x]} ::
      multiset(r)[x] == if p(x) then multiset(s)[x] else 0
  {
    if s == [] then []
    else
      assert s == [s[0]] + s[1..];
      (if p(s[0]) then [s[0]] else []) + Filter(s[1..], p)
  }

  /** Applies `f` to every element. */
  function Map<A, B>(s: seq<A>, f: A -> B): (r: seq<B>)
    ensures |r| == |s|
    ensures forall i :: 0 <= i < |s| ==> r[i] == f(s[i])
  {
    seq(|s|, i requires 0 <= i < |s| => f(s[i]))
  }

  lemma {:induction false} FilterIsSubsequence<T(!new)>(s: seq<T>, p: T -> bool)
    ensures IsSubsequence(Filter(s, p), s)
  {
    if s != [] {
      FilterIsSubsequence(s[1..], p);
      var rest := Filter(s[1..], p);
      if p(s[0]) {
        assert Filter(s, p) == [s[0]] + rest;
        assert Filter(s, p)[1..] == rest;
      } else {
        assert Filter(s, p) == rest;
        if rest != [] {
          assert rest[0] in rest;
          assert rest[0] != s[0];
        }
      }
    }
  }

  /** Two successive filters select what one filter on the conjunction selects. */
  lemma {:induction false} FilterFuse<T(!new)>(s: seq<T>, p: T -> bool, q: T -> bool, pq: T -> bool)
    requires forall x :: pq(x) == (p(x) && q(x))
    ensures Filter(Filter(s, p), q) == Filter(s, pq)
  {
    if s != [] {
      FilterFuse(s[1..], p, q, pq);
      var fs := Filter(s, p);
      if p(s[0]) {
        assert fs == [s[0]] + Filter(s[1..], p);
        assert fs[0] == s[0] && fs[1..] == Filter(s[1..], p);
        assert Filter(fs, q) == (if q(s[0]) then [s[0]] else []) + Filter(fs[1..], q);
      } else {
        assert fs == Filter(s[1..], p);
      }
    }
  }

  /** Filtering is idempotent. */
  lemma FilterIdempotent<T(!new)>(s: seq<T>, p: T -> bool)
    ensures Filter(Filter(s, p), p) == Filter(s, p)
  {
    FilterFuse(s, p, p, p);
  }

  /** Two filters may be applied in either order. */
  lemma FilterCommute<T(!new)>(s: seq<T>, p: T -> bool, q: T -> bool)
    ensures Filter(Filter(s, p), q) == Filter(Filter(s, q), p)
  {
    var pq := x => p(x) && q(x);
    FilterFuse(s, p, q, pq);
    FilterFuse(s, q, p, pq);
  }

  /** A filter that every element passes keeps the whole sequence. */
  lemma {:induction false} FilterKeepsAll<T(!new)>(s: seq<T>, p: T -> bool)
    requires forall i :: 0 <= i < |s| ==> p(s[i])
    ensures Filter(s, p) == s
  {
    if s != [] {
      FilterKeepsAll(s[1..], p);
    }
  }

  /** A filter applied after a map selects the images of what the
      corresponding filter selects before it. */
  lemma {:induction false} FilterAfterMap<A(!new), B(!new)>(s: seq<A>, f: A -> B, p: B -> bool, q: A -> bool)
    requires forall x :: q(x) == p(f(x))
    ensures Filter(Map(s, f), p) == Map(Filter(s, q), f)
  {
    if s != [] {
      FilterAfterMap(s[1..], f, p, q);
      assert Map(s, f) == [f(s[0])] + Map(s[1..], f);
      assert Map(s, f)[1..] == Map(s[1..], f);
      if q(s[0]) {
        assert Map(Filter(s, q), f) == [f(s[0])] + Map(Filter(s[1..], q), f);
      }
    }
  }

  /** Two successive maps are one map by the composition. */
  lemma MapFuse<A, B, C>(s: seq<A>, f: A -> B, g: B -> C, h: A -> C)
    requires forall x :: h(x) == g(f(x))
    ensures Map(Map(s, f), g) == Map(s, h)
  {
  }

  /** The position of the first occurrence of `x` in `s`. */
  function FirstIndex<T(==)>(s: seq<T>, x: T): (i: nat)
    requires x in s
    ensures i < |s| && s[i] == x && x !in s[..i]
  {
    if s[0] == x then 0 else 1 + FirstIndex(s[1..], x)
  }

  /** The first occurrence of an element of a prefix is found inside that prefix. */
  lemma {:induction false} FirstIndexInPrefix<T>(s: seq<T>, n: nat, x: T)
    requires n <= |s| && x in s[..n]
    ensures FirstIndex(s, x) == FirstIndex(s[..n], x)
  {
    if s[0] != x {
      assert s[..n][1..] == s[1..][..n - 1];
      FirstIndexInPrefix(s[1..], n - 1, x);
    }
  }

  /** The distinct elements of `s`, each at the position of its first
      occurrence: the order in which `unique()` reports values. */
  function Unique<T(==,!new)>(s: seq<T>): (r: seq<T>)
    ensures forall x {:trigger x in r} :: x in r <==> x in s
    ensures forall i :: 0 <= i < |r| ==> r[i] in s
    ensures Distinct(r)
  {
    if s == [] then []
    else
      var u := Unique(s[..|s| - 1]);
      var last := s[|s| - 1];
      assert s == s[..|s| - 1] + [last];
      if last in u then u else u + [last]
  }

  /** `Unique` lists values in the order in which they are first seen. */
  lemma {:induction false} UniqueFirstSeen<T(!new)>(s: seq<T>)
    ensures forall i, j :: 0 <= i < j < |Unique(s)| ==>
      FirstIndex(s, Unique(s)[i]) < FirstIndex(s, Unique(s)[j])
  {
    if s != [] {
      var n := |s| - 1;
      var init := s[..n];
      var last := s[n];
      UniqueFirstSeen(init);
      var u := Unique(init);
      assert s == init + [last];
      forall y | y in u
        ensures FirstIndex(s, y) == FirstIndex(init, y) < n
      {
        assert s[..n] == init;
        FirstIndexInPrefix(s, n, y);
      }
      if last !in u {
        assert last !in init;
        assert FirstIndex(s, last) == n;
        forall i, j | 0 <= i < j < |Unique(s)|
          ensures FirstIndex(s, Unique(s)[i]) < FirstIndex(s, Unique(s)[j])
        {
          assert Unique(s)[i] == u[i];
          assert u[i] in u;
          if j < |u| {
            assert Unique(s)[j] == u[j];
            assert u[j] in u;
          }
        }
      }
    }
  }

  /** An element of a sequence without repetitions occurs exactly once. */
  lemma {:induction false} DistinctOccursOnce<T>(s: seq<T>, x: T)
    requires Distinct(s) && x in s
    ensures multiset(s)[x] == 1
  {
    assert s == [s[0]] + s[1..];
    if s[0] == x {
      assert x !in s[1..];
    } else {
      DistinctOccursOnce(s[1..], x);
    }
  }

  /** A sequence has no repetitions exactly when it holds every value at
      most once. */
  lemma {:induction false} DistinctIffCountsAtMostOne<T>(s: seq<T>)
    ensures Distinct(s) <==> forall x :: multiset(s)[x] <= 1
  {
    if s != [] {
      var rest := s[1..];
      DistinctIffCountsAtMostOne(rest);
      assert s == [s[0]] + rest;
      if Distinct(s) {
        assert Distinct(rest) by {
          forall i, j | 0 <= i < j < |rest| ensures rest[i] != rest[j] {
            assert rest[i] == s[i + 1] && rest[j] == s[j + 1];
          }
        }
        assert s[0] !in rest by {
          forall k | 0 <= k < |rest| ensures rest[k] != s[0] {
            assert rest[k] == s[k + 1];
          }
        }
      }
      if forall x :: multiset(s)[x] <= 1 {
        assert forall x :: multiset(rest)[x] <= 1 by {
          forall x ensures multiset(rest)[x] <= 1 {
            assert multiset(s)[x] == multiset([s[0]])[x] + multiset(rest)[x];
          }
        }
        assert multiset(s)[s[0]] == 1 + multiset(rest)[s[0]];
        forall i, j | 0 <= i < j < |s| ensures s[i] != s[j] {
          if i == 0 {
            assert s[j] == rest[j - 1] && s[j] in rest;
          } else {
            assert s[i] == rest[i - 1] && s[j] == rest[j - 1];
          }
        }
      }
    }
  }

  /** Removes the element at position `k`. */
  function RemoveAt<T>(s: seq<T>, k: nat): (r: seq<T>)
    requires k < |s|
    ensures |r| == |s| - 1
    ensures forall i :: 0 <= i < k ==> r[i] == s[i]
    ensures forall i :: k <= i < |r| ==> r[i] == s[i + 1]
  {
    s[..k] + s[k + 1..]
  }
}
