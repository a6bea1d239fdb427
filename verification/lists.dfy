/**
 The array operations the pages use: `filter`, `slice(0, n)`, `filter(...).length`
 and the first-occurrence de-duplication of `[...new Set(xs)]`.
 */
module Lists {

  /** `s.filter(p)`. */
  function Filter<T(!new)>(s: seq<T>, p: T -> bool): (r: seq<T>)
    ensures |r| <= |s|
    ensures forall i :: 0 <= i < |r| ==> p(r[i])
    ensures forall x :: x in r <==> x in s && p(x)
    decreases |s|
  {
    if s == [] then []
    else (if p(s[0]) then [s[0]] else []) + Filter(s[1..], p)
  }

  /** `r` can be obtained from `s` by deleting elements: order is preserved. */
  predicate IsSubsequence<T(==)>(r: seq<T>, s: seq<T>)
    decreases |s|
  {
    if r == [] then true
    else if s == [] then false
    else (r[0] == s[0] && IsSubsequence(r[1..], s[1..])) || IsSubsequence(r, s[1..])
  }

  lemma {:induction false} FilterIsSubsequence<T(!new)>(s: seq<T>, p: T -> bool)
    ensures IsSubsequence(Filter(s, p), s)
    decreases |s|
  {
    if s != [] {
      FilterIsSubsequence(s[1..], p);
      var r := Filter(s, p);
      if p(s[0]) {
        assert r[0] == s[0] && r[1..] == Filter(s[1..], p);
      } else {
        assert r == Filter(s[1..], p);
      }
    }
  }

  /** Each kept element is kept as often as it occurs. */
  lemma {:induction false} FilterKeepsMultiplicity<T(!new)>(s: seq<T>, p: T -> bool)
    ensures forall x :: multiset(Filter(s, p))[x] == if p(x) then multiset(s)[x] else 0
    decreases |s|
  {
    if s != [] {
      FilterKeepsMultiplicity(s[1..], p);
      assert s == [s[0]] + s[1..];
      assert multiset(s) == multiset([s[0]]) + multiset(s[1..]);
      var r := Filter(s, p);
      assert multiset(r) == multiset(if p(s[0]) then [s[0]] else []) + multiset(Filter(s[1..], p));
    }
  }

  /** When every element passes, the filter returns the sequence itself. */
  lemma {:induction false} FilterAllPass<T(!new)>(s: seq<T>, p: T -> bool)
    requires forall i :: 0 <= i < |s| ==> p(s[i])
    ensures Filter(s, p) == s
    decreases |s|
  {
    if s != [] {
      FilterAllPass(s[1..], p);
      assert [s[0]] + s[1..] == s;
    }
  }

  /** A run of passing elements at the front is kept as it is. */
  lemma {:induction false} FilterPassingFront<T(!new)>(a: seq<T>, b: seq<T>, p: T -> bool)
    requires forall i :: 0 <= i < |a| ==> p(a[i])
    ensures Filter(a + b, p) == a + Filter(b, p)
    decreases |a|
  {
    if a == [] {
      assert a + b == b;
    } else {
      FilterPassingHead(a, b, p);
      FilterPassingFront(a[1..], b, p);
      ConsAppend(a, Filter(b, p));
    }
  }

  lemma FilterPassingHead<T(!new)>(a: seq<T>, b: seq<T>, p: T -> bool)
    requires a != [] && p(a[0])
    ensures Filter(a + b, p) == [a[0]] + Filter(a[1..] + b, p)
  {
    assert (a + b)[0] == a[0] && (a + b)[1..] == a[1..] + b;
  }

  lemma ConsAppend<T>(a: seq<T>, c: seq<T>)
    requires a != []
    ensures [a[0]] + (a[1..] + c) == a + c
  {
    assert [a[0]] + a[1..] == a;
  }

  /** Two predicates that agree on every element filter alike. */
  lemma {:induction false} FilterAgree<T(!new)>(s: seq<T>, p: T -> bool, q: T -> bool)
    requires forall i :: 0 <= i < |s| ==> p(s[i]) == q(s[i])
    ensures Filter(s, p) == Filter(s, q)
    decreases |s|
  {
    if s != [] {
      FilterAgree(s[1..], p, q);
    }
  }

  /** A filter with a stronger predicate keeps no more. */
  lemma {:induction false} FilterMonotone<T(!new)>(s: seq<T>, p: T -> bool, q: T -> bool)
    requires forall x :: p(x) ==> q(x)
    ensures |Filter(s, p)| <= |Filter(s, q)|
    decreases |s|
  {
    if s != [] {
      FilterMonotone(s[1..], p, q);
    }
  }

  /** Three pairwise-exclusive predicates: their counts add up to at most the
      length, with equality exactly when every element satisfies one of them. */
  lemma {:induction false} ThreeWayCount<T(!new)>(s: seq<T>, a: T -> bool, b: T -> bool, c: T -> bool)
    requires forall x :: !(a(x) && b(x)) && !(a(x) && c(x)) && !(b(x) && c(x))
    ensures |Filter(s, a)| + |Filter(s, b)| + |Filter(s, c)| <= |s|
    ensures |Filter(s, a)| + |Filter(s, b)| + |Filter(s, c)| == |s| <==>
      forall i :: 0 <= i < |s| ==> a(s[i]) || b(s[i]) || c(s[i])
    decreases |s|
  {
    if s != [] {
      ThreeWayCount(s[1..], a, b, c);
      if a(s[0]) || b(s[0]) || c(s[0]) {
        assert forall i :: 1 <= i < |s| ==> s[1..][i - 1] == s[i];
      } else {
        assert !(a(s[0]) || b(s[0]) || c(s[0]));
      }
    }
  }

  /** `s.slice(0, n)`. */
  function Take<T>(s: seq<T>, n: nat): (r: seq<T>)
    ensures |r| == if |s| < n then |s| else n
    ensures forall i :: 0 <= i < |r| ==> r[i] == s[i]
  {
    if |s| <= n then s else s[..n]
  }

  // ---------------------------------------------------------------------------
  // Distinct values in first-occurrence order

  /** Position of the first occurrence of `x`. */
  function FirstIndex<T(==)>(xs: seq<T>, x: T): (k: nat)
    requires x in xs
    ensures k < |xs| && xs[k] == x && x !in xs[..k]
    decreases |xs|
  {
    if xs[0] == x then 0 else
      var k := FirstIndex(xs[1..], x);
      assert xs[..k + 1] == [xs[0]] + xs[1..][..k];
      k + 1
  }

  predicate NoDuplicates<T(==)>(xs: seq<T>) {
    forall i, j :: 0 <= i < j < |xs| ==> xs[i] != xs[j]
  }

  lemma FirstIndexOfPrefix<T>(xs: seq<T>, y: T, x: T)
    requires x in xs
    ensures x in xs + [y] && FirstIndex(xs + [y], x) == FirstIndex(xs, x)
  {
    var k := FirstIndex(xs, x);
    assert (xs + [y])[k] == x;
  }

  /** `[...new Set(xs)]`: each value once, in order of first appearance. */
  function Distinct<T(==,!new)>(xs: seq<T>): (r: seq<T>)
    ensures NoDuplicates(r)
    ensures forall x :: x in r <==> x in xs
    decreases |xs|
  {
    if xs == [] then []
    else
      var rest := Distinct(xs[..|xs| - 1]);
      var last := xs[|xs| - 1];
      assert xs == xs[..|xs| - 1] + [last];
      if last in rest then rest else rest + [last]
  }

  /** The values come out in the order of their first occurrence. */
  lemma {:induction false} DistinctInFirstOccurrenceOrder<T(!new)>(xs: seq<T>)
    ensures forall i, j :: 0 <= i < j < |Distinct(xs)| ==>
      FirstIndex(xs, Distinct(xs)[i]) < FirstIndex(xs, Distinct(xs)[j])
    decreases |xs|
  {
    if xs != [] {
      var init := xs[..|xs| - 1];
      var last := xs[|xs| - 1];
      var r := Distinct(xs);
      var rest := Distinct(init);
      DistinctInFirstOccurrenceOrder(init);
      assert xs == init + [last];
      if last in rest {
        assert r == rest;
        forall i, j | 0 <= i < j < |r| ensures FirstIndex(xs, r[i]) < FirstIndex(xs, r[j]) {
          assert FirstIndex(init, rest[i]) < FirstIndex(init, rest[j]);
          FirstIndexOfPrefix(init, last, r[i]);
          FirstIndexOfPrefix(init, last, r[j]);
        }
      } else {
        assert r == rest + [last];
        assert FirstIndex(xs, last) == |init|;
        forall i, j | 0 <= i < j < |r| ensures FirstIndex(xs, r[i]) < FirstIndex(xs, r[j]) {
          assert r[i] == rest[i] && rest[i] in init;
          FirstIndexOfPrefix(init, last, r[i]);
          if j < |rest| {
            assert r[j] == rest[j];
            assert FirstIndex(init, rest[i]) < FirstIndex(init, rest[j]);
            FirstIndexOfPrefix(init, last, r[j]);
          }
        }
      }
    }
  }

  /** Appending one value extends the distinct list only when the value is new. */
  lemma DistinctSnoc<T(!new)>(xs: seq<T>, y: T)
    ensures Distinct(xs + [y]) == if y in xs then Distinct(xs) else Distinct(xs) + [y]
  {
    assert (xs + [y])[..|xs + [y]| - 1] == xs;
  }

  /** A list without repeats is its own distinct list. */
  lemma {:induction false} DistinctOfDistinct<T(!new)>(xs: seq<T>)
    requires NoDuplicates(xs)
    ensures Distinct(xs) == xs
    decreases |xs|
  {
    if xs != [] {
      var init := xs[..|xs| - 1];
      DistinctOfDistinct(init);
      assert xs == init + [xs[|xs| - 1]];
      DistinctSnoc(init, xs[|xs| - 1]);
    }
  }
}
