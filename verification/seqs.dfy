/** Order-preserving operations on sequences: the stable row filter that
    pandas' boolean indexing performs, and the first-appearance ordering of
    distinct keys that `groupby(..., sort=False)` produces. */
module Seqs {

  /** The elements of `xs` that satisfy `p`, in their original order. */
  function Filter<T>(xs: seq<T>, p: T -> bool): (r: seq<T>)
    ensures |r| <= |xs|
    ensures forall x | x in r :: x in xs && p(x)
    ensures forall x | x in xs && p(x) :: x in r
  {
    if |xs| == 0 then []
    else (if p(xs[0]) then [xs[0]] else []) + Filter(xs[1..], p)
  }

  /** `a` is obtained from `b` by deleting elements. */
  predicate IsSubsequence<T(==)>(a: seq<T>, b: seq<T>)
    decreases |b|
  {
    |a| == 0 || (|b| > 0 && ((a[0] == b[0] && IsSubsequence(a[1..], b[1..])) || IsSubsequence(a, b[1..])))
  }

  predicate Distinct<T(==)>(xs: seq<T>) {
    forall i, j | 0 <= i < j < |xs| :: xs[i] != xs[j]
  }

  /** Position of the first occurrence of `x` in `xs`. */
  function FirstIndex<T(==)>(xs: seq<T>, x: T): (i: nat)
    requires x in xs
    ensures i < |xs| && xs[i] == x
    ensures x !in xs[..i]
  {
    if xs[0] == x then 0
    else
      var k := FirstIndex(xs[1..], x);
      assert xs[..k + 1] == [xs[0]] + xs[1..][..k];
      k + 1
  }

  /** The distinct elements of `xs` in order of first appearance. */
  function FirstSeen<T(==)>(xs: seq<T>): (r: seq<T>)
    ensures Distinct(r)
    ensures forall x | x in xs :: x in r
    ensures forall x | x in r :: x in xs
    ensures forall i, j | 0 <= i < j < |r| :: FirstIndex(xs, r[i]) < FirstIndex(xs, r[j])
  {
    if |xs| == 0 then []
    else
      var init := xs[..|xs| - 1];
      var last := xs[|xs| - 1];
      assert xs == init + [last];
      var r0 := FirstSeen(init);
      forall x | x in init ensures FirstIndex(xs, x) == FirstIndex(init, x) {
        FirstIndexPrefix(init, [last], x);
      }
      if last in init then r0
      else
        FirstIndexFresh(init, last);
        r0 + [last]
  }

  function Map<T, U>(xs: seq<T>, f: T -> U): (r: seq<U>)
    ensures |r| == |xs|
    ensures forall i | 0 <= i < |xs| :: r[i] == f(xs[i])
  {
    seq(|xs|, i requires 0 <= i < |xs| => f(xs[i]))
  }

  /** How many elements of `xs` satisfy `p`. */
  function Count<T>(xs: seq<T>, p: T -> bool): nat
  {
    |Filter(xs, p)|
  }

  // ---------------------------------------------------------------------

  lemma FirstIndexPrefix<T>(a: seq<T>, b: seq<T>, x: T)
    requires x in a
    ensures FirstIndex(a + b, x) == FirstIndex(a, x)
  {
    var i := FirstIndex(a, x);
    var j := FirstIndex(a + b, x);
    assert (a + b)[..i + 1] == a[..i + 1];
    assert x in (a + b)[..i + 1];
    assert j <= i;
    assert (a + b)[..j] == a[..j];
    assert a[..i][j..] == a[j..i];
  }

  lemma FirstIndexFresh<T>(a: seq<T>, x: T)
    requires x !in a
    ensures FirstIndex(a + [x], x) == |a|
  {
    assert (a + [x])[..|a|] == a;
  }

  /** A filter keeps a subsequence of its input. */
  lemma {:induction false} FilterIsSubsequence<T>(xs: seq<T>, p: T -> bool)
    ensures IsSubsequence(Filter(xs, p), xs)
  {
    if |xs| > 0 {
      FilterIsSubsequence(xs[1..], p);
      var r := Filter(xs, p);
      if p(xs[0]) {
        assert r[0] == xs[0] && r[1..] == Filter(xs[1..], p);
      } else {
        assert r == Filter(xs[1..], p);
      }
    }
  }

  /** Filtering twice with one predicate is filtering once. */
  lemma {:induction false} FilterIdempotent<T>(xs: seq<T>, p: T -> bool)
    ensures Filter(Filter(xs, p), p) == Filter(xs, p)
  {
    if |xs| > 0 {
      FilterIdempotent(xs[1..], p);
      var rest := Filter(xs[1..], p);
      if p(xs[0]) {
        var r := [xs[0]] + rest;
        assert r[0] == xs[0] && r[1..] == rest;
        assert Filter(r, p) == [xs[0]] + Filter(rest, p);
      } else {
        assert Filter(xs, p) == rest;
      }
    }
  }

  /** Filtering by `p` and then by `q` is filtering by their conjunction. */
  lemma {:induction false} FilterThen<T>(xs: seq<T>, p: T -> bool, q: T -> bool, pq: T -> bool)
    requires forall x | x in xs :: pq(x) == (p(x) && q(x))
    ensures Filter(Filter(xs, p), q) == Filter(xs, pq)
  {
    if |xs| > 0 {
      FilterThen(xs[1..], p, q, pq);
      var rest := Filter(xs[1..], p);
      if p(xs[0]) {
        var r := [xs[0]] + rest;
        assert r[0] == xs[0] && r[1..] == rest;
        assert Filter(r, q) == (if q(xs[0]) then [xs[0]] else []) + Filter(rest, q);
      } else {
        assert Filter(xs, p) == rest;
        assert Filter(xs, pq) == Filter(xs[1..], pq);
      }
    }
  }

  /** Filters by predicates that agree on the input agree. */
  lemma {:induction false} FilterCongruent<T>(xs: seq<T>, p: T -> bool, q: T -> bool)
    requires forall x | x in xs :: p(x) == q(x)
    ensures Filter(xs, p) == Filter(xs, q)
  {
    if |xs| > 0 {
      FilterCongruent(xs[1..], p, q);
    }
  }

  /** A predicate every element satisfies keeps the whole sequence. */
  lemma {:induction false} FilterAll<T>(xs: seq<T>, p: T -> bool)
    requires forall x | x in xs :: p(x)
    ensures Filter(xs, p) == xs
  {
    if |xs| > 0 {
      FilterAll(xs[1..], p);
      assert [xs[0]] + xs[1..] == xs;
    }
  }

  lemma {:induction false} FilterAppend<T>(a: seq<T>, b: seq<T>, p: T -> bool)
    ensures Filter(a + b, p) == Filter(a, p) + Filter(b, p)
  {
    if |a| == 0 {
      assert a + b == b;
    } else {
      assert (a + b)[0] == a[0] && (a + b)[1..] == a[1..] + b;
      FilterAppend(a[1..], b, p);
    }
  }

  /** Filtering a three-element sequence, one element at a time. */
  lemma FilterThree<T>(a: T, b: T, d: T, p: T -> bool)
    ensures Filter([a, b, d], p) == (if p(a) then [a] else []) + (if p(b) then [b] else []) + (if p(d) then [d] else [])
  {
    var xs := [a, b, d];
    assert xs[1..] == [b, d] && xs[1..][1..] == [d] && xs[1..][1..][1..] == [];
    assert Filter([d], p) == (if p(d) then [d] else []) + Filter([], p);
    assert Filter([b, d], p) == (if p(b) then [b] else []) + Filter([d], p);
    assert Filter(xs, p) == (if p(a) then [a] else []) + Filter([b, d], p);
  }

  lemma SplitLast<T>(xs: seq<T>)
    requires |xs| > 0
    ensures xs == xs[..|xs| - 1] + [xs[|xs| - 1]]
  {
  }

  /** A sequence that agrees elementwise with `f` over a prefix of `ys` is
      that prefix mapped, and so is each of its own prefixes. */
  lemma MapPrefixes<T, U>(xs: seq<U>, ys: seq<T>, f: T -> U)
    requires |xs| <= |ys|
    requires forall k | 0 <= k < |xs| :: xs[k] == f(ys[k])
    ensures xs == Map(ys[..|xs|], f)
    ensures forall k | 0 <= k <= |xs| :: xs[..k] == Map(ys[..k], f)
  {
    forall k | 0 <= k <= |xs| ensures xs[..k] == Map(ys[..k], f) {
      assert |xs[..k]| == |Map(ys[..k], f)|;
    }
  }

  /** Where each of five pieces sits in their concatenation. */
  lemma FivePieces<T>(a: seq<T>, b: seq<T>, c: seq<T>, d: seq<T>, e: seq<T>)
    ensures var x := a + (b + (c + (d + e)));
            && |x| == |a| + |b| + |c| + |d| + |e|
            && x[..|a|] == a
            && x[|a|..|a| + |b|] == b
            && x[|a| + |b|..|x| - |e| - |d|] == c
            && x[|x| - |e| - |d|..|x| - |e|] == d
            && x[|x| - |e|..] == e
  {
    var x := a + (b + (c + (d + e)));
    assert x[..|a|] == a;
    assert x[|a|..|a| + |b|] == b;
    assert x[|a| + |b|..|x| - |e| - |d|] == c;
    assert x[|x| - |e| - |d|..|x| - |e|] == d;
    assert x[|x| - |e|..] == e;
  }

  lemma MapCons<T, U>(x: T, xs: seq<T>, f: T -> U)
    ensures Map([x] + xs, f) == [f(x)] + Map(xs, f)
  {
    assert forall i | 1 <= i <= |xs| :: ([x] + xs)[i] == xs[i - 1];
  }

  /** Behind one element, the positions of `rest` move up by one. */
  lemma ConsShift<T>(x: T, rest: seq<T>, xs: seq<T>)
    requires xs == [x] + rest
    ensures forall i | 1 <= i < |xs| :: xs[i] == rest[i - 1]
  {
    forall i | 1 <= i < |xs| ensures xs[i] == rest[i - 1] {
      assert xs[i] == ([x] + rest)[i];
    }
  }
}
