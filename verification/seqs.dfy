/** Order-preserving selection over sequences: the model of
    `Array.prototype.filter` and `Array.prototype.find`. */
module Seqs {
  import opened Wrappers

  /** `a` can be obtained from `b` by deleting elements, keeping the order. */
  predicate IsSubsequence<T(==)>(a: seq<T>, b: seq<T>)
    decreases |b|
  {
    if a == [] then true
    else if b == [] then false
    else if a[0] == b[0] then IsSubsequence(a[1..], b[1..])
    else IsSubsequence(a, b[1..])
  }

  /** The elements of `xs` satisfying `keep`, in their original order. */
  function Filter<T>(xs: seq<T>, keep: T -> bool): (r: seq<T>)
    ensures |r| <= |xs|
    ensures forall i :: 0 <= i < |r| ==> keep(r[i])
  {
    if xs == [] then []
    else if keep(xs[0]) then [xs[0]] + Filter(xs[1..], keep)
    else Filter(xs[1..], keep)
  }

  /** Filtering distributes over concatenation. */
  lemma {:induction false} FilterAppend<T>(xs: seq<T>, ys: seq<T>, keep: T -> bool)
    ensures Filter(xs + ys, keep) == Filter(xs, keep) + Filter(ys, keep)
  {
    if xs == [] {
      assert xs + ys == ys;
    } else {
      assert (xs + ys)[1..] == xs[1..] + ys;
      FilterAppend(xs[1..], ys, keep);
    }
  }

  /** The filtered sequence is an order-preserving subsequence of the input. */
  lemma {:induction false} FilterIsSubsequence<T>(xs: seq<T>, keep: T -> bool)
    ensures IsSubsequence(Filter(xs, keep), xs)
  {
    if xs != [] {
      FilterIsSubsequence(xs[1..], keep);
      var r := Filter(xs, keep);
      if keep(xs[0]) {
        assert r[0] == xs[0] && r[1..] == Filter(xs[1..], keep);
      } else if r != [] {
        assert keep(r[0]);
      }
    }
  }

  /** A sequence is a subsequence of itself extended at the end. */
  lemma {:induction false} PrefixIsSubsequence<T>(a: seq<T>, b: seq<T>)
    ensures IsSubsequence(a, a + b)
  {
    if a != [] {
      assert (a + b)[1..] == a[1..] + b;
      PrefixIsSubsequence(a[1..], b);
    }
  }

  /** An element is in the filtered sequence exactly when it is in the input
      and is kept. */
  lemma {:induction false} FilterMembership<T>(xs: seq<T>, keep: T -> bool, x: T)
    ensures x in Filter(xs, keep) <==> x in xs && keep(x)
  {
    if xs != [] {
      FilterMembership(xs[1..], keep, x);
      assert xs == [xs[0]] + xs[1..];
    }
  }

  /** Filtering leaves a sequence whose every element is kept unchanged. */
  lemma {:induction false} FilterAllKept<T>(xs: seq<T>, keep: T -> bool)
    requires forall i :: 0 <= i < |xs| ==> keep(xs[i])
    ensures Filter(xs, keep) == xs
  {
    if xs != [] {
      FilterAllKept(xs[1..], keep);
    }
  }

  /** Filtering twice with the same predicate is filtering once. */
  lemma FilterIdempotent<T>(xs: seq<T>, keep: T -> bool)
    ensures Filter(Filter(xs, keep), keep) == Filter(xs, keep)
  {
    FilterAllKept(Filter(xs, keep), keep);
  }

  /** If `p` and `q` select disjoint parts of what `r` selects, and together
      all of it, the two selections add up to the selection by `r`. */
  lemma {:induction false} FilterPartitionCount<T>(xs: seq<T>, p: T -> bool, q: T -> bool, r: T -> bool)
    requires forall i :: 0 <= i < |xs| ==> (r(xs[i]) <==> p(xs[i]) || q(xs[i]))
    requires forall i :: 0 <= i < |xs| ==> !(p(xs[i]) && q(xs[i]))
    ensures |Filter(xs, p)| + |Filter(xs, q)| == |Filter(xs, r)|
  {
    if xs != [] {
      FilterPartitionCount(xs[1..], p, q, r);
    }
  }

  /** The first element satisfying `pred`, if any: `Array.prototype.find`. */
  function Find<T>(xs: seq<T>, pred: T -> bool): (r: Option<T>)
    ensures r.Some? ==> exists i :: 0 <= i < |xs| && xs[i] == r.value && pred(xs[i])
                          && forall j :: 0 <= j < i ==> !pred(xs[j])
    ensures r.None? <==> forall i :: 0 <= i < |xs| ==> !pred(xs[i])
  {
    if xs == [] then None
    else if pred(xs[0]) then Some(xs[0])
    else
      var r := Find(xs[1..], pred);
      assert r.Some? ==> exists i :: 0 <= i < |xs| && xs[i] == r.value && pred(xs[i])
                                    && forall j :: 0 <= j < i ==> !pred(xs[j]) by {
        if r.Some? {
          var k :| 0 <= k < |xs| - 1 && xs[1..][k] == r.value && pred(xs[1..][k])
                   && forall j :: 0 <= j < k ==> !pred(xs[1..][j]);
          assert forall j :: 0 <= j < k + 1 ==> !pred(xs[j]) by {
            forall j | 0 <= j < k + 1 ensures !pred(xs[j]) {
              if j > 0 { assert xs[j] == xs[1..][j - 1]; }
            }
          }
        }
      }
      assert r.None? <==> forall i :: 0 <= i < |xs| ==> !pred(xs[i]) by {
        assert forall i :: 1 <= i < |xs| ==> xs[i] == xs[1..][i - 1];
      }
      r
  }

  /** `Find` returns the element at the least index satisfying `pred`. */
  lemma {:induction false} FindFirst<T>(xs: seq<T>, pred: T -> bool, i: int)
    requires 0 <= i < |xs| && pred(xs[i])
    requires forall j :: 0 <= j < i ==> !pred(xs[j])
    ensures Find(xs, pred) == Some(xs[i])
  {
    if i > 0 {
      assert !pred(xs[0]);
      assert forall j :: 0 <= j < i - 1 ==> xs[1..][j] == xs[j + 1];
      FindFirst(xs[1..], pred, i - 1);
    }
  }
}
