/**
 * Order-preserving filtering of sequences: the shape shared by every
 * `for ... { if cond { resp = append(resp, x) } }` loop of the in-memory storage.
 */
module Seqs {

  /** The elements of `s` that satisfy `p`, in the order they occur in `s`. */
  function Filter<T>(s: seq<T>, p: T -> bool): seq<T>
    decreases |s|
  {
    if s == [] then []
    else Filter(s[..|s| - 1], p) + (if p(s[|s| - 1]) then [s[|s| - 1]] else [])
  }

  /**
   * `r` is obtained from `s` by deleting elements, the rest keeping their order.
   * Matching the last elements greedily decides this exactly.
   */
  ghost predicate IsSubsequence<T>(r: seq<T>, s: seq<T>)
    decreases |s|
  {
    if r == [] then true
    else if s == [] then false
    else if r[|r| - 1] == s[|s| - 1] then IsSubsequence(r[..|r| - 1], s[..|s| - 1])
    else IsSubsequence(r, s[..|s| - 1])
  }

  /** Filtering one more element: what a loop iteration appends. */
  lemma {:induction false} FilterSnoc<T>(s: seq<T>, x: T, p: T -> bool)
    ensures Filter(s + [x], p) == Filter(s, p) + (if p(x) then [x] else [])
  {
  }

  /** An element is kept exactly when it occurs in the input and satisfies the predicate. */
  lemma {:induction false} FilterMembership<T>(s: seq<T>, p: T -> bool, x: T)
    ensures x in Filter(s, p) <==> x in s && p(x)
  {
    if s != [] {
      var init := s[..|s| - 1];
      FilterMembership(init, p, x);
      assert s == init + [s[|s| - 1]];
    }
  }

  /** Every occurrence of a kept value survives: duplicates in the input stay duplicates. */
  lemma {:induction false} FilterCount<T>(s: seq<T>, p: T -> bool, x: T)
    ensures multiset(Filter(s, p))[x] == if p(x) then multiset(s)[x] else 0
  {
    if s != [] {
      var init := s[..|s| - 1];
      FilterCount(init, p, x);
      assert s == init + [s[|s| - 1]];
    }
  }

  /** The filtered sequence keeps the input order. */
  lemma {:induction false} FilterIsSubsequence<T>(s: seq<T>, p: T -> bool)
    ensures IsSubsequence(Filter(s, p), s)
  {
    if s != [] {
      var init, last := s[..|s| - 1], s[|s| - 1];
      FilterIsSubsequence(init, p);
      var f := Filter(init, p);
      if p(last) {
        assert (f + [last])[..|f|] == f;
      } else if f != [] {
        FilterMembership(init, p, f[|f| - 1]);
        assert f[|f| - 1] != last;
        assert Filter(s, p) == f;
        assert IsSubsequence(f, s) == IsSubsequence(f, init);
      }
    }
  }

  /** When every element satisfies the predicate, nothing is dropped. */
  lemma {:induction false} FilterKeepsAll<T>(s: seq<T>, p: T -> bool)
    requires forall i :: 0 <= i < |s| ==> p(s[i])
    ensures Filter(s, p) == s
  {
    if s != [] {
      FilterKeepsAll(s[..|s| - 1], p);
      assert s == s[..|s| - 1] + [s[|s| - 1]];
    }
  }

  /** The result is empty exactly when no element satisfies the predicate. */
  lemma {:induction false} FilterEmpty<T>(s: seq<T>, p: T -> bool)
    ensures Filter(s, p) == [] <==> forall i :: 0 <= i < |s| ==> !p(s[i])
  {
    if Filter(s, p) == [] {
      forall i | 0 <= i < |s| ensures !p(s[i]) {
        FilterMembership(s, p, s[i]);
      }
    } else {
      var x := Filter(s, p)[0];
      FilterMembership(s, p, x);
      var i :| 0 <= i < |s| && s[i] == x;
    }
  }

  /** The result is exactly `[s[k]]` when `s[k]` is the only element satisfying the predicate. */
  lemma {:induction false} FilterSingle<T>(s: seq<T>, p: T -> bool, k: int)
    requires 0 <= k < |s| && p(s[k])
    requires forall j :: 0 <= j < |s| && j != k ==> !p(s[j])
    ensures Filter(s, p) == [s[k]]
  {
    var init := s[..|s| - 1];
    if k == |s| - 1 {
      FilterEmpty(init, p);
    } else {
      FilterSingle(init, p, k);
    }
  }

  /** The result has two or more elements exactly when two positions of `s` satisfy the predicate. */
  lemma {:induction false} FilterAtLeastTwo<T>(s: seq<T>, p: T -> bool)
    ensures |Filter(s, p)| >= 2 <==> exists i, j :: 0 <= i < j < |s| && p(s[i]) && p(s[j])
  {
    if s != [] {
      var n := |s| - 1;
      var init := s[..n];
      FilterAtLeastTwo(init, p);
      FilterEmpty(init, p);
      if |Filter(s, p)| >= 2 {
        if p(s[n]) {
          var i :| 0 <= i < |init| && p(init[i]);
          assert p(s[i]) && p(s[n]);
        } else {
          var i, j :| 0 <= i < j < |init| && p(init[i]) && p(init[j]);
          assert p(s[i]) && p(s[j]);
        }
      }
      if exists i, j :: 0 <= i < j < |s| && p(s[i]) && p(s[j]) {
        var i, j :| 0 <= i < j < |s| && p(s[i]) && p(s[j]);
        if j == n {
          assert p(init[i]);
        } else {
          assert p(init[i]) && p(init[j]);
        }
      }
    }
  }
}
