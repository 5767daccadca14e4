/**
 * `Array.prototype.filter`, order-preserving selection and the facts about
 * it that the task store, the statistics and the page rely on.
 */
module Seqs {

  /** `s.filter(p)`: the elements of `s` that satisfy `p`, in their order. */
  function Filter<T>(s: seq<T>, p: T -> bool): (r: seq<T>)
    ensures |r| <= |s|
    ensures forall x :: x in r ==> x in s && p(x)
    decreases |s|
  {
    if s == [] then []
    else Filter(s[..|s| - 1], p) + (if p(s[|s| - 1]) then [s[|s| - 1]] else [])
  }

  /** Filtering one more element of a prefix appends it when it passes. */
  lemma FilterPrefixStep<T>(s: seq<T>, p: T -> bool, i: int)
    requires 0 <= i < |s|
    ensures Filter(s[..i + 1], p) == Filter(s[..i], p) + (if p(s[i]) then [s[i]] else [])
  {
    assert s[..i + 1][..i] == s[..i];
  }

  /** Positions of `s` whose element satisfies `p`, ascending. */
  function FilterIndices<T>(s: seq<T>, p: T -> bool): seq<int>
    decreases |s|
  {
    if s == [] then []
    else FilterIndices(s[..|s| - 1], p) + (if p(s[|s| - 1]) then [|s| - 1] else [])
  }

  /**
   * `idx` witnesses that `r` is the subsequence of `s` made of exactly the
   * positions whose element satisfies `p`, kept in their original order.
   */
  ghost predicate SelectionBy<T>(idx: seq<int>, r: seq<T>, s: seq<T>, p: T -> bool) {
    && |idx| == |r|
    && (forall k :: 0 <= k < |idx| ==> 0 <= idx[k] < |s| && r[k] == s[idx[k]])
    && (forall k, l :: 0 <= k < l < |idx| ==> idx[k] < idx[l])
    && (forall i :: 0 <= i < |s| ==> (p(s[i]) <==> i in idx))
  }

  /** `r` is the order-preserving selection of the elements of `s` satisfying `p`. */
  ghost predicate Selection<T>(r: seq<T>, s: seq<T>, p: T -> bool) {
    exists idx :: SelectionBy(idx, r, s, p)
  }

  lemma {:induction false} FilterIndicesCorrect<T>(s: seq<T>, p: T -> bool)
    ensures SelectionBy(FilterIndices(s, p), Filter(s, p), s, p)
    decreases |s|
  {
    if s != [] {
      var n := |s| - 1;
      var s' := s[..n];
      FilterIndicesCorrect(s', p);
      SelectionSnoc(FilterIndices(s', p), Filter(s', p), s', p, s[n]);
      assert s' + [s[n]] == s;
    }
  }

  /** A selection from `s` extends to `s + [x]` by taking `x` when it satisfies `p`. */
  lemma SelectionSnoc<T>(idx: seq<int>, r: seq<T>, s: seq<T>, p: T -> bool, x: T)
    requires SelectionBy(idx, r, s, p)
    ensures SelectionBy(idx + (if p(x) then [|s|] else []), r + (if p(x) then [x] else []), s + [x], p)
  {
    var n := |s|;
    var idx2, r2, s2 := idx + (if p(x) then [n] else []), r + (if p(x) then [x] else []), s + [x];
    forall k | 0 <= k < |idx2| ensures 0 <= idx2[k] < |s2| && r2[k] == s2[idx2[k]] {
      if k < |idx| {
        assert idx2[k] == idx[k] && r2[k] == r[k];
        assert s2[idx[k]] == s[idx[k]];
      }
    }
    forall k, l | 0 <= k < l < |idx2| ensures idx2[k] < idx2[l] {
      if l >= |idx| {
        assert idx2[l] == n && idx2[k] == idx[k];
      }
    }
    forall i | 0 <= i < |s2| ensures p(s2[i]) <==> i in idx2 {
      if i < n {
        assert s2[i] == s[i];
        assert i in idx2 <==> i in idx;
      } else {
        assert forall k :: 0 <= k < |idx| ==> idx[k] < n;
        assert n !in idx;
      }
    }
  }

  /** The result of `filter` is exactly the order-preserving selection by `p`. */
  lemma FilterIsSelection<T>(s: seq<T>, p: T -> bool)
    ensures Selection(Filter(s, p), s, p)
  {
    FilterIndicesCorrect(s, p);
  }

  /** Every element of `s` that satisfies `p` survives the filter. */
  lemma {:induction false} FilterKeeps<T>(s: seq<T>, p: T -> bool, x: T)
    requires x in s && p(x)
    ensures x in Filter(s, p)
    decreases |s|
  {
    if x != s[|s| - 1] {
      var s' := s[..|s| - 1];
      assert s == s' + [s[|s| - 1]];
      FilterKeeps(s', p, x);
    }
  }

  /** Filtering with a predicate that holds everywhere changes nothing. */
  lemma {:induction false} FilterAll<T>(s: seq<T>, p: T -> bool)
    requires forall x :: x in s ==> p(x)
    ensures Filter(s, p) == s
    decreases |s|
  {
    if s != [] {
      var s' := s[..|s| - 1];
      assert s == s' + [s[|s| - 1]];
      FilterAll(s', p);
    }
  }

  /** Filtering with a predicate that holds nowhere leaves nothing. */
  lemma {:induction false} FilterNone<T>(s: seq<T>, p: T -> bool)
    requires forall x :: x in s ==> !p(x)
    ensures Filter(s, p) == []
    decreases |s|
  {
    if s != [] {
      var s' := s[..|s| - 1];
      assert s == s' + [s[|s| - 1]];
      FilterNone(s', p);
    }
  }

  /** `filter` distributes over concatenation. */
  lemma {:induction false} FilterAppend<T>(s: seq<T>, t: seq<T>, p: T -> bool)
    ensures Filter(s + t, p) == Filter(s, p) + Filter(t, p)
    decreases |t|
  {
    if t != [] {
      var t' := t[..|t| - 1];
      assert (s + t)[..|s + t| - 1] == s + t';
      assert (s + t)[|s + t| - 1] == t[|t| - 1];
      FilterAppend(s, t', p);
      var tail := if p(t[|t| - 1]) then [t[|t| - 1]] else [];
      assert Filter(s + t, p) == Filter(s + t', p) + tail;
      assert Filter(t, p) == Filter(t', p) + tail;
      assert Filter(s + t', p) + tail == Filter(s, p) + (Filter(t', p) + tail);
    } else {
      assert s + t == s;
    }
  }

  /** Two predicates that agree everywhere filter alike. */
  lemma {:induction false} FilterCongruent<T>(s: seq<T>, p: T -> bool, q: T -> bool)
    requires forall x :: p(x) == q(x)
    ensures Filter(s, p) == Filter(s, q)
    decreases |s|
  {
    if s != [] {
      FilterCongruent(s[..|s| - 1], p, q);
    }
  }

  /** Filtering twice is filtering once by the conjunction. */
  lemma {:induction false} FilterFilter<T>(s: seq<T>, p: T -> bool, q: T -> bool, pq: T -> bool)
    requires forall x :: pq(x) == (p(x) && q(x))
    ensures Filter(Filter(s, p), q) == Filter(s, pq)
    decreases |s|
  {
    if s != [] {
      var s' := s[..|s| - 1];
      var last := s[|s| - 1];
      FilterFilter(s', p, q, pq);
      FilterAppend(Filter(s', p), if p(last) then [last] else [], q);
      if p(last) {
        assert [last][..0] == [];
      }
    }
  }

  /** If some element fails `p`, the filter drops at least one element. */
  lemma {:induction false} FilterDrops<T>(s: seq<T>, p: T -> bool, x: T)
    requires x in s && !p(x)
    ensures |Filter(s, p)| < |s|
    decreases |s|
  {
    var s' := s[..|s| - 1];
    assert s == s' + [s[|s| - 1]];
    if x != s[|s| - 1] {
      FilterDrops(s', p, x);
    }
  }

  /** No element occurs twice. */
  predicate Distinct<T(==)>(s: seq<T>) {
    forall i, j :: 0 <= i < j < |s| ==> s[i] != s[j]
  }

  /** A selection from a sequence without repetitions has none either. */
  lemma FilterKeepsDistinct<T>(s: seq<T>, p: T -> bool)
    requires Distinct(s)
    ensures Distinct(Filter(s, p))
  {
    FilterIndicesCorrect(s, p);
  }

  /**
   * On a sequence without repetitions, dropping exactly the one element `x`
   * shortens it by exactly one.
   */
  lemma {:induction false} FilterAllBut<T>(s: seq<T>, p: T -> bool, x: T)
    requires Distinct(s) && x in s
    requires forall y :: y in s ==> (p(y) <==> y != x)
    ensures |Filter(s, p)| == |s| - 1
    decreases |s|
  {
    var s' := s[..|s| - 1];
    var last := s[|s| - 1];
    assert s == s' + [last];
    if last == x {
      assert forall y :: y in s' ==> p(y) by {
        forall y | y in s' ensures p(y) {
          var i :| 0 <= i < |s'| && s'[i] == y;
          assert s[i] == y;
        }
      }
      FilterAll(s', p);
    } else {
      FilterAllBut(s', p, x);
    }
  }
}
