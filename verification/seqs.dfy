/** The order-preserving filter that every removal pass of the triangulator
    is an instance of (the erase/remove_if idiom), with its characterisation
    by the positions it keeps. */
module Seqs {

  /** The elements of `s` that satisfy `keep`, in their original order. */
  function Filter<T(==)>(s: seq<T>, keep: T -> bool): (r: seq<T>)
    ensures |r| <= |s|
    ensures forall n :: 0 <= n < |r| ==> r[n] in s && keep(r[n])
    ensures forall i :: 0 <= i < |s| && keep(s[i]) ==> s[i] in r
  {
    if |s| == 0 then []
    else (if keep(s[0]) then [s[0]] else []) + Filter(s[1..], keep)
  }

  /** The positions `i >= k` of `s` whose element satisfies `keep`, ascending. */
  function PositionsFrom<T>(s: seq<T>, keep: T -> bool, k: nat): (r: seq<nat>)
    requires k <= |s|
    ensures forall n :: 0 <= n < |r| ==> k <= r[n] < |s| && keep(s[r[n]])
    ensures forall i :: k <= i < |s| && keep(s[i]) ==> i in r
    ensures Increasing(r)
    decreases |s| - k
  {
    if k == |s| then []
    else (if keep(s[k]) then [k] else []) + PositionsFrom(s, keep, k + 1)
  }

  /** The positions of `s` whose element satisfies `keep`, ascending. */
  function Positions<T>(s: seq<T>, keep: T -> bool): seq<nat> {
    PositionsFrom(s, keep, 0)
  }

  predicate Increasing(idx: seq<nat>) {
    forall m, n :: 0 <= m < n < |idx| ==> idx[m] < idx[n]
  }

  /** `r` is the subsequence of `s` taken at the ascending positions `idx`. */
  predicate SubsequenceAt<T(==)>(r: seq<T>, s: seq<T>, idx: seq<nat>) {
    && |r| == |idx|
    && Increasing(idx)
    && (forall n :: 0 <= n < |idx| ==> idx[n] < |s| && r[n] == s[idx[n]])
  }

  /** Taking position `k` in front of later positions extends a subsequence. */
  lemma SubsequenceCons<T>(r: seq<T>, s: seq<T>, idx: seq<nat>, k: nat)
    requires SubsequenceAt(r, s, idx)
    requires k < |s|
    requires forall n :: 0 <= n < |idx| ==> k < idx[n]
    ensures SubsequenceAt([s[k]] + r, s, [k] + idx)
  {
    var cons, consIdx := [s[k]] + r, [k] + idx;
    forall m, n | 0 <= m < n < |consIdx|
      ensures consIdx[m] < consIdx[n]
    {
      if m > 0 {
        assert consIdx[m] == idx[m - 1] && consIdx[n] == idx[n - 1];
      }
    }
    forall n | 0 < n < |consIdx|
      ensures consIdx[n] < |s| && cons[n] == s[consIdx[n]]
    {
      assert cons[n] == r[n - 1] && consIdx[n] == idx[n - 1];
    }
  }

  lemma {:induction false} FilterFromPositions<T>(s: seq<T>, keep: T -> bool, k: nat)
    requires k <= |s|
    ensures SubsequenceAt(Filter(s[k..], keep), s, PositionsFrom(s, keep, k))
    decreases |s| - k
  {
    if k < |s| {
      var rest := Filter(s[k + 1..], keep);
      var tail := PositionsFrom(s, keep, k + 1);
      FilterFromPositions(s, keep, k + 1);
      assert s[k..][1..] == s[k + 1..];
      if keep(s[k]) {
        assert Filter(s[k..], keep) == [s[k]] + rest;
        assert PositionsFrom(s, keep, k) == [k] + tail;
        SubsequenceCons(rest, s, tail, k);
      } else {
        assert Filter(s[k..], keep) == rest;
        assert PositionsFrom(s, keep, k) == tail;
      }
    }
  }

  /** Filtering keeps exactly the elements that satisfy `keep` and keeps
      them in their original relative order: the result is the subsequence of
      `s` at the ascending positions whose element satisfies `keep`. */
  lemma FilterKeepsOrder<T>(s: seq<T>, keep: T -> bool)
    ensures SubsequenceAt(Filter(s, keep), s, Positions(s, keep))
    ensures forall i :: 0 <= i < |s| ==> (i in Positions(s, keep) <==> keep(s[i]))
  {
    FilterFromPositions(s, keep, 0);
    assert s[0..] == s;
  }

  /** Two tests that agree on every element of `s` filter it alike. */
  lemma {:induction false} FilterCongruent<T>(s: seq<T>, f: T -> bool, g: T -> bool)
    requires forall x :: x in s ==> f(x) == g(x)
    ensures Filter(s, f) == Filter(s, g)
  {
    if |s| > 0 {
      assert forall x :: x in s[1..] ==> x in s;
      FilterCongruent(s[1..], f, g);
    }
  }
}
