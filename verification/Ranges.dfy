/** Increasing sequences of integers and the ranges they lie in. */
module Ranges {
  predicate Increasing(s: seq<int>) {
    forall i, j | 0 <= i < j < |s| :: s[i] < s[j]
  }

  lemma IncreasingSnoc(s: seq<int>, x: int)
    requires Increasing(s) && forall n | n in s :: n < x
    ensures Increasing(s + [x])
  {
    forall i | 0 <= i < |s|
      ensures s[i] < x
    {
      assert s[i] in s;
    }
  }

  function Range(from: int, count: nat): (s: seq<int>)
    ensures |s| == count && forall k | 0 <= k < count :: s[k] == from + k
  {
    seq(count, k => from + k)
  }

  function Span(from: int, limit: int): (s: set<int>)
    ensures forall n :: n in s <==> from <= n < limit
    ensures from <= limit ==> |s| == limit - from
    decreases limit - from
  {
    if from >= limit then {} else {from} + Span(from + 1, limit)
  }

  function Members(s: seq<int>): set<int> {
    set n | n in s
  }

  lemma {:induction false} MembersSize(s: seq<int>)
    requires Increasing(s)
    ensures |Members(s)| == |s|
  {
    if s != [] {
      var front, last := s[..|s| - 1], s[|s| - 1];
      MembersSize(front);
      assert Members(s) == Members(front) + {last};
    }
  }

  /** What an increasing sequence leaves out of a range that contains it. */
  lemma MissedSize(s: seq<int>, from: int, limit: int)
    requires Increasing(s) && from <= limit && forall n | n in s :: from <= n < limit
    ensures |Span(from, limit) - Members(s)| == limit - from - |s|
  {
    MembersSize(s);
    assert Members(s) <= Span(from, limit);
  }
}
