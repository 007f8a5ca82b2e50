/** Sequences that are left of others when elements are left out. */
module Subsequences {
  predicate Subsequence<T(==)>(part: seq<T>, all: seq<T>)
    decreases |all|
  {
    part == [] ||
    (all != [] &&
     ((part[|part| - 1] == all[|all| - 1] && Subsequence(part[..|part| - 1], all[..|all| - 1])) ||
      Subsequence(part, all[..|all| - 1])))
  }

  lemma {:induction false} SubsequenceMore<T>(part: seq<T>, all: seq<T>, more: seq<T>)
    requires Subsequence(part, all)
    ensures Subsequence(part, all + more)
    decreases |more|
  {
    if more == [] {
      assert all + more == all;
    } else {
      SubsequenceMore(part, all, more[..|more| - 1]);
      assert (all + more)[..|all + more| - 1] == all + more[..|more| - 1];
    }
  }

  lemma {:induction false} SubsequenceBoth<T>(part: seq<T>, all: seq<T>, more: seq<T>)
    requires Subsequence(part, all)
    ensures Subsequence(part + more, all + more)
    decreases |more|
  {
    if more == [] {
      assert part + more == part && all + more == all;
    } else {
      SubsequenceBoth(part, all, more[..|more| - 1]);
      assert (part + more)[..|part + more| - 1] == part + more[..|more| - 1];
      assert (all + more)[..|all + more| - 1] == all + more[..|more| - 1];
    }
  }

  lemma {:induction false} SubsequenceSelf<T>(all: seq<T>)
    ensures Subsequence(all, all)
  {
    if all != [] {
      SubsequenceSelf(all[..|all| - 1]);
    }
  }

  lemma {:induction false} SubsequenceTrans<T>(part: seq<T>, mid: seq<T>, all: seq<T>)
    requires Subsequence(part, mid) && Subsequence(mid, all)
    ensures Subsequence(part, all)
    decreases |all|
  {
    if part != [] {
      var before := all[..|all| - 1];
      if Subsequence(mid, before) {
        SubsequenceTrans(part, mid, before);
      } else if Subsequence(part, mid[..|mid| - 1]) {
        SubsequenceTrans(part, mid[..|mid| - 1], before);
      } else {
        SubsequenceTrans(part[..|part| - 1], mid[..|mid| - 1], before);
      }
    }
  }

  /** Elements may also be left out from the front of a later stretch. */
  lemma SubsequenceDrop<T>(first: seq<T>, second: seq<T>, n: nat, all: seq<T>)
    requires Subsequence(first + second, all) && n <= |second|
    ensures Subsequence(first + second[n..], all)
  {
    SubsequenceSelf(first);
    SubsequenceMore(first, first, second[..n]);
    SubsequenceBoth(first, first + second[..n], second[n..]);
    assert first + second[..n] + second[n..] == first + second;
    SubsequenceTrans(first + second[n..], first + second, all);
  }

  /** Nothing is in the part more often than in the whole. */
  lemma {:induction false} SubsequenceCounts<T>(part: seq<T>, all: seq<T>)
    requires Subsequence(part, all)
    ensures multiset(part) <= multiset(all)
    decreases |all|
  {
    if part != [] {
      var before, last := all[..|all| - 1], all[|all| - 1];
      assert all == before + [last] && part == part[..|part| - 1] + [part[|part| - 1]];
      if Subsequence(part, before) {
        SubsequenceCounts(part, before);
      } else {
        SubsequenceCounts(part[..|part| - 1], before);
      }
    }
  }

  lemma {:induction false} SubsequencePrefix<T>(part: seq<T>, all: seq<T>, n: nat)
    requires Subsequence(part, all) && n <= |part|
    ensures Subsequence(part[..n], all)
    decreases |all|
  {
    if 0 < n < |part| {
      var before := all[..|all| - 1];
      if Subsequence(part, before) {
        SubsequencePrefix(part, before, n);
      } else {
        SubsequencePrefix(part[..|part| - 1], before, n);
        assert part[..|part| - 1][..n] == part[..n];
      }
    } else if n == |part| {
      assert part[..n] == part;
    }
  }
}
