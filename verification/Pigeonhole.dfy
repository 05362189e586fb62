/** Counting lemmas shared by the models. */
module Pigeonhole {
  import opened Sequences

  /** Distinct numbers below n are at most n. */
  lemma {:induction false} DistinctBound(l: seq<nat>, n: nat)
    requires Distinct(l) && forall i :: 0 <= i < |l| ==> l[i] < n
    ensures |l| <= n
    decreases n
  {
    if l != [] {
      assert l[0] < n;
      if k :| 0 <= k < |l| && l[k] == n - 1 {
        DistinctBound(l[..k] + l[k + 1..], n - 1);
      } else {
        DistinctBound(l, n - 1);
      }
    }
  }

  /** n distinct numbers below n are all of them. */
  lemma DistinctCovers(l: seq<nat>, n: nat, b: nat)
    requires |l| == n && Distinct(l) && forall i :: 0 <= i < |l| ==> l[i] < n
    requires b < n
    ensures b in l
  {
    if b !in l {
      DistinctBound(l + [b], n);
    }
  }
}
