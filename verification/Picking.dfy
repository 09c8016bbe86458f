/** Picking indices of a list one after the other, each at most once. */
module Picking {
  import opened Sequences

  /** Indices into n items, each at most once. */
  ghost predicate Picks(picks: seq<nat>, n: nat) {
    && (forall i, k :: 0 <= i < k < |picks| ==> picks[i] != picks[k])
    && (forall k :: 0 <= k < |picks| ==> picks[k] < n)
  }

  lemma {:induction false} AtMostAll(picks: seq<nat>, n: nat)
    requires Picks(picks, n)
    ensures |picks| <= n
    decreases n
  {
    if picks != [] {
      assert picks[0] < n;
      if k :| 0 <= k < |picks| && picks[k] == n - 1 {
        AtMostAll(RemoveAt(picks, k), n - 1);
      } else {
        AtMostAll(picks, n - 1);
      }
    }
  }

  lemma {:induction false} AllArePicked(picks: seq<nat>, n: nat, j: nat)
    requires Picks(picks, n) && |picks| == n && j < n
    ensures j in picks
  {
    if j !in picks {
      var shifted := seq(n, k requires 0 <= k < n => if picks[k] > j then picks[k] - 1 else picks[k]);
      forall k | 0 <= k < n ensures 0 <= shifted[k] < n - 1 {
        assert picks[k] in picks;
      }
      AtMostAll(shifted, n - 1);
    }
  }

  lemma StaysPicked(picks: seq<nat>, k: nat, j: nat)
    requires k < |picks| && j in picks && picks[k] != j
    ensures j in RemoveAt(picks, k)
  {
    var m :| 0 <= m < |picks| && picks[m] == j;
    assert RemoveAt(picks, k)[if m < k then m else m - 1] == j;
  }

  /** A pick that is not of all items leaves one out. */
  lemma {:induction false} LeftOut(picks: seq<nat>, n: nat) returns (j: nat)
    requires Picks(picks, n) && |picks| != n
    ensures j < n && j !in picks
    decreases n
  {
    AtMostAll(picks, n);
    j := n - 1;
    if n - 1 in picks {
      var k :| 0 <= k < |picks| && picks[k] == n - 1;
      j := LeftOut(RemoveAt(picks, k), n - 1);
      if j in picks {
        StaysPicked(picks, k, j);
      }
    }
  }

  /** Picking each index once permutes the list. */
  lemma {:induction false} Permuted<T>(picks: seq<nat>, xs: seq<T>, ys: seq<T>)
    requires Picks(picks, |xs|) && |picks| == |xs| == |ys|
    requires forall k :: 0 <= k < |picks| ==> ys[k] == xs[picks[k]]
    ensures multiset(ys) == multiset(xs)
    decreases |xs|
  {
    if |xs| > 0 {
      var n := |xs| - 1;
      AllArePicked(picks, |xs|, n);
      var k :| 0 <= k < |picks| && picks[k] == n;
      PickOut(picks, xs, ys, k);
      Permuted(RemoveAt(picks, k), xs[..n], RemoveAt(ys, k));
      RemovedOnce(ys, k);
      assert xs == xs[..n] + [xs[n]];
    }
  }

  lemma RemovedOnce<T>(xs: seq<T>, k: nat)
    requires k < |xs|
    ensures multiset(RemoveAt(xs, k)) + multiset{xs[k]} == multiset(xs)
  {
    assert xs == xs[..k] + [xs[k]] + xs[k + 1..];
  }

  /** Without its largest index a pick is one of the items before the last. */
  lemma PickOut<T>(picks: seq<nat>, xs: seq<T>, ys: seq<T>, k: nat)
    requires Picks(picks, |xs|) && |picks| == |xs| == |ys| > 0
    requires forall k :: 0 <= k < |picks| ==> ys[k] == xs[picks[k]]
    requires k < |picks| && picks[k] == |xs| - 1
    ensures var n, picks', ys' := |xs| - 1, RemoveAt(picks, k), RemoveAt(ys, k);
      Picks(picks', n) && ys[k] == xs[n] && forall m :: 0 <= m < n ==> ys'[m] == xs[..n][picks'[m]]
  {
    var n, picks', ys' := |xs| - 1, RemoveAt(picks, k), RemoveAt(ys, k);
    forall m | 0 <= m < n ensures picks'[m] < n && ys'[m] == xs[..n][picks'[m]] {
      assert picks'[m] != picks[k];
    }
  }
}
