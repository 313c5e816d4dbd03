// Counting arguments over the clocks of N concurrent participants.
//
// A protocol with N participants is described below by one clock per participant:
// a number that grows at every synchronisation step. How many tokens a semaphore holds
// is then a difference of threshold counts.

module Counting {

  // The participants whose clock has reached k.
  ghost function Reached(s: seq<int>, k: int): set<nat> {
    set w: nat | w < |s| && s[w] >= k
  }

  /** How many clocks have reached k. */
  ghost function CountAtLeast(s: seq<int>, k: int): nat {
    |Reached(s, k)|
  }

  ghost function Sum(s: seq<int>): int {
    if s == [] then 0 else s[|s| - 1] + Sum(s[..|s| - 1])
  }

  /** Moving one clock changes the counts only at the thresholds it crosses. */
  lemma CountUpdate(s: seq<int>, w: nat, v: int, k: int)
    requires w < |s|
    ensures CountAtLeast(s[w := v], k)
         == CountAtLeast(s, k) - (if s[w] >= k then 1 else 0) + (if v >= k then 1 else 0)
  {
    var others := Reached(s, k) - {w};
    assert Reached(s, k) == if s[w] >= k then others + {w} else others;
    assert Reached(s[w := v], k) == if v >= k then others + {w} else others;
  }

  lemma {:induction false} SumUpdate(s: seq<int>, w: nat, v: int)
    requires w < |s|
    ensures Sum(s[w := v]) == Sum(s) - s[w] + v
  {
    var n := |s| - 1;
    if w == n {
      assert s[w := v][..n] == s[..n];
    } else {
      assert s[w := v][..n] == s[..n][w := v];
      SumUpdate(s[..n], w, v);
    }
  }

  lemma {:induction false} SumBound(s: seq<int>, b: int)
    requires forall i :: 0 <= i < |s| ==> s[i] <= b
    ensures Sum(s) <= b * |s|
  {
    if s != [] {
      SumBound(s[..|s| - 1], b);
      assert b * |s| == b * (|s| - 1) + b;
    }
  }

  ghost function Below(n: nat): (r: set<nat>)
    ensures |r| == n && forall w: nat :: w in r <==> w < n
  {
    if n == 0 then {} else Below(n - 1) + {n - 1}
  }

  /** The count is full exactly when every clock has reached k, and zero exactly when none has. */
  lemma CountExtremes(s: seq<int>, k: int)
    ensures CountAtLeast(s, k) <= |s|
    ensures CountAtLeast(s, k) == |s| <==> forall w :: 0 <= w < |s| ==> s[w] >= k
    ensures CountAtLeast(s, k) == 0 <==> forall w :: 0 <= w < |s| ==> s[w] < k
  {
    SubsetSize(Reached(s, k), Below(|s|));
    if CountAtLeast(s, k) == |s| {
      forall w: nat | w < |s| ensures s[w] >= k { assert w in Below(|s|); }
    }
    if forall w :: 0 <= w < |s| ==> s[w] >= k {
      assert Reached(s, k) == Below(|s|);
    }
    assert forall w: nat :: w < |s| && s[w] >= k ==> w in Reached(s, k);
  }

  lemma SubsetSize(a: set<nat>, b: set<nat>)
    requires a <= b
    ensures |a| <= |b|
    ensures |a| == |b| <==> a == b
  {
    assert b == a + (b - a);
  }

  lemma CountMonotone(s: seq<int>, j: int, k: int)
    requires j <= k
    ensures CountAtLeast(s, k) <= CountAtLeast(s, j)
  {
    SubsetSize(Reached(s, k), Reached(s, j));
  }
}
