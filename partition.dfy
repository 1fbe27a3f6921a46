/** The hard partition that a fitted k-means model hands to the F test: one
    label per observation, drawn from `0 .. k-1`. This module models the
    cluster-size table (`np.unique(..., return_counts=True)` zipped into a
    dictionary) and the per-cluster sums that both variability terms are
    built from. */
module Partition {
  import opened Sums

  /** Every label lies in `0 .. k-1`, as `KMeans.labels_` does for `n_clusters = k`. */
  predicate AllBelow(labels: seq<nat>, k: nat)
  {
    forall i :: 0 <= i < |labels| ==> labels[i] < k
  }

  /** Strictly increasing: each element exceeds every one before it. */
  predicate Increasing(u: seq<nat>)
  {
    |u| == 0 || (Increasing(u[..|u| - 1]) && forall i :: 0 <= i < |u| - 1 ==> u[i] < u[|u| - 1])
  }

  /** No label occurs twice. */
  predicate Distinct(g: seq<nat>)
  {
    forall a, b :: 0 <= a < b < |g| ==> g[a] != g[b]
  }

  lemma {:induction false} IncreasingIsDistinct(u: seq<nat>)
    requires Increasing(u)
    ensures Distinct(u)
  {
    if |u| > 0 {
      var p := u[..|u| - 1];
      IncreasingIsDistinct(p);
      forall a, b | 0 <= a < b < |u| ensures u[a] != u[b] {
        if b < |u| - 1 {
          assert p[a] != p[b];
        }
      }
    }
  }

  /** The number of observations that carry label `c`. */
  function Occurrences(labels: seq<nat>, c: nat): nat
  {
    if |labels| == 0 then 0
    else Occurrences(labels[..|labels| - 1], c) + (if labels[|labels| - 1] == c then 1 else 0)
  }

  /** A label occurs exactly when some observation carries it. */
  lemma {:induction false} OccursIff(labels: seq<nat>, c: nat)
    ensures Occurrences(labels, c) >= 1 <==> c in labels
  {
    if |labels| > 0 {
      var p := labels[..|labels| - 1];
      OccursIff(p, c);
      assert labels == p + [labels[|labels| - 1]];
    }
  }

  /** The label of an observation occurs. */
  lemma LabelOccurs(labels: seq<nat>, i: nat)
    requires i < |labels|
    ensures Occurrences(labels, labels[i]) >= 1
  {
    OccursIff(labels, labels[i]);
  }

  /** No observation carries a label at or above `k`. */
  lemma {:induction false} NoneAbove(labels: seq<nat>, k: nat)
    requires AllBelow(labels, k)
    ensures forall c: nat :: c >= k ==> Occurrences(labels, c) == 0
  {
    if |labels| > 0 {
      var p := labels[..|labels| - 1];
      assert forall i :: 0 <= i < |p| ==> p[i] == labels[i];
      NoneAbove(p, k);
    }
  }

  /** Every label below `k` occurs: each of the `k` clusters is non-empty.
      Stated one label at a time; `AllOccurAt` reads it back for each label. */
  predicate AllOccur(labels: seq<nat>, k: nat)
  {
    k == 0 || (AllOccur(labels, k - 1) && Occurrences(labels, k - 1) >= 1)
  }

  lemma {:induction false} AllOccurAt(labels: seq<nat>, k: nat, c: nat)
    requires AllOccur(labels, k) && c < k
    ensures Occurrences(labels, c) >= 1
  {
    if c < k - 1 {
      AllOccurAt(labels, k - 1, c);
    }
  }

  /** The labels below `j` that occur, in increasing order. */
  function UniqueBelow(labels: seq<nat>, j: nat): (u: seq<nat>)
    ensures forall i :: 0 <= i < |u| ==> u[i] < j && Occurrences(labels, u[i]) >= 1
    ensures Increasing(u)
  {
    if j == 0 then []
    else
      var u := UniqueBelow(labels, j - 1);
      if Occurrences(labels, j - 1) >= 1 then
        assert (u + [j - 1])[..|u|] == u;
        u + [j - 1]
      else u
  }

  /** ... and it misses none of them. */
  lemma {:induction false} UniqueBelowComplete(labels: seq<nat>, j: nat)
    ensures forall x: nat :: x < j && Occurrences(labels, x) >= 1 ==> x in UniqueBelow(labels, j)
  {
    if j > 0 {
      UniqueBelowComplete(labels, j - 1);
    }
  }

  /** `np.unique(labels, return_counts=True)`: the distinct labels in
      increasing order, each paired with the number of observations that
      carry it (`CountLabelsComplete`: and no label that occurs is missing). */
  function CountLabels(labels: seq<nat>, k: nat): (r: (seq<nat>, seq<nat>))
    requires AllBelow(labels, k)
    ensures Increasing(r.0) && |r.1| == |r.0|
    ensures forall i :: 0 <= i < |r.0| ==> r.1[i] == Occurrences(labels, r.0[i]) && r.1[i] >= 1
  {
    var u := UniqueBelow(labels, k);
    (u, seq(|u|, i requires 0 <= i < |u| => Occurrences(labels, u[i])))
  }

  lemma CountLabelsComplete(labels: seq<nat>, k: nat)
    requires AllBelow(labels, k)
    ensures forall x: nat :: x in CountLabels(labels, k).0 <==> Occurrences(labels, x) >= 1
  {
    NoneAbove(labels, k);
    UniqueBelowComplete(labels, k);
  }

  /** `dict(zip(unique, counts))`: each label in turn mapped to its count. */
  function Zip(unique: seq<nat>, counts: seq<nat>): (dic: map<nat, nat>)
    requires |unique| == |counts| && Increasing(unique)
    ensures forall x :: x in dic <==> x in unique
    ensures forall i :: 0 <= i < |unique| ==> dic[unique[i]] == counts[i]
  {
    if |unique| == 0 then map[]
    else
      var n := |unique| - 1;
      var p := Zip(unique[..n], counts[..n]);
      assert forall i :: 0 <= i < n ==> unique[i] == unique[..n][i];
      assert forall x :: x in unique ==> x in unique[..n] || x == unique[n];
      p[unique[n] := counts[n]]
  }

  /** The cluster-size dictionary of the labels below `k`: its keys are
      exactly the labels below `k` that occur (so a lookup is defined just
      for the non-empty clusters) and each value is the size of that
      cluster. `ZipIsClusterSizes`: it is what `dict(zip(unique, counts))`
      builds. */
  function ClusterSizes(labels: seq<nat>, k: nat): (dic: map<nat, nat>)
    ensures forall c: nat :: c in dic <==> c < k && Occurrences(labels, c) >= 1
    ensures forall c: nat :: c in dic ==> dic[c] == Occurrences(labels, c)
  {
    if k == 0 then map[]
    else
      var p := ClusterSizes(labels, k - 1);
      if Occurrences(labels, k - 1) >= 1 then p[k - 1 := Occurrences(labels, k - 1)] else p
  }

  /** A map that sends each `unique[i]` to `counts[i]` and has no other key
      is the one `Zip` builds. */
  lemma ZipMatches(unique: seq<nat>, counts: seq<nat>, m: map<nat, nat>)
    requires |unique| == |counts| && Increasing(unique)
    requires forall i :: 0 <= i < |unique| ==> unique[i] in m && m[unique[i]] == counts[i]
    requires forall x :: x in m ==> x in unique
    ensures Zip(unique, counts) == m
  {
    var z := Zip(unique, counts);
    forall x | x in z ensures x in m && z[x] == m[x] {
      var i :| 0 <= i < |unique| && unique[i] == x;
    }
    assert z.Keys == m.Keys;
  }

  /** `dict(zip(*np.unique(labels, return_counts=True)))` is the cluster-size
      dictionary. */
  lemma ZipIsClusterSizes(labels: seq<nat>, k: nat)
    requires AllBelow(labels, k)
    ensures Zip(CountLabels(labels, k).0, CountLabels(labels, k).1) == ClusterSizes(labels, k)
  {
    var r := CountLabels(labels, k);
    var cs := ClusterSizes(labels, k);
    CountLabelsComplete(labels, k);
    NoneAbove(labels, k);
    forall i | 0 <= i < |r.0| ensures r.0[i] in cs && cs[r.0[i]] == r.1[i] {
      assert Occurrences(labels, r.0[i]) >= 1;
    }
    forall x | x in cs ensures x in r.0 {
      assert Occurrences(labels, x) >= 1;
    }
    ZipMatches(r.0, r.1, cs);
  }

  /** With every cluster non-empty, `dic` has a key at every centroid position. */
  lemma AllOccurKeys(labels: seq<nat>, k: nat)
    requires AllBelow(labels, k) && AllOccur(labels, k)
    ensures forall c :: 0 <= c < k ==> c in ClusterSizes(labels, k)
  {
    var dic := ClusterSizes(labels, k);
    forall c: nat | c < k ensures c in dic {
      AllOccurAt(labels, k, c);
    }
  }

  /** The labels `np.unique` returns are exactly those some observation carries. */
  lemma UniqueAreLabels(labels: seq<nat>, k: nat)
    requires AllBelow(labels, k)
    ensures forall x: nat :: x in CountLabels(labels, k).0 <==> x in labels
  {
    CountLabelsComplete(labels, k);
    forall x: nat ensures x in CountLabels(labels, k).0 <==> x in labels {
      OccursIff(labels, x);
    }
  }

  function SumNat(s: seq<nat>): nat
  {
    if |s| == 0 then 0 else SumNat(s[..|s| - 1]) + s[|s| - 1]
  }

  /** Σ over the labels `u` of their cluster sizes. */
  function OccurrencesOver(labels: seq<nat>, u: seq<nat>): nat
  {
    if |u| == 0 then 0 else OccurrencesOver(labels, u[..|u| - 1]) + Occurrences(labels, u[|u| - 1])
  }

  /** Σ over the labels `0 .. j-1` of their cluster sizes. */
  function OccurrencesBelow(labels: seq<nat>, j: nat): nat
  {
    if j == 0 then 0 else OccurrencesBelow(labels, j - 1) + Occurrences(labels, j - 1)
  }

  lemma {:induction false} CountsSumIsOver(labels: seq<nat>, u: seq<nat>, counts: seq<nat>)
    requires |counts| == |u|
    requires forall i :: 0 <= i < |u| ==> counts[i] == Occurrences(labels, u[i])
    ensures SumNat(counts) == OccurrencesOver(labels, u)
  {
    if |u| > 0 {
      var m := |u| - 1;
      CountsSumIsOver(labels, u[..m], counts[..m]);
    }
  }

  lemma OccurrencesOverAppend(labels: seq<nat>, u: seq<nat>, x: nat)
    ensures OccurrencesOver(labels, u + [x]) == OccurrencesOver(labels, u) + Occurrences(labels, x)
  {
    assert (u + [x])[..|u|] == u;
  }

  /** Moving the bound past `j - 1` adds that label's size, present or not. */
  lemma UniqueSizesStep(labels: seq<nat>, j: nat)
    requires j > 0
    ensures OccurrencesOver(labels, UniqueBelow(labels, j))
         == OccurrencesOver(labels, UniqueBelow(labels, j - 1)) + Occurrences(labels, j - 1)
  {
    if Occurrences(labels, j - 1) >= 1 {
      OccurrencesOverAppend(labels, UniqueBelow(labels, j - 1), j - 1);
    }
  }

  lemma {:induction false} UniqueSizesAreAllBelow(labels: seq<nat>, j: nat)
    ensures OccurrencesOver(labels, UniqueBelow(labels, j)) == OccurrencesBelow(labels, j)
  {
    if j > 0 {
      UniqueSizesAreAllBelow(labels, j - 1);
      UniqueSizesStep(labels, j);
    }
  }

  lemma {:induction false} OccurrencesBelowStep(labels: seq<nat>, j: nat)
    requires |labels| > 0
    ensures OccurrencesBelow(labels, j)
         == OccurrencesBelow(labels[..|labels| - 1], j) + (if labels[|labels| - 1] < j then 1 else 0)
  {
    if j > 0 {
      OccurrencesBelowStep(labels, j - 1);
    }
  }

  lemma {:induction false} OccurrencesBelowNone(labels: seq<nat>, j: nat)
    requires |labels| == 0
    ensures OccurrencesBelow(labels, j) == 0
  {
    if j > 0 {
      OccurrencesBelowNone(labels, j - 1);
    }
  }

  lemma {:induction false} OccurrencesBelowCoversAll(labels: seq<nat>, j: nat)
    requires AllBelow(labels, j)
    ensures OccurrencesBelow(labels, j) == |labels|
  {
    if |labels| > 0 {
      var p := labels[..|labels| - 1];
      assert forall i :: 0 <= i < |p| ==> p[i] == labels[i];
      assert AllBelow(p, j);
      assert labels[|labels| - 1] < j;
      OccurrencesBelowStep(labels, j);
      OccurrencesBelowCoversAll(p, j);
    } else {
      OccurrencesBelowNone(labels, j);
    }
  }

  /** The cluster sizes returned by `np.unique` add up to the number of
      observations `observacoes`. */
  lemma CountsSumToObservations(labels: seq<nat>, k: nat)
    requires AllBelow(labels, k)
    ensures SumNat(CountLabels(labels, k).1) == |labels|
  {
    var r := CountLabels(labels, k);
    CountsSumIsOver(labels, r.0, r.1);
    UniqueSizesAreAllBelow(labels, k);
    OccurrencesBelowCoversAll(labels, k);
  }

  // ---------------------------------------------------------------------------
  // Sums restricted to one cluster

  /** The values of the observations in cluster `g`, in observation order:
      the column of `df[df.cluster == g]`. */
  function GroupValues(xs: seq<real>, labels: seq<nat>, g: nat): (r: seq<real>)
    requires |xs| == |labels|
    ensures |r| == Occurrences(labels, g)
  {
    if |xs| == 0 then []
    else
      var n := |xs| - 1;
      var p := GroupValues(xs[..n], labels[..n], g);
      if labels[n] == g then p + [xs[n]] else p
  }

  /** Σ of `t[i]` over the observations `i` in cluster `g`. */
  function SumOver(t: seq<real>, labels: seq<nat>, g: nat): real
    requires |t| == |labels|
  {
    if |t| == 0 then 0.0
    else
      var n := |t| - 1;
      SumOver(t[..n], labels[..n], g) + (if labels[n] == g then t[n] else 0.0)
  }

  /** Σ over the clusters `gs` of their `SumOver`. */
  function SumOverGroups(t: seq<real>, labels: seq<nat>, gs: seq<nat>): real
    requires |t| == |labels|
  {
    if |gs| == 0 then 0.0
    else SumOverGroups(t, labels, gs[..|gs| - 1]) + SumOver(t, labels, gs[|gs| - 1])
  }

  /** Σ over `gs` of `v` where the group is `x`, and 0 elsewhere. */
  function Hits(gs: seq<nat>, x: nat, v: real): real
  {
    if |gs| == 0 then 0.0
    else Hits(gs[..|gs| - 1], x, v) + (if gs[|gs| - 1] == x then v else 0.0)
  }

  lemma {:induction false} HitsOnce(gs: seq<nat>, x: nat, v: real)
    requires Distinct(gs)
    ensures Hits(gs, x, v) == if x in gs then v else 0.0
  {
    if |gs| > 0 {
      var p := gs[..|gs| - 1];
      assert gs == p + [gs[|gs| - 1]];
      HitsOnce(p, x, v);
    }
  }

  lemma {:induction false} SumOverGroupsStep(t: seq<real>, labels: seq<nat>, gs: seq<nat>)
    requires |t| == |labels| > 0
    ensures SumOverGroups(t, labels, gs)
         == SumOverGroups(t[..|t| - 1], labels[..|t| - 1], gs) + Hits(gs, labels[|t| - 1], t[|t| - 1])
  {
    if |gs| > 0 {
      SumOverGroupsStep(t, labels, gs[..|gs| - 1]);
    }
  }

  lemma {:induction false} SumOverGroupsNone(t: seq<real>, labels: seq<nat>, gs: seq<nat>)
    requires |t| == |labels| == 0
    ensures SumOverGroups(t, labels, gs) == 0.0
  {
    if |gs| > 0 {
      SumOverGroupsNone(t, labels, gs[..|gs| - 1]);
    }
  }

  /** Grouping the observations by cluster does not change a sum: when `gs`
      lists every label that occurs, each exactly once, the per-cluster sums
      add up to the sum over all observations. */
  lemma {:induction false} GroupingPreservesSum(t: seq<real>, labels: seq<nat>, gs: seq<nat>)
    requires |t| == |labels|
    requires Distinct(gs)
    requires forall i :: 0 <= i < |labels| ==> labels[i] in gs
    ensures SumOverGroups(t, labels, gs) == Sum(t)
  {
    if |t| > 0 {
      var n := |t| - 1;
      assert forall i :: 0 <= i < n ==> labels[..n][i] == labels[i];
      SumOverGroupsStep(t, labels, gs);
      HitsOnce(gs, labels[n], t[n]);
      assert labels[n] in gs;
      GroupingPreservesSum(t[..n], labels[..n], gs);
    } else {
      SumOverGroupsNone(t, labels, gs);
    }
  }

  /** A term that is the same value `v` on every member of cluster `g` sums
      to `v` once per member of `g`. */
  lemma {:induction false} SumOverConstant(t: seq<real>, labels: seq<nat>, g: nat, v: real)
    requires |t| == |labels|
    requires forall i :: 0 <= i < |t| && labels[i] == g ==> t[i] == v
    ensures SumOver(t, labels, g) == Scale(Occurrences(labels, g), v)
  {
    if |t| > 0 {
      var n := |t| - 1;
      SumOverConstant(t[..n], labels[..n], g, v);
    }
  }

  /** A term that is the squared deviation of each member of `g` from `m`
      sums to the sum of squared deviations of `g`'s values from `m`. */
  lemma {:induction false} SumOverSqDev(t: seq<real>, xs: seq<real>, labels: seq<nat>, g: nat, m: real)
    requires |t| == |xs| == |labels|
    requires forall i :: 0 <= i < |t| && labels[i] == g ==> t[i] == Sq(xs[i] - m)
    ensures SumOver(t, labels, g) == SumSqDev(GroupValues(xs, labels, g), m)
  {
    if |t| > 0 {
      var n := |t| - 1;
      assert forall i :: 0 <= i < n ==> t[..n][i] == t[i] && xs[..n][i] == xs[i] && labels[..n][i] == labels[i];
      SumOverSqDev(t[..n], xs[..n], labels[..n], g, m);
      var p := GroupValues(xs[..n], labels[..n], g);
      if labels[n] == g {
        assert (p + [xs[n]])[..|p|] == p;
      }
    }
  }

  /** `[0, 1, .., k-1]`: the centroid positions `enumerate` walks through. */
  function Range(k: nat): (r: seq<nat>)
    ensures |r| == k && forall i :: 0 <= i < k ==> r[i] == i
  {
    seq(k, i => i)
  }

  /** The centroid positions are distinct and cover every label. */
  lemma RangeCoversLabels(labels: seq<nat>, k: nat)
    requires AllBelow(labels, k)
    ensures Distinct(Range(k))
    ensures forall i :: 0 <= i < |labels| ==> labels[i] in Range(k)
  {
    forall i | 0 <= i < |labels| ensures labels[i] in Range(k) {
      assert Range(k)[labels[i]] == labels[i];
    }
  }
}
