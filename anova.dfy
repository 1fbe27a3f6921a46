/** The two variability terms of the one-way analysis of variance that
    `teste_f_kmeans` runs for each variable, over one column `xs` of the
    observations and the k-means labels. */
module Anova {
  import opened Sums
  import opened Partition

  /** Σ over the centroid positions `i` of `dic[i] · (cs[i] − mu)²`
      (`WeightedIsProducts` restates it with real products). */
  function WeightedSqDev(dic: map<nat, nat>, cs: seq<real>, mu: real): (r: real)
    requires forall i :: 0 <= i < |cs| ==> i in dic
    ensures r >= 0.0
  {
    if |cs| == 0 then 0.0
    else
      var n := |cs| - 1;
      SqPositive(cs[n] - mu);
      ScaleSign(dic[n], Sq(cs[n] - mu));
      WeightedSqDev(dic, cs[..n], mu) + Scale(dic[n], Sq(cs[n] - mu))
  }

  /** The same sum written as the source writes each term,
      `dic[index] * np.square(observacao - mean)`, with a real product. */
  function WeightedProducts(dic: map<nat, nat>, cs: seq<real>, mu: real): real
    requires forall i :: 0 <= i < |cs| ==> i in dic
  {
    if |cs| == 0 then 0.0
    else
      var n := |cs| - 1;
      WeightedProducts(dic, cs[..n], mu) + (dic[n] as real) * Sq(cs[n] - mu)
  }

  lemma {:induction false} WeightedIsProducts(dic: map<nat, nat>, cs: seq<real>, mu: real)
    requires forall i :: 0 <= i < |cs| ==> i in dic
    ensures WeightedSqDev(dic, cs, mu) == WeightedProducts(dic, cs, mu)
  {
    if |cs| > 0 {
      var n := |cs| - 1;
      WeightedIsProducts(dic, cs[..n], mu);
      ScaleIsProduct(dic[n], Sq(cs[n] - mu));
    }
  }

  /** `variabilidade_entre_grupos`: the size-weighted squared distance of the
      centroids from the grand mean of the column, over `k - 1`. The grand
      mean is that of the observations, not of the centroids; `dic[index]`
      is looked up at every centroid position, so every position must be a
      label that occurs. It is never negative. */
  function BetweenVariability(xs: seq<real>, dic: map<nat, nat>, cs: seq<real>, k: nat): (r: real)
    requires |xs| > 0 && k >= 2 && |cs| == k
    requires forall i :: 0 <= i < k ==> i in dic
    ensures r >= 0.0
  {
    WeightedSqDev(dic, cs, Mean(xs)) / ((k - 1) as real)
  }

  /** The between-group variability is the source's sum of
      `dic[index] · (centroid − grand mean)²` over the centroid positions,
      divided by `k - 1`. */
  lemma BetweenIsSourceSum(xs: seq<real>, dic: map<nat, nat>, cs: seq<real>, k: nat)
    requires |xs| > 0 && k >= 2 && |cs| == k
    requires forall i :: 0 <= i < k ==> i in dic
    ensures BetweenVariability(xs, dic, cs, k) == WeightedProducts(dic, cs, Mean(xs)) / ((k - 1) as real)
  {
    WeightedIsProducts(dic, cs, Mean(xs));
  }

  lemma {:induction false} WeightedSqDevZeroIff(dic: map<nat, nat>, cs: seq<real>, mu: real)
    requires forall i :: 0 <= i < |cs| ==> i in dic && dic[i] >= 1
    ensures WeightedSqDev(dic, cs, mu) == 0.0 <==> forall i :: 0 <= i < |cs| ==> cs[i] == mu
  {
    if |cs| > 0 {
      var n := |cs| - 1;
      var p := cs[..n];
      WeightedSqDevZeroIff(dic, p, mu);
      SqPositive(cs[n] - mu);
      ScaleSign(dic[n], Sq(cs[n] - mu));
      if forall i :: 0 <= i < |cs| ==> cs[i] == mu {
        assert forall i :: 0 <= i < n ==> p[i] == cs[i];
      }
      if WeightedSqDev(dic, cs, mu) == 0.0 {
        forall i | 0 <= i < |cs| ensures cs[i] == mu {
          if i < n { assert cs[i] == p[i]; }
        }
      }
    }
  }

  /** With every cluster non-empty, the between-group variability is zero
      exactly when every centroid coordinate equals the grand mean. */
  lemma BetweenZeroIff(xs: seq<real>, dic: map<nat, nat>, cs: seq<real>, k: nat)
    requires |xs| > 0 && k >= 2 && |cs| == k
    requires forall i :: 0 <= i < k ==> i in dic && dic[i] >= 1
    ensures BetweenVariability(xs, dic, cs, k) == 0.0 <==> forall i :: 0 <= i < k ==> cs[i] == Mean(xs)
  {
    WeightedSqDevZeroIff(dic, cs, Mean(xs));
  }

  /** The squared distance of each observation's centroid from `mu`. */
  function CentroidDevs(cs: seq<real>, labels: seq<nat>, mu: real): (t: seq<real>)
    requires AllBelow(labels, |cs|)
    ensures |t| == |labels|
  {
    seq(|labels|, i requires 0 <= i < |labels| => Sq(cs[labels[i]] - mu))
  }

  /** Weighting centroid `i` by its cluster size is summing, over cluster
      `i`'s members, a term that is `(cs[i] − mu)²` on each of them. */
  lemma {:induction false} WeightedIsGrouped(dic: map<nat, nat>, cs: seq<real>, mu: real, t: seq<real>, labels: seq<nat>)
    requires forall i :: 0 <= i < |cs| ==> i in dic && dic[i] == Occurrences(labels, i)
    requires |t| == |labels|
    requires forall i :: 0 <= i < |labels| && labels[i] < |cs| ==> t[i] == Sq(cs[labels[i]] - mu)
    ensures WeightedSqDev(dic, cs, mu) == SumOverGroups(t, labels, Range(|cs|))
  {
    if |cs| > 0 {
      var n := |cs| - 1;
      var p := cs[..n];
      assert forall i :: 0 <= i < n ==> p[i] == cs[i];
      WeightedIsGrouped(dic, p, mu, t, labels);
      assert Range(|cs|)[..n] == Range(n);
      SumOverConstant(t, labels, n, Sq(cs[n] - mu));
    }
  }

  /** The size-weighted centroid sum equals the sum, over every observation,
      of its own centroid's squared distance from the grand mean: weighting
      centroid `i` by `dic[i]` counts it once per member. */
  lemma BetweenPerObservation(xs: seq<real>, labels: seq<nat>, cs: seq<real>, k: nat)
    requires |xs| > 0 && k >= 2 && |cs| == k && AllBelow(labels, k)
    requires forall i :: 0 <= i < k ==> Occurrences(labels, i) >= 1
    ensures BetweenVariability(xs, ClusterSizes(labels, k), cs, k)
         == Sum(CentroidDevs(cs, labels, Mean(xs))) / ((k - 1) as real)
  {
    var mu := Mean(xs);
    var t := CentroidDevs(cs, labels, mu);
    WeightedIsGrouped(ClusterSizes(labels, k), cs, mu, t, labels);
    RangeCoversLabels(labels, k);
    GroupingPreservesSum(t, labels, Range(k));
  }

  // ---------------------------------------------------------------------------
  // Within-group variability

  /** Over a partition in which every cluster below `k` occurs, the
      between-group term in observation form, and its zero case. */
  lemma BetweenOfPartition(xs: seq<real>, labels: seq<nat>, cs: seq<real>, k: nat)
    requires |xs| > 0 && k >= 2 && |cs| == k && AllBelow(labels, k) && AllOccur(labels, k)
    ensures forall c :: 0 <= c < k ==> c in ClusterSizes(labels, k)
    ensures BetweenVariability(xs, ClusterSizes(labels, k), cs, k)
         == Sum(CentroidDevs(cs, labels, Mean(xs))) / ((k - 1) as real)
    ensures BetweenVariability(xs, ClusterSizes(labels, k), cs, k) == 0.0
        <==> forall c :: 0 <= c < k ==> cs[c] == Mean(xs)
  {
    forall c | 0 <= c < k ensures Occurrences(labels, c) >= 1 {
      AllOccurAt(labels, k, c);
    }
    BetweenPerObservation(xs, labels, cs, k);
    BetweenZeroIff(xs, ClusterSizes(labels, k), cs, k);
  }

  /** `grupo[variavel].mean()`: the mean of cluster `g`'s own values. */
  function GroupMean(xs: seq<real>, labels: seq<nat>, g: nat): real
    requires |xs| == |labels| && Occurrences(labels, g) >= 1
  {
    Mean(GroupValues(xs, labels, g))
  }

  /** `np.sum([np.square(x - grupo[variavel].mean()) for x in grupo[variavel]])`:
      the squared deviations of cluster `g`'s members from their own mean. */
  function GroupSS(xs: seq<real>, labels: seq<nat>, g: nat): real
    requires |xs| == |labels| && Occurrences(labels, g) >= 1
  {
    SumSqDev(GroupValues(xs, labels, g), GroupMean(xs, labels, g))
  }

  /** Σ over the clusters `gs` of their `GroupSS`. Never negative. */
  function PooledSS(xs: seq<real>, labels: seq<nat>, gs: seq<nat>): (r: real)
    requires |xs| == |labels|
    requires forall i :: 0 <= i < |gs| ==> Occurrences(labels, gs[i]) >= 1
    ensures r >= 0.0
  {
    if |gs| == 0 then 0.0
    else PooledSS(xs, labels, gs[..|gs| - 1]) + GroupSS(xs, labels, gs[|gs| - 1])
  }

  /** `variabilidade_dentro_dos_grupos` as the loop leaves it: the pooled
      within-cluster sum of squares over the labels that occur, divided by
      `n - k`. */
  function WithinVariability(xs: seq<real>, labels: seq<nat>, k: nat): (r: real)
    requires |xs| == |labels| > k && AllBelow(labels, k)
    ensures r >= 0.0
  {
    PooledSS(xs, labels, UniqueBelow(labels, k)) / ((|xs| - k) as real)
  }

  /** The `for grupo in unique` loop: it adds, for each label, that cluster's
      sum of squared deviations divided by `observacoes - qnt_clusters`. */
  method WithinGroups(xs: seq<real>, labels: seq<nat>, unique: seq<nat>, k: nat) returns (acc: real)
    requires |xs| == |labels| > k
    requires forall i :: 0 <= i < |unique| ==> Occurrences(labels, unique[i]) >= 1
    ensures acc == PooledSS(xs, labels, unique) / ((|labels| - k) as real)
  {
    var observacoes := |labels|;
    var d := (observacoes - k) as real;
    acc := 0.0;
    for i := 0 to |unique|
      invariant acc == PooledSS(xs, labels, unique[..i]) / d
    {
      var grupo := unique[i];
      assert unique[..i + 1][..i] == unique[..i];
      DivAdd(PooledSS(xs, labels, unique[..i]), GroupSS(xs, labels, grupo), d);
      acc := acc + GroupSS(xs, labels, grupo) / d;
    }
    assert unique[..|unique|] == unique;
  }

  lemma DivZeroIff(a: real, d: real)
    requires d > 0.0
    ensures a / d == 0.0 <==> a == 0.0
  {
  }

  /** A ratio of a non-negative value to a positive one is non-negative and
      scales back to the value. */
  lemma RatioSign(b: real, w: real)
    requires b >= 0.0 && w > 0.0
    ensures b / w >= 0.0 && (b / w) * w == b
  {
  }

  lemma DivAdd(a: real, b: real, d: real)
    requires d > 0.0
    ensures a / d + b / d == (a + b) / d
  {
  }

  /** The mean of the cluster observation `i` belongs to. */
  function OwnMean(xs: seq<real>, labels: seq<nat>, i: nat): real
    requires |xs| == |labels| && i < |xs|
  {
    LabelOccurs(labels, i);
    GroupMean(xs, labels, labels[i])
  }

  /** The squared deviation of each of the first `j` observations from the
      mean of its own cluster. */
  function DevsUpTo(xs: seq<real>, labels: seq<nat>, j: nat): (t: seq<real>)
    requires |xs| == |labels| && j <= |xs|
    ensures |t| == j
  {
    if j == 0 then []
    else DevsUpTo(xs, labels, j - 1) + [Sq(xs[j - 1] - OwnMean(xs, labels, j - 1))]
  }

  lemma {:induction false} DevsUpToAt(xs: seq<real>, labels: seq<nat>, j: nat, i: nat)
    requires |xs| == |labels| && i < j <= |xs|
    ensures DevsUpTo(xs, labels, j)[i] == Sq(xs[i] - OwnMean(xs, labels, i))
  {
    if i < j - 1 {
      DevsUpToAt(xs, labels, j - 1, i);
    }
  }

  /** Each observation's squared deviation from its own cluster's mean. */
  function OwnMeanDevs(xs: seq<real>, labels: seq<nat>): (t: seq<real>)
    requires |xs| == |labels|
    ensures |t| == |xs|
  {
    DevsUpTo(xs, labels, |xs|)
  }

  /** An observation of cluster `g` deviates from `g`'s mean. */
  lemma OwnMeanDevAt(xs: seq<real>, labels: seq<nat>, i: nat, g: nat)
    requires |xs| == |labels| && i < |xs| && labels[i] == g
    ensures Occurrences(labels, g) >= 1
    ensures OwnMeanDevs(xs, labels)[i] == Sq(xs[i] - GroupMean(xs, labels, g))
  {
    LabelOccurs(labels, i);
    assert OwnMean(xs, labels, i) == GroupMean(xs, labels, g);
    DevsUpToAt(xs, labels, |xs|, i);
  }

  lemma OwnMeanDevsOnGroup(xs: seq<real>, labels: seq<nat>, g: nat)
    requires |xs| == |labels| && Occurrences(labels, g) >= 1
    ensures forall i :: 0 <= i < |xs| && labels[i] == g ==>
              OwnMeanDevs(xs, labels)[i] == Sq(xs[i] - GroupMean(xs, labels, g))
  {
    forall i | 0 <= i < |xs| && labels[i] == g
      ensures OwnMeanDevs(xs, labels)[i] == Sq(xs[i] - GroupMean(xs, labels, g))
    {
      OwnMeanDevAt(xs, labels, i, g);
    }
  }

  /** One cluster's sum of squares, read off the per-observation deviations. */
  lemma GroupSSIsSumOver(xs: seq<real>, labels: seq<nat>, g: nat)
    requires |xs| == |labels| && Occurrences(labels, g) >= 1
    ensures GroupSS(xs, labels, g) == SumOver(OwnMeanDevs(xs, labels), labels, g)
  {
    OwnMeanDevsOnGroup(xs, labels, g);
    SumOverSqDev(OwnMeanDevs(xs, labels), xs, labels, g, GroupMean(xs, labels, g));
  }

  lemma {:induction false} PooledIsGrouped(xs: seq<real>, labels: seq<nat>, gs: seq<nat>)
    requires |xs| == |labels|
    requires forall i :: 0 <= i < |gs| ==> Occurrences(labels, gs[i]) >= 1
    ensures PooledSS(xs, labels, gs) == SumOverGroups(OwnMeanDevs(xs, labels), labels, gs)
  {
    if |gs| > 0 {
      var n := |gs| - 1;
      PooledIsGrouped(xs, labels, gs[..n]);
      GroupSSIsSumOver(xs, labels, gs[n]);
    }
  }

  /** The accumulated within-cluster sum equals the pooled sum, over every
      observation, of its squared deviation from its own cluster's mean. */
  lemma PooledPerObservation(xs: seq<real>, labels: seq<nat>, k: nat)
    requires |xs| == |labels| && AllBelow(labels, k)
    ensures PooledSS(xs, labels, UniqueBelow(labels, k)) == Sum(OwnMeanDevs(xs, labels))
  {
    var u := UniqueBelow(labels, k);
    PooledIsGrouped(xs, labels, u);
    IncreasingIsDistinct(u);
    UniqueBelowComplete(labels, k);
    forall i | 0 <= i < |labels| ensures labels[i] in u {
      LabelOccurs(labels, i);
    }
    GroupingPreservesSum(OwnMeanDevs(xs, labels), labels, u);
  }

  lemma {:induction false} GroupValuesConstant(xs: seq<real>, labels: seq<nat>, g: nat, c: real)
    requires |xs| == |labels|
    requires forall i :: 0 <= i < |xs| && labels[i] == g ==> xs[i] == c
    ensures forall j :: 0 <= j < |GroupValues(xs, labels, g)| ==> GroupValues(xs, labels, g)[j] == c
  {
    if |xs| > 0 {
      var n := |xs| - 1;
      GroupValuesConstant(xs[..n], labels[..n], g, c);
    }
  }

  /** Each per-observation deviation is a square: never negative, and zero
      exactly when the observation sits at its cluster's mean. */
  lemma OwnMeanDevsSign(xs: seq<real>, labels: seq<nat>)
    requires |xs| == |labels|
    ensures forall i :: 0 <= i < |xs| ==> OwnMeanDevs(xs, labels)[i] >= 0.0
    ensures forall i :: 0 <= i < |xs| ==>
              (OwnMeanDevs(xs, labels)[i] == 0.0 <==> xs[i] == OwnMean(xs, labels, i))
  {
    forall i | 0 <= i < |xs|
      ensures OwnMeanDevs(xs, labels)[i] >= 0.0
      ensures OwnMeanDevs(xs, labels)[i] == 0.0 <==> xs[i] == OwnMean(xs, labels, i)
    {
      DevsUpToAt(xs, labels, |xs|, i);
      SqPositive(xs[i] - OwnMean(xs, labels, i));
    }
  }

  /** In a cluster that is constant in the variable, every member is at the mean. */
  lemma ConstantClustersAtMean(xs: seq<real>, labels: seq<nat>)
    requires |xs| == |labels|
    requires forall i, j :: 0 <= i < |xs| && 0 <= j < |xs| && labels[i] == labels[j] ==> xs[i] == xs[j]
    ensures forall i :: 0 <= i < |xs| ==> xs[i] == OwnMean(xs, labels, i)
  {
    forall i | 0 <= i < |xs| ensures xs[i] == OwnMean(xs, labels, i) {
      LabelOccurs(labels, i);
      GroupValuesConstant(xs, labels, labels[i], xs[i]);
      MeanConstant(GroupValues(xs, labels, labels[i]), xs[i]);
    }
  }

  /** The within-group variability is zero exactly when every cluster is
      constant in the variable. */
  lemma WithinZeroIff(xs: seq<real>, labels: seq<nat>, k: nat)
    requires |xs| == |labels| > k && AllBelow(labels, k)
    ensures WithinVariability(xs, labels, k) == 0.0
        <==> forall i, j :: 0 <= i < |xs| && 0 <= j < |xs| && labels[i] == labels[j] ==> xs[i] == xs[j]
  {
    var t := OwnMeanDevs(xs, labels);
    PooledPerObservation(xs, labels, k);
    DivZeroIff(Sum(t), (|xs| - k) as real);
    OwnMeanDevsSign(xs, labels);
    SumNonNegative(t);
    if forall i, j :: 0 <= i < |xs| && 0 <= j < |xs| && labels[i] == labels[j] ==> xs[i] == xs[j] {
      ConstantClustersAtMean(xs, labels);
    }
  }
}
