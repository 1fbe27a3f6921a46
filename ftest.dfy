/** `teste_f_kmeans`: for every variable of a data frame, the one-way
    analysis of variance of that variable over a fitted k-means partition,
    reported as one record per variable in column order. */
module FTest {
  import opened Sums
  import opened Partition
  import opened Anova

  /** The name under which the labels are added to the working copy. */
  const ClusterColumn: string := "cluster"

  /** A data frame stored row by row: `rows[i][j]` is observation `i` of the
      variable named `columns[j]`. */
  datatype DataFrame = DataFrame(columns: seq<string>, rows: seq<seq<real>>)

  /** What the F test reads from a fitted `KMeans`: `labels_`,
      `cluster_centers_` (one row per cluster, one coordinate per variable)
      and `n_clusters`. */
  datatype KMeansFit = KMeansFit(labels: seq<nat>, clusterCenters: seq<seq<real>>, nClusters: nat)

  /** One `dic_var` of the output: the keys `variavel`,
      `variabilidade_entre_grupos`, `variabilidade_dentro_dos_grupos`, `F`
      and `sig F`. */
  datatype VariableReport = VariableReport(variable: string, between: real, within: real, f: real, sigF: real)

  /** Every row has exactly `m` entries. */
  predicate Width(rows: seq<seq<real>>, m: nat)
  {
    forall i :: 0 <= i < |rows| ==> |rows[i]| == m
  }

  predicate DistinctNames(names: seq<string>)
  {
    forall a, b :: 0 <= a < b < |names| ==> names[a] != names[b]
  }

  /** The position of the first column called `name`. */
  function IndexOf(names: seq<string>, name: string): (j: nat)
    requires name in names
    ensures j < |names| && names[j] == name
    ensures forall a :: 0 <= a < j ==> names[a] != name
  {
    if names[0] == name then 0 else 1 + IndexOf(names[1..], name)
  }

  lemma IndexOfDistinctNames(names: seq<string>, j: nat)
    requires DistinctNames(names) && j < |names|
    ensures IndexOf(names, names[j]) == j
  {
  }

  /** Column `j` of a row-major table (`df[variavel]`, `centroides[variavel]`). */
  function ColumnOf(rows: seq<seq<real>>, j: nat): (c: seq<real>)
    requires forall i :: 0 <= i < |rows| ==> j < |rows[i]|
    ensures |c| == |rows|
  {
    seq(|rows|, i requires 0 <= i < |rows| => rows[i][j])
  }

  /** The table with column `j` overwritten by `values`. */
  function ReplaceColumn(rows: seq<seq<real>>, j: nat, values: seq<real>): (r: seq<seq<real>>)
    requires |values| == |rows|
    requires forall i :: 0 <= i < |rows| ==> j < |rows[i]|
    ensures |r| == |rows|
    ensures forall i :: 0 <= i < |rows| ==> |r[i]| == |rows[i]|
    ensures forall i :: 0 <= i < |rows| ==> r[i][j] == values[i]
    ensures forall i, c :: 0 <= i < |rows| && 0 <= c < |rows[i]| && c != j ==> r[i][c] == rows[i][c]
  {
    seq(|rows|, i requires 0 <= i < |rows| => rows[i][j := values[i]])
  }

  /** The table with `values` added as a new last column. */
  function AppendColumn(rows: seq<seq<real>>, values: seq<real>): (r: seq<seq<real>>)
    requires |values| == |rows|
    ensures |r| == |rows|
    ensures forall i :: 0 <= i < |rows| ==> |r[i]| == |rows[i]| + 1
    ensures forall i :: 0 <= i < |rows| ==> r[i][|rows[i]|] == values[i]
    ensures forall i, c :: 0 <= i < |rows| && 0 <= c < |rows[i]| ==> r[i][c] == rows[i][c]
  {
    seq(|rows|, i requires 0 <= i < |rows| => rows[i] + [values[i]])
  }

  /** `kmeans.labels_` as the column values `df['cluster']` holds. */
  function LabelsAsReals(labels: seq<nat>): (v: seq<real>)
    ensures |v| == |labels|
  {
    seq(|labels|, i requires 0 <= i < |labels| => labels[i] as real)
  }

  predicate WellFormed(d: DataFrame)
  {
    Width(d.rows, |d.columns|)
  }

  /** `d[name]`: the values of the (first) column called `name`. */
  function Col(d: DataFrame, name: string): (c: seq<real>)
    requires WellFormed(d) && name in d.columns
    ensures |c| == |d.rows|
  {
    ColumnOf(d.rows, IndexOf(d.columns, name))
  }

  /** The frame after `d[name] = values`: the column called `name` is
      overwritten, or added as a new last column when there is none. */
  function Assign(d: DataFrame, name: string, values: seq<real>): (r: DataFrame)
    requires WellFormed(d) && |values| == |d.rows|
    ensures WellFormed(r) && |r.rows| == |d.rows|
  {
    if name in d.columns then DataFrame(d.columns, ReplaceColumn(d.rows, IndexOf(d.columns, name), values))
    else DataFrame(d.columns + [name], AppendColumn(d.rows, values))
  }

  lemma {:induction false} IndexOfAppend(names: seq<string>, x: string, name: string)
    requires name in names
    ensures IndexOf(names + [x], name) == IndexOf(names, name)
  {
    if names[0] != name {
      assert (names + [x])[1..] == names[1..] + [x];
      IndexOfAppend(names[1..], x, name);
    }
  }

  /** After the assignment, reading `name` gives the assigned values. */
  lemma AssignReadsBack(d: DataFrame, name: string, values: seq<real>)
    requires WellFormed(d) && |values| == |d.rows|
    ensures name in Assign(d, name, values).columns
    ensures Col(Assign(d, name, values), name) == values
  {
    var r := Assign(d, name, values);
    if name !in d.columns {
      var j := |d.columns|;
      assert r.columns[j] == name;
      assert forall a :: 0 <= a < j ==> r.columns[a] != name;
    }
  }

  /** ... and every other column reads as before. */
  lemma AssignKeepsOthers(d: DataFrame, name: string, values: seq<real>, c: string)
    requires WellFormed(d) && |values| == |d.rows|
    requires c in d.columns && c != name
    ensures c in Assign(d, name, values).columns
    ensures Col(Assign(d, name, values), c) == Col(d, c)
  {
    if name !in d.columns {
      IndexOfAppend(d.columns, name, c);
    }
  }

  /** The working copy `df`: a frame whose columns the F test extends. */
  class Frame {
    var columns: seq<string>
    var rows: seq<seq<real>>

    function Contents(): DataFrame
      reads this
    {
      DataFrame(columns, rows)
    }

    predicate Valid()
      reads this
    {
      WellFormed(Contents())
    }

    /** `dataframe[variaveis]`: a copy of every column of `d`. */
    constructor (d: DataFrame)
      requires WellFormed(d)
      ensures Valid() && Contents() == d
    {
      columns := d.columns;
      rows := d.rows;
    }

    /** `df[name]`. */
    function Column(name: string): (c: seq<real>)
      reads this
      requires Valid() && name in columns
      ensures |c| == |rows|
    {
      Col(Contents(), name)
    }

    /** `df[name] = values`. Reading `name` afterwards gives `values`; every
        other column is left as it was (`AssignKeepsOthers`). */
    method SetColumn(name: string, values: seq<real>)
      requires Valid() && |values| == |rows|
      modifies this
      ensures Valid() && Contents() == Assign(old(Contents()), name, values)
      ensures name in columns && Column(name) == values
    {
      ghost var before := Contents();
      if name in columns {
        var j := IndexOf(columns, name);
        rows := ReplaceColumn(rows, j, values);
      } else {
        rows := AppendColumn(rows, values);
        columns := columns + [name];
      }
      AssignReadsBack(before, name, values);
    }
  }

  /** What `teste_f_kmeans` needs of its inputs and does not check: a fit of
      `k >= 2` clusters over more than `k` observations, one label per row,
      each label below `k`, every cluster non-empty (so that `dic[index]`
      finds each centroid position), one centroid per cluster with one
      coordinate per variable, and distinct variable names. */
  predicate ValidInput(kmeans: KMeansFit, d: DataFrame)
  {
    var k := kmeans.nClusters;
    k >= 2
    && |kmeans.labels| == |d.rows| > k
    && AllBelow(kmeans.labels, k)
    && AllOccur(kmeans.labels, k)
    && |kmeans.clusterCenters| == k
    && Width(kmeans.clusterCenters, |d.columns|)
    && Width(d.rows, |d.columns|)
    && DistinctNames(d.columns)
  }

  /** The values `df[variavel]` yields for variable `j` once the labels have
      been added: the labels themselves if the variable is called
      `cluster`, otherwise the variable's own column. */
  function AnalysedColumn(kmeans: KMeansFit, d: DataFrame, j: nat): (xs: seq<real>)
    requires ValidInput(kmeans, d) && j < |d.columns|
    ensures |xs| == |d.rows|
  {
    if d.columns[j] == ClusterColumn then LabelsAsReals(kmeans.labels) else ColumnOf(d.rows, j)
  }

  /** `centroides[variavel]`. */
  function CentroidColumn(kmeans: KMeansFit, d: DataFrame, j: nat): (cs: seq<real>)
    requires ValidInput(kmeans, d) && j < |d.columns|
    ensures |cs| == kmeans.nClusters
  {
    ColumnOf(kmeans.clusterCenters, j)
  }

  /** `variabilidade_entre_grupos` of variable `j`. */
  function ExpectedBetween(kmeans: KMeansFit, d: DataFrame, j: nat): real
    requires ValidInput(kmeans, d) && j < |d.columns|
  {
    AllOccurKeys(kmeans.labels, kmeans.nClusters);
    BetweenVariability(AnalysedColumn(kmeans, d, j), ClusterSizes(kmeans.labels, kmeans.nClusters),
                       CentroidColumn(kmeans, d, j), kmeans.nClusters)
  }

  /** `variabilidade_dentro_dos_grupos` of variable `j`. */
  function ExpectedWithin(kmeans: KMeansFit, d: DataFrame, j: nat): real
    requires ValidInput(kmeans, d) && j < |d.columns|
  {
    WithinVariability(AnalysedColumn(kmeans, d, j), kmeans.labels, kmeans.nClusters)
  }

  /** The record the F test reports for variable `j`; `fCdf` stands for
      `stats.f.cdf`. */
  function ExpectedReport(kmeans: KMeansFit, d: DataFrame, fCdf: (real, int, int) -> real, j: nat): VariableReport
    requires ValidInput(kmeans, d) && j < |d.columns|
    requires ExpectedWithin(kmeans, d, j) > 0.0
  {
    var k := kmeans.nClusters;
    var b := ExpectedBetween(kmeans, d, j);
    var w := ExpectedWithin(kmeans, d, j);
    var f := b / w;
    VariableReport(d.columns[j], b, w, f, 1.0 - fCdf(f, k - 1, |kmeans.labels| - k))
  }

  /** Once the labels are assigned to `cluster`, `df[variavel]` reads the
      analysed column of each variable. */
  lemma AnalysedColumnIsAssigned(kmeans: KMeansFit, d: DataFrame, j: nat)
    requires ValidInput(kmeans, d) && j < |d.columns|
    ensures d.columns[j] in Assign(d, ClusterColumn, LabelsAsReals(kmeans.labels)).columns
    ensures Col(Assign(d, ClusterColumn, LabelsAsReals(kmeans.labels)), d.columns[j]) == AnalysedColumn(kmeans, d, j)
  {
    var values := LabelsAsReals(kmeans.labels);
    if d.columns[j] == ClusterColumn {
      AssignReadsBack(d, ClusterColumn, values);
    } else {
      AssignKeepsOthers(d, ClusterColumn, values, d.columns[j]);
      IndexOfDistinctNames(d.columns, j);
    }
  }

  /** Every variable has positive within-group variability, so that each
      F ratio is defined. */
  predicate WithinPositive(kmeans: KMeansFit, d: DataFrame)
    requires ValidInput(kmeans, d)
  {
    forall j :: 0 <= j < |d.columns| ==> ExpectedWithin(kmeans, d, j) > 0.0
  }

  /** A proof step of `AnalyseVariable` that unfolds `ExpectedBetween`:
      `dic` has a key at every centroid position, and the loop's
      between-group term is that of variable `j`. */
  lemma BetweenIsExpected(kmeans: KMeansFit, d: DataFrame, j: nat, xs: seq<real>, dic: map<nat, nat>)
    requires ValidInput(kmeans, d) && j < |d.columns|
    requires xs == AnalysedColumn(kmeans, d, j)
    requires dic == ClusterSizes(kmeans.labels, kmeans.nClusters)
    ensures forall c :: 0 <= c < kmeans.nClusters ==> c in dic
    ensures BetweenVariability(xs, dic, ColumnOf(kmeans.clusterCenters, j), kmeans.nClusters)
         == ExpectedBetween(kmeans, d, j)
  {
    AllOccurKeys(kmeans.labels, kmeans.nClusters);
  }

  /** A proof step of `AnalyseVariable` that unfolds `ExpectedWithin`: the
      `for grupo in unique` loop runs over `np.unique`'s labels, so its sum
      is the within-group term of variable `j`. */
  lemma WithinIsExpected(kmeans: KMeansFit, d: DataFrame, j: nat, xs: seq<real>, dentro: real)
    requires ValidInput(kmeans, d) && j < |d.columns|
    requires xs == AnalysedColumn(kmeans, d, j)
    requires dentro == PooledSS(xs, kmeans.labels, CountLabels(kmeans.labels, kmeans.nClusters).0)
                       / ((|kmeans.labels| - kmeans.nClusters) as real)
    ensures dentro == ExpectedWithin(kmeans, d, j)
  {
    assert CountLabels(kmeans.labels, kmeans.nClusters).0 == UniqueBelow(kmeans.labels, kmeans.nClusters);
  }

  /** A proof step of `AnalyseVariable` that unfolds `ExpectedReport`: the
      record the loop builds from the two terms of variable `j`. */
  lemma ReportIsExpected(kmeans: KMeansFit, d: DataFrame, fCdf: (real, int, int) -> real, j: nat,
                         entre: real, dentro: real)
    requires ValidInput(kmeans, d) && j < |d.columns|
    requires entre == ExpectedBetween(kmeans, d, j)
    requires dentro == ExpectedWithin(kmeans, d, j) && dentro > 0.0
    ensures VariableReport(d.columns[j], entre, dentro, entre / dentro,
                           1.0 - fCdf(entre / dentro, kmeans.nClusters - 1, |kmeans.labels| - kmeans.nClusters))
         == ExpectedReport(kmeans, d, fCdf, j)
  {
  }

  /** What a record says: it names variable `j`; its F is the ratio of the
      two variabilities, so `F · within == between`; both variabilities and
      F are non-negative; and its significance is the upper tail of the F
      distribution with `k - 1` and `n - k` degrees of freedom. */
  lemma ReportFields(kmeans: KMeansFit, d: DataFrame, fCdf: (real, int, int) -> real, j: nat)
    requires ValidInput(kmeans, d) && j < |d.columns|
    requires ExpectedWithin(kmeans, d, j) > 0.0
    ensures ExpectedReport(kmeans, d, fCdf, j).variable == d.columns[j]
    ensures ExpectedReport(kmeans, d, fCdf, j).between == ExpectedBetween(kmeans, d, j) >= 0.0
    ensures ExpectedReport(kmeans, d, fCdf, j).within == ExpectedWithin(kmeans, d, j)
    ensures ExpectedReport(kmeans, d, fCdf, j).f >= 0.0
    ensures ExpectedReport(kmeans, d, fCdf, j).f * ExpectedReport(kmeans, d, fCdf, j).within
         == ExpectedReport(kmeans, d, fCdf, j).between
    ensures ExpectedReport(kmeans, d, fCdf, j).sigF
         == 1.0 - fCdf(ExpectedReport(kmeans, d, fCdf, j).f, kmeans.nClusters - 1, |d.rows| - kmeans.nClusters)
  {
    var r := ExpectedReport(kmeans, d, fCdf, j);
    RatioSign(r.between, r.within);
  }

  /** The between-group term of variable `j` in observation form: the sum,
      over every observation, of the squared distance from its cluster's
      centroid to the grand mean, divided by `k - 1`. It is zero exactly
      when every centroid coordinate equals the grand mean. */
  lemma BetweenOfVariable(kmeans: KMeansFit, d: DataFrame, j: nat)
    requires ValidInput(kmeans, d) && j < |d.columns|
    ensures ExpectedBetween(kmeans, d, j)
         == Sum(CentroidDevs(CentroidColumn(kmeans, d, j), kmeans.labels, Mean(AnalysedColumn(kmeans, d, j))))
            / ((kmeans.nClusters - 1) as real)
    ensures ExpectedBetween(kmeans, d, j) == 0.0
        <==> forall c :: 0 <= c < kmeans.nClusters ==> kmeans.clusterCenters[c][j] == Mean(AnalysedColumn(kmeans, d, j))
  {
    var xs := AnalysedColumn(kmeans, d, j);
    var cs := CentroidColumn(kmeans, d, j);
    BetweenOfPartition(xs, kmeans.labels, cs, kmeans.nClusters);
    assert forall c :: 0 <= c < kmeans.nClusters ==> cs[c] == kmeans.clusterCenters[c][j];
  }

  /** The within-group term of variable `j` in observation form: the sum,
      over every observation, of its squared distance to the mean of its own
      cluster, divided by `n - k`. It is zero exactly when the variable is
      constant on every cluster. */
  lemma WithinOfVariable(kmeans: KMeansFit, d: DataFrame, j: nat)
    requires ValidInput(kmeans, d) && j < |d.columns|
    ensures ExpectedWithin(kmeans, d, j)
         == Sum(OwnMeanDevs(AnalysedColumn(kmeans, d, j), kmeans.labels)) / ((|d.rows| - kmeans.nClusters) as real)
    ensures ExpectedWithin(kmeans, d, j) == 0.0
        <==> forall a, b :: 0 <= a < |d.rows| && 0 <= b < |d.rows| && kmeans.labels[a] == kmeans.labels[b] ==>
               AnalysedColumn(kmeans, d, j)[a] == AnalysedColumn(kmeans, d, j)[b]
  {
    var xs := AnalysedColumn(kmeans, d, j);
    PooledPerObservation(xs, kmeans.labels, kmeans.nClusters);
    WithinZeroIff(xs, kmeans.labels, kmeans.nClusters);
  }

  /** The labels, read as a variable, are constant on every cluster. */
  lemma LabelsWithinZero(labels: seq<nat>, k: nat)
    requires |labels| > k && AllBelow(labels, k)
    ensures WithinVariability(LabelsAsReals(labels), labels, k) == 0.0
  {
    var xs := LabelsAsReals(labels);
    assert forall a, b :: 0 <= a < |xs| && 0 <= b < |xs| && labels[a] == labels[b] ==> xs[a] == xs[b];
    WithinZeroIff(xs, labels, k);
  }

  /** The labels are constant on every cluster, so a variable called
      `cluster`, which `df['cluster'] = labels` overwrites, would have zero
      within-group variability. When every F ratio is defined, no variable
      has that name, and each analysed column is the variable's own. */
  lemma AnalysedIsOriginal(kmeans: KMeansFit, d: DataFrame, j: nat)
    requires ValidInput(kmeans, d) && WithinPositive(kmeans, d) && j < |d.columns|
    ensures d.columns[j] != ClusterColumn
    ensures AnalysedColumn(kmeans, d, j) == ColumnOf(d.rows, j)
  {
    if d.columns[j] == ClusterColumn {
      assert ExpectedWithin(kmeans, d, j) > 0.0;
      LabelsWithinZero(kmeans.labels, kmeans.nClusters);
      assert false;
    }
  }

  /** One pass of the loop over the variables: `dic_var` for variable `j`,
      read from the working copy `df` once the labels are in its `cluster`
      column. */
  method AnalyseVariable(kmeans: KMeansFit, dataframe: DataFrame, fCdf: (real, int, int) -> real,
                         df: Frame, unique: seq<nat>, dic: map<nat, nat>, j: nat)
    returns (dicVar: VariableReport)
    requires ValidInput(kmeans, dataframe) && j < |dataframe.columns|
    requires ExpectedWithin(kmeans, dataframe, j) > 0.0
    requires df.Valid() && df.Contents() == Assign(dataframe, ClusterColumn, LabelsAsReals(kmeans.labels))
    requires unique == CountLabels(kmeans.labels, kmeans.nClusters).0
    requires dic == ClusterSizes(kmeans.labels, kmeans.nClusters)
    ensures dicVar == ExpectedReport(kmeans, dataframe, fCdf, j)
  {
    var qntClusters := kmeans.nClusters;
    var observacoes := |kmeans.labels|;
    var variavel := dataframe.columns[j];
    AnalysedColumnIsAssigned(kmeans, dataframe, j);
    var xs := df.Column(variavel);
    BetweenIsExpected(kmeans, dataframe, j, xs, dic);
    var entre := BetweenVariability(xs, dic, ColumnOf(kmeans.clusterCenters, j), qntClusters);
    var dentro := WithinGroups(xs, kmeans.labels, unique, qntClusters);
    WithinIsExpected(kmeans, dataframe, j, xs, dentro);
    ReportIsExpected(kmeans, dataframe, fCdf, j, entre, dentro);
    var f := entre / dentro;
    var sigF := 1.0 - fCdf(f, qntClusters - 1, observacoes - qntClusters);
    dicVar := VariableReport(variavel, entre, dentro, f, sigF);
  }

  /** The set-up before the loop: the working copy `df` with the labels in
      its `cluster` column, `np.unique`'s labels and the `dic` of cluster sizes. */
  method Prepare(kmeans: KMeansFit, dataframe: DataFrame) returns (df: Frame, unique: seq<nat>, dic: map<nat, nat>)
    requires ValidInput(kmeans, dataframe)
    ensures fresh(df) && df.Valid() && df.Contents() == Assign(dataframe, ClusterColumn, LabelsAsReals(kmeans.labels))
    ensures unique == CountLabels(kmeans.labels, kmeans.nClusters).0
    ensures dic == ClusterSizes(kmeans.labels, kmeans.nClusters)
  {
    df := new Frame(dataframe);
    var uniqueCounts := CountLabels(kmeans.labels, kmeans.nClusters);
    var counts;
    unique, counts := uniqueCounts.0, uniqueCounts.1;
    dic := Zip(unique, counts);
    ZipIsClusterSizes(kmeans.labels, kmeans.nClusters);
    df.SetColumn(ClusterColumn, LabelsAsReals(kmeans.labels));
  }

  /** `teste_f_kmeans(kmeans, dataframe)`: one record per variable, in
      column order. The F ratio divides by the within-group variability,
      which the source does not guard, so it must be positive. */
  method TesteFKMeans(kmeans: KMeansFit, dataframe: DataFrame, fCdf: (real, int, int) -> real)
    returns (output: seq<VariableReport>)
    requires ValidInput(kmeans, dataframe)
    requires WithinPositive(kmeans, dataframe)
    ensures |output| == |dataframe.columns|
    ensures forall a :: 0 <= a < |output| ==> output[a] == ExpectedReport(kmeans, dataframe, fCdf, a)
  {
    var variaveis := dataframe.columns;
    var df, unique, dic := Prepare(kmeans, dataframe);
    ghost var labelled := df.Contents();
    output := [];
    for j := 0 to |variaveis|
      invariant df.Contents() == labelled
      invariant |output| == j
      invariant forall a :: 0 <= a < j ==> output[a] == ExpectedReport(kmeans, dataframe, fCdf, a)
    {
      var dicVar := AnalyseVariable(kmeans, dataframe, fCdf, df, unique, dic, j);
      output := output + [dicVar];
    }
  }
}
