# F test over a k-means partition

This project models `teste_f_kmeans` from `Script_Aula_Cluster.py`.
Given a fitted k-means model and the data frame it was fitted on, the
function runs a one-way analysis of variance for each variable. The
factor is the cluster label. For every variable, in column order, it
reports:

- the variable's name;
- the between-group variability: the size-weighted squared distance of
  the cluster centroids from the grand mean, divided by `k - 1`;
- the within-group variability: the pooled within-cluster sum of squares,
  divided by `n - k`;
- their ratio `F`;
- the significance `1 - cdf_F(F; k - 1, n - k)`.

The model works over exact `real` arithmetic. A data frame is a list of
column names with its rows, each row has one entry per column, and the
labels are natural numbers.

There are four modules:

- `Sums`: sums, squares, means and sums of squared deviations.
- `Partition`: the labels as a partition of the observations. It covers
  `np.unique(..., return_counts=True)`, `dict(zip(unique, counts))` and
  sums taken cluster by cluster.
- `Anova`: the between-group and within-group terms. The inner
  `for grupo in unique` loop is the method `WithinGroups`. Both terms are
  also given in per-observation form.
- `FTest`: the frame value and the working copy `df`, a class whose
  `SetColumn` models `df['cluster'] = labels`. It also holds the report
  record, the outer loop over the variables (`TesteFKMeans`, one pass of
  which is `AnalyseVariable`), and the reference function `ExpectedReport`.

The function has no input checks of its own (pandas raises on two shape
mismatches, listed under "## Left out"); `FTest.ValidInput` states what
the inputs must satisfy:

- there are `k >= 2` clusters and `n > k` observations;
- there is one label per row, and every label is below `k`;
- every cluster is non-empty, because `dic[index]` raises `KeyError` for
  a centroid whose cluster is empty;
- there is one centroid per cluster, with one coordinate per variable;
- the columns have distinct names.

The F ratio divides by the within-group variability, which is not
checked either, so `FTest.WithinPositive` requires it to be positive for
every variable.

The code raises no named error when `k < 2` or `n <= k`. It does not
match centroid variables to observation variables by name: it renames
the centroid columns by position (line 200). It has no fallback when a
variable's within-group variability is zero, and it divides without any
guard. The model states these cases as preconditions rather than error
results.

## Model

| member | source | states |
|---|---|---|
| Sums.SumSqDev | Script_Aula_Cluster.py:235 | a sum of squared deviations is never negative |
| Sums.SumSqDevZeroIff | Script_Aula_Cluster.py:235 | a sum of squared deviations is zero iff every element equals the centre |
| Partition.CountLabels | Script_Aula_Cluster.py:207 | `np.unique` gives strictly increasing labels, each paired with its number of observations, and every count is at least 1 |
| Partition.CountLabelsComplete | Script_Aula_Cluster.py:207 | a label is listed iff it occurs at least once |
| Partition.UniqueAreLabels | Script_Aula_Cluster.py:207 | the listed labels are exactly those some observation carries |
| Partition.CountsSumToObservations | Script_Aula_Cluster.py:207-213 | the counts add up to `observacoes`, the number of labels |
| Partition.Zip | Script_Aula_Cluster.py:209 | `dict(zip(unique, counts))` has exactly the listed labels as keys, and each one maps to its own count |
| Partition.ClusterSizes | Script_Aula_Cluster.py:209 | the cluster-size map has key `c` iff `c < k` and `c` occurs, and its value is that cluster's size |
| Partition.ZipIsClusterSizes | Script_Aula_Cluster.py:207-209 | the map the source zips together is the cluster-size map |
| Partition.AllOccurKeys | Script_Aula_Cluster.py:225 | with every cluster non-empty, `dic[index]` is defined at every centroid position |
| Partition.GroupingPreservesSum | Script_Aula_Cluster.py:231-235 | summing cluster by cluster over distinct labels that cover the partition gives the plain sum |
| Anova.BetweenVariability | Script_Aula_Cluster.py:225 | the between-group variability is never negative |
| Anova.BetweenIsSourceSum | Script_Aula_Cluster.py:225 | it equals Σ over `i` of `dic[i] · (c_i − mean)²`, divided by `k − 1`, with the terms as the source writes them |
| Anova.BetweenZeroIff | Script_Aula_Cluster.py:225 | with non-empty clusters it is zero iff every centroid coordinate equals the grand mean |
| Anova.BetweenPerObservation | Script_Aula_Cluster.py:225 | with non-empty clusters it equals the sum, over observations, of the squared distance from the observation's centroid to the grand mean, divided by `k − 1` |
| Anova.BetweenOfPartition | Script_Aula_Cluster.py:225 | the same two facts over a partition in which every cluster below `k` occurs, with `dic` defined at every position |
| Anova.PooledSS | Script_Aula_Cluster.py:231-235 | the pooled within-cluster sum of squares is never negative |
| Anova.WithinGroups | Script_Aula_Cluster.py:229-235 | the accumulating loop returns the pooled sum of squares over `unique`, divided by `n − k` |
| Anova.WithinVariability | Script_Aula_Cluster.py:229-235 | the within-group variability is never negative |
| Anova.PooledPerObservation | Script_Aula_Cluster.py:231-235 | the pooled sum over the labels that occur equals the sum, over observations, of the squared deviation from the mean of the observation's own cluster |
| Anova.OwnMeanDevsSign | Script_Aula_Cluster.py:235 | each per-observation term is non-negative, and zero iff the observation sits at its cluster's mean |
| Anova.WithinZeroIff | Script_Aula_Cluster.py:229-237 | the within-group variability is zero iff every cluster is constant in the variable |
| FTest.AssignReadsBack | Script_Aula_Cluster.py:215 | after `d[name] = values`, reading `name` gives `values` |
| FTest.AssignKeepsOthers | Script_Aula_Cluster.py:215 | after `d[name] = values`, every other column reads as before |
| FTest.Frame.constructor | Script_Aula_Cluster.py:197-205 | `df = dataframe[variaveis]` is a copy of every column |
| FTest.Frame.SetColumn | Script_Aula_Cluster.py:215 | `df['cluster'] = labels` overwrites the `cluster` column, or adds it as a last column; afterwards `df['cluster']` reads the labels |
| FTest.AnalysedColumnIsAssigned | Script_Aula_Cluster.py:215-225 | once the labels are in `cluster`, `df[variavel]` is the variable's own column, or the labels if the variable is itself called `cluster` |
| FTest.Prepare | Script_Aula_Cluster.py:205-215 | before the loop, `df` holds the labelled copy, `unique` is what `np.unique` returns and `dic` is the cluster-size map |
| FTest.AnalyseVariable | Script_Aula_Cluster.py:219-243 | one pass of the loop builds exactly the reference record of variable `j` |
| FTest.TesteFKMeans | Script_Aula_Cluster.py:195-249 | the output has one record per variable, and record `a` is the reference record of column `a` |
| FTest.ReportFields | Script_Aula_Cluster.py:221-241 | a record names its variable and has between ≥ 0, F ≥ 0, `F · within = between`, and sig F = 1 − cdf(F, k − 1, n − k) |
| FTest.BetweenOfVariable | Script_Aula_Cluster.py:199-225 | between term of a variable in observation form; zero iff every centroid's coordinate for that variable equals its mean |
| FTest.WithinOfVariable | Script_Aula_Cluster.py:229-237 | within term of a variable in observation form; zero iff the variable is constant on every cluster |
| FTest.LabelsWithinZero | Script_Aula_Cluster.py:215-235 | the labels, read as a variable, have zero within-group variability |
| FTest.AnalysedIsOriginal | Script_Aula_Cluster.py:215-239 | when every F ratio is defined, no variable is called `cluster`, so each analysed column is the variable's own data |
| FTest.IndexOf | Script_Aula_Cluster.py:225 | a column lookup finds the first column of that name |
| Partition.GroupValues | Script_Aula_Cluster.py:233 | `df[df.cluster == g][variavel]`: cluster `g`'s values in observation order, as many as the cluster has members |
| Anova.GroupMean | Script_Aula_Cluster.py:235 | `grupo[variavel].mean()`: the mean of cluster `g`'s values, defined for a non-empty cluster |
| Anova.GroupSS | Script_Aula_Cluster.py:235 | one cluster's sum of squared deviations from its own mean; `GroupSSIsSumOver` reads it off the per-observation deviations |
| Anova.WeightedSqDev | Script_Aula_Cluster.py:225 | Σ over centroid positions of the cluster size times the squared centroid deviation, never negative |
| Anova.WeightedProducts | Script_Aula_Cluster.py:225 | line 225's comprehension term by term, `dic[index] * np.square(c - mean)`; `WeightedIsProducts` equates it with `WeightedSqDev` |
| FTest.Assign | Script_Aula_Cluster.py:215 | the frame after `d[name] = values`: the same number of rows, each as wide as the column list; `AssignReadsBack` and `AssignKeepsOthers` give its columns |
| FTest.Col | Script_Aula_Cluster.py:225 | `d[name]`: the first column of that name, one value per row |
| FTest.Frame.Column | Script_Aula_Cluster.py:225 | `df[variavel]` read from the working copy, one value per row |
| FTest.CentroidColumn | Script_Aula_Cluster.py:199-200 | `centroides[variavel]`: one coordinate per cluster, taken by position after the columns are renamed |
| FTest.ExpectedReport | Script_Aula_Cluster.py:221-241 | the reference record of variable `j`; `ReportFields`, `BetweenOfVariable` and `WithinOfVariable` state its properties |

## Left out

- `stats.f.cdf`: the F distribution's CDF is a parameter `fCdf` of the model. The model states how the significance is formed from it, not its values.
- `print` of the centroids (line 203) and of the result (line 247) is not modelled, because output to the console has no effect on the result.
- The result is returned as a list of records, not as `pd.DataFrame(output)` (line 245). The model has one record per row, in order, with the same five fields.
- Floating point: all arithmetic is exact `real`. Where numpy would give `inf` or `nan` (between / 0 when a variable is constant on every cluster), the model instead requires `WithinPositive`.
- FTest.TesteFKMeans: requires every within-group variability to be positive, because the source divides by it without a check.
- FTest.ValidInput: requires that every label is below `n_clusters` and that the column names are distinct. The source checks neither.
- FTest.ValidInput: requires one centroid coordinate per column and one label per row. The source has no check of its own for these, but pandas raises on them: a width mismatch makes `centroides.columns = dataframe.columns` at line 200 raise `ValueError`, and a label-count mismatch makes `df['cluster'] = kmeans.labels_` at line 215 raise `ValueError`. The model requires both instead of modelling these errors.
- FTest.ValidInput: also requires `AllOccur`, that every cluster below `k` is non-empty. The caller must ensure this; not every fit does. With duplicate points, scikit-learn can return `labels_` that miss a cluster, and then `dic[index]` at line 225 raises `KeyError`. That raising path is not modelled.
- FTest.ValidInput: requires `k >= 2` and `n > k`. With `k = 1` or `n = k`, the source does not raise. Instead numpy's float division by zero at lines 225 and 235 gives records holding `inf` or `nan`, which the model does not represent.
- Fitting the model (`KMeans.fit`), hierarchical clustering, the elbow loop, the plots and the reading of the Excel file are elsewhere in the script and are not part of this model.
- FTest.Frame.SetColumn: its contract gives the new frame as `Assign` of the old one. The "other columns unchanged" property is the separate lemma `AssignKeepsOthers` rather than a quantified clause of the method.
- Pandas' copy-on-write warnings and index alignment in `df['cluster'] = labels` are not modelled. The labels are assigned by position.
