/** Exact sums over real sequences: the `np.sum`, `np.square` and `.mean()`
    that the F test is built from, with floating point replaced by `real`. */
module Sums {

  /** `np.sum` of a sequence, peeled from the right so that prefixes recurse. */
  function Sum(s: seq<real>): real
  {
    if |s| == 0 then 0.0 else Sum(s[..|s| - 1]) + s[|s| - 1]
  }

  /** `np.square`. */
  function Sq(x: real): real
  {
    x * x
  }

  /** The arithmetic mean (`Series.mean()`); pandas never takes it of an empty
      group here, because every group it averages holds at least one row. */
  function Mean(s: seq<real>): real
    requires |s| > 0
  {
    Sum(s) / (|s| as real)
  }

  /** `np.sum([np.square(x - mu) for x in s])`: the sum of squared deviations
      of the elements of `s` from `mu`. It is never negative. */
  function SumSqDev(s: seq<real>, mu: real): (r: real)
    ensures r >= 0.0
  {
    if |s| == 0 then 0.0 else SumSqDev(s[..|s| - 1], mu) + Sq(s[|s| - 1] - mu)
  }

  /** `n · v` for a count `n`, written as `n` repeated additions so that
      sums of weighted terms stay linear for the solver. */
  function Scale(n: nat, v: real): real
  {
    if n == 0 then 0.0 else Scale(n - 1, v) + v
  }

  /** `Scale` is multiplication by the count. */
  lemma {:induction false} ScaleIsProduct(n: nat, v: real)
    ensures Scale(n, v) == (n as real) * v
  {
    if n > 0 {
      ScaleIsProduct(n - 1, v);
      assert ((n - 1) as real) * v + v == (n as real) * v;
    }
  }

  /** A non-negative value scaled by a count stays non-negative; scaled by a
      positive count it is zero only if the value is. */
  lemma {:induction false} ScaleSign(n: nat, v: real)
    requires v >= 0.0
    ensures Scale(n, v) >= 0.0
    ensures n >= 1 ==> (Scale(n, v) == 0.0 <==> v == 0.0)
  {
    if n > 0 {
      ScaleSign(n - 1, v);
    }
  }

  /** Dividing a square by its (non-zero) root gives the root back. */
  lemma SqDivRoot(d: real)
    requires d != 0.0
    ensures Sq(d) / d == d
  {
  }

  /** A square is never negative, and it is zero only at zero. */
  lemma SqPositive(d: real)
    ensures Sq(d) >= 0.0
    ensures d != 0.0 ==> Sq(d) > 0.0
  {
    if d != 0.0 {
      SqDivRoot(d);
    }
  }

  /** The sum of squared deviations vanishes exactly when every element equals `mu`. */
  lemma {:induction false} SumSqDevZeroIff(s: seq<real>, mu: real)
    ensures SumSqDev(s, mu) == 0.0 <==> forall i :: 0 <= i < |s| ==> s[i] == mu
  {
    if |s| > 0 {
      var p := s[..|s| - 1];
      SumSqDevZeroIff(p, mu);
      var d := s[|s| - 1] - mu;
      SqPositive(d);
      if SumSqDev(s, mu) == 0.0 {
        forall i | 0 <= i < |s| ensures s[i] == mu {
          if i < |s| - 1 { assert s[i] == p[i]; }
        }
      }
      if forall i :: 0 <= i < |s| ==> s[i] == mu {
        assert forall i :: 0 <= i < |p| ==> p[i] == s[i];
      }
    }
  }

  /** A sequence whose elements all equal `c` sums to its length times `c`. */
  lemma {:induction false} SumConstant(s: seq<real>, c: real)
    requires forall i :: 0 <= i < |s| ==> s[i] == c
    ensures Sum(s) == (|s| as real) * c
  {
    if |s| > 0 {
      var p := s[..|s| - 1];
      assert forall i :: 0 <= i < |p| ==> p[i] == s[i];
      SumConstant(p, c);
    }
  }

  /** ... so its mean is `c`. */
  lemma MeanConstant(s: seq<real>, c: real)
    requires |s| > 0
    requires forall i :: 0 <= i < |s| ==> s[i] == c
    ensures Mean(s) == c
  {
    SumConstant(s, c);
  }

  /** A sum of non-negative terms is non-negative, and zero only when every term is. */
  lemma {:induction false} SumNonNegative(s: seq<real>)
    requires forall i :: 0 <= i < |s| ==> s[i] >= 0.0
    ensures Sum(s) >= 0.0
    ensures Sum(s) == 0.0 <==> forall i :: 0 <= i < |s| ==> s[i] == 0.0
  {
    if |s| > 0 {
      var p := s[..|s| - 1];
      assert forall i :: 0 <= i < |p| ==> p[i] == s[i];
      SumNonNegative(p);
    }
  }
}
