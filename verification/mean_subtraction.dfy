/** Optional mean subtraction, shared by the TOA and the wideband DM
    residuals: none, the plain mean, or the error-weighted mean. */
module MeanSubtraction {
  import opened Wrappers
  import opened Errors
  import opened SeqMath

  /** `subtract_mean` and `use_weighted_mean`. */
  datatype MeanPolicy = MeanPolicy(subtract: bool, weighted: bool)

  /** Applies `policy` to `full`, weighting by `1 / errors**2` on the weighted
      path, which fails with `zeroError` if any error is zero. The result is
      `full` shifted by one constant, and the constant is chosen so that the
      (weighted) sum of the result is zero. */
  function SubtractMean(full: seq<real>, errors: seq<real>, policy: MeanPolicy, zeroError: Error)
    : (r: Result<seq<real>, Error>)
    requires |errors| == |full|
    ensures !policy.subtract ==> r == Success(full)
    ensures r.Failure? <==> policy.subtract && policy.weighted && !AllNonzero(errors)
    ensures r.Failure? ==> r.error == zeroError
    ensures r.Success? ==> SameDifferences(r.value, full)
    ensures r.Success? && policy.subtract && !policy.weighted ==> Sum(r.value) == 0.0
    ensures r.Success? && policy.subtract && policy.weighted ==>
              WeightedSum(r.value, Weights(errors)) == 0.0
  {
    if !policy.subtract then
      Success(full)
    else if !policy.weighted then
      MeanShiftSumsToZero(full);
      Success(Shift(full, Mean(full)))
    else if !AllNonzero(errors) then
      Failure(zeroError)
    else
      var w := Weights(errors);
      var m := WeightedAverage(full, w).GetOr(0.0);
      WeightedMeanVanishes(full, w, m);
      Success(Shift(full, m))
  }

  lemma {:induction false} WeightedMeanVanishes(full: seq<real>, w: seq<real>, m: real)
    requires |w| == |full|
    requires forall i :: 0 <= i < |w| ==> w[i] > 0.0
    requires m == WeightedAverage(full, w).GetOr(0.0)
    ensures WeightedSum(Shift(full, m), w) == 0.0
  {
    if |full| > 0 {
      SumPositive(w);
      WeightedMeanShiftSumsToZero(full, w);
    } else {
      assert Products(Shift(full, m), w) == [];
    }
  }

  /** The plain-mean result is the only shift of `full` that sums to zero. */
  lemma {:induction false} PlainMeanUnique(full: seq<real>, r: seq<real>)
    requires SameDifferences(r, full)
    requires Sum(r) == 0.0
    ensures r == Shift(full, Mean(full))
  {
    if |full| > 0 {
      var c := full[0] - r[0];
      assert r == Shift(full, c) by {
        forall i | 0 <= i < |r| ensures r[i] == full[i] - c {
          assert r[i] - r[0] == full[i] - full[0];
        }
      }
      SumShift(full, c);
      var n := |full| as real;
      assert Sum(full) == n * c;
      MulThenDiv(c, n);
      assert c == Mean(full);
    }
  }

  /** The weighted-mean result is the only shift of `full` whose weighted sum
      is zero. */
  lemma {:induction false} WeightedMeanUnique(full: seq<real>, w: seq<real>, r: seq<real>)
    requires |w| == |full|
    requires forall i :: 0 <= i < |w| ==> w[i] > 0.0
    requires SameDifferences(r, full)
    requires WeightedSum(r, w) == 0.0
    ensures r == Shift(full, WeightedAverage(full, w).GetOr(0.0))
  {
    if |full| > 0 {
      var c := full[0] - r[0];
      assert r == Shift(full, c) by {
        forall i | 0 <= i < |r| ensures r[i] == full[i] - c {
          assert r[i] - r[0] == full[i] - full[0];
        }
      }
      SumPositive(w);
      WeightedSumShift(full, w, c);
      assert WeightedSum(full, w) == Sum(w) * c;
      MulThenDiv(c, Sum(w));
      assert c == WeightedSum(full, w) / Sum(w);
    }
  }
}
