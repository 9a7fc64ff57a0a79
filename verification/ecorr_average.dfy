/** Epoch averaging through the ECORR noise component: the component's basis
    `U` has one row per TOA and one column per epoch; each epoch average is
    the weighted mean of its TOAs' values, with weight `U[r, c] / err[r]²`. */
module EcorrAveraging {
  import opened Wrappers
  import opened Errors
  import opened SeqMath
  import opened TimingData
  import opened ChiSquared
  import opened ToaResidualsState

  /** The dictionary `ecorr_average` returns. An epoch whose weights sum to
      zero has no value (numpy's NaN and infinity there). Variances are the
      squares of the returned `errors`, in s². */
  datatype EpochAverages = EpochAverages(
    mjds: seq<Option<real>>,
    freqs: seq<Option<real>>,
    timeResids: seq<Option<real>>,
    noiseResids: map<string, seq<Option<real>>>,
    variances: seq<Option<real>>,
    indices: seq<seq<nat>>)

  /** Every row of `basis` has a column `c`. */
  predicate HasColumn(basis: seq<seq<real>>, c: nat)
  {
    forall r :: 0 <= r < |basis| ==> c < |basis[r]|
  }

  /** Column `c` of the basis, one entry per TOA. */
  function Column(basis: seq<seq<real>>, c: nat): (col: seq<real>)
    requires HasColumn(basis, c)
    ensures |col| == |basis|
    ensures forall r :: 0 <= r < |col| ==> col[r] == basis[r][c]
  {
    seq(|basis|, r requires 0 <= r < |basis| => basis[r][c])
  }

  /** The weight of each TOA in epoch `c`: `U[r, c] * wt[r]`. */
  function EpochWeights(basis: seq<seq<real>>, wt: seq<real>, c: nat): (v: seq<real>)
    requires |wt| == |basis| && HasColumn(basis, c)
    ensures |v| == |basis|
  {
    Products(Column(basis, c), wt)
  }

  /** `wtsum(x)` for every epoch: `(Uᵀ (wt x)) / (Uᵀ wt)`. */
  function EpochMeans(x: seq<real>, basis: seq<seq<real>>, wt: seq<real>, ncols: nat)
    : (avg: seq<Option<real>>)
    requires |x| == |wt| == |basis|
    requires forall c :: 0 <= c < ncols ==> HasColumn(basis, c)
    ensures |avg| == ncols
    ensures forall c :: 0 <= c < ncols ==> avg[c] == WeightedAverage(x, EpochWeights(basis, wt, c))
  {
    seq(ncols, c requires 0 <= c < ncols => WeightedAverage(x, EpochWeights(basis, wt, c)))
  }

  /** `1 / a_norm + ecorr_err2` for every epoch. */
  function EpochVariances(basis: seq<seq<real>>, wt: seq<real>, ecorrVar: seq<real>)
    : (v: seq<Option<real>>)
    requires |wt| == |basis|
    requires forall c :: 0 <= c < |ecorrVar| ==> HasColumn(basis, c)
    ensures |v| == |ecorrVar|
    ensures forall c :: 0 <= c < |ecorrVar| ==>
              v[c] == if Sum(EpochWeights(basis, wt, c)) == 0.0 then None
                      else Some(1.0 / Sum(EpochWeights(basis, wt, c)) + ecorrVar[c])
  {
    seq(|ecorrVar|, c requires 0 <= c < |ecorrVar| =>
      var norm := Sum(EpochWeights(basis, wt, c));
      if norm == 0.0 then None else Some(1.0 / norm + ecorrVar[c]))
  }

  /** The uncertainties, in microseconds, the weights come from: the
      noise-model-scaled ones or the raw TOA errors. */
  function Uncertainties(t: Toas, m: TimingModel, useNoiseModel: bool): (err: seq<real>)
    requires t.WellFormed() && m.FitsToas(t)
    ensures |err| == t.NToas()
    ensures useNoiseModel ==> err == m.scaledUncertainty
    ensures !useNoiseModel ==> err == t.errors
  {
    if useNoiseModel then m.scaledUncertainty else t.errors
  }

  /** The ECORR variance of each epoch, zeroed when the raw TOA errors are used. */
  function EcorrVariances(e: EcorrComponent, useNoiseModel: bool): (v: seq<real>)
    ensures |v| == |e.weights|
    ensures useNoiseModel ==> v == e.weights
    ensures !useNoiseModel ==> forall c :: 0 <= c < |v| ==> v[c] == 0.0
  {
    if useNoiseModel then e.weights else seq(|e.weights|, _ => 0.0)
  }

  /** The weight `1 / err²` of each TOA, with `err` in seconds. */
  function TimingWeights(t: Toas, m: TimingModel, useNoiseModel: bool): (wt: seq<real>)
    requires t.WellFormed() && m.FitsToas(t)
    requires AllNonzero(Uncertainties(t, m, useNoiseModel))
    ensures |wt| == t.NToas()
    ensures forall r :: 0 <= r < |wt| ==> wt[r] > 0.0
  {
    Weights(InSeconds(Uncertainties(t, m, useNoiseModel)))
  }

  /** `ecorr_average`. The ECORR component is looked up on the model before
      the TOAs or residuals are used. */
  function EcorrAverage(s: ToaResiduals, useNoiseModel: bool): (r: Result<EpochAverages, Error>)
    requires Valid(s)
    requires s.toas.Some? && s.model.Some? ==>
               AllNonzero(Uncertainties(s.toas.value, s.model.value, useNoiseModel))
    ensures s.model.None? ==> r == Failure(MissingInput)
    ensures s.model.Some? ==> (r == Failure(NoEcorrComponent) <==> s.model.value.ecorr.None?)
    ensures s.model.Some? && s.model.value.ecorr.Some? ==>
              (r.Success? <==> s.toas.Some? && s.timeResids.Some?)
    ensures r.Failure? ==> r.error in {MissingInput, NoEcorrComponent}
    ensures r.Success? ==>
              var n := |s.model.value.ecorr.value.weights|;
              && |r.value.mjds| == |r.value.freqs| == |r.value.timeResids| == n
              && |r.value.variances| == |r.value.indices| == n
              && r.value.noiseResids.Keys == s.noiseResids.Keys
              && (forall k :: k in r.value.noiseResids ==> |r.value.noiseResids[k]| == n)
    ensures r.Success? ==> forall c :: 0 <= c < |r.value.indices| ==>
              && StrictlyIncreasing(r.value.indices[c])
              && (forall k :: 0 <= k < |r.value.indices[c]| ==>
                    r.value.indices[c][k] < s.toas.value.NToas()
                    && s.model.value.ecorr.value.basis[r.value.indices[c][k]][c] != 0.0)
              && (forall row :: 0 <= row < s.toas.value.NToas() && s.model.value.ecorr.value.basis[row][c] != 0.0
                    ==> row in r.value.indices[c])
  {
    if s.model.None? then Failure(MissingInput)
    else if s.model.value.ecorr.None? then Failure(NoEcorrComponent)
    else if s.toas.None? || s.timeResids.None? then Failure(MissingInput)
    else
      Success(Averages(s.toas.value, s.model.value, s.timeResids.value, s.noiseResids, useNoiseModel))
  }

  /** The averages themselves, once the ECORR component, the TOAs and the
      time residuals are known to be there. */
  function Averages(t: Toas, m: TimingModel, time: seq<real>, noise: map<string, seq<real>>,
                    useNoiseModel: bool): (avg: EpochAverages)
    requires t.WellFormed() && m.FitsToas(t) && m.ecorr.Some?
    requires AllNonzero(Uncertainties(t, m, useNoiseModel))
    requires |time| == t.NToas()
    requires forall k :: k in noise ==> |noise[k]| == t.NToas()
    ensures avg.timeResids == EpochMeans(time, m.ecorr.value.basis, TimingWeights(t, m, useNoiseModel), |m.ecorr.value.weights|)
    ensures avg.mjds == EpochMeans(t.mjds, m.ecorr.value.basis, TimingWeights(t, m, useNoiseModel), |m.ecorr.value.weights|)
    ensures avg.freqs == EpochMeans(t.freqs, m.ecorr.value.basis, TimingWeights(t, m, useNoiseModel), |m.ecorr.value.weights|)
    ensures avg.noiseResids.Keys == noise.Keys
    ensures forall k :: k in noise ==>
              avg.noiseResids[k] == EpochMeans(noise[k], m.ecorr.value.basis, TimingWeights(t, m, useNoiseModel), |m.ecorr.value.weights|)
    ensures avg.variances == EpochVariances(m.ecorr.value.basis, TimingWeights(t, m, useNoiseModel),
                               EcorrVariances(m.ecorr.value, useNoiseModel))
  {
    var e := m.ecorr.value;
    var n := |e.weights|;
    var wt := TimingWeights(t, m, useNoiseModel);
    var ecorrVar := EcorrVariances(e, useNoiseModel);
    EpochAverages(
      EpochMeans(t.mjds, e.basis, wt, n),
      EpochMeans(t.freqs, e.basis, wt, n),
      EpochMeans(time, e.basis, wt, n),
      map k | k in noise :: EpochMeans(noise[k], e.basis, wt, n),
      EpochVariances(e.basis, wt, ecorrVar),
      seq(n, c requires 0 <= c < n => IndicesWhere(Column(e.basis, c), (x: real) => x != 0.0)))
  }

  /** The basis entries a `0/1` quantisation matrix has: none negative. */
  predicate NonnegativeBasis(s: ToaResiduals)
    requires Valid(s)
  {
    && s.toas.Some? && s.model.Some? && s.model.value.ecorr.Some?
    && forall r, c :: 0 <= r < |s.model.value.ecorr.value.basis| && 0 <= c < |s.model.value.ecorr.value.basis[r]| ==>
         s.model.value.ecorr.value.basis[r][c] >= 0.0
  }

  /** With non-negative basis entries and positive weights, epoch `c` has a
      mean exactly when some TOA belongs to it, and the mean then lies
      between the least and the greatest value of its members. */
  lemma {:induction false} EpochMeanInHull(
    x: seq<real>, basis: seq<seq<real>>, wt: seq<real>, c: nat, members: seq<nat>, lo: real, hi: real)
    requires |x| == |wt| == |basis| && HasColumn(basis, c)
    requires forall r :: 0 <= r < |wt| ==> wt[r] > 0.0
    requires forall r :: 0 <= r < |basis| ==> basis[r][c] >= 0.0
    requires members == IndicesWhere(Column(basis, c), (y: real) => y != 0.0)
    requires forall k :: 0 <= k < |members| ==> lo <= x[members[k]] <= hi
    ensures WeightedAverage(x, EpochWeights(basis, wt, c)).Some? <==> |members| > 0
    ensures WeightedAverage(x, EpochWeights(basis, wt, c)).Some? ==>
              lo <= WeightedAverage(x, EpochWeights(basis, wt, c)).value <= hi
  {
    var col := Column(basis, c);
    var v := EpochWeights(basis, wt, c);
    assert forall r :: 0 <= r < |v| ==> v[r] == col[r] * wt[r];
    assert AllNonnegative(v) by {
      forall r | 0 <= r < |v| ensures v[r] >= 0.0 {
        assert col[r] >= 0.0 && wt[r] > 0.0;
      }
    }
    if |members| > 0 {
      var r0 := members[0];
      assert v[r0] > 0.0 by {
        assert col[r0] > 0.0 && wt[r0] > 0.0;
      }
      SumAtLeastTerm(v, r0);
      forall r | 0 <= r < |x| && v[r] > 0.0 ensures lo <= x[r] <= hi {
        assert col[r] != 0.0;
        assert r in members;
      }
      WeightedAverageBetween(x, v, lo, hi);
    } else {
      forall r | 0 <= r < |v| ensures v[r] == 0.0 {
        assert col[r] != 0.0 ==> r in members;
      }
      SumZeroIffAllZero(v);
    }
  }

  /** Epoch `c` has an average time residual exactly when some TOA belongs
      to it, and the average then lies between the least and the greatest
      residual of its members. */
  lemma {:induction false} EpochAverageInHull(s: ToaResiduals, useNoiseModel: bool, c: nat, lo: real, hi: real)
    requires Valid(s)
    requires s.toas.Some? && s.model.Some? ==>
               AllNonzero(Uncertainties(s.toas.value, s.model.value, useNoiseModel))
    requires EcorrAverage(s, useNoiseModel).Success? && NonnegativeBasis(s)
    requires c < |EcorrAverage(s, useNoiseModel).value.indices|
    requires forall k :: 0 <= k < |EcorrAverage(s, useNoiseModel).value.indices[c]| ==>
               lo <= s.timeResids.value[EcorrAverage(s, useNoiseModel).value.indices[c][k]] <= hi
    ensures EcorrAverage(s, useNoiseModel).value.timeResids[c].Some? <==>
              |EcorrAverage(s, useNoiseModel).value.indices[c]| > 0
    ensures EcorrAverage(s, useNoiseModel).value.timeResids[c].Some? ==>
              lo <= EcorrAverage(s, useNoiseModel).value.timeResids[c].value <= hi
  {
    var t, m, e := s.toas.value, s.model.value, s.model.value.ecorr.value;
    var avg := EcorrAverage(s, useNoiseModel).value;
    var wt := TimingWeights(t, m, useNoiseModel);
    assert avg == Averages(t, m, s.timeResids.value, s.noiseResids, useNoiseModel);
    EpochMeanInHull(s.timeResids.value, e.basis, wt, c, avg.indices[c], lo, hi);
  }

  /** Column `c` of the basis holds only zeros and ones. */
  predicate ZeroOneColumn(basis: seq<seq<real>>, c: nat)
    requires HasColumn(basis, c)
  {
    forall r :: 0 <= r < |basis| ==> basis[r][c] == 0.0 || basis[r][c] == 1.0
  }

  /** An epoch whose only member is `row`, with basis entry one, weighs
      just that TOA: its total weight is the TOA's weight and its mean of
      any quantity is the TOA's own value. */
  lemma {:induction false} SingleMemberEpoch(basis: seq<seq<real>>, wt: seq<real>, c: nat, row: nat)
    requires |wt| == |basis| && HasColumn(basis, c) && ZeroOneColumn(basis, c)
    requires forall r :: 0 <= r < |wt| ==> wt[r] > 0.0
    requires IndicesWhere(Column(basis, c), (y: real) => y != 0.0) == [row]
    ensures row < |basis|
    ensures Sum(EpochWeights(basis, wt, c)) == wt[row]
    ensures forall x: seq<real> | |x| == |basis| :: WeightedAverage(x, EpochWeights(basis, wt, c)) == Some(x[row])
  {
    var col := Column(basis, c);
    var members := IndicesWhere(col, (y: real) => y != 0.0);
    assert members[0] == row;
    var v := EpochWeights(basis, wt, c);
    assert forall r :: 0 <= r < |v| ==> v[r] == col[r] * wt[r];
    forall r | 0 <= r < |v| && r != row ensures v[r] == 0.0 {
      assert col[r] != 0.0 ==> r in members;
    }
    assert v[row] == wt[row];
    SumSingleTerm(v, row);
    forall x: seq<real> | |x| == |v| ensures WeightedAverage(x, v) == Some(x[row]) {
      WeightedAverageSingle(x, v, row);
    }
  }

  /** An epoch of a single TOA, with the raw TOA errors and a `0/1` basis,
      averages to that TOA's own values. */
  lemma {:induction false} SingleTOAEpoch(s: ToaResiduals, c: nat, row: nat)
    requires Valid(s)
    requires s.toas.Some? && s.model.Some? ==> AllNonzero(Uncertainties(s.toas.value, s.model.value, false))
    requires EcorrAverage(s, false).Success?
    requires c < |EcorrAverage(s, false).value.indices|
    requires EcorrAverage(s, false).value.indices[c] == [row]
    requires ZeroOneColumn(s.model.value.ecorr.value.basis, c)
    ensures row < s.toas.value.NToas()
    ensures EcorrAverage(s, false).value.timeResids[c] == Some(s.timeResids.value[row])
    ensures EcorrAverage(s, false).value.mjds[c] == Some(s.toas.value.mjds[row])
  {
    var t, m, e := s.toas.value, s.model.value, s.model.value.ecorr.value;
    var avg := EcorrAverage(s, false).value;
    SingleMemberEpoch(e.basis, TimingWeights(t, m, false), c, row);
    assert avg == Averages(t, m, s.timeResids.value, s.noiseResids, false);
  }

  /** The same epoch's variance is that TOA's own, in s²: with the raw
      errors no ECORR variance is added. */
  lemma {:induction false} SingleTOAEpochVariance(s: ToaResiduals, c: nat, row: nat)
    requires Valid(s)
    requires s.toas.Some? && s.model.Some? ==> AllNonzero(Uncertainties(s.toas.value, s.model.value, false))
    requires EcorrAverage(s, false).Success?
    requires c < |EcorrAverage(s, false).value.indices|
    requires EcorrAverage(s, false).value.indices[c] == [row]
    requires ZeroOneColumn(s.model.value.ecorr.value.basis, c)
    ensures row < s.toas.value.NToas()
    ensures EcorrAverage(s, false).value.variances[c] == Some(Square(InSeconds(s.toas.value.errors)[row]))
  {
    var t, m, e := s.toas.value, s.model.value, s.model.value.ecorr.value;
    var err := InSeconds(t.errors);
    var wt := TimingWeights(t, m, false);
    assert EcorrAverage(s, false).value.variances == EpochVariances(e.basis, wt, EcorrVariances(e, false)) by {
      assert EcorrAverage(s, false).value == Averages(t, m, s.timeResids.value, s.noiseResids, false);
    }
    SingleMemberVariance(e.basis, wt, EcorrVariances(e, false), c, row);
    assert wt == Weights(err) by {
      assert Uncertainties(t, m, false) == t.errors;
    }
    WeightInverse(err, row);
  }

  /** The variance of an epoch whose only member is `row`, with no ECORR
      variance added, is the reciprocal of that TOA's weight. */
  lemma {:induction false} SingleMemberVariance(
    basis: seq<seq<real>>, wt: seq<real>, ecorrVar: seq<real>, c: nat, row: nat)
    requires |wt| == |basis| && c < |ecorrVar| && ecorrVar[c] == 0.0
    requires forall c' :: 0 <= c' < |ecorrVar| ==> HasColumn(basis, c')
    requires ZeroOneColumn(basis, c)
    requires forall r :: 0 <= r < |wt| ==> wt[r] > 0.0
    requires IndicesWhere(Column(basis, c), (y: real) => y != 0.0) == [row]
    ensures row < |wt|
    ensures EpochVariances(basis, wt, ecorrVar)[c] == Some(1.0 / wt[row])
  {
    SingleMemberEpoch(basis, wt, c, row);
  }

  /** Every TOA's basis entries add up to one, as they do in a `0/1` basis
      that puts each TOA in exactly one epoch. */
  predicate OneEpochPerToa(basis: seq<seq<real>>)
  {
    forall r :: 0 <= r < |basis| ==> Sum(basis[r]) == 1.0
  }

  /** The precision `1 / variance` of each epoch. An epoch without a variance
      has an infinite error in numpy, and so precision zero. */
  function Precisions(v: seq<Option<real>>): (p: seq<real>)
    ensures |p| == |v|
    ensures forall c :: 0 <= c < |v| && v[c].Some? && v[c].value != 0.0 ==> p[c] * v[c].value == 1.0
    ensures forall c :: 0 <= c < |v| && v[c].None? ==> p[c] == 0.0
  {
    seq(|v|, c requires 0 <= c < |v| => if v[c].None? || v[c].value == 0.0 then 0.0 else 1.0 / v[c].value)
  }

  /** The column totals of a matrix with `ncols` entries in every row. */
  function ColumnTotals(m: seq<seq<real>>, ncols: nat): (t: seq<real>)
    requires forall r :: 0 <= r < |m| ==> |m[r]| == ncols
    ensures |t| == ncols
  {
    seq(ncols, c requires 0 <= c < ncols => Sum(Column(m, c)))
  }

  /** The row totals of a matrix. */
  function RowTotals(m: seq<seq<real>>): (t: seq<real>)
    ensures |t| == |m|
  {
    seq(|m|, r requires 0 <= r < |m| => Sum(m[r]))
  }

  /** A matrix summed column by column gives what it gives row by row. */
  lemma {:induction false} ColumnsAndRowsSumAlike(m: seq<seq<real>>, ncols: nat)
    requires forall r :: 0 <= r < |m| ==> |m[r]| == ncols
    ensures Sum(ColumnTotals(m, ncols)) == Sum(RowTotals(m))
    decreases |m|
  {
    var total := ColumnTotals(m, ncols);
    if |m| == 0 {
      forall c | 0 <= c < ncols ensures total[c] == 0.0 {
        assert Column(m, c) == [];
      }
      SumZeroIffAllZero(total);
    } else {
      var rest := m[1..];
      var restTotal := ColumnTotals(rest, ncols);
      forall c | 0 <= c < ncols ensures total[c] == m[0][c] + restTotal[c] {
        assert Column(m, c)[1..] == Column(rest, c);
      }
      assert total == seq(|m[0]|, i requires 0 <= i < |m[0]| => m[0][i] + restTotal[i]);
      SumAdd(m[0], restTotal);
      ColumnsAndRowsSumAlike(rest, ncols);
      assert RowTotals(m)[1..] == RowTotals(rest);
    }
  }

  /** The basis with each TOA's row multiplied by that TOA's weight: its
      column `c` is the weights of epoch `c`. */
  function WeightedBasis(basis: seq<seq<real>>, wt: seq<real>): (m: seq<seq<real>>)
    requires |wt| == |basis|
    ensures |m| == |basis|
    ensures forall r :: 0 <= r < |m| ==> ScaledBy(m[r], basis[r], wt[r])
  {
    seq(|basis|, r requires 0 <= r < |basis| => Scale(basis[r], wt[r]))
  }

  /** With no ECORR variance added and every TOA in one epoch, the epoch
      precisions add up to the total weight of the TOAs: `1 / a_norm` per
      epoch loses none of the weight `Σ wt`. */
  lemma {:induction false} EpochPrecisionsConserveWeight(basis: seq<seq<real>>, wt: seq<real>, ecorrVar: seq<real>)
    requires |wt| == |basis|
    requires forall r :: 0 <= r < |basis| ==> |basis[r]| == |ecorrVar|
    requires forall c :: 0 <= c < |ecorrVar| ==> ecorrVar[c] == 0.0
    requires OneEpochPerToa(basis)
    ensures Sum(Precisions(EpochVariances(basis, wt, ecorrVar))) == Sum(wt)
  {
    var n := |ecorrVar|;
    var m := WeightedBasis(basis, wt);
    var v := EpochVariances(basis, wt, ecorrVar);
    var p := Precisions(v);
    forall c | 0 <= c < n ensures p[c] == ColumnTotals(m, n)[c] {
      WeightedBasisColumn(basis, wt, c);
      EpochPrecision(basis, wt, ecorrVar, c);
    }
    assert p == ColumnTotals(m, n);
    ColumnsAndRowsSumAlike(m, n);
    forall r | 0 <= r < |basis| ensures RowTotals(m)[r] == wt[r] {
      assert m[r] == Scale(basis[r], wt[r]);
      SumScale(basis[r], wt[r]);
    }
    assert RowTotals(m) == wt;
  }

  /** Column `c` of the weighted basis is the weights of epoch `c`. */
  lemma {:induction false} WeightedBasisColumn(basis: seq<seq<real>>, wt: seq<real>, c: nat)
    requires |wt| == |basis| && HasColumn(basis, c)
    ensures HasColumn(WeightedBasis(basis, wt), c)
    ensures Column(WeightedBasis(basis, wt), c) == EpochWeights(basis, wt, c)
  {
    var m, col := WeightedBasis(basis, wt), Column(basis, c);
    forall r | 0 <= r < |basis| ensures Column(m, c)[r] == EpochWeights(basis, wt, c)[r] {
      assert Column(m, c)[r] == basis[r][c] * wt[r];
      assert EpochWeights(basis, wt, c)[r] == col[r] * wt[r];
    }
  }

  /** Without ECORR variance, an epoch's precision is its total weight
      `a_norm`, zero for an epoch with no weight. */
  lemma {:induction false} EpochPrecision(basis: seq<seq<real>>, wt: seq<real>, ecorrVar: seq<real>, c: nat)
    requires |wt| == |basis|
    requires forall c' :: 0 <= c' < |ecorrVar| ==> HasColumn(basis, c')
    requires c < |ecorrVar| && ecorrVar[c] == 0.0
    ensures Precisions(EpochVariances(basis, wt, ecorrVar))[c] == Sum(EpochWeights(basis, wt, c))
  {
    var norm := Sum(EpochWeights(basis, wt, c));
    if norm != 0.0 {
      assert EpochVariances(basis, wt, ecorrVar)[c] == Some(1.0 / norm + 0.0);
      Reciprocal(norm);
    }
  }

  /** `1 / (1 / x)` is `x`. */
  lemma {:induction false} Reciprocal(x: real)
    requires x != 0.0
    ensures 1.0 / x != 0.0
    ensures 1.0 / (1.0 / x) == x
  {
    assert (1.0 / x) * x == 1.0;
  }

  /** With the raw TOA errors and every TOA in one epoch, the precisions of
      the epoch averages add up to `Σ 1 / err²` over the TOAs, errors in
      seconds. */
  lemma {:induction false} EcorrAverageConservesWeight(s: ToaResiduals)
    requires Valid(s)
    requires s.toas.Some? && s.model.Some? ==> AllNonzero(Uncertainties(s.toas.value, s.model.value, false))
    requires EcorrAverage(s, false).Success?
    requires OneEpochPerToa(s.model.value.ecorr.value.basis)
    ensures AllNonzero(InSeconds(s.toas.value.errors))
    ensures Sum(Precisions(EcorrAverage(s, false).value.variances)) == Sum(Weights(InSeconds(s.toas.value.errors)))
  {
    var t, m, e := s.toas.value, s.model.value, s.model.value.ecorr.value;
    assert EcorrAverage(s, false).value == Averages(t, m, s.timeResids.value, s.noiseResids, false);
    assert TimingWeights(t, m, false) == Weights(InSeconds(t.errors));
    EpochPrecisionsConserveWeight(e.basis, TimingWeights(t, m, false), EcorrVariances(e, false));
  }
}
