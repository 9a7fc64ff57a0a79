/** Goodness of fit: chi-squared with an explicit infinite value, degrees of
    freedom, and the reduced chi-squared as floating division computes it. */
module ChiSquared {
  import opened Wrappers
  import opened Errors
  import opened SeqMath
  import opened TimingData

  /** A chi-squared value; `Infinite` is numpy's `inf`. */
  datatype Chi2 = Finite(value: real) | Infinite
  {
    /** `+` on chi-squared values: infinity absorbs. */
    function Plus(other: Chi2): Chi2
    {
      if Finite? && other.Finite? then Finite(value + other.value) else Infinite
    }
  }

  /** What the GLS fitter reports when asked to score residuals without
      fitting: a chi-squared, or a `LinAlgError` on a degenerate covariance. */
  datatype GlsOutcome = GlsChi2(value: real) | Degenerate

  /** The GLS fitter, given the time residuals and the `full_cov` flag. */
  type GlsOracle = (seq<real>, bool) -> GlsOutcome

  const MicrosecondsPerSecond: real := 1000000.0

  /** TOA errors, given in microseconds, in seconds. */
  function InSeconds(errorsUs: seq<real>): (e: seq<real>)
    ensures |e| == |errorsUs|
    ensures forall i :: 0 <= i < |e| ==> e[i] * MicrosecondsPerSecond == errorsUs[i]
    ensures AllNonzero(e) <==> AllNonzero(errorsUs)
  {
    seq(|errorsUs|, i requires 0 <= i < |errorsUs| => errorsUs[i] / MicrosecondsPerSecond)
  }

  /** The squared normalised residuals `(r / e)²`. */
  function Chi2Terms(r: seq<real>, e: seq<real>): (t: seq<real>)
    requires |r| == |e|
    requires AllNonzero(e)
    ensures |t| == |r|
    ensures forall i :: 0 <= i < |t| ==> t[i] == Square(r[i] / e[i])
  {
    seq(|r|, i requires 0 <= i < |r| => Square(r[i] / e[i]))
  }

  /** `Σ (r / e)²` over independent errors, infinite if any error is zero. */
  function ChiSquare(r: seq<real>, e: seq<real>): (c: Chi2)
    requires |r| == |e|
    ensures c.Infinite? <==> !AllNonzero(e)
    ensures c.Finite? ==> c.value >= 0.0
    ensures c.Finite? ==> (c.value == 0.0 <==> forall i :: 0 <= i < |r| ==> r[i] == 0.0)
    ensures c.Finite? ==> forall i :: 0 <= i < |r| ==> c.value >= Square(r[i] / e[i])
  {
    if !AllNonzero(e) then Infinite
    else
      var terms := Chi2Terms(r, e);
      ChiSquareFacts(r, e);
      Finite(Sum(terms))
  }

  lemma {:induction false} ChiSquareFacts(r: seq<real>, e: seq<real>)
    requires |r| == |e|
    requires AllNonzero(e)
    ensures Sum(Chi2Terms(r, e)) >= 0.0
    ensures Sum(Chi2Terms(r, e)) == 0.0 <==> forall i :: 0 <= i < |r| ==> r[i] == 0.0
    ensures forall i :: 0 <= i < |r| ==> Sum(Chi2Terms(r, e)) >= Square(r[i] / e[i])
  {
    var t := Chi2Terms(r, e);
    forall i | 0 <= i < |r| ensures t[i] >= 0.0 && (t[i] == 0.0 <==> r[i] == 0.0) {
      SquareFacts(r[i] / e[i]);
      QuotientZero(r[i], e[i]);
    }
    assert AllNonnegative(t);
    SumNonnegative(t);
    SumZeroIffAllZero(t);
    forall i | 0 <= i < |r| ensures Sum(t) >= t[i] {
      SumAtLeastTerm(t, i);
    }
  }

  /** The chi-squared of two blocks of independent data is the sum of the
      blocks' chi-squared values. */
  lemma {:induction false} ChiSquareConcat(r1: seq<real>, e1: seq<real>, r2: seq<real>, e2: seq<real>)
    requires |r1| == |e1| && |r2| == |e2|
    ensures ChiSquare(r1 + r2, e1 + e2) == ChiSquare(r1, e1).Plus(ChiSquare(r2, e2))
  {
    var r, e := r1 + r2, e1 + e2;
    if AllNonzero(e1) && AllNonzero(e2) {
      assert AllNonzero(e) by {
        forall i | 0 <= i < |e| ensures e[i] != 0.0 {
          if i >= |e1| {
            assert e[i] == e2[i - |e1|];
          }
        }
      }
      assert Chi2Terms(r, e) == Chi2Terms(r1, e1) + Chi2Terms(r2, e2) by {
        var t, t1, t2 := Chi2Terms(r, e), Chi2Terms(r1, e1), Chi2Terms(r2, e2);
        forall i | 0 <= i < |t| ensures t[i] == (t1 + t2)[i] {
          if i >= |t1| {
            assert r[i] == r2[i - |r1|] && e[i] == e2[i - |r1|];
          }
        }
      }
      SumConcat(Chi2Terms(r1, e1), Chi2Terms(r2, e2));
    } else if !AllNonzero(e1) {
      var k :| 0 <= k < |e1| && e1[k] == 0.0;
      assert e[k] == 0.0;
    } else {
      var k :| 0 <= k < |e2| && e2[k] == 0.0;
      assert e[|e1| + k] == 0.0;
    }
  }

  /** Expressing residuals and errors in another unit leaves chi-squared unchanged. */
  lemma {:induction false} ChiSquareUnitFree(r: seq<real>, e: seq<real>, k: real)
    requires |r| == |e|
    requires k != 0.0
    ensures ChiSquare(Scale(r, k), Scale(e, k)) == ChiSquare(r, e)
  {
    if AllNonzero(e) {
      assert AllNonzero(Scale(e, k)) by {
        forall i | 0 <= i < |e| ensures Scale(e, k)[i] != 0.0 {
          assert Scale(e, k)[i] == e[i] * k;
        }
      }
      assert Chi2Terms(Scale(r, k), Scale(e, k)) == Chi2Terms(r, e) by {
        forall i | 0 <= i < |r| ensures Chi2Terms(Scale(r, k), Scale(e, k))[i] == Chi2Terms(r, e)[i] {
          RatioScale(r[i], e[i], k);
        }
      }
    } else {
      var j :| 0 <= j < |e| && e[j] == 0.0;
      assert Scale(e, k)[j] == 0.0;
    }
  }

  lemma {:induction false} RatioScale(a: real, b: real, k: real)
    requires b != 0.0 && k != 0.0
    ensures (a * k) / (b * k) == a / b
  {
  }

  /** chi-squared of the time residuals against the TOA errors, the
      uncorrelated branch of `calc_chi2`. */
  function TimeChi2(time: seq<real>, errorsUs: seq<real>): (c: Chi2)
    requires |time| == |errorsUs|
    ensures c.Infinite? <==> !AllNonzero(errorsUs)
  {
    var e := InSeconds(errorsUs);
    assert AllNonzero(e) <==> AllNonzero(errorsUs);
    ChiSquare(time, e)
  }

  /** `calc_chi2`: the GLS fitter's score when the noise model has correlated
      errors (infinite on a degenerate covariance), otherwise `Σ (r / σ)²`. */
  function CalcChi2(correlated: bool, time: seq<real>, errorsUs: seq<real>, fullCov: bool, gls: GlsOracle)
    : (c: Chi2)
    requires |time| == |errorsUs|
    ensures correlated ==> (c.Infinite? <==> gls(time, fullCov).Degenerate?)
    ensures correlated && c.Finite? ==> c.value == gls(time, fullCov).value
    ensures !correlated ==> (c.Infinite? <==> !AllNonzero(errorsUs))
    ensures !correlated && c.Finite? ==> c.value >= 0.0
    ensures !correlated && c.Finite? ==> (c.value == 0.0 <==> forall i :: 0 <= i < |time| ==> time[i] == 0.0)
  {
    if correlated then
      match gls(time, fullCov)
      case GlsChi2(v) => Finite(v)
      case Degenerate => Infinite
    else
      TimeChi2(time, errorsUs)
  }

  /** Number of parameters that are not frozen. */
  function FreeParamCount(params: seq<Param>): (n: nat)
    ensures n <= |params|
  {
    if |params| == 0 then 0
    else FreeParamCount(params[..|params| - 1]) + (if params[|params| - 1].frozen then 0 else 1)
  }

  /** `get_dof`: TOA count less free parameters less one for the implicit offset. */
  function Dof(ntoas: nat, params: seq<Param>): int
  {
    ntoas - FreeParamCount(params) - 1
  }

  /** The free-parameter count is the number of unfrozen positions. */
  lemma {:induction false} FreeParamCountIsUnfrozenPositions(params: seq<Param>)
    ensures FreeParamCount(params) == |set i | 0 <= i < |params| && !params[i].frozen|
  {
    if |params| > 0 {
      var n := |params| - 1;
      var init := params[..n];
      FreeParamCountIsUnfrozenPositions(init);
      var s0 := set i | 0 <= i < |init| && !init[i].frozen;
      var s := set i | 0 <= i < |params| && !params[i].frozen;
      if params[n].frozen {
        assert s == s0;
      } else {
        assert s == s0 + {n};
        assert n !in s0;
      }
    }
  }

  /** Freeing one more parameter costs exactly one degree of freedom. */
  lemma {:induction false} DofAddParam(ntoas: nat, params: seq<Param>, p: Param)
    ensures Dof(ntoas, params + [p]) == Dof(ntoas, params) - (if p.frozen then 0 else 1)
  {
    assert (params + [p])[..|params|] == params;
  }

  lemma {:induction false} DofBounds(ntoas: nat, params: seq<Param>)
    ensures ntoas - |params| - 1 <= Dof(ntoas, params) <= ntoas - 1
  {
  }

  /** Ten TOAs and a model with two free parameters leave seven degrees of freedom. */
  lemma {:induction false} DofTenToasTwoFree()
    ensures Dof(10, [Param("F0", 218.8, false), Param("F1", -4.0e-16, false), Param("PEPOCH", 55000.0, true)]) == 7
  {
    var f0, f1, pepoch := Param("F0", 218.8, false), Param("F1", -4.0e-16, false), Param("PEPOCH", 55000.0, true);
    DofAddParam(10, [], f0);
    assert [] + [f0] == [f0];
    DofAddParam(10, [f0], f1);
    assert [f0] + [f1] == [f0, f1];
    DofAddParam(10, [f0, f1], pepoch);
    assert [f0, f1] + [pepoch] == [f0, f1, pepoch];
  }

  /** The outcome of a floating-point division. */
  datatype Ratio = Quotient(value: real) | PlusInfinity | MinusInfinity | NotANumber

  /** `chi2 / dof`. A finite chi-squared is a numpy float, which IEEE
      division takes over a zero `dof` too; the infinite one is the Python
      float `np.inf`, and Python refuses to divide that by the integer 0. */
  function Divide(c: Chi2, dof: int): (q: Result<Ratio, Error>)
    ensures q.Failure? <==> c.Infinite? && dof == 0
    ensures q.Failure? ==> q.error == DivisionByZero
    ensures q.Success? && q.value.Quotient? <==> c.Finite? && dof != 0
    ensures q.Success? && q.value.Quotient? ==> q.value.value * dof as real == c.value
    ensures q == Success(NotANumber) <==> c == Finite(0.0) && dof == 0
    ensures q == Success(PlusInfinity) <==> (c.Infinite? && dof > 0) || (c.Finite? && c.value > 0.0 && dof == 0)
    ensures q == Success(MinusInfinity) <==> (c.Infinite? && dof < 0) || (c.Finite? && c.value < 0.0 && dof == 0)
  {
    match c
    case Infinite =>
      if dof == 0 then Failure(DivisionByZero)
      else if dof > 0 then Success(PlusInfinity)
      else Success(MinusInfinity)
    case Finite(v) =>
      if dof != 0 then Success(Quotient(v / dof as real))
      else if v > 0.0 then Success(PlusInfinity)
      else if v < 0.0 then Success(MinusInfinity)
      else Success(NotANumber)
  }
}
