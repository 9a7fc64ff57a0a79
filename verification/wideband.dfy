/** Wideband DM residuals: each TOA may carry its own DM measurement and
    error as the `pp_dm` and `pp_dme` flags; the residual is the measured DM
    less the model's DM, mean-subtracted under the same policy as the TOA
    residuals, and its chi-squared follows the same zero-error rule. */
module WidebandDm {
  import opened Wrappers
  import opened Errors
  import opened SeqMath
  import opened TimingData
  import opened MeanSubtraction
  import opened ChiSquared

  /** The fields of a `WidebandDMResiduals` object. `modelDm` is the DM, in
      pc cm^-3, that the bound method `get_model_value` yields on the TOAs:
      it is taken from the model given at construction and kept even when
      `model` is later replaced. `unitScale` is the number of units of the
      object's `unit` per pc cm^-3. `dmData` and `dmError` are the numbers
      the flags carry, which `get_dm_data` labels with the object's `unit`
      whatever that unit is. */
  datatype DmResiduals = DmResiduals(
    toas: Toas,
    model: TimingModel,
    residualType: string,
    unitScale: real,
    policy: MeanPolicy,
    scaledByF0: bool,
    modelDm: seq<real>,
    dmData: seq<real>,
    dmError: seq<real>,
    chi2Cache: Option<Chi2>)

  /** The shape construction leaves: one error per measured DM, at least one
      of each, and a model DM per TOA. */
  predicate Valid(s: DmResiduals)
  {
    && s.unitScale > 0.0
    && s.toas.WellFormed()
    && |s.modelDm| == s.toas.NToas()
    && |s.dmData| == |s.dmError| > 0
  }

  /** The TOAs carrying a flag, in TOA order: the `valid` list of
      `get_flag_value`. */
  function FlagIndices(flags: seq<Option<real>>): (idx: seq<nat>)
    ensures StrictlyIncreasing(idx)
    ensures forall k :: 0 <= k < |idx| ==> idx[k] < |flags| && flags[idx[k]].Some?
    ensures forall i :: 0 <= i < |flags| && flags[i].Some? ==> i in idx
  {
    IndicesWhere(flags, (o: Option<real>) => o.Some?)
  }

  /** The flag values of the TOAs that carry the flag, in TOA order. */
  function FlagValues(flags: seq<Option<real>>): (v: seq<real>)
    ensures |v| == |FlagIndices(flags)|
    ensures forall k :: 0 <= k < |v| ==> flags[FlagIndices(flags)[k]] == Some(v[k])
  {
    var idx := FlagIndices(flags);
    seq(|idx|, k requires 0 <= k < |idx| => flags[idx[k]].value)
  }

  /** `get_dm_data`: the measured DMs and their errors, with the three
      checks in the order `get_dm_data` makes them. */
  function GetDmData(t: Toas): (r: Result<(seq<real>, seq<real>), Error>)
    ensures r == Failure(NoWidebandDm) <==> |FlagIndices(t.ppDm)| == 0
    ensures r == Failure(NoWidebandDmErrors) <==>
              |FlagIndices(t.ppDm)| > 0 && |FlagIndices(t.ppDme)| == 0
    ensures r == Failure(DmCountMismatch) <==>
              |FlagIndices(t.ppDm)| > 0 && |FlagIndices(t.ppDme)| > 0
              && |FlagIndices(t.ppDm)| != |FlagIndices(t.ppDme)|
    ensures r.Success? ==> |r.value.0| == |r.value.1| > 0
    ensures r.Success? ==> r.value == (FlagValues(t.ppDm), FlagValues(t.ppDme))
  {
    var dm, dme := FlagValues(t.ppDm), FlagValues(t.ppDme);
    if |FlagIndices(t.ppDm)| == 0 then Failure(NoWidebandDm)
    else if |FlagIndices(t.ppDme)| == 0 then Failure(NoWidebandDmErrors)
    else if |dm| != |dme| then Failure(DmCountMismatch)
    else Success((dm, dme))
  }

  /** When every TOA carries both flags, the DM data are the flag values of
      all TOAs, in TOA order. */
  lemma {:induction false} AllFlagged(t: Toas)
    requires t.WellFormed() && t.NToas() > 0
    requires forall i :: 0 <= i < t.NToas() ==> t.ppDm[i].Some? && t.ppDme[i].Some?
    ensures GetDmData(t).Success?
    ensures |GetDmData(t).value.0| == t.NToas()
    ensures forall i :: 0 <= i < t.NToas() ==>
              Some(GetDmData(t).value.0[i]) == t.ppDm[i] && Some(GetDmData(t).value.1[i]) == t.ppDme[i]
  {
    IndicesWhereAll(t.ppDm, (o: Option<real>) => o.Some?);
    IndicesWhereAll(t.ppDme, (o: Option<real>) => o.Some?);
    assert FlagIndices(t.ppDm) == seq(t.NToas(), i => i);
    assert FlagIndices(t.ppDme) == seq(t.NToas(), i => i);
  }

  /** The `WidebandDMResiduals` constructor. The model's `dm_value` is read
      first and the TOA flags second, so a missing model or TOA set fails
      before the flags are checked. */
  function NewDmResiduals(
    toas: Option<Toas>, model: Option<TimingModel>, residualType: string, unitScale: real,
    policy: MeanPolicy, scaledByF0: bool)
    : (r: Result<DmResiduals, Error>)
    requires unitScale > 0.0
    requires toas.Some? ==> toas.value.WellFormed()
    requires toas.Some? && model.Some? ==> model.value.FitsToas(toas.value)
    ensures toas.None? || model.None? ==> r == Failure(MissingInput)
    ensures toas.Some? && model.Some? ==>
              (r.Success? <==> GetDmData(toas.value).Success?)
              && (r.Failure? ==> r.error == GetDmData(toas.value).error)
    ensures r.Success? ==>
              && Valid(r.value)
              && Some(r.value.toas) == toas && Some(r.value.model) == model
              && r.value.modelDm == model.value.dmValue
              && (r.value.dmData, r.value.dmError) == GetDmData(toas.value).value
              && r.value.chi2Cache.None?
  {
    if model.None? || toas.None? then Failure(MissingInput)
    else
      var data :- GetDmData(toas.value);
      Success(DmResiduals(toas.value, model.value, residualType, unitScale, policy, scaledByF0,
                          model.value.dmValue, data.0, data.1, None))
  }

  /** `update_model`: replaces the model, but the residuals keep using the
      DM of the model given at construction, and a cached chi-squared is
      kept as well. */
  function UpdateModel(s: DmResiduals, newModel: TimingModel): (r: DmResiduals)
    requires Valid(s)
    ensures Valid(r)
    ensures r.model == newModel
    ensures r.modelDm == s.modelDm && r.dmData == s.dmData && r.dmError == s.dmError
    ensures r.chi2Cache == s.chi2Cache
    ensures r.toas == s.toas && r.unitScale == s.unitScale && r.policy == s.policy
  {
    s.(model := newModel)
  }

  /** Measured DM less model DM, both in the same unit, before any mean
      subtraction. */
  function RawDmResids(dmData: seq<real>, modelDm: seq<real>): (r: seq<real>)
    requires |dmData| == |modelDm|
    ensures |r| == |dmData|
    ensures forall i :: 0 <= i < |r| ==> r[i] + modelDm[i] == dmData[i]
  {
    seq(|dmData|, i requires 0 <= i < |dmData| => dmData[i] - modelDm[i])
  }

  /** `calc_resids`, in the object's `unit`: the flag numbers are read in
      that unit and the model DM is converted to it, so the residual is the
      flag value less `unitScale` times the model DM. The measured DMs are
      one per flagged TOA and the model DM one per TOA, so unless every TOA
      is flagged the subtraction fails. */
  function CalcDmResids(s: DmResiduals): (r: Result<seq<real>, Error>)
    requires Valid(s)
    ensures r == Failure(ShapeMismatch) <==> |s.dmData| != |s.modelDm|
    ensures r == Failure(ZeroDmErrors) <==>
              |s.dmData| == |s.modelDm| && s.policy.subtract && s.policy.weighted && !AllNonzero(s.dmError)
    ensures r.Success? ==> |r.value| == |s.dmData| == |s.modelDm|
    ensures r.Success? ==> SameDifferences(r.value, RawDmResids(s.dmData, Scale(s.modelDm, s.unitScale)))
    ensures r.Success? && !s.policy.subtract ==>
              forall i :: 0 <= i < |r.value| ==> r.value[i] == s.dmData[i] - s.unitScale * s.modelDm[i]
    ensures r.Success? && s.policy.subtract && !s.policy.weighted ==> Sum(r.value) == 0.0
    ensures r.Success? && s.policy.subtract && s.policy.weighted ==>
              WeightedSum(r.value, Weights(s.dmError)) == 0.0
  {
    if |s.dmData| != |s.modelDm| then Failure(ShapeMismatch)
    else SubtractMean(RawDmResids(s.dmData, Scale(s.modelDm, s.unitScale)), s.dmError, s.policy, ZeroDmErrors)
  }

  /** The two mean-subtracted variants are the unsubtracted residuals less
      their weighted mean `Σ r w / Σ w` and less their plain mean. */
  lemma {:induction false} DmMeanVariants(s: DmResiduals)
    requires Valid(s) && |s.dmData| == |s.modelDm| && AllNonzero(s.dmError)
    ensures
      var raw := CalcDmResids(s.(policy := MeanPolicy(false, false))).value;
      var w := Weights(s.dmError);
      && Sum(w) > 0.0
      && CalcDmResids(s.(policy := MeanPolicy(true, true))) == Success(Shift(raw, WeightedSum(raw, w) / Sum(w)))
      && CalcDmResids(s.(policy := MeanPolicy(true, false))) == Success(Shift(raw, Mean(raw)))
  {
    var raw := RawDmResids(s.dmData, Scale(s.modelDm, s.unitScale));
    var w := Weights(s.dmError);
    SumPositive(w);
    var weighted := CalcDmResids(s.(policy := MeanPolicy(true, true))).value;
    WeightedMeanUnique(raw, w, weighted);
    var plain := CalcDmResids(s.(policy := MeanPolicy(true, false))).value;
    PlainMeanUnique(raw, plain);
  }

  /** After `update_model` the residuals are what they were. */
  lemma {:induction false} UpdateModelKeepsResids(s: DmResiduals, newModel: TimingModel)
    requires Valid(s)
    ensures CalcDmResids(UpdateModel(s, newModel)) == CalcDmResids(s)
  {
  }

  /** A cached chi-squared survives `update_model`: the next `chi2` read
      returns the value computed under the old model. */
  lemma {:induction false} DmChi2CacheIsStale(s: DmResiduals, newModel: TimingModel)
    requires Valid(s) && s.chi2Cache.Some?
    ensures DmChi2Of(UpdateModel(s, newModel)).Success?
    ensures DmChi2Of(UpdateModel(s, newModel)).value.0 == s.chi2Cache.value
  {
  }

  /** `resids_value`: the residuals already carry the object's `unit`, so
      converting them to it changes no number. */
  function DmResidsValue(s: DmResiduals): (r: Result<seq<real>, Error>)
    requires Valid(s)
    ensures r == CalcDmResids(s)
    ensures r.Success? <==>
              |s.dmData| == |s.modelDm| && !(s.policy.subtract && s.policy.weighted && !AllNonzero(s.dmError))
    ensures r.Success? ==> |r.value| == |s.dmData|
    ensures r.Success? && !s.policy.subtract ==>
              forall i :: 0 <= i < |r.value| ==> r.value[i] == s.dmData[i] - s.unitScale * s.modelDm[i]
    ensures r.Success? ==>
              forall i, j :: 0 <= i < |r.value| && 0 <= j < |r.value| ==>
                r.value[i] - r.value[j] ==
                  (s.dmData[i] - s.unitScale * s.modelDm[i]) - (s.dmData[j] - s.unitScale * s.modelDm[j])
  {
    CalcDmResids(s)
  }

  /** Under the default unit, pc cm^-3, each unsubtracted residual is the
      flag value less the model DM. */
  lemma {:induction false} DefaultUnitResids(s: DmResiduals)
    requires Valid(s) && s.unitScale == 1.0 && !s.policy.subtract
    requires |s.dmData| == |s.modelDm|
    ensures DmResidsValue(s).Success?
    ensures forall i :: 0 <= i < |s.dmData| ==> DmResidsValue(s).value[i] + s.modelDm[i] == s.dmData[i]
  {
  }

  /** Under any unit, each unsubtracted residual value is the flag value
      less the model DM converted to that unit. */
  lemma {:induction false} UnitResids(s: DmResiduals)
    requires Valid(s) && !s.policy.subtract
    requires |s.dmData| == |s.modelDm|
    ensures DmResidsValue(s).Success?
    ensures forall i :: 0 <= i < |s.dmData| ==>
              DmResidsValue(s).value[i] == s.dmData[i] - s.unitScale * s.modelDm[i]
  {
  }

  /** `calc_chi2` of the DM residuals: a zero DM error gives infinity before
      the residuals are computed; otherwise the sum of squared normalised
      residuals, in the units the DM errors share with the residuals. */
  function DmChi2For(s: DmResiduals): (r: Result<Chi2, Error>)
    requires Valid(s)
    ensures r == Success(Infinite) <==> !AllNonzero(s.dmError)
    ensures r.Failure? <==> AllNonzero(s.dmError) && |s.dmData| != |s.modelDm|
    ensures r.Failure? ==> r.error == ShapeMismatch
    ensures r.Success? && r.value.Finite? ==>
              && CalcDmResids(s).Success?
              && r.value == ChiSquare(CalcDmResids(s).value, s.dmError)
              && r.value.value >= 0.0
  {
    if !AllNonzero(s.dmError) then Success(Infinite)
    else
      match CalcDmResids(s)
      case Failure(e) => Failure(e)
      case Success(resids) => Success(ChiSquare(resids, s.dmError))
  }

  /** The `chi2` property of the DM residuals, with its cache. */
  function DmChi2Of(s: DmResiduals): (r: Result<(Chi2, DmResiduals), Error>)
    requires Valid(s)
    ensures s.chi2Cache.Some? ==> r == Success((s.chi2Cache.value, s))
    ensures s.chi2Cache.None? ==> (r.Success? <==> DmChi2For(s).Success?)
    ensures s.chi2Cache.None? && r.Success? ==>
              r.value.0 == DmChi2For(s).value && r.value.1 == s.(chi2Cache := Some(r.value.0))
    ensures r.Success? ==> Valid(r.value.1) && r.value.1.chi2Cache == Some(r.value.0)
  {
    match s.chi2Cache
    case Some(c) => Success((c, s))
    case None =>
      match DmChi2For(s)
      case Failure(e) => Failure(e)
      case Success(c) => Success((c, s.(chi2Cache := Some(c))))
  }

  /** A second read of `chi2` returns the first read's value. */
  lemma {:induction false} DmChi2ReadTwice(s: DmResiduals)
    requires Valid(s) && DmChi2Of(s).Success?
    ensures DmChi2Of(DmChi2Of(s).value.1) == DmChi2Of(s)
  {
  }

  /** What `rms_weighted` hands to the weighted-RMS routine: the residuals
      and the weights `1 / error²`, after refusing zero errors. */
  function DmRmsInputs(s: DmResiduals): (r: Result<(seq<real>, seq<real>), Error>)
    requires Valid(s)
    ensures r == Failure(ZeroErrorsForRms) <==> !AllNonzero(s.dmError)
    ensures r.Success? ==> CalcDmResids(s).Success? && r.value.0 == CalcDmResids(s).value
    ensures r.Success? ==> AllNonzero(s.dmError) && r.value.1 == Weights(s.dmError)
    ensures r.Failure? && AllNonzero(s.dmError) ==> CalcDmResids(s) == Failure(r.error)
  {
    if !AllNonzero(s.dmError) then Failure(ZeroErrorsForRms)
    else
      match CalcDmResids(s)
      case Failure(e) => Failure(e)
      case Success(resids) => Success((resids, Weights(s.dmError)))
  }
}
