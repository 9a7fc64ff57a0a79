/** The two external collaborators of the residual engine: the TOA table and
    the timing model. Neither is computed here; the model's per-TOA outputs
    (predicted phase, DM, noise-scaled uncertainty, ECORR basis) are given
    already evaluated on the TOA set the model is paired with. */
module TimingData {
  import opened Wrappers
  import opened PhaseArith

  /** The TOA table. `errors` are in microseconds. `pulseNumbers` is the
      optional `pulse_number` column; `deltaPulseNumbers` the optional
      `delta_pulse_number` column. `ppDm` and `ppDme` hold, per TOA, the
      wideband DM measurement and its error when that TOA carries the
      `-pp_dm` / `-pp_dme` flag. */
  datatype Toas = Toas(
    mjds: seq<real>,
    freqs: seq<real>,
    errors: seq<real>,
    pulseNumbers: Option<seq<int>>,
    deltaPulseNumbers: Option<seq<real>>,
    ppDm: seq<Option<real>>,
    ppDme: seq<Option<real>>)
  {
    function NToas(): nat
    {
      |mjds|
    }

    /** Every column has one entry per TOA. */
    predicate WellFormed()
    {
      && |freqs| == |mjds|
      && |errors| == |mjds|
      && (pulseNumbers.Some? ==> |pulseNumbers.value| == |mjds|)
      && (deltaPulseNumbers.Some? ==> |deltaPulseNumbers.value| == |mjds|)
      && |ppDm| == |mjds|
      && |ppDme| == |mjds|
    }
  }

  /** A model parameter: its name, value and whether it is held fixed in fits. */
  datatype Param = Param(name: string, value: real, frozen: bool)

  /** The ECORR component evaluated on the TOAs: the basis `U` (one row per
      TOA, one column per epoch) and the ECORR variance of each epoch in s². */
  datatype EcorrComponent = EcorrComponent(basis: seq<seq<real>>, weights: seq<real>)

  /** The timing model. `track` is the value of the `TRACK` parameter;
      `params` lists the model's parameters in order; `ecorr` is the first
      `ecorr_noise` component, if there is one. The remaining fields are the
      model's outputs on the paired TOAs: `phase` (relative phase),
      `absPhase` (phase with `abs_phase=True`), `dmValue` and
      `scaledUncertainty` (in microseconds). */
  datatype TimingModel = TimingModel(
    track: string,
    params: seq<Param>,
    hasCorrelatedErrors: bool,
    ecorr: Option<EcorrComponent>,
    phase: seq<Phase>,
    absPhase: seq<Phase>,
    dmValue: seq<real>,
    scaledUncertainty: seq<real>)
  {
    /** The model's outputs cover exactly the TOAs of `t`, phases come
        normalised, and a spin-frequency parameter, when present, is not zero. */
    predicate FitsToas(t: Toas)
    {
      && |phase| == t.NToas()
      && |absPhase| == t.NToas()
      && |dmValue| == t.NToas()
      && |scaledUncertainty| == t.NToas()
      && (forall i :: 0 <= i < |phase| ==> Normalized(phase[i]))
      && (forall i :: 0 <= i < |absPhase| ==> Normalized(absPhase[i]))
      && (ecorr.Some? ==> EcorrFits(ecorr.value, t.NToas()))
      && NonzeroSpinFrequency(this)
    }
  }

  predicate EcorrFits(e: EcorrComponent, ntoas: nat)
  {
    && |e.basis| == ntoas
    && forall i :: 0 <= i < |e.basis| ==> |e.basis[i]| == |e.weights|
  }

  /** The first parameter called `name`, as attribute lookup on the model finds it. */
  function FindParam(params: seq<Param>, name: string): (r: Option<Param>)
    ensures r.Some? ==> r.value in params && r.value.name == name
    ensures r.None? ==> forall i :: 0 <= i < |params| ==> params[i].name != name
  {
    if |params| == 0 then None
    else if params[0].name == name then Some(params[0])
    else FindParam(params[1..], name)
  }

  predicate HasParam(m: TimingModel, name: string)
  {
    FindParam(m.params, name).Some?
  }

  /** The names a spin-frequency parameter may have. */
  const FrequencyNames: seq<string> := ["F0", "nu"]

  predicate NonzeroSpinFrequency(m: TimingModel)
  {
    forall k :: 0 <= k < |FrequencyNames| && HasParam(m, FrequencyNames[k]) ==>
      FindParam(m.params, FrequencyNames[k]).value.value != 0.0
  }
}
