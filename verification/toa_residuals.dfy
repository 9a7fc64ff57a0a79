/** The TOA residual object: its construction, the residual accessors, the
    cached chi-squared and the `update()` entry point that invalidates it. */
module ToaResidualsState {
  import opened Wrappers
  import opened Errors
  import opened SeqMath
  import opened TimingData
  import opened MeanSubtraction
  import opened PhaseResiduals
  import opened TimeScaling
  import opened ChiSquared

  /** The constructor's settings. `unitScale` is the number of output units
      per second (1 for seconds), the factor `resids_value` applies. */
  datatype Config = Config(
    residualType: string,
    unitScale: real,
    trackMode: string,
    policy: MeanPolicy,
    scaledByF0: bool)

  /** The fields of a `Residuals` object. `None` is Python's `None`, and a
      `dof` of `None` an attribute that was never set. */
  datatype ToaResiduals = ToaResiduals(
    toas: Option<Toas>,
    model: Option<TimingModel>,
    config: Config,
    phaseResids: Option<seq<real>>,
    timeResids: Option<seq<real>>,
    chi2Cache: Option<Chi2>,
    dof: Option<int>,
    noiseResids: map<string, seq<real>>)

  /** The shape every residual object keeps: columns and model outputs agree
      with the TOA count, and so does every residual vector held. */
  predicate Valid(s: ToaResiduals)
  {
    && s.config.unitScale > 0.0
    && (s.toas.Some? ==> s.toas.value.WellFormed())
    && (s.toas.Some? && s.model.Some? ==> s.model.value.FitsToas(s.toas.value))
    && (s.phaseResids.Some? ==> s.toas.Some? && |s.phaseResids.value| == s.toas.value.NToas())
    && (s.timeResids.Some? ==> s.toas.Some? && |s.timeResids.value| == s.toas.value.NToas())
    && (forall k :: k in s.noiseResids ==> s.toas.Some? && |s.noiseResids[k]| == s.toas.value.NToas())
  }

  /** The phase and time residuals of a TOA set under a model, as the
      constructor and `update()` compute them. */
  function ComputeResids(t: Toas, m: TimingModel, c: Config): (r: Result<(seq<real>, seq<real>), Error>)
    requires t.WellFormed() && m.FitsToas(t)
    ensures r.Success? <==> CalcPhaseResids(t, m, c.trackMode, c.policy).Success? && GetPsrFreq(m).Success?
    ensures r.Success? ==> r.value.0 == CalcPhaseResids(t, m, c.trackMode, c.policy).value
    ensures r.Success? ==> TimeScaled(r.value.1, r.value.0, GetPsrFreq(m).value)
    ensures r.Failure? && CalcPhaseResids(t, m, c.trackMode, c.policy).Success? ==>
              r.error == GetPsrFreq(m).error
  {
    match CalcPhaseResids(t, m, c.trackMode, c.policy)
    case Failure(e) => Failure(e)
    case Success(phase) =>
      match GetPsrFreq(m)
      case Failure(e) => Failure(e)
      case Success(f0) =>
        FrequencyNonzero(m);
        Success((phase, CalcTimeResids(phase, f0)))
  }

  /** The settings a constructed object keeps: the requested ones, with the
      tracking mode overridden by the model's `TRACK`. */
  function ConfigFor(m: TimingModel, residualType: string, unitScale: real,
                     policy: MeanPolicy, trackMode: string, scaledByF0: bool): Config
  {
    Config(residualType, unitScale, EffectiveTrackMode(trackMode, m), policy, scaledByF0)
  }

  /** The `Residuals` constructor for `residual_type` "toa". The model's
      `TRACK` is read first, so a missing model fails before anything else;
      without TOAs nothing is computed. */
  function NewToaResiduals(
    toas: Option<Toas>, model: Option<TimingModel>, residualType: string, unitScale: real,
    policy: MeanPolicy, trackMode: string, scaledByF0: bool)
    : (r: Result<ToaResiduals, Error>)
    requires unitScale > 0.0
    requires toas.Some? ==> toas.value.WellFormed()
    requires toas.Some? && model.Some? ==> model.value.FitsToas(toas.value)
    ensures model.None? ==> r == Failure(MissingInput)
    ensures r.Success? ==> Valid(r.value) && r.value.chi2Cache.None? && r.value.noiseResids == map[]
    ensures r.Success? ==> r.value.toas == toas && r.value.model == model
    ensures r.Success? && model.value.track == ForcedTrack ==> r.value.config.trackMode == UsePulseNumbers
    ensures r.Success? && model.value.track != ForcedTrack ==> r.value.config.trackMode == trackMode
    ensures toas.None? && model.Some? ==> r.Success? && r.value.phaseResids.None? && r.value.timeResids.None?
    ensures r.Success? ==> r.value.config == ConfigFor(model.value, residualType, unitScale, policy, trackMode, scaledByF0)
    ensures toas.Some? && model.Some? ==>
              (r.Success? <==> ComputeResids(toas.value, model.value,
                                 ConfigFor(model.value, residualType, unitScale, policy, trackMode, scaledByF0)).Success?)
    ensures r.Success? && toas.Some? ==>
              && r.value.phaseResids == Some(ComputeResids(toas.value, model.value, r.value.config).value.0)
              && r.value.timeResids == Some(ComputeResids(toas.value, model.value, r.value.config).value.1)
              && r.value.dof == Some(Dof(toas.value.NToas(), model.value.params))
  {
    if model.None? then Failure(MissingInput)
    else
      var m := model.value;
      var config := ConfigFor(m, residualType, unitScale, policy, trackMode, scaledByF0);
      var s := ToaResiduals(toas, model, config, None, None, None, None, map[]);
      if toas.None? then Success(s)
      else
        var t := toas.value;
        var (phase, time) :- ComputeResids(t, m, config);
        Success(s.(phaseResids := Some(phase), timeResids := Some(time), dof := Some(Dof(t.NToas(), m.params))))
  }

  /** `calc_phase_resids` on the object: the TOA table is read first, then,
      under pulse-number tracking, the pulse numbers, and only then the
      model, so missing pulse numbers are reported even without a model. */
  function RecalcPhaseResids(s: ToaResiduals): (r: Result<seq<real>, Error>)
    requires Valid(s)
    ensures s.toas.None? ==> r == Failure(MissingInput)
    ensures s.toas.Some? && s.config.trackMode == UsePulseNumbers && s.toas.value.pulseNumbers.None? ==>
              r == Failure(MissingPulseNumbers)
    ensures s.toas.Some? && s.model.None? ==>
              r == Failure(if s.config.trackMode == UsePulseNumbers && s.toas.value.pulseNumbers.None?
                           then MissingPulseNumbers else MissingInput)
    ensures s.toas.Some? && s.model.Some? ==>
              r == CalcPhaseResids(s.toas.value, s.model.value, s.config.trackMode, s.config.policy)
    ensures r.Success? ==> s.toas.Some? && |r.value| == s.toas.value.NToas()
  {
    if s.toas.None? then Failure(MissingInput)
    else if s.config.trackMode == UsePulseNumbers && s.toas.value.pulseNumbers.None? then
      Failure(MissingPulseNumbers)
    else if s.model.None? then Failure(MissingInput)
    else CalcPhaseResids(s.toas.value, s.model.value, s.config.trackMode, s.config.policy)
  }

  /** `resids`: the held time residuals when scaled by F0, `None` included;
      otherwise the held phase residuals, computed afresh if the object
      holds none. */
  function Resids(s: ToaResiduals): (r: Result<Option<seq<real>>, Error>)
    requires Valid(s)
    ensures s.config.scaledByF0 ==> r == Success(s.timeResids)
    ensures !s.config.scaledByF0 && s.phaseResids.Some? ==> r == Success(s.phaseResids)
    ensures !s.config.scaledByF0 && s.phaseResids.None? ==>
              (r.Success? <==> RecalcPhaseResids(s).Success?)
    ensures !s.config.scaledByF0 && s.phaseResids.None? && r.Failure? ==> r.error == RecalcPhaseResids(s).error
    ensures !s.config.scaledByF0 && s.phaseResids.None? && r.Success? ==>
              r.value == Some(RecalcPhaseResids(s).value)
    ensures !s.config.scaledByF0 && r.Success? ==> r.value.Some?
    ensures r.Success? && r.value.Some? ==> s.toas.Some? && |r.value.value| == s.toas.value.NToas()
  {
    if s.config.scaledByF0 then Success(s.timeResids)
    else if s.phaseResids.Some? then Success(s.phaseResids)
    else
      var phase :- RecalcPhaseResids(s);
      Success(Some(phase))
  }

  /** `resids` stores the phase residuals it computes; a later read of the
      object so updated gives the same answer as reading the original. */
  lemma {:induction false} ResidsStoreInvisible(s: ToaResiduals)
    requires Valid(s) && !s.config.scaledByF0 && s.phaseResids.None?
    requires Resids(s).Success?
    ensures Valid(s.(phaseResids := Resids(s).value))
    ensures Resids(s.(phaseResids := Resids(s).value)) == Resids(s)
  {
  }

  /** `resids_value`: the residuals as plain numbers in the configured unit.
      Converting a `None` to a unit fails with an `AttributeError`. */
  function ResidsValue(s: ToaResiduals): (r: Result<seq<real>, Error>)
    requires Valid(s)
    ensures r.Success? <==> Resids(s).Success? && Resids(s).value.Some?
    ensures Resids(s).Failure? ==> r == Failure(Resids(s).error)
    ensures Resids(s) == Success(None) ==> r == Failure(MissingInput)
    ensures r.Success? ==> ScaledBy(r.value, Resids(s).value.value, s.config.unitScale)
  {
    match Resids(s)
    case Failure(e) => Failure(e)
    case Success(None) => Failure(MissingInput)
    case Success(Some(v)) => Success(Scale(v, s.config.unitScale))
  }

  /** Time and phase residuals held together agree with the model's spin
      frequency, as construction and `update()` leave them. */
  predicate TimeMatchesPhase(s: ToaResiduals)
  {
    && s.model.Some? && s.phaseResids.Some? && s.timeResids.Some?
    && GetPsrFreq(s.model.value).Success?
    && TimeScaled(s.timeResids.value, s.phaseResids.value, GetPsrFreq(s.model.value).value)
  }

  lemma {:induction false} ConstructedTimeMatchesPhase(
    toas: Toas, model: TimingModel, residualType: string, unitScale: real,
    policy: MeanPolicy, trackMode: string, scaledByF0: bool)
    requires unitScale > 0.0
    requires toas.WellFormed() && model.FitsToas(toas)
    requires NewToaResiduals(Some(toas), Some(model), residualType, unitScale, policy, trackMode, scaledByF0).Success?
    ensures TimeMatchesPhase(NewToaResiduals(Some(toas), Some(model), residualType, unitScale, policy, trackMode, scaledByF0).value)
  {
  }

  /** The value vector with and without scaling by F0 differs by exactly one
      factor of the spin frequency. */
  lemma {:induction false} ScaledByF0Consistent(s: ToaResiduals)
    requires Valid(s) && TimeMatchesPhase(s)
    ensures ResidsValue(s.(config := s.config.(scaledByF0 := true))).Success?
    ensures ResidsValue(s.(config := s.config.(scaledByF0 := false))).Success?
    ensures forall i :: 0 <= i < |s.phaseResids.value| ==>
              ResidsValue(s.(config := s.config.(scaledByF0 := true))).value[i] * GetPsrFreq(s.model.value).value
              == ResidsValue(s.(config := s.config.(scaledByF0 := false))).value[i]
  {
    var st := s.(config := s.config.(scaledByF0 := true));
    var sp := s.(config := s.config.(scaledByF0 := false));
    var f0, k := GetPsrFreq(s.model.value).value, s.config.unitScale;
    forall i | 0 <= i < |s.phaseResids.value|
      ensures ResidsValue(st).value[i] * f0 == ResidsValue(sp).value[i]
    {
      var t, p := s.timeResids.value[i], s.phaseResids.value[i];
      assert ResidsValue(st).value[i] == t * k;
      assert ResidsValue(sp).value[i] == p * k;
      assert (t * k) * f0 == (t * f0) * k;
    }
  }

  /** `calc_chi2`, without the cache. Uncorrelated noise reads the TOA errors
      before the residuals, so a zero error gives infinity even when no
      residuals are held. */
  function CalcChi2For(s: ToaResiduals, fullCov: bool, gls: GlsOracle): (r: Result<Chi2, Error>)
    requires Valid(s)
    ensures s.model.None? || s.toas.None? ==> r == Failure(MissingInput)
    ensures s.model.Some? && s.toas.Some? && s.model.value.hasCorrelatedErrors && s.timeResids.Some? ==>
              r == Success(if gls(s.timeResids.value, fullCov).Degenerate? then Infinite
                           else Finite(gls(s.timeResids.value, fullCov).value))
    ensures s.model.Some? && !s.model.value.hasCorrelatedErrors && s.toas.Some? ==>
              (r == Success(Infinite) <==> !AllNonzero(s.toas.value.errors))
    ensures s.model.Some? && s.toas.Some? && !s.model.value.hasCorrelatedErrors && AllNonzero(s.toas.value.errors) ==>
              r == (if s.timeResids.None? then Failure(MissingInput)
                    else Success(TimeChi2(s.timeResids.value, s.toas.value.errors)))
  {
    if s.model.None? || s.toas.None? then Failure(MissingInput)
    else if s.model.value.hasCorrelatedErrors then
      if s.timeResids.None? then Failure(MissingInput)
      else Success(CalcChi2(true, s.timeResids.value, s.toas.value.errors, fullCov, gls))
    else if !AllNonzero(s.toas.value.errors) then Success(Infinite)
    else if s.timeResids.None? then Failure(MissingInput)
    else Success(CalcChi2(false, s.timeResids.value, s.toas.value.errors, fullCov, gls))
  }

  /** The `chi2` property: the cached value if there is one, otherwise
      `calc_chi2()`, which is then cached. Nothing else in the object changes. */
  function Chi2Of(s: ToaResiduals, gls: GlsOracle): (r: Result<(Chi2, ToaResiduals), Error>)
    requires Valid(s)
    ensures s.chi2Cache.Some? ==> r == Success((s.chi2Cache.value, s))
    ensures s.chi2Cache.None? ==> (r.Success? <==> CalcChi2For(s, false, gls).Success?)
    ensures s.chi2Cache.None? && r.Success? ==>
              r.value.0 == CalcChi2For(s, false, gls).value
              && r.value.1 == s.(chi2Cache := Some(r.value.0))
    ensures r.Success? ==> Valid(r.value.1) && r.value.1.chi2Cache == Some(r.value.0)
  {
    match s.chi2Cache
    case Some(c) => Success((c, s))
    case None =>
      var c :- CalcChi2For(s, false, gls);
      Success((c, s.(chi2Cache := Some(c))))
  }

  /** A second read of `chi2` returns the first read's value and changes nothing. */
  lemma {:induction false} Chi2ReadTwice(s: ToaResiduals, gls: GlsOracle)
    requires Valid(s)
    requires Chi2Of(s, gls).Success?
    ensures Chi2Of(Chi2Of(s, gls).value.1, gls) == Chi2Of(s, gls)
  {
  }

  /** A cached chi-squared outlives any change to the TOAs or the model:
      only `update()` discards it. */
  lemma {:induction false} Chi2CacheIsStale(s: ToaResiduals, toas: Option<Toas>, model: Option<TimingModel>, gls: GlsOracle)
    requires Valid(s) && s.chi2Cache.Some?
    requires Valid(s.(toas := toas, model := model))
    ensures Chi2Of(s.(toas := toas, model := model), gls).Success?
    ensures Chi2Of(s.(toas := toas, model := model), gls).value.0 == s.chi2Cache.value
  {
  }

  /** `get_dof`. */
  function GetDof(s: ToaResiduals): (r: Result<int, Error>)
    ensures r.Success? <==> s.toas.Some? && s.model.Some?
    ensures r.Success? ==> r.value == s.toas.value.NToas() - FreeParamCount(s.model.value.params) - 1
  {
    if s.toas.None? || s.model.None? then Failure(MissingInput)
    else Success(Dof(s.toas.value.NToas(), s.model.value.params))
  }

  /** `get_reduced_chi2`: a fresh chi-squared over a fresh degree-of-freedom
      count, bypassing the cache. */
  function ReducedChi2(s: ToaResiduals, gls: GlsOracle): (r: Result<Ratio, Error>)
    requires Valid(s)
    ensures CalcChi2For(s, false, gls).Failure? ==> r == Failure(CalcChi2For(s, false, gls).error)
    ensures CalcChi2For(s, false, gls).Success? && GetDof(s).Failure? ==> r == Failure(GetDof(s).error)
    ensures CalcChi2For(s, false, gls).Success? && GetDof(s).Success? ==>
              r == Divide(CalcChi2For(s, false, gls).value, GetDof(s).value)
    ensures r == Failure(DivisionByZero) <==>
              CalcChi2For(s, false, gls) == Success(Infinite) && GetDof(s) == Success(0)
  {
    var c :- CalcChi2For(s, false, gls);
    var dof :- GetDof(s);
    Divide(c, dof)
  }

  /** Whatever the cache holds, `get_reduced_chi2` gives the same answer. */
  lemma {:induction false} ReducedChi2IgnoresCache(s: ToaResiduals, cache: Option<Chi2>, gls: GlsOracle)
    requires Valid(s)
    ensures ReducedChi2(s.(chi2Cache := cache), gls) == ReducedChi2(s, gls)
  {
  }

  /** The `chi2_reduced` property: the cached chi-squared over the stored
      degree-of-freedom count, with the object as the read leaves it. The
      chi-squared read caches its value before the division is attempted,
      so the cache is filled even when the division then fails. */
  function Chi2Reduced(s: ToaResiduals, gls: GlsOracle): (r: (Result<Ratio, Error>, ToaResiduals))
    requires Valid(s)
    ensures Chi2Of(s, gls).Failure? ==> r == (Failure(Chi2Of(s, gls).error), s)
    ensures Chi2Of(s, gls).Success? ==> r.1 == Chi2Of(s, gls).value.1 && r.1.chi2Cache == Some(Chi2Of(s, gls).value.0)
    ensures Chi2Of(s, gls).Success? && s.dof.None? ==> r.0 == Failure(MissingInput)
    ensures Chi2Of(s, gls).Success? && s.dof.Some? ==> r.0 == Divide(Chi2Of(s, gls).value.0, s.dof.value)
    ensures Valid(r.1)
  {
    match Chi2Of(s, gls)
    case Failure(e) => (Failure(e), s)
    case Success((c, s1)) =>
      if s.dof.None? then (Failure(MissingInput), s1)
      else (Divide(c, s.dof.value), s1)
  }

  /** After `chi2_reduced`, a second `chi2` read is served from the cache,
      whether or not the division succeeded. */
  lemma {:induction false} Chi2ReducedLeavesCache(s: ToaResiduals, gls: GlsOracle)
    requires Valid(s) && Chi2Of(s, gls).Success?
    ensures Chi2Of(Chi2Reduced(s, gls).1, gls) == Success((Chi2Of(s, gls).value.0, Chi2Reduced(s, gls).1))
  {
  }

  /** The object after `update()`, and the exception it raised, if any. */
  datatype Updated = Updated(state: ToaResiduals, error: Option<Error>)

  /** `update()`: recompute phase and time residuals, drop the cached
      chi-squared and recount degrees of freedom. Without TOAs or model it
      clears the residuals and raises; a failure while recomputing leaves
      whatever was assigned before it. */
  function Update(s: ToaResiduals): (u: Updated)
    requires Valid(s)
    ensures Valid(u.state)
    ensures u.state.toas == s.toas && u.state.model == s.model
    ensures u.state.config == s.config && u.state.noiseResids == s.noiseResids
    ensures u.error == Some(NoToasForUpdate) <==> s.toas.None?
    ensures u.error == Some(NoModelForUpdate) <==> s.toas.Some? && s.model.None?
    ensures s.toas.None? || s.model.None? ==> u.state == s.(phaseResids := None, timeResids := None)
    ensures u.error.None? <==>
              s.toas.Some? && s.model.Some? && ComputeResids(s.toas.value, s.model.value, s.config).Success?
    ensures u.error.None? ==>
              && u.state.chi2Cache.None?
              && u.state.dof == Some(Dof(s.toas.value.NToas(), s.model.value.params))
              && u.state.phaseResids == Some(ComputeResids(s.toas.value, s.model.value, s.config).value.0)
              && u.state.timeResids == Some(ComputeResids(s.toas.value, s.model.value, s.config).value.1)
              && TimeMatchesPhase(u.state)
    ensures u.error.Some? && s.toas.Some? && s.model.Some? ==>
              u.state.chi2Cache == s.chi2Cache && u.state.dof == s.dof
  {
    if s.toas.None? || s.model.None? then
      var cleared := s.(phaseResids := None, timeResids := None);
      Updated(cleared, Some(if s.toas.None? then NoToasForUpdate else NoModelForUpdate))
    else
      var t, m := s.toas.value, s.model.value;
      match CalcPhaseResids(t, m, s.config.trackMode, s.config.policy)
      case Failure(e) => Updated(s, Some(e))
      case Success(phase) =>
        var withPhase := s.(phaseResids := Some(phase));
        match GetPsrFreq(m)
        case Failure(e) => Updated(withPhase, Some(e))
        case Success(f0) =>
          FrequencyNonzero(m);
          var time := CalcTimeResids(phase, f0);
          Updated(withPhase.(timeResids := Some(time), chi2Cache := None, dof := Some(Dof(t.NToas(), m.params))), None)
  }

  /** Updating twice without changing the inputs gives the same object. */
  lemma {:induction false} UpdateIdempotent(s: ToaResiduals)
    requires Valid(s)
    requires Update(s).error.None?
    ensures Update(Update(s).state) == Update(s)
  {
  }

  /** After a successful `update()`, reading `chi2` computes it afresh. */
  lemma {:induction false} Chi2AfterUpdate(s: ToaResiduals, gls: GlsOracle)
    requires Valid(s)
    requires Update(s).error.None?
    ensures Chi2Of(Update(s).state, gls).Success? <==> CalcChi2For(Update(s).state, false, gls).Success?
    ensures Chi2Of(Update(s).state, gls).Success? ==>
              Chi2Of(Update(s).state, gls).value.0 == CalcChi2For(Update(s).state, false, gls).value
  {
  }

  /** What `rms_weighted` hands to the weighted-RMS routine: the time
      residuals and the weights `1 / error²` with errors in seconds, after
      refusing zero errors. */
  function RmsInputs(s: ToaResiduals): (r: Result<(seq<real>, seq<real>), Error>)
    requires Valid(s)
    ensures s.toas.None? ==> r == Failure(MissingInput)
    ensures s.toas.Some? ==> (r == Failure(ZeroErrorsForRms) <==> !AllNonzero(s.toas.value.errors))
    ensures s.toas.Some? && AllNonzero(s.toas.value.errors) ==> (r.Success? <==> s.timeResids.Some?)
    ensures r.Success? ==>
              && s.toas.Some? && AllNonzero(s.toas.value.errors)
              && Some(r.value.0) == s.timeResids
              && r.value.1 == Weights(InSeconds(s.toas.value.errors))
  {
    if s.toas.None? then Failure(MissingInput)
    else if !AllNonzero(s.toas.value.errors) then Failure(ZeroErrorsForRms)
    else if s.timeResids.None? then Failure(MissingInput)
    else Success((s.timeResids.value, Weights(InSeconds(s.toas.value.errors))))
  }
}
