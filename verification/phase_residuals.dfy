/** Phase residuals: the model's predicted phase at each TOA, corrected by
    the TOA's phase jump, reduced to a residual under one of two
    pulse-tracking policies, then optionally mean-subtracted. */
module PhaseResiduals {
  import opened Wrappers
  import opened Errors
  import opened SeqMath
  import opened PhaseArith
  import opened TimingData
  import opened MeanSubtraction

  /** The `track_mode` value that selects pulse-number tracking; every other
      value tracks the nearest pulse. */
  const UsePulseNumbers: string := "use_pulse_numbers"

  /** The `TRACK` value that forces pulse-number tracking. */
  const ForcedTrack: string := "-2"

  /** The tracking mode a residual object settles on at construction: it
      tracks pulse numbers exactly when they were asked for or the model
      forces them, and otherwise keeps the requested way of tracking. */
  function EffectiveTrackMode(requested: string, m: TimingModel): (mode: string)
    ensures m.track == ForcedTrack ==> mode == UsePulseNumbers
    ensures m.track != ForcedTrack ==> mode == requested
    ensures mode == UsePulseNumbers <==> requested == UsePulseNumbers || m.track == ForcedTrack
    ensures mode != UsePulseNumbers ==> mode == requested
  {
    if m.track == ForcedTrack then UsePulseNumbers else requested
  }

  /** The `delta_pulse_number` column, read as zeros when the TOAs lack it. */
  function DeltaPulseNumbers(t: Toas): (d: seq<real>)
    requires t.WellFormed()
    ensures |d| == t.NToas()
    ensures t.deltaPulseNumbers.Some? ==> d == t.deltaPulseNumbers.value
    ensures t.deltaPulseNumbers.None? ==> forall i :: 0 <= i < |d| ==> d[i] == 0.0
  {
    match t.deltaPulseNumbers
    case Some(d) => d
    case None => seq(t.NToas(), _ => 0.0)
  }

  /** Model phase plus phase jump, per TOA. */
  function ModelPhases(phase: seq<Phase>, delta: seq<real>): (mp: seq<Phase>)
    requires |phase| == |delta|
    ensures |mp| == |phase|
    ensures forall i :: 0 <= i < |mp| ==> Normalized(mp[i])
    ensures forall i :: 0 <= i < |mp| ==> Value(mp[i]) == Value(phase[i]) + delta[i]
  {
    seq(|phase|, i requires 0 <= i < |phase| => Add(phase[i], FromReal(delta[i])))
  }

  /** `r` is the residual of phase `x` to its nearest pulse: `x` less a whole
      number of cycles, in [-0.5, 0.5). */
  predicate NearestPulseResidual(x: real, r: real)
  {
    -0.5 <= r < 0.5 && IsInteger(x - r)
  }

  /** Pulse-number tracking: absolute model phase (with jump) less the
      labelled pulse number, kept whole. */
  function PulseNumberTracked(mp: seq<Phase>, pulseNumbers: seq<int>): (r: seq<real>)
    requires |pulseNumbers| == |mp|
    ensures |r| == |mp|
    ensures forall i :: 0 <= i < |r| ==> r[i] == Value(mp[i]) - pulseNumbers[i] as real
  {
    seq(|mp|, i requires 0 <= i < |mp| => Value(Sub(mp[i], Make(pulseNumbers[i], 0.0))))
  }

  /** Nearest-pulse tracking. With `reference` set (mean subtraction on), the
      first TOA's phase is subtracted first, which fails on an empty TOA set;
      then only the fractional part of each phase is kept. */
  function NearestTracked(mp: seq<Phase>, reference: bool): (r: Result<seq<real>, Error>)
    requires forall i :: 0 <= i < |mp| ==> Normalized(mp[i])
    ensures r.Failure? <==> reference && |mp| == 0
    ensures r.Failure? ==> r.error == EmptyToas
    ensures r.Success? ==> |r.value| == |mp|
    ensures r.Success? ==> forall i :: 0 <= i < |mp| ==>
              NearestPulseResidual(Value(mp[i]) - (if reference then Value(mp[0]) else 0.0), r.value[i])
    ensures r.Success? && reference ==> r.value[0] == 0.0
  {
    if reference && |mp| == 0 then
      Failure(EmptyToas)
    else
      var rel := if reference
        then seq(|mp|, i requires 0 <= i < |mp| => Sub(mp[i], Make(mp[0].cycles, mp[0].frac)))
        else mp;
      var r := seq(|rel|, i requires 0 <= i < |rel| => Value(Make(0, rel[i].frac)));
      NearestTrackedFacts(mp, reference, rel, r);
      Success(r)
  }

  lemma {:induction false} NearestTrackedFacts(mp: seq<Phase>, reference: bool, rel: seq<Phase>, r: seq<real>)
    requires forall i :: 0 <= i < |mp| ==> Normalized(mp[i])
    requires reference ==> |mp| > 0
    requires rel == if reference
      then seq(|mp|, i requires 0 <= i < |mp| => Sub(mp[i], Make(mp[0].cycles, mp[0].frac)))
      else mp
    requires r == seq(|rel|, i requires 0 <= i < |rel| => Value(Make(0, rel[i].frac)))
    ensures forall i :: 0 <= i < |mp| ==>
              NearestPulseResidual(Value(mp[i]) - (if reference then Value(mp[0]) else 0.0), r[i])
    ensures reference ==> r[0] == 0.0
  {
    forall i | 0 <= i < |mp|
      ensures NearestPulseResidual(Value(mp[i]) - (if reference then Value(mp[0]) else 0.0), r[i])
    {
      assert r[i] == rel[i].frac;
      assert Normalized(rel[i]);
      FracDiffersByCycles(rel[i]);
      if reference {
        assert Value(rel[i]) == Value(mp[i]) - Value(mp[0]);
      }
    }
    if reference {
      MakeNormalized(mp[0]);
      SubSelf(mp[0]);
      assert rel[0] == Phase(0, 0.0);
    }
  }

  /** The phase tracked under `trackMode`, before any mean subtraction. */
  function TrackedPhase(t: Toas, m: TimingModel, trackMode: string, subtractMean: bool)
    : (r: Result<seq<real>, Error>)
    requires t.WellFormed() && m.FitsToas(t)
  {
    var delta := DeltaPulseNumbers(t);
    if trackMode == UsePulseNumbers then
      match t.pulseNumbers
      case None => Failure(MissingPulseNumbers)
      case Some(pn) => Success(PulseNumberTracked(ModelPhases(m.absPhase, delta), pn))
    else
      NearestTracked(ModelPhases(m.phase, delta), subtractMean)
  }

  /** The residual pulse-number tracking promises for TOA `i`: absolute model
      phase plus phase jump less the pulse number. */
  function PulseNumberResidual(t: Toas, m: TimingModel, i: nat): real
    requires t.WellFormed() && m.FitsToas(t) && t.pulseNumbers.Some?
    requires i < t.NToas()
  {
    Value(m.absPhase[i]) + DeltaPulseNumbers(t)[i] - t.pulseNumbers.value[i] as real
  }

  /** Model phase plus phase jump for TOA `i`, as nearest-pulse tracking sees it. */
  function RelativeModelPhase(t: Toas, m: TimingModel, i: nat): real
    requires t.WellFormed() && m.FitsToas(t)
    requires i < t.NToas()
  {
    Value(m.phase[i]) + DeltaPulseNumbers(t)[i]
  }

  /** The TOA phase residuals, `calc_phase_resids`: its failures and the
      length of its result. What the residuals are is stated by
      `PulseNumberResiduals`, `NearestPulseResiduals` and `PhaseResidsMean`. */
  function CalcPhaseResids(t: Toas, m: TimingModel, trackMode: string, policy: MeanPolicy)
    : (r: Result<seq<real>, Error>)
    requires t.WellFormed() && m.FitsToas(t)
    ensures r == Failure(MissingPulseNumbers) <==>
              trackMode == UsePulseNumbers && t.pulseNumbers.None?
    ensures r == Failure(EmptyToas) <==>
              trackMode != UsePulseNumbers && policy.subtract && t.NToas() == 0
    ensures r == Failure(ZeroToaErrors) <==>
              && (trackMode == UsePulseNumbers ==> t.pulseNumbers.Some?)
              && (trackMode != UsePulseNumbers && policy.subtract ==> t.NToas() > 0)
              && policy.subtract && policy.weighted && !AllNonzero(t.errors)
    ensures r.Failure? ==> r.error in {MissingPulseNumbers, EmptyToas, ZeroToaErrors}
    ensures r.Success? ==> |r.value| == t.NToas()
  {
    var full :- TrackedPhase(t, m, trackMode, policy.subtract);
    SubtractMean(full, t.errors, policy, ZeroToaErrors)
  }

  /** Under pulse-number tracking each residual is the absolute model phase
      plus phase jump less the TOA's pulse number, up to the subtracted mean. */
  lemma {:induction false} PulseNumberResiduals(t: Toas, m: TimingModel, trackMode: string, policy: MeanPolicy)
    requires t.WellFormed() && m.FitsToas(t)
    requires trackMode == UsePulseNumbers
    requires CalcPhaseResids(t, m, trackMode, policy).Success?
    ensures t.pulseNumbers.Some?
    ensures !policy.subtract ==> forall i :: 0 <= i < t.NToas() ==>
              CalcPhaseResids(t, m, trackMode, policy).value[i] == PulseNumberResidual(t, m, i)
    ensures forall i, j :: 0 <= i < t.NToas() && 0 <= j < t.NToas() ==>
              CalcPhaseResids(t, m, trackMode, policy).value[i] - CalcPhaseResids(t, m, trackMode, policy).value[j]
              == PulseNumberResidual(t, m, i) - PulseNumberResidual(t, m, j)
  {
  }

  /** Under nearest-pulse tracking each residual is the model phase plus
      phase jump less the nearest whole pulse; with mean subtraction the
      first TOA is the phase reference, so this holds of differences to it. */
  lemma {:induction false} NearestPulseResiduals(t: Toas, m: TimingModel, trackMode: string, policy: MeanPolicy)
    requires t.WellFormed() && m.FitsToas(t)
    requires trackMode != UsePulseNumbers
    requires CalcPhaseResids(t, m, trackMode, policy).Success?
    ensures !policy.subtract ==> forall i :: 0 <= i < t.NToas() ==>
              NearestPulseResidual(RelativeModelPhase(t, m, i), CalcPhaseResids(t, m, trackMode, policy).value[i])
    ensures policy.subtract ==> t.NToas() > 0 && forall i :: 0 <= i < t.NToas() ==>
              NearestPulseResidual(RelativeModelPhase(t, m, i) - RelativeModelPhase(t, m, 0),
                CalcPhaseResids(t, m, trackMode, policy).value[i] - CalcPhaseResids(t, m, trackMode, policy).value[0])
  {
    NearestOfTracked(t, m, trackMode, policy);
    NearestOfModelPhases(t, m, CalcPhaseResids(t, m, trackMode, policy).value, policy.subtract);
  }

  /** Under nearest-pulse tracking the residuals are nearest-pulse residuals
      of the phases `ModelPhases` builds, or of their differences to the
      first with mean subtraction. */
  lemma {:induction false} NearestOfTracked(t: Toas, m: TimingModel, trackMode: string, policy: MeanPolicy)
    requires t.WellFormed() && m.FitsToas(t)
    requires trackMode != UsePulseNumbers
    requires CalcPhaseResids(t, m, trackMode, policy).Success?
    ensures |CalcPhaseResids(t, m, trackMode, policy).value| == t.NToas()
    ensures !policy.subtract ==> forall i :: 0 <= i < t.NToas() ==>
              NearestPulseResidual(Value(ModelPhases(m.phase, DeltaPulseNumbers(t))[i]) - 0.0,
                                   CalcPhaseResids(t, m, trackMode, policy).value[i])
    ensures policy.subtract ==> t.NToas() > 0 && forall i :: 0 <= i < t.NToas() ==>
              NearestPulseResidual(Value(ModelPhases(m.phase, DeltaPulseNumbers(t))[i])
                                   - Value(ModelPhases(m.phase, DeltaPulseNumbers(t))[0]),
                                   CalcPhaseResids(t, m, trackMode, policy).value[i]
                                   - CalcPhaseResids(t, m, trackMode, policy).value[0])
  {
    NearestFromTracked(t, m, trackMode, policy);
    NearestResidualsOf(ModelPhases(m.phase, DeltaPulseNumbers(t)), CalcPhaseResids(t, m, trackMode, policy).value, policy.subtract);
  }

  /** Nearest-pulse tracking sees the model phase plus phase jump of each
      TOA: a nearest-pulse property of the phases `ModelPhases` builds is
      one of `RelativeModelPhase`. */
  lemma {:induction false} NearestOfModelPhases(t: Toas, m: TimingModel, r: seq<real>, reference: bool)
    requires t.WellFormed() && m.FitsToas(t)
    requires |r| == t.NToas()
    requires !reference ==> forall i :: 0 <= i < |r| ==>
               NearestPulseResidual(Value(ModelPhases(m.phase, DeltaPulseNumbers(t))[i]) - 0.0, r[i])
    requires reference ==> |r| > 0 && forall i :: 0 <= i < |r| ==>
               NearestPulseResidual(Value(ModelPhases(m.phase, DeltaPulseNumbers(t))[i])
                                    - Value(ModelPhases(m.phase, DeltaPulseNumbers(t))[0]), r[i] - r[0])
    ensures !reference ==> forall i :: 0 <= i < t.NToas() ==> NearestPulseResidual(RelativeModelPhase(t, m, i), r[i])
    ensures reference ==> t.NToas() > 0 && forall i :: 0 <= i < t.NToas() ==>
              NearestPulseResidual(RelativeModelPhase(t, m, i) - RelativeModelPhase(t, m, 0), r[i] - r[0])
  {
    var mp := ModelPhases(m.phase, DeltaPulseNumbers(t));
    if reference {
      forall i | 0 <= i < t.NToas()
        ensures NearestPulseResidual(RelativeModelPhase(t, m, i) - RelativeModelPhase(t, m, 0), r[i] - r[0])
      {
        assert Value(mp[i]) - Value(mp[0]) == RelativeModelPhase(t, m, i) - RelativeModelPhase(t, m, 0);
      }
    } else {
      forall i | 0 <= i < t.NToas()
        ensures NearestPulseResidual(RelativeModelPhase(t, m, i), r[i])
      {
        assert Value(mp[i]) - 0.0 == RelativeModelPhase(t, m, i);
      }
    }
  }

  /** Under nearest-pulse tracking, a successful `calc_phase_resids` is the
      nearest-pulse tracked phase shifted by its mean, or left alone. */
  lemma {:induction false} NearestFromTracked(t: Toas, m: TimingModel, trackMode: string, policy: MeanPolicy)
    requires t.WellFormed() && m.FitsToas(t)
    requires trackMode != UsePulseNumbers
    requires CalcPhaseResids(t, m, trackMode, policy).Success?
    ensures NearestTracked(ModelPhases(m.phase, DeltaPulseNumbers(t)), policy.subtract).Success?
    ensures SameDifferences(CalcPhaseResids(t, m, trackMode, policy).value,
                            NearestTracked(ModelPhases(m.phase, DeltaPulseNumbers(t)), policy.subtract).value)
    ensures !policy.subtract ==> CalcPhaseResids(t, m, trackMode, policy).value ==
                                   NearestTracked(ModelPhases(m.phase, DeltaPulseNumbers(t)), policy.subtract).value
  {
    CalcFromTracked(t, m, trackMode, policy);
  }

  /** Residuals that differ from the nearest-pulse tracked phases by a
      constant (not at all without a reference) are nearest-pulse residuals,
      of the phases themselves or of their differences to the first. */
  lemma {:induction false} NearestResidualsOf(mp: seq<Phase>, r: seq<real>, reference: bool)
    requires forall i :: 0 <= i < |mp| ==> Normalized(mp[i])
    requires NearestTracked(mp, reference).Success?
    requires SameDifferences(r, NearestTracked(mp, reference).value)
    requires !reference ==> r == NearestTracked(mp, reference).value
    ensures |r| == |mp|
    ensures !reference ==> forall i :: 0 <= i < |mp| ==> NearestPulseResidual(Value(mp[i]) - 0.0, r[i])
    ensures reference ==> |mp| > 0 && forall i :: 0 <= i < |mp| ==>
              NearestPulseResidual(Value(mp[i]) - Value(mp[0]), r[i] - r[0])
  {
    var full := NearestTracked(mp, reference).value;
    if reference {
      forall i | 0 <= i < |mp|
        ensures NearestPulseResidual(Value(mp[i]) - Value(mp[0]), r[i] - r[0])
      {
        assert r[i] - r[0] == full[i] - full[0];
      }
    }
  }

  /** A successful `calc_phase_resids` is the mean subtraction of the
      tracked phase. */
  lemma {:induction false} CalcFromTracked(t: Toas, m: TimingModel, trackMode: string, policy: MeanPolicy)
    requires t.WellFormed() && m.FitsToas(t)
    requires CalcPhaseResids(t, m, trackMode, policy).Success?
    ensures TrackedPhase(t, m, trackMode, policy.subtract).Success?
    ensures |TrackedPhase(t, m, trackMode, policy.subtract).value| == t.NToas()
    ensures SubtractMean(TrackedPhase(t, m, trackMode, policy.subtract).value, t.errors, policy, ZeroToaErrors)
              == CalcPhaseResids(t, m, trackMode, policy)
  {
  }

  /** The mean the residuals were left with: zero, plainly or inverse-variance
      weighted, when it was subtracted. */
  lemma {:induction false} PhaseResidsMean(t: Toas, m: TimingModel, trackMode: string, policy: MeanPolicy)
    requires t.WellFormed() && m.FitsToas(t)
    requires CalcPhaseResids(t, m, trackMode, policy).Success?
    requires policy.subtract
    ensures !policy.weighted ==> Sum(CalcPhaseResids(t, m, trackMode, policy).value) == 0.0
    ensures policy.weighted ==> AllNonzero(t.errors)
    ensures policy.weighted ==> WeightedSum(CalcPhaseResids(t, m, trackMode, policy).value, Weights(t.errors)) == 0.0
  {
  }

  /** The nearest-pulse residual is at least as close to zero as the
      residual to any other pulse. */
  lemma {:induction false} NearestIsClosest(x: real, r: real, k: int)
    requires NearestPulseResidual(x, r)
    ensures Abs(r) <= Abs(x - k as real)
  {
    var j := (x - r).Floor - k;
    assert x - k as real == r + j as real;
    if j >= 1 {
      assert r + j as real >= 0.5;
    } else if j <= -1 {
      assert r + j as real < -0.5;
    }
  }

  /** A phase has exactly one nearest-pulse residual. */
  lemma {:induction false} NearestUnique(x: real, r1: real, r2: real)
    requires NearestPulseResidual(x, r1) && NearestPulseResidual(x, r2)
    ensures r1 == r2
  {
    var d := (x - r2).Floor - (x - r1).Floor;
    assert r1 - r2 == d as real;
  }

  function Abs(x: real): real
  {
    if x < 0.0 then -x else x
  }
}
