/** `Residuals(...)` as a factory: `__new__` picks the class from
    `residual_map` by the lower-cased `residual_type`, then that class's
    `__init__` runs with the same keyword arguments and its own defaults. */
module ResidualFactory {
  import opened Wrappers
  import opened Errors
  import opened TimingData
  import opened MeanSubtraction
  import opened PhaseResiduals
  import T = ToaResidualsState
  import W = WidebandDm

  /** The residual classes `residual_map` can select. */
  datatype Kind = ToaKind | DmKind

  /** `residual_map`, keyed by lower-case residual type. */
  const ResidualKinds: map<string, Kind> := map["toa" := ToaKind, "dm" := DmKind]

  /** A residual object of either class. */
  datatype AnyResiduals = ToaRes(toa: T.ToaResiduals) | DmRes(dm: W.DmResiduals)

  /** The keyword arguments of a `Residuals(...)` call. `None` stands for an
      argument left out, which takes the chosen class's default; `unit` is
      the number of output units per base unit. */
  datatype Args = Args(
    toas: Option<Toas>,
    model: Option<TimingModel>,
    residualType: string,
    unit: Option<real>,
    subtractMean: bool,
    useWeightedMean: bool,
    trackMode: Option<string>,
    scaledByF0: Option<bool>)

  /** The default tracking mode of TOA residuals. */
  const DefaultTrackMode: string := "nearest"

  /** ASCII lower-casing of one character. */
  function LowerChar(c: char): (l: char)
    ensures 'A' <= c <= 'Z' ==> l as int == c as int + 32
    ensures !('A' <= c <= 'Z') ==> l == c
    ensures !('A' <= l <= 'Z')
  {
    if 'A' <= c <= 'Z' then (c as int + 32) as char else c
  }

  /** `str.lower()` on ASCII text: no capital letter is left, and exactly
      the capitals change, each to its own small letter. */
  function Lower(s: string): (l: string)
    ensures |l| == |s|
    ensures forall i :: 0 <= i < |s| ==> l[i] == LowerChar(s[i])
    ensures forall i :: 0 <= i < |l| ==> !('A' <= l[i] <= 'Z')
    ensures forall i :: 0 <= i < |s| ==> (l[i] == s[i] <==> !('A' <= s[i] <= 'Z'))
    ensures forall i :: 0 <= i < |s| && 'A' <= s[i] <= 'Z' ==> l[i] as int - s[i] as int == 'a' as int - 'A' as int
  {
    seq(|s|, i requires 0 <= i < |s| => LowerChar(s[i]))
  }

  /** Lower-casing twice is lower-casing once. */
  lemma {:induction false} LowerIdempotent(s: string)
    ensures Lower(Lower(s)) == Lower(s)
  {
    assert forall i :: 0 <= i < |s| ==> LowerChar(LowerChar(s[i])) == LowerChar(s[i]);
  }

  /** The class `residual_map` selects for `residualType`, if any. */
  function KindOf(residualType: string): (k: Option<Kind>)
    ensures k.Some? <==> Lower(residualType) == "toa" || Lower(residualType) == "dm"
    ensures k == Some(ToaKind) <==> Lower(residualType) == "toa"
    ensures k == Some(DmKind) <==> Lower(residualType) == "dm"
  {
    var key := Lower(residualType);
    if key in ResidualKinds then Some(ResidualKinds[key]) else None
  }

  /** `Residuals(**args)`. An unknown type is refused before anything is
      read; the DM class has no `track_mode` parameter, so passing one is a
      `TypeError`; then the chosen constructor runs with its own defaults. */
  function NewResiduals(a: Args): (r: Result<AnyResiduals, Error>)
    requires a.unit.Some? ==> a.unit.value > 0.0
    requires a.toas.Some? ==> a.toas.value.WellFormed()
    requires a.toas.Some? && a.model.Some? ==> a.model.value.FitsToas(a.toas.value)
    ensures KindOf(a.residualType).None? ==> r == Failure(UnsupportedResidualType(a.residualType))
    ensures KindOf(a.residualType) == Some(DmKind) && a.trackMode.Some? ==>
              r == Failure(UnexpectedArgument("track_mode"))
    ensures r.Success? ==> (r.value.ToaRes? <==> Lower(a.residualType) == "toa")
    ensures r.Success? ==> (r.value.DmRes? <==> Lower(a.residualType) == "dm")
    ensures KindOf(a.residualType) == Some(ToaKind) ==> r == NewToa(a)
    ensures KindOf(a.residualType) == Some(DmKind) && a.trackMode.None? ==> r == NewDm(a)
  {
    match KindOf(a.residualType)
    case None => Failure(UnsupportedResidualType(a.residualType))
    case Some(ToaKind) => NewToa(a)
    case Some(DmKind) =>
      if a.trackMode.Some? then Failure(UnexpectedArgument("track_mode")) else NewDm(a)
  }

  /** `TOAResiduals(**args)`, with that class's defaults. */
  function NewToa(a: Args): (r: Result<AnyResiduals, Error>)
    requires a.unit.Some? ==> a.unit.value > 0.0
    requires a.toas.Some? ==> a.toas.value.WellFormed()
    requires a.toas.Some? && a.model.Some? ==> a.model.value.FitsToas(a.toas.value)
    ensures r.Success? <==> T.NewToaResiduals(a.toas, a.model, a.residualType, a.unit.GetOr(1.0),
                              MeanPolicy(a.subtractMean, a.useWeightedMean),
                              a.trackMode.GetOr(DefaultTrackMode), a.scaledByF0.GetOr(true)).Success?
    ensures r.Success? ==>
              && r.value.ToaRes?
              && T.Valid(r.value.toa)
              && r.value.toa.config.residualType == a.residualType
              && r.value.toa.config.unitScale == a.unit.GetOr(1.0)
              && r.value.toa.config.policy == MeanPolicy(a.subtractMean, a.useWeightedMean)
              && r.value.toa.config.scaledByF0 == a.scaledByF0.GetOr(true)
              && r.value.toa.config.trackMode == EffectiveTrackMode(a.trackMode.GetOr(DefaultTrackMode), a.model.value)
  {
    var s :- T.NewToaResiduals(a.toas, a.model, a.residualType, a.unit.GetOr(1.0),
                               MeanPolicy(a.subtractMean, a.useWeightedMean),
                               a.trackMode.GetOr(DefaultTrackMode), a.scaledByF0.GetOr(true));
    Success(ToaRes(s))
  }

  /** `WidebandDMResiduals(**args)`, with that class's defaults. */
  function NewDm(a: Args): (r: Result<AnyResiduals, Error>)
    requires a.unit.Some? ==> a.unit.value > 0.0
    requires a.toas.Some? ==> a.toas.value.WellFormed()
    requires a.toas.Some? && a.model.Some? ==> a.model.value.FitsToas(a.toas.value)
    ensures r.Success? <==> W.NewDmResiduals(a.toas, a.model, a.residualType, a.unit.GetOr(1.0),
                              MeanPolicy(a.subtractMean, a.useWeightedMean), a.scaledByF0.GetOr(false)).Success?
    ensures r.Success? ==>
              && r.value.DmRes?
              && W.Valid(r.value.dm)
              && r.value.dm.residualType == a.residualType
              && r.value.dm.unitScale == a.unit.GetOr(1.0)
              && r.value.dm.policy == MeanPolicy(a.subtractMean, a.useWeightedMean)
              && r.value.dm.scaledByF0 == a.scaledByF0.GetOr(false)
  {
    var s :- W.NewDmResiduals(a.toas, a.model, a.residualType, a.unit.GetOr(1.0),
                              MeanPolicy(a.subtractMean, a.useWeightedMean), a.scaledByF0.GetOr(false));
    Success(DmRes(s))
  }

  /** The residual type is matched without regard to case: two spellings
      that lower-case alike build the same kind of object from the same
      data, or fail alike. */
  lemma {:induction false} DispatchIgnoresCase(a: Args, spelling: string)
    requires a.unit.Some? ==> a.unit.value > 0.0
    requires a.toas.Some? ==> a.toas.value.WellFormed()
    requires a.toas.Some? && a.model.Some? ==> a.model.value.FitsToas(a.toas.value)
    requires Lower(spelling) == Lower(a.residualType)
    ensures NewResiduals(a.(residualType := spelling)).Success? <==> NewResiduals(a).Success?
    ensures NewResiduals(a).Success? ==>
              (NewResiduals(a.(residualType := spelling)).value.ToaRes? <==> NewResiduals(a).value.ToaRes?)
  {
  }

  /** Every type that lower-cases to neither "toa" nor "dm" is refused,
      whatever the data. */
  lemma {:induction false} UnsupportedAlwaysFails(a: Args)
    requires a.unit.Some? ==> a.unit.value > 0.0
    requires a.toas.Some? ==> a.toas.value.WellFormed()
    requires a.toas.Some? && a.model.Some? ==> a.model.value.FitsToas(a.toas.value)
    requires Lower(a.residualType) != "toa" && Lower(a.residualType) != "dm"
    ensures NewResiduals(a) == Failure(UnsupportedResidualType(a.residualType))
  {
  }
}
