/** From phase to time: the spin frequency and the value accessors. */
module TimeScaling {
  import opened Wrappers
  import opened Errors
  import opened SeqMath
  import opened TimingData

  /** How many of `names` are model parameters, and the value of the last one
      found, scanning `names` in order. */
  function ScanFrequencyParams(m: TimingModel, names: seq<string>): (r: (nat, Option<real>))
    ensures r.0 <= |names|
    ensures r.0 == 0 <==> r.1.None?
  {
    if |names| == 0 then (0, None)
    else
      var (n, v) := ScanFrequencyParams(m, names[..|names| - 1]);
      var last := names[|names| - 1];
      if HasParam(m, last) then (n + 1, Some(FindParam(m.params, last).value.value)) else (n, v)
  }

  /** `get_PSR_freq`: the units of `F0` are read first, which fails on a
      model without `F0`; then `F0` and `nu` are scanned, and exactly one of
      them must be present. Once `F0` is known to exist, the scan always
      finds at least one name, so the "no frequency parameter" error cannot
      arise, although `get_PSR_freq` still checks for it. */
  function GetPsrFreq(m: TimingModel): (r: Result<real, Error>)
    ensures !HasParam(m, "F0") ==> r == Failure(MissingF0)
    ensures r.Success? <==> HasParam(m, "F0") && !HasParam(m, "nu")
    ensures r.Success? ==> r.value == FindParam(m.params, "F0").value.value
    ensures HasParam(m, "F0") && HasParam(m, "nu") ==> r == Failure(AmbiguousSpinFrequency)
    ensures r != Failure(NoSpinFrequency)
  {
    if !HasParam(m, "F0") then Failure(MissingF0)
    else
      ScanFrequencyNames(m);
      var (n, v) := ScanFrequencyParams(m, FrequencyNames);
      if n == 0 then Failure(NoSpinFrequency)
      else if n > 1 then Failure(AmbiguousSpinFrequency)
      else Success(v.value)
  }

  lemma {:induction false} ScanFrequencyNames(m: TimingModel)
    ensures ScanFrequencyParams(m, FrequencyNames).0 ==
              (if HasParam(m, "F0") then 1 else 0) + (if HasParam(m, "nu") then 1 else 0)
    ensures HasParam(m, "nu") ==>
              ScanFrequencyParams(m, FrequencyNames).1 == Some(FindParam(m.params, "nu").value.value)
    ensures !HasParam(m, "nu") && HasParam(m, "F0") ==>
              ScanFrequencyParams(m, FrequencyNames).1 == Some(FindParam(m.params, "F0").value.value)
  {
    var names: seq<string> := ["F0", "nu"];
    assert names[..1] == ["F0"];
    assert names[..1][..0] == [];
    var s0 := ScanFrequencyParams(m, []);
    var s1 := ScanFrequencyParams(m, ["F0"]);
    assert s0 == (0, None);
    assert s1.0 == if HasParam(m, "F0") then 1 else 0;
  }

  /** `time` is `phase` expressed in seconds at spin frequency `f0`. */
  predicate TimeScaled(time: seq<real>, phase: seq<real>, f0: real)
  {
    |time| == |phase| && forall i :: 0 <= i < |time| ==> time[i] * f0 == phase[i]
  }

  /** `phase_resids / F0`. */
  function CalcTimeResids(phase: seq<real>, f0: real): (time: seq<real>)
    requires f0 != 0.0
    ensures TimeScaled(time, phase, f0)
  {
    seq(|phase|, i requires 0 <= i < |phase| => phase[i] / f0)
  }

  /** A model that has a spin frequency has a nonzero one. */
  lemma {:induction false} FrequencyNonzero(m: TimingModel)
    requires NonzeroSpinFrequency(m)
    requires GetPsrFreq(m).Success?
    ensures GetPsrFreq(m).value != 0.0
  {
    assert FrequencyNames[0] == "F0";
  }
}
