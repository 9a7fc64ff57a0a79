# PINT residual engine in Dafny

This project models the residual engine of the PINT pulsar-timing package,
`src/pint/residuals.py`, over Dafny's exact `real` numbers. It covers these
parts:

- The `Residuals(...)` factory and `residual_map`. The lower-cased
  `residual_type` selects TOA or wideband-DM residuals, and unknown types are
  refused.
- TOA residuals (`Residuals`):
  - phase residuals under nearest-pulse or pulse-number tracking, with the
    `TRACK -2` override and the `delta_pulse_number` column (zeros when
    absent);
  - plain or error-weighted mean subtraction;
  - time residuals, which are phase residuals divided by the spin frequency
    `F0`, with the model's `nu` making the choice ambiguous;
  - the residual accessors `resids` and `resids_value`;
  - chi-squared, its cache and `update()`, which invalidates it;
  - degrees of freedom, reduced chi-squared and the zero-error guard of
    `rms_weighted`;
  - epoch averaging over the ECORR basis (`ecorr_average`).
- Wideband DM residuals (`WidebandDMResiduals`):
  - DM data and errors taken from the `pp_dm` and `pp_dme` flags, with
    validation, and labelled with the object's unit;
  - mean subtraction;
  - chi-squared and its cache;
  - `update_model`.
- `CombinedResiduals`:
  - residuals concatenated in list order, an empty list having nothing to
    concatenate;
  - chi-squared summed, the first failing object ending the sum;
  - data errors gathered through an ordered dictionary keyed by residual type;
  - the zero-error guard of `rms_weighted`.

The TOA table and the timing model are inputs (module `TimingData`). The
model's per-TOA outputs are given already evaluated on the TOA table it is
paired with. These outputs are the predicted phase, the absolute phase, the
DM, the noise-scaled uncertainty, and the ECORR basis and weights. The GLS
fitter that evaluates chi-squared under correlated noise is an oracle. Given
the time residuals and `full_cov`, it returns either a value or
"degenerate", which stands for a `LinAlgError`.

Chi-squared is `Finite(x) | Infinite`, because `real` has no infinity. A
pulse phase is a normalised pair (whole cycles, fraction in [-0.5, 0.5)).
Each Python exception is an `Error` value in a `Result`.

Modules, in dependency order:

| file | module | contents |
|---|---|---|
| wrappers.dfy | Wrappers | `Option`, `Result` |
| errors.dfy | Errors | the exceptions the engine raises |
| seqmath.dfy | SeqMath | sums, weighted averages, weights, `np.where` |
| phase.dfy | PhaseArith | the (cycles, fraction) phase |
| timing_data.dfy | TimingData | TOA table and timing model |
| mean_subtraction.dfy | MeanSubtraction | plain and weighted mean subtraction |
| phase_residuals.dfy | PhaseResiduals | `calc_phase_resids` |
| time_scaling.dfy | TimeScaling | `get_PSR_freq`, `calc_time_resids` |
| chi_squared.dfy | ChiSquared | `calc_chi2`, `get_dof`, the `Chi2` type |
| toa_residuals.dfy | ToaResidualsState | the `Residuals` object, its cache and `update()` |
| wideband.dfy | WidebandDm | `WidebandDMResiduals` |
| ecorr_average.dfy | EcorrAveraging | `ecorr_average` |
| ordered_dict.dfy | OrderedDicts | `collections.OrderedDict` built from pairs |
| residual_map.dfy | ResidualFactory | `residual_map` and `Residuals.__new__` |
| combined.dfy | Combined | `CombinedResiduals` |

## Model

| member | source | states |
|---|---|---|
| PhaseArith.Sub | src/pint/residuals.py:172 | Subtracting phases gives a normalised phase whose value is the difference of the two values. |
| PhaseArith.NormalizedUnique | src/pint/residuals.py:176-178 | Two normalised phases with the same value are the same (cycles, fraction) pair. The split of a phase is therefore fixed by its value. |
| PhaseArith.SubSelf | src/pint/residuals.py:171-172 | A phase less itself is the zero phase. This is why the reference TOA's tracked residual is 0. |
| SeqMath.WeightedAverageBetween | src/pint/residuals.py:360-361 | A weighted average with non-negative weights and a nonzero total lies between any bounds that hold for every positively weighted value. |
| SeqMath.IndicesWhere | src/pint/residuals.py:377 | `np.where` on a mask: the result is strictly increasing. It holds exactly the positions whose element satisfies the mask. |
| MeanSubtraction.SubtractMean | src/pint/residuals.py:179-193 | Without `subtract_mean`, the residuals are returned unchanged. The operation fails, with the given error, exactly when the weighted path meets a zero error. Otherwise every pairwise difference is kept; the plain variant sums to 0 and the weighted variant has Σ rᵢ/eᵢ² = 0. |
| MeanSubtraction.WeightedMeanVanishes | src/pint/residuals.py:191-193 | With positive weights, shifting by the weighted average leaves a weighted sum of 0. |
| MeanSubtraction.PlainMeanUnique | src/pint/residuals.py:182-183 | The only shift of the residuals that sums to 0 is the shift by their plain mean. |
| MeanSubtraction.WeightedMeanUnique | src/pint/residuals.py:184-193 | The only shift with weighted sum 0 is the shift by the weighted mean. |
| PhaseResiduals.EffectiveTrackMode | src/pint/residuals.py:72-73 | The object tracks pulse numbers exactly when `use_pulse_numbers` was requested or the model's `TRACK` is "-2". Whenever it does not, the requested mode is kept unchanged. |
| PhaseResiduals.DeltaPulseNumbers | src/pint/residuals.py:141-145 | A present `delta_pulse_number` column is used as it is. An absent one reads as zeros, one per TOA. |
| PhaseResiduals.ModelPhases | src/pint/residuals.py:157-159 | Each model phase plus its phase jump, normalised, with value equal to the phase value plus the jump. |
| PhaseResiduals.PulseNumberTracked | src/pint/residuals.py:157-164 | Under pulse-number tracking, each residual is the model phase value less that TOA's pulse number. |
| PhaseResiduals.NearestTracked | src/pint/residuals.py:166-178 | Nearest-pulse tracking fails, as an index error, exactly when the first TOA is needed as reference and there are no TOAs. Otherwise each residual is a nearest-pulse residual of the phase (relative to the first TOA when referenced), and the reference TOA's residual is 0. |
| PhaseResiduals.NearestTrackedFacts | src/pint/residuals.py:171-178 | Subtracting the first TOA's phase and keeping only the fraction leaves, for every TOA, a value in [-0.5, 0.5) that differs from the relative phase by whole cycles. |
| PhaseResiduals.CalcPhaseResids | src/pint/residuals.py:135-193 | Fails with missing pulse numbers exactly when pulse-number tracking finds no pulse numbers. Fails with an empty-TOA error exactly when nearest tracking with mean subtraction has no TOAs. Fails with zero errors exactly when the weighted mean meets a zero error after tracking succeeded. There are no other failures, and success gives one residual per TOA. |
| PhaseResiduals.PulseNumberResiduals | src/pint/residuals.py:148-164 | Under pulse-number tracking, success implies pulse numbers exist. Each residual is absolute phase plus jump less pulse number, exactly without mean subtraction and up to a common offset with it. |
| PhaseResiduals.NearestPulseResiduals | src/pint/residuals.py:166-178 | Under nearest tracking each residual is a nearest-pulse residual of its model phase. With mean subtraction the same holds of differences to the first TOA. |
| PhaseResiduals.NearestFromTracked | src/pint/residuals.py:166-181 | A successful nearest-mode result keeps the pairwise differences of the nearest-pulse tracked phase, and equals it without mean subtraction. |
| PhaseResiduals.NearestResidualsOf | src/pint/residuals.py:171-178 | Any residual vector with the same pairwise differences as the nearest-pulse tracked vector (and equal to it without a reference) is a nearest-pulse residual of each phase, or of its difference to the first phase when referenced. |
| PhaseResiduals.NearestOfTracked | src/pint/residuals.py:166-181 | Under nearest tracking each successful residual is a nearest-pulse residual of the jump-corrected model phase; with mean subtraction this holds of differences to the first TOA. |
| PhaseResiduals.NearestOfModelPhases | src/pint/residuals.py:166-168 | The phases nearest tracking works on are the model phase plus the phase jump, so a nearest-pulse property of one carries over to the other. |
| PhaseResiduals.CalcFromTracked | src/pint/residuals.py:179-193 | `calc_phase_resids` is the tracked phase, one value per TOA, followed by mean subtraction with the TOA errors. |
| PhaseResiduals.PhaseResidsMean | src/pint/residuals.py:179-193 | With mean subtraction the phase residuals sum to 0 (plain mean), or all errors are nonzero and Σ rᵢ/eᵢ² = 0 (weighted mean). |
| PhaseResiduals.NearestIsClosest | src/pint/residuals.py:174-176 | A nearest-pulse residual is no farther from zero than the phase less any whole number of cycles. |
| PhaseResiduals.NearestUnique | src/pint/residuals.py:174-176 | A phase has exactly one nearest-pulse residual. |
| TimeScaling.ScanFrequencyParams | src/pint/residuals.py:207-212 | The count of frequency names found never exceeds the number of names. A value is found exactly when the count is nonzero. |
| TimeScaling.ScanFrequencyNames | src/pint/residuals.py:207-212 | Scanning `["F0", "nu"]` counts the names present in the model. The value kept is that of the last name present. |
| TimeScaling.GetPsrFreq | src/pint/residuals.py:201-223 | Without `F0` the units read fails, as an attribute error. With `F0` it succeeds exactly when `nu` is absent, returning `F0`; with both it raises the "more than one" error. The "no frequency" error cannot arise. |
| TimeScaling.CalcTimeResids | src/pint/residuals.py:195-199 | Each time residual times the spin frequency is the phase residual. |
| TimeScaling.FrequencyNonzero | src/pint/residuals.py:199 | For a model whose spin frequency parameters are nonzero, the resolved frequency is nonzero, so the division is defined. |
| ChiSquared.InSeconds | src/pint/residuals.py:275 | Converting microsecond errors to seconds keeps the length. Each converted value times 10⁶ is the original, so zero errors stay zero. |
| ChiSquared.ChiSquare | src/pint/residuals.py:258-282 | Infinite exactly when some error is zero. Otherwise it is ≥ 0, is 0 exactly when every residual is 0, and is at least every single term. |
| ChiSquared.ChiSquareFacts | src/pint/residuals.py:273-282 | The sum of terms is non-negative, is 0 exactly when all residuals are 0, and bounds each term. |
| ChiSquared.ChiSquareConcat | src/pint/residuals.py:273-282 | The chi-squared of two concatenated data sets is the chi-squared sum of the parts, with infinity absorbing. |
| ChiSquared.ChiSquareUnitFree | src/pint/residuals.py:263-272 | Scaling residuals and errors by the same nonzero unit factor leaves chi-squared unchanged. |
| ChiSquared.TimeChi2 | src/pint/residuals.py:259-282 | Chi-squared of time residuals against microsecond errors is infinite exactly when some error is zero. |
| ChiSquared.CalcChi2 | src/pint/residuals.py:245-282 | With correlated errors it is the GLS oracle's value, or infinite exactly when the oracle reports degeneracy. Without them it is infinite exactly when an error is zero; otherwise it is non-negative and 0 exactly when all residuals are 0. |
| ChiSquared.FreeParamCount | src/pint/residuals.py:287-288 | The number of free parameters never exceeds the number of parameters. |
| ChiSquared.FreeParamCountIsUnfrozenPositions | src/pint/residuals.py:287-288 | The free-parameter count is the number of positions holding an unfrozen parameter. |
| ChiSquared.DofAddParam | src/pint/residuals.py:284-294 | Adding a free parameter lowers dof by one; adding a frozen one leaves it unchanged. |
| ChiSquared.DofBounds | src/pint/residuals.py:284-294 | ntoas − #params − 1 ≤ dof ≤ ntoas − 1. |
| ChiSquared.DofTenToasTwoFree | src/pint/residuals.py:284-294 | Ten TOAs with two free parameters and one frozen parameter give 7 degrees of freedom. |
| ChiSquared.Divide | src/pint/residuals.py:298 | `chi2 / dof`: infinite chi-squared over a dof of 0 is a division-by-zero error, because `np.inf` is a Python float and dof a Python int. Otherwise IEEE division: a quotient exactly when chi-squared is finite and dof ≠ 0, with quotient × dof = chi-squared; 0/0 is NaN; +∞ exactly for ∞ over a positive dof or a positive value over 0, −∞ for the negative counterparts. |
| ToaResidualsState.ComputeResids | src/pint/residuals.py:74-76 | Succeeds exactly when the phase residuals and the spin frequency both do. The phase part is `calc_phase_resids` and the time part is the phase part divided by the frequency. A frequency error is passed on. |
| ToaResidualsState.NewToaResiduals | src/pint/residuals.py:55-88 | A missing model fails. Success gives a valid object with no cached chi-squared and empty noise residuals. Its track mode is `use_pulse_numbers` exactly when the model has `TRACK -2`. Without TOAs nothing is computed; with TOAs it succeeds exactly when the residuals can be computed, and then holds them and dof = ntoas − free − 1. |
| ToaResidualsState.Resids | src/pint/residuals.py:90-96 | Scaled by F0, returns the held time residuals as they are, `None` included. Unscaled, returns the held phase residuals, or when none are held the result of `calc_phase_resids` on the object, with its error on failure. A returned vector has one value per TOA. |
| ToaResidualsState.RecalcPhaseResids | src/pint/residuals.py:135-159 | Without TOAs it fails; under pulse-number tracking without pulse numbers it fails with the missing-pulse-numbers error, whether or not a model is attached; only then does a missing model fail. With TOAs and model it is `calc_phase_resids`. |
| ToaResidualsState.ResidsStoreInvisible | src/pint/residuals.py:94-96 | Storing the recomputed phase residuals on the object, as `resids` does, changes no later `resids` read. |
| ToaResidualsState.ResidsValue | src/pint/residuals.py:115-122 | Fails with the error of `resids` when that fails, and as an attribute error when `resids` returns `None`. Otherwise it is `resids` multiplied by the unit factor. |
| ToaResidualsState.ConstructedTimeMatchesPhase | src/pint/residuals.py:74-76 | A constructed object's time residuals times the spin frequency are its phase residuals. |
| ToaResidualsState.ScaledByF0Consistent | src/pint/residuals.py:90-97 | For an object whose time residuals match its phase residuals, the scaled and unscaled `resids_value` both exist and differ exactly by the factor F0. |
| ToaResidualsState.CalcChi2For | src/pint/residuals.py:226-282 | Missing TOAs or model fail. With correlated errors the result is the oracle's value, or infinite on degeneracy. Otherwise it is infinite exactly when a TOA error is zero, and else the chi-squared of the time residuals. |
| ToaResidualsState.Chi2Of | src/pint/residuals.py:107-113 | A cached value is returned with the object unchanged. Otherwise `calc_chi2` runs, succeeding exactly when it does, and its value is stored in the cache. |
| ToaResidualsState.Chi2ReadTwice | src/pint/residuals.py:107-113 | Reading `chi2` twice gives the first read's value and object. |
| ToaResidualsState.Chi2CacheIsStale | src/pint/residuals.py:107-113 | A cached chi-squared is returned even after the TOAs or model are swapped without `update()`. |
| ToaResidualsState.GetDof | src/pint/residuals.py:284-294 | Defined exactly when TOAs and model are present, where it equals ntoas − #unfrozen parameters − 1. |
| ToaResidualsState.ReducedChi2 | src/pint/residuals.py:296-298 | A fresh `calc_chi2` divided by a fresh `get_dof`, passing on the first error. It fails with division by zero exactly when chi-squared is infinite and dof is 0. |
| ToaResidualsState.ReducedChi2IgnoresCache | src/pint/residuals.py:296-298 | The reduced chi-squared does not depend on the cached chi-squared. |
| ToaResidualsState.Chi2Reduced | src/pint/residuals.py:103-113 | The `chi2` read, then the stored `dof`. A failed read leaves the object unchanged. After a successful read the object holds the cached value even when dof is missing or the division fails, and the result is the cached value divided by dof. |
| ToaResidualsState.Chi2ReducedLeavesCache | src/pint/residuals.py:103-113 | After `chi2_reduced`, whatever its outcome, the next `chi2` read is served from the cache. |
| ToaResidualsState.Update | src/pint/residuals.py:300-313 | Without TOAs, or with TOAs and no model, it raises the matching error after clearing the residuals. With both, it succeeds exactly when the residuals can be computed. Success leaves the cache empty, dof recomputed, the fresh residuals in place, time matching phase, and settings unchanged. |
| ToaResidualsState.UpdateIdempotent | src/pint/residuals.py:300-313 | Updating twice is the same as updating once. |
| ToaResidualsState.Chi2AfterUpdate | src/pint/residuals.py:300-313 | After a successful `update()`, reading `chi2` recomputes it from the new residuals. |
| ToaResidualsState.RmsInputs | src/pint/residuals.py:124-133 | A zero TOA error is refused. Otherwise the inputs to `weighted_mean` are the time residuals and the weights 1/e², with e in seconds. |
| WidebandDm.FlagIndices | src/pint/residuals.py:485-486 | The valid-index list of a flag: strictly increasing, exactly the TOAs that carry the flag. |
| WidebandDm.FlagValues | src/pint/residuals.py:491-492 | The flag values at the valid indices, in order. |
| WidebandDm.GetDmData | src/pint/residuals.py:470-496 | Fails when no TOA has `pp_dm`, then when none has `pp_dme`, then when the two counts differ. Success gives equal-length nonempty DM values and errors taken from the flags. |
| WidebandDm.AllFlagged | src/pint/residuals.py:485-496 | When every TOA carries both flags, the DM data and errors are the flag values, one per TOA. |
| WidebandDm.NewDmResiduals | src/pint/residuals.py:386-407 | A missing model or TOAs fail. Otherwise it succeeds exactly when `get_dm_data` does, with that error otherwise. It keeps the model's DM values and an empty cache. |
| WidebandDm.UpdateModel | src/pint/residuals.py:498-507 | The object holds the new model and keeps its invariant. The model DM, the DM data and errors, the cached chi-squared, the TOAs, the unit and the mean settings are all kept. |
| WidebandDm.RawDmResids | src/pint/residuals.py:431-432 | Each raw residual plus the subtracted model value is the measured value. |
| WidebandDm.CalcDmResids | src/pint/residuals.py:431-448 | A length mismatch fails, and so does a zero error on the weighted path. The residuals are in the object's unit: the flag value less the unit factor times the model DM. Their differences are kept: unchanged without mean subtraction, sum 0 with the plain mean, Σ rᵢ/eᵢ² = 0 with the weighted mean. |
| WidebandDm.DmMeanVariants | tests/test_residuals.py:53-69 | The weighted variant is the raw residuals less Σrw/Σw, and the plain variant is them less their mean. |
| WidebandDm.UpdateModelKeepsResids | src/pint/residuals.py:504-507 | `update_model` leaves the residuals as they were, because it rebinds `model_func` and not the function `calc_resids` calls. |
| WidebandDm.DmChi2CacheIsStale | src/pint/residuals.py:423-429 | A chi-squared cached before `update_model` is what the next `chi2` read returns. |
| WidebandDm.DmResidsValue | src/pint/residuals.py:413-417 | `resids_value` is `calc_resids` with no further scaling, because the residuals already carry the object's unit. It succeeds exactly when the DM data and model DM have equal lengths and the weighted mean has no zero error to divide by. It gives one value per DM measurement. Without mean subtraction each value is v − k·m. With it, any two values still differ as their v − k·m do. |
| WidebandDm.DefaultUnitResids | src/pint/residuals.py:391-433 | Under the default unit, pc cm⁻³, each unsubtracted residual plus the model DM is the flag value. |
| WidebandDm.UnitResids | src/pint/residuals.py:431-433 | Under any unit, each unsubtracted residual is the flag value less the unit factor times the model DM in pc cm⁻³. |
| WidebandDm.DmChi2For | src/pint/residuals.py:450-457 | Infinite exactly when a DM error is zero. Otherwise a length mismatch fails, and success is Σ((v − k·m)/e)², the chi-squared of the unit-labelled residuals against the unit-labelled errors. |
| WidebandDm.DmChi2Of | src/pint/residuals.py:423-429 | A cached value is returned unchanged. Otherwise the value is computed and stored. |
| WidebandDm.DmChi2ReadTwice | src/pint/residuals.py:423-429 | Reading `chi2` twice gives the first read's value and object. |
| WidebandDm.DmRmsInputs | src/pint/residuals.py:459-468 | A zero DM error is refused. Otherwise the inputs are the DM residuals and weights 1/e². |
| EcorrAveraging.Uncertainties | src/pint/residuals.py:350-353 | One uncertainty per TOA: with the noise model, the noise-scaled uncertainty; without it, the raw TOA error. |
| EcorrAveraging.TimingWeights | src/pint/residuals.py:357 | The weights 1/err², which are positive and one per TOA. |
| EcorrAveraging.EcorrAverage | src/pint/residuals.py:315-379 | A missing model fails, and so does a model without an ECORR component, checked before anything else. Otherwise it succeeds exactly when TOAs and time residuals are present. Every averaged vector has one entry per epoch, and noise residuals keep their keys. `indices[c]` is strictly increasing and holds exactly the rows where column c is nonzero. |
| EcorrAveraging.EpochMeanInHull | src/pint/residuals.py:360-361 | For a non-negative column, the epoch average exists exactly when the column has a member. It then lies between any bounds that hold for every member. |
| EcorrAveraging.EpochAverageInHull | src/pint/residuals.py:363-367 | Every epoch-averaged time residual lies between any bounds on that epoch's member residuals, and exists exactly when the epoch has members. |
| EcorrAveraging.SingleMemberEpoch | src/pint/residuals.py:358-361 | A 0/1 column with one member has a_norm equal to that TOA's weight, and averages to that TOA's value. |
| EcorrAveraging.SingleTOAEpoch | src/pint/residuals.py:365-367 | An epoch holding a single TOA averages to that TOA's residual and MJD. |
| EcorrAveraging.SingleTOAEpochVariance | src/pint/residuals.py:350-374 | Without the noise model, an epoch holding a single TOA has as its variance that TOA's squared error in seconds. |
| EcorrAveraging.SingleMemberVariance | src/pint/residuals.py:358-374 | A single-member epoch with zero ECORR variance has variance 1/w of its member. |
| EcorrAveraging.Precisions | src/pint/residuals.py:372 | One precision per epoch: the reciprocal of the epoch's variance, and 0 for an epoch without one. |
| EcorrAveraging.ColumnsAndRowsSumAlike | src/pint/residuals.py:358 | Summing a matrix column by column gives the same total as summing it row by row. |
| EcorrAveraging.EpochPrecisionsConserveWeight | src/pint/residuals.py:357-372 | With zero ECORR variance and every TOA in exactly one epoch, the epoch precisions 1/(1/a_norm) add up to the total TOA weight Σ 1/err². |
| EcorrAveraging.EcorrAverageConservesWeight | src/pint/residuals.py:350-372 | Without the noise model and with every TOA in exactly one epoch, the averaged errors' precisions add up to Σ 1/err² of the TOA errors in seconds. |
| OrderedDicts.Insert | src/pint/residuals.py:561 | Keys stay distinct. A new key goes at the end, and an existing key keeps its place and takes the new value. |
| OrderedDicts.OrderedDictOf | src/pint/residuals.py:561 | `OrderedDict(pairs)` has distinct keys, exactly the keys of the pairs. Each key carries the value of its last pair and sits at the position of its first occurrence. |
| OrderedDicts.DistinctPairsKept | src/pint/residuals.py:557-561 | Pairs with distinct keys make a dictionary equal to the pairs. |
| OrderedDicts.SameKeyKeepsLast | src/pint/residuals.py:557-561 | Two pairs with one key make a one-entry dictionary holding the second. |
| OrderedDicts.KeysInFirstOrder | src/pint/residuals.py:561 | The dictionary's keys are the keys of the pairs, each once, in the order they first occur. |
| OrderedDicts.EmptyExactlyWithoutPairs | src/pint/residuals.py:555-561 | The dictionary is empty exactly when no pairs are given. |
| ResidualFactory.Lower | src/pint/residuals.py:44 | Lower-casing keeps the length and leaves no ASCII capital. A character changes exactly when it is a capital, and then to its own small letter. |
| ResidualFactory.LowerIdempotent | src/pint/residuals.py:44 | Lower-casing twice is lower-casing once. |
| ResidualFactory.KindOf | src/pint/residuals.py:42-51 | `residual_map` selects TOA residuals exactly for "toa" and DM residuals exactly for "dm", after lower-casing, and nothing for any other type. |
| ResidualFactory.NewResiduals | src/pint/residuals.py:31-53 | An unsupported type fails before anything is read. A `track_mode` given for DM residuals is rejected. On success the object is TOA residuals exactly for "toa" and DM residuals exactly for "dm", built by that class's constructor. |
| ResidualFactory.NewToa | src/pint/residuals.py:55-88 | The TOA constructor with its defaults (unit 1, `nearest`, scaled by F0). Success yields a valid object that keeps the given settings, with `TRACK` overriding the track mode. |
| ResidualFactory.NewDm | src/pint/residuals.py:386-407 | The DM constructor with its defaults (unit 1, not scaled by F0). Success yields a valid object that keeps the given settings. |
| ResidualFactory.DispatchIgnoresCase | src/pint/residuals.py:44 | Two spellings of a type that lower-case alike succeed or fail alike and select the same class. |
| ResidualFactory.UnsupportedAlwaysFails | src/pint/residuals.py:46-51 | A type that is neither "toa" nor "dm" after lower-casing is refused, whatever the data. |
| Combined.Chi2OfAny | src/pint/residuals.py:548 | Reading an object's `chi2` property through its class's cache keeps the object valid and of the same type. |
| Combined.Chi2OfAnyReadTwice | src/pint/residuals.py:548 | A second `chi2` read of an object repeats the first. |
| Combined.ConcatResults | src/pint/residuals.py:535-538 | The concatenation step of `resids`: it succeeds exactly when every result does, and otherwise fails with the error of the first failing result. A one-element list gives that result. |
| Combined.ConcatResultsAppend | src/pint/residuals.py:535-538 | Concatenating the results of two lists in turn equals concatenating the whole. |
| Combined.CombinedResids | src/pint/residuals.py:531-538 | An empty list fails: `np.hstack` has nothing to concatenate. Otherwise it succeeds exactly when every object's `resids_value` does, and fails with the first failing object's error. One object gives exactly its own residuals. |
| Combined.CombinedResidsAppend | src/pint/residuals.py:531-538 | Joining two non-empty lists joins their combined residuals, so lengths add. An empty part leaves the other's result unchanged. |
| Combined.CombinedLength | tests/test_residuals.py:71-77 | A TOA and a DM object with one residual per TOA combine to 2·ntoas residuals. |
| Combined.CombinedChi2 | src/pint/residuals.py:544-549 | Succeeds exactly when every object's `chi2` does, and otherwise fails with the first failing object's error. It is infinite exactly when some object's chi-squared is. Each object before the first failure is left as its own read leaves it, and the failing object and those after it are untouched. |
| Combined.FoldOutcome | src/pint/residuals.py:544-549 | The summing loop succeeds exactly when every read does, and otherwise fails with the first failing read's error. |
| Combined.FoldObjects | src/pint/residuals.py:544-549 | After the loop, each object is its read's result if the loop reached it and the read succeeded, and is unchanged otherwise. |
| Combined.FoldInfinite | src/pint/residuals.py:544-549 | A successful loop is infinite exactly when some read's value is. |
| Combined.FoldAppendTotal | src/pint/residuals.py:544-549 | The total over two lists joined is the first failure of either part, or the sum of the two totals. |
| Combined.FoldAppendObjects | src/pint/residuals.py:544-549 | The objects after the loop over two joined lists are those of the first part, followed by those of the second part if the first part succeeded and by the untouched second part otherwise. |
| Combined.FoldReadTwice | src/pint/residuals.py:544-549 | Re-reading objects that a successful loop left, where each read repeats its first value, gives the same total and objects. |
| Combined.CombinedChi2Append | src/pint/residuals.py:544-549 | The combined chi-squared of two lists joined is their sum, the first failure winning. A failure in the first list leaves the second list's objects untouched. |
| Combined.Chi2OfPair | tests/test_residuals.py:80 | The combined chi-squared of a TOA and a DM object is the sum of their `chi2` values. |
| Combined.CombinedChi2ReadTwice | src/pint/residuals.py:544-549 | Reading the combined chi-squared again, from the objects a successful first read left, gives the same value and objects. |
| Combined.PlusAssociative | src/pint/residuals.py:546-548 | Chi-squared addition is associative, with infinity absorbing. |
| Combined.ErrorPairs | src/pint/residuals.py:558-560 | One (residual type, data error) pair per object, in list order, defined exactly when every object has data errors. |
| Combined.GetDataError | src/pint/residuals.py:557-561 | The ordered dictionary built from those pairs. |
| Combined.CombinedDataError | src/pint/residuals.py:551-561 | An empty list fails: `np.hstack` has nothing to concatenate. Otherwise it succeeds exactly when every object has data errors, and fails as a missing-input error otherwise. A success is the dictionary's error vectors joined in dictionary order. Equivalently, over the residual types in the order they first occur, it holds the errors of the last object of each type. |
| Combined.DataErrorByType | src/pint/residuals.py:551-561 | For any non-empty list whose objects all have data errors, `data_error` is the last object's errors for each type, in first-occurrence order of the types. A type that recurs keeps its first place but takes its last object's errors. |
| Combined.FlattenByType | src/pint/residuals.py:555 | Joining a dictionary's values, when each entry is the last pair of its type, gives the last object's errors type by type. |
| Combined.DistinctTypesDataError | src/pint/residuals.py:551-561 | A non-empty list of objects of distinct types gives their data errors concatenated in list order. |
| Combined.FlattenPairs | src/pint/residuals.py:555 | Flattening the pairs in order is the objects' errors concatenated. |
| Combined.SameTypeKeepsLast | src/pint/residuals.py:557-561 | Two objects of the same type contribute only the second one's errors. |
| Combined.CombinedRmsInputs | src/pint/residuals.py:563-572 | Refuses a zero combined data error, and passes on the error of a failed `data_error` read. Otherwise the inputs are the combined residuals and the weights 1/e². |

## Left out

- Floating point: the model uses exact reals. float128 precision, rounding in `Phase` and numpy's summation order are not modelled.
- Astropy units: every unit conversion is multiplication by a positive constant. This covers `resids_value`, `to(u.s)`, `.value` and `.decompose()`. The `try`/`except` fallbacks at src/pint/residuals.py:273-282 and 454-457 return the same number and are not separate paths.
- `src/pint/phase.py` is not part of this model. `Phase` is a (cycles, fraction) pair with the fraction in [-0.5, 0.5).
- `pint.utils.weighted_mean` is not part of this model. The weighted mean is Σ x·w / Σ w, and the `rms_weighted` methods stop at the zero-error guard and the inputs they pass to `weighted_mean`. The standard deviation itself needs a square root.
- EcorrAveraging.EcorrAverage: the `errors` entry is stated as a variance, 1/a_norm + ecorr_err2, without the square root.
- The GLS fitter and `LinAlgError` are an oracle from (time residuals, `full_cov`) to a value or "degenerate". Its internals are a foreign library.
- Timing-model internals are inputs: `model.phase`, `dm_value`, `scaled_toa_uncertainty` and `ecorr_basis_weight_pair`.
- `get_PSR_freq(modelF0=False)` (src/pint/residuals.py:224) is left out. It calls `d_phase_d_toa` of the timing model, and every caller uses the default.
- The F0 unit comparison at src/pint/residuals.py:204-205 builds a `ValueError` without raising it, so its outcome has no effect and is not modelled. Reading `F0` for it does fail when the model has no `F0`, and that failure is modelled.
- A zero spin frequency is excluded by `TimingModel.FitsToas`. `calc_time_resids` would divide by zero and produce infinite or NaN residuals.
- EcorrAveraging.EcorrAverage: requires every uncertainty used for the weights to be nonzero. With a zero uncertainty `ecorr_average` computes non-finite weights.
- Writing the zero `delta_pulse_number` column back into the TOA table (src/pint/residuals.py:144) is not modelled. The column is read as zeros.
- Resids: when the residuals are recomputed because none are held, `resids` also stores them on the object (src/pint/residuals.py:96). The model returns them without storing them; storing them would change no later `resids` read.
- WidebandDm.NewDmResiduals: timing models and TOA tables are values here. `WidebandDMResiduals` keeps the bound method `model.dm_value` (src/pint/residuals.py:404) and calls it on every `calc_resids` (src/pint/residuals.py:432), so changing that model object in place would change later DM residuals. The model binds the DM values once, at construction, and in-place changes to a shared model or TOA object are not modelled.
- Numpy broadcasting: DM data whose length differs from the model's DM values fails with a shape error. Broadcasting of length-1 arrays is not modelled.
- Keyword arguments only. Positional calls to the constructors are not modelled.
- Logging (the warning at src/pint/residuals.py:253-256) is not modelled.
- `CombinedResiduals.unit` (src/pint/residuals.py:540-542) returns a list of astropy units, which have no counterpart here.
- The `TOAResiduals` methods a `WidebandDMResiduals` object inherits but never sets up for (`calc_phase_resids`, `update`, `ecorr_average`, `get_dof` on DM objects) are not modelled. DM objects have no phase residuals or `dof`.
- `str.lower()` is modelled on ASCII letters only.
- The `full_cov` argument of `calc_chi2` only reaches the GLS oracle. The `chi2` property always passes `False`.
