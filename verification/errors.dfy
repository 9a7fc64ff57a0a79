/** The exceptions the residual engine raises, as one closed set of values. */
module Errors {

  datatype Error =
    /** `ValueError`: the requested residual type is not a key of the residual map. */
    | UnsupportedResidualType(name: string)
    /** `ValueError`: pulse-number tracking asked for, but the TOAs carry no pulse numbers. */
    | MissingPulseNumbers
    /** `ValueError`: a TOA error is zero on the weighted-mean path. */
    | ZeroToaErrors
    /** `ValueError`: a DM error is zero on the weighted-mean path. */
    | ZeroDmErrors
    /** `AttributeError`: the model has no `F0` parameter to read the units of. */
    | MissingF0
    /** `ValueError`: neither `F0` nor `nu` is a model parameter. */
    | NoSpinFrequency
    /** `ValueError`: both `F0` and `nu` are model parameters. */
    | AmbiguousSpinFrequency
    /** `ValueError`: the noise model has no `ecorr_noise` component. */
    | NoEcorrComponent
    /** `ValueError`: `update()` with no TOAs attached. */
    | NoToasForUpdate
    /** `ValueError`: `update()` with no model attached. */
    | NoModelForUpdate
    /** `ValueError`: no TOA carries the `pp_dm` flag. */
    | NoWidebandDm
    /** `ValueError`: no TOA carries the `pp_dme` flag. */
    | NoWidebandDmErrors
    /** `ValueError`: different numbers of `pp_dm` and `pp_dme` flags. */
    | DmCountMismatch
    /** `ValueError`: a zero error where a weighted RMS is requested. */
    | ZeroErrorsForRms
    /** `AttributeError`/`TypeError`: an absent TOA set, model or residual vector is used. */
    | MissingInput
    /** `IndexError`: the first TOA of an empty TOA set is used as phase reference. */
    | EmptyToas
    /** `TypeError`: a keyword argument the chosen constructor does not take. */
    | UnexpectedArgument(name: string)
    /** `ZeroDivisionError`: the Python float `inf` divided by the integer 0. */
    | DivisionByZero
    /** `ValueError`: `np.hstack` of an empty list has nothing to concatenate. */
    | NothingToConcatenate
    /** numpy broadcast error: arrays of different lengths combined elementwise. */
    | ShapeMismatch
}
