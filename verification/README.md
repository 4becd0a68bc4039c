# Double-gamma HRF convolution, modelled in Dafny

This project models `brainiak_utils.py`, the whole logic of a small fMRI
tool. It has two pure functions:

- `_double_gamma_hrf` samples the canonical haemodynamic response function
  (HRF): a gamma-shaped rise minus a later gamma-shaped undershoot, after
  Glover (1999). It covers 30 seconds at `temporal_resolution` samples per
  second.
- `convolve_hrf` turns a stimulus function (high-resolution timepoints ×
  conditions) into a signal function with one row per TR (repetition time).
  Each condition column is convolved with the HRF and cut to a whole number
  of TRs. The sample at the middle of each TR window is kept. When asked,
  the column is then divided by its peak.

Floating-point values are Dafny `real`s. The transcendental functions
`math.pow` and `math.exp` are a parameter, `Hrf.Transcendentals`. The HRF
formula is written out in terms of them as the code has it, each part a
weight times a shape (`Hrf.RiseShape`, `Hrf.DipShape`). That
includes the undershoot exponent `-(t - peak / dispersion)`, whose brackets
differ from the rise's `-(t - peak) / dispersion` and from Glover's
formula. The model keeps it as written; `Hrf.ExponentBrackets` proves the
two forms agree only at t = 0 or a unit dispersion.

Python's `int()` on a float is modelled as exact truncation toward zero
(`Hrf.Trunc`). The stride `int(temporal_resolution * tr_duration)` and the
HRF length `int(30 * temporal_resolution)` are computed from it.

The failures of `convolve_hrf` are values of `Signal.Failure`, and
`Wrappers.Collect` reports the first one in column order:

- `ZeroStride`: fewer than one sample per TR, so `rows / stride` divides by zero.
- `NoConditions`: no columns, so the output array is never bound.
- `EmptyOperand`: `np.convolve` refuses an empty stimulus or an empty HRF.
- `EmptySignal`: scaling takes `np.max` of zero TRs.
- `ZeroPeak`: scaling divides by a zero peak.
- `LoggerUndefined`: see Findings.

Modules: `Hrf` (hrf.dfy) is `_double_gamma_hrf`. `Convolution` is the
semantics of `np.convolve`. `Resampling` holds stride, duration, truncation
and midpoint slicing. `Series` holds per-column helpers: scaling, maximum,
Python's extended slice. `Matrices` holds column extraction and assembly.
`Signal` is `convolve_hrf`. `SignalProperties` holds the promises about the
output.

The pipeline `Signal.ColumnSignal` uses `Resampling.Resample`, the closed
form "entry k is convolution sample `stride/2 + k*stride`".
`Resampling.TruncateAndSlice` does what lines 144-145 do, a prefix and then
an extended slice, and is proved equal to it.

Three places where the code does something other than what its own
comments or a reader would expect. The model follows the code each time:

- A zero delay or dispersion makes `response_peak` or `undershoot_peak`
  zero (brainiak_utils.py:45-46), or makes `response_dispersion` itself zero.
  The divisions at brainiak_utils.py:51-64 then raise `ZeroDivisionError`, so
  `Hrf.NonDegenerate` is a precondition whenever the loop runs.
- The comment at brainiak_utils.py:147 promises a peak response of 1. The
  code divides by the signed `np.max`. When the maximum is positive the new
  peak is exactly 1. When it is negative, every entry becomes at least 1, so
  the peak exceeds 1 unless all entries are equal
  (`SignalProperties.ScaledPeaks`, `Signal.NormalizePeak`).
- The shape check at brainiak_utils.py:118-119 is meant as a warning but
  raises (see Findings).

## Model

| member | source | states |
|---|---|---|
| Hrf.Trunc | brainiak_utils.py:42 | `int()` truncates toward zero: the result is within 1 of the input, on the side of 0 |
| Hrf.HrfLength | brainiak_utils.py:39-42 | the HRF list has `int(30 * temporal_resolution)` entries, and none when that count is below 1 |
| Hrf.DoubleGammaHrf | brainiak_utils.py:39-71 | the HRF has floor(30 × resolution) samples (empty below one), and its last sample is 0 |
| Hrf.Response | brainiak_utils.py:51-57 | a zero `response_scale` switches the rise off: it is 0 at every sample |
| Hrf.Undershoot | brainiak_utils.py:59-66 | a zero `undershoot_scale` switches the undershoot off: it is 0 at every sample |
| Hrf.Sample | brainiak_utils.py:51-69 | with a zero undershoot weight the sample is the rise alone, and with a zero rise weight it is the negated undershoot (that it is what the loop writes at index i is `Hrf.FillHrf`'s contract) |
| Hrf.ResponseScaled | brainiak_utils.py:51-57 | the rise is `response_scale` times the unit-weight rise, whatever the undershoot weight |
| Hrf.UndershootScaled | brainiak_utils.py:59-66 | the undershoot is `undershoot_scale` times the unit-weight undershoot, whatever the rise weight |
| Hrf.ExponentBrackets | brainiak_utils.py:53-64 | the rise-style exponent `-(t - peak) / dispersion` equals the undershoot's `-(t - peak / dispersion)` exactly when t = 0 or the dispersion is 1, so at the default 0.9 every sample after the first departs from the rise-style form |
| Hrf.FillHrf | brainiak_utils.py:42-71 | the fill loop leaves a list of the HRF length, every index but the last holding response minus undershoot at `i / temporal_resolution`, and the last index still 0 |
| Hrf.DefaultParamsNonDegenerate | brainiak_utils.py:4-11 | the default parameters never divide by zero in the formula |
| Hrf.DefaultHrfLength | brainiak_utils.py:10 | at the default 100 samples per second the HRF has 3000 samples |
| Convolution.Conv | brainiak_utils.py:138 | the full convolution has `rows + len(hrf) - 1` samples |
| Convolution.ConvolveScatter | brainiak_utils.py:138 | scattering each input sample's weighted kernel copy gives the same samples as the sum of `x[k] * h[n - k]` over valid k |
| Convolution.PartialConvScale | brainiak_utils.py:138 | every partial convolution sum is homogeneous in the input |
| Convolution.PartialConvAdd | brainiak_utils.py:138 | every partial convolution sum is additive in the input |
| Convolution.ConvScale | brainiak_utils.py:138 | convolving `a * x` gives `a` times the convolution of x |
| Convolution.ConvAdd | brainiak_utils.py:138 | convolving `x + y` gives the sum of the two convolutions |
| Convolution.PartialConvCausal | brainiak_utils.py:138 | input samples after n do not contribute to convolution sample n |
| Convolution.ConvUnitImpulse | brainiak_utils.py:138 | convolving with the one-sample HRF `[1]` returns the input |
| Resampling.Stride | brainiak_utils.py:122 | the stride is the whole number of samples per TR: at most the product and within 1 of it |
| Resampling.Duration | brainiak_utils.py:123 | `int(rows / stride)` is integer division, so `duration * stride <= rows < (duration + 1) * stride` |
| Resampling.FloorDivision | brainiak_utils.py:123 | the float quotient `rows / stride` lies in `[rows // stride, rows // stride + 1)` |
| Resampling.MidpointInWindow | brainiak_utils.py:145 | the sample `stride/2 + k*stride` lies inside TR window k and before the cut at `duration * stride` |
| Resampling.Resample | brainiak_utils.py:144-145 | the down-sampled column has exactly `duration` entries |
| Resampling.TruncateAndSlice | brainiak_utils.py:144-145 | truncation keeps exactly `duration * stride` samples, and the slice `[stride/2::stride]` gives `duration` entries, entry k being convolution sample `stride/2 + k*stride` |
| Resampling.MidpointSamples | brainiak_utils.py:145 | slicing d whole windows from offset `stride/2` yields d entries, entry k from the middle of window k |
| Resampling.MidpointCount | brainiak_utils.py:145 | the slice from offset `stride/2` of `d * stride` samples has exactly d entries |
| Series.StrideSlice | brainiak_utils.py:145 | Python's `s[start::step]` contains exactly the elements at indices `start + k*step` below `len(s)`, in order |
| Series.Max | brainiak_utils.py:149 | `np.max` is an entry of the column and no entry exceeds it |
| Series.Divide | brainiak_utils.py:149 | dividing by a non-zero peak keeps the length, and multiplying each entry back by the peak recovers the input |
| Series.DividePeak | brainiak_utils.py:147-149 | after dividing by the peak, entries at the peak are exactly 1; a positive peak leaves all entries at most 1 and makes the new maximum 1; a negative peak leaves all entries at least 1 |
| Signal.Normalize | brainiak_utils.py:147-149 | scaling succeeds exactly when the column is non-empty with a non-zero peak, fails with EmptySignal or ZeroPeak otherwise, and divides every entry by the peak |
| Signal.NormalizePeak | brainiak_utils.py:147-149 | after scaling, the arg-max entries are exactly 1; for a positive peak every entry is at most 1 and the maximum is 1 |
| Signal.ColumnSignal | brainiak_utils.py:138-149 | one output column is the down-sampled convolution, scaled only when scaling is on, with `duration` entries |
| Signal.ColumnSignals | brainiak_utils.py:135-149 | column c's outcome comes from stimulus column c alone; unscaled, no column fails; scaled, a column fails only with EmptySignal or ZeroPeak; every successful column has `rows // stride` entries |
| Wrappers.Collect | brainiak_utils.py:135-155 | the loop over columns succeeds exactly when every column does, keeps each column's value in place, and otherwise reports the first failing column's failure |
| Matrices.Column | brainiak_utils.py:138 | the slice `stimfunction[:, c]` has one entry per row, entry r being cell (r, c) |
| Matrices.FromColumns | brainiak_utils.py:152-155 | the assembled output has `duration` rows and one column per condition, and column c is the c-th signal column |
| Matrices.FromColumnsColumns | brainiak_utils.py:138 | splitting a matrix into its column slices and reassembling them gives the matrix back |
| Signal.ConvolveCore | brainiak_utils.py:121-157 | a successful call has a positive stride and returns a well-formed matrix with `rows // stride` rows and the input's column count |
| Signal.HrfOf | brainiak_utils.py:125-129 | `'double_gamma'` gives the built-in curve, with `int(30 * temporal_resolution)` samples and a last sample of 0; an explicit list is used as given |
| Signal.ConvolveHrf | brainiak_utils.py:73-157 | a successful `convolve_hrf` has `rows // int(resolution * tr)` rows and as many columns as the stimulus |
| Signal.ConvolveHrfAsWritten | brainiak_utils.py:117-119 | a stimulus with fewer rows than columns fails on the undefined logger; any other stimulus behaves as ConvolveHrf |
| SignalProperties.SignalColumns | brainiak_utils.py:132-155 | output column c is exactly the signal computed from stimulus column c |
| SignalProperties.ConvolveCoreFailures | brainiak_utils.py:122-138 | a zero stride fails first, then a stimulus without columns, then an empty stimulus or HRF |
| SignalProperties.UnscaledSucceeds | brainiak_utils.py:135-157 | without scaling, every input past those checks yields a signal |
| SignalProperties.ShorterThanOneTr | brainiak_utils.py:123-149 | with scaling, a stimulus shorter than one TR fails on the maximum of an empty column |
| SignalProperties.ScaledOutcome | brainiak_utils.py:147-149 | with scaling and at least one TR, the call succeeds exactly when no column peaks at 0, and otherwise fails with ZeroPeak |
| Resampling.DurationPositive | brainiak_utils.py:123 | a stimulus at least one stride long holds at least one whole TR |
| Resampling.ShortDuration | brainiak_utils.py:123 | a stimulus shorter than one stride holds no whole TR |
| SignalProperties.UnscaledMidpoints | brainiak_utils.py:138-145 | unscaled, output row k of column c is convolution sample `stride/2 + k*stride` of column c, which lies in TR window k and before the cut |
| SignalProperties.PeakReachesOne | brainiak_utils.py:147-149 | a scaled column has the input's length, reaches 1 at some entry, and for a positive peak has maximum 1 with no entry above 1 |
| SignalProperties.ScaledPeaks | brainiak_utils.py:147-149 | scaled, every column has an entry exactly 1, and when its unscaled peak is positive, 1 is its maximum and no entry exceeds it |
| SignalProperties.ColumnIndependence | brainiak_utils.py:135-155 | two stimuli that agree on column c produce the same output column c |
| SignalProperties.ResampleScale | brainiak_utils.py:138-145 | down-sampling `a * x` gives `a` times the down-sampled x |
| SignalProperties.ResampleScaleAt | brainiak_utils.py:138-145 | entry k of the down-sampled `a * x` is `a` times entry k of the down-sampled x |
| SignalProperties.ResampleAdd | brainiak_utils.py:138-145 | down-sampling `x + y` gives the sum of the down-sampled columns |
| SignalProperties.UnscaledHomogeneous | brainiak_utils.py:138-155 | unscaled, multiplying stimulus column c by a multiplies output column c by a and leaves the other columns unchanged |
| SignalProperties.UnscaledAdditive | brainiak_utils.py:138-155 | unscaled, adding a second stimulus's column c adds the two output columns |
| SignalProperties.StrideOne | brainiak_utils.py:81-82 | unscaled, with one sample per TR the output has as many rows as the stimulus, and column c is the first `rows` samples of its convolution |
| SignalProperties.OneSamplePerTr | brainiak_utils.py:81-82 | when `temporal_resolution * tr_duration` is 1 the stride is 1 and the output keeps the stimulus's row count |
| SignalProperties.ExplicitMatchesDoubleGamma | brainiak_utils.py:126-129 | an explicit HRF list equal to the built-in curve gives the same result as `'double_gamma'` |
| SignalProperties.WideStimulusRaises | brainiak_utils.py:118-119 | a one-row, two-column stimulus makes the code as written fail on the undefined logger |
| SignalProperties.WideStimulusConvolves | brainiak_utils.py:118-119 | with the warning only a warning, the same stimulus convolved with the impulse HRF at one sample per TR comes back unchanged |

## Findings

| source | as written | input that shows it | evidently intended | confidence | as-written member | corrected member |
|---|---|---|---|---|---|---|
| brainiak_utils.py:118-119 | the shape check calls `logger.warning`, but the module never defines `logger`, so the call raises `NameError` | a stimulus with 1 timepoint and 2 conditions | log a warning and go on convolving | high; not executed | SignalProperties.WideStimulusRaises | SignalProperties.WideStimulusConvolves |

`Signal.ConvolveHrfAsWritten` is the code as written. `Signal.ConvolveHrf`
is the corrected function, in which the warning changes nothing. Every
other property is stated about `ConvolveHrf` and `ConvolveCore`.

## Left out

- The values of `math.pow` and `math.exp` are not modelled. They are the `Transcendentals` parameter, and their domain and overflow errors (`ValueError`, `OverflowError`) are not modelled either.
- Floating-point rounding is not modelled. Reals are exact, so `int(0.29 * 100)` is 29 here and may be 28 in floats. The NaN and infinity values numpy produces are not modelled.
- Signal.Normalize: a zero peak is reported as the failure ZeroPeak. numpy instead returns a column of NaN or infinite values and the loop goes on.
- Hrf.DoubleGammaHrf: requires non-zero delays and dispersions whenever the loop runs, because the code then raises `ZeroDivisionError`. That error path is not modelled as a value.
- Signal.ConvolveHrf: requires `temporal_resolution > 0` and `tr_duration > 0`, as the documentation describes them. A negative stride would make Python slice backwards, and that is not modelled.
- An `hrf_type` that is neither `'double_gamma'` nor a list leaves `hrf` unbound. `Signal.HrfType` cannot express it. A numpy array as `hrf_type` is not modelled.
- The logging side effect of the shape warning is I/O and is not modelled.
- `np.convolve` swaps its operands when the second is longer. Only the resulting sum is modelled, and commutativity is not proved.
- The stimulus is a `Matrices.Matrix` of reals. Other array-likes and numpy dtypes are not modelled.
