/**
 * `convolve_hrf`: convolve every condition column of a high-resolution
 * stimulus function with an HRF, keep a whole number of TRs, take the
 * sample at the middle of each TR window, and optionally divide each
 * column by its peak.
 */
module Signal {
  import opened Wrappers
  import opened Series
  import opened Convolution
  import opened Hrf
  import opened Matrices
  import opened Resampling

  /** Why a call produces no signal. */
  datatype Failure =
    | ZeroStride       // fewer than one sample per TR: `rows / stride` divides by zero
    | NoConditions     // no columns: the output array is never created
    | EmptyOperand     // numpy refuses to convolve an empty stimulus or HRF
    | EmptySignal      // scaling takes the maximum of zero TRs
    | ZeroPeak         // scaling divides by a zero peak (non-finite values)
    | LoggerUndefined  // the shape warning refers to an undefined logger

  /** The HRF to use: the built-in double gamma or an explicit list. */
  datatype HrfType = DoubleGamma | Explicit(hrf: seq<real>)

  /** Divide by the peak, `v / np.max(v)`. */
  function Normalize(v: seq<real>): (r: Result<seq<real>, Failure>)
    ensures r.Ok? <==> |v| >= 1 && Max(v) != 0.0
    ensures |v| == 0 ==> r == Err(EmptySignal)
    ensures |v| >= 1 && Max(v) == 0.0 ==> r == Err(ZeroPeak)
    ensures r.Ok? ==> r.value == Divide(v, Max(v))
  {
    if |v| == 0 then Err(EmptySignal)
    else
      var m := Max(v);
      if m == 0.0 then Err(ZeroPeak)
      else
        Ok(Divide(v, m))
  }

  /**
   * After scaling, every entry equal to the old peak is exactly 1; when the
   * peak is positive no entry exceeds 1 and the new peak is 1. An all-negative
   * column instead ends up with every entry at least 1.
   */
  lemma NormalizePeak(v: seq<real>)
    requires |v| >= 1 && Max(v) != 0.0
    ensures forall i :: 0 <= i < |v| && v[i] == Max(v) ==> Normalize(v).value[i] == 1.0
    ensures Max(v) > 0.0 ==> forall i :: 0 <= i < |v| ==> Normalize(v).value[i] <= 1.0
    ensures Max(v) > 0.0 ==> Max(Normalize(v).value) == 1.0
    ensures Max(v) < 0.0 ==> forall i :: 0 <= i < |v| ==> Normalize(v).value[i] >= 1.0
  {
    DividePeak(v, Divide(v, Max(v)), Max(v));
  }

  /** One output column: down-sample, then scale when asked to. */
  function ColumnSignal(x: seq<real>, h: seq<real>, stride: nat, scale: bool): (r: Result<seq<real>, Failure>)
    requires stride >= 1 && |x| >= 1 && |h| >= 1
    ensures !scale ==> r == Ok(Resample(x, h, stride))
    ensures scale ==> r == Normalize(Resample(x, h, stride))
    ensures r.Ok? ==> |r.value| == Duration(|x|, stride)
  {
    var v := Resample(x, h, stride);
    if scale then Normalize(v) else Ok(v)
  }

  /**
   * Every column's outcome, in column order. Unscaled, no column can fail;
   * scaled, a column fails only on an empty or zero-peaked signal; every
   * column that succeeds has one entry per whole TR.
   */
  function ColumnSignals(stim: Matrix, h: seq<real>, stride: nat, scale: bool): (rs: seq<Result<seq<real>, Failure>>)
    requires stim.Valid() && stride >= 1 && |h| >= 1 && stim.rows >= 1
    ensures |rs| == stim.cols
    ensures forall c :: 0 <= c < stim.cols ==> rs[c] == ColumnSignal(Column(stim, c), h, stride, scale)
    ensures !scale ==> forall c :: 0 <= c < |rs| ==> rs[c].Ok?
    ensures forall c :: 0 <= c < |rs| && rs[c].Err? ==> rs[c].error == EmptySignal || rs[c].error == ZeroPeak
    ensures forall c :: 0 <= c < |rs| && rs[c].Ok? ==> |rs[c].value| == Duration(stim.rows, stride)
  {
    seq(stim.cols, c requires 0 <= c < stim.cols => ColumnSignal(Column(stim, c), h, stride, scale))
  }

  /**
   * The convolution pipeline for a given HRF and stride: the checks in the
   * order the code trips over them, then one column at a time.
   */
  function ConvolveCore(stim: Matrix, h: seq<real>, stride: nat, scale: bool): (r: Result<Matrix, Failure>)
    requires stim.Valid()
    ensures r.Ok? ==>
      && stride >= 1
      && r.value.Valid()
      && r.value.rows == stim.rows / stride
      && r.value.cols == stim.cols
  {
    if stride == 0 then Err(ZeroStride)
    else if stim.cols == 0 then Err(NoConditions)
    else if |h| == 0 || stim.rows == 0 then Err(EmptyOperand)
    else
      var rs := ColumnSignals(stim, h, stride, scale);
      match Collect(rs)
      case Err(e) => Err(e)
      case Ok(vs) =>
        assert forall c :: 0 <= c < |vs| ==> |vs[c]| == Duration(stim.rows, stride) by {
          forall c | 0 <= c < |vs| ensures |vs[c]| == Duration(stim.rows, stride) {
            assert rs[c].Ok? && vs[c] == rs[c].value;
          }
        }
        Ok(FromColumns(Duration(stim.rows, stride), vs))
  }

  /** The HRF selected by `hrf_type`. */
  function HrfOf(hrfType: HrfType, temporalResolution: real, tx: Transcendentals): (h: seq<real>)
    ensures hrfType.Explicit? ==> h == hrfType.hrf
    ensures hrfType == DoubleGamma ==> |h| == HrfLength(temporalResolution)
    ensures hrfType == DoubleGamma && |h| >= 1 ==> h[|h| - 1] == 0.0
  {
    match hrfType
    case DoubleGamma =>
      DefaultParamsNonDegenerate();
      DoubleGammaHrf(DefaultParams, temporalResolution, tx)
    case Explicit(h) => h
  }

  /**
   * `convolve_hrf` with the shape warning treated as a warning: it never
   * changes the result.
   */
  function ConvolveHrf(stim: Matrix, trDuration: real, hrfType: HrfType, scale: bool,
                       temporalResolution: real, tx: Transcendentals): (r: Result<Matrix, Failure>)
    requires stim.Valid() && temporalResolution > 0.0 && trDuration > 0.0
    ensures r.Ok? ==>
      && Stride(temporalResolution, trDuration) >= 1
      && r.value.Valid()
      && r.value.rows == stim.rows / Stride(temporalResolution, trDuration)
      && r.value.cols == stim.cols
  {
    ConvolveCore(stim, HrfOf(hrfType, temporalResolution, tx), Stride(temporalResolution, trDuration), scale)
  }

  /**
   * `convolve_hrf` as written: when there are fewer rows than columns the
   * warning call names a `logger` the module never defines.
   */
  function ConvolveHrfAsWritten(stim: Matrix, trDuration: real, hrfType: HrfType, scale: bool,
                                temporalResolution: real, tx: Transcendentals): (r: Result<Matrix, Failure>)
    requires stim.Valid() && temporalResolution > 0.0 && trDuration > 0.0
    ensures stim.rows < stim.cols ==> r == Err(LoggerUndefined)
    ensures stim.rows >= stim.cols ==> r == ConvolveHrf(stim, trDuration, hrfType, scale, temporalResolution, tx)
  {
    if stim.rows < stim.cols then Err(LoggerUndefined)
    else ConvolveHrf(stim, trDuration, hrfType, scale, temporalResolution, tx)
  }
}
