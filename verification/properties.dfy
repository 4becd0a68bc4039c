/** What `convolve_hrf` promises about its output, stated over the model. */
module SignalProperties {
  import opened Wrappers
  import opened Series
  import opened Convolution
  import opened Hrf
  import opened Matrices
  import opened Resampling
  import opened Signal

  /** The output is assembled column by column: column c is column c's own signal. */
  lemma SignalColumns(stim: Matrix, h: seq<real>, stride: nat, scale: bool)
    requires stim.Valid() && ConvolveCore(stim, h, stride, scale).Ok?
    ensures stride >= 1 && |h| >= 1 && stim.rows >= 1 && stim.cols >= 1
    ensures forall c :: 0 <= c < stim.cols ==>
      && ColumnSignal(Column(stim, c), h, stride, scale).Ok?
      && Column(ConvolveCore(stim, h, stride, scale).value, c) == ColumnSignal(Column(stim, c), h, stride, scale).value
  {
    var rs := ColumnSignals(stim, h, stride, scale);
    assert Collect(rs).Ok?;
  }

  /** The input checks of ConvolveCore, in the order the code meets them. */
  lemma ConvolveCoreFailures(stim: Matrix, h: seq<real>, stride: nat, scale: bool)
    requires stim.Valid()
    ensures stride == 0 ==> ConvolveCore(stim, h, stride, scale) == Err(ZeroStride)
    ensures stride >= 1 && stim.cols == 0 ==> ConvolveCore(stim, h, stride, scale) == Err(NoConditions)
    ensures stride >= 1 && stim.cols >= 1 && (|h| == 0 || stim.rows == 0) ==>
      ConvolveCore(stim, h, stride, scale) == Err(EmptyOperand)
  {
  }

  /** Without scaling, every input that passes the checks gives a signal. */
  lemma UnscaledSucceeds(stim: Matrix, h: seq<real>, stride: nat)
    requires stim.Valid() && stride >= 1 && stim.cols >= 1 && |h| >= 1 && stim.rows >= 1
    ensures ConvolveCore(stim, h, stride, false).Ok?
  {
    var rs := ColumnSignals(stim, h, stride, false);
    assert forall c :: 0 <= c < stim.cols ==> rs[c].Ok?;
  }

  /** Scaling a stimulus shorter than one TR takes the maximum of nothing. */
  lemma ShorterThanOneTr(stim: Matrix, h: seq<real>, stride: nat)
    requires stim.Valid() && stride >= 1 && stim.cols >= 1 && |h| >= 1 && 1 <= stim.rows < stride
    ensures ConvolveCore(stim, h, stride, true) == Err(EmptySignal)
  {
    var rs := ColumnSignals(stim, h, stride, true);
    var v := Resample(Column(stim, 0), h, stride);
    ShortDuration(stim.rows, stride);
    assert |v| == 0;
    assert rs[0] == Normalize(v) == Err(EmptySignal);
    var r := Collect(rs);
    assert r.Err?;
    assert r.error == EmptySignal by {
      var i :| 0 <= i < |rs| && rs[i].Err? && rs[i].error == r.error && forall j :: 0 <= j < i ==> rs[j].Ok?;
      assert i == 0;
    }
  }

  /**
   * With scaling and at least one whole TR, the call succeeds exactly when no
   * column's down-sampled signal peaks at 0; otherwise it reports ZeroPeak.
   */
  lemma ScaledOutcome(stim: Matrix, h: seq<real>, stride: nat)
    requires stim.Valid() && stride >= 1 && stim.cols >= 1 && |h| >= 1 && stim.rows >= stride
    ensures forall c :: 0 <= c < stim.cols ==> |Resample(Column(stim, c), h, stride)| >= 1
    ensures ConvolveCore(stim, h, stride, true).Ok? <==>
      forall c :: 0 <= c < stim.cols ==> Max(Resample(Column(stim, c), h, stride)) != 0.0
    ensures ConvolveCore(stim, h, stride, true).Err? ==> ConvolveCore(stim, h, stride, true) == Err(ZeroPeak)
  {
    DurationPositive(stim.rows, stride);
    var rs := ColumnSignals(stim, h, stride, true);
    forall c | 0 <= c < stim.cols
      ensures |Resample(Column(stim, c), h, stride)| >= 1
      ensures rs[c].Ok? <==> Max(Resample(Column(stim, c), h, stride)) != 0.0
      ensures rs[c].Err? ==> rs[c].error == ZeroPeak
    {
      var v := Resample(Column(stim, c), h, stride);
      assert rs[c] == Normalize(v);
    }
  }

  /**
   * Without scaling, output row k of column c is convolution sample
   * `stride / 2 + k * stride` of input column c: the middle of TR window k.
   */
  lemma UnscaledMidpoints(stim: Matrix, h: seq<real>, stride: nat)
    requires stim.Valid() && ConvolveCore(stim, h, stride, false).Ok?
    ensures var out := ConvolveCore(stim, h, stride, false).value;
      forall k, c :: 0 <= k < out.rows && 0 <= c < out.cols ==>
        && k * stride <= Midpoint(k, stride) < (k + 1) * stride
        && Midpoint(k, stride) < out.rows * stride <= stim.rows
        && out.cells[k][c] == ConvAt(Column(stim, c), h, Midpoint(k, stride))
  {
    var out := ConvolveCore(stim, h, stride, false).value;
    SignalColumns(stim, h, stride, false);
    forall k, c | 0 <= k < out.rows && 0 <= c < out.cols
      ensures k * stride <= Midpoint(k, stride) < (k + 1) * stride
      ensures Midpoint(k, stride) < out.rows * stride <= stim.rows
      ensures out.cells[k][c] == ConvAt(Column(stim, c), h, Midpoint(k, stride))
    {
      MidpointInWindow(k, stride, out.rows);
      assert out.cells[k][c] == Column(out, c)[k];
    }
  }

  /**
   * With scaling, every column reaches exactly 1 where its unscaled signal
   * peaks; when that peak is positive, 1 is the column's maximum.
   */
  lemma ScaledPeaks(stim: Matrix, h: seq<real>, stride: nat)
    requires stim.Valid() && ConvolveCore(stim, h, stride, true).Ok?
    ensures var out := ConvolveCore(stim, h, stride, true).value;
      forall c :: 0 <= c < out.cols ==>
        && out.rows >= 1
        && (exists k :: 0 <= k < out.rows && out.cells[k][c] == 1.0)
        && (Max(Resample(Column(stim, c), h, stride)) > 0.0 ==>
              Max(Column(out, c)) == 1.0 && forall k :: 0 <= k < out.rows ==> out.cells[k][c] <= 1.0)
  {
    var out := ConvolveCore(stim, h, stride, true).value;
    SignalColumns(stim, h, stride, true);
    forall c | 0 <= c < out.cols
      ensures out.rows >= 1
      ensures exists k :: 0 <= k < out.rows && out.cells[k][c] == 1.0
      ensures Max(Resample(Column(stim, c), h, stride)) > 0.0 ==>
        Max(Column(out, c)) == 1.0 && forall k :: 0 <= k < out.rows ==> out.cells[k][c] <= 1.0
    {
      var v := Resample(Column(stim, c), h, stride);
      var col := Column(out, c);
      assert col == Normalize(v).value;
      var k := PeakReachesOne(v, col);
      assert out.cells[k][c] == col[k];
      assert forall j :: 0 <= j < out.rows ==> out.cells[j][c] == col[j];
    }
  }

  /** A scaled column reaches 1 at some entry; below 1 everywhere when the peak is positive. */
  lemma PeakReachesOne(v: seq<real>, col: seq<real>) returns (k: nat)
    requires Normalize(v).Ok? && col == Normalize(v).value
    ensures |col| == |v| >= 1 && k < |col| && col[k] == 1.0
    ensures Max(v) > 0.0 ==> Max(col) == 1.0 && forall j :: 0 <= j < |col| ==> col[j] <= 1.0
  {
    NormalizePeak(v);
    k :| 0 <= k < |v| && v[k] == Max(v);
  }

  /** Output column c depends on nothing but input column c, the HRF and the stride. */
  lemma ColumnIndependence(stim1: Matrix, stim2: Matrix, c: nat, h: seq<real>, stride: nat, scale: bool)
    requires stim1.Valid() && stim2.Valid()
    requires ConvolveCore(stim1, h, stride, scale).Ok? && ConvolveCore(stim2, h, stride, scale).Ok?
    requires c < stim1.cols && c < stim2.cols && Column(stim1, c) == Column(stim2, c)
    ensures Column(ConvolveCore(stim1, h, stride, scale).value, c) == Column(ConvolveCore(stim2, h, stride, scale).value, c)
  {
    SignalColumns(stim1, h, stride, scale);
    SignalColumns(stim2, h, stride, scale);
  }

  /** Down-sampling commutes with scaling the input. */
  lemma ResampleScale(a: real, x: seq<real>, h: seq<real>, stride: nat)
    requires stride >= 1 && |x| >= 1 && |h| >= 1
    ensures Resample(Scale(a, x), h, stride) == Scale(a, Resample(x, h, stride))
  {
    var r := Resample(x, h, stride);
    var r' := Resample(Scale(a, x), h, stride);
    var s := Scale(a, r);
    assert |r'| == |s|;
    forall k | 0 <= k < |r|
      ensures r'[k] == s[k]
    {
      ResampleScaleAt(a, x, h, stride, k);
    }
  }

  /** One down-sampled entry of a scaled input. */
  lemma ResampleScaleAt(a: real, x: seq<real>, h: seq<real>, stride: nat, k: nat)
    requires stride >= 1 && |x| >= 1 && |h| >= 1 && k < Duration(|x|, stride)
    ensures Resample(Scale(a, x), h, stride)[k] == a * Resample(x, h, stride)[k]
  {
    var n := Midpoint(k, stride);
    PartialConvScale(a, x, h, n, |x|);
    assert Resample(Scale(a, x), h, stride)[k] == ConvAt(Scale(a, x), h, n);
    assert Resample(x, h, stride)[k] == ConvAt(x, h, n);
  }

  /** Down-sampling commutes with adding inputs. */
  lemma ResampleAdd(x: seq<real>, y: seq<real>, h: seq<real>, stride: nat)
    requires stride >= 1 && |x| == |y| && |x| >= 1 && |h| >= 1
    ensures Resample(Add(x, y), h, stride) == Add(Resample(x, h, stride), Resample(y, h, stride))
  {
    var r := Resample(x, h, stride);
    var q := Resample(y, h, stride);
    var r' := Resample(Add(x, y), h, stride);
    assert |r'| == |r| == |q|;
    forall k | 0 <= k < |r|
      ensures r'[k] == Add(r, q)[k]
    {
      var n := Midpoint(k, stride);
      PartialConvAdd(x, y, h, n, |x|);
      assert r'[k] == ConvAt(Add(x, y), h, n);
      assert r[k] == ConvAt(x, h, n) && q[k] == ConvAt(y, h, n);
    }
  }

  /**
   * Unscaled, multiplying input column c by a multiplies output column c by
   * a and leaves every other column as it was.
   */
  lemma UnscaledHomogeneous(stim: Matrix, c: nat, a: real, h: seq<real>, stride: nat)
    requires stim.Valid() && c < stim.cols && ConvolveCore(stim, h, stride, false).Ok?
    ensures var stim' := WithColumn(stim, c, Scale(a, Column(stim, c)));
      && ConvolveCore(stim', h, stride, false).Ok?
      && Column(ConvolveCore(stim', h, stride, false).value, c) == Scale(a, Column(ConvolveCore(stim, h, stride, false).value, c))
      && forall c' :: 0 <= c' < stim.cols && c' != c ==>
           Column(ConvolveCore(stim', h, stride, false).value, c') == Column(ConvolveCore(stim, h, stride, false).value, c')
  {
    var stim' := WithColumn(stim, c, Scale(a, Column(stim, c)));
    SignalColumns(stim, h, stride, false);
    UnscaledSucceeds(stim', h, stride);
    SignalColumns(stim', h, stride, false);
    ResampleScale(a, Column(stim, c), h, stride);
  }

  /**
   * Unscaled, the output for the column-wise sum of two stimuli is the sum
   * of their outputs.
   */
  lemma UnscaledAdditive(stim1: Matrix, stim2: Matrix, c: nat, h: seq<real>, stride: nat)
    requires stim1.Valid() && stim2.Valid() && stim1.rows == stim2.rows && c < stim1.cols && c < stim2.cols
    requires ConvolveCore(stim1, h, stride, false).Ok? && ConvolveCore(stim2, h, stride, false).Ok?
    ensures var sum := WithColumn(stim1, c, Add(Column(stim1, c), Column(stim2, c)));
      && ConvolveCore(sum, h, stride, false).Ok?
      && Column(ConvolveCore(sum, h, stride, false).value, c) ==
           Add(Column(ConvolveCore(stim1, h, stride, false).value, c), Column(ConvolveCore(stim2, h, stride, false).value, c))
  {
    var sum := WithColumn(stim1, c, Add(Column(stim1, c), Column(stim2, c)));
    SignalColumns(stim1, h, stride, false);
    SignalColumns(stim2, h, stride, false);
    UnscaledSucceeds(sum, h, stride);
    SignalColumns(sum, h, stride, false);
    ResampleAdd(Column(stim1, c), Column(stim2, c), h, stride);
  }

  /**
   * With one sample per TR the output keeps every stimulus row, and column c
   * is the first `rows` samples of its convolution.
   */
  lemma StrideOne(stim: Matrix, h: seq<real>)
    requires stim.Valid() && stim.cols >= 1 && stim.rows >= 1 && |h| >= 1
    ensures ConvolveCore(stim, h, 1, false).Ok?
    ensures ConvolveCore(stim, h, 1, false).value.rows == stim.rows
    ensures forall c :: 0 <= c < stim.cols ==>
      Column(ConvolveCore(stim, h, 1, false).value, c) == Conv(Column(stim, c), h)[..stim.rows]
  {
    UnscaledSucceeds(stim, h, 1);
    SignalColumns(stim, h, 1, false);
    forall c | 0 <= c < stim.cols
      ensures Resample(Column(stim, c), h, 1) == Conv(Column(stim, c), h)[..stim.rows]
    {
      var x := Column(stim, c);
      assert forall k :: 0 <= k < stim.rows ==> Midpoint(k, 1) == k;
    }
  }

  /**
   * When the resolution is exactly one sample per TR, the signal has as many
   * rows as the stimulus.
   */
  lemma OneSamplePerTr(stim: Matrix, trDuration: real, hrfType: HrfType, scale: bool,
                       temporalResolution: real, tx: Transcendentals)
    requires stim.Valid() && temporalResolution > 0.0 && trDuration > 0.0
    requires temporalResolution * trDuration == 1.0
    ensures Stride(temporalResolution, trDuration) == 1
    ensures ConvolveHrf(stim, trDuration, hrfType, scale, temporalResolution, tx).Ok? ==>
      ConvolveHrf(stim, trDuration, hrfType, scale, temporalResolution, tx).value.rows == stim.rows
  {
  }

  /** An explicit HRF list equal to the built-in curve gives the same signal. */
  lemma ExplicitMatchesDoubleGamma(stim: Matrix, trDuration: real, scale: bool,
                                   temporalResolution: real, tx: Transcendentals)
    requires stim.Valid() && temporalResolution > 0.0 && trDuration > 0.0
    ensures ConvolveHrf(stim, trDuration, Explicit(DoubleGammaHrf(DefaultParams, temporalResolution, tx)), scale, temporalResolution, tx)
         == ConvolveHrf(stim, trDuration, DoubleGamma, scale, temporalResolution, tx)
  {
  }

  /** One timepoint, two conditions: more columns than rows. */
  function WideStimulus(): (m: Matrix)
    ensures m.Valid() && m.rows < m.cols
  {
    Matrix(1, 2, [[1.0, 2.0]])
  }

  /** As written, the shape check on a wide stimulus raises instead of warning. */
  lemma WideStimulusRaises(tx: Transcendentals)
    ensures ConvolveHrfAsWritten(WideStimulus(), 1.0, Explicit([1.0]), false, 1.0, tx) == Err(LoggerUndefined)
  {
  }

  /**
   * With the warning only a warning, the same wide stimulus is convolved: an
   * impulse HRF at one sample per TR returns the stimulus unchanged.
   */
  lemma WideStimulusConvolves(tx: Transcendentals)
    ensures ConvolveHrf(WideStimulus(), 1.0, Explicit([1.0]), false, 1.0, tx) == Ok(WideStimulus())
  {
    var stim := WideStimulus();
    assert Stride(1.0, 1.0) == 1;
    StrideOne(stim, [1.0]);
    var out := ConvolveCore(stim, [1.0], 1, false).value;
    ConvUnitImpulse(Column(stim, 0));
    ConvUnitImpulse(Column(stim, 1));
    assert Column(out, 0) == Column(stim, 0);
    assert Column(out, 1) == Column(stim, 1);
    assert out.cells[0][0] == Column(out, 0)[0];
    assert out.cells[0][1] == Column(out, 1)[0];
    assert out.rows == 1 && out.cols == 2 && |out.cells| == 1 && |out.cells[0]| == 2;
    assert out.cells[0] == [1.0, 2.0];
    assert out.cells == [[1.0, 2.0]];
    assert ConvolveHrf(stim, 1.0, Explicit([1.0]), false, 1.0, tx) == ConvolveCore(stim, [1.0], 1, false);
  }
}
