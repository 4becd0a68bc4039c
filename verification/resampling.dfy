/**
 * Down-sampling a convolved column to one value per TR: keep a whole number
 * of TR windows, then take the middle sample of each.
 */
module Resampling {
  import opened Series
  import opened Convolution
  import opened Hrf

  /** High-resolution samples per TR, `int(temporal_resolution * tr_duration)`. */
  function Stride(temporalResolution: real, trDuration: real): (s: nat)
    requires temporalResolution > 0.0 && trDuration > 0.0
    ensures s as real <= temporalResolution * trDuration < s as real + 1.0
  {
    Trunc(temporalResolution * trDuration)
  }

  /** Whole TRs in the stimulus, `int(rows / stride)`. */
  function Duration(rows: nat, stride: nat): (d: nat)
    requires stride >= 1
    ensures d == rows / stride
    ensures d * stride <= rows < d * stride + stride
  {
    FloorDivision(rows, stride);
    Trunc(rows as real / stride as real)
  }

  /** Real division followed by truncation is integer division. */
  lemma FloorDivision(rows: nat, stride: nat)
    requires stride >= 1
    ensures var x := rows as real / stride as real;
      (rows / stride) as real <= x < (rows / stride) as real + 1.0
  {
    var q := rows / stride;
    var rem := rows % stride;
    var x := rows as real / stride as real;
    assert rows == q * stride + rem;
    assert rows as real == q as real * stride as real + rem as real;
    assert x * stride as real == rows as real;
    assert x == q as real + rem as real / stride as real;
    assert 0.0 <= rem as real / stride as real < 1.0;
  }

  /** A stimulus shorter than one TR holds no whole TR window. */
  lemma ShortDuration(rows: nat, stride: nat)
    requires stride >= 1 && rows < stride
    ensures Duration(rows, stride) == 0
  {
    var d := Duration(rows, stride);
    if d >= 1 {
      MulMono(1, d, stride);
    }
  }

  /** A stimulus of at least one TR holds at least one whole TR window. */
  lemma DurationPositive(rows: nat, stride: nat)
    requires 1 <= stride <= rows
    ensures Duration(rows, stride) >= 1
  {
  }

  /** Index of the middle sample of TR window k. */
  function Midpoint(k: nat, stride: nat): nat
  {
    stride / 2 + k * stride
  }

  /** The middle sample of window k lies inside window k, before the cut. */
  lemma MidpointInWindow(k: nat, stride: nat, d: nat)
    requires stride >= 1 && k < d
    ensures k * stride <= Midpoint(k, stride) < (k + 1) * stride
    ensures Midpoint(k, stride) < d * stride
  {
    MulSucc(k, stride);
    MulMono(k + 1, d, stride);
  }

  /**
   * One stimulus column down-sampled to one value per TR: entry k is the
   * convolution sample at the middle of TR window k, for every whole window.
   */
  function Resample(x: seq<real>, h: seq<real>, stride: nat): (r: seq<real>)
    requires stride >= 1 && |x| >= 1 && |h| >= 1
    ensures |r| == Duration(|x|, stride)
  {
    var d := Duration(|x|, stride);
    seq(d, k requires 0 <= k < d =>
      MidpointInWindow(k, stride, d);
      ConvAt(x, h, Midpoint(k, stride)))
  }

  /**
   * The down-sampling as the code performs it: cut the convolution to
   * `duration * stride` samples, then slice `[stride // 2::stride]`. It
   * yields exactly the midpoint samples.
   */
  function TruncateAndSlice(x: seq<real>, h: seq<real>, stride: nat): (r: seq<real>)
    requires stride >= 1 && |x| >= 1 && |h| >= 1
    ensures Duration(|x|, stride) * stride <= |x| <= ConvLength(x, h)
    ensures |r| == Duration(|x|, stride)
    ensures forall k :: 0 <= k < |r| ==> Midpoint(k, stride) < Duration(|x|, stride) * stride
    ensures forall k :: 0 <= k < |r| ==> r[k] == Conv(x, h)[Midpoint(k, stride)]
    ensures r == Resample(x, h, stride)
  {
    var d := Duration(|x|, stride);
    var kept := Conv(x, h)[..d * stride];
    var r := StrideSlice(kept, stride / 2, stride);
    MidpointSamples(kept, stride, d, r);
    assert forall k :: 0 <= k < |r| ==> r[k] == Conv(x, h)[Midpoint(k, stride)] by {
      forall k | 0 <= k < |r| ensures r[k] == Conv(x, h)[Midpoint(k, stride)] {
        assert r[k] == kept[Midpoint(k, stride)];
      }
    }
    assert r == Resample(x, h, stride);
    r
  }

  /** The closed form of the slice `kept[stride/2::stride]` of d whole TR windows. */
  lemma MidpointSamples<T>(kept: seq<T>, stride: nat, d: nat, r: seq<T>)
    requires stride >= 1 && |kept| == d * stride
    requires r == StrideSlice(kept, stride / 2, stride)
    ensures |r| == d
    ensures forall k :: 0 <= k < d ==> Midpoint(k, stride) < |kept| && r[k] == kept[Midpoint(k, stride)]
  {
    if |r| >= 1 {
      assert stride / 2 + (|r| - 1) * stride < |kept|;
    }
    MidpointCount(|r|, stride, d);
  }

  /**
   * The slice `[stride/2::stride]` of a list of `d * stride` samples has
   * exactly d entries.
   */
  lemma MidpointCount(len: nat, stride: nat, d: nat)
    requires stride >= 1
    requires stride / 2 + len * stride >= d * stride
    requires len >= 1 ==> stride / 2 + (len - 1) * stride < d * stride
    ensures len == d
  {
    if len < d {
      MulMono(len + 1, d, stride);
      MulSucc(len, stride);
    } else if len > d {
      MulMono(d + 1, len, stride);
      MulSucc(len - 1, stride);
    }
  }

  /** Multiplication by a non-negative number is monotone. */
  lemma MulMono(a: int, b: int, n: int)
    requires a <= b && n >= 0
    ensures a * n <= b * n
  {
  }
}
