/**
 * Full discrete linear convolution, the semantics of `np.convolve(a, v)` in
 * its default "full" mode: sample n of the result is the sum of a[k] * v[n - k]
 * over every k for which both indices are in range.
 */
module Convolution {
  import opened Series

  /** Entry i of the kernel, or 0 outside it (the implicit zero padding). */
  function Tap(h: seq<real>, i: int): real
  {
    if 0 <= i < |h| then h[i] else 0.0
  }

  /** The sum of x[k] * h[n - k] over the first K input samples. */
  function PartialConv(x: seq<real>, h: seq<real>, n: int, K: nat): real
    requires K <= |x|
    decreases K
  {
    if K == 0 then 0.0 else PartialConv(x, h, n, K - 1) + x[K - 1] * Tap(h, n - (K - 1))
  }

  /** Sample n of the full convolution of x with h. */
  function ConvAt(x: seq<real>, h: seq<real>, n: int): real
  {
    PartialConv(x, h, n, |x|)
  }

  /** Length of the full convolution: one sample per possible overlap. */
  function ConvLength(x: seq<real>, h: seq<real>): nat
    requires |x| >= 1 && |h| >= 1
  {
    |x| + |h| - 1
  }

  /** The full convolution; numpy refuses an empty operand, hence the requires. */
  function Conv(x: seq<real>, h: seq<real>): (r: seq<real>)
    requires |x| >= 1 && |h| >= 1
    ensures |r| == ConvLength(x, h)
  {
    seq(ConvLength(x, h), n requires 0 <= n < ConvLength(x, h) => ConvAt(x, h, n))
  }

  /**
   * Convolution computed the other way round: every input sample scatters its
   * weighted copy of the kernel into the output. It agrees with the
   * gather-style definition Conv.
   */
  method ConvolveScatter(x: seq<real>, h: seq<real>) returns (out: seq<real>)
    requires |x| >= 1 && |h| >= 1
    ensures out == Conv(x, h)
  {
    var len := |x| + |h| - 1;
    out := seq(len, _ => 0.0);
    var k := 0;
    while k < |x|
      invariant 0 <= k <= |x|
      invariant |out| == len
      invariant forall n :: 0 <= n < len ==> out[n] == PartialConv(x, h, n, k)
    {
      var j := 0;
      while j < |h|
        invariant 0 <= j <= |h|
        invariant |out| == len
        invariant forall n :: 0 <= n < len ==>
          out[n] == PartialConv(x, h, n, k) + (if k <= n < k + j then x[k] * h[n - k] else 0.0)
      {
        out := out[k + j := out[k + j] + x[k] * h[j]];
        j := j + 1;
      }
      assert forall n :: 0 <= n < len ==>
          PartialConv(x, h, n, k + 1) == PartialConv(x, h, n, k) + (if k <= n < k + |h| then x[k] * h[n - k] else 0.0);
      k := k + 1;
    }
  }

  /** Scaling the input scales every partial sum. */
  lemma {:induction false} PartialConvScale(a: real, x: seq<real>, h: seq<real>, n: int, K: nat)
    requires K <= |x|
    ensures PartialConv(Scale(a, x), h, n, K) == a * PartialConv(x, h, n, K)
    decreases K
  {
    if K > 0 {
      PartialConvScale(a, x, h, n, K - 1);
      assert Scale(a, x)[K - 1] == a * x[K - 1];
    }
  }

  /** Partial sums of a sum of inputs are sums of partial sums. */
  lemma {:induction false} PartialConvAdd(x: seq<real>, y: seq<real>, h: seq<real>, n: int, K: nat)
    requires |x| == |y| && K <= |x|
    ensures PartialConv(Add(x, y), h, n, K) == PartialConv(x, h, n, K) + PartialConv(y, h, n, K)
    decreases K
  {
    if K > 0 {
      PartialConvAdd(x, y, h, n, K - 1);
      assert Add(x, y)[K - 1] == x[K - 1] + y[K - 1];
    }
  }

  /** Convolution is homogeneous in the input. */
  lemma ConvScale(a: real, x: seq<real>, h: seq<real>)
    requires |x| >= 1 && |h| >= 1
    ensures Conv(Scale(a, x), h) == Scale(a, Conv(x, h))
  {
    forall n | 0 <= n < ConvLength(x, h)
      ensures Conv(Scale(a, x), h)[n] == Scale(a, Conv(x, h))[n]
    {
      PartialConvScale(a, x, h, n, |x|);
    }
  }

  /** Convolution is additive in the input. */
  lemma ConvAdd(x: seq<real>, y: seq<real>, h: seq<real>)
    requires |x| == |y| && |x| >= 1 && |h| >= 1
    ensures Conv(Add(x, y), h) == Add(Conv(x, h), Conv(y, h))
  {
    forall n | 0 <= n < ConvLength(x, h)
      ensures Conv(Add(x, y), h)[n] == Add(Conv(x, h), Conv(y, h))[n]
    {
      PartialConvAdd(x, y, h, n, |x|);
    }
  }

  /** Input samples after n cannot reach output sample n (causality). */
  lemma {:induction false} PartialConvCausal(x: seq<real>, h: seq<real>, n: int, K: nat)
    requires 0 <= n < K <= |x|
    ensures PartialConv(x, h, n, K) == PartialConv(x, h, n, n + 1)
    decreases K
  {
    if K > n + 1 {
      PartialConvCausal(x, h, n, K - 1);
    }
  }

  /** Convolving with the unit impulse returns the input. */
  lemma ConvUnitImpulse(x: seq<real>)
    requires |x| >= 1
    ensures Conv(x, [1.0]) == x
  {
    forall n | 0 <= n < |x|
      ensures Conv(x, [1.0])[n] == x[n]
    {
      PartialConvCausal(x, [1.0], n, |x|);
      PartialConvBeforeImpulse(x, n, n);
    }
  }

  /** Before sample n, the unit kernel contributes nothing to output sample n. */
  lemma {:induction false} PartialConvBeforeImpulse(x: seq<real>, n: int, K: nat)
    requires K <= n && K <= |x|
    ensures PartialConv(x, [1.0], n, K) == 0.0
    decreases K
  {
    if K > 0 {
      PartialConvBeforeImpulse(x, n, K - 1);
    }
  }
}
