/**
 * The double-gamma haemodynamic response function (after Glover, 1999):
 * a gamma-shaped rise minus a smaller, later gamma-shaped undershoot,
 * sampled over a fixed 30-second window.
 */
module Hrf {

  /** The shape parameters of the double-gamma curve. */
  datatype HrfParams = HrfParams(
    responseDelay: real,
    undershootDelay: real,
    responseDispersion: real,
    undershootDispersion: real,
    responseScale: real,
    undershootScale: real)

  /** The defaults: Glover (1999) and Walvaert et al. (2011). */
  const DefaultParams := HrfParams(6.0, 12.0, 0.9, 0.9, 1.0, 0.035)

  /** Length in seconds of the window the curve is sampled over. */
  const HrfSeconds := 30

  /**
   * The transcendental functions the curve is built from. Their values
   * are not modelled; every formula is stated in terms of them.
   */
  datatype Transcendentals = Transcendentals(pow: (real, real) -> real, exp: real -> real) {
    /** `math.pow(x, y)`. */
    function Pow(x: real, y: real): real { pow(x, y) }

    /** `math.exp(x)`. */
    function Exp(x: real): real { exp(x) }
  }

  /** Python's `int()` on a number: truncation toward zero. */
  function Trunc(x: real): (n: int)
    ensures 0.0 <= x ==> 0 <= n && n as real <= x < n as real + 1.0
    ensures x < 0.0 ==> n <= 0 && n as real - 1.0 < x <= n as real
  {
    if x >= 0.0 then x.Floor else -((-x).Floor)
  }

  /**
   * Length of the list `[0] * int(30 * temporal_resolution)`: a negative
   * repetition count gives the empty list.
   */
  function HrfLength(temporalResolution: real): (n: nat)
    ensures 30.0 * temporalResolution >= 1.0 ==>
      n >= 1 && n as real <= 30.0 * temporalResolution < n as real + 1.0
    ensures 30.0 * temporalResolution < 1.0 ==> n == 0
  {
    var m := Trunc(HrfSeconds as real * temporalResolution);
    if m < 0 then 0 else m
  }

  /** Parameters for which no division in the formula is by zero. */
  predicate NonDegenerate(p: HrfParams)
  {
    && p.responseDelay != 0.0
    && p.responseDispersion != 0.0
    && p.undershootDelay != 0.0
    && p.undershootDispersion != 0.0
  }

  /**
   * The unscaled rise at time t (seconds): the power of `t / peak` times the
   * exponential decay `-(t - peak) / dispersion`, with `peak = delay * dispersion`.
   */
  function RiseShape(tx: Transcendentals, t: real, delay: real, dispersion: real): real
    requires delay != 0.0 && dispersion != 0.0
  {
    var peak := delay * dispersion;
    tx.Pow(t / peak, delay) * tx.Exp(-(t - peak) / dispersion)
  }

  /**
   * The unscaled undershoot at time t. Its exponent divides only the peak
   * by the dispersion, `-(t - peak / dispersion)`, unlike the rise's
   * `-(t - peak) / dispersion`; the asymmetry is kept as written.
   */
  function DipShape(tx: Transcendentals, t: real, delay: real, dispersion: real): real
    requires delay != 0.0 && dispersion != 0.0
  {
    var peak := delay * dispersion;
    tx.Pow(t / peak, delay) * tx.Exp(-(t - peak / dispersion))
  }

  /** The gamma-shaped rise at sample i, weighted by `response_scale`. */
  function Response(p: HrfParams, temporalResolution: real, tx: Transcendentals, i: nat): (r: real)
    requires temporalResolution != 0.0 && NonDegenerate(p)
    ensures p.responseScale == 0.0 ==> r == 0.0
  {
    var t := i as real / temporalResolution;
    p.responseScale * RiseShape(tx, t, p.responseDelay, p.responseDispersion)
  }

  /** The undershoot at sample i, weighted by `undershoot_scale`. */
  function Undershoot(p: HrfParams, temporalResolution: real, tx: Transcendentals, i: nat): (r: real)
    requires temporalResolution != 0.0 && NonDegenerate(p)
    ensures p.undershootScale == 0.0 ==> r == 0.0
  {
    var t := i as real / temporalResolution;
    p.undershootScale * DipShape(tx, t, p.undershootDelay, p.undershootDispersion)
  }

  /** The value the fill loop writes at sample i. */
  function Sample(p: HrfParams, temporalResolution: real, tx: Transcendentals, i: nat): (r: real)
    requires temporalResolution != 0.0 && NonDegenerate(p)
    ensures p.undershootScale == 0.0 ==> r == Response(p, temporalResolution, tx, i)
    ensures p.responseScale == 0.0 ==> r == -Undershoot(p, temporalResolution, tx, i)
  {
    Response(p, temporalResolution, tx, i) - Undershoot(p, temporalResolution, tx, i)
  }

  /** The rise is proportional to `response_scale`; the other weight plays no part. */
  lemma ResponseScaled(p: HrfParams, temporalResolution: real, tx: Transcendentals, i: nat)
    requires temporalResolution != 0.0 && NonDegenerate(p)
    ensures Response(p, temporalResolution, tx, i)
         == p.responseScale * Response(p.(responseScale := 1.0, undershootScale := 0.0), temporalResolution, tx, i)
  {
  }

  /** The undershoot is proportional to `undershoot_scale`; the other weight plays no part. */
  lemma UndershootScaled(p: HrfParams, temporalResolution: real, tx: Transcendentals, i: nat)
    requires temporalResolution != 0.0 && NonDegenerate(p)
    ensures Undershoot(p, temporalResolution, tx, i)
         == p.undershootScale * Undershoot(p.(undershootScale := 1.0, responseScale := 0.0), temporalResolution, tx, i)
  {
  }

  /**
   * The brackets of the two exponents matter: the rise's
   * `-(t - peak) / dispersion` and the undershoot's `-(t - peak / dispersion)`
   * agree only at t = 0 or at a unit dispersion, whatever the peak.
   */
  lemma ExponentBrackets(t: real, peak: real, dispersion: real)
    requires dispersion != 0.0
    ensures -(t - peak) / dispersion == -(t - peak / dispersion) <==> t == 0.0 || dispersion == 1.0
  {
    var u := t / dispersion;
    var w := peak / dispersion;
    assert -(t - peak) / dispersion == w - u by {
      assert (w - u) * dispersion == peak - t;
    }
    if u == t {
      calc {
        t * dispersion;
        u * dispersion;
        t;
      }
      assert t * (dispersion - 1.0) == 0.0;
      MulNonZero(t, dispersion - 1.0);
    }
  }

  /** A product is zero only when a factor is. */
  lemma MulNonZero(a: real, b: real)
    requires a * b == 0.0
    ensures a == 0.0 || b == 0.0
  {
  }

  /**
   * The sampled curve: `int(30 * temporal_resolution)` samples, each but
   * the last from the formula; the last sample is never written and keeps
   * its initial 0.
   */
  function DoubleGammaHrf(p: HrfParams, temporalResolution: real, tx: Transcendentals): (h: seq<real>)
    requires HrfLength(temporalResolution) >= 2 ==> NonDegenerate(p)
    ensures 30.0 * temporalResolution >= 1.0 ==>
      |h| >= 1 && |h| as real <= 30.0 * temporalResolution < |h| as real + 1.0
    ensures 30.0 * temporalResolution < 1.0 ==> h == []
    ensures |h| >= 1 ==> h[|h| - 1] == 0.0
  {
    var n := HrfLength(temporalResolution);
    seq(n, i requires 0 <= i < n =>
      if i < n - 1 then Sample(p, temporalResolution, tx, i) else 0.0)
  }

  /**
   * The list-filling loop: start from zeros and overwrite every index but
   * the last with the formula.
   */
  method FillHrf(p: HrfParams, temporalResolution: real, tx: Transcendentals) returns (hrf: seq<real>)
    requires HrfLength(temporalResolution) >= 2 ==> NonDegenerate(p)
    ensures |hrf| == HrfLength(temporalResolution)
    ensures forall i :: 0 <= i < |hrf| - 1 ==> hrf[i] == Sample(p, temporalResolution, tx, i)
    ensures |hrf| >= 1 ==> hrf[|hrf| - 1] == 0.0
    ensures hrf == DoubleGammaHrf(p, temporalResolution, tx)
  {
    var n: int := HrfLength(temporalResolution);
    hrf := seq(n, _ => 0.0);
    var i: int := 0;
    while i < n - 1
      invariant 0 <= i <= (if n >= 1 then n - 1 else 0)
      invariant |hrf| == n
      invariant forall j :: 0 <= j < i ==> hrf[j] == Sample(p, temporalResolution, tx, j)
      invariant forall j :: i <= j < n ==> hrf[j] == 0.0
    {
      hrf := hrf[i := Sample(p, temporalResolution, tx, i)];
      i := i + 1;
    }
  }

  /** The default parameters never divide by zero. */
  lemma DefaultParamsNonDegenerate()
    ensures NonDegenerate(DefaultParams)
  {
  }

  /** At the default resolution of 100 samples per second the curve has 3000 samples. */
  lemma DefaultHrfLength(tx: Transcendentals)
    ensures |DoubleGammaHrf(DefaultParams, 100.0, tx)| == 3000
  {
  }
}
