/** Operations on a single timecourse (one column of a stimulus or signal). */
module Series {

  /** Element-wise multiplication of a timecourse by a constant. */
  function Scale(a: real, x: seq<real>): (r: seq<real>)
    ensures |r| == |x|
    ensures forall i :: 0 <= i < |x| ==> r[i] == a * x[i]
  {
    seq(|x|, i requires 0 <= i < |x| => a * x[i])
  }

  /** Element-wise sum of two timecourses of equal length. */
  function Add(x: seq<real>, y: seq<real>): (r: seq<real>)
    requires |x| == |y|
    ensures |r| == |x|
    ensures forall i :: 0 <= i < |x| ==> r[i] == x[i] + y[i]
  {
    seq(|x|, i requires 0 <= i < |x| => x[i] + y[i])
  }

  /** Element-wise division by a non-zero constant; multiplying back recovers x. */
  function Divide(x: seq<real>, m: real): (r: seq<real>)
    requires m != 0.0
    ensures |r| == |x|
    ensures forall i :: 0 <= i < |x| ==> r[i] * m == x[i]
  {
    seq(|x|, i requires 0 <= i < |x| => x[i] / m)
  }

  /** The largest entry of a non-empty timecourse (numpy's `max`). */
  function Max(v: seq<real>): (m: real)
    requires |v| >= 1
    ensures forall i :: 0 <= i < |v| ==> v[i] <= m
    ensures exists i :: 0 <= i < |v| && v[i] == m
  {
    if |v| == 1 then v[0]
    else
      var rest := Max(v[1..]);
      assert forall i :: 1 <= i < |v| ==> v[i] == v[1..][i - 1];
      if v[0] >= rest then v[0] else rest
  }

  /**
   * Python's extended slice `s[start::step]` for a non-negative start and a
   * positive step: every step-th element, beginning at `start`, while the
   * index is still inside `s`.
   */
  function StrideSlice<T>(s: seq<T>, start: nat, step: nat): (r: seq<T>)
    requires step >= 1
    ensures start + |r| * step >= |s|
    ensures forall k :: 0 <= k < |r| ==> start + k * step < |s| && r[k] == s[start + k * step]
    decreases |s| - start
  {
    if start >= |s| then []
    else
      var rest := StrideSlice(s, start + step, step);
      StrideSliceStep(s, start, step, rest);
      [s[start]] + rest
  }

  /** One unfolding of StrideSlice keeps its closed form. */
  lemma StrideSliceStep<T>(s: seq<T>, start: nat, step: nat, rest: seq<T>)
    requires step >= 1 && start < |s|
    requires start + step + |rest| * step >= |s|
    requires forall k :: 0 <= k < |rest| ==> start + step + k * step < |s| && rest[k] == s[start + step + k * step]
    ensures var r := [s[start]] + rest;
      start + |r| * step >= |s| &&
      forall k :: 0 <= k < |r| ==> start + k * step < |s| && r[k] == s[start + k * step]
  {
    var r := [s[start]] + rest;
    MulSucc(|rest|, step);
    forall k | 0 <= k < |r|
      ensures start + k * step < |s| && r[k] == s[start + k * step]
    {
      if k > 0 {
        MulSucc(k - 1, step);
        assert r[k] == rest[k - 1];
      }
    }
  }

  /** `(k + 1) * n` unfolds to `k * n + n`. */
  lemma MulSucc(k: int, n: int)
    ensures (k + 1) * n == k * n + n
  {
  }

  /**
   * Dividing by the peak m of v: entries equal to m become 1; for a positive
   * peak no entry exceeds 1 and the new peak is 1; for a negative peak every
   * entry is at least 1.
   */
  lemma DividePeak(v: seq<real>, s: seq<real>, m: real)
    requires |v| >= 1 && m != 0.0
    requires forall i :: 0 <= i < |v| ==> v[i] <= m
    requires exists i :: 0 <= i < |v| && v[i] == m
    requires s == Divide(v, m)
    ensures forall i :: 0 <= i < |v| && v[i] == m ==> s[i] == 1.0
    ensures m > 0.0 ==> forall i :: 0 <= i < |v| ==> s[i] <= 1.0
    ensures m > 0.0 ==> Max(s) == 1.0
    ensures m < 0.0 ==> forall i :: 0 <= i < |v| ==> s[i] >= 1.0
  {
    forall i | 0 <= i < |v|
      ensures v[i] == m ==> s[i] == 1.0
      ensures m > 0.0 ==> s[i] <= 1.0
      ensures m < 0.0 ==> s[i] >= 1.0
    {
      QuotientBounds(s[i], v[i], m);
    }
    if m > 0.0 {
      var j :| 0 <= j < |v| && v[j] == m;
      assert s[j] == 1.0;
    }
  }

  /** A quotient q = a / m of some a <= m, compared with 1. */
  lemma QuotientBounds(q: real, a: real, m: real)
    requires m != 0.0 && q * m == a && a <= m
    ensures a == m ==> q == 1.0
    ensures m > 0.0 ==> q <= 1.0
    ensures m < 0.0 ==> q >= 1.0
  {
    if a == m {
      assert (q - 1.0) * m == 0.0;
    }
    if m > 0.0 {
      assert (1.0 - q) * m >= 0.0;
    }
    if m < 0.0 {
      assert (q - 1.0) * m <= 0.0;
    }
  }
}
