/** The optical-length arithmetic every MOC kernel shares: the largest total
    cross-section of a material and the number of pieces a segment must be
    cut into so that no piece is optically longer than the kernel's maximum
    optical length. Lengths, cross-sections and optical lengths are exact reals.
 */
module Optics {

  /** The largest per-group total cross-section, floored at zero: the scan
      starts from 0 and keeps any strictly larger group value. Defined on the
      prefix so that it follows the order in which the scan visits groups. */
  function MaxSigmaT(sigmaT: seq<real>): (m: real)
    ensures 0.0 <= m
    ensures forall e :: 0 <= e < |sigmaT| ==> sigmaT[e] <= m
    ensures m == 0.0 || m in sigmaT
  {
    if |sigmaT| == 0 then 0.0
    else
      var m0 := MaxSigmaT(sigmaT[..|sigmaT| - 1]);
      var last := sigmaT[|sigmaT| - 1];
      assert sigmaT == sigmaT[..|sigmaT| - 1] + [last];
      if last > m0 then last else m0
  }

  /** The group scan itself: start at 0 and replace the running maximum by
      every strictly larger group value. */
  method FindMaxSigmaT(sigmaT: seq<real>) returns (m: real)
    ensures m == MaxSigmaT(sigmaT)
  {
    m := 0.0;
    var e := 0;
    while e < |sigmaT|
      invariant 0 <= e <= |sigmaT|
      invariant m == MaxSigmaT(sigmaT[..e])
    {
      assert sigmaT[..e + 1][..e] == sigmaT[..e];
      if sigmaT[e] > m {
        m := sigmaT[e];
      }
      e := e + 1;
    }
    assert sigmaT[..e] == sigmaT;
  }

  /** The least integer not below x. */
  function Ceil(x: real): (c: int)
    ensures x <= c as real < x + 1.0
  {
    -((-x).Floor)
  }

  /** The number of pieces a segment of the given length is cut into:
      the ceiling of its optical length over the maximum optical length,
      but at least one. */
  function NumCuts(length: real, maxSigmaT: real, maxTau: real): (n: int)
    requires maxTau > 0.0
    ensures n >= 1
    ensures length * maxSigmaT <= n as real * maxTau
    ensures n == 1 || (n - 1) as real * maxTau < length * maxSigmaT
  {
    var c := Ceil(length * maxSigmaT / maxTau);
    CeilScaled(length * maxSigmaT, maxTau, c);
    if c > 1 then c else 1
  }

  /** Multiplying the ceiling's defining inequalities through by the divisor. */
  lemma CeilScaled(tau: real, maxTau: real, c: int)
    requires maxTau > 0.0
    requires tau / maxTau <= c as real < tau / maxTau + 1.0
    ensures tau <= c as real * maxTau
    ensures (c - 1) as real * maxTau < tau
  {
    var q := tau / maxTau;
    ScaleAbove(tau, q, maxTau, c as real);
    ScaleBelow(tau, q, maxTau, (c - 1) as real);
  }

  lemma ScaleAbove(tau: real, q: real, t: real, c: real)
    requires t > 0.0 && tau == q * t
    requires q <= c
    ensures tau <= c * t
  {
    MulMonotone(q, c, t);
  }

  lemma ScaleBelow(tau: real, q: real, t: real, d: real)
    requires t > 0.0 && tau == q * t
    requires d < q
    ensures d * t < tau
  {
    MulStrictMonotone(d, q, t);
  }

  lemma MulMonotone(a: real, b: real, t: real)
    requires a <= b && t > 0.0
    ensures a * t <= b * t
  {
    assert (b - a) * t >= 0.0;
  }

  lemma MulStrictMonotone(a: real, b: real, t: real)
    requires a < b && t > 0.0
    ensures a * t < b * t
  {
    assert (b - a) * t > 0.0;
  }

  /** The cut count is the least positive number of pieces of optical length
      at most maxTau that can cover the segment's optical length. */
  lemma NumCutsIsLeast(length: real, maxSigmaT: real, maxTau: real, k: int)
    requires maxTau > 0.0
    requires k >= 1 && length * maxSigmaT <= k as real * maxTau
    ensures NumCuts(length, maxSigmaT, maxTau) <= k
  {
    LeastCover(length * maxSigmaT, maxTau, NumCuts(length, maxSigmaT, maxTau), k);
  }

  lemma LeastCover(tau: real, t: real, n: int, k: int)
    requires t > 0.0
    requires k >= 1 && tau <= k as real * t
    requires n == 1 || (n - 1) as real * t < tau
    ensures n <= k
  {
    if n > k {
      MulMonotone(k as real, (n - 1) as real, t);
    }
  }

  /** More than one cut only happens for a strictly positive cross-section,
      so the fixed piece length maxTau / maxSigmaT is only ever computed for
      a non-zero divisor. */
  lemma SplitNeedsPositiveSigma(length: real, maxSigmaT: real, maxTau: real)
    requires maxTau > 0.0 && maxSigmaT >= 0.0
    ensures NumCuts(length, maxSigmaT, maxTau) > 1 ==> maxSigmaT > 0.0 && length > 0.0
  {
    var n := NumCuts(length, maxSigmaT, maxTau);
    if n > 1 {
      assert (n - 1) as real * maxTau > 0.0;
    }
  }
}
