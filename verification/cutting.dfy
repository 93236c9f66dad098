/** What cutting a segment guarantees about the pieces: they add back up to
    the segment's length, and none of them is optically longer than the
    kernel's maximum optical length.
 */
module Cutting {
  import opened Optics
  import opened Kernels

  /** The summed length of a run of segment records. */
  function TotalLength(ss: seq<Segment>): real
  {
    if |ss| == 0 then 0.0 else TotalLength(ss[..|ss| - 1]) + ss[|ss| - 1].length
  }

  /** The optical length of a piece: its length times the largest total
      cross-section of its material. */
  function OpticalLength(s: Segment): real
  {
    s.length * MaxSigmaT(s.material.sigmaT)
  }

  /** Lengths add up over a concatenation. */
  lemma {:induction false} TotalLengthAppend(a: seq<Segment>, b: seq<Segment>)
    ensures TotalLength(a + b) == TotalLength(a) + TotalLength(b)
    decreases |b|
  {
    if |b| == 0 {
      assert a + b == a;
    } else {
      var b0 := b[..|b| - 1];
      assert (a + b)[..|a + b| - 1] == a + b0;
      TotalLengthAppend(a, b0);
    }
  }

  /** A prefix of pieces that all have the same length step sums to
      (number of pieces) times step. */
  lemma {:induction false} UniformPrefixLength(ps: seq<Segment>, i: int, step: real)
    requires 0 <= i <= |ps|
    requires forall j :: 0 <= j < i ==> ps[j].length == step
    ensures TotalLength(ps[..i]) == i as real * step
    decreases i
  {
    if i > 0 {
      UniformPrefixLength(ps, i - 1, step);
      assert ps[..i][..i - 1] == ps[..i - 1];
      var m := (i - 1) as real;
      assert TotalLength(ps[..i]) == m * step + step;
    }
  }

  /** Cutting loses no length: the pieces of a segment sum to its length. */
  lemma {:induction false} PiecesSumToLength(length: real, mat: Material, id: int, fwd: int, bwd: int,
                                            maxTau: real)
    requires maxTau > 0.0
    ensures TotalLength(Pieces(length, mat, id, fwd, bwd, maxTau)) == length
  {
    var ps := Pieces(length, mat, id, fwd, bwd, maxTau);
    var n := |ps|;
    var sigma := MaxSigmaT(mat.sigmaT);
    SplitNeedsPositiveSigma(length, sigma, maxTau);
    assert ps[..n] == ps;
    if n == 1 {
      assert ps[..0] == [];
    } else {
      var step := maxTau / sigma;
      UniformPrefixLength(ps, n - 1, step);
      assert TotalLength(ps) == (n - 1) as real * step + ps[n - 1].length;
    }
  }

  /** The last of n >= 2 pieces is positive and optically no longer than
      maxTau, given the two inequalities that define the cut count. */
  lemma FinalPieceBound(length: real, sigma: real, maxTau: real, m: real, step: real)
    requires sigma > 0.0 && maxTau > 0.0 && step == maxTau / sigma
    requires length * sigma <= (m + 1.0) * maxTau
    requires m * maxTau < length * sigma
    ensures 0.0 < length - m * step
    ensures (length - m * step) * sigma <= maxTau
  {
    assert step * sigma == maxTau;
    assert (length - m * step) * sigma == length * sigma - m * (step * sigma);
    assert (length - m * step) * sigma == length * sigma - m * maxTau;
  }

  /** A full piece has positive length and optical length exactly maxTau. */
  lemma FullPieceBound(sigma: real, maxTau: real, step: real)
    requires sigma > 0.0 && maxTau > 0.0 && step == maxTau / sigma
    ensures step > 0.0 && step * sigma == maxTau
  {
  }

  /** Given the inequalities that define the cut count n, every piece is
      optically no longer than maxTau, whatever the length; a piece of a
      non-negative length is non-negative, and positive when the length is. */
  lemma PieceLengthBound(i: int, n: int, length: real, maxTau: real, sigma: real)
    requires maxTau > 0.0 && sigma >= 0.0 && 0 <= i < n
    requires n > 1 ==> sigma > 0.0
    requires length * sigma <= n as real * maxTau
    requires n == 1 || (n - 1) as real * maxTau < length * sigma
    ensures var len := PieceLength(i, n, length, maxTau, sigma);
            len * sigma <= maxTau
            && (length >= 0.0 ==> 0.0 <= len)
            && (length > 0.0 ==> len > 0.0)
  {
    if n == 1 {
      assert length * sigma <= 1 as real * maxTau;
    } else if i < n - 1 {
      FullPieceBound(sigma, maxTau, maxTau / sigma);
    } else {
      FinalPieceOf(length, sigma, maxTau, n, (n - 1) as real, maxTau / sigma);
    }
  }

  /** The cut count's defining inequalities, restated for the last piece. */
  lemma FinalPieceOf(length: real, sigma: real, maxTau: real, n: int, m: real, step: real)
    requires maxTau > 0.0 && sigma > 0.0 && n >= 2 && m == (n - 1) as real && step == maxTau / sigma
    requires length * sigma <= n as real * maxTau
    requires (n - 1) as real * maxTau < length * sigma
    ensures 0.0 < length - m * step
    ensures (length - m * step) * sigma <= maxTau
  {
    assert n as real == m + 1.0;
    FinalPieceBound(length, sigma, maxTau, m, step);
  }

  /** No piece of a segment is optically longer than maxTau; the pieces of
      a non-negative length are non-negative, and those of a positive
      length are all positive. */
  lemma PiecesWithinOpticalBound(length: real, mat: Material, id: int, fwd: int,
                                 bwd: int, maxTau: real)
    requires maxTau > 0.0
    ensures var ps := Pieces(length, mat, id, fwd, bwd, maxTau);
            forall i :: 0 <= i < |ps| ==> OpticalLength(ps[i]) <= maxTau
    ensures var ps := Pieces(length, mat, id, fwd, bwd, maxTau);
            length >= 0.0 ==> forall i :: 0 <= i < |ps| ==> 0.0 <= ps[i].length
    ensures var ps := Pieces(length, mat, id, fwd, bwd, maxTau);
            length > 0.0 ==> forall i :: 0 <= i < |ps| ==> ps[i].length > 0.0
  {
    var ps := Pieces(length, mat, id, fwd, bwd, maxTau);
    var sigma := MaxSigmaT(mat.sigmaT);
    var n := NumCuts(length, sigma, maxTau);
    SplitNeedsPositiveSigma(length, sigma, maxTau);
    forall i | 0 <= i < |ps|
      ensures OpticalLength(ps[i]) <= maxTau
      ensures length >= 0.0 ==> 0.0 <= ps[i].length
      ensures length > 0.0 ==> ps[i].length > 0.0
    {
      PieceLengthBound(i, n, length, maxTau, sigma);
      assert ps[i].length == PieceLength(i, n, length, maxTau, sigma);
      assert ps[i].material == mat;
    }
  }
}
