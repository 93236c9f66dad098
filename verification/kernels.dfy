/** The MOC kernels: small state machines that are handed the geometric
    segments of one track in order. Every kernel keeps a running count of
    the (possibly cut) segments it has seen and a maximum optical length.
    The counter kernel only counts; the segmentation kernel also writes the
    cut pieces into a segment buffer; the volume kernel also adds the
    weighted segment length to the volume of the segment's flat source
    region. Kernels are values here: every operation returns the new state.
 */
module Kernels {
  import opened Optics

  /** A material as the kernels see it: an identity and its total
      cross-section in every energy group. */
  datatype Material = Material(id: int, sigmaT: seq<real>)

  /** The tag written for a piece that does not end (or start) on a
      coarse-mesh surface. */
  const NoSurface: int := -1

  /** One record of the segment buffer, with the fields a kernel writes. */
  datatype Segment = Segment(
    length: real,
    material: Material,
    regionId: int,
    cmfdSurfaceFwd: int,
    cmfdSurfaceBwd: int)

  /** The segmentation kernel's buffer, which is absent when the track
      generator has no temporary segment storage. */
  datatype SegmentBuffer = Null | Buffer(entries: seq<Segment>)

  datatype Kernel =
    | Counter(count: int, maxTau: real)
    | Segmentation(count: int, maxTau: real, segments: SegmentBuffer)
    | Volume(count: int, maxTau: real, weight: real, volumes: seq<real>)

  /** The number of pieces a segment of this material is cut into. */
  function Cuts(length: real, mat: Material, maxTau: real): int
    requires maxTau > 0.0
  {
    NumCuts(length, MaxSigmaT(mat.sigmaT), maxTau)
  }

  /** The length of piece i of n: all pieces but the last have the fixed
      length maxTau / maxSigmaT, the last takes what is left. */
  function PieceLength(i: int, n: int, length: real, maxTau: real, maxSigmaT: real): real
    requires 0 <= i < n
    requires n > 1 ==> maxSigmaT != 0.0
  {
    if i < n - 1 then maxTau / maxSigmaT
    else if n == 1 then length
    else length - (n - 1) as real * (maxTau / maxSigmaT)
  }

  /** Piece i of n of a segment: the backward surface goes to the first
      piece and the forward surface to the last. */
  function Piece(i: int, n: int, length: real, maxTau: real, maxSigmaT: real,
                 mat: Material, id: int, fwd: int, bwd: int): Segment
    requires 0 <= i < n
    requires n > 1 ==> maxSigmaT != 0.0
  {
    Segment(PieceLength(i, n, length, maxTau, maxSigmaT), mat, id,
            if i == n - 1 then fwd else NoSurface,
            if i == 0 then bwd else NoSurface)
  }

  /** All the pieces a segment is cut into, in track order. */
  function Pieces(length: real, mat: Material, id: int, fwd: int, bwd: int,
                  maxTau: real): (ps: seq<Segment>)
    requires maxTau > 0.0
    ensures |ps| == Cuts(length, mat, maxTau)
  {
    var sigma := MaxSigmaT(mat.sigmaT);
    var n := NumCuts(length, sigma, maxTau);
    SplitNeedsPositiveSigma(length, sigma, maxTau);
    seq(n, i requires 0 <= i < n => Piece(i, n, length, maxTau, sigma, mat, id, fwd, bwd))
  }

  /** What a call of execute needs that the kernels themselves never check:
      a positive maximum optical length wherever the cut count is computed,
      an in-range volume slot, and room in the segment buffer. */
  predicate CanExecute(k: Kernel, length: real, mat: Material, id: int)
  {
    match k
    case Counter(_, maxTau) => maxTau > 0.0
    case Volume(_, maxTau, _, volumes) => maxTau > 0.0 && 0 <= id < |volumes|
    case Segmentation(_, _, Null) => true
    case Segmentation(count, maxTau, Buffer(entries)) =>
      maxTau > 0.0 && 0 <= count && count + Cuts(length, mat, maxTau) <= |entries|
  }

  /** The buffer with ps written over it from index c on. */
  function Overwrite(entries: seq<Segment>, c: int, ps: seq<Segment>): (r: seq<Segment>)
    requires 0 <= c && c + |ps| <= |entries|
    ensures |r| == |entries|
    ensures forall j :: c <= j < c + |ps| ==> r[j] == ps[j - c]
    ensures forall j :: 0 <= j < |entries| && !(c <= j < c + |ps|) ==> r[j] == entries[j]
  {
    entries[..c] + ps + entries[c + |ps|..]
  }

  /** Writing one more piece right after a written prefix extends the prefix. */
  lemma OverwriteExtend(entries: seq<Segment>, c: int, ps: seq<Segment>, i: int)
    requires 0 <= c && c + |ps| <= |entries| && 0 <= i < |ps|
    ensures Overwrite(entries, c, ps[..i])[c + i := ps[i]] == Overwrite(entries, c, ps[..i + 1])
  {
    var lhs := Overwrite(entries, c, ps[..i])[c + i := ps[i]];
    var rhs := Overwrite(entries, c, ps[..i + 1]);
    assert forall j :: 0 <= j < |entries| ==> lhs[j] == rhs[j];
  }

  /** Writing p and then q right after it is writing p + q. */
  lemma OverwriteConcat(entries: seq<Segment>, c: int, p: seq<Segment>, q: seq<Segment>)
    requires 0 <= c && c + |p| + |q| <= |entries|
    ensures Overwrite(Overwrite(entries, c, p), c + |p|, q) == Overwrite(entries, c, p + q)
  {
    var lhs := Overwrite(Overwrite(entries, c, p), c + |p|, q);
    var rhs := Overwrite(entries, c, p + q);
    assert forall j :: 0 <= j < |entries| ==> lhs[j] == rhs[j];
  }

  /** One call of execute for a segment of the given length, material and
      flat source region, bounded by the given forward and backward
      coarse-mesh surfaces. */
  function Execute(k: Kernel, length: real, mat: Material, id: int, fwd: int, bwd: int): (r: Kernel)
    requires CanExecute(k, length, mat, id)
    ensures r.maxTau == k.maxTau
    ensures r.Counter? == k.Counter? && r.Segmentation? == k.Segmentation? && r.Volume? == k.Volume?
    // every kernel with work to do advances its count by the cut count, so by at least one
    ensures !(k.Segmentation? && k.segments.Null?) ==>
              r.count == k.count + Cuts(length, mat, k.maxTau) > k.count
    // with no buffer the segmentation kernel does nothing at all
    ensures k.Segmentation? && k.segments.Null? ==> r == k
    // the volume kernel adds the weighted length to slot id and to no other slot
    ensures k.Volume? ==>
              r.weight == k.weight && |r.volumes| == |k.volumes|
              && r.volumes[id] == k.volumes[id] + k.weight * length
              && forall j :: 0 <= j < |k.volumes| && j != id ==> r.volumes[j] == k.volumes[j]
    // a buffer keeps its size; what is written into it is stated by ExecuteWritesWindow
    ensures k.Segmentation? && k.segments.Buffer? ==>
              r.segments.Buffer? && |r.segments.entries| == |k.segments.entries|
  {
    match k
    case Counter(count, maxTau) =>
      Counter(count + Cuts(length, mat, maxTau), maxTau)
    case Volume(count, maxTau, weight, volumes) =>
      Volume(count + Cuts(length, mat, maxTau), maxTau, weight,
             volumes[id := volumes[id] + weight * length])
    case Segmentation(_, _, Null) => k
    case Segmentation(count, maxTau, Buffer(entries)) =>
      var ps := Pieces(length, mat, id, fwd, bwd, maxTau);
      Segmentation(count + |ps|, maxTau, Buffer(Overwrite(entries, count, ps)))
  }

  /** What a segmentation kernel with a buffer leaves in it: the window
      [c, c + n) starting at the old count c holds n pieces of the segment's
      material and region; only the last carries the forward surface and
      only the first the backward one; a cut happens only for a positive
      cross-section, and every piece but the last then has the fixed length
      maxTau / maxSigmaT; nothing outside the window changes. */
  predicate WritesWindow(before: seq<Segment>, after: seq<Segment>, c: int, n: int,
                         maxTau: real, mat: Material, id: int, fwd: int, bwd: int)
  {
    0 <= c && 1 <= n && c + n <= |before| && |after| == |before|
    && (forall j :: 0 <= j < |before| && !(c <= j < c + n) ==> after[j] == before[j])
    && (forall j :: c <= j < c + n ==> after[j].material == mat && after[j].regionId == id)
    && (forall j :: c <= j < c + n ==>
          after[j].cmfdSurfaceFwd == (if j == c + n - 1 then fwd else NoSurface))
    && (forall j :: c <= j < c + n ==>
          after[j].cmfdSurfaceBwd == (if j == c then bwd else NoSurface))
    && (n > 1 ==> MaxSigmaT(mat.sigmaT) > 0.0)
    && (forall j :: c <= j < c + n - 1 ==> after[j].length == maxTau / MaxSigmaT(mat.sigmaT))
  }

  lemma ExecuteWritesWindow(k: Kernel, length: real, mat: Material, id: int, fwd: int, bwd: int)
    requires k.Segmentation? && k.segments.Buffer? && CanExecute(k, length, mat, id)
    ensures var r := Execute(k, length, mat, id, fwd, bwd);
            WritesWindow(k.segments.entries, r.segments.entries, k.count, r.count - k.count,
                         k.maxTau, mat, id, fwd, bwd)
  {
    var sigma := MaxSigmaT(mat.sigmaT);
    SplitNeedsPositiveSigma(length, sigma, k.maxTau);
  }

  lemma StepDown(length: real, i: int, step: real)
    ensures length - i as real * step - step == length - (i + 1) as real * step
  {
  }

  /** The segmentation kernel's execute step by step, as
      `SegmentationKernel::execute` does it: with no buffer,
      nothing to do; otherwise find the largest cross-section and the cut
      count, then write the pieces from the current count on. */
  method SegmentationExecute(k: Kernel, length: real, mat: Material, id: int, fwd: int, bwd: int)
    returns (r: Kernel)
    requires k.Segmentation? && CanExecute(k, length, mat, id)
    ensures r == Execute(k, length, mat, id, fwd, bwd)
    ensures k.segments.Null? ==> r == k
    ensures k.segments.Buffer? ==> r.segments.Buffer? && r.maxTau == k.maxTau
    ensures k.segments.Buffer? ==>
              WritesWindow(k.segments.entries, r.segments.entries, k.count, r.count - k.count,
                           k.maxTau, mat, id, fwd, bwd)
  {
    if k.segments.Null? {
      return k;
    }
    var maxSigmaT := FindMaxSigmaT(mat.sigmaT);
    var numCuts := NumCuts(length, maxSigmaT, k.maxTau);
    var segments, count := WritePieces(k.segments.entries, k.count, numCuts, length, k.maxTau,
                                       maxSigmaT, mat, id, fwd, bwd);
    r := Segmentation(count, k.maxTau, Buffer(segments));
    ExecuteWritesWindow(k, length, mat, id, fwd, bwd);
  }

  /** Piece i of the closed form, read off one index at a time. */
  lemma PieceAt(length: real, mat: Material, id: int, fwd: int, bwd: int, maxTau: real, i: int)
    requires maxTau > 0.0 && 0 <= i < Cuts(length, mat, maxTau)
    ensures var sigma, n := MaxSigmaT(mat.sigmaT), Cuts(length, mat, maxTau);
            (n > 1 ==> sigma > 0.0)
            && Pieces(length, mat, id, fwd, bwd, maxTau)[i]
               == Segment(PieceLength(i, n, length, maxTau, sigma), mat, id,
                          if i == n - 1 then fwd else NoSurface,
                          if i == 0 then bwd else NoSurface)
  {
    SplitNeedsPositiveSigma(length, MaxSigmaT(mat.sigmaT), maxTau);
  }

  /** The writing loop: the full-length pieces one by one, each subtracted
      from the remaining length, then the remainder as the last piece. */
  method WritePieces(before: seq<Segment>, start: int, numCuts: int, length: real, maxTau: real,
                     maxSigmaT: real, mat: Material, id: int, fwd: int, bwd: int)
    returns (segments: seq<Segment>, count: int)
    requires maxTau > 0.0 && maxSigmaT == MaxSigmaT(mat.sigmaT)
    requires numCuts == NumCuts(length, maxSigmaT, maxTau)
    requires 0 <= start && start + numCuts <= |before|
    ensures count == start + numCuts
    ensures segments == Overwrite(before, start, Pieces(length, mat, id, fwd, bwd, maxTau))
  {
    ghost var ps := Pieces(length, mat, id, fwd, bwd, maxTau);
    segments := before;
    count := start;
    var remaining := length;
    var i := 0;
    while i < numCuts - 1
      invariant 0 <= i <= numCuts - 1
      invariant count == start + i
      invariant i > 0 ==> remaining == length - i as real * (maxTau / maxSigmaT)
      invariant i == 0 ==> remaining == length
      invariant segments == Overwrite(before, start, ps[..i])
    {
      PieceAt(length, mat, id, fwd, bwd, maxTau, i);
      var tempLength := maxTau / maxSigmaT;
      OverwriteExtend(before, start, ps, i);
      segments := segments[count := Segment(tempLength, mat, id, NoSurface,
                                            if i == 0 then bwd else NoSurface)];
      StepDown(length, i, tempLength);
      remaining := remaining - tempLength;
      count := count + 1;
      i := i + 1;
    }
    WriteLast(before, start, ps, segments, remaining, length, mat, id, fwd, bwd, maxTau);
    segments := segments[count := Segment(remaining, mat, id, fwd,
                                          if numCuts > 1 then NoSurface else bwd)];
    count := count + 1;
  }

  /** The last write of the loop, with the remainder as the last piece's
      length, completes the closed-form window. */
  lemma WriteLast(before: seq<Segment>, start: int, ps: seq<Segment>, segments: seq<Segment>,
                  remaining: real, length: real, mat: Material, id: int, fwd: int, bwd: int,
                  maxTau: real)
    requires maxTau > 0.0 && ps == Pieces(length, mat, id, fwd, bwd, maxTau)
    requires 0 <= start && start + |ps| <= |before|
    requires segments == Overwrite(before, start, ps[..|ps| - 1])
    requires |ps| > 1 ==> remaining == length - (|ps| - 1) as real * (maxTau / MaxSigmaT(mat.sigmaT))
    requires |ps| == 1 ==> remaining == length
    ensures segments[start + |ps| - 1 := Segment(remaining, mat, id, fwd,
                                                 if |ps| > 1 then NoSurface else bwd)]
            == Overwrite(before, start, ps)
  {
    var n := |ps|;
    PieceAt(length, mat, id, fwd, bwd, maxTau, n - 1);
    OverwriteExtend(before, start, ps, n - 1);
    assert ps[..n] == ps;
  }

  /** Preparing for a new track resets the count; the volume kernel also
      takes the new track's quadrature weight. */
  function NewTrack(k: Kernel, trackWeight: real): (r: Kernel)
    ensures r.count == 0
    ensures !k.Volume? ==> r.(count := k.count) == k
    ensures k.Volume? ==> r.Volume? && r.weight == trackWeight
                          && r.(count := k.count, weight := k.weight) == k
  {
    match k
    case Counter(_, maxTau) => Counter(0, maxTau)
    case Segmentation(_, maxTau, segments) => Segmentation(0, maxTau, segments)
    case Volume(_, maxTau, _, volumes) => Volume(0, maxTau, trackWeight, volumes)
  }

  /** The number of pieces counted since the kernel was created or last
      prepared for a new track. */
  function GetCount(k: Kernel): int
  {
    k.count
  }

  /** Replacing the maximum optical length changes nothing else. */
  function SetMaxOpticalLength(k: Kernel, maxTau: real): (r: Kernel)
    ensures r.maxTau == maxTau
    ensures r.(maxTau := k.maxTau) == k
  {
    k.(maxTau := maxTau)
  }
}
