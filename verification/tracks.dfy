/** A track is handed to a kernel as a sequence of geometric segments, one
    execute call each, after the kernel has been prepared for the track.
    The counter kernel is run first to size the segment storage that the
    segmentation kernel then fills, so the two must agree on the count.
 */
module Tracks {
  import opened Optics
  import opened Kernels
  import opened Cutting

  /** One geometric segment of a track, as passed to execute. */
  datatype Crossing = Crossing(
    length: real,
    material: Material,
    regionId: int,
    cmfdSurfaceFwd: int,
    cmfdSurfaceBwd: int)

  /** The number of pieces all crossings of a track are cut into; at least
      one per crossing. */
  function TrackCuts(cs: seq<Crossing>, maxTau: real): (total: int)
    requires maxTau > 0.0
    ensures total >= |cs|
    decreases |cs|
  {
    if |cs| == 0 then 0
    else Cuts(cs[0].length, cs[0].material, maxTau) + TrackCuts(cs[1..], maxTau)
  }

  /** What running a kernel over a whole track needs: positive maxTau
      wherever cuts are counted, in-range volume slots, and a segment
      buffer with room for every piece of the track. */
  predicate CanRun(k: Kernel, cs: seq<Crossing>)
  {
    match k
    case Counter(_, maxTau) => maxTau > 0.0
    case Volume(_, maxTau, _, volumes) =>
      maxTau > 0.0 && forall i :: 0 <= i < |cs| ==> 0 <= cs[i].regionId < |volumes|
    case Segmentation(_, _, Null) => true
    case Segmentation(count, maxTau, Buffer(entries)) =>
      maxTau > 0.0 && 0 <= count && count + TrackCuts(cs, maxTau) <= |entries|
  }

  function ExecuteCrossing(k: Kernel, c: Crossing): Kernel
    requires CanExecute(k, c.length, c.material, c.regionId)
  {
    Execute(k, c.length, c.material, c.regionId, c.cmfdSurfaceFwd, c.cmfdSurfaceBwd)
  }

  /** The kernel after execute has been called on every crossing in order. */
  function Run(k: Kernel, cs: seq<Crossing>): Kernel
    requires CanRun(k, cs)
    decreases |cs|
  {
    if |cs| == 0 then k
    else Run(ExecuteCrossing(k, cs[0]), cs[1..])
  }

  /** The pieces one crossing is cut into. */
  function CrossingPieces(c: Crossing, maxTau: real): seq<Segment>
    requires maxTau > 0.0
  {
    Pieces(c.length, c.material, c.regionId, c.cmfdSurfaceFwd, c.cmfdSurfaceBwd, maxTau)
  }

  /** The pieces of every crossing of a track, in track order. */
  function TrackPieces(cs: seq<Crossing>, maxTau: real): (ps: seq<Segment>)
    requires maxTau > 0.0
    ensures |ps| == TrackCuts(cs, maxTau)
    decreases |cs|
  {
    if |cs| == 0 then []
    else CrossingPieces(cs[0], maxTau) + TrackPieces(cs[1..], maxTau)
  }

  /** The summed length of a track's crossings. */
  function TrackLength(cs: seq<Crossing>): real
    decreases |cs|
  {
    if |cs| == 0 then 0.0 else cs[0].length + TrackLength(cs[1..])
  }

  /** The summed length of the crossings of one flat source region. */
  function RegionLength(cs: seq<Crossing>, id: int): real
    decreases |cs|
  {
    if |cs| == 0 then 0.0
    else (if cs[0].regionId == id then cs[0].length else 0.0) + RegionLength(cs[1..], id)
  }

  /** Every kernel that does work advances its count over a track by exactly
      the track's cut count. */
  lemma {:induction false} RunCount(k: Kernel, cs: seq<Crossing>)
    requires CanRun(k, cs) && !(k.Segmentation? && k.segments.Null?)
    ensures Run(k, cs).count == k.count + TrackCuts(cs, k.maxTau)
    decreases |cs|
  {
    if |cs| > 0 {
      RunCount(ExecuteCrossing(k, cs[0]), cs[1..]);
    }
  }

  /** Without a buffer the segmentation kernel ignores a whole track. */
  lemma {:induction false} NullSegmentationRun(k: Kernel, cs: seq<Crossing>)
    requires k.Segmentation? && k.segments.Null?
    ensures CanRun(k, cs) && Run(k, cs) == k
    decreases |cs|
  {
    if |cs| > 0 {
      NullSegmentationRun(k, cs[1..]);
    }
  }

  /** Counter, volume and segmentation kernels started from the same count
      and maxTau end a track with the same count. */
  lemma {:induction false} KernelsAgreeOnTrack(count: int, maxTau: real, weight: real,
                                              volumes: seq<real>, entries: seq<Segment>,
                                              cs: seq<Crossing>)
    requires CanRun(Volume(count, maxTau, weight, volumes), cs)
    requires CanRun(Segmentation(count, maxTau, Buffer(entries)), cs)
    ensures CanRun(Counter(count, maxTau), cs)
    ensures Run(Counter(count, maxTau), cs).count
            == Run(Volume(count, maxTau, weight, volumes), cs).count
            == Run(Segmentation(count, maxTau, Buffer(entries)), cs).count
  {
    RunCount(Counter(count, maxTau), cs);
    RunCount(Volume(count, maxTau, weight, volumes), cs);
    RunCount(Segmentation(count, maxTau, Buffer(entries)), cs);
  }

  /** A buffer as large as the counter kernel's count over a track has room
      for everything the segmentation kernel writes for that track. */
  lemma {:induction false} CounterSizesSegmentation(count: int, maxTau: real,
                                                   entries: seq<Segment>, cs: seq<Crossing>)
    requires maxTau > 0.0 && 0 <= count
    requires |entries| >= Run(Counter(count, maxTau), cs).count
    ensures CanRun(Segmentation(count, maxTau, Buffer(entries)), cs)
  {
    RunCount(Counter(count, maxTau), cs);
  }

  /** Over a whole track the segmentation kernel writes the pieces of every
      crossing back to back from its starting count, and nothing else. */
  lemma {:induction false} SegmentationRunWrites(k: Kernel, cs: seq<Crossing>)
    requires k.Segmentation? && k.segments.Buffer? && CanRun(k, cs)
    ensures var r := Run(k, cs);
            r.Segmentation? && r.segments.Buffer?
            && r.segments.entries == Overwrite(k.segments.entries, k.count, TrackPieces(cs, k.maxTau))
    decreases |cs|
  {
    var c, e, tau := k.count, k.segments.entries, k.maxTau;
    if |cs| > 0 {
      var x := cs[0];
      var k1 := ExecuteCrossing(k, x);
      assert k1.segments.entries == Overwrite(e, c, CrossingPieces(x, tau));
      SegmentationRunWrites(k1, cs[1..]);
      OverwriteConcat(e, c, CrossingPieces(x, tau), TrackPieces(cs[1..], tau));
    } else {
      assert e == Overwrite(e, c, []);
    }
  }

  /** The pieces of a track add up to the track's length. */
  lemma {:induction false} TrackPiecesLength(cs: seq<Crossing>, maxTau: real)
    requires maxTau > 0.0
    ensures TotalLength(TrackPieces(cs, maxTau)) == TrackLength(cs)
    decreases |cs|
  {
    if |cs| > 0 {
      var x := cs[0];
      TotalLengthAppend(CrossingPieces(x, maxTau), TrackPieces(cs[1..], maxTau));
      PiecesSumToLength(x.length, x.material, x.regionId, x.cmfdSurfaceFwd, x.cmfdSurfaceBwd, maxTau);
      TrackPiecesLength(cs[1..], maxTau);
    }
  }

  /** No piece of a track is optically longer than maxTau; a track of
      non-negative crossing lengths has no negative piece, and one of
      positive crossing lengths only positive pieces. */
  lemma TrackPiecesWithinOpticalBound(cs: seq<Crossing>, maxTau: real)
    requires maxTau > 0.0
    ensures var ps := TrackPieces(cs, maxTau);
            forall i :: 0 <= i < |ps| ==> OpticalLength(ps[i]) <= maxTau
    ensures var ps := TrackPieces(cs, maxTau);
            (forall i :: 0 <= i < |cs| ==> cs[i].length >= 0.0) ==>
              forall i :: 0 <= i < |ps| ==> 0.0 <= ps[i].length
    ensures var ps := TrackPieces(cs, maxTau);
            (forall i :: 0 <= i < |cs| ==> cs[i].length > 0.0) ==>
              forall i :: 0 <= i < |ps| ==> ps[i].length > 0.0
  {
    TrackPiecesOptical(cs, maxTau);
    if forall i :: 0 <= i < |cs| ==> cs[i].length >= 0.0 {
      TrackPiecesNonNegative(cs, maxTau);
    }
    if forall i :: 0 <= i < |cs| ==> cs[i].length > 0.0 {
      TrackPiecesPositive(cs, maxTau);
    }
  }

  /** No piece of a track is optically longer than maxTau. */
  lemma {:induction false} TrackPiecesOptical(cs: seq<Crossing>, maxTau: real)
    requires maxTau > 0.0
    ensures forall i :: 0 <= i < |TrackPieces(cs, maxTau)| ==>
              OpticalLength(TrackPieces(cs, maxTau)[i]) <= maxTau
    decreases |cs|
  {
    if |cs| > 0 {
      CrossingWithinOpticalBound(cs[0], maxTau);
      TrackPiecesOptical(cs[1..], maxTau);
      // the ensures above name TrackPieces(cs, maxTau) itself rather than a
      // let-bound copy, so that the recursive call's postcondition matches
      // the precondition below directly
      ConcatOptical(CrossingPieces(cs[0], maxTau), TrackPieces(cs[1..], maxTau),
                    TrackPieces(cs, maxTau), maxTau);
    }
  }

  /** A track of non-negative crossing lengths has no negative piece. */
  lemma {:induction false} TrackPiecesNonNegative(cs: seq<Crossing>, maxTau: real)
    requires maxTau > 0.0
    requires forall i :: 0 <= i < |cs| ==> cs[i].length >= 0.0
    ensures forall i :: 0 <= i < |TrackPieces(cs, maxTau)| ==>
              0.0 <= TrackPieces(cs, maxTau)[i].length
    decreases |cs|
  {
    if |cs| > 0 {
      assert forall i :: 0 <= i < |cs[1..]| ==> cs[1..][i] == cs[i + 1];
      CrossingWithinOpticalBound(cs[0], maxTau);
      TrackPiecesNonNegative(cs[1..], maxTau);
      ConcatNonNegative(CrossingPieces(cs[0], maxTau), TrackPieces(cs[1..], maxTau),
                        TrackPieces(cs, maxTau));
    }
  }

  /** A track of positive crossing lengths has only positive pieces. */
  lemma {:induction false} TrackPiecesPositive(cs: seq<Crossing>, maxTau: real)
    requires maxTau > 0.0
    requires forall i :: 0 <= i < |cs| ==> cs[i].length > 0.0
    ensures forall i :: 0 <= i < |TrackPieces(cs, maxTau)| ==>
              TrackPieces(cs, maxTau)[i].length > 0.0
    decreases |cs|
  {
    if |cs| > 0 {
      assert forall i :: 0 <= i < |cs[1..]| ==> cs[1..][i] == cs[i + 1];
      CrossingWithinOpticalBound(cs[0], maxTau);
      TrackPiecesPositive(cs[1..], maxTau);
      ConcatPositive(CrossingPieces(cs[0], maxTau), TrackPieces(cs[1..], maxTau),
                     TrackPieces(cs, maxTau));
    }
  }

  /** The single-crossing bounds, stated on the crossing's pieces. */
  lemma CrossingWithinOpticalBound(c: Crossing, maxTau: real)
    requires maxTau > 0.0
    ensures var ps := CrossingPieces(c, maxTau);
            forall i :: 0 <= i < |ps| ==> OpticalLength(ps[i]) <= maxTau
    ensures var ps := CrossingPieces(c, maxTau);
            c.length >= 0.0 ==> forall i :: 0 <= i < |ps| ==> 0.0 <= ps[i].length
    ensures var ps := CrossingPieces(c, maxTau);
            c.length > 0.0 ==> forall i :: 0 <= i < |ps| ==> ps[i].length > 0.0
  {
    PiecesWithinOpticalBound(c.length, c.material, c.regionId, c.cmfdSurfaceFwd, c.cmfdSurfaceBwd, maxTau);
  }

  /** A piece bound that holds on two runs of pieces holds on the run
      made of both, one lemma per bound. */
  lemma ConcatOptical(p: seq<Segment>, q: seq<Segment>, ps: seq<Segment>, maxTau: real)
    requires ps == p + q
    requires forall i :: 0 <= i < |p| ==> OpticalLength(p[i]) <= maxTau
    requires forall i :: 0 <= i < |q| ==> OpticalLength(q[i]) <= maxTau
    ensures forall i :: 0 <= i < |ps| ==> OpticalLength(ps[i]) <= maxTau
  {
  }

  lemma ConcatNonNegative(p: seq<Segment>, q: seq<Segment>, ps: seq<Segment>)
    requires ps == p + q
    requires forall i :: 0 <= i < |p| ==> 0.0 <= p[i].length
    requires forall i :: 0 <= i < |q| ==> 0.0 <= q[i].length
    ensures forall i :: 0 <= i < |ps| ==> 0.0 <= ps[i].length
  {
  }

  lemma ConcatPositive(p: seq<Segment>, q: seq<Segment>, ps: seq<Segment>)
    requires ps == p + q
    requires forall i :: 0 <= i < |p| ==> p[i].length > 0.0
    requires forall i :: 0 <= i < |q| ==> q[i].length > 0.0
    ensures forall i :: 0 <= i < |ps| ==> ps[i].length > 0.0
  {
  }

  /** The volume a track contributes to one flat source region: weight
      times length, summed over the region's crossings. */
  function RegionVolume(cs: seq<Crossing>, id: int, weight: real): real
    decreases |cs|
  {
    if |cs| == 0 then 0.0
    else (if cs[0].regionId == id then weight * cs[0].length else 0.0) + RegionVolume(cs[1..], id, weight)
  }

  /** Over a track the volume kernel adds to every region's slot the
      weighted lengths of that region's crossings, and nothing else. */
  lemma {:induction false} VolumeRunAccumulates(k: Kernel, cs: seq<Crossing>)
    requires k.Volume? && CanRun(k, cs)
    ensures Run(k, cs).Volume? && Run(k, cs).weight == k.weight
    ensures |Run(k, cs).volumes| == |k.volumes|
    ensures forall j :: 0 <= j < |k.volumes| ==>
              Run(k, cs).volumes[j] == k.volumes[j] + RegionVolume(cs, j, k.weight)
    decreases |cs|
  {
    if |cs| > 0 {
      assert forall i :: 0 <= i < |cs[1..]| ==> cs[1..][i] == cs[i + 1];
      VolumeRunAccumulates(ExecuteCrossing(k, cs[0]), cs[1..]);
      forall j | 0 <= j < |k.volumes|
        ensures Run(k, cs).volumes[j] == k.volumes[j] + RegionVolume(cs, j, k.weight)
      {
        assert ExecuteCrossing(k, cs[0]).volumes[j]
               == k.volumes[j] + (if cs[0].regionId == j then k.weight * cs[0].length else 0.0);
      }
    }
  }

  /** The weighted sum is the weight times the region's crossing length. */
  lemma {:induction false} RegionVolumeIsWeightedLength(cs: seq<Crossing>, id: int, weight: real)
    ensures RegionVolume(cs, id, weight) == weight * RegionLength(cs, id)
    decreases |cs|
  {
    if |cs| > 0 {
      RegionVolumeIsWeightedLength(cs[1..], id, weight);
      var here := if cs[0].regionId == id then cs[0].length else 0.0;
      Distribute(weight, here, RegionLength(cs[1..], id));
    }
  }

  lemma Distribute(w: real, a: real, b: real)
    ensures w * (a + b) == w * a + w * b
  {
  }

  /** After newTrack the count read back at the end of a track is the
      track's cut count, so at least the number of execute calls. */
  lemma CountSinceNewTrack(k: Kernel, trackWeight: real, cs: seq<Crossing>)
    requires !(k.Segmentation? && k.segments.Null?)
    requires CanRun(NewTrack(k, trackWeight), cs)
    ensures GetCount(Run(NewTrack(k, trackWeight), cs)) == TrackCuts(cs, k.maxTau) >= |cs|
  {
    RunCount(NewTrack(k, trackWeight), cs);
  }
}
