# MOC kernels of OpenMOC, in Dafny

OpenMOC traces characteristic tracks through a reactor geometry. Each track
is cut into geometric segments, and each segment is handed to a *kernel*:

- the **counter kernel** counts how many segment records the track needs;
- the **segmentation kernel** writes those records into a temporary
  segment buffer;
- the **volume kernel** adds each segment's weighted length to the volume
  of its flat source region (FSR).

Every kernel computes how many pieces a segment is cut into. The count is
chosen so that no piece has an optical length (length × largest total
cross-section of its material) above the kernel's maximum optical length
`max_tau`. It is `max(ceil(length · max σt / max_tau), 1)`, where max σt is
the largest per-group total cross-section, floored at 0. The counter and
volume kernels only add this count to their running count. The
segmentation kernel also writes the pieces, and does nothing at all when
it has no buffer. The counter kernel's count sizes the buffer the
segmentation kernel fills, so the two kernels must agree on that count.

The model is value-based. A kernel is a `Kernel` datatype with three
variants: `Counter`, `Segmentation` (its buffer may be `Null`) and
`Volume` (it holds an FSR weight and a volume array). Every operation
returns the new kernel. Lengths, cross-sections and `max_tau` are exact
reals. Counts are unbounded integers. The source never checks that a
segment length is non-negative. A negative length gives one piece of that
length, so the sign of a piece is stated only for non-negative or positive
lengths.

Modules:

- `Optics` (`optics.dfy`): the largest cross-section, the ceiling and the
  cut count, each with the exact property it promises.
- `Kernels` (`kernels.dfy`): the segment record, the kernel state and the
  closed-form list of pieces. It also holds one `execute` for all three
  kernels, and the segmentation kernel's writing loop as a method proved
  equal to it. It ends with `newTrack`, `getCount` and
  `setMaxOpticalLength`.
- `Cutting` (`cutting.dfy`): the pieces of a segment sum to its length,
  and each piece is within the optical bound.
- `Tracks` (`tracks.dfy`): a whole track run through a kernel. The kernels
  agree on the count, the counter's count is enough room for the
  segmentation kernel, the buffer holds exactly the track's pieces in
  order, and the volumes receive exactly the weighted lengths.

## Model

| member | source | states |
|---|---|---|
| `Optics.MaxSigmaT` | src/MOCKernel.cpp:158-162 | the result is non-negative and at least every group's σt, and is either 0 or one of the group values: the maximum of the groups, floored at 0 |
| `Optics.FindMaxSigmaT` | src/MOCKernel.cpp:218-222 | the source's scan over the groups, which starts at 0 and keeps strictly larger values, computes exactly `MaxSigmaT` |
| `Optics.Ceil` | src/MOCKernel.cpp:224 | the result is the least integer not below its argument |
| `Optics.NumCuts` | src/MOCKernel.cpp:192 | the cut count is at least 1, n pieces of optical length `max_tau` cover the segment's optical length, and n − 1 pieces do not unless n = 1 |
| `Optics.NumCutsIsLeast` | src/MOCKernel.cpp:125-129 | no smaller positive number of pieces, each within `max_tau`, can cover the segment's optical length |
| `Optics.SplitNeedsPositiveSigma` | src/MOCKernel.cpp:224-228 | more than one cut implies max σt > 0 and length > 0, so the division `max_tau / max_sigma_t` only happens with a non-zero divisor |
| `Kernels.Pieces` | src/MOCKernel.cpp:226-248 | a segment is cut into exactly as many pieces as its cut count |
| `Kernels.Overwrite` | src/MOCKernel.cpp:229-248 | writing records from index c on keeps the buffer's size, puts the i-th record at c + i, and leaves every entry outside the window unchanged |
| `Kernels.Execute` | src/MOCKernel.cpp:145-248 | each kernel with work to do keeps `max_tau` and its variant and advances its count by exactly the cut count, so by at least 1. The segmentation kernel with no buffer returns its state unchanged, and with a buffer it keeps the buffer's size. The volume kernel adds `weight·length` to slot `id` and to no other slot |
| `Kernels.ExecuteWritesWindow` | src/MOCKernel.cpp:226-248 | after one segmentation `execute`, the written window holds the segment's material and FSR id in every piece. Only the last piece has the forward CMFD surface and only the first has the backward one; the others get −1. With one piece, that piece has both. Cuts only happen for max σt > 0, and every piece but the last then has length `max_tau / max_sigma_t`. Nothing outside the window changes |
| `Kernels.SegmentationExecute` | src/MOCKernel.cpp:210-248 | the source's steps (return on a null buffer, scan for max σt, compute the cut count, run the writing loop) produce the same result as `Execute`, and they write exactly the window described by `ExecuteWritesWindow` |
| `Kernels.WritePieces` | src/MOCKernel.cpp:227-248 | the writing loop subtracts each full piece from the remaining length and writes the remainder last. It leaves the count at start + `num_cuts` and the buffer equal to the closed-form pieces written from the start index |
| `Kernels.NewTrack` | src/MOCKernel.cpp:77-104 | the count becomes 0 and nothing else changes, except that the volume kernel also takes the new track's weight |
| `Kernels.SetMaxOpticalLength` | src/MOCKernel.cpp:131-133 | `max_tau` takes the given value; restoring the old value gives back the original kernel, so no other field changes |
| `Cutting.PiecesSumToLength` | src/MOCKernel.cpp:227-240 | the pieces' lengths sum to the segment's length: the remainder written last is exactly what the full pieces leave |
| `Cutting.PieceLengthBound` | src/MOCKernel.cpp:125-129 | given the inequalities that define the cut count, every piece is optically no longer than `max_tau` whatever the segment's length; a piece of a non-negative length is non-negative, and positive when the length is |
| `Cutting.PiecesWithinOpticalBound` | src/MOCKernel.cpp:224-240 | for every segment length, each piece has optical length at most `max_tau`. If the length is non-negative, every piece is non-negative; if it is positive, every piece is positive, including the last one |
| `Tracks.TrackCuts` | src/MOCKernel.cpp:192-195 | a track's total cut count is at least its number of segments |
| `Tracks.RunCount` | src/MOCKernel.cpp:171-196 | over a whole track, every kernel with work to do advances its count by exactly the track's total cut count |
| `Tracks.NullSegmentationRun` | src/MOCKernel.cpp:213-215 | a segmentation kernel without a buffer can be run over any track and comes out unchanged |
| `Tracks.KernelsAgreeOnTrack` | src/MOCKernel.cpp:164-224 | counter, volume and segmentation kernels that start from the same count and `max_tau` finish a track with the same count |
| `Tracks.CounterSizesSegmentation` | src/MOCKernel.cpp:171-177 | a buffer at least as long as the counter kernel's final count has room for every piece the segmentation kernel writes for that track |
| `Tracks.SegmentationRunWrites` | src/MOCKernel.cpp:226-248 | after a track the buffer is its old prefix up to the starting count, then the pieces of every segment back to back in track order, then its old suffix |
| `Tracks.TrackPiecesLength` | src/MOCKernel.cpp:237-240 | the pieces written for a track sum to the track's total segment length |
| `Tracks.TrackPiecesWithinOpticalBound` | src/MOCKernel.cpp:125-129 | no piece written for a track is optically longer than `max_tau`. If every segment length is non-negative, no piece is negative; if every segment length is positive, every piece is positive |
| `Tracks.VolumeRunAccumulates` | src/MOCKernel.cpp:136-152 | over a track the volume kernel keeps its weight and adds to each FSR slot the weighted lengths of exactly that FSR's segments; other slots gain nothing |
| `Tracks.RegionVolumeIsWeightedLength` | src/MOCKernel.cpp:152 | the accumulated per-segment products equal the weight times the FSR's total segment length |
| `Tracks.CountSinceNewTrack` | src/MOCKernel.cpp:113-122 | after `newTrack` and a track's `execute` calls, `getCount` returns the track's total cut count, which is at least the number of `execute` calls. This holds for every kernel except a segmentation kernel without a buffer, whose count stays 0 (`Tracks.NullSegmentationRun`) |

## Left out

- The constructors (src/MOCKernel.cpp:10-58) read the initial `max_tau`, the segment buffer, the FSR locks, the volume buffer and the quadrature from a `TrackGenerator`, which is not part of this model. Here these are fields of the kernel value.
- The `dynamic_cast` to `TrackGenerator3D` that decides whether a segmentation kernel gets a buffer is modelled only by its result, `SegmentBuffer.Null` or `Buffer`.
- The weight in `VolumeKernel::newTrack` is a product of quadrature spacings and weights, and a polar factor for 3D tracks. The quadrature is not part of this model, so the product is a parameter of `NewTrack`.
- The OpenMP locks around the volume update and the thread id in the segmentation constructor are left out. They are concurrency only; the update is modelled as a sequential array update.
- Floating-point rounding is not modelled: lengths, cross-sections and optical lengths are exact reals. With floats, the last piece's remainder and the sum of the pieces hold only up to rounding.
- Overflow of the `(int)` cast of `ceil` and of the `int` counter is not modelled. Counts are mathematical integers.
- The source checks none of these conditions, so they are stated as preconditions: `max_tau > 0` wherever a cut count is computed, an in-range FSR id for the volume kernel, and a segment buffer with room for `count + num_cuts` entries from a non-negative count.
- The source's segment record has fields that `execute` does not write. Only the five written fields (length, material, region id, forward and backward CMFD surface) are modelled.
- A `Material*` is modelled as a value: an id plus its per-group σt. The number of energy groups is the length of that sequence.
- `GetCount` only reads the count and has no contract of its own. Its meaning is stated by `Tracks.CountSinceNewTrack`. The source's comment calls the count the number of execute calls; with cutting, the code counts pieces, which is at least that number. This holds for every kernel except a segmentation kernel without a buffer, whose count stays 0 (`Tracks.NullSegmentationRun`).
- The constructive solid geometry (surfaces, cells, universes, lattices, point location) that the C5G7 benchmark script builds, and the script itself, are left out. They are library calls whose implementations are not part of this model.
