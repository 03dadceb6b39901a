/**
 * What the ROI and seed detectors do with a network's output: pick the
 * anchor with the first strictly greatest positive confidence, read that
 * anchor's box or point, and turn it into pixel coordinates of the slice.
 * The network itself (resizing, normalisation, inference) is a parameter.
 */
module Detection {
  import opened KotlinNum

  /** The number of anchors in every output channel (`FloatArray(5376)`). */
  const Anchors := 5376

  /** The side of the square the networks take as input (`inputSize`). */
  const InputSize := 512

  /** An output of `channels` rows of one value per anchor. */
  predicate Shaped(output: seq<seq<real>>, channels: nat)
  {
    |output| == channels && forall c :: 0 <= c < channels ==> |output[c]| == Anchors
  }

  /** The ROI network's output `[1][5][5376]` (batch dropped): centre x, centre y, width, height, confidence. */
  type BoxOutput = o: seq<seq<real>> | Shaped(o, 5) witness seq(5, _ => seq(Anchors, _ => 0.0))

  /** The seed network's output `[1][8][5376]`: channel 4 the probability, channels 5 and 6 the point. */
  type PointOutput = o: seq<seq<real>> | Shaped(o, 8) witness seq(8, _ => seq(Anchors, _ => 0.0))

  /** The running best of the scan over the first `n` values: index and value, starting from (0, 0). */
  function BestOf(values: seq<real>, n: nat): (best: (int, real))
    requires n <= |values|
  {
    if n == 0 then (0, 0.0)
    else
      var prev := BestOf(values, n - 1);
      if values[n - 1] > prev.1 then (n - 1, values[n - 1]) else prev
  }

  /** The scan over all the values. */
  function Best(values: seq<real>): (int, real)
  {
    BestOf(values, |values|)
  }

  /**
   * The scan picks the first strictly greatest value when one is positive;
   * when none is, it keeps index 0 and value 0.
   */
  lemma {:induction false} BestOfIsFirstGreatest(values: seq<real>, n: nat)
    requires n <= |values|
    ensures var (i, v) := BestOf(values, n);
      0.0 <= v && (forall j :: 0 <= j < n ==> values[j] <= v) &&
      (v == 0.0 ==> i == 0) &&
      (v > 0.0 ==> 0 <= i < n && values[i] == v && forall j :: 0 <= j < i ==> values[j] < v)
  {
    if n > 0 {
      BestOfIsFirstGreatest(values, n - 1);
    }
  }

  /** `Best` as one statement: its value bounds every value, and its index is the first that reaches it, or 0. */
  lemma BestIsFirstGreatest(values: seq<real>)
    ensures var (i, v) := Best(values);
      0.0 <= v && (forall j :: 0 <= j < |values| ==> values[j] <= v) &&
      (v == 0.0 <==> i == 0 && (forall j :: 0 <= j < |values| ==> values[j] <= 0.0)) &&
      (v > 0.0 ==> 0 <= i < |values| && values[i] == v && forall j :: 0 <= j < i ==> values[j] < v)
  {
    BestOfIsFirstGreatest(values, |values|);
    var (i, v) := Best(values);
    if v > 0.0 {
      assert values[i] > 0.0;
    }
  }

  /** The argmax loop of the detectors: `if (confidences[i] > maxConf) { maxConf = …; maxConfIdx = i }`. */
  method ArgMax(confidences: seq<real>) returns (maxIndex: int, maxValue: real)
    ensures (maxIndex, maxValue) == Best(confidences)
    ensures 0 <= maxIndex && (|confidences| > 0 ==> maxIndex < |confidences|)
  {
    maxIndex, maxValue := 0, 0.0;
    var i := 0;
    while i < |confidences|
      invariant 0 <= i <= |confidences|
      invariant (maxIndex, maxValue) == BestOf(confidences, i)
      invariant 0 <= maxIndex && (i > 0 ==> maxIndex < i)
    {
      if confidences[i] > maxValue {
        maxValue := confidences[i];
        maxIndex := i;
      }
      i := i + 1;
    }
  }

  /**
   * The integer box of a centre and size in pixels: `boxX - boxW / 2` at
   * least 0, `boxX + boxW / 2` at most `imgW - 1`, and the same for y, with
   * JVM division and 32-bit sums. Corners are (x1, y1, x2, y2).
   */
  function ClampBox(boxX: int, boxY: int, boxW: int, boxH: int, imgW: int, imgH: int): (r: (int, int, int, int))
    ensures 0 <= r.0 && 0 <= r.1 && r.2 <= imgW - 1 && r.3 <= imgH - 1
    ensures IsInt(boxX - TruncDiv(boxW, 2)) && 0 <= boxX - TruncDiv(boxW, 2) ==> r.0 == boxX - TruncDiv(boxW, 2)
    ensures IsInt(boxY - TruncDiv(boxH, 2)) && 0 <= boxY - TruncDiv(boxH, 2) ==> r.1 == boxY - TruncDiv(boxH, 2)
    ensures IsInt(boxX + TruncDiv(boxW, 2)) && boxX + TruncDiv(boxW, 2) <= imgW - 1 ==> r.2 == boxX + TruncDiv(boxW, 2)
    ensures IsInt(boxY + TruncDiv(boxH, 2)) && boxY + TruncDiv(boxH, 2) <= imgH - 1 ==> r.3 == boxY + TruncDiv(boxH, 2)
  {
    (Max(0, WrapInt(boxX - TruncDiv(boxW, 2))), Max(0, WrapInt(boxY - TruncDiv(boxH, 2))),
     Min(imgW - 1, WrapInt(boxX + TruncDiv(boxW, 2))), Min(imgH - 1, WrapInt(boxY + TruncDiv(boxH, 2))))
  }

  /** The clamp does not keep the corners in order: a box centred past the right edge comes out inverted. */
  lemma ClampMayInvert()
    ensures var r := ClampBox(20, 5, 2, 2, 10, 10); r.0 > r.2
  {
    assert TruncDiv(2, 2) == 1;
  }

  /** The pixel box of anchor `i` of a box output on an `imgW` × `imgH` slice: each normalised value times the side, truncated. */
  function BoxAt(output: BoxOutput, i: int, imgW: int, imgH: int): (int, int, int, int)
    requires 0 <= i < Anchors
  {
    ClampBox(FloatToInt(output[0][i] * imgW as real), FloatToInt(output[1][i] * imgH as real),
             FloatToInt(output[2][i] * imgW as real), FloatToInt(output[3][i] * imgH as real), imgW, imgH)
  }

  /**
   * `convertToPixelCoordinates`: the same clamp of a normalised centre and
   * size, as the array `[x1, y1, x2, y2]`.
   */
  function PixelCoordinates(xCenter: real, yCenter: real, width: real, height: real,
                            originalWidth: int, originalHeight: int): (r: seq<int>)
    ensures |r| == 4
    ensures 0 <= r[0] && 0 <= r[1] && r[2] <= originalWidth - 1 && r[3] <= originalHeight - 1
  {
    var b := ClampBox(FloatToInt(xCenter * originalWidth as real), FloatToInt(yCenter * originalHeight as real),
                      FloatToInt(width * originalWidth as real), FloatToInt(height * originalHeight as real),
                      originalWidth, originalHeight);
    [b.0, b.1, b.2, b.3]
  }

  /** A point of the network's 512 × 512 input, mapped back into a range of `size` from `lo`: `lo + size * seed / 512`, truncated. */
  function Rescale(lo: int, size: int, seed: real): int
  {
    FloatToInt(lo as real + Scaled(size, seed))
  }

  /** `size * seed / 512`: the point's offset within the range, before truncation. */
  function Scaled(size: int, seed: real): real
  {
    size as real * (seed / InputSize as real)
  }

  /** A point inside the network's input is offset by between 0 and `size`. */
  lemma ScaledWithin(size: int, seed: real)
    requires 0 <= size && 0.0 <= seed <= InputSize as real
    ensures 0.0 <= Scaled(size, seed) <= size as real
  {
    FractionWithin(seed);
    ScaleDown(size as real, seed / InputSize as real);
  }

  /** A point inside the network's input lies between 0 and 1 of the way across it. */
  lemma FractionWithin(seed: real)
    requires 0.0 <= seed <= InputSize as real
    ensures 0.0 <= seed / InputSize as real <= 1.0
  {
  }

  lemma ScaleDown(w: real, t: real)
    requires 0.0 <= w && 0.0 <= t <= 1.0
    ensures 0.0 <= w * t <= w
  {
    assert w - w * t == w * (1.0 - t);
  }

  /** A point inside the network's input lands inside the range. */
  lemma RescaleWithin(lo: int, size: int, seed: real)
    requires 0 <= lo && 0 <= size && IsInt(lo + size)
    requires 0.0 <= seed <= InputSize as real
    ensures lo <= Rescale(lo, size, seed) <= lo + size
  {
    ScaledWithin(size, seed);
    OffsetWithin(lo, size, Scaled(size, seed));
  }

  /** An Int plus an offset between 0 and `size` converts to an Int between `lo` and `lo + size`. */
  lemma OffsetWithin(lo: int, size: int, m: real)
    requires 0 <= lo && 0 <= size && IsInt(lo + size) && 0.0 <= m <= size as real
    ensures lo <= FloatToInt(lo as real + m) <= lo + size
  {
    assert lo <= Truncate(lo as real + m) <= lo + size;
  }
}

/**
 * The two ROI predictors. Both run the network on every slice and turn the
 * best anchor into a box clamped to the slice; the sequential one keeps the
 * winning confidence as the ROI's score, the parallel one leaves the score
 * at its default 0.
 */
module RoiPredictors {
  import opened Domain
  import opened KotlinNum
  import opened Detection

  /** The ROI `SequentialRoiPredictor.predictRoi` builds from one slice and the network's output on it. */
  function SequentialRoi(slice: Bitmap, output: BoxOutput): (roi: Roi)
    ensures 0 <= roi.xMin && roi.xMax <= slice.width - 1 && 0 <= roi.yMin && roi.yMax <= slice.height - 1
    ensures 0.0 <= roi.score && forall j :: 0 <= j < Anchors ==> output[4][j] <= roi.score
    ensures roi.score > 0.0 ==> exists j :: 0 <= j < Anchors && output[4][j] == roi.score
    ensures roi.sliceIndex == 0
  {
    BestIsFirstGreatest(output[4]);
    var (i, conf) := Best(output[4]);
    var b := BoxAt(output, i, slice.width, slice.height);
    Roi(b.0, b.2, b.1, b.3, conf, 0)
  }

  /** The ROI `ParallelRoiPredictor.predictRoi` builds: the same box, with the default score. */
  function ParallelRoi(slice: Bitmap, output: BoxOutput): (roi: Roi)
    ensures 0 <= roi.xMin && roi.xMax <= slice.width - 1 && 0 <= roi.yMin && roi.yMax <= slice.height - 1
    ensures roi.score == 0.0 && roi.sliceIndex == 0
  {
    BestIsFirstGreatest(output[4]);
    var (i, _) := Best(output[4]);
    var b := BoxAt(output, i, slice.width, slice.height);
    RoiWithDefaults(b.0, b.2, b.1, b.3)
  }

  /** The two predictors agree on every box and differ only in the score. */
  lemma ParallelDropsScore(slice: Bitmap, output: BoxOutput)
    ensures ParallelRoi(slice, output) == SequentialRoi(slice, output).(score := 0.0)
  {
  }

  /** The ROI's corners are those `convertToPixelCoordinates` gives for the winning anchor, in the order xMin, yMin, xMax, yMax. */
  lemma RoiMatchesPixelCoordinates(slice: Bitmap, output: BoxOutput)
    ensures var i := Best(output[4]).0;
      0 <= i < Anchors &&
      var roi := SequentialRoi(slice, output);
      [roi.xMin, roi.yMin, roi.xMax, roi.yMax] ==
        PixelCoordinates(output[0][i], output[1][i], output[2][i], output[3][i], slice.width, slice.height)
  {
    BestIsFirstGreatest(output[4]);
  }

  /** `SequentialRoiPredictor.predictRoi(Bitmap, …)`: the argmax loop, then the clamped box with the winning confidence. */
  method PredictSliceRoi(slice: Bitmap, output: BoxOutput) returns (roi: Roi)
    ensures roi == SequentialRoi(slice, output)
  {
    var maxConfIdx, maxConf := ArgMax(output[4]);
    var b := BoxAt(output, maxConfIdx, slice.width, slice.height);
    roi := Roi(b.0, b.2, b.1, b.3, maxConf, 0);
  }

  /** `ParallelRoiPredictor.predictRoi(Bitmap, …)`: the same loop and clamp; the score is left at its default. */
  method ParallelPredictSliceRoi(slice: Bitmap, output: BoxOutput) returns (roi: Roi)
    ensures roi == ParallelRoi(slice, output)
  {
    var maxConfIdx, _ := ArgMax(output[4]);
    var b := BoxAt(output, maxConfIdx, slice.width, slice.height);
    roi := RoiWithDefaults(b.0, b.2, b.1, b.3);
  }

  /** The ROIs the parallel predictor gives for every slice of a sequence. */
  function ParallelRois(sequence: MriSequence, network: Bitmap -> BoxOutput): (rois: seq<Roi>)
    ensures |rois| == |sequence.images|
  {
    seq(|sequence.images|, i requires 0 <= i < |sequence.images| => ParallelRoi(sequence.images[i], network(sequence.images[i])))
  }

  /** The ROIs the sequential predictor gives for every slice of a sequence. */
  function SequentialRois(sequence: MriSequence, network: Bitmap -> BoxOutput): (rois: seq<Roi>)
    ensures |rois| == |sequence.images|
  {
    seq(|sequence.images|, i requires 0 <= i < |sequence.images| => SequentialRoi(sequence.images[i], network(sequence.images[i])))
  }

  /** `SequentialRoiPredictor.predictRoi(MRISequence, …)`: one ROI per slice, in slice order. */
  method PredictRois(sequence: MriSequence, network: Bitmap -> BoxOutput) returns (rois: seq<Roi>)
    ensures |rois| == |sequence.images|
    ensures forall i :: 0 <= i < |rois| ==> rois[i] == SequentialRoi(sequence.images[i], network(sequence.images[i]))
    ensures rois == SequentialRois(sequence, network)
  {
    rois := [];
    for i := 0 to |sequence.images|
      invariant |rois| == i
      invariant forall j :: 0 <= j < i ==> rois[j] == SequentialRoi(sequence.images[j], network(sequence.images[j]))
    {
      var roi := PredictSliceRoi(sequence.images[i], network(sequence.images[i]));
      rois := rois + [roi];
    }
  }

  /** `ParallelRoiPredictor.predictRoi(MRISequence, …)`: the slices mapped to ROIs, results in slice order. */
  method ParallelPredictRois(sequence: MriSequence, network: Bitmap -> BoxOutput) returns (rois: seq<Roi>)
    ensures |rois| == |sequence.images|
    ensures forall i :: 0 <= i < |rois| ==> rois[i] == ParallelRoi(sequence.images[i], network(sequence.images[i]))
    ensures rois == ParallelRois(sequence, network)
  {
    rois := [];
    for i := 0 to |sequence.images|
      invariant |rois| == i
      invariant forall j :: 0 <= j < i ==> rois[j] == ParallelRoi(sequence.images[j], network(sequence.images[j]))
    {
      var roi := ParallelPredictSliceRoi(sequence.images[i], network(sequence.images[i]));
      rois := rois + [roi];
    }
  }
}

/**
 * The sequential seed predictor: crop each slice to its ROI, run the
 * network, take the point of the most probable anchor and map it back into
 * the ROI. A slice whose ROI is missing or whose crop is refused gets the
 * seed (0, 0) and the run goes on.
 */
module SeedPredictors {
  import opened Domain
  import opened KotlinNum
  import opened Detection

  /**
   * `Bitmap.createBitmap(slice, xMin, yMin, xMax - xMin, yMax - yMin)`
   * accepts the crop: a non-negative origin, a positive size, and the
   * rectangle inside the slice.
   */
  predicate CropOk(slice: Bitmap, roi: Roi)
  {
    0 <= roi.xMin && 0 <= roi.yMin && 0 < CropWidth(roi) && 0 < CropHeight(roi) &&
    roi.xMin + CropWidth(roi) <= slice.width && roi.yMin + CropHeight(roi) <= slice.height
  }

  /** The crop's size, `xMax - xMin` and `yMax - yMin` in 32-bit arithmetic. */
  function CropWidth(roi: Roi): int { WrapInt(roi.xMax - roi.xMin) }
  function CropHeight(roi: Roi): int { WrapInt(roi.yMax - roi.yMin) }

  /** The seed `predictSeed(Bitmap, ROI)` returns for a network output on the cropped slice. */
  function SeedOf(roi: Roi, output: PointOutput): Seed
  {
    BestIsFirstGreatest(output[4]);
    var i := Best(output[4]).0;
    (Rescale(roi.xMin, CropWidth(roi), output[5][i]), Rescale(roi.yMin, CropHeight(roi), output[6][i]))
  }

  /** The seed of slice `index`: (0, 0) when its ROI is missing or the crop throws. */
  function SliceSeed(slice: Bitmap, rois: seq<Roi>, index: int, network: (Bitmap, Roi) -> PointOutput): Seed
  {
    if 0 <= index < |rois| && CropOk(slice, rois[index]) then SeedOf(rois[index], network(slice, rois[index])) else (0, 0)
  }

  /**
   * A seed inside the network's input square lands inside the crop it was
   * predicted from, so inside the slice, and inside the ROI whenever the ROI
   * is not inverted.
   */
  lemma SeedInsideRoi(slice: Bitmap, rois: seq<Roi>, index: int, network: (Bitmap, Roi) -> PointOutput)
    requires 0 <= index < |rois| && CropOk(slice, rois[index])
    requires IsInt(rois[index].xMin) && IsInt(rois[index].xMax) && IsInt(rois[index].yMin) && IsInt(rois[index].yMax)
    requires IsInt(slice.width) && IsInt(slice.height)
    requires var output := network(slice, rois[index]);
      forall j :: 0 <= j < Anchors ==> 0.0 <= output[5][j] <= InputSize as real && 0.0 <= output[6][j] <= InputSize as real
    ensures var seed, roi := SliceSeed(slice, rois, index, network), rois[index];
      0 <= roi.xMin <= seed.0 <= roi.xMin + CropWidth(roi) <= slice.width &&
      0 <= roi.yMin <= seed.1 <= roi.yMin + CropHeight(roi) <= slice.height &&
      (roi.xMin <= roi.xMax ==> seed.0 <= roi.xMax) && (roi.yMin <= roi.yMax ==> seed.1 <= roi.yMax)
  {
    var roi, output := rois[index], network(slice, rois[index]);
    BestIsFirstGreatest(output[4]);
    var i := Best(output[4]).0;
    RescaleWithin(roi.xMin, CropWidth(roi), output[5][i]);
    RescaleWithin(roi.yMin, CropHeight(roi), output[6][i]);
  }

  /** `predictSeed(Bitmap, ROI)`: the argmax over channel 4, the point at channels 5 and 6, mapped into the ROI. */
  method PredictSliceSeed(roi: Roi, output: PointOutput) returns (seed: Seed)
    ensures seed == SeedOf(roi, output)
  {
    var maxProbIndex, _ := ArgMax(output[4]);
    var seedX, seedY := output[5][maxProbIndex], output[6][maxProbIndex];
    seed := (Rescale(roi.xMin, CropWidth(roi), seedX), Rescale(roi.yMin, CropHeight(roi), seedY));
  }

  /** The seeds the sequential predictor gives for every slice of a sequence. */
  function SequentialSeeds(sequence: MriSequence, rois: seq<Roi>, network: (Bitmap, Roi) -> PointOutput): (seeds: seq<Seed>)
    ensures |seeds| == |sequence.images|
  {
    seq(|sequence.images|, i requires 0 <= i < |sequence.images| => SliceSeed(sequence.images[i], rois, i, network))
  }

  /** `predictSeed(MRISequence, …)`: one seed per slice in order, (0, 0) for a slice that fails. */
  method PredictSeeds(sequence: MriSequence, rois: seq<Roi>, network: (Bitmap, Roi) -> PointOutput)
    returns (seedPoints: seq<Seed>)
    ensures |seedPoints| == |sequence.images|
    ensures forall i :: 0 <= i < |seedPoints| ==> seedPoints[i] == SliceSeed(sequence.images[i], rois, i, network)
    ensures seedPoints == SequentialSeeds(sequence, rois, network)
  {
    seedPoints := [];
    for index := 0 to |sequence.images|
      invariant |seedPoints| == index
      invariant forall i :: 0 <= i < index ==> seedPoints[i] == SliceSeed(sequence.images[i], rois, i, network)
    {
      var slice := sequence.images[index];
      var seedPoint: Seed;
      if index < |rois| && CropOk(slice, rois[index]) {
        seedPoint := PredictSliceSeed(rois[index], network(slice, rois[index]));
      } else {
        seedPoint := (0, 0);
      }
      seedPoints := seedPoints + [seedPoint];
    }
  }
}
