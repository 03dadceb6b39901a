/**
 * The serial fuzzy system: every slice of the sequence is segmented by
 * fuzzy connectedness from its own seed inside its own ROI, and the volume
 * is the number of cells, over all slices, whose connectivity reaches the
 * alpha cut (given in percent).
 */
module SerialFuzzy {
  import opened Domain
  import opened Fuzzy

  /** `CancerVolume`: the volume in cells, the segmented sequence and the affinity matrices (none here). */
  datatype CancerVolume = CancerVolume(volume: int, sequence: MriSequence, affinityMatrix: seq<seq<seq<real>>>)

  /** `values.count { it >= threshold }`. */
  function CountAtLeast(values: seq<real>, threshold: real): (n: nat)
    ensures n <= |values|
  {
    if values == [] then 0
    else CountAtLeast(values[..|values| - 1], threshold) + (if values[|values| - 1] >= threshold then 1 else 0)
  }

  /** A higher threshold never counts more cells. */
  lemma {:induction false} CountAntitone(values: seq<real>, low: real, high: real)
    requires low <= high
    ensures CountAtLeast(values, high) <= CountAtLeast(values, low)
  {
    if values != [] {
      CountAntitone(values[..|values| - 1], low, high);
    }
  }

  /** Every cell reaches a threshold that no value lies below, and none reaches one above every value. */
  lemma {:induction false} CountExtremes(values: seq<real>, threshold: real)
    ensures (forall i :: 0 <= i < |values| ==> threshold <= values[i]) ==> CountAtLeast(values, threshold) == |values|
    ensures (forall i :: 0 <= i < |values| ==> values[i] < threshold) ==> CountAtLeast(values, threshold) == 0
  {
    if values != [] {
      CountExtremes(values[..|values| - 1], threshold);
    }
  }

  /** The volume of a sequence of segmentations: the cells of all of them that reach the threshold. */
  function TotalCount(scenes: seq<seq<real>>, threshold: real): (n: nat)
  {
    if scenes == [] then 0
    else TotalCount(scenes[..|scenes| - 1], threshold) + CountAtLeast(scenes[|scenes| - 1], threshold)
  }

  /** One more scene adds its own count. */
  lemma TotalCountAppend(scenes: seq<seq<real>>, scene: seq<real>, threshold: real)
    ensures TotalCount(scenes + [scene], threshold) == TotalCount(scenes, threshold) + CountAtLeast(scene, threshold)
  {
    assert (scenes + [scene])[..|scenes|] == scenes;
  }

  /** The cells of all the scenes together. */
  function TotalSize(scenes: seq<seq<real>>): nat
  {
    if scenes == [] then 0 else TotalSize(scenes[..|scenes| - 1]) + |scenes[|scenes| - 1]|
  }

  /** The volume never exceeds the number of cells, and a higher alpha cut never gives more volume. */
  lemma {:induction false} TotalCountBounds(scenes: seq<seq<real>>, low: real, high: real)
    requires low <= high
    ensures TotalCount(scenes, high) <= TotalCount(scenes, low) <= TotalSize(scenes)
  {
    if scenes != [] {
      TotalCountBounds(scenes[..|scenes| - 1], low, high);
      CountAntitone(scenes[|scenes| - 1], low, high);
    }
  }

  /**
   * What a finished fuzzy-connectedness run leaves: one value in [0, 1] per
   * cell, the seeds at 1, no cell able to improve a neighbour, and only the
   * values 0, 1 and affinities between cells.
   */
  ghost predicate Segmentation(s: seq<real>, width: int, height: int, roi: Roi, seeds: seq<Seed>, aff: (int, int) -> real)
  {
    0 < width && |s| == width * height && Bounded(s) &&
    (forall k :: 0 <= k < |seeds| && 0 <= SeedIndex(width, seeds[k]) < |s| ==> s[SeedIndex(width, seeds[k])] == 1.0) &&
    (forall c :: 0 <= c < |s| ==> Fixed(s, width, roi, aff, c)) &&
    (forall i :: 0 <= i < |s| ==> s[i] in {0.0, 1.0} + (set c, e | 0 <= c < |s| && 0 <= e < |s| :: aff(c, e)))
  }

  /** `scene` is the segmentation of slice `img` from its seed inside its ROI, under the affinity `fit` gives it. */
  ghost predicate SliceSegmented(scene: seq<real>, img: Bitmap, roi: Roi, seed: Seed, fit: (Bitmap, Roi, Seed) -> ((int, int) -> real))
  {
    Segmentation(scene, img.width, img.height, roi, [seed], fit(img, roi, seed))
  }

  /** One more segmented slice extends the segmented prefix. */
  lemma SegmentedAppend(scenes: seq<seq<real>>, scene: seq<real>, sequence: MriSequence, roiList: seq<Roi>,
                        seedPoints: seq<Seed>, fit: (Bitmap, Roi, Seed) -> ((int, int) -> real))
    requires |scenes| < |sequence.images| && |sequence.images| <= |roiList| && |sequence.images| <= |seedPoints|
    requires forall j :: 0 <= j < |scenes| ==> SliceSegmented(scenes[j], sequence.images[j], roiList[j], seedPoints[j], fit)
    requires SliceSegmented(scene, sequence.images[|scenes|], roiList[|scenes|], seedPoints[|scenes|], fit)
    ensures forall j :: 0 <= j < |scenes| + 1 ==>
      SliceSegmented((scenes + [scene])[j], sequence.images[j], roiList[j], seedPoints[j], fit)
  {
  }

  /** What `calculateVolume` needs of a slice: an image, an ROI inside it and a seed on it. */
  predicate SliceOk(img: Bitmap, roi: Roi, seed: Seed)
  {
    0 < img.width && 0 < img.height && RoiInside(roi, img.width, img.height) &&
    0 <= SeedIndex(img.width, seed) < img.width * img.height
  }

  class SerialFuzzySystem {
    /** `_alphaCutValue`: the alpha cut of the current estimate, in percent. */
    var alphaCutValue: real

    constructor()
      ensures alphaCutValue == 0.0
    {
      alphaCutValue := 0.0;
    }

    /**
     * `calculateVolume`: segment one slice from its seed and count the cells
     * at or above the alpha cut. With the seed inside the ROI box, every
     * cell outside the box stays 0.
     */
    method CalculateVolume(img: Bitmap, roi: Roi, seed: Seed, affinity: (int, int) -> real) returns (count: int, ghost scene: seq<real>)
      requires SliceOk(img, roi, seed) && AffinityInRange(affinity)
      ensures Segmentation(scene, img.width, img.height, roi, [seed], affinity)
      ensures count == CountAtLeast(scene, alphaCutValue / 100.0)
      ensures 0 <= count <= img.width * img.height
      ensures InBox(img.width, roi, SeedIndex(img.width, seed)) ==>
        forall i :: 0 <= i < |scene| && !InBox(img.width, roi, i) ==> scene[i] == 0.0
    {
      var width, height := img.width, img.height;
      var fc := new FuzzyConnectedness(width, height, roi, [seed]);
      ghost var start := fc.conScene[..];
      StartIsPropagating(start, width, roi, [seed], affinity);
      ghost var region := if InBox(width, roi, SeedIndex(width, seed)) then BoxCells(width, height, roi) else AllCells(width, height);
      if InBox(width, roi, SeedIndex(width, seed)) {
        BoxClosed(width, height, roi);
      } else {
        ImageClosed(width, height, roi);
      }
      StartIsConfined(start, width, [seed], region);
      var result := fc.Run(affinity, region);
      scene := result[..];
      StartValues(start, scene, width, [seed], affinity);
      count := CountAtLeast(result[..], alphaCutValue / 100.0);
    }

    /**
     * `estimateVolume`: record the alpha cut, segment every slice with its
     * own ROI and seed, and add up the per-slice counts. The affinity of a
     * slice is the one fitted from its pixels around its seed (`fit`).
     */
    method EstimateVolume(sequence: MriSequence, roiList: seq<Roi>, seedPoints: seq<Seed>, alphaCut: real,
                          fit: (Bitmap, Roi, Seed) -> ((int, int) -> real))
      returns (volume: CancerVolume, ghost scenes: seq<seq<real>>)
      requires |seedPoints| >= |sequence.images| && |roiList| >= |sequence.images|
      requires forall i :: 0 <= i < |sequence.images| ==>
        SliceOk(sequence.images[i], roiList[i], seedPoints[i]) && AffinityInRange(fit(sequence.images[i], roiList[i], seedPoints[i]))
      modifies this
      ensures alphaCutValue == alphaCut
      ensures |scenes| == |sequence.images|
      ensures forall i :: 0 <= i < |scenes| ==> SliceSegmented(scenes[i], sequence.images[i], roiList[i], seedPoints[i], fit)
      ensures volume == CancerVolume(TotalCount(scenes, alphaCut / 100.0), sequence, [])
    {
      alphaCutValue := alphaCut;
      var totalVolume := 0;
      scenes := [];
      var i := 0;
      while i < |sequence.images|
        invariant 0 <= i <= |sequence.images| && |scenes| == i && alphaCutValue == alphaCut
        invariant forall j :: 0 <= j < i ==> SliceSegmented(scenes[j], sequence.images[j], roiList[j], seedPoints[j], fit)
        invariant totalVolume == TotalCount(scenes, alphaCut / 100.0)
      {
        var image, seed, roi := sequence.images[i], seedPoints[i], roiList[i];
        var count, scene := CalculateVolume(image, roi, seed, fit(image, roi, seed));
        assert SliceSegmented(scene, image, roi, seed, fit);
        SegmentedAppend(scenes, scene, sequence, roiList, seedPoints, fit);
        TotalCountAppend(scenes, scene, alphaCut / 100.0);
        totalVolume := totalVolume + count;
        scenes := scenes + [scene];
        i := i + 1;
      }
      volume := CancerVolume(totalVolume, sequence, []);
    }
  }

  /** The values a run can produce from the seed start are 0, 1 and affinities. */
  lemma StartValues(start: seq<real>, s: seq<real>, width: int, seeds: seq<Seed>, aff: (int, int) -> real)
    requires |s| == |start|
    requires forall i :: 0 <= i < |start| ==> start[i] == 0.0 || start[i] == 1.0
    requires forall i :: 0 <= i < |s| ==> s[i] in ValuesFrom(start, aff)
    ensures forall i :: 0 <= i < |s| ==> s[i] in {0.0, 1.0} + (set c, e | 0 <= c < |s| && 0 <= e < |s| :: aff(c, e))
  {
  }
}
