/**
 * The fuzzy/result screen: the slice browser over the tumour slices, the
 * calculate guard, the fuzzy-system choice, and the recalculation that
 * predicts ROIs on the full sequence, keeps the confident slices and
 * stores them for display.
 */
module ResultScreen {
  import opened Wrappers
  import opened KotlinNum
  import opened Text
  import opened Domain
  import opened Detection
  import opened RoiPredictors
  import opened ScreenViews

  /** `filterImagesAndRois` keeps a slice when its ROI's score is above this. */
  const ScoreThreshold: real := 0.3

  /** The indices `filterImagesAndRois` keeps, in increasing order: exactly those whose ROI scores above the threshold. */
  function Kept(rois: seq<Roi>): (idx: seq<int>)
    ensures forall k :: 0 <= k < |idx| ==> 0 <= idx[k] < |rois| && rois[idx[k]].score > ScoreThreshold
    ensures forall k, l :: 0 <= k < l < |idx| ==> idx[k] < idx[l]
    ensures forall i :: 0 <= i < |rois| && rois[i].score > ScoreThreshold ==> i in idx
  {
    if rois == [] then []
    else
      var n := |rois| - 1;
      assert forall i :: 0 <= i < n ==> rois[..n][i] == rois[i];
      Kept(rois[..n]) + (if rois[n].score > ScoreThreshold then [n] else [])
  }

  /** The elements of `xs` at the positions `idx`, in that order. */
  function Pick<T>(xs: seq<T>, idx: seq<int>): (r: seq<T>)
    requires forall k :: 0 <= k < |idx| ==> 0 <= idx[k] < |xs|
    ensures |r| == |idx|
  {
    seq(|idx|, k requires 0 <= k < |idx| => xs[idx[k]])
  }

  /** Every kept index also addresses a slice. */
  predicate KeptFit(sequence: MriSequence, rois: seq<Roi>)
  {
    forall k :: 0 <= k < |Kept(rois)| ==> Kept(rois)[k] < |sequence.images|
  }

  /** The kept indices all address slices exactly when every ROI scoring above the threshold has a slice. */
  lemma KeptFitExactly(sequence: MriSequence, rois: seq<Roi>)
    ensures KeptFit(sequence, rois) <==>
      forall i :: 0 <= i < |rois| && rois[i].score > ScoreThreshold ==> i < |sequence.images|
  {
    var idx := Kept(rois);
    if KeptFit(sequence, rois) {
      forall i | 0 <= i < |rois| && rois[i].score > ScoreThreshold
        ensures i < |sequence.images|
      {
        var k :| 0 <= k < |idx| && idx[k] == i;
      }
    }
  }

  /** The slices and ROIs the filter keeps, the sequence keeping its metadata. */
  function Filtered(sequence: MriSequence, rois: seq<Roi>): (MriSequence, seq<Roi>)
    requires KeptFit(sequence, rois)
  {
    (MriSequence(Pick(sequence.images, Kept(rois)), sequence.metadata), Pick(rois, Kept(rois)))
  }

  /**
   * `filterImagesAndRois`: walk the ROIs in order and, for each one scoring
   * above the threshold, append the slice at its index and the ROI itself;
   * the metadata is kept. `images[index]` throws when an ROI has no slice:
   * None then.
   */
  method FilterImagesAndRois(sequence: MriSequence, roiList: seq<Roi>) returns (r: Option<(MriSequence, seq<Roi>)>)
    ensures r.None? <==> exists i :: 0 <= i < |roiList| && roiList[i].score > ScoreThreshold && |sequence.images| <= i
    ensures r.Some? ==> KeptFit(sequence, roiList) && r.value == Filtered(sequence, roiList)
  {
    var filteredImages: seq<Bitmap> := [];
    var filteredRois: seq<Roi> := [];
    for index := 0 to |roiList|
      invariant KeptFit(sequence, roiList[..index])
      invariant filteredImages == Pick(sequence.images, Kept(roiList[..index]))
      invariant filteredRois == Pick(roiList, Kept(roiList[..index]))
    {
      KeptStep(roiList, index);
      var roi := roiList[index];
      if roi.score > ScoreThreshold {
        if |sequence.images| <= index {
          assert roiList[index].score > ScoreThreshold;
          return None;
        }
        PickAppend(sequence.images, Kept(roiList[..index]), index);
        PickAppend(roiList, Kept(roiList[..index]), index);
        filteredImages := filteredImages + [sequence.images[index]];
        filteredRois := filteredRois + [roi];
      }
      KeptFitStep(sequence, roiList, index);
    }
    assert roiList[..|roiList|] == roiList;
    KeptFitExactly(sequence, roiList);
    assert !exists i :: 0 <= i < |roiList| && roiList[i].score > ScoreThreshold && |sequence.images| <= i;
    return Some((MriSequence(filteredImages, sequence.metadata), filteredRois));
  }

  /** One more ROI adds its own index to the kept ones exactly when it scores above the threshold. */
  lemma KeptStep(rois: seq<Roi>, n: int)
    requires 0 <= n < |rois|
    ensures Kept(rois[..n + 1]) == Kept(rois[..n]) + (if rois[n].score > ScoreThreshold then [n] else [])
  {
    assert rois[..n + 1][..n] == rois[..n];
  }

  /** The kept indices of one more ROI still address slices when that ROI, if kept, has a slice. */
  lemma KeptFitStep(sequence: MriSequence, rois: seq<Roi>, n: int)
    requires 0 <= n < |rois| && KeptFit(sequence, rois[..n])
    requires rois[n].score > ScoreThreshold ==> n < |sequence.images|
    ensures KeptFit(sequence, rois[..n + 1])
  {
    KeptStep(rois, n);
  }

  lemma PickAppend<T>(xs: seq<T>, idx: seq<int>, i: int)
    requires forall k :: 0 <= k < |idx| ==> 0 <= idx[k] < |xs|
    requires 0 <= i < |xs|
    ensures Pick(xs, idx + [i]) == Pick(xs, idx) + [xs[i]]
  {
  }

  /** With one ROI per slice the filter never runs off the slices. */
  lemma OneRoiPerSliceFits(sequence: MriSequence, rois: seq<Roi>)
    requires |rois| == |sequence.images|
    ensures KeptFit(sequence, rois)
  {
  }

  /**
   * As written, the parallel predictor leaves every ROI at the default score
   * 0, so the filter that follows it in "Parallel" recalculation keeps no
   * slice at all, whatever the network found.
   */
  lemma ParallelRecalculationKeepsNothing(sequence: MriSequence, network: Bitmap -> BoxOutput)
    ensures Kept(ParallelRois(sequence, network)) == []
  {
    KeptNoneAbove(ParallelRois(sequence, network));
  }

  /** No ROI above the threshold, no slice kept. */
  lemma {:induction false} KeptNoneAbove(rois: seq<Roi>)
    requires forall i :: 0 <= i < |rois| ==> rois[i].score <= ScoreThreshold
    ensures Kept(rois) == []
  {
    if rois != [] {
      KeptNoneAbove(rois[..|rois| - 1]);
    }
  }

  /** The parallel ROI with the best anchor's confidence kept as its score, as the sequential predictor does. */
  function ScoredParallelRoi(slice: Bitmap, output: BoxOutput): (roi: Roi)
    ensures 0 <= roi.xMin && roi.xMax <= slice.width - 1 && 0 <= roi.yMin && roi.yMax <= slice.height - 1
  {
    ParallelRoi(slice, output).(score := Best(output[4]).1)
  }

  /**
   * With the score kept, the parallel ROI is the sequential one, and the
   * filter keeps a slice exactly when some anchor's confidence on it is
   * above the threshold.
   */
  lemma ScoredParallelKeepsConfident(slice: Bitmap, output: BoxOutput)
    ensures ScoredParallelRoi(slice, output) == SequentialRoi(slice, output)
    ensures ScoredParallelRoi(slice, output).score > ScoreThreshold <==>
      exists j :: 0 <= j < Anchors && output[4][j] > ScoreThreshold
  {
    ParallelDropsScore(slice, output);
    var roi := SequentialRoi(slice, output);
    if roi.score > ScoreThreshold {
      var j :| 0 <= j < Anchors && output[4][j] == roi.score;
      assert output[4][j] > ScoreThreshold;
    }
  }

  /** The fuzzy system the calculate button uses. */
  datatype FuzzyKind = ParallelFuzzy | SerialFuzzy

  /** What a recalculation ran, or why it stopped. */
  datatype Pipeline = ParallelPipeline | SerialPipeline | GrpcPipeline
  datatype RecalcError = SequenceUnavailable | UnknownMode(mode: string)
  datatype Recalculation = Ran(pipeline: Pipeline) | Stopped(error: RecalcError)

  /** The slice index after `navigateImage(direction)` among `total` slices; None where `coerceIn` throws. */
  function Navigated(index: int, direction: int, total: int): (r: Option<int>)
    ensures r.None? <==> total <= 0
    ensures r.Some? ==> 0 <= r.value < total
  {
    CoerceIn(WrapInt(index + direction), 0, total - 1)
  }

  /**
   * On a slice of a non-empty sequence, an arrow is visible exactly when
   * pressing it moves to the neighbouring slice, and otherwise the press
   * leaves the index where it is.
   */
  lemma ArrowsMatchNavigation(index: int, total: Int32)
    requires 0 <= index < total
    ensures NavButtons(index + 1, total).0 <==> Navigated(index, -1, total) != Some(index)
    ensures NavButtons(index + 1, total).1 <==> Navigated(index, 1, total) != Some(index)
    ensures Navigated(index, -1, total) == Some(if index > 0 then index - 1 else index)
    ensures Navigated(index, 1, total) == Some(if index + 1 < total then index + 1 else index)
  {
    assert IsInt(total);
    assert IsInt(index - 1) && IsInt(index + 1);
    assert WrapInt(index - 1) == index - 1;
    assert WrapInt(index + 1) == index + 1;
  }

  /** The screen's fields and the `ResultsDataHolder` entries it reads and writes. */
  class FuzzyAndResultScreen {
    var sliceIndex: int
    var selectedMode: string
    var fuzzySystem: Option<FuzzyKind>
    var tumorSequence: MriSequence
    var tumorRoiList: seq<Roi>
    var seedList: seq<Seed>
    var fullRoiList: seq<Roi>
    var fullSequence: Option<MriSequence>

    /** The index stays on a slice, or at 0 when there is none. */
    ghost predicate Valid()
      reads this
    {
      0 <= sliceIndex <= Max(0, |tumorSequence.images| - 1)
    }

    /** The screen as created, over the data the earlier screens left, before `setMode("Parallel")` runs. */
    constructor(tumor: MriSequence, rois: seq<Roi>, seeds: seq<Seed>, fullRois: seq<Roi>, full: Option<MriSequence>)
      ensures sliceIndex == 0 && selectedMode == "Parallel" && fuzzySystem == None
      ensures tumorSequence == tumor && tumorRoiList == rois && seedList == seeds
      ensures fullRoiList == fullRois && fullSequence == full
      ensures Valid()
    {
      sliceIndex := 0;
      selectedMode := "Parallel";
      fuzzySystem := None;
      tumorSequence := tumor;
      tumorRoiList := rois;
      seedList := seeds;
      fullRoiList := fullRois;
      fullSequence := full;
    }

    /** The local `setMode`: record the mode; "Serial" picks the serial system and every other mode the parallel one. */
    method SetMode(mode: string)
      modifies this
      ensures selectedMode == mode
      ensures fuzzySystem == Some(if mode == "Serial" then SerialFuzzy else ParallelFuzzy)
      ensures sliceIndex == old(sliceIndex) && tumorSequence == old(tumorSequence)
      ensures tumorRoiList == old(tumorRoiList) && seedList == old(seedList)
      ensures fullRoiList == old(fullRoiList) && fullSequence == old(fullSequence)
    {
      selectedMode := mode;
      fuzzySystem := Some(if mode == "Parallel" then ParallelFuzzy else if mode == "Serial" then SerialFuzzy else ParallelFuzzy);
    }

    /**
     * `navigateImage(direction)`: clamp the moved index to the slices and
     * move there if it differs; with no slice `coerceIn` throws (true) and
     * nothing changes.
     */
    method NavigateImage(direction: Int32) returns (thrown: bool)
      modifies this
      ensures thrown <==> |tumorSequence.images| == 0
      ensures thrown ==> sliceIndex == old(sliceIndex)
      ensures !thrown ==> Some(sliceIndex) == Navigated(old(sliceIndex), direction, |tumorSequence.images|)
      ensures !thrown ==> Valid()
      ensures selectedMode == old(selectedMode) && fuzzySystem == old(fuzzySystem) && tumorSequence == old(tumorSequence)
      ensures tumorRoiList == old(tumorRoiList) && seedList == old(seedList)
      ensures fullRoiList == old(fullRoiList) && fullSequence == old(fullSequence)
    {
      var totalSlices := |tumorSequence.images|;
      var newIndex := CoerceIn(WrapInt(sliceIndex + direction), 0, totalSlices - 1);
      if newIndex.None? {
        return true;
      }
      if newIndex.value != sliceIndex {
        sliceIndex := newIndex.value;
      }
      return false;
    }

    /** `loadCurrentImage`'s choice of picture for the current slice. */
    function CurrentOverlay(): (o: Overlay)
      reads this
      requires Valid()
      ensures o == OverlayAt(sliceIndex, tumorRoiList, seedList)
    {
      OverlayAt(sliceIndex, tumorRoiList, seedList)
    }

    /**
     * The calculate button: nothing runs without full ROIs, seeds and a
     * fuzzy system; otherwise the chosen system estimates the volume.
     */
    method Calculate() returns (runs: Option<FuzzyKind>)
      ensures runs.None? <==> |fullRoiList| == 0 || |seedList| == 0 || fuzzySystem.None?
      ensures runs.Some? ==> runs == fuzzySystem
    {
      if |fullRoiList| == 0 || |seedList| == 0 {
        return None;
      }
      if fuzzySystem.None? {
        return None;
      }
      return fuzzySystem;
    }

    /**
     * `performRecalculation`: refuse a missing or empty full sequence, then
     * go back to the first slice and run the selected mode's pipeline —
     * predict the ROIs of every slice, keep the confident slices, and store
     * them with the seeds predicted on them; "GRPC" (any case) stores the
     * sequence the remote estimator returns; any other mode throws.
     */
    method Recalculate(network: Bitmap -> BoxOutput, seeds: (MriSequence, seq<Roi>) -> seq<Seed>,
                       grpc: MriSequence -> MriSequence)
      returns (r: Recalculation)
      modifies this
      ensures selectedMode == old(selectedMode) && fuzzySystem == old(fuzzySystem)
      ensures fullRoiList == old(fullRoiList) && fullSequence == old(fullSequence)
      ensures r == Stopped(SequenceUnavailable) <==> fullSequence.None? || |fullSequence.value.images| == 0
      ensures r == Stopped(SequenceUnavailable) ==>
        sliceIndex == old(sliceIndex) && tumorSequence == old(tumorSequence) &&
        tumorRoiList == old(tumorRoiList) && seedList == old(seedList)
      ensures r != Stopped(SequenceUnavailable) ==> sliceIndex == 0 && Valid()
      ensures r != Stopped(SequenceUnavailable) && selectedMode == "Parallel" ==>
        r == Ran(ParallelPipeline) && KeptFit(fullSequence.value, ParallelRois(fullSequence.value, network)) &&
        (tumorSequence, tumorRoiList) == Filtered(fullSequence.value, ParallelRois(fullSequence.value, network)) &&
        seedList == seeds(tumorSequence, tumorRoiList)
      ensures r != Stopped(SequenceUnavailable) && selectedMode == "Serial" ==>
        r == Ran(SerialPipeline) && KeptFit(fullSequence.value, SequentialRois(fullSequence.value, network)) &&
        (tumorSequence, tumorRoiList) == Filtered(fullSequence.value, SequentialRois(fullSequence.value, network)) &&
        seedList == seeds(tumorSequence, tumorRoiList)
      ensures r != Stopped(SequenceUnavailable) && selectedMode != "Parallel" && selectedMode != "Serial" ==>
        if EqualsIgnoreCase(selectedMode, "GRPC") then
          r == Ran(GrpcPipeline) && tumorSequence == grpc(fullSequence.value) &&
          tumorRoiList == old(tumorRoiList) && seedList == old(seedList)
        else
          r == Stopped(UnknownMode(selectedMode)) && tumorSequence == old(tumorSequence) &&
          tumorRoiList == old(tumorRoiList) && seedList == old(seedList)
    {
      if fullSequence.None? || |fullSequence.value.images| == 0 {
        return Stopped(SequenceUnavailable);
      }
      var full := fullSequence.value;
      sliceIndex := 0;
      if selectedMode == "Parallel" || selectedMode == "Serial" {
        var rois: seq<Roi>;
        if selectedMode == "Parallel" {
          rois := ParallelPredictRois(full, network);
        } else {
          rois := PredictRois(full, network);
        }
        OneRoiPerSliceFits(full, rois);
        var filtered := FilterImagesAndRois(full, rois);
        tumorSequence, tumorRoiList := filtered.value.0, filtered.value.1;
        seedList := seeds(tumorSequence, tumorRoiList);
        return Ran(if selectedMode == "Parallel" then ParallelPipeline else SerialPipeline);
      } else if EqualsIgnoreCase(selectedMode, "GRPC") {
        tumorSequence := grpc(full);
        return Ran(GrpcPipeline);
      }
      return Stopped(UnknownMode(selectedMode));
    }
  }

  /**
   * As written, a successful "Parallel" recalculation leaves the screen
   * with no slice, no ROI and no seed input: every slice is filtered out.
   */
  lemma ParallelRecalculationEmpties(full: MriSequence, network: Bitmap -> BoxOutput)
    ensures KeptFit(full, ParallelRois(full, network))
    ensures Filtered(full, ParallelRois(full, network)) == (MriSequence([], full.metadata), [])
  {
    ParallelRecalculationKeepsNothing(full, network);
  }
}
