/**
 * What the slice-browsing screens show around the current slice: the
 * previous/next arrows, the "i/n" counter and the overlay drawn on the
 * image. The ROI, seed and result screens each compute these the same way.
 */
module ScreenViews {
  import opened Wrappers
  import opened KotlinNum
  import opened Decimal
  import opened Domain
  import opened UtilsFiles

  /**
   * `updateNavigationButtons`: the arrows visible for the 1-based position
   * `current` among `total` slices, as (previous, next).
   */
  function NavButtons(current: int, total: int): (visible: (bool, bool))
  {
    (current > 1, current < total)
  }

  /**
   * On the ROI and seed screens the arrows follow the file manager's cursor:
   * previous is shown exactly when `moveToPrevious` would move, next
   * exactly when `moveToNext` would.
   */
  lemma FileArrows(files: UtilsFileManager)
    ensures NavButtons(files.GetCurrentIndex(), files.GetTotalFiles()).0 <==> files.currentIndex > 0
    ensures NavButtons(files.GetCurrentIndex(), files.GetTotalFiles()).1 <==> files.currentIndex < |files.dicomFiles| - 1
  {
  }

  /** `"$current/$total"`: the counter above the image. */
  function CountText(current: Int64, total: Int64): string
  {
    LongToString(current) + "/" + LongToString(total)
  }

  /** The counter splits at its first '/' into the two numbers it was written from. */
  lemma CountTextParses(current: Int64, total: Int64)
    ensures var s, k := CountText(current, total), |LongToString(current)|;
      k < |s| && s[k] == '/' && (forall i :: 0 <= i < k ==> s[i] != '/') &&
      ParseLong(s[..k]) == Some(current) && ParseLong(s[k + 1..]) == Some(total)
  {
    var a, b := LongToString(current), LongToString(total);
    var s := CountText(current, total);
    assert s[..|a|] == a;
    assert s[|a| + 1..] == b;
    assert a[0] != '/';
    LongRoundTrip(current);
    LongRoundTrip(total);
  }

  /** The three pictures a slice can be shown as. */
  datatype Overlay = RoiAndSeed(roi: Roi, seed: Seed) | RoiOnly(roi: Roi) | RawImage

  /**
   * `loadCurrentImage` on the seed and result screens: the ROI with its
   * seed when both lists reach the index, the ROI alone when only the ROI
   * list does, the plain slice otherwise.
   */
  function OverlayAt(index: nat, rois: seq<Roi>, seeds: seq<Seed>): (o: Overlay)
    ensures o.RoiAndSeed? <==> index < |rois| && index < |seeds|
    ensures o.RoiOnly? <==> index < |rois| && |seeds| <= index
    ensures o.RawImage? <==> |rois| <= index
    ensures !o.RawImage? ==> o.roi == rois[index]
    ensures o.RoiAndSeed? ==> o.seed == seeds[index]
  {
    if index < |rois| && index < |seeds| then RoiAndSeed(rois[index], seeds[index])
    else if index < |rois| then RoiOnly(rois[index])
    else RawImage
  }

  /** `roiList.getOrNull(index)` on the ROI screen: the ROI to draw, or null for the plain slice. */
  function RoiShownAt(index: int, rois: seq<Roi>): (r: Option<Roi>)
    ensures r.Some? <==> 0 <= index < |rois|
    ensures r.Some? ==> r.value == rois[index]
  {
    if 0 <= index < |rois| then Some(rois[index]) else None
  }

  /**
   * Before any seed is predicted the seed screen draws exactly what the ROI
   * screen draws: the ROI at the index when there is one, else the slice.
   */
  lemma SeedScreenExtendsRoiScreen(index: nat, rois: seq<Roi>)
    ensures RoiShownAt(index, rois).Some? <==> OverlayAt(index, rois, []).RoiOnly?
    ensures RoiShownAt(index, rois).None? <==> OverlayAt(index, rois, []).RawImage?
    ensures RoiShownAt(index, rois).Some? ==> OverlayAt(index, rois, []).roi == RoiShownAt(index, rois).value
  {
  }
}
