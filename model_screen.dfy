/**
 * The model demo screen: a pager over 21 stored slices of one study. Each
 * page reads a 512 × 512 slice of doubles, cuts out a fixed ROI, runs the
 * seed network on it and marks the predicted point on the full slice.
 */
module ModelScreen {
  import opened Wrappers
  import opened KotlinNum
  import opened Decimal
  import opened Domain
  import opened Detection

  /** The ROI `IntArray`, laid out as [xMin, xMax, yMin, yMax]. */
  const RoiBox: seq<int> := [108, 136, 251, 294]

  /** The slice size `loadBinSlice` reads. */
  const SliceWidth := 512
  const SliceHeight := 512

  /** `getCount()`: the pager's pages, slices 52 to 72. */
  const PageCount := 21
  const FirstSlice := 52

  const FilePrefix := "Breast_MRI_002/image_slice_"
  const FileSuffix := ".bin"

  /**
   * When `extractRoi` returns: `Array(roiHeight)` and every row's
   * `DoubleArray(roiWidth)` need non-negative sizes, and each cell it reads
   * must exist in the slice.
   */
  predicate ExtractOk(slice: seq<seq<real>>, roi: seq<int>)
    requires |roi| == 4
  {
    var w, h := WrapInt(roi[1] - roi[0]), WrapInt(roi[3] - roi[2]);
    0 <= h &&
    (h == 0 || 0 <= w) &&
    (h == 0 || w == 0 ||
      (0 <= roi[2] && roi[2] + h <= |slice| && 0 <= roi[0] &&
       forall y :: roi[2] <= y < roi[2] + h ==> roi[0] + w <= |slice[y]|))
  }

  /**
   * `extractRoi`: `(yMax − yMin)` rows of `(xMax − xMin)` values, row `y`
   * column `x` taken from the slice at `[y + yMin][x + xMin]`; None where
   * an array size is negative or a read runs off the slice.
   */
  function ExtractRoi(slice: seq<seq<real>>, roi: seq<int>): (r: Option<seq<seq<real>>>)
    requires |roi| == 4
    ensures r.Some? <==> ExtractOk(slice, roi)
    ensures r.Some? ==> (|r.value| == WrapInt(roi[3] - roi[2]) &&
      forall y :: 0 <= y < |r.value| ==> |r.value[y]| == WrapInt(roi[1] - roi[0]))
  {
    var w, h := WrapInt(roi[1] - roi[0]), WrapInt(roi[3] - roi[2]);
    if !ExtractOk(slice, roi) then None
    else Some(seq(h, y requires 0 <= y < h =>
      seq(w, x requires 0 <= x < w => slice[y + roi[2]][x + roi[0]])))
  }

  /**
   * The extracted block is the half-open box [xMin, xMax) × [yMin, yMax)
   * of the slice: each of its cells is found at its offset from the ROI's
   * corner.
   */
  lemma ExtractCoversBox(slice: seq<seq<real>>, roi: seq<int>)
    requires |roi| == 4 && ExtractOk(slice, roi)
    requires IsInt(roi[1] - roi[0]) && IsInt(roi[3] - roi[2])
    ensures var r := ExtractRoi(slice, roi).value;
      forall row, col :: roi[2] <= row < roi[3] && roi[0] <= col < roi[1] ==>
        0 <= row < |slice| && 0 <= col < |slice[row]| &&
        r[row - roi[2]][col - roi[0]] == slice[row][col]
  {
    var r := ExtractRoi(slice, roi).value;
    forall row, col | roi[2] <= row < roi[3] && roi[0] <= col < roi[1]
      ensures 0 <= row < |slice| && 0 <= col < |slice[row]| && r[row - roi[2]][col - roi[0]] == slice[row][col]
    {
      var y, x := row - roi[2], col - roi[0];
      assert r[y][x] == slice[y + roi[2]][x + roi[0]];
    }
  }

  /** On a full 512 × 512 slice the fixed ROI cuts out 43 rows of 28 values. */
  lemma FixedRoiExtracts(slice: seq<seq<real>>)
    requires |slice| == SliceHeight && forall y :: 0 <= y < |slice| ==> |slice[y]| == SliceWidth
    ensures ExtractRoi(slice, RoiBox).Some?
    ensures |ExtractRoi(slice, RoiBox).value| == 43
    ensures forall y :: 0 <= y < 43 ==> |ExtractRoi(slice, RoiBox).value[y]| == 28
  {
    assert WrapInt(136 - 108) == 28 && WrapInt(294 - 251) == 43;
  }

  /** The slice a page shows: `position + 52`. */
  function SliceNumber(position: Int32): (n: int)
    ensures IsInt(n)
    ensures 0 <= position < PageCount ==> FirstSlice <= n < FirstSlice + PageCount && n - FirstSlice == position
  {
    WrapInt(position + FirstSlice)
  }

  /** `"Breast_MRI_002/image_slice_$sliceNumber.bin"`. */
  function SliceFileName(position: Int32): string
  {
    var n := SliceNumber(position);
    assert IsLong(n);
    FilePrefix + LongToString(n) + FileSuffix
  }

  /** The file name carries the slice number between its fixed prefix and suffix. */
  lemma SliceFileNameNumber(position: Int32)
    ensures var name := SliceFileName(position);
      |FilePrefix| + |FileSuffix| < |name| &&
      ParseLong(name[|FilePrefix|..|name| - |FileSuffix|]) == Some(SliceNumber(position))
  {
    var n := SliceNumber(position);
    assert IsLong(n);
    var name := SliceFileName(position);
    assert name[|FilePrefix|..|name| - |FileSuffix|] == LongToString(n);
    LongRoundTrip(n);
  }

  /** The 21 pages read 21 different files. */
  lemma PagesReadDistinctFiles(p: Int32, q: Int32)
    requires 0 <= p < PageCount && 0 <= q < PageCount && p != q
    ensures SliceFileName(p) != SliceFileName(q)
  {
    SliceFileNameNumber(p);
    SliceFileNameNumber(q);
  }

  /**
   * `loadBinSlice`: fill a 512 × 512 grid row by row, each cell taking the
   * next double of the file. The file's doubles are `values`; reading past
   * the last one throws, and no slice is returned (None).
   */
  method LoadBinSlice(values: seq<real>) returns (r: Option<array2<real>>)
    ensures r.None? <==> |values| < SliceWidth * SliceHeight
    ensures r.Some? ==> fresh(r.value) && r.value.Length0 == SliceHeight && r.value.Length1 == SliceWidth
    ensures r.Some? ==> forall y, x :: 0 <= y < SliceHeight && 0 <= x < SliceWidth ==>
      r.value[y, x] == values[y * SliceWidth + x]
  {
    var slice := new real[SliceHeight, SliceWidth];
    var next := 0;
    for y := 0 to SliceHeight
      invariant next == y * SliceWidth && next <= |values|
      invariant forall yy, xx :: 0 <= yy < y && 0 <= xx < SliceWidth ==> slice[yy, xx] == values[yy * SliceWidth + xx]
    {
      for x := 0 to SliceWidth
        invariant next == y * SliceWidth + x && next <= |values|
        invariant forall yy, xx :: 0 <= yy < y && 0 <= xx < SliceWidth ==> slice[yy, xx] == values[yy * SliceWidth + xx]
        invariant forall xx :: 0 <= xx < x ==> slice[y, xx] == values[y * SliceWidth + xx]
      {
        if next == |values| {
          return None;
        }
        slice[y, x] := values[next];
        next := next + 1;
      }
    }
    return Some(slice);
  }

  /** The pager's cache of rendered pages; a page not yet rendered is null (None). */
  class SlicePagerAdapter {
    var images: seq<Option<Bitmap>>

    constructor()
      ensures images == []
    {
      images := [];
    }

    /**
     * `updateImage`: pad with nulls until the position exists, then store
     * the bitmap there. A negative position throws (true) and changes
     * nothing.
     */
    method UpdateImage(position: Int32, bitmap: Bitmap) returns (thrown: bool)
      modifies this
      ensures thrown <==> position < 0
      ensures thrown ==> images == old(images)
      ensures !thrown ==> |images| == Max(|old(images)|, position + 1) && images[position] == Some(bitmap)
      ensures !thrown ==> forall i :: 0 <= i < |old(images)| && i != position ==> images[i] == old(images)[i]
      ensures !thrown ==> forall i :: |old(images)| <= i < |images| && i != position ==> images[i] == None
    {
      while |images| <= position
        invariant |old(images)| <= |images| <= Max(|old(images)|, position + 1)
        invariant images[..|old(images)|] == old(images)
        invariant forall i :: |old(images)| <= i < |images| ==> images[i] == None
        decreases position - |images|
      {
        images := images + [None];
      }
      if position < 0 {
        return true;
      }
      images := images[position := Some(bitmap)];
      return false;
    }
  }

  /**
   * The marked point: the ROI's corner plus the network's fractions of the
   * ROI's width and height, each truncated to an Int.
   */
  function PredictionInFullImage(roi: seq<int>, outX: real, outY: real, roiWidth: int, roiHeight: int): (int, int)
    requires |roi| == 4
  {
    (WrapInt(roi[0] + FloatToInt(outX * roiWidth as real)), WrapInt(roi[2] + FloatToInt(outY * roiHeight as real)))
  }

  /** With the network's output fractions in [0, 1] the marked point lies in the fixed ROI. */
  lemma PredictionInsideFixedRoi(outX: real, outY: real)
    requires 0.0 <= outX <= 1.0 && 0.0 <= outY <= 1.0
    ensures var (px, py) := PredictionInFullImage(RoiBox, outX, outY, 28, 43);
      RoiBox[0] <= px <= RoiBox[1] && RoiBox[2] <= py <= RoiBox[3]
  {
    ScaleDown(28.0, outX);
    ScaleDown(43.0, outY);
    var tx, ty := FloatToInt(outX * 28.0), FloatToInt(outY * 43.0);
    assert 0 <= tx <= 28 && 0 <= ty <= 43;
  }
}
