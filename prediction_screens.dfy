/**
 * The ROI screen: choose a predictor, predict one ROI per slice, show the
 * time taken, and browse the slices with the file manager's cursor.
 */
module RoiScreen {
  import opened Wrappers
  import opened KotlinNum
  import opened Domain
  import opened Detection
  import opened RoiPredictors
  import opened UtilsFiles
  import opened TimeLabels
  import opened ScreenViews

  /** The two predictors the screen holds. */
  datatype RoiPredictorKind = ParallelRoiPredictor | SequentialRoiPredictor

  class Activity {
    var selectedMode: string
    var roiPredictor: RoiPredictorKind
    var roiList: seq<Roi>
    var patientName: string
    /** The process-wide file manager the screen browses with. */
    const files: UtilsFileManager

    /** `onCreate`: the parallel predictor by default, no ROI and no time yet. */
    constructor(files: UtilsFileManager)
      ensures selectedMode == "Parallel" && roiPredictor == ParallelRoiPredictor
      ensures roiList == [] && patientName == "" && this.files == files
    {
      selectedMode := "Parallel";
      roiPredictor := ParallelRoiPredictor;
      roiList := [];
      patientName := "";
      this.files := files;
    }

    /** The "Parallel" option: parallel mode and the parallel predictor. */
    method SelectParallel()
      modifies this
      ensures selectedMode == "Parallel" && roiPredictor == ParallelRoiPredictor
      ensures roiList == old(roiList) && patientName == old(patientName)
    {
      selectedMode := "Parallel";
      roiPredictor := ParallelRoiPredictor;
    }

    /** The "Serial" option: the mode reads "Serial" but the predictor stays the parallel one. */
    method SelectSerial()
      modifies this
      ensures selectedMode == "Serial" && roiPredictor == ParallelRoiPredictor
      ensures roiList == old(roiList) && patientName == old(patientName)
    {
      selectedMode := "Serial";
      roiPredictor := ParallelRoiPredictor;
    }

    /**
     * The predict button: the selected predictor's ROIs for every slice,
     * and the label "Time Taken: N ms" from which the confirm button reads
     * N back.
     */
    method Predict(sequence: MriSequence, network: Bitmap -> BoxOutput, timeTaken: Int64)
      modifies this
      ensures roiList == if roiPredictor == ParallelRoiPredictor then ParallelRois(sequence, network)
                         else SequentialRois(sequence, network)
      ensures patientName == TimeLabel(timeTaken) && ParseTimeLabel(patientName) == Some(timeTaken)
      ensures selectedMode == old(selectedMode) && roiPredictor == old(roiPredictor)
    {
      if roiPredictor == ParallelRoiPredictor {
        roiList := ParallelPredictRois(sequence, network);
      } else {
        roiList := PredictRois(sequence, network);
      }
      patientName := TimeLabel(timeTaken);
      TimeLabelRoundTrip(timeTaken);
    }

    /** The confirm button's time: the label with its words stripped, as a Long; None where `toLong` throws. */
    method Confirm() returns (roiTimeTaken: Option<int>)
      ensures roiTimeTaken == ParseTimeLabel(patientName)
      ensures roiTimeTaken.Some? ==> IsLong(roiTimeTaken.value)
      ensures patientName == "" ==> roiTimeTaken.None?
    {
      EmptyLabelRefused();
      roiTimeTaken := ParseTimeLabel(patientName);
    }

    /** `loadCurrentImage`: the ROI drawn on the current slice, or None for the plain slice. */
    function ShownRoi(): (r: Option<Roi>)
      reads this, files
      ensures r.Some? <==> 0 <= files.currentIndex < |roiList|
      ensures r.Some? ==> r.value == roiList[files.currentIndex]
    {
      RoiShownAt(files.GetCurrentIndex() - 1, roiList)
    }

    /** The previous arrow: move the cursor back; it moves exactly when the arrow was shown. */
    method PressPrevious() returns (moved: bool)
      modifies files
      ensures moved <==> old(NavButtons(files.GetCurrentIndex(), files.GetTotalFiles()).0)
      ensures files.currentIndex == if moved then old(files.currentIndex) - 1 else old(files.currentIndex)
      ensures files.dicomFiles == old(files.dicomFiles)
    {
      FileArrows(files);
      moved := files.MoveToPrevious();
    }

    /** The next arrow: move the cursor on; it moves exactly when the arrow was shown. */
    method PressNext() returns (moved: bool)
      modifies files
      ensures moved <==> old(NavButtons(files.GetCurrentIndex(), files.GetTotalFiles()).1)
      ensures files.currentIndex == if moved then old(files.currentIndex) + 1 else old(files.currentIndex)
      ensures files.dicomFiles == old(files.dicomFiles)
    {
      FileArrows(files);
      moved := files.MoveToNext();
    }
  }
}

/**
 * The seed screen: the ROIs handed over by the ROI screen, a choice of
 * seed predictor, one seed per slice, the time label, and the same
 * slice browsing.
 */
module SeedScreen {
  import opened Wrappers
  import opened KotlinNum
  import opened Domain
  import opened Detection
  import opened SeedPredictors
  import opened UtilsFiles
  import opened TimeLabels
  import opened ScreenViews

  datatype SeedPredictorKind = ParallelSeedPredictor | SequentialSeedPredictor

  class Activity {
    var selectedMode: string
    var seedPredictor: SeedPredictorKind
    var roiList: seq<Roi>
    var seedList: seq<Seed>
    var patientName: string
    const files: UtilsFileManager

    /** `onCreate`: the parallel predictor by default and the ROI list received, if any. */
    constructor(files: UtilsFileManager, incoming: Option<seq<Roi>>)
      ensures selectedMode == "Parallel" && seedPredictor == ParallelSeedPredictor
      ensures roiList == (if incoming.Some? then incoming.value else [])
      ensures seedList == [] && patientName == "" && this.files == files
    {
      selectedMode := "Parallel";
      seedPredictor := ParallelSeedPredictor;
      roiList := if incoming.Some? then incoming.value else [];
      seedList := [];
      patientName := "";
      this.files := files;
    }

    method SelectParallel()
      modifies this
      ensures selectedMode == "Parallel" && seedPredictor == ParallelSeedPredictor
      ensures roiList == old(roiList) && seedList == old(seedList) && patientName == old(patientName)
    {
      selectedMode := "Parallel";
      seedPredictor := ParallelSeedPredictor;
    }

    /** The "Serial" option: the mode reads "Sequential" and the sequential predictor is used. */
    method SelectSerial()
      modifies this
      ensures selectedMode == "Sequential" && seedPredictor == SequentialSeedPredictor
      ensures roiList == old(roiList) && seedList == old(seedList) && patientName == old(patientName)
    {
      selectedMode := "Sequential";
      seedPredictor := SequentialSeedPredictor;
    }

    /**
     * The predict button: with no ROI nothing is predicted (false);
     * otherwise the selected predictor's seeds for every slice, and the
     * time label. `parallelSeeds` is what the parallel predictor returns.
     */
    method Predict(sequence: MriSequence, network: (Bitmap, Roi) -> PointOutput, parallelSeeds: seq<Seed>,
                   timeTaken: Int64)
      returns (predicted: bool)
      modifies this
      ensures predicted <==> roiList != []
      ensures !predicted ==> seedList == old(seedList) && patientName == old(patientName)
      ensures predicted ==> seedList == (if seedPredictor == SequentialSeedPredictor
                                         then SequentialSeeds(sequence, roiList, network) else parallelSeeds)
      ensures predicted ==> patientName == TimeLabel(timeTaken) && ParseTimeLabel(patientName) == Some(timeTaken)
      ensures selectedMode == old(selectedMode) && seedPredictor == old(seedPredictor) && roiList == old(roiList)
    {
      if roiList == [] {
        return false;
      }
      if seedPredictor == SequentialSeedPredictor {
        seedList := PredictSeeds(sequence, roiList, network);
      } else {
        seedList := parallelSeeds;
      }
      patientName := TimeLabel(timeTaken);
      TimeLabelRoundTrip(timeTaken);
      return true;
    }

    /** The confirm button's time, read back from the label. */
    method Confirm() returns (seedTimeTaken: Option<int>)
      ensures seedTimeTaken == ParseTimeLabel(patientName)
      ensures patientName == "" ==> seedTimeTaken.None?
    {
      EmptyLabelRefused();
      seedTimeTaken := ParseTimeLabel(patientName);
    }

    /** `loadCurrentImage`: ROI and seed, ROI only, or the plain slice at the cursor. */
    function CurrentOverlay(): (o: Overlay)
      reads this, files
      requires files.Valid()
      ensures o.RoiAndSeed? <==> files.currentIndex < |roiList| && files.currentIndex < |seedList|
      ensures o.RawImage? <==> |roiList| <= files.currentIndex
    {
      OverlayAt(files.GetCurrentIndex() - 1, roiList, seedList)
    }

    method PressPrevious() returns (moved: bool)
      modifies files
      ensures moved <==> old(NavButtons(files.GetCurrentIndex(), files.GetTotalFiles()).0)
      ensures files.currentIndex == if moved then old(files.currentIndex) - 1 else old(files.currentIndex)
      ensures files.dicomFiles == old(files.dicomFiles)
    {
      FileArrows(files);
      moved := files.MoveToPrevious();
    }

    method PressNext() returns (moved: bool)
      modifies files
      ensures moved <==> old(NavButtons(files.GetCurrentIndex(), files.GetTotalFiles()).1)
      ensures files.currentIndex == if moved then old(files.currentIndex) + 1 else old(files.currentIndex)
      ensures files.dicomFiles == old(files.dicomFiles)
    {
      FileArrows(files);
      moved := files.MoveToNext();
    }
  }
}
