/**
 * The slice-distribution strategy of the network coordinator: split the
 * slices of a volume request into contiguous ranges, one per worker, cut a
 * sub-request per range, and merge the workers' per-slice ROIs and seeds
 * back into one list by global slice index.
 */
module CoordinatorStrategy {
  import opened Wrappers
  import opened KotlinNum
  import opened Domain
  import opened Assoc
  import opened Arith

  /** A worker as the coordinator names it: (network address, friendly name). */
  type Worker = (string, string)

  /** A Kotlin `IntRange` `first..last`; it is empty when first > last. */
  datatype IntRange = IntRange(first: int, last: int)
  {
    function Size(): nat { if last < first then 0 else last - first + 1 }

    predicate Contains(x: int) { first <= x <= last }

    /** `range.toList()`: the members in ascending order. */
    function ToList(): seq<int> { seq(Size(), i => first + i) }
  }

  /** One slice of the request; the encoded image is carried along unchanged. */
  datatype ImageSlice = ImageSlice(imageData: seq<int>, width: int, height: int, sliceIndex: int)

  datatype VolumeRequest = VolumeRequest(slices: seq<ImageSlice>, alphaCut: real)

  datatype VolumeResponse = VolumeResponse(rois: seq<Roi>, seeds: seq<Seed>, friendlyNames: map<string, string>)

  /** A worker's answer together with the global slice indices it was assigned. */
  datatype WorkerResult = WorkerResult(response: VolumeResponse, assignedRange: seq<int>, computationTime: int)

  datatype TaskStatus = Completed

  datatype AggregateResponse = AggregateResponse(
    rois: seq<Roi>,
    seeds: seq<Seed>,
    workerInfo: map<string, seq<int>>,
    friendlyNames: map<string, string>,
    status: TaskStatus)

  // ---------------------------------------------------------------- distributeTasks

  /** `ceil(total / n)`, the number of slices each worker is offered. */
  function SlicesPerWorker(total: nat, n: nat): (k: nat)
    requires 0 < n
    ensures total <= k * n
    ensures 0 < total ==> (k - 1) * n < total
    ensures total == 0 ==> k == 0
  {
    var q := (total + n - 1) / n;
    assert q * n + (total + n - 1) % n == total + n - 1;
    q
  }

  /** The range of worker number `index`: `index*k .. min((index+1)*k - 1, total - 1)`. */
  function RangeOf(index: int, k: int, total: int): IntRange
  {
    IntRange(index * k, Min((index + 1) * k - 1, total - 1))
  }

  /** `availableWorkers.mapIndexed { i, w -> w to range(i) }`. */
  function Assignments(total: nat, workers: seq<Worker>): seq<(Worker, IntRange)>
    requires 0 < |workers|
  {
    var k := SlicesPerWorker(total, |workers|);
    seq(|workers|, i requires 0 <= i < |workers| => (workers[i], RangeOf(i, k, total)))
  }

  predicate DistinctWorkers(workers: seq<Worker>)
  {
    forall i, j :: 0 <= i < j < |workers| ==> workers[i] != workers[j]
  }

  /**
   * `distributeTasks`: the entries, in iteration order, of the map from
   * worker to range; no entries without workers, and for distinct workers
   * worker `i` keeps range `i`.
   */
  function DistributeTasks(total: nat, workers: seq<Worker>): (m: seq<(Worker, IntRange)>)
    ensures workers == [] ==> m == []
    ensures workers != [] && DistinctWorkers(workers) ==> m == Assignments(total, workers)
  {
    if workers == [] then []
    else
      var a := Assignments(total, workers);
      if DistinctWorkers(workers) then
        assert DistinctKeys(a);
        LinkedEntriesDistinct(a);
        LinkedEntries(a)
      else LinkedEntries(a)
  }

  /** Slice `s` belongs to worker `s / k`, and to no other. */
  lemma RangeOwner(total: nat, n: nat, i: int, s: int)
    requires 0 < n && 0 <= i
    ensures RangeOf(i, SlicesPerWorker(total, n), total).Contains(s)
        <==> 0 <= s < total && i == s / SlicesPerWorker(total, n)
  {
    var k := SlicesPerWorker(total, n);
    if k == 0 {
      assert total == 0;
    } else {
      var r := RangeOf(i, k, total);
      if r.Contains(s) {
        assert i * k <= s < (i + 1) * k;
        assert 0 <= s;
        DivideBetween(s, k, i);
      }
      if 0 <= s < total && i == s / k {
        assert i * k <= s by { assert (s / k) * k + s % k == s; }
        assert s < (i + 1) * k by { assert (s / k) * k + s % k == s; }
      }
    }
  }

  /**
   * The ranges of `n` workers partition `0 .. total-1`: every slice has
   * exactly one owner among the workers, and no range holds anything else.
   */
  lemma RangesPartition(total: nat, n: nat, s: int)
    requires 0 < n
    ensures var k := SlicesPerWorker(total, n);
      (0 <= s < total ==> 0 <= s / k < n && RangeOf(s / k, k, total).Contains(s))
    ensures var k := SlicesPerWorker(total, n);
      forall i :: 0 <= i < n && RangeOf(i, k, total).Contains(s) ==> 0 <= s < total && i == s / k
  {
    var k := SlicesPerWorker(total, n);
    if 0 <= s < total {
      assert 0 < k;
      QuotientBelow(s, k, n);
      RangeOwner(total, n, s / k, s);
    }
    forall i | 0 <= i < n && RangeOf(i, k, total).Contains(s)
      ensures 0 <= s < total && i == s / k
    {
      RangeOwner(total, n, i, s);
    }
  }

  /** Ranges of lower-numbered workers hold lower slices, so no two ranges meet. */
  lemma RangesAscending(total: nat, n: nat, i: int, j: int, x: int, y: int)
    requires 0 < n && 0 <= i < j
    requires RangeOf(i, SlicesPerWorker(total, n), total).Contains(x)
    requires RangeOf(j, SlicesPerWorker(total, n), total).Contains(y)
    ensures x < y
  {
    var k := SlicesPerWorker(total, n);
    if 0 < k {
      MulLe(i + 1, j, k);
    }
  }

  /** No range is longer than `k`, and a range starting at or past `total` is empty. */
  lemma RangeSize(total: nat, n: nat, i: int)
    requires 0 < n && 0 <= i
    ensures RangeOf(i, SlicesPerWorker(total, n), total).Size() <= SlicesPerWorker(total, n)
    ensures i * SlicesPerWorker(total, n) >= total ==> RangeOf(i, SlicesPerWorker(total, n), total).Size() == 0
  {
    var k := SlicesPerWorker(total, n);
    assert (i + 1) * k - 1 - i * k + 1 == k;
  }

  // ---------------------------------------------------------------- buildSubRequest

  /**
   * `buildSubRequest`: the alpha cut and, in order, the request's slices at
   * the range's indices. `getSlices` throws on an index outside the request.
   */
  method BuildSubRequest(request: VolumeRequest, range: IntRange) returns (r: Result<VolumeRequest>)
    ensures r.Success? <==> range.Size() == 0 || (0 <= range.first && range.last < |request.slices|)
    ensures r.Success? ==> r.value.alphaCut == request.alphaCut
    ensures r.Success? ==> |r.value.slices| == range.Size()
    ensures r.Success? ==> forall i :: 0 <= i < range.Size() ==> r.value.slices[i] == request.slices[range.first + i]
  {
    var slices: seq<ImageSlice> := [];
    var index := range.first;
    while index <= range.last
      invariant range.first <= index
      invariant range.Size() > 0 ==> index <= range.last + 1
      invariant range.Size() == 0 ==> index == range.first
      invariant range.first < index ==> 0 <= range.first && index - 1 < |request.slices|
      invariant |slices| == index - range.first
      invariant forall i :: 0 <= i < |slices| ==> slices[i] == request.slices[range.first + i]
      decreases range.last - index
    {
      if index < 0 || index >= |request.slices| {
        return Failure("IndexOutOfBoundsException");
      }
      slices := slices + [request.slices[index]];
      index := index + 1;
    }
    r := Success(VolumeRequest(slices, request.alphaCut));
  }

  // ---------------------------------------------------------------- aggregateResults

  /** `list.maxOrNull() ?: 0`. */
  function MaxOrZero(s: seq<int>): (m: int)
    ensures s == [] ==> m == 0
    ensures forall x :: x in s ==> x <= m
    ensures s != [] ==> m in s
  {
    if s == [] then 0
    else if |s| == 1 then s[0]
    else
      assert s == s[..|s| - 1] + [s[|s| - 1]];
      Max(MaxOrZero(s[..|s| - 1]), s[|s| - 1])
  }

  /**
   * The size of the merged lists: one more than the largest index any
   * result was assigned (an empty assignment counting as 0), or 0 without results.
   */
  function TotalSize(results: seq<(string, WorkerResult)>): (n: int)
    ensures results == [] ==> n == 0
    ensures forall j :: 0 <= j < |results| ==> MaxOrZero(results[j].1.assignedRange) < n
    ensures results != [] ==> exists j :: 0 <= j < |results| && n == MaxOrZero(results[j].1.assignedRange) + 1
  {
    if results == [] then 0
    else
      var prev := TotalSize(results[..|results| - 1]);
      var here := MaxOrZero(results[|results| - 1].1.assignedRange) + 1;
      if |results| == 1 then here else Max(prev, here)
  }

  predicate NonNegative(s: seq<int>) { forall x :: x in s ==> 0 <= x }

  predicate RangesNonEmpty(results: seq<(string, WorkerResult)>)
  {
    forall j :: 0 <= j < |results| ==> results[j].1.assignedRange != []
  }

  /**
   * The value written at position `p` by the last part `(start, items)`
   * whose span `start .. start+|items|-1` holds `p`, or `dflt` when none does.
   */
  function Covering<T>(parts: seq<(int, seq<T>)>, p: int, dflt: T): T
  {
    if parts == [] then dflt
    else
      var start, items := parts[|parts| - 1].0, parts[|parts| - 1].1;
      if start <= p < start + |items| then items[p - start]
      else Covering(parts[..|parts| - 1], p, dflt)
  }

  function RoiParts(results: seq<(string, WorkerResult)>): seq<(int, seq<Roi>)>
    requires RangesNonEmpty(results)
  {
    seq(|results|, j requires 0 <= j < |results| => (results[j].1.assignedRange[0], results[j].1.response.rois))
  }

  function SeedParts(results: seq<(string, WorkerResult)>): seq<(int, seq<Seed>)>
    requires RangesNonEmpty(results)
  {
    seq(|results|, j requires 0 <= j < |results| => (results[j].1.assignedRange[0], results[j].1.response.seeds))
  }

  /** The placeholder of an unfilled position: an empty box on slice -1. */
  const DefaultRoi: Roi := Roi(0, 0, 0, 0, 0.0, -1)

  const DefaultSeed: Seed := (0, 0)

  /** The friendly name reported for a result's worker: its own entry, else the address. */
  function FriendlyNameOf(result: (string, WorkerResult)): string
  {
    if result.0 in result.1.response.friendlyNames then result.1.response.friendlyNames[result.0] else result.0
  }

  /** The (address, assigned range) pairs put into `workerInfo`, in merge order. */
  function InfoPairs(results: seq<(string, WorkerResult)>): seq<(string, seq<int>)>
  {
    seq(|results|, j requires 0 <= j < |results| => (results[j].0, results[j].1.assignedRange))
  }

  /** The `workerInfo` map: each address to the range of its last result. */
  function WorkerInfo(results: seq<(string, WorkerResult)>): map<string, seq<int>>
  {
    MapOf(InfoPairs(results))
  }

  /** The (address, friendly name) pairs put into `friendlyNames`, in merge order. */
  function NamePairs(results: seq<(string, WorkerResult)>): seq<(string, string)>
  {
    seq(|results|, j requires 0 <= j < |results| => (results[j].0, FriendlyNameOf(results[j])))
  }

  /** The merged ROI list: position `p` from the last result covering it, else the placeholder. */
  function MergedRois(results: seq<(string, WorkerResult)>): (rois: seq<Roi>)
    requires RangesNonEmpty(results) && TotalSize(results) >= 0
    ensures |rois| == TotalSize(results)
  {
    seq(TotalSize(results), p => Covering(RoiParts(results), p, DefaultRoi))
  }

  /** The merged seed list, filled the same way. */
  function MergedSeeds(results: seq<(string, WorkerResult)>): (seeds: seq<Seed>)
    requires RangesNonEmpty(results) && TotalSize(results) >= 0
    ensures |seeds| == TotalSize(results)
  {
    seq(TotalSize(results), p => Covering(SeedParts(results), p, DefaultSeed))
  }

  /** What `aggregateResults` returns when no assigned range is empty. */
  function Aggregate(results: seq<(string, WorkerResult)>): (a: AggregateResponse)
    requires RangesNonEmpty(results)
    requires TotalSize(results) >= 0
    ensures |a.rois| == |a.seeds| == TotalSize(results)
    ensures a.status == Completed
  {
    AggregateResponse(
      MergedRois(results),
      MergedSeeds(results),
      WorkerInfo(results),
      MapOf(NamePairs(results)),
      Completed)
  }

  /** With non-negative assigned indices the merged size is never negative. */
  lemma TotalSizeNonNegative(results: seq<(string, WorkerResult)>)
    requires forall j :: 0 <= j < |results| ==> NonNegative(results[j].1.assignedRange)
    ensures TotalSize(results) >= 0
  {
    if results != [] {
      var j :| 0 <= j < |results| && TotalSize(results) == MaxOrZero(results[j].1.assignedRange) + 1;
      var s := results[j].1.assignedRange;
      if s != [] {
        assert MaxOrZero(s) in s;
      }
    }
  }

  /** `aggregatedList[start + i] = items[i]` for every `start + i` below the list size. */
  method WritePart<T>(a: array<T>, start: int, items: seq<T>)
    requires 0 <= start
    modifies a
    ensures forall p :: 0 <= p < a.Length ==>
      a[p] == (if start <= p < start + |items| then items[p - start] else old(a[p]))
  {
    var i := 0;
    while i < |items|
      invariant 0 <= i <= |items|
      invariant forall p :: 0 <= p < a.Length ==>
        a[p] == (if start <= p < start + i then items[p - start] else old(a[p]))
    {
      var g := start + i;
      if g < a.Length {
        a[g] := items[i];
      }
      i := i + 1;
    }
  }

  /** The merge loop: each result's ROIs, seeds, range and name, in result order. */
  method MergeResults(results: seq<(string, WorkerResult)>, rois: array<Roi>, seeds: array<Seed>)
    returns (info: map<string, seq<int>>, names: map<string, string>)
    requires RangesNonEmpty(results)
    requires forall j :: 0 <= j < |results| ==> NonNegative(results[j].1.assignedRange)
    requires forall p :: 0 <= p < rois.Length ==> rois[p] == DefaultRoi
    requires forall p :: 0 <= p < seeds.Length ==> seeds[p] == DefaultSeed
    modifies rois, seeds
    ensures forall p :: 0 <= p < rois.Length ==> rois[p] == Covering(RoiParts(results), p, DefaultRoi)
    ensures forall p :: 0 <= p < seeds.Length ==> seeds[p] == Covering(SeedParts(results), p, DefaultSeed)
    ensures info == WorkerInfo(results) && names == MapOf(NamePairs(results))
  {
    info, names := map[], map[];
    ghost var roiParts, seedParts := RoiParts(results), SeedParts(results);
    ghost var infoPairs, namePairs := InfoPairs(results), NamePairs(results);
    var j := 0;
    while j < |results|
      invariant 0 <= j <= |results|
      invariant forall p :: 0 <= p < rois.Length ==> rois[p] == Covering(roiParts[..j], p, DefaultRoi)
      invariant forall p :: 0 <= p < seeds.Length ==> seeds[p] == Covering(seedParts[..j], p, DefaultSeed)
      invariant info == MapOf(infoPairs[..j])
      invariant names == MapOf(namePairs[..j])
    {
      var result := results[j].1;
      var start := result.assignedRange[0];
      assert start in result.assignedRange;
      WritePart(rois, start, result.response.rois);
      WritePart(seeds, start, result.response.seeds);
      info := info[results[j].0 := result.assignedRange];
      names := names[results[j].0 := FriendlyNameOf(results[j])];
      assert roiParts[..j + 1][..j] == roiParts[..j];
      assert seedParts[..j + 1][..j] == seedParts[..j];
      assert infoPairs[..j + 1][..j] == infoPairs[..j];
      assert namePairs[..j + 1][..j] == namePairs[..j];
      j := j + 1;
    }
    assert roiParts[..j] == roiParts && seedParts[..j] == seedParts;
    assert infoPairs[..j] == infoPairs && namePairs[..j] == namePairs;
  }

  /**
   * `aggregateResults`: merge the results into lists of `TotalSize`
   * positions, later results overwriting earlier ones; a result with an
   * empty assigned range makes `first()` throw.
   */
  method AggregateResults(results: seq<(string, WorkerResult)>) returns (r: Result<AggregateResponse>)
    requires forall j :: 0 <= j < |results| ==> NonNegative(results[j].1.assignedRange)
    ensures r.Failure? <==> !RangesNonEmpty(results)
    ensures r.Success? ==> |r.value.rois| == TotalSize(results) && |r.value.seeds| == TotalSize(results)
    ensures r.Success? ==> forall p :: 0 <= p < TotalSize(results) ==>
      r.value.rois[p] == Covering(RoiParts(results), p, DefaultRoi) &&
      r.value.seeds[p] == Covering(SeedParts(results), p, DefaultSeed)
    ensures r.Success? ==> r.value == Aggregate(results)
  {
    var total := TotalSize(results);
    TotalSizeNonNegative(results);
    var j := 0;
    while j < |results|
      invariant 0 <= j <= |results|
      invariant forall i :: 0 <= i < j ==> results[i].1.assignedRange != []
    {
      if results[j].1.assignedRange == [] {
        return Failure("NoSuchElementException: List is empty.");
      }
      j := j + 1;
    }
    var rois := new Roi[total](_ => DefaultRoi);
    var seeds := new Seed[total](_ => DefaultSeed);
    var info, names := MergeResults(results, rois, seeds);
    r := Success(AggregateResponse(rois[..], seeds[..], info, names, Completed));
    assert rois[..] == Aggregate(results).rois;
    assert seeds[..] == Aggregate(results).seeds;
  }

  /** `workerInfo` maps every reporting address to the range of its last result. */
  lemma WorkerInfoOfLastResult(results: seq<(string, WorkerResult)>, j: int)
    requires 0 <= j < |results|
    requires forall i :: j < i < |results| ==> results[i].0 != results[j].0
    ensures results[j].0 in WorkerInfo(results)
    ensures WorkerInfo(results)[results[j].0] == results[j].1.assignedRange
  {
    var pairs := InfoPairs(results);
    forall i | j < i < |pairs|
      ensures pairs[i].0 != pairs[j].0
    {
    }
    MapOfLastWins(pairs, j);
  }

  /** A position that some part spans, where every part spanning it agrees on `v`, takes `v`. */
  lemma {:induction false} CoveringAgree<T>(parts: seq<(int, seq<T>)>, p: int, dflt: T, v: T)
    requires exists j :: 0 <= j < |parts| && parts[j].0 <= p < parts[j].0 + |parts[j].1|
    requires forall j :: 0 <= j < |parts| && parts[j].0 <= p < parts[j].0 + |parts[j].1| ==>
      parts[j].1[p - parts[j].0] == v
    ensures Covering(parts, p, dflt) == v
  {
    var n := |parts| - 1;
    if !(parts[n].0 <= p < parts[n].0 + |parts[n].1|) {
      CoveringAgree(parts[..n], p, dflt, v);
    }
  }

  // ---------------------------------------------------------------- start

  /** A worker's answer to its sub-request and the time it took, or None when it failed. */
  type Answer = Option<(VolumeResponse, int)>

  /** The result `start` records for an answered entry. */
  function ResultOf(entry: (Worker, IntRange), answer: (VolumeResponse, int)): (string, WorkerResult)
  {
    (entry.0.0, WorkerResult(answer.0, entry.1.ToList(), answer.1))
  }

  /** The results of the answered entries, in entry order. */
  function Collected(entries: seq<(Worker, IntRange)>, answers: seq<Answer>): seq<(string, WorkerResult)>
    requires |entries| == |answers|
  {
    if entries == [] then []
    else
      var n := |entries| - 1;
      var prev := Collected(entries[..n], answers[..n]);
      if answers[n].Some? then prev + [ResultOf(entries[n], answers[n].value)] else prev
  }

  /** When `start` throws: nothing distributed, no result, an empty assigned range, or a count that is not the slice count. */
  predicate StartFails(total: nat, entries: seq<(Worker, IntRange)>, results: seq<(string, WorkerResult)>)
  {
    entries == [] || results == [] || !RangesNonEmpty(results) || TotalSize(results) != total
  }

  /** Every distributed range starts at a non-negative slice index. */
  lemma DistributedRangesNonNegative(total: nat, workers: seq<Worker>)
    ensures forall e :: e in DistributeTasks(total, workers) ==> 0 <= e.1.first
  {
    if workers != [] {
      var a := Assignments(total, workers);
      LinkedEntriesFrom(a);
      assert forall e :: e in a ==> 0 <= e.1.first;
    }
  }

  lemma {:induction false} CollectedNonNegative(entries: seq<(Worker, IntRange)>, answers: seq<Answer>)
    requires |entries| == |answers|
    requires forall e :: e in entries ==> 0 <= e.1.first
    ensures forall j :: 0 <= j < |Collected(entries, answers)| ==>
      NonNegative(Collected(entries, answers)[j].1.assignedRange)
  {
    if entries != [] {
      var n := |entries| - 1;
      assert forall e :: e in entries[..n] ==> e in entries;
      CollectedNonNegative(entries[..n], answers[..n]);
      assert entries[n] in entries;
    }
  }

  /**
   * `start`: distribute, collect the answers of the workers that answered,
   * aggregate, and return the ROI and seed lists when they cover exactly
   * the request's slices. The workers' answers are given, one per entry of
   * the distribution.
   */
  method Start(request: VolumeRequest, workers: seq<Worker>, answers: seq<Answer>)
    returns (r: Result<(seq<Roi>, seq<Seed>)>)
    requires |answers| == |DistributeTasks(|request.slices|, workers)|
    ensures var entries := DistributeTasks(|request.slices|, workers);
      r.Failure? <==> StartFails(|request.slices|, entries, Collected(entries, answers))
    ensures r.Success? ==> |r.value.0| == |request.slices| && |r.value.1| == |request.slices|
    ensures r.Success? ==>
      var results := Collected(DistributeTasks(|request.slices|, workers), answers);
      RangesNonEmpty(results) && TotalSize(results) >= 0 &&
      r.value == (Aggregate(results).rois, Aggregate(results).seeds)
  {
    var total := |request.slices|;
    var entries := DistributeTasks(total, workers);
    if entries == [] {
      return Failure("Failed to distribute tasks among workers");
    }
    var results: seq<(string, WorkerResult)> := [];
    var failedWorkers := 0;
    var j := 0;
    while j < |entries|
      invariant 0 <= j <= |entries|
      invariant results == Collected(entries[..j], answers[..j])
    {
      if answers[j].Some? {
        results := results + [ResultOf(entries[j], answers[j].value)];
      } else {
        failedWorkers := failedWorkers + 1;
      }
      assert entries[..j + 1][..j] == entries[..j] && answers[..j + 1][..j] == answers[..j];
      j := j + 1;
    }
    assert entries[..j] == entries && answers[..j] == answers;
    if results == [] {
      return Failure("All workers failed to process their tasks");
    }
    DistributedRangesNonNegative(total, workers);
    CollectedNonNegative(entries, answers);
    var aggregated := AggregateResults(results);
    if aggregated.Failure? {
      return Failure(aggregated.error);
    }
    var rois, seeds := aggregated.value.rois, aggregated.value.seeds;
    if |rois| != total || |seeds| != total {
      return Failure("Missing results for some slices");
    }
    r := Success((rois, seeds));
  }

  lemma {:induction false} CollectedAllAnswered(entries: seq<(Worker, IntRange)>, answers: seq<Answer>)
    requires |entries| == |answers|
    requires forall j :: 0 <= j < |answers| ==> answers[j].Some?
    ensures |Collected(entries, answers)| == |entries|
    ensures forall j :: 0 <= j < |entries| ==> Collected(entries, answers)[j] == ResultOf(entries[j], answers[j].value)
  {
    if entries != [] {
      var n := |entries| - 1;
      CollectedAllAnswered(entries[..n], answers[..n]);
    }
  }

  /**
   * As written, `start` fails whenever the distribution leaves a worker an
   * empty range (`i*k >= total`), even when every worker answers: that
   * worker's result has an empty assigned range, whose `first()` throws.
   */
  lemma IdleWorkerBreaksStart(total: nat, workers: seq<Worker>, answers: seq<Answer>, i: int)
    requires DistinctWorkers(workers) && |answers| == |workers|
    requires forall j :: 0 <= j < |answers| ==> answers[j].Some?
    requires 0 <= i < |workers| && total <= i * SlicesPerWorker(total, |workers|)
    ensures StartFails(total, DistributeTasks(total, workers), Collected(DistributeTasks(total, workers), answers))
  {
    var entries := DistributeTasks(total, workers);
    CollectedAllAnswered(entries, answers);
    RangeSize(total, |workers|, i);
    assert Collected(entries, answers)[i].1.assignedRange == [];
  }

  /** Five slices over four workers: k = 2, and the fourth worker's range is 6..4. */
  lemma FiveSlicesFourWorkers(workers: seq<Worker>, answers: seq<Answer>)
    requires DistinctWorkers(workers) && |workers| == 4 && |answers| == 4
    requires forall j :: 0 <= j < 4 ==> answers[j].Some?
    ensures StartFails(5, DistributeTasks(5, workers), Collected(DistributeTasks(5, workers), answers))
  {
    assert SlicesPerWorker(5, 4) == 2;
    IdleWorkerBreaksStart(5, workers, answers, 3);
  }

  /** The results when only entries with a non-empty range are sent out. */
  function CollectedActive(entries: seq<(Worker, IntRange)>, answers: seq<Answer>): seq<(string, WorkerResult)>
    requires |entries| == |answers|
  {
    if entries == [] then []
    else
      var n := |entries| - 1;
      var prev := CollectedActive(entries[..n], answers[..n]);
      if answers[n].Some? && entries[n].1.Size() > 0 then prev + [ResultOf(entries[n], answers[n].value)] else prev
  }

  /** `start` with workers whose range is empty left idle instead of being sent an empty sub-request. */
  method StartSkippingIdle(request: VolumeRequest, workers: seq<Worker>, answers: seq<Answer>)
    returns (r: Result<(seq<Roi>, seq<Seed>)>)
    requires |answers| == |DistributeTasks(|request.slices|, workers)|
    ensures var entries := DistributeTasks(|request.slices|, workers);
      r.Failure? <==> StartFails(|request.slices|, entries, CollectedActive(entries, answers))
    ensures r.Success? ==> |r.value.0| == |request.slices| && |r.value.1| == |request.slices|
    ensures r.Success? ==>
      var results := CollectedActive(DistributeTasks(|request.slices|, workers), answers);
      RangesNonEmpty(results) && TotalSize(results) >= 0 &&
      r.value == (Aggregate(results).rois, Aggregate(results).seeds)
  {
    var total := |request.slices|;
    var entries := DistributeTasks(total, workers);
    if entries == [] {
      return Failure("Failed to distribute tasks among workers");
    }
    var results: seq<(string, WorkerResult)> := [];
    var j := 0;
    while j < |entries|
      invariant 0 <= j <= |entries|
      invariant results == CollectedActive(entries[..j], answers[..j])
    {
      if answers[j].Some? && entries[j].1.Size() > 0 {
        results := results + [ResultOf(entries[j], answers[j].value)];
      }
      assert entries[..j + 1][..j] == entries[..j] && answers[..j + 1][..j] == answers[..j];
      j := j + 1;
    }
    assert entries[..j] == entries && answers[..j] == answers;
    if results == [] {
      return Failure("All workers failed to process their tasks");
    }
    DistributedRangesNonNegative(total, workers);
    ActiveFromEntries(entries, answers);
    assert forall k :: 0 <= k < |results| ==> NonNegative(results[k].1.assignedRange) by {
      forall k | 0 <= k < |results|
        ensures NonNegative(results[k].1.assignedRange)
      {
        assert results[k] in results;
      }
    }
    var aggregated := AggregateResults(results);
    if aggregated.Failure? {
      return Failure(aggregated.error);
    }
    var rois, seeds := aggregated.value.rois, aggregated.value.seeds;
    if |rois| != total || |seeds| != total {
      return Failure("Missing results for some slices");
    }
    r := Success((rois, seeds));
  }

  /** Every active result comes from an answered entry with a non-empty range. */
  lemma {:induction false} ActiveFromEntries(entries: seq<(Worker, IntRange)>, answers: seq<Answer>)
    requires |entries| == |answers|
    ensures forall x :: x in CollectedActive(entries, answers) ==>
      exists i :: 0 <= i < |entries| && entries[i].1.Size() > 0 && answers[i].Some? && x == ResultOf(entries[i], answers[i].value)
  {
    if entries != [] {
      var n := |entries| - 1;
      ActiveFromEntries(entries[..n], answers[..n]);
    }
  }

  /** Every answered entry with a non-empty range yields an active result. */
  lemma {:induction false} ActiveIncludes(entries: seq<(Worker, IntRange)>, answers: seq<Answer>, i: int)
    requires |entries| == |answers| && 0 <= i < |entries|
    requires entries[i].1.Size() > 0 && answers[i].Some?
    ensures ResultOf(entries[i], answers[i].value) in CollectedActive(entries, answers)
  {
    var n := |entries| - 1;
    if i < n {
      ActiveIncludes(entries[..n], answers[..n], i);
    }
  }

  /** The largest member of a non-empty range is its last. */
  lemma MaxOfRange(r: IntRange)
    requires r.Size() > 0
    ensures MaxOrZero(r.ToList()) == r.last
  {
    var s := r.ToList();
    assert s[|s| - 1] == r.last;
    assert s[|s| - 1] in s;
  }

  /**
   * Every worker with a non-empty range answers, with one ROI and one seed
   * per slice of its range.
   */
  predicate AnswersFit(total: nat, workers: seq<Worker>, answers: seq<Answer>)
    requires 0 < |workers|
  {
    var k := SlicesPerWorker(total, |workers|);
    |answers| == |workers| &&
    forall i :: 0 <= i < |workers| && RangeOf(i, k, total).Size() > 0 ==>
      answers[i].Some? &&
      |answers[i].value.0.rois| == RangeOf(i, k, total).Size() &&
      |answers[i].value.0.seeds| == RangeOf(i, k, total).Size()
  }

  /** Result `j` of the idle-skipping collection is worker `i`'s answer on worker `i`'s range. */
  lemma ActiveResult(total: nat, workers: seq<Worker>, answers: seq<Answer>, j: int) returns (i: int)
    requires 0 < |workers| && AnswersFit(total, workers, answers)
    requires 0 <= j < |CollectedActive(Assignments(total, workers), answers)|
    ensures var k := SlicesPerWorker(total, |workers|);
      var result := CollectedActive(Assignments(total, workers), answers)[j];
      0 <= i < |workers| && RangeOf(i, k, total).Size() > 0 &&
      result.1.assignedRange == RangeOf(i, k, total).ToList() &&
      result.1.response == answers[i].value.0 &&
      |result.1.response.rois| == RangeOf(i, k, total).Size() &&
      |result.1.response.seeds| == RangeOf(i, k, total).Size()
  {
    var entries := Assignments(total, workers);
    var results := CollectedActive(entries, answers);
    ActiveFromEntries(entries, answers);
    assert results[j] in results;
    i :| 0 <= i < |entries| && entries[i].1.Size() > 0 && answers[i].Some? && results[j] == ResultOf(entries[i], answers[i].value);
  }

  /** The owner of slice `s` has an entry among the idle-skipping results. */
  lemma OwnerResult(total: nat, workers: seq<Worker>, answers: seq<Answer>, s: int) returns (j: int)
    requires 0 < |workers| && AnswersFit(total, workers, answers) && 0 <= s < total
    ensures var k := SlicesPerWorker(total, |workers|);
      var results := CollectedActive(Assignments(total, workers), answers);
      0 <= s / k < |workers| && answers[s / k].Some? && 0 <= j < |results| &&
      results[j] == ResultOf((workers[s / k], RangeOf(s / k, k, total)), answers[s / k].value)
  {
    var k := SlicesPerWorker(total, |workers|);
    var entries := Assignments(total, workers);
    var results := CollectedActive(entries, answers);
    RangesPartition(total, |workers|, s);
    var o := s / k;
    assert entries[o] == (workers[o], RangeOf(o, k, total));
    assert RangeOf(o, k, total).Size() > 0;
    ActiveIncludes(entries, answers, o);
    j :| 0 <= j < |results| && results[j] == ResultOf(entries[o], answers[o].value);
  }

  /** Without idle workers in the way, no assigned range is empty and the merged size is the slice count. */
  lemma ActiveCoversAll(total: nat, workers: seq<Worker>, answers: seq<Answer>)
    requires 0 < |workers| && AnswersFit(total, workers, answers) && 0 < total
    ensures var results := CollectedActive(Assignments(total, workers), answers);
      results != [] && RangesNonEmpty(results) && TotalSize(results) == total
  {
    var n := |workers|;
    var k := SlicesPerWorker(total, n);
    var results := CollectedActive(Assignments(total, workers), answers);
    forall j | 0 <= j < |results|
      ensures results[j].1.assignedRange != []
      ensures MaxOrZero(results[j].1.assignedRange) < total
    {
      var i := ActiveResult(total, workers, answers, j);
      var r := RangeOf(i, k, total);
      MaxOfRange(r);
      RangesPartition(total, n, r.last);
    }
    var jo := OwnerResult(total, workers, answers, total - 1);
    var o := (total - 1) / k;
    RangesPartition(total, n, total - 1);
    MaxOfRange(RangeOf(o, k, total));
    assert MaxOrZero(results[jo].1.assignedRange) == total - 1;
  }

  /** Slice `s` is answered by its owner, worker `s / k`, at offset `s % k` of the owner's lists. */
  lemma OwnerAnswers(total: nat, workers: seq<Worker>, answers: seq<Answer>, s: int)
    requires 0 < |workers| && AnswersFit(total, workers, answers) && 0 <= s < total
    ensures var k := SlicesPerWorker(total, |workers|);
      0 <= s / k < |workers| && answers[s / k].Some? &&
      s % k < |answers[s / k].value.0.rois| && s % k < |answers[s / k].value.0.seeds| &&
      RangeOf(s / k, k, total).first + s % k == s
  {
    var k := SlicesPerWorker(total, |workers|);
    RangesPartition(total, |workers|, s);
    assert (s / k) * k + s % k == s;
  }

  /** What the owner of slice `s`, worker `s / k`, computed for it: entry `s % k` of its ROI list. */
  function OwnerRoi(total: nat, workers: seq<Worker>, answers: seq<Answer>, s: int): Roi
    requires 0 < |workers| && AnswersFit(total, workers, answers) && 0 <= s < total
  {
    var k := SlicesPerWorker(total, |workers|);
    OwnerAnswers(total, workers, answers, s);
    answers[s / k].value.0.rois[s % k]
  }

  /** What the owner of slice `s` computed for it: entry `s % k` of its seed list. */
  function OwnerSeed(total: nat, workers: seq<Worker>, answers: seq<Answer>, s: int): Seed
    requires 0 < |workers| && AnswersFit(total, workers, answers) && 0 <= s < total
  {
    var k := SlicesPerWorker(total, |workers|);
    OwnerAnswers(total, workers, answers, s);
    answers[s / k].value.0.seeds[s % k]
  }

  /** The ROI parts spanning slice `s` are exactly its owner's, so the merge picks the owner's ROI. */
  lemma OwnerCoversRoi(total: nat, workers: seq<Worker>, answers: seq<Answer>, s: int)
    requires 0 < |workers| && AnswersFit(total, workers, answers) && 0 <= s < total
    requires RangesNonEmpty(CollectedActive(Assignments(total, workers), answers))
    ensures Covering(RoiParts(CollectedActive(Assignments(total, workers), answers)), s, DefaultRoi)
      == OwnerRoi(total, workers, answers, s)
  {
    var k := SlicesPerWorker(total, |workers|);
    var results := CollectedActive(Assignments(total, workers), answers);
    OwnerAnswers(total, workers, answers, s);
    RangesPartition(total, |workers|, s);
    var v := OwnerRoi(total, workers, answers, s);
    var parts := RoiParts(results);
    forall j | 0 <= j < |results| && parts[j].0 <= s < parts[j].0 + |parts[j].1|
      ensures parts[j].1[s - parts[j].0] == v
    {
      var i := ActiveResult(total, workers, answers, j);
      assert RangeOf(i, k, total).Contains(s);
    }
    var jo := OwnerResult(total, workers, answers, s);
    var _ := ActiveResult(total, workers, answers, jo);
    assert parts[jo].0 <= s < parts[jo].0 + |parts[jo].1|;
    CoveringAgree(parts, s, DefaultRoi, v);
  }

  /** The seed parts spanning slice `s` are exactly its owner's, so the merge picks the owner's seed. */
  lemma OwnerCoversSeed(total: nat, workers: seq<Worker>, answers: seq<Answer>, s: int)
    requires 0 < |workers| && AnswersFit(total, workers, answers) && 0 <= s < total
    requires RangesNonEmpty(CollectedActive(Assignments(total, workers), answers))
    ensures Covering(SeedParts(CollectedActive(Assignments(total, workers), answers)), s, DefaultSeed)
      == OwnerSeed(total, workers, answers, s)
  {
    var k := SlicesPerWorker(total, |workers|);
    var results := CollectedActive(Assignments(total, workers), answers);
    OwnerAnswers(total, workers, answers, s);
    RangesPartition(total, |workers|, s);
    var v := OwnerSeed(total, workers, answers, s);
    var parts := SeedParts(results);
    forall j | 0 <= j < |results| && parts[j].0 <= s < parts[j].0 + |parts[j].1|
      ensures parts[j].1[s - parts[j].0] == v
    {
      var i := ActiveResult(total, workers, answers, j);
      assert RangeOf(i, k, total).Contains(s);
    }
    var jo := OwnerResult(total, workers, answers, s);
    var _ := ActiveResult(total, workers, answers, jo);
    assert parts[jo].0 <= s < parts[jo].0 + |parts[jo].1|;
    CoveringAgree(parts, s, DefaultSeed, v);
  }

  /** Over the distribution in worker order, the idle-skipping merge puts every owner's answer in place. */
  lemma ActiveAggregate(total: nat, workers: seq<Worker>, answers: seq<Answer>)
    requires 0 < total && 0 < |workers| && AnswersFit(total, workers, answers)
    ensures var results := CollectedActive(Assignments(total, workers), answers);
      results != [] && RangesNonEmpty(results) && TotalSize(results) == total &&
      (forall s :: 0 <= s < total ==> Aggregate(results).rois[s] == OwnerRoi(total, workers, answers, s)) &&
      (forall s :: 0 <= s < total ==> Aggregate(results).seeds[s] == OwnerSeed(total, workers, answers, s))
  {
    var results := CollectedActive(Assignments(total, workers), answers);
    ActiveCoversAll(total, workers, answers);
    forall s | 0 <= s < total
      ensures Aggregate(results).rois[s] == OwnerRoi(total, workers, answers, s)
      ensures Aggregate(results).seeds[s] == OwnerSeed(total, workers, answers, s)
    {
      OwnerCoversRoi(total, workers, answers, s);
      OwnerCoversSeed(total, workers, answers, s);
      assert Aggregate(results).rois[s] == MergedRois(results)[s];
      assert Aggregate(results).seeds[s] == MergedSeeds(results)[s];
    }
  }

  /**
   * With idle workers left out, `start` does what it is for: when the
   * workers are distinct and every worker with a non-empty range answers
   * with one ROI and one seed per assigned slice, it succeeds, and slice
   * `s` gets what its owner (worker `s / k`) computed for it, at offset
   * `s % k` of that worker's lists.
   */
  lemma SkippingIdleSucceeds(total: nat, workers: seq<Worker>, answers: seq<Answer>)
    requires DistinctWorkers(workers) && 0 < total && 0 < |workers| && AnswersFit(total, workers, answers)
    ensures var results := CollectedActive(DistributeTasks(total, workers), answers);
      !StartFails(total, DistributeTasks(total, workers), results) &&
      (forall s :: 0 <= s < total ==> Aggregate(results).rois[s] == OwnerRoi(total, workers, answers, s)) &&
      (forall s :: 0 <= s < total ==> Aggregate(results).seeds[s] == OwnerSeed(total, workers, answers, s))
  {
    assert DistributeTasks(total, workers) == Assignments(total, workers);
    ActiveAggregate(total, workers, answers);
  }
}
