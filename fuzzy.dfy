/**
 * Fuzzy-connectedness segmentation of one slice: every cell of a
 * width × height image gets a connectivity value in [0, 1]. The seeds start
 * at 1, every other cell at 0, and a max-priority queue propagates the
 * strength of the best path, the strength of a step from `c` to a
 * neighbour `e` being `min(conScene[c], affinity(c, e))`. Neighbours are
 * the 4-neighbours clipped to the ROI box. The affinity (two Gaussian
 * memberships fitted around the seeds) is an arbitrary function into [0, 1].
 */
module Fuzzy {
  import opened Domain
  import opened KotlinNum
  import opened Arith

  /** The ROI box lies inside the image, so no neighbour step leaves the image or wraps to another row. */
  predicate RoiInside(roi: Roi, width: int, height: int)
  {
    0 <= roi.xMin && roi.xMax < width && 0 <= roi.yMin && roi.yMax < height
  }

  /** The cell index of a seed `(x, y)`: row-major, `y * width + x`. */
  function SeedIndex(width: int, seed: Seed): int
  {
    seed.1 * width + seed.0
  }

  /** The queue entries the seeds start with: each seed's cell at full strength. */
  function SeedEntries(width: int, seeds: seq<Seed>): seq<(int, real)>
  {
    seq(|seeds|, k requires 0 <= k < |seeds| => (SeedIndex(width, seeds[k]), 1.0))
  }

  /** `getNeighbors`: left, right, up and down, each only while the cell's column or row is inside the ROI bounds. */
  function Neighbors(width: int, roi: Roi, index: int): (r: seq<int>)
    requires 0 < width && 0 <= index
    ensures |r| <= 4
  {
    NeighborsAt(width, roi, index % width, index / width, index)
  }

  /** The neighbours of cell `index`, which sits at column `x` of row `y`. */
  function NeighborsAt(width: int, roi: Roi, x: int, y: int, index: int): (r: seq<int>)
    ensures |r| <= 4
  {
    (if x > roi.xMin then [index - 1] else []) +
    (if x < roi.xMax then [index + 1] else []) +
    (if y > roi.yMin then [index - width] else []) +
    (if y < roi.yMax then [index + width] else [])
  }

  /** The row of a cell of a width × height image is one of its rows. */
  lemma CellRow(width: int, height: int, index: int)
    requires 0 < width && 0 < height && 0 <= index < width * height
    ensures 0 <= index / width < height
  {
    if index / width >= height {
      MulLe(height, index / width, width);
      assert false;
    }
  }

  /**
   * With the ROI inside the image, every neighbour of a cell is another
   * cell of the image, one step away in the same row or the same column.
   */
  lemma NeighborsInImage(width: int, height: int, roi: Roi, index: int)
    requires 0 < width && 0 < height && RoiInside(roi, width, height) && 0 <= index < width * height
    ensures forall e :: e in Neighbors(width, roi, index) ==>
      0 <= e < width * height && e != index &&
      (e == index - 1 || e == index + 1 || e == index - width || e == index + width)
  {
    CellRow(width, height, index);
    NeighborsAtInImage(width, height, roi, index % width, index / width, index);
  }

  lemma NeighborsAtInImage(width: int, height: int, roi: Roi, x: int, y: int, index: int)
    requires 0 < width && 0 < height && RoiInside(roi, width, height)
    requires 0 <= x < width && 0 <= y < height && index == y * width + x
    ensures forall e :: e in NeighborsAt(width, roi, x, y, index) ==>
      0 <= e < width * height && e != index &&
      (e == index - 1 || e == index + 1 || e == index - width || e == index + width)
  {
    var row, area := y * width, width * height;
    MulLe(y + 1, height, width);
    assert (y + 1) * width == row + width;
    if y > roi.yMin {
      MulLe(1, y, width);
    }
    if y < roi.yMax {
      MulLe(y + 2, height, width);
      assert (y + 2) * width == row + width + width;
    }
    NeighborsWithinArea(width, area, roi, x, y, row, index);
  }

  /** `NeighborsAtInImage` over a row offset and an image size taken as plain numbers. */
  lemma NeighborsWithinArea(width: int, area: int, roi: Roi, x: int, y: int, row: int, index: int)
    requires 0 < width && 0 <= roi.xMin && roi.xMax < width && 0 <= x < width && index == row + x
    requires 0 <= row && row + width <= area
    requires y > roi.yMin ==> width <= row
    requires y < roi.yMax ==> row + width + width <= area
    ensures forall e :: e in NeighborsAt(width, roi, x, y, index) ==>
      0 <= e < area && e != index &&
      (e == index - 1 || e == index + 1 || e == index - width || e == index + width)
  {
  }

  /** The left and right neighbours lie in the same row: no step wraps around an edge of the image. */
  lemma NeighborsKeepRow(width: int, height: int, roi: Roi, index: int)
    requires 0 < width && 0 < height && RoiInside(roi, width, height) && 0 <= index < width * height
    ensures index % width > roi.xMin ==> index - 1 in Neighbors(width, roi, index) && (index - 1) / width == index / width
    ensures index % width < roi.xMax ==> index + 1 in Neighbors(width, roi, index) && (index + 1) / width == index / width
  {
    var x, y := index % width, index / width;
    assert index == y * width + x;
    if x > roi.xMin {
      SameRow(width, index, x, y, -1);
    }
    if x < roi.xMax {
      SameRow(width, index, x, y, 1);
    }
  }

  /** A step of `d` along row `y` that stays inside the row stays in that row. */
  lemma SameRow(width: int, index: int, x: int, y: int, d: int)
    requires 0 <= y && index == y * width + x && 0 <= x + d < width
    ensures (index + d) / width == y
  {
    RowColumn(width, y, x + d);
  }

  /** Cell `i` lies inside the ROI box. */
  predicate InBox(width: int, roi: Roi, i: int)
    requires 0 < width
  {
    roi.xMin <= i % width <= roi.xMax && roi.yMin <= i / width <= roi.yMax
  }

  /** The cells of the ROI box. */
  ghost function BoxCells(width: int, height: int, roi: Roi): set<int>
    requires 0 < width
  {
    set i | 0 <= i < width * height && InBox(width, roi, i)
  }

  predicate InImage(width: int, height: int, i: int)
  {
    0 <= i < width * height
  }

  /** Every cell of the image. */
  ghost function AllCells(width: int, height: int): set<int>
  {
    set i | 0 <= i < width * height && InImage(width, height, i)
  }

  /** The neighbours of a cell of the box are cells of the box: propagation never leaves the ROI. */
  lemma BoxClosed(width: int, height: int, roi: Roi)
    requires 0 < width && 0 < height && RoiInside(roi, width, height)
    ensures Closed(BoxCells(width, height, roi), width, roi)
  {
    forall c, e | c in BoxCells(width, height, roi) && 0 <= c && e in Neighbors(width, roi, c)
      ensures e in BoxCells(width, height, roi)
    {
      NeighborsInImage(width, height, roi, c);
      NeighborsAtInBox(width, roi, c % width, c / width, c);
    }
  }

  lemma NeighborsAtInBox(width: int, roi: Roi, x: int, y: int, index: int)
    requires 0 < width && 0 <= roi.xMin && roi.xMax < width && 0 <= roi.yMin
    requires roi.xMin <= x <= roi.xMax && roi.yMin <= y <= roi.yMax && index == y * width + x
    ensures forall e :: e in NeighborsAt(width, roi, x, y, index) ==> InBox(width, roi, e)
  {
    if x > roi.xMin {
      CellInBox(width, roi, x - 1, y, index - 1);
    }
    if x < roi.xMax {
      CellInBox(width, roi, x + 1, y, index + 1);
    }
    if y > roi.yMin {
      MulSucc(y - 1, width);
      CellInBox(width, roi, x, y - 1, index - width);
    }
    if y < roi.yMax {
      MulSucc(y, width);
      CellInBox(width, roi, x, y + 1, index + width);
    }
  }

  lemma CellInBox(width: int, roi: Roi, x: int, y: int, index: int)
    requires 0 < width && roi.xMin <= x <= roi.xMax && roi.xMax < width && 0 <= roi.xMin
    requires 0 <= roi.yMin <= y <= roi.yMax && index == y * width + x
    ensures InBox(width, roi, index)
  {
    RowColumn(width, y, x);
  }

  /** No neighbour step leaves the image. */
  lemma ImageClosed(width: int, height: int, roi: Roi)
    requires 0 < width && 0 < height && RoiInside(roi, width, height)
    ensures Closed(AllCells(width, height), width, roi)
  {
    forall c, e | c in AllCells(width, height) && 0 <= c && e in Neighbors(width, roi, c)
      ensures e in AllCells(width, height)
    {
      NeighborsInImage(width, height, roi, c);
    }
  }

  // ---------------------------------------------------------------- the propagation state, as values

  /** Every connectivity value lies in [0, 1]. */
  ghost predicate Bounded(s: seq<real>)
  {
    forall i :: 0 <= i < |s| ==> 0.0 <= s[i] <= 1.0
  }

  /** Every queue entry names a cell and carries no more than the cell's current value. */
  ghost predicate QueueOk(s: seq<real>, q: seq<(int, real)>)
  {
    forall k :: 0 <= k < |q| ==> 0 <= q[k].0 < |s| && q[k].1 <= s[q[k].0]
  }

  /** Cell `c` still waits in the queue with its current value. */
  ghost predicate Pending(s: seq<real>, q: seq<(int, real)>, c: int)
    requires 0 <= c < |s|
  {
    exists k :: 0 <= k < |q| && q[k] == (c, s[c])
  }

  /** No neighbour of `c` would gain from a step out of `c`. */
  ghost predicate Fixed(s: seq<real>, width: int, roi: Roi, aff: (int, int) -> real, c: int)
    requires 0 < width && 0 <= c < |s|
  {
    forall e :: e in Neighbors(width, roi, c) && 0 <= e < |s| ==> s[e] >= MinReal(s[c], aff(c, e))
  }

  /** Every cell other than `except` is either pending or fixed. */
  ghost predicate Settled(s: seq<real>, q: seq<(int, real)>, width: int, roi: Roi, aff: (int, int) -> real, except: int)
    requires 0 < width
  {
    forall c :: 0 <= c < |s| && c != except ==> Pending(s, q, c) || Fixed(s, width, roi, aff, c)
  }

  /** The propagation invariant: values in range, a well-formed queue, and every cell pending or fixed. */
  ghost predicate Propagating(s: seq<real>, q: seq<(int, real)>, width: int, roi: Roi, aff: (int, int) -> real)
    requires 0 < width
  {
    Bounded(s) && QueueOk(s, q) && Settled(s, q, width, roi, aff, -1)
  }

  /** Cells outside `region` are 0 and never queued. */
  ghost predicate Confined(s: seq<real>, q: seq<(int, real)>, region: set<int>)
  {
    (forall i :: 0 <= i < |s| && i !in region ==> s[i] == 0.0) &&
    (forall k :: 0 <= k < |q| ==> q[k].0 in region)
  }

  /** No neighbour step leads out of `region`. */
  ghost predicate Closed(region: set<int>, width: int, roi: Roi)
    requires 0 < width
  {
    forall c, e :: c in region && 0 <= c && e in Neighbors(width, roi, c) ==> e in region
  }

  ghost predicate AffinityInRange(aff: (int, int) -> real)
  {
    forall c, d :: 0.0 <= aff(c, d) <= 1.0
  }

  /** The state right after `initializeSeeds`: the seeds at 1 and queued, everything else 0. */
  lemma StartIsPropagating(s: seq<real>, width: int, roi: Roi, seeds: seq<Seed>, aff: (int, int) -> real)
    requires 0 < width && AffinityInRange(aff)
    requires forall k :: 0 <= k < |seeds| ==> 0 <= SeedIndex(width, seeds[k]) < |s|
    requires forall i :: 0 <= i < |s| ==>
      s[i] == (if exists k :: 0 <= k < |seeds| && SeedIndex(width, seeds[k]) == i then 1.0 else 0.0)
    ensures Propagating(s, SeedEntries(width, seeds), width, roi, aff)
  {
    var q := SeedEntries(width, seeds);
    forall c | 0 <= c < |s|
      ensures Pending(s, q, c) || Fixed(s, width, roi, aff, c)
    {
      if exists k :: 0 <= k < |seeds| && SeedIndex(width, seeds[k]) == c {
        var k :| 0 <= k < |seeds| && SeedIndex(width, seeds[k]) == c;
        assert q[k] == (c, s[c]);
      } else {
        assert s[c] == 0.0;
      }
    }
  }

  /** Before propagation only the seeds' cells are non-zero: a region holding the seeds confines the start. */
  lemma StartIsConfined(s: seq<real>, width: int, seeds: seq<Seed>, region: set<int>)
    requires forall k :: 0 <= k < |seeds| ==> SeedIndex(width, seeds[k]) in region
    requires forall i :: 0 <= i < |s| ==>
      s[i] == (if exists k :: 0 <= k < |seeds| && SeedIndex(width, seeds[k]) == i then 1.0 else 0.0)
    ensures Confined(s, SeedEntries(width, seeds), region)
  {
  }

  /** The values a run can produce: the values the cells start with and the affinities between cells. */
  ghost function ValuesFrom(start: seq<real>, aff: (int, int) -> real): set<real>
  {
    (set i | 0 <= i < |start| :: start[i]) + (set c, e | 0 <= c < |start| && 0 <= e < |start| :: aff(c, e))
  }

  /** Every cell has risen from its start value and holds one of the values of `V`. */
  ghost predicate Grown(s: seq<real>, start: seq<real>, V: set<real>)
  {
    |s| == |start| && forall i :: 0 <= i < |s| ==> s[i] in V && start[i] <= s[i]
  }

  /** The invariant of `run` while cell `except` is being processed (`-1`: between cells). */
  ghost predicate Step(s: seq<real>, q: seq<(int, real)>, width: int, roi: Roi, aff: (int, int) -> real,
                       region: set<int>, start: seq<real>, except: int)
    requires 0 < width
  {
    Bounded(s) && QueueOk(s, q) && Settled(s, q, width, roi, aff, except) &&
    Confined(s, q, region) && Grown(s, start, ValuesFrom(start, aff))
  }

  /** Removing the `k`-th queue entry keeps every other entry. */
  lemma RemoveEntry(q: seq<(int, real)>, k: int, j: int)
    requires 0 <= k < |q| && 0 <= j < |q| && j != k
    ensures var q' := q[..k] + q[k + 1..]; if j < k then q'[j] == q[j] else q'[j - 1] == q[j]
  {
  }

  /**
   * `poll`: dropping a stale entry (its value is below the cell's) keeps the
   * invariant; taking a current one keeps it for every cell but the polled one.
   */
  lemma PollKeeps(s: seq<real>, q: seq<(int, real)>, width: int, roi: Roi, aff: (int, int) -> real,
                  region: set<int>, start: seq<real>, k: int)
    requires 0 < width && Step(s, q, width, roi, aff, region, start, -1)
    requires 0 <= k < |q|
    ensures 0 <= q[k].0 < |s| && q[k].0 in region
    ensures Step(s, q[..k] + q[k + 1..], width, roi, aff, region, start, q[k].0)
    ensures q[k].1 < s[q[k].0] ==> Step(s, q[..k] + q[k + 1..], width, roi, aff, region, start, -1)
  {
    var q' := q[..k] + q[k + 1..];
    forall j | 0 <= j < |q'|
      ensures q'[j] in q
    {
      if j < k {
        assert q'[j] == q[j];
      } else {
        assert q'[j] == q[j + 1];
      }
    }
    forall c | 0 <= c < |s| && Pending(s, q, c) && (c != q[k].0 || q[k].1 < s[q[k].0])
      ensures Pending(s, q', c)
    {
      var j :| 0 <= j < |q| && q[j] == (c, s[c]);
      RemoveEntry(q, k, j);
    }
  }

  /**
   * Raising cell `e` to `v` and queueing `(e, v)` keeps every cell other
   * than `c` pending or fixed: `e` is pending now, and everyone else's
   * neighbours only gained.
   */
  lemma RaiseCell(s: seq<real>, q: seq<(int, real)>, width: int, roi: Roi, aff: (int, int) -> real, c: int, e: int, v: real)
    requires 0 < width && QueueOk(s, q) && Settled(s, q, width, roi, aff, c)
    requires 0 <= e < |s| && s[e] < v
    ensures QueueOk(s[e := v], q + [(e, v)])
    ensures Settled(s[e := v], q + [(e, v)], width, roi, aff, c)
  {
    var s', q' := s[e := v], q + [(e, v)];
    forall x | 0 <= x < |s| && x != c
      ensures Pending(s', q', x) || Fixed(s', width, roi, aff, x)
    {
      if x == e {
        assert q'[|q|] == (x, s'[x]);
      } else if Pending(s, q, x) {
        var j :| 0 <= j < |q| && q[j] == (x, s[x]);
        assert q'[j] == (x, s'[x]);
      } else {
        assert Fixed(s, width, roi, aff, x);
      }
    }
  }

  /**
   * One neighbour step of `run`: when `e` gains from `c`, raising `e` and
   * queueing it keeps the invariant and lowers the potential.
   */
  lemma RaiseKeeps(s: seq<real>, q: seq<(int, real)>, width: int, height: int, roi: Roi, aff: (int, int) -> real,
                   region: set<int>, start: seq<real>, c: int, e: int)
    requires 0 < width && 0 < height && RoiInside(roi, width, height) && |s| == width * height
    requires AffinityInRange(aff) && Step(s, q, width, roi, aff, region, start, c)
    requires 0 <= c < |s| && c in region && Closed(region, width, roi)
    requires e in Neighbors(width, roi, c) && 0 <= e < |s| && MinReal(s[c], aff(c, e)) > s[e]
    ensures e != c
    ensures var f := MinReal(s[c], aff(c, e));
      Step(s[e := f], q + [(e, f)], width, roi, aff, region, start, c) &&
      Pot(s[e := f], ValuesFrom(start, aff)) < Pot(s, ValuesFrom(start, aff))
  {
    NeighborsInImage(width, height, roi, c);
    var f := MinReal(s[c], aff(c, e));
    var V := ValuesFrom(start, aff);
    RaiseCell(s, q, width, roi, aff, c, e, f);
    assert f in V by {
      if f != s[c] {
        assert aff(c, e) in (set c, e | 0 <= c < |start| && 0 <= e < |start| :: aff(c, e));
      }
    }
    PotDecreases(s, V, e, f);
  }

  /** Once every neighbour of `c` is served, `c` is fixed and the invariant holds for all cells again. */
  lemma CellDone(s: seq<real>, q: seq<(int, real)>, width: int, roi: Roi, aff: (int, int) -> real,
                 region: set<int>, start: seq<real>, c: int)
    requires 0 < width && Step(s, q, width, roi, aff, region, start, c)
    requires 0 <= c < |s| && Fixed(s, width, roi, aff, c)
    ensures Step(s, q, width, roi, aff, region, start, -1)
  {
  }

  /** The first `j` neighbours in `ns` gain nothing more from `c`. */
  ghost predicate Served(s: seq<real>, aff: (int, int) -> real, c: int, ns: seq<int>, j: int)
    requires 0 <= c < |s| && 0 <= j <= |ns|
  {
    forall jj :: 0 <= jj < j && 0 <= ns[jj] < |s| ==> s[ns[jj]] >= MinReal(s[c], aff(c, ns[jj]))
  }

  /** Serving neighbour `j` (raising it or finding it high enough) extends the served prefix. */
  lemma ServeNext(s: seq<real>, s': seq<real>, aff: (int, int) -> real, c: int, ns: seq<int>, j: int)
    requires 0 <= c < |s| && 0 <= j < |ns| && |s'| == |s| && s'[c] == s[c]
    requires Served(s, aff, c, ns, j)
    requires forall i :: 0 <= i < |s| ==> s[i] <= s'[i]
    requires 0 <= ns[j] < |s| && s'[ns[j]] >= MinReal(s[c], aff(c, ns[j]))
    ensures Served(s', aff, c, ns, j + 1)
  {
  }

  /** With every neighbour served, `c` is fixed. */
  lemma ServedIsFixed(s: seq<real>, width: int, roi: Roi, aff: (int, int) -> real, c: int)
    requires 0 < width && 0 <= c < |s|
    requires Served(s, aff, c, Neighbors(width, roi, c), |Neighbors(width, roi, c)|)
    ensures Fixed(s, width, roi, aff, c)
  {
    var ns := Neighbors(width, roi, c);
    forall e | e in ns && 0 <= e < |s|
      ensures s[e] >= MinReal(s[c], aff(c, e))
    {
      var jj :| 0 <= jj < |ns| && ns[jj] == e;
    }
  }

  /** With the queue drained, no cell is pending, so every cell is fixed. */
  lemma DrainedIsFixpoint(s: seq<real>, width: int, roi: Roi, aff: (int, int) -> real, c: int)
    requires 0 < width && Propagating(s, [], width, roi, aff) && 0 <= c < |s|
    ensures Fixed(s, width, roi, aff, c)
  {
  }

  // ---------------------------------------------------------------- termination

  /** The values of `V` above `v`. */
  function Above(v: real, V: set<real>): set<real>
  {
    set u | u in V && u > v
  }

  /** How far the values can still rise within `V`, summed over the cells. */
  function Pot(s: seq<real>, V: set<real>): nat
  {
    if s == [] then 0 else Pot(s[..|s| - 1], V) + |Above(s[|s| - 1], V)|
  }

  lemma {:induction false} SubsetCard<T>(a: set<T>, b: set<T>)
    requires a <= b
    ensures |a| <= |b|
  {
    if a != {} {
      var x :| x in a;
      SubsetCard(a - {x}, b - {x});
    }
  }

  /** Raising one cell to a higher value of `V` lowers the potential. */
  lemma {:induction false} PotDecreases(s: seq<real>, V: set<real>, i: int, v: real)
    requires 0 <= i < |s| && s[i] < v && v in V
    ensures Pot(s[i := v], V) < Pot(s, V)
  {
    var n := |s| - 1;
    var s' := s[i := v];
    assert s'[..n] == if i == n then s[..n] else s[..n][i := v];
    if i == n {
      SubsetCard(Above(v, V), Above(s[i], V) - {v});
    } else {
      PotDecreases(s[..n], V, i, v);
    }
  }

  // ---------------------------------------------------------------- the object

  class FuzzyConnectedness {
    const width: int
    const height: int
    const roi: Roi
    const seeds: seq<Seed>
    /** The connectivity scene, one value per cell, row-major. */
    const conScene: array<real>
    /** The priority queue of (cell, value) entries; `poll` takes an entry of greatest value. */
    var queue: seq<(int, real)>

    ghost predicate Valid()
    {
      0 < width && 0 < height && conScene.Length == width * height && RoiInside(roi, width, height) &&
      forall k :: 0 <= k < |seeds| ==> 0 <= SeedIndex(width, seeds[k]) < width * height
    }

    predicate IsSeed(i: int)
    {
      exists k :: 0 <= k < |seeds| && SeedIndex(width, seeds[k]) == i
    }

    /** The constructor with `initializeSeeds`: seeds at 1 and queued, all other cells 0. */
    constructor(width: int, height: int, roi: Roi, seeds: seq<Seed>)
      requires 0 < width && 0 < height && RoiInside(roi, width, height)
      requires forall k :: 0 <= k < |seeds| ==> 0 <= SeedIndex(width, seeds[k]) < width * height
      ensures this.width == width && this.height == height && this.roi == roi && this.seeds == seeds
      ensures Valid() && fresh(conScene)
      ensures forall i :: 0 <= i < conScene.Length ==> conScene[i] == (if IsSeed(i) then 1.0 else 0.0)
      ensures queue == SeedEntries(width, seeds)
    {
      this.width := width;
      this.height := height;
      this.roi := roi;
      this.seeds := seeds;
      conScene := new real[width * height](_ => 0.0);
      queue := [];
      new;
      InitializeSeeds();
    }

    /** `initializeSeeds`: each seed's cell set to 1 and queued at 1, in seed order. */
    method InitializeSeeds()
      requires Valid()
      modifies this, conScene
      ensures queue == old(queue) + SeedEntries(width, seeds)
      ensures forall i :: 0 <= i < conScene.Length ==> conScene[i] == (if IsSeed(i) then 1.0 else old(conScene[i]))
    {
      var k := 0;
      while k < |seeds|
        invariant 0 <= k <= |seeds|
        invariant queue == old(queue) + SeedEntries(width, seeds)[..k]
        invariant forall i :: 0 <= i < conScene.Length ==>
          conScene[i] == (if exists j :: 0 <= j < k && SeedIndex(width, seeds[j]) == i then 1.0 else old(conScene[i]))
      {
        var index := SeedIndex(width, seeds[k]);
        conScene[index] := 1.0;
        queue := queue + [(index, 1.0)];
        assert SeedEntries(width, seeds)[..k + 1] == SeedEntries(width, seeds)[..k] + [(index, 1.0)];
        k := k + 1;
      }
      assert SeedEntries(width, seeds)[..k] == SeedEntries(width, seeds);
    }

    /** `queue.poll()`: remove and return an entry of greatest value. */
    method Poll() returns (entry: (int, real), k: int)
      requires queue != []
      modifies this
      ensures 0 <= k < |old(queue)| && entry == old(queue)[k]
      ensures forall j :: 0 <= j < |old(queue)| ==> old(queue)[j].1 <= entry.1
      ensures queue == old(queue)[..k] + old(queue)[k + 1..]
    {
      k := 0;
      var i := 1;
      while i < |queue|
        invariant 1 <= i <= |queue| && 0 <= k < i
        invariant forall j :: 0 <= j < i ==> queue[j].1 <= queue[k].1
      {
        if queue[i].1 > queue[k].1 {
          k := i;
        }
        i := i + 1;
      }
      entry := queue[k];
      queue := queue[..k] + queue[k + 1..];
    }

    /**
     * `run` (after the affinity statistics are fitted): drain the queue,
     * skipping stale entries and relaxing the neighbours of current ones.
     * Values only rise, stay in [0, 1] and are start values or affinities;
     * at the end no cell can improve any neighbour (the fixpoint), and the
     * cells outside a region that holds the queued cells and is closed under
     * neighbour steps stay 0.
     */
    method Run(affinity: (int, int) -> real, ghost region: set<int>) returns (result: array<real>)
      requires Valid() && AffinityInRange(affinity)
      requires Propagating(conScene[..], queue, width, roi, affinity)
      requires Confined(conScene[..], queue, region) && Closed(region, width, roi)
      modifies this, conScene
      ensures result == conScene && queue == []
      ensures Bounded(conScene[..])
      ensures forall c :: 0 <= c < conScene.Length ==> Fixed(conScene[..], width, roi, affinity, c)
      ensures forall i :: 0 <= i < conScene.Length ==>
        old(conScene[i]) <= conScene[i] && conScene[i] in ValuesFrom(old(conScene[..]), affinity)
      ensures Confined(conScene[..], queue, region)
    {
      ghost var start := conScene[..];
      while queue != []
        invariant Step(conScene[..], queue, width, roi, affinity, region, start, -1)
        decreases Pot(conScene[..], ValuesFrom(start, affinity)), |queue|
      {
        ghost var q0 := queue;
        var entry, k := Poll();
        PollKeeps(conScene[..], q0, width, roi, affinity, region, start, k);
        var c, value := entry.0, entry.1;
        if conScene[c] > value {
          continue;
        }
        ProcessCell(c, affinity, region, start);
      }
      forall c | 0 <= c < conScene.Length
        ensures Fixed(conScene[..], width, roi, affinity, c)
      {
        DrainedIsFixpoint(conScene[..], width, roi, affinity, c);
      }
      result := conScene;
    }

    /**
     * The inner loop of `run` for a current entry of cell `c`: each neighbour
     * `e` takes `min(conScene[c], affinity(c, e))` when that is more than it
     * has, and is then queued with it.
     */
    method ProcessCell(c: int, affinity: (int, int) -> real, ghost region: set<int>, ghost start: seq<real>)
      requires Valid() && AffinityInRange(affinity) && 0 <= c < conScene.Length && c in region
      requires Closed(region, width, roi)
      requires Step(conScene[..], queue, width, roi, affinity, region, start, c)
      modifies this, conScene
      ensures Step(conScene[..], queue, width, roi, affinity, region, start, -1)
      ensures (conScene[..] == old(conScene[..]) && queue == old(queue)) ||
        Pot(conScene[..], ValuesFrom(start, affinity)) < Pot(old(conScene[..]), ValuesFrom(start, affinity))
    {
      var ns := Neighbors(width, roi, c);
      NeighborsInImage(width, height, roi, c);
      assert forall jj :: 0 <= jj < |ns| ==> 0 <= ns[jj] < conScene.Length && ns[jj] != c by {
        forall jj | 0 <= jj < |ns| ensures 0 <= ns[jj] < conScene.Length && ns[jj] != c {
          assert ns[jj] in ns;
        }
      }
      var j := 0;
      while j < |ns|
        invariant 0 <= j <= |ns|
        invariant conScene[c] == old(conScene[c])
        invariant Step(conScene[..], queue, width, roi, affinity, region, start, c)
        invariant Served(conScene[..], affinity, c, ns, j)
        invariant (conScene[..] == old(conScene[..]) && queue == old(queue)) ||
          Pot(conScene[..], ValuesFrom(start, affinity)) < Pot(old(conScene[..]), ValuesFrom(start, affinity))
      {
        var e := ns[j];
        ghost var s0 := conScene[..];
        var fMin := MinReal(conScene[c], affinity(c, e));
        if fMin > conScene[e] {
          RaiseKeeps(conScene[..], queue, width, height, roi, affinity, region, start, c, e);
          conScene[e] := fMin;
          queue := queue + [(e, fMin)];
          assert conScene[..] == s0[e := fMin];
        }
        ServeNext(s0, conScene[..], affinity, c, ns, j);
        j := j + 1;
      }
      ServedIsFixed(conScene[..], width, roi, affinity, c);
      CellDone(conScene[..], queue, width, roi, affinity, region, start, c);
    }
  }
}
