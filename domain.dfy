/** Value types shared by the app and the network layer. */
module Domain {
  /**
   * A region of interest on one slice, in the field order of the domain
   * `ROI` data class: xMin, xMax, yMin, yMax, then the detector score and
   * the slice it belongs to (both defaulted by the constructor).
   */
  datatype Roi = Roi(xMin: int, xMax: int, yMin: int, yMax: int, score: real, sliceIndex: int)

  /** `ROI(xMin, xMax, yMin, yMax)` with the constructor's defaults: score 0, slice 0. */
  function RoiWithDefaults(xMin: int, xMax: int, yMin: int, yMax: int): Roi
  {
    Roi(xMin, xMax, yMin, yMax, 0.0, 0)
  }

  /** A seed point `(x, y)` in pixel coordinates. */
  type Seed = (int, int)

  /** A decoded slice image: its size and its ARGB pixels, row by row. */
  datatype Bitmap = Bitmap(width: int, height: int, pixels: seq<int>)

  /** `MRISequence`: the slice images in order and the metadata read with them. */
  datatype MriSequence = MriSequence(images: seq<Bitmap>, metadata: map<string, string>)
}

/**
 * Association lists and maps built by successive puts, as Kotlin's
 * `toMap()`, `map + (k to v)` and `LinkedHashMap` do: a later pair for the
 * same key replaces the earlier value, and a `LinkedHashMap` keeps its keys
 * in first-insertion order.
 */
module Assoc {
  /** The map after putting every pair in order. */
  function MapOf<K, V>(pairs: seq<(K, V)>): map<K, V>
  {
    if pairs == [] then map[]
    else MapOf(pairs[..|pairs| - 1])[pairs[|pairs| - 1].0 := pairs[|pairs| - 1].1]
  }

  lemma {:induction false} MapOfKeys<K, V>(pairs: seq<(K, V)>)
    ensures MapOf(pairs).Keys == set i | 0 <= i < |pairs| :: pairs[i].0
  {
    if pairs != [] {
      MapOfKeys(pairs[..|pairs| - 1]);
      var n := |pairs| - 1;
      assert (set i | 0 <= i < |pairs| :: pairs[i].0)
          == (set i | 0 <= i < n :: pairs[..n][i].0) + {pairs[n].0};
    }
  }

  /** The value of a key is the one of its last pair. */
  lemma {:induction false} MapOfLastWins<K, V>(pairs: seq<(K, V)>, i: int)
    requires 0 <= i < |pairs|
    requires forall j :: i < j < |pairs| ==> pairs[j].0 != pairs[i].0
    ensures pairs[i].0 in MapOf(pairs) && MapOf(pairs)[pairs[i].0] == pairs[i].1
  {
    if i < |pairs| - 1 {
      MapOfLastWins(pairs[..|pairs| - 1], i);
    }
  }

  predicate DistinctKeys<K(==), V>(pairs: seq<(K, V)>)
  {
    forall i, j :: 0 <= i < j < |pairs| ==> pairs[i].0 != pairs[j].0
  }

  /** `LinkedHashMap.put`: replace the value in place, or append a new entry. */
  function Put<K(==), V>(entries: seq<(K, V)>, key: K, value: V): (r: seq<(K, V)>)
    ensures (forall i :: 0 <= i < |entries| ==> entries[i].0 != key) ==> r == entries + [(key, value)]
  {
    if entries == [] then [(key, value)]
    else if entries[0].0 == key then [(key, value)] + entries[1..]
    else [entries[0]] + Put(entries[1..], key, value)
  }

  lemma {:induction false} PutFrom<K, V>(entries: seq<(K, V)>, key: K, value: V)
    ensures forall e :: e in Put(entries, key, value) ==> e in entries || e == (key, value)
  {
    if entries != [] && entries[0].0 != key {
      PutFrom(entries[1..], key, value);
    }
  }

  /** The entries, in order, of the `LinkedHashMap` that `toMap()` builds from `pairs`. */
  function LinkedEntries<K(==), V>(pairs: seq<(K, V)>): seq<(K, V)>
  {
    if pairs == [] then [] else Put(LinkedEntries(pairs[..|pairs| - 1]), pairs[|pairs| - 1].0, pairs[|pairs| - 1].1)
  }

  /** Every entry of the map is one of the pairs it was built from. */
  lemma {:induction false} LinkedEntriesFrom<K, V>(pairs: seq<(K, V)>)
    ensures forall e :: e in LinkedEntries(pairs) ==> e in pairs
  {
    if pairs != [] {
      var n := |pairs| - 1;
      LinkedEntriesFrom(pairs[..n]);
      PutFrom(LinkedEntries(pairs[..n]), pairs[n].0, pairs[n].1);
    }
  }

  /** With no repeated key, `toMap()` keeps every pair, in order. */
  lemma {:induction false} LinkedEntriesDistinct<K, V>(pairs: seq<(K, V)>)
    requires DistinctKeys(pairs)
    ensures LinkedEntries(pairs) == pairs
  {
    if pairs != [] {
      var n := |pairs| - 1;
      LinkedEntriesDistinct(pairs[..n]);
      assert pairs == pairs[..n] + [pairs[n]];
    }
  }
}
