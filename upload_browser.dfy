/**
 * The upload home screen's image browser: a list of gallery URIs and the
 * one shown, stepped back and forth by the arrow buttons.
 */
module UploadBrowser {
  import opened Wrappers

  type Uri = string

  /** `list.indexOf(x)`: the first position holding `x`, or −1. */
  function IndexOf(list: seq<Uri>, x: Uri): (i: int)
    ensures -1 <= i < |list|
    ensures i == -1 <==> x !in list
    ensures 0 <= i ==> list[i] == x && forall j :: 0 <= j < i ==> list[j] != x
  {
    if list == [] then -1
    else if list[0] == x then 0
    else
      var i := IndexOf(list[1..], x);
      if i == -1 then -1 else i + 1
  }

  /** No URI appears twice. */
  predicate Distinct(list: seq<Uri>)
  {
    forall i, j :: 0 <= i < j < |list| ==> list[i] != list[j]
  }

  /** In a list without repeats, the first position of the URI at `i` is `i`. */
  lemma IndexOfDistinct(list: seq<Uri>, i: int)
    requires Distinct(list) && 0 <= i < |list|
    ensures IndexOf(list, list[i]) == i
  {
  }

  /** `getPreviousImageUri`: null for null; otherwise the URI before the first occurrence, if that is past position 0. */
  function PreviousImageUri(list: seq<Uri>, current: Option<Uri>): (r: Option<Uri>)
  {
    if current.None? then None
    else
      var i := IndexOf(list, current.value);
      if i > 0 then Some(list[i - 1]) else None
  }

  /** `getNextImageUri`: null for null; otherwise the URI after the first occurrence (the first URI for one not listed), if there is one. */
  function NextImageUri(list: seq<Uri>, current: Option<Uri>): (r: Option<Uri>)
  {
    if current.None? then None
    else
      var i := IndexOf(list, current.value);
      if i < |list| - 1 then Some(list[i + 1]) else None
  }

  /** The cases of the two lookups, for a URI that is listed and for one that is not. */
  lemma NeighbourCases(list: seq<Uri>, u: Uri)
    ensures PreviousImageUri(list, None) == None && NextImageUri(list, None) == None
    ensures u !in list ==> PreviousImageUri(list, Some(u)) == None
    ensures u !in list ==> NextImageUri(list, Some(u)) == if list == [] then None else Some(list[0])
    ensures u in list ==> var i := IndexOf(list, u);
      (PreviousImageUri(list, Some(u)).Some? <==> i > 0) &&
      (NextImageUri(list, Some(u)).Some? <==> i < |list| - 1)
  {
  }

  /** In a list without repeats, next undoes previous and previous undoes next. */
  lemma NeighboursInverse(list: seq<Uri>, u: Uri)
    requires Distinct(list)
    ensures PreviousImageUri(list, Some(u)).Some? ==>
      NextImageUri(list, PreviousImageUri(list, Some(u))) == Some(u)
    ensures NextImageUri(list, Some(u)).Some? && u in list ==>
      PreviousImageUri(list, NextImageUri(list, Some(u))) == Some(u)
  {
    var i := IndexOf(list, u);
    if 0 < i {
      IndexOfDistinct(list, i - 1);
    }
    if 0 <= i < |list| - 1 {
      IndexOfDistinct(list, i + 1);
    }
  }

  class HomeScreenUpload {
    var imageUris: seq<Uri>
    var currentImageUri: Option<Uri>

    /** `onCreate`: the URI passed in, if any, and the gallery's URIs. */
    constructor(passed: Option<Uri>, gallery: seq<Uri>)
      ensures currentImageUri == passed && imageUris == gallery
    {
      currentImageUri := passed;
      imageUris := gallery;
    }

    /** The previous arrow: move to the previous URI when there is one, else stay. */
    method ShowPrevious()
      modifies this
      ensures var p := PreviousImageUri(old(imageUris), old(currentImageUri));
        currentImageUri == if p.Some? then p else old(currentImageUri)
      ensures imageUris == old(imageUris)
    {
      var prevUri := PreviousImageUri(imageUris, currentImageUri);
      if prevUri.Some? {
        currentImageUri := prevUri;
      }
    }

    /** The next arrow: move to the next URI when there is one, else stay. */
    method ShowNext()
      modifies this
      ensures var n := NextImageUri(old(imageUris), old(currentImageUri));
        currentImageUri == if n.Some? then n else old(currentImageUri)
      ensures imageUris == old(imageUris)
    {
      var nextUri := NextImageUri(imageUris, currentImageUri);
      if nextUri.Some? {
        currentImageUri := nextUri;
      }
    }
  }
}
