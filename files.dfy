/**
 * What both file managers share: the DICOM name filter, the size and parse
 * test of a cached copy, and the bound on the slice cursor.
 */
module DicomFiles {
  import opened Wrappers
  import opened KotlinNum
  import opened Text

  /** A copy of a document in the cache directory: its name, its length in bytes and whether it parses as DICOM. */
  datatype CachedFile = CachedFile(name: string, length: int, parses: bool)

  /** A document of the chosen folder: its id, its display name, and the content a copy gets (None: the copy throws). */
  datatype DocumentEntry = DocumentEntry(documentId: string, name: string, content: Option<(int, bool)>)

  /** A document URI built from the folder's tree URI and a document id. */
  datatype DocumentUri = DocumentUri(tree: string, documentId: string)

  /** The cache copy `createTempFile` makes of an entry, named after it; None where it throws. */
  function CopyOf(e: DocumentEntry): Option<CachedFile>
  {
    if e.content.Some? then Some(CachedFile(e.name, e.content.value.0, e.content.value.1)) else None
  }

  /** `isDicomFile`: the name ends in ".dcm" or ".dicom", ignoring case. */
  predicate IsDicomName(name: string)
  {
    EndsWithIgnoreCase(name, ".dcm") || EndsWithIgnoreCase(name, ".dicom")
  }

  /** The 100 MiB limit of `isValidDicomFile`. */
  const MaxDicomLength := 100 * 1024 * 1024

  /** `isValidDicomFile` on a file that exists: not empty, at most 100 MiB, and its attributes can be read. */
  predicate IsValidDicomFile(f: CachedFile)
  {
    f.length != 0 && f.length <= MaxDicomLength && f.parses
  }

  /** The cursor points at a file of the list, or at 0 when the list is empty. */
  predicate CursorOk(index: int, size: int)
  {
    0 <= index <= Max(0, size - 1)
  }

  function NameOf(f: CachedFile): string { f.name }

  /** The name ends in ".dcm", each letter in either case. */
  predicate DcmTail(name: string)
  {
    4 <= |name| &&
    var t := name[|name| - 4..];
    t[0] == '.' && t[1] in "dD" && t[2] in "cC" && t[3] in "mM"
  }

  /**
   * The name ends in ".dicom", each letter in either case; ignoring case
   * also matches the dotless 'ı' and the dotted 'İ' to 'i'.
   */
  predicate DicomTail(name: string)
  {
    6 <= |name| &&
    var t := name[|name| - 6..];
    t[0] == '.' && t[1] in "dD" && t[2] in "iIıİ" && t[3] in "cC" && t[4] in "oO" && t[5] in "mM"
  }

  /** `isDicomFile` accepts exactly the names whose last characters spell one of the two extensions, in any case. */
  lemma DicomNameLetters(name: string)
    ensures IsDicomName(name) <==> DcmTail(name) || DicomTail(name)
  {
    DcmEnding(name);
    DicomEnding(name);
  }

  /** Any text followed by ".dcm" or ".dicom", in any case, is accepted. */
  lemma DicomSuffixAccepted(p: string, x: string)
    requires EqualsIgnoreCase(x, ".dcm") || EqualsIgnoreCase(x, ".dicom")
    ensures IsDicomName(p + x)
  {
    var name := p + x;
    assert forall i :: 0 <= i < |x| ==> name[|name| - |x| + i] == x[i];
  }

  /** The characters that equal '.', 'd', 'c', 'i', 'o' and 'm' when case is ignored. */
  lemma IgnoreCaseLetters(c: char)
    ensures (CharEqualsIgnoreCase(c, '.') <==> c == '.') && (CharEqualsIgnoreCase(c, 'd') <==> c in "dD")
    ensures (CharEqualsIgnoreCase(c, 'c') <==> c in "cC") && (CharEqualsIgnoreCase(c, 'm') <==> c in "mM")
    ensures (CharEqualsIgnoreCase(c, 'i') <==> c in "iIıİ") && (CharEqualsIgnoreCase(c, 'o') <==> c in "oO")
  {
  }

  lemma DcmEnding(name: string)
    ensures EndsWithIgnoreCase(name, ".dcm") <==> DcmTail(name)
  {
    if 4 <= |name| {
      var t, sfx := name[|name| - 4..], ".dcm";
      IgnoreCaseLetters(t[0]);
      IgnoreCaseLetters(t[1]);
      IgnoreCaseLetters(t[2]);
      IgnoreCaseLetters(t[3]);
      assert sfx[0] == '.' && sfx[1] == 'd' && sfx[2] == 'c' && sfx[3] == 'm';
      if DcmTail(name) {
        forall i | 0 <= i < 4
          ensures CharEqualsIgnoreCase(name[|name| - 4 + i], sfx[i])
        {
          assert name[|name| - 4 + i] == t[i];
          assert i == 0 || i == 1 || i == 2 || i == 3;
        }
      }
      if EndsWithIgnoreCase(name, sfx) {
        assert forall i :: 0 <= i < 4 ==> CharEqualsIgnoreCase(t[i], sfx[i]);
      }
    }
  }

  lemma DicomEnding(name: string)
    ensures EndsWithIgnoreCase(name, ".dicom") <==> DicomTail(name)
  {
    if 6 <= |name| {
      var t, sfx := name[|name| - 6..], ".dicom";
      IgnoreCaseLetters(t[0]);
      IgnoreCaseLetters(t[1]);
      IgnoreCaseLetters(t[2]);
      IgnoreCaseLetters(t[3]);
      IgnoreCaseLetters(t[4]);
      IgnoreCaseLetters(t[5]);
      assert sfx[0] == '.' && sfx[1] == 'd' && sfx[2] == 'i' && sfx[3] == 'c' && sfx[4] == 'o' && sfx[5] == 'm';
      if DicomTail(name) {
        forall i | 0 <= i < 6
          ensures CharEqualsIgnoreCase(name[|name| - 6 + i], sfx[i])
        {
          assert name[|name| - 6 + i] == t[i];
          assert i == 0 || i == 1 || i == 2 || i == 3 || i == 4 || i == 5;
        }
      }
      if EndsWithIgnoreCase(name, sfx) {
        assert forall i :: 0 <= i < 6 ==> CharEqualsIgnoreCase(t[i], sfx[i]);
      }
    }
  }
}

/**
 * The `FileManager` singleton of the Utils package: the DICOM files of the
 * chosen folder sorted by name, the document URIs they came from, and a
 * cursor over the files.
 */
module UtilsFiles {
  import opened Wrappers
  import opened Text
  import opened Sorting
  import opened DicomFiles

  /** The entries of a listing whose name ends in ".dcm", ignoring case, in listing order. */
  function DcmEntries(entries: seq<DocumentEntry>): seq<DocumentEntry>
  {
    if entries == [] then []
    else
      var rest := DcmEntries(entries[..|entries| - 1]);
      var e := entries[|entries| - 1];
      if EndsWithIgnoreCase(e.name, ".dcm") then rest + [e] else rest
  }

  /** The filter keeps listed ".dcm" entries only, and every one of them. */
  lemma {:induction false} DcmEntriesMembers(entries: seq<DocumentEntry>)
    ensures |DcmEntries(entries)| <= |entries|
    ensures forall i :: 0 <= i < |DcmEntries(entries)| ==>
      DcmEntries(entries)[i] in entries && EndsWithIgnoreCase(DcmEntries(entries)[i].name, ".dcm")
    ensures forall e :: e in entries && EndsWithIgnoreCase(e.name, ".dcm") ==> e in DcmEntries(entries)
  {
    if entries != [] {
      var init := entries[..|entries| - 1];
      DcmEntriesMembers(init);
      assert entries == init + [entries[|entries| - 1]];
    }
  }

  /** Listing one more entry adds it to the filtered list when it is a ".dcm" entry, and the result stays a prefix of the whole filter. */
  lemma {:induction false} DcmStep(entries: seq<DocumentEntry>, j: nat)
    requires j < |entries|
    ensures DcmEntries(entries[..j + 1]) ==
      DcmEntries(entries[..j]) + (if EndsWithIgnoreCase(entries[j].name, ".dcm") then [entries[j]] else [])
    ensures DcmEntries(entries[..j + 1]) <= DcmEntries(entries)
  {
    assert entries[..j + 1][..j] == entries[..j];
    DcmPrefix(entries, j + 1);
  }

  lemma {:induction false} DcmPrefix(entries: seq<DocumentEntry>, j: nat)
    requires j <= |entries|
    ensures DcmEntries(entries[..j]) <= DcmEntries(entries)
    decreases |entries|
  {
    if j < |entries| {
      var init := entries[..|entries| - 1];
      DcmPrefix(init, j);
      assert init[..j] == entries[..j];
    } else {
      assert entries[..j] == entries;
    }
  }

  /** The number of entries copied before the first copy that throws (all of them when none does). */
  function CopiedBeforeFailure(es: seq<DocumentEntry>): (k: nat)
    ensures k <= |es|
    ensures forall i :: 0 <= i < k ==> es[i].content.Some?
    ensures k < |es| ==> es[k].content.None?
  {
    if es == [] then 0
    else if es[0].content.None? then 0
    else 1 + CopiedBeforeFailure(es[1..])
  }

  function Copies(es: seq<DocumentEntry>): (r: seq<CachedFile>)
    requires forall i :: 0 <= i < |es| ==> es[i].content.Some?
    ensures |r| == |es| && forall i :: 0 <= i < |es| ==> Some(r[i]) == CopyOf(es[i])
  {
    seq(|es|, i requires 0 <= i < |es| => CopyOf(es[i]).value)
  }

  function Uris(tree: string, es: seq<DocumentEntry>): (r: seq<DocumentUri>)
    ensures |r| == |es| && forall i :: 0 <= i < |es| ==> r[i] == DocumentUri(tree, es[i].documentId)
  {
    seq(|es|, i requires 0 <= i < |es| => DocumentUri(tree, es[i].documentId))
  }

  /** The files `reloadFiles` gets back: the valid copies of the URIs whose copy does not throw, in URI order. */
  function Reloaded(uris: seq<DocumentUri>, fetch: DocumentUri -> Option<CachedFile>): (r: seq<CachedFile>)
    ensures |r| <= |uris|
    ensures forall i :: 0 <= i < |r| ==> IsValidDicomFile(r[i]) && exists u :: u in uris && fetch(u) == Some(r[i])
  {
    if uris == [] then []
    else
      var rest := Reloaded(uris[..|uris| - 1], fetch);
      var f := fetch(uris[|uris| - 1]);
      if f.Some? && IsValidDicomFile(f.value) then rest + [f.value] else rest
  }

  /** The first `n` ".dcm" entries are copied, in order, and their URIs appended to `oldUris`. */
  ghost predicate CopiedPrefix(files: seq<CachedFile>, uris: seq<DocumentUri>, oldUris: seq<DocumentUri>, tree: string,
                               es: seq<DocumentEntry>, n: nat)
  {
    n <= CopiedBeforeFailure(es) && files == Copies(es[..n]) && uris == oldUris + Uris(tree, es[..n])
  }

  lemma NextDcm(es: seq<DocumentEntry>, n: nat, e: DocumentEntry)
    requires n <= |es| && es[..n] + [e] <= es
    ensures n < |es| && es[n] == e && es[..n + 1] == es[..n] + [e]
  {
    assert (es[..n] + [e])[n] == e;
  }

  /** The filtered prefix grows by the next entry exactly when it is a ".dcm" entry, which is then the next of `es`. */
  lemma DcmAdvance(entries: seq<DocumentEntry>, es: seq<DocumentEntry>, j: nat, n: nat)
    requires es == DcmEntries(entries) && j < |entries| && n <= |es| && DcmEntries(entries[..j]) == es[..n]
    ensures EndsWithIgnoreCase(entries[j].name, ".dcm") ==>
      n < |es| && es[n] == entries[j] && DcmEntries(entries[..j + 1]) == es[..n + 1]
    ensures !EndsWithIgnoreCase(entries[j].name, ".dcm") ==> DcmEntries(entries[..j + 1]) == es[..n]
  {
    DcmStep(entries, j);
    if EndsWithIgnoreCase(entries[j].name, ".dcm") {
      NextDcm(es, n, entries[j]);
    }
  }

  lemma CopyNext(files: seq<CachedFile>, uris: seq<DocumentUri>, oldUris: seq<DocumentUri>, tree: string,
                 es: seq<DocumentEntry>, n: nat)
    requires CopiedPrefix(files, uris, oldUris, tree, es, n)
    requires n < |es| && es[n].content.Some?
    ensures CopiedPrefix(files + [CopyOf(es[n]).value], uris + [DocumentUri(tree, es[n].documentId)], oldUris, tree, es, n + 1)
  {
    var k := CopiedBeforeFailure(es);
    assert n < k;
    assert es[..n + 1] == es[..n] + [es[n]];
    assert Copies(es[..n + 1]) == Copies(es[..n]) + [CopyOf(es[n]).value];
    assert Uris(tree, es[..n + 1]) == Uris(tree, es[..n]) + [DocumentUri(tree, es[n].documentId)];
  }

  lemma CopyFails(files: seq<CachedFile>, uris: seq<DocumentUri>, oldUris: seq<DocumentUri>, tree: string,
                  es: seq<DocumentEntry>, n: nat)
    requires CopiedPrefix(files, uris, oldUris, tree, es, n)
    requires n < |es| && es[n].content.None?
    ensures n == CopiedBeforeFailure(es) < |es|
    ensures files == Copies(es[..n]) && uris == oldUris + Uris(tree, es[..n])
  {
  }

  lemma CopiedAll(files: seq<CachedFile>, uris: seq<DocumentUri>, oldUris: seq<DocumentUri>, tree: string,
                  es: seq<DocumentEntry>, n: nat)
    requires CopiedPrefix(files, uris, oldUris, tree, es, n) && n == |es|
    ensures CopiedBeforeFailure(es) == |es|
    ensures files == Copies(es) && uris == oldUris + Uris(tree, es) && (|files| > 0 <==> |es| > 0)
  {
    assert es[..n] == es;
  }

  /** The ".dcm" entries of a listing, none when the query gave no cursor. */
  function ListedDcm(listing: Option<seq<DocumentEntry>>): seq<DocumentEntry>
  {
    if listing.Some? then DcmEntries(listing.value) else []
  }

  /**
   * What a load leaves: the URIs of the entries copied before the first copy
   * that throws appended to `oldUris`; when every copy succeeds, all copies
   * sorted by name and `found` telling whether there was any; otherwise the
   * copies made, unsorted, and `found` false.
   */
  predicate LoadOutcome(tree: string, listing: Option<seq<DocumentEntry>>, oldUris: seq<DocumentUri>,
                        files: seq<CachedFile>, uris: seq<DocumentUri>, found: bool)
  {
    var es := ListedDcm(listing);
    var k := CopiedBeforeFailure(es);
    uris == oldUris + Uris(tree, es[..k]) &&
    (k == |es| ==> files == SortByString(Copies(es), NameOf) && found == (|es| > 0)) &&
    (k < |es| ==> files == Copies(es[..k]) && !found)
  }

  /** A load stopped by the copy of entry `n` throwing has the outcome `LoadOutcome` describes. */
  lemma FailedLoad(tree: string, listing: Option<seq<DocumentEntry>>, oldUris: seq<DocumentUri>,
                   files: seq<CachedFile>, uris: seq<DocumentUri>, n: nat)
    requires CopiedPrefix(files, uris, oldUris, tree, ListedDcm(listing), n)
    requires n < |ListedDcm(listing)| && ListedDcm(listing)[n].content.None?
    ensures LoadOutcome(tree, listing, oldUris, files, uris, false)
  {
    CopyFails(files, uris, oldUris, tree, ListedDcm(listing), n);
  }

  /** A load whose copies all succeed, once sorted, has the outcome `LoadOutcome` describes. */
  lemma CompletedLoad(tree: string, listing: Option<seq<DocumentEntry>>, oldUris: seq<DocumentUri>,
                      files: seq<CachedFile>, uris: seq<DocumentUri>, n: nat)
    requires CopiedPrefix(files, uris, oldUris, tree, ListedDcm(listing), n) && n == |ListedDcm(listing)|
    ensures LoadOutcome(tree, listing, oldUris, SortByString(files, NameOf), uris, |files| > 0)
  {
    CopiedAll(files, uris, oldUris, tree, ListedDcm(listing), n);
  }

  class UtilsFileManager {
    var dicomFiles: seq<CachedFile>
    var dicomFilesUris: seq<DocumentUri>
    var currentIndex: int

    ghost predicate Valid()
      reads this
    {
      CursorOk(currentIndex, |dicomFiles|)
    }

    constructor()
      ensures dicomFiles == [] && dicomFilesUris == [] && currentIndex == 0 && Valid()
    {
      dicomFiles := [];
      dicomFilesUris := [];
      currentIndex := 0;
    }

    /**
     * `loadDirectory`: empty the list, reset the cursor, copy every ".dcm"
     * entry of the listing (None: the query gave no cursor) and record its
     * URI, then sort by name and report whether any file was found. A copy
     * that throws ends the load: it reports false and leaves the files
     * copied so far, unsorted. The URI list is only ever appended to.
     */
    method LoadDirectory(tree: string, listing: Option<seq<DocumentEntry>>) returns (found: bool)
      modifies this
      ensures Valid() && currentIndex == 0
      ensures LoadOutcome(tree, listing, old(dicomFilesUris), dicomFiles, dicomFilesUris, found)
    {
      dicomFiles := [];
      currentIndex := 0;
      var entries := if listing.Some? then listing.value else [];
      ghost var es := ListedDcm(listing);
      assert es == DcmEntries(entries);
      ghost var n := 0;
      assert es[..0] == [];
      var j := 0;
      while j < |entries|
        invariant 0 <= j <= |entries| && currentIndex == 0
        invariant n <= |es| && DcmEntries(entries[..j]) == es[..n]
        invariant CopiedPrefix(dicomFiles, dicomFilesUris, old(dicomFilesUris), tree, es, n)
      {
        var e := entries[j];
        DcmAdvance(entries, es, j, n);
        if EndsWithIgnoreCase(e.name, ".dcm") {
          var copy := CopyOf(e);
          if copy.None? {
            FailedLoad(tree, listing, old(dicomFilesUris), dicomFiles, dicomFilesUris, n);
            return false;
          }
          CopyNext(dicomFiles, dicomFilesUris, old(dicomFilesUris), tree, es, n);
          dicomFiles := dicomFiles + [copy.value];
          dicomFilesUris := dicomFilesUris + [DocumentUri(tree, e.documentId)];
          n := n + 1;
        }
        j := j + 1;
      }
      assert entries[..j] == entries;
      CompletedLoad(tree, listing, old(dicomFilesUris), dicomFiles, dicomFilesUris, n);
      dicomFiles := SortByString(dicomFiles, NameOf);
      found := |dicomFiles| > 0;
    }

    /** `reloadFiles`: rebuild the list from the recorded URIs, skipping copies that throw or are not valid; the cursor is kept. */
    method ReloadFiles(fetch: DocumentUri -> Option<CachedFile>)
      modifies this
      ensures dicomFiles == Reloaded(dicomFilesUris, fetch)
      ensures dicomFilesUris == old(dicomFilesUris) && currentIndex == old(currentIndex)
    {
      dicomFiles := [];
      var j := 0;
      while j < |dicomFilesUris|
        invariant 0 <= j <= |dicomFilesUris|
        invariant dicomFilesUris == old(dicomFilesUris) && currentIndex == old(currentIndex)
        invariant dicomFiles == Reloaded(dicomFilesUris[..j], fetch)
      {
        assert dicomFilesUris[..j + 1][..j] == dicomFilesUris[..j];
        var f := fetch(dicomFilesUris[j]);
        if f.Some? && IsValidDicomFile(f.value) {
          dicomFiles := dicomFiles + [f.value];
        }
        j := j + 1;
      }
      assert dicomFilesUris[..j] == dicomFilesUris;
    }

    /** `getCurrentFile`: the file under the cursor, or null when the cursor is off the list. */
    method GetCurrentFile() returns (r: Option<CachedFile>)
      ensures r.Some? <==> 0 <= currentIndex < |dicomFiles|
      ensures r.Some? ==> r.value == dicomFiles[currentIndex]
    {
      if |dicomFiles| > 0 && 0 <= currentIndex < |dicomFiles| {
        return Some(dicomFiles[currentIndex]);
      }
      return None;
    }

    /** `moveToNext`: step forward unless the cursor is on the last file; report whether it moved. */
    method MoveToNext() returns (moved: bool)
      modifies this
      ensures moved <==> old(currentIndex) < |dicomFiles| - 1
      ensures currentIndex == if moved then old(currentIndex) + 1 else old(currentIndex)
      ensures dicomFiles == old(dicomFiles) && dicomFilesUris == old(dicomFilesUris)
      ensures old(Valid()) ==> Valid()
    {
      if currentIndex < |dicomFiles| - 1 {
        currentIndex := currentIndex + 1;
        return true;
      }
      return false;
    }

    /** `moveToPrevious`: step back unless the cursor is on the first file; report whether it moved. */
    method MoveToPrevious() returns (moved: bool)
      modifies this
      ensures moved <==> old(currentIndex) > 0
      ensures currentIndex == if moved then old(currentIndex) - 1 else old(currentIndex)
      ensures dicomFiles == old(dicomFiles) && dicomFilesUris == old(dicomFilesUris)
      ensures old(Valid()) ==> Valid()
    {
      if currentIndex > 0 {
        currentIndex := currentIndex - 1;
        return true;
      }
      return false;
    }

    /** `getCurrentIndex`: the cursor counted from 1, between 1 and the number of files when there are any. */
    function GetCurrentIndex(): (r: int)
      reads this
      ensures Valid() && |dicomFiles| > 0 ==> 1 <= r <= GetTotalFiles()
      ensures r - 1 == currentIndex
    {
      currentIndex + 1
    }

    function GetTotalFiles(): (r: int)
      reads this
      ensures r == |dicomFiles|
    {
      |dicomFiles|
    }

    /** `cleanup`: forget the files and reset the cursor; the URIs stay. */
    method Cleanup()
      modifies this
      ensures dicomFiles == [] && currentIndex == 0 && dicomFilesUris == old(dicomFilesUris)
      ensures Valid()
    {
      dicomFiles := [];
      currentIndex := 0;
    }
  }

  /** After a complete load the files are the ".dcm" copies sorted by name, with nothing lost or added. */
  lemma LoadedSortedPermutation(es: seq<DocumentEntry>)
    requires CopiedBeforeFailure(es) == |es|
    ensures var files := SortByString(Copies(es), NameOf);
      multiset(files) == multiset(Copies(es)) &&
      forall i, j :: 0 <= i < j < |files| ==> StrLe(files[i].name, files[j].name)
  {
    var files := SortByString(Copies(es), NameOf);
    assert SortedBy(files, NameOf, StrLe);
  }
}

/**
 * The app package's `FileManager`: the valid DICOM files of the chosen
 * folder in listing order, and a cursor over them.
 */
module AppFiles {
  import opened Wrappers
  import opened DicomFiles

  /** The files `processDirectory` keeps: each DICOM-named entry whose copy succeeds and is valid, in listing order. */
  function Accepted(entries: seq<DocumentEntry>): (r: seq<CachedFile>)
    ensures |r| <= |entries|
  {
    if entries == [] then []
    else
      var rest := Accepted(entries[..|entries| - 1]);
      var e := entries[|entries| - 1];
      var copy := CopyOf(e);
      if IsDicomName(e.name) && copy.Some? && IsValidDicomFile(copy.value) then rest + [copy.value] else rest
  }

  /** A file is kept exactly when it is the valid copy of a DICOM-named entry. */
  lemma {:induction false} AcceptedExactly(entries: seq<DocumentEntry>, f: CachedFile)
    ensures f in Accepted(entries) <==>
      exists e :: e in entries && IsDicomName(e.name) && CopyOf(e) == Some(f) && IsValidDicomFile(f)
  {
    if entries != [] {
      var n := |entries| - 1;
      AcceptedExactly(entries[..n], f);
      assert entries == entries[..n] + [entries[n]];
      if exists e :: e in entries && IsDicomName(e.name) && CopyOf(e) == Some(f) && IsValidDicomFile(f) {
        var e :| e in entries && IsDicomName(e.name) && CopyOf(e) == Some(f) && IsValidDicomFile(f);
        if e != entries[n] {
          assert e in entries[..n];
        }
      }
    }
  }

  class AppFileManager {
    var dicomFiles: seq<CachedFile>
    var currentIndex: int

    ghost predicate Valid()
      reads this
    {
      CursorOk(currentIndex, |dicomFiles|)
    }

    constructor()
      ensures dicomFiles == [] && currentIndex == 0 && Valid()
    {
      dicomFiles := [];
      currentIndex := 0;
    }

    /**
     * `loadDirectory`: empty the list and reset the cursor, then, once the
     * folder permission is granted (`permitted`) and the query gives a
     * cursor (`listing`), keep every accepted file in listing order; a copy
     * that throws skips that one file. Reports whether any file was kept.
     */
    method LoadDirectory(permitted: bool, listing: Option<seq<DocumentEntry>>) returns (found: bool)
      modifies this
      ensures Valid() && currentIndex == 0
      ensures dicomFiles == if permitted && listing.Some? then Accepted(listing.value) else []
      ensures found <==> |dicomFiles| > 0
    {
      dicomFiles := [];
      currentIndex := 0;
      if !permitted {
        return false;
      }
      if listing.Some? {
        ProcessDirectory(listing.value);
      }
      found := |dicomFiles| > 0;
    }

    /** `processDirectory`: append the accepted files of the listing, in order. */
    method ProcessDirectory(entries: seq<DocumentEntry>)
      modifies this
      ensures dicomFiles == old(dicomFiles) + Accepted(entries) && currentIndex == old(currentIndex)
    {
      var j := 0;
      while j < |entries|
        invariant 0 <= j <= |entries| && currentIndex == old(currentIndex)
        invariant dicomFiles == old(dicomFiles) + Accepted(entries[..j])
      {
        assert entries[..j + 1][..j] == entries[..j];
        var e := entries[j];
        if IsDicomName(e.name) {
          var copy := CopyOf(e);
          if copy.Some? && IsValidDicomFile(copy.value) {
            dicomFiles := dicomFiles + [copy.value];
          }
        }
        j := j + 1;
      }
      assert entries[..j] == entries;
    }

    /** `getCurrentFile`: the file under the cursor, or null when the cursor is off the list. */
    method GetCurrentFile() returns (r: Option<CachedFile>)
      ensures r.Some? <==> 0 <= currentIndex < |dicomFiles|
      ensures r.Some? ==> r.value == dicomFiles[currentIndex]
    {
      if |dicomFiles| > 0 && 0 <= currentIndex < |dicomFiles| {
        return Some(dicomFiles[currentIndex]);
      }
      return None;
    }

    /** `moveToNext`: step forward unless the cursor is on the last file; report whether it moved. */
    method MoveToNext() returns (moved: bool)
      modifies this
      ensures moved <==> old(currentIndex) < |dicomFiles| - 1
      ensures currentIndex == if moved then old(currentIndex) + 1 else old(currentIndex)
      ensures dicomFiles == old(dicomFiles)
      ensures old(Valid()) ==> Valid()
    {
      if currentIndex < |dicomFiles| - 1 {
        currentIndex := currentIndex + 1;
        return true;
      }
      return false;
    }

    /** `moveToPrevious`: step back unless the cursor is on the first file; report whether it moved. */
    method MoveToPrevious() returns (moved: bool)
      modifies this
      ensures moved <==> old(currentIndex) > 0
      ensures currentIndex == if moved then old(currentIndex) - 1 else old(currentIndex)
      ensures dicomFiles == old(dicomFiles)
      ensures old(Valid()) ==> Valid()
    {
      if currentIndex > 0 {
        currentIndex := currentIndex - 1;
        return true;
      }
      return false;
    }

    /** `getCurrentIndex`: the cursor counted from 1, between 1 and the number of files when there are any. */
    function GetCurrentIndex(): (r: int)
      reads this
      ensures Valid() && |dicomFiles| > 0 ==> 1 <= r <= |dicomFiles|
      ensures r - 1 == currentIndex
    {
      currentIndex + 1
    }

    /** `cleanup`: forget the files and reset the cursor. */
    method Cleanup()
      modifies this
      ensures dicomFiles == [] && currentIndex == 0 && Valid()
    {
      dicomFiles := [];
      currentIndex := 0;
    }
  }
}
