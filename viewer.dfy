/** The non-graphical part of the property viewer (ui.py): which columns are
    shown, where the zip code and the street are found, the sort state the
    column headings toggle, the photo folder of a record, and which files of
    that folder are shown. Widgets, fonts and image decoding are not modelled;
    the folder listing and the image loader are parameters. */
module Viewer {
  import opened Text
  import opened Tables
  import opened Ordering

  // ---------------------------------------------------------------------------
  // File names

  /** clean_filename keeps letters, digits, spaces, '_' and '-'. */
  predicate AllowedInFilename(c: char) {
    IsAlnum(c) || c == ' ' || c == '_' || c == '-'
  }

  /** The allowed characters of the text, in order. */
  function FilenameChars(text: string): string {
    Select(AllowedInFilename, text, |text|)
  }

  /** clean_filename: the allowed characters in order, without trailing whitespace. */
  function CleanFilename(text: string): string {
    RStrip(FilenameChars(text))
  }

  /** The folder holding a record's photos. */
  function FolderName(zip: string, street: string): string {
    "Photos/" + zip + "_" + CleanFilename(street)
  }

  /** The kept characters are, in order, exactly the allowed characters of the text. */
  lemma FilenameCharsSelect(text: string)
    ensures IsSubsequence(FilenameChars(text), text)
    ensures forall i :: 0 <= i < |text| && AllowedInFilename(text[i]) ==> text[i] in FilenameChars(text)
    ensures forall i :: 0 <= i < |FilenameChars(text)| ==> AllowedInFilename(FilenameChars(text)[i])
  {
    var kept := FilenameChars(text);
    SelectIsSubsequence(AllowedInFilename, text, |text|);
    assert text[..|text|] == text;
    SelectExactly(AllowedInFilename, text, |text|);
    forall i | 0 <= i < |kept| ensures AllowedInFilename(kept[i]) {
      assert kept[i] in kept;
    }
  }

  /** The result keeps, in order, exactly the allowed characters of the text,
      less a run of trailing spaces; it holds only allowed characters and does
      not end in a space. */
  lemma CleanFilenameKeepsAllowed(text: string)
    ensures var kept := FilenameChars(text);
            var r := CleanFilename(text);
            && IsSubsequence(kept, text)
            && (forall i :: 0 <= i < |text| && AllowedInFilename(text[i]) ==> text[i] in kept)
            && |r| <= |kept|
            && r == kept[..|r|]
            && (forall i :: |r| <= i < |kept| ==> kept[i] == ' ')
            && (forall i :: 0 <= i < |r| ==> AllowedInFilename(r[i]))
            && (r == [] || r[|r| - 1] != ' ')
  {
    var kept := FilenameChars(text);
    FilenameCharsSelect(text);
    TrimEndDrops(IsSpace, kept);
    var r := CleanFilename(text);
    assert forall i :: 0 <= i < |r| ==> r[i] == kept[i];
  }

  /** Cleaning a cleaned name changes nothing. */
  lemma CleanFilenameIdempotent(text: string)
    ensures CleanFilename(CleanFilename(text)) == CleanFilename(text)
  {
    var r := CleanFilename(text);
    CleanFilenameKeepsAllowed(text);
    TrimEndDrops(IsSpace, FilenameChars(text));
    forall x | x in r ensures AllowedInFilename(x) {
      var i :| 0 <= i < |r| && r[i] == x;
    }
    SelectAll(AllowedInFilename, r, |r|);
    assert r[..|r|] == r;
  }

  /** The street part of a folder name adds no path separator, and cleaning
      the street first gives the same folder. */
  lemma FolderNameOfStreet(zip: string, street: string)
    ensures '/' !in CleanFilename(street)
    ensures FolderName(zip, CleanFilename(street)) == FolderName(zip, street)
  {
    CleanFilenameKeepsAllowed(street);
    CleanFilenameIdempotent(street);
  }

  // ---------------------------------------------------------------------------
  // Columns

  /** A column whose lower-cased name mentions a link is not displayed. */
  predicate IsLinkColumn(col: string) {
    var name := Lower(col);
    Contains(name, "url") || Contains(name, "link") || Contains(name, "http") || Contains(name, "image")
  }

  predicate Displayed(col: string) { !IsLinkColumn(col) }

  function DisplayColumns(columns: seq<string>): seq<string> {
    Select(Displayed, columns, |columns|)
  }

  /** The first column whose lower-cased name contains word, if any. */
  function FirstContaining(columns: seq<string>, word: string): Option<string> {
    if columns == [] then None
    else if Contains(Lower(columns[0]), word) then Some(columns[0])
    else FirstContaining(columns[1..], word)
  }

  /** The displayed columns are, in their original order, exactly the columns
      that are not link columns. */
  lemma DisplayColumnsSelect(columns: seq<string>)
    ensures IsSubsequence(DisplayColumns(columns), columns)
    ensures forall c :: c in DisplayColumns(columns) ==> !IsLinkColumn(c)
    ensures forall i :: 0 <= i < |columns| && !IsLinkColumn(columns[i]) ==> columns[i] in DisplayColumns(columns)
  {
    SelectIsSubsequence(Displayed, columns, |columns|);
    SelectExactly(Displayed, columns, |columns|);
    assert columns[..|columns|] == columns;
  }

  /** None exactly when no column matches; otherwise a matching column with no
      matching column before it. */
  lemma FirstContainingFinds(columns: seq<string>, word: string)
    ensures FirstContaining(columns, word).None? <==>
              forall i :: 0 <= i < |columns| ==> !Contains(Lower(columns[i]), word)
    ensures FirstContaining(columns, word).Some? ==>
              exists i :: 0 <= i < |columns| && columns[i] == FirstContaining(columns, word).value &&
                Contains(Lower(columns[i]), word) &&
                forall j :: 0 <= j < i ==> !Contains(Lower(columns[j]), word)
  {
    FirstContainingNone(columns, word);
    if FirstContaining(columns, word).Some? {
      var i := FirstContainingIndex(columns, word);
    }
  }

  lemma {:induction false} FirstContainingNone(columns: seq<string>, word: string)
    ensures FirstContaining(columns, word).None? <==>
              forall i :: 0 <= i < |columns| ==> !Contains(Lower(columns[i]), word)
  {
    if columns != [] && !Contains(Lower(columns[0]), word) {
      FirstContainingNone(columns[1..], word);
      assert forall i :: 1 <= i < |columns| ==> columns[i] == columns[1..][i - 1];
    }
  }

  /** The position of the column found. */
  lemma {:induction false} FirstContainingIndex(columns: seq<string>, word: string) returns (i: nat)
    requires FirstContaining(columns, word).Some?
    ensures i < |columns| && columns[i] == FirstContaining(columns, word).value
    ensures Contains(Lower(columns[i]), word)
    ensures forall j :: 0 <= j < i ==> !Contains(Lower(columns[j]), word)
  {
    if Contains(Lower(columns[0]), word) {
      i := 0;
    } else {
      var k := FirstContainingIndex(columns[1..], word);
      i := k + 1;
      assert forall j :: 1 <= j < i ==> columns[j] == columns[1..][j - 1];
    }
  }

  // ---------------------------------------------------------------------------
  // Sort state

  datatype SortState = SortState(column: Option<string>, descending: bool)

  /** A heading click: the current column flips direction, another column
      becomes current in ascending order. */
  function NextSortState(st: SortState, col: string): (r: SortState)
    ensures r.column == Some(col)
    ensures st.column != Some(col) ==> !r.descending
    ensures st.column == Some(col) ==> r.descending != st.descending
  {
    if st.column == Some(col) then SortState(st.column, !st.descending)
    else SortState(Some(col), false)
  }

  /** The state after k clicks on the same heading. */
  function Clicks(st: SortState, col: string, k: nat): SortState {
    if k == 0 then st else NextSortState(Clicks(st, col, k - 1), col)
  }

  /** Clicking one heading k >= 1 times makes it current; starting from another
      column the order is ascending after an odd number of clicks and
      descending after an even number, and on the current column each click flips it. */
  lemma {:induction false} RepeatedClicks(st: SortState, col: string, k: nat)
    requires k >= 1
    ensures Clicks(st, col, k).column == Some(col)
    ensures st.column != Some(col) ==> Clicks(st, col, k).descending == (k % 2 == 0)
    ensures st.column == Some(col) ==> Clicks(st, col, k).descending == (st.descending != (k % 2 == 1))
  {
    if k > 1 {
      RepeatedClicks(st, col, k - 1);
    }
  }

  /** The sort key of a record: its cell in the column. */
  function CellKey(col: string): Row -> string {
    r => GetOr(r, col, "")
  }

  /** Reordering the records keeps every record's fields. */
  lemma SortedRowsWellFormed(t: Table, key: Row -> string, descending: bool)
    requires WellFormed(t)
    ensures WellFormed(Table(t.header, SortBy(key, descending, t.rows)))
  {
    var sorted := SortBy(key, descending, t.rows);
    SortByCorrect(key, descending, t.rows);
    forall i, h | 0 <= i < |sorted| && h in t.header ensures h in sorted[i] {
      assert sorted[i] in multiset(t.rows);
      var j :| 0 <= j < |t.rows| && t.rows[j] == sorted[i];
    }
  }

  // ---------------------------------------------------------------------------
  // Gallery

  /** A file name whose lower-cased form ends in .jpg, .jpeg or .png. */
  predicate IsImageName(name: string) {
    var l := Lower(name);
    EndsWith(l, ".jpg") || EndsWith(l, ".jpeg") || EndsWith(l, ".png")
  }

  function NameKey(name: string): string { name }

  /** sorted() of the image names in a listing. */
  function ImageFiles(names: seq<string>): seq<string> {
    SortBy(NameKey, false, Select(IsImageName, names, |names|))
  }

  /** os.path.join of the folder and a plain file name. */
  function JoinPath(folder: string, name: string): string { folder + "/" + name }

  /** The paths of the first n files that load, in order. */
  function Loaded(folder: string, files: seq<string>, loads: string -> bool, n: nat): seq<string>
    requires n <= |files|
  {
    if n == 0 then []
    else
      var path := JoinPath(folder, files[n - 1]);
      Loaded(folder, files, loads, n - 1) + (if loads(path) then [path] else [])
  }

  /** What the gallery shows for a folder: nothing when it is not a directory,
      otherwise the image files that load, in name order. */
  function Shown(folder: string, listing: string -> Option<seq<string>>, loads: string -> bool): seq<string> {
    match listing(folder)
    case None => []
    case Some(names) => Loaded(folder, ImageFiles(names), loads, |ImageFiles(names)|)
  }

  /** The gallery files are the image names of the listing, each as often as
      it is listed, in ascending name order. */
  lemma ImageFilesSorted(names: seq<string>)
    ensures Ordered(NameKey, false, ImageFiles(names))
    ensures multiset(ImageFiles(names)) == multiset(Select(IsImageName, names, |names|))
    ensures forall f :: f in ImageFiles(names) <==> f in names && IsImageName(f)
  {
    var images := Select(IsImageName, names, |names|);
    SortByCorrect(NameKey, false, images);
    SelectExactly(IsImageName, names, |names|);
    forall f ensures f in ImageFiles(names) <==> f in names && IsImageName(f) {
      assert f in ImageFiles(names) <==> f in multiset(images);
      if f in names && IsImageName(f) {
        var i :| 0 <= i < |names| && names[i] == f;
      }
    }
  }

  /** Every path shown is the folder joined with one of the files, and it loaded. */
  lemma {:induction false} LoadedPaths(folder: string, files: seq<string>, loads: string -> bool, n: nat)
    requires n <= |files|
    ensures |Loaded(folder, files, loads, n)| <= n
    ensures forall p :: p in Loaded(folder, files, loads, n) ==>
              loads(p) && exists i :: 0 <= i < n && p == JoinPath(folder, files[i])
  {
    if n > 0 {
      LoadedPaths(folder, files, loads, n - 1);
    }
  }

  /** A folder that is not a directory shows nothing; otherwise every photo
      shown is an image file of the listing, joined to the folder, that loaded. */
  lemma ShownAreImages(folder: string, listing: string -> Option<seq<string>>, loads: string -> bool)
    ensures listing(folder).None? ==> Shown(folder, listing, loads) == []
    ensures listing(folder).Some? ==>
              forall p :: p in Shown(folder, listing, loads) ==>
                loads(p) && exists f :: f in listing(folder).value && IsImageName(f) && p == JoinPath(folder, f)
  {
    if listing(folder).Some? {
      var names := listing(folder).value;
      var files := ImageFiles(names);
      LoadedPaths(folder, files, loads, |files|);
      ImageFilesSorted(names);
      forall p | p in Shown(folder, listing, loads)
        ensures loads(p) && exists f :: f in names && IsImageName(f) && p == JoinPath(folder, f)
      {
        var i :| 0 <= i < |files| && p == JoinPath(folder, files[i]);
        assert files[i] in files;
      }
    }
  }

  // ---------------------------------------------------------------------------
  // The viewer

  class PropertyViewer {
    var columns: seq<string>
    var rows: seq<Row>
    var displayColumns: seq<string>
    var zipColumn: Option<string>
    var streetColumn: Option<string>
    var sortColumn: Option<string>
    var sortDescending: bool
    /** The photos currently shown, by path. */
    var imageRefs: seq<string>

    /** Every record has every column, and the column choices are those of the header. */
    ghost predicate Valid()
      reads this
    {
      && WellFormed(Table(columns, rows))
      && displayColumns == DisplayColumns(columns)
      && zipColumn == FirstContaining(columns, "zip")
      && streetColumn == FirstContaining(columns, "street")
    }

    /** Opens a file: no sort column yet, ascending, and no photos shown. */
    constructor (file: Table)
      requires WellFormed(file)
      ensures Valid()
      ensures columns == file.header && rows == file.rows
      ensures sortColumn == None && !sortDescending && imageRefs == []
    {
      columns := file.header;
      rows := file.rows;
      sortColumn := None;
      sortDescending := false;
      displayColumns, zipColumn, streetColumn := [], None, None;
      imageRefs := [];
      new;
      FilterUrlColumns();
    }

    method FilterUrlColumns()
      modifies this
      ensures displayColumns == DisplayColumns(columns)
      ensures zipColumn == FirstContaining(columns, "zip")
      ensures streetColumn == FirstContaining(columns, "street")
      ensures columns == old(columns) && rows == old(rows) && imageRefs == old(imageRefs)
      ensures sortColumn == old(sortColumn) && sortDescending == old(sortDescending)
    {
      displayColumns := DisplayColumns(columns);
      zipColumn := FirstContaining(columns, "zip");
      streetColumn := FirstContaining(columns, "street");
    }

    /** A click on a column heading: update the sort state, then sort the
        records by that column, stably, in the new direction. */
    method SortByColumn(col: string)
      requires Valid() && col in columns
      modifies this
      ensures Valid()
      ensures SortState(sortColumn, sortDescending) == NextSortState(SortState(old(sortColumn), old(sortDescending)), col)
      ensures rows == SortBy(CellKey(col), sortDescending, old(rows))
      ensures columns == old(columns) && displayColumns == old(displayColumns) && imageRefs == old(imageRefs)
      ensures zipColumn == old(zipColumn) && streetColumn == old(streetColumn)
    {
      if sortColumn == Some(col) {
        sortDescending := !sortDescending;
      } else {
        sortColumn := Some(col);
        sortDescending := false;
      }
      SortedRowsWellFormed(Table(columns, rows), CellKey(col), sortDescending);
      rows := SortBy(CellKey(col), sortDescending, rows);
    }

    /** Clears the gallery and shows the image files of the folder that load. */
    method DisplayGallery(folder: string, listing: string -> Option<seq<string>>, loads: string -> bool)
      modifies this`imageRefs
      ensures imageRefs == Shown(folder, listing, loads)
    {
      imageRefs := [];
      var names := listing(folder);
      if names.None? {
        return;
      }
      var files := ImageFiles(names.value);
      for i := 0 to |files|
        invariant imageRefs == Loaded(folder, files, loads, i)
      {
        var path := JoinPath(folder, files[i]);
        if loads(path) {
          imageRefs := imageRefs + [path];
        }
      }
    }

    /** Selecting record index shows the photos of its folder. */
    method OnSelect(index: nat, listing: string -> Option<seq<string>>, loads: string -> bool)
      requires Valid() && index < |rows| && zipColumn.Some? && streetColumn.Some?
      modifies this
      ensures Valid()
      ensures rows == old(rows) && columns == old(columns)
      ensures zipColumn == old(zipColumn) && streetColumn == old(streetColumn)
      ensures sortColumn == old(sortColumn) && sortDescending == old(sortDescending)
      ensures zipColumn.value in rows[index] && streetColumn.value in rows[index]
      ensures imageRefs == Shown(FolderName(rows[index][zipColumn.value], rows[index][streetColumn.value]), listing, loads)
    {
      FirstContainingFinds(columns, "zip");
      FirstContainingFinds(columns, "street");
      assert zipColumn.value in columns && streetColumn.value in columns;
      var zip := rows[index][zipColumn.value];
      var street := rows[index][streetColumn.value];
      DisplayGallery(FolderName(zip, street), listing, loads);
    }
  }
}
