/**
 * A developed roll's gallery (GalleryActivity.kt): which files of the roll's folder are
 * shown and in what order, how many columns the grid has for the roll's format, and the
 * geometry of the shareable contact sheet.
 */
module Gallery {
  import opened Wrappers
  import opened Prefs
  import Overlay
  import Capture
  import Adapter

  // ---------------------------------------------------------------------------
  // Grid columns (loadFilmRollAspectRatio / getSpanCount)

  /** The format name assumed for a roll with no saved format. */
  const DefaultRollRatio: string := "4:3"

  function RollRatioKey(rollId: string): string {
    Capture.RollRatioPrefix + rollId
  }

  function LoadFilmRollAspectRatio(p: SharedPrefs, rollId: string): (name: string)
    requires StringOrAbsent(p, RollRatioKey(rollId))
    ensures RollRatioKey(rollId) in p ==> p[RollRatioKey(rollId)] == StringPref(name)
    ensures RollRatioKey(rollId) !in p ==> name == DefaultRollRatio
  {
    GetString(p, RollRatioKey(rollId), Some(DefaultRollRatio)).GetOr(DefaultRollRatio)
  }

  /** Columns of the photo grid for a roll's format name and the screen orientation. */
  function SpanCount(aspectRatio: string, isLandscape: bool): (cols: nat)
    ensures 1 <= cols <= 5
  {
    match aspectRatio
    case "6x6" => if isLandscape then 5 else 3
    case "6x7" => if isLandscape then 4 else 3
    case "6x9" => if isLandscape then 3 else 2
    case "6x12" => if isLandscape then 2 else 1
    case _ => if isLandscape then 5 else 3
  }

  /** Turning the screen to landscape never reduces the number of columns. */
  lemma LandscapeNoNarrower(aspectRatio: string)
    ensures SpanCount(aspectRatio, true) >= SpanCount(aspectRatio, false)
  {
  }

  /**
   * The columns for each format the camera can record, and for a roll with no saved
   * format: "4x5" and the "4:3" default both take the table's default row.
   */
  lemma SpanCountPerFormat(ratio: Overlay.AspectRatio, isLandscape: bool)
    ensures SpanCount(ratio.DisplayName(), isLandscape) ==
      match ratio
      case Square => if isLandscape then 5 else 3
      case Standard => if isLandscape then 3 else 2
      case Wide => if isLandscape then 2 else 1
      case FourByFive => if isLandscape then 5 else 3
    ensures SpanCount(DefaultRollRatio, isLandscape) == if isLandscape then 5 else 3
  {
  }

  /**
   * Developing a roll records its format under the roll's key, and the camera's own
   * saveState that follows does not overwrite it: the gallery reads back that format.
   */
  lemma DevelopedRollFormat(p: SharedPrefs, rollId: string, ratio: Overlay.AspectRatio, s: Capture.Persisted)
    ensures var stored := Capture.Store(p[Capture.RollRatioPrefix + rollId := StringPref(ratio.DisplayName())], s);
      StringOrAbsent(stored, RollRatioKey(rollId)) &&
      LoadFilmRollAspectRatio(stored, rollId) == ratio.DisplayName()
  {
    var key := RollRatioKey(rollId);
    assert key == Capture.RollRatioPrefix + rollId;
    assert key[0] == 'r' && key[5] == '_';
    assert !Capture.IsPersistedKey(key) by {
      assert Capture.KeyRatioIndex[5] == 'I';
    }
  }

  // ---------------------------------------------------------------------------
  // Contact sheet layout (createContactSheetImage)

  const ThumbWidth: nat := 200
  const ThumbHeight: nat := 200
  const Padding: nat := 20
  const HeaderHeight: nat := 100

  function Rows(n: nat, cols: nat): nat
    requires cols >= 1
  {
    (n + cols - 1) / cols
  }

  /** `rows` is the ceiling of n / cols: enough rows for every photo, and no spare row. */
  lemma RowsIsCeiling(n: nat, cols: nat)
    requires cols >= 1
    ensures Rows(n, cols) * cols >= n
    ensures n > 0 ==> (Rows(n, cols) - 1) * cols < n
  {
    var r := Rows(n, cols);
    var m := (n + cols - 1) % cols;
    assert n + cols - 1 == r * cols + m && 0 <= m < cols;
  }

  function SheetWidth(cols: nat): nat {
    ThumbWidth * cols + Padding * (cols + 1)
  }

  function SheetHeight(rows: nat): nat {
    ThumbHeight * rows + Padding * (rows + 1) + HeaderHeight
  }

  /** Top-left corner of a photo's 200 x 200 cell on the sheet. */
  datatype Cell = Cell(left: int, top: int)

  function CellAt(index: nat, cols: nat): Cell
    requires cols >= 1
  {
    Cell(Padding + (index % cols) * (ThumbWidth + Padding),
         HeaderHeight + Padding + (index / cols) * (ThumbHeight + Padding))
  }

  lemma RowOfIndex(index: nat, n: nat, cols: nat)
    requires cols >= 1 && index < n
    ensures index / cols < Rows(n, cols)
  {
    var row, rows := index / cols, Rows(n, cols);
    RowsIsCeiling(n, cols);
    assert row * cols <= index < rows * cols;
    if rows <= row {
      MulMonotone(rows, row, cols);
    }
  }

  lemma MulMonotone(a: nat, b: nat, c: nat)
    requires a <= b
    ensures a * c <= b * c
  {
  }

  /** The 200 x 200 cell lies on the sheet, with at least the padding around it. */
  predicate InsideSheet(c: Cell, n: nat, cols: nat)
    requires cols >= 1
  {
    && c.left >= Padding && c.left + ThumbWidth + Padding <= SheetWidth(cols)
    && c.top >= HeaderHeight + Padding && c.top + ThumbHeight + Padding <= SheetHeight(Rows(n, cols))
  }

  /** Every photo's cell lies on the sheet, below the header, inside the padding. */
  lemma CellInsideSheet(index: nat, n: nat, cols: nat)
    requires cols >= 1 && index < n
    ensures InsideSheet(CellAt(index, cols), n, cols)
  {
    var row, col := index / cols, index % cols;
    assert index == row * cols + col && col < cols;
    var rows := Rows(n, cols);
    RowOfIndex(index, n, cols);
    assert col * (ThumbWidth + Padding) <= (cols - 1) * (ThumbWidth + Padding);
    assert row * (ThumbHeight + Padding) <= (rows - 1) * (ThumbHeight + Padding);
  }

  /** Two 200 x 200 cells with at least the padding between them. */
  predicate Apart(a: Cell, b: Cell) {
    || a.left + ThumbWidth + Padding <= b.left
    || b.left + ThumbWidth + Padding <= a.left
    || a.top + ThumbHeight + Padding <= b.top
    || b.top + ThumbHeight + Padding <= a.top
  }

  /** Distinct photos get cells that do not overlap, with the padding in between. */
  lemma CellsApart(i: nat, j: nat, cols: nat)
    requires cols >= 1 && i != j
    ensures Apart(CellAt(i, cols), CellAt(j, cols))
  {
    var ri, ci, rj, cj := i / cols, i % cols, j / cols, j % cols;
    assert i == ri * cols + ci && j == rj * cols + cj;
    if ri == rj {
      assert ci != cj;
      if ci < cj {
        assert ci * (ThumbWidth + Padding) + (ThumbWidth + Padding) <= cj * (ThumbWidth + Padding);
      } else {
        assert cj * (ThumbWidth + Padding) + (ThumbWidth + Padding) <= ci * (ThumbWidth + Padding);
      }
    } else if ri < rj {
      assert ri * (ThumbHeight + Padding) + (ThumbHeight + Padding) <= rj * (ThumbHeight + Padding);
    } else {
      assert rj * (ThumbHeight + Padding) + (ThumbHeight + Padding) <= ri * (ThumbHeight + Padding);
    }
  }

  /**
   * The `forEachIndexed` walk over the roll's photos: the cell of each photo, in order,
   * every one on the sheet and no two overlapping.
   */
  method ContactSheetCells(n: nat, cols: nat) returns (cells: seq<Cell>)
    requires cols >= 1
    ensures |cells| == n
    ensures forall i :: 0 <= i < n ==> cells[i] == CellAt(i, cols) && InsideSheet(cells[i], n, cols)
    ensures forall i, j :: 0 <= i < j < n ==> Apart(cells[i], cells[j])
  {
    cells := [];
    var index := 0;
    while index < n
      invariant 0 <= index <= n && |cells| == index
      invariant forall i :: 0 <= i < index ==> cells[i] == CellAt(i, cols) && InsideSheet(cells[i], n, cols)
      invariant forall i, j :: 0 <= i < j < index ==> Apart(cells[i], cells[j])
    {
      var row := index / cols;
      var col := index % cols;
      var cell := Cell(Padding + col * (ThumbWidth + Padding), HeaderHeight + Padding + row * (ThumbHeight + Padding));
      CellInsideSheet(index, n, cols);
      forall i | 0 <= i < index
        ensures Apart(cells[i], cell)
      {
        CellsApart(i, index, cols);
      }
      cells := cells + [cell];
      index := index + 1;
    }
  }

  // ---------------------------------------------------------------------------
  // The roll's photos (loadPhotosFromGallery)

  datatype FileEntry = FileEntry(name: string, isFile: bool)

  /** Kotlin's `File.extension`: the text after the last '.', or "" when there is none. */
  function Extension(name: string): (ext: string)
    ensures |ext| <= |name| && ext == name[|name| - |ext|..]
    ensures '.' !in ext
    ensures ext != [] ==> |ext| < |name| && name[|name| - |ext| - 1] == '.'
    ensures '.' !in name ==> ext == []
    ensures ext == [] ==> '.' !in name || name[|name| - 1] == '.'
  {
    if name == [] then []
    else if name[|name| - 1] == '.' then []
    else if '.' !in name[..|name| - 1] then []
    else Extension(name[..|name| - 1]) + [name[|name| - 1]]
  }

  function LowerAscii(c: char): char {
    if 'A' <= c <= 'Z' then (c as int - 'A' as int + 'a' as int) as char else c
  }

  /** `equals(other, ignoreCase = true)` against an all-lower-case ASCII word. */
  predicate EqualsIgnoreCase(s: string, lower: string) {
    |s| == |lower| && forall i :: 0 <= i < |s| ==> LowerAscii(s[i]) == lower[i]
  }

  predicate IsJpeg(name: string) {
    EqualsIgnoreCase(Extension(name), "jpg") || EqualsIgnoreCase(Extension(name), "jpeg")
  }

  /** Names of the regular files with a "jpg" or "jpeg" extension, in listing order. */
  function JpegFiles(entries: seq<FileEntry>): (names: seq<string>)
    ensures forall x :: x in names <==> exists e :: e in entries && e.isFile && IsJpeg(e.name) && e.name == x
  {
    if entries == [] then []
    else
      var e := entries[0];
      assert forall x :: x in entries <==> x == e || x in entries[1..];
      (if e.isFile && IsJpeg(e.name) then [e.name] else []) + JpegFiles(entries[1..])
  }

  /**
   * `a <= b` in the order of `File.compareTo`, which compares the paths as strings:
   * character by character, a proper prefix first. Files of one folder share the
   * folder's path, so their names decide.
   */
  predicate AtMost(a: string, b: string) {
    a == [] || (b != [] && (a[0] < b[0] || (a[0] == b[0] && AtMost(a[1..], b[1..]))))
  }

  lemma {:induction false} AtMostTotal(a: string, b: string)
    ensures AtMost(a, b) || AtMost(b, a)
  {
    if a != [] && b != [] && a[0] == b[0] {
      AtMostTotal(a[1..], b[1..]);
    }
  }

  lemma {:induction false} AtMostTransitive(a: string, b: string, c: string)
    requires AtMost(a, b) && AtMost(b, c)
    ensures AtMost(a, c)
  {
    if a != [] && b != [] && c != [] && a[0] == b[0] && b[0] == c[0] {
      AtMostTransitive(a[1..], b[1..], c[1..]);
    }
  }

  ghost predicate Descending(s: seq<string>) {
    forall i, j :: 0 <= i < j < |s| ==> AtMost(s[j], s[i])
  }

  function Insert(x: string, s: seq<string>): (r: seq<string>)
    ensures multiset(r) == multiset(s) + multiset{x}
  {
    if s == [] then [x]
    else if AtMost(s[0], x) then [x] + s
    else
      assert s == [s[0]] + s[1..];
      [s[0]] + Insert(x, s[1..])
  }

  lemma {:induction false} InsertDescending(x: string, s: seq<string>)
    requires Descending(s)
    ensures Descending(Insert(x, s))
  {
    if s == [] {
    } else if AtMost(s[0], x) {
      forall j | 1 <= j < |s| + 1
        ensures AtMost(([x] + s)[j], x)
      {
        if j > 1 {
          AtMostTransitive(s[j - 1], s[0], x);
        }
      }
    } else {
      AtMostTotal(s[0], x);
      InsertDescending(x, s[1..]);
      var r := Insert(x, s[1..]);
      forall j | 0 <= j < |r|
        ensures AtMost(r[j], s[0])
      {
        assert r[j] in multiset(r);
        assert r[j] == x || r[j] in multiset(s[1..]);
      }
    }
  }

  /** Kotlin's `sortedDescending()`, as an insertion sort. */
  function SortDescending(s: seq<string>): (r: seq<string>)
    ensures multiset(r) == multiset(s)
  {
    if s == [] then []
    else
      assert s == [s[0]] + s[1..];
      Insert(s[0], SortDescending(s[1..]))
  }

  lemma {:induction false} SortDescendingSorts(s: seq<string>)
    ensures Descending(SortDescending(s))
  {
    if s != [] {
      SortDescendingSorts(s[1..]);
      InsertDescending(s[0], SortDescending(s[1..]));
    }
  }

  /**
   * The roll's photo list: for a missing or unlistable folder nothing; otherwise
   * exactly its regular "jpg"/"jpeg" files (any letter case), in descending name order.
   */
  function LoadPhotosFromGallery(folder: Option<seq<FileEntry>>): (photos: seq<string>)
    ensures folder.None? ==> photos == []
    ensures folder.Some? ==> multiset(photos) == multiset(JpegFiles(folder.value))
  {
    match folder
    case None => []
    case Some(entries) => SortDescending(JpegFiles(entries))
  }

  lemma LoadedPhotosSorted(folder: Option<seq<FileEntry>>)
    ensures Descending(LoadPhotosFromGallery(folder))
    ensures forall x :: x in LoadPhotosFromGallery(folder) ==> IsJpeg(x)
  {
    if folder.Some? {
      var photos := LoadPhotosFromGallery(folder);
      SortDescendingSorts(JpegFiles(folder.value));
      forall x | x in photos
        ensures IsJpeg(x)
      {
        assert x in multiset(photos);
        assert x in JpegFiles(folder.value);
        var e :| e in folder.value && e.isFile && IsJpeg(e.name) && e.name == x;
      }
    }
  }

  /** `setupRecyclerView`: the grid gets the roll's column count and one cell per photo. */
  method SetupRecyclerView(photoFiles: seq<string>, rollRatio: string, isLandscape: bool)
    returns (adapter: Adapter.PhotoAdapter, spanCount: nat)
    ensures fresh(adapter) && adapter.photoFiles == photoFiles && adapter.ItemCount() == |photoFiles|
    ensures spanCount == SpanCount(rollRatio, isLandscape) && spanCount >= 1
  {
    spanCount := SpanCount(rollRatio, isLandscape);
    adapter := new Adapter.PhotoAdapter(photoFiles);
  }
}
