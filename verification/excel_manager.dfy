/**
 * The catalog workbook of excel_manager.py as a frame value: `load`'s
 * normalisation as a pure transform of the sheet it read, `validate_row`,
 * and `mark_posted` without writing the workbook back. Reading and writing
 * the file are left to the caller; date parsing is the parameter `parseDate`.
 */
module ExcelManager {
  import opened Wrappers
  import opened Text
  import opened Table
  import Utils

  /** `REQUIRED_COLUMNS`: created empty when the sheet lacks them. */
  const RequiredColumns: seq<string> := [
    "Title", "YouTubeURL", "ReleaseDate",
    "Artist", "Language", "Mods", "BPM", "Key", "Hashtags", "CopyOverride",
    "Posted", "LastPostedAt", "Notes"
  ]

  /** The columns `load`, `validate_row` and `mark_posted` name. */
  const UrlColumn: string := "YouTubeURL"
  const DateColumn: string := "ReleaseDate"
  const PostedColumn: string := "Posted"
  const LastPostedColumn: string := "LastPostedAt"

  /** The alternative header of the release date column. */
  const DateAlias: string := "ReleaseDate (YYYY-MM-DD)"

  /** The optional text columns, filled with `""` and rendered as text. */
  const TextColumns: seq<string> := ["Artist", "Language", "Mods", "BPM", "Key", "Hashtags", "CopyOverride", "Notes"]

  /** The columns `load` rewrites; every other column keeps its cells. */
  predicate IsNormalised(c: string) {
    c == UrlColumn || c in TextColumns || c == DateColumn || c == PostedColumn
  }

  /** A sheet: its column headers in order, and its rows. */
  datatype Frame = Frame(columns: seq<string>, rows: seq<Row>)

  /** A data frame proper: distinct headers, and every row holds exactly those columns. */
  ghost predicate WellFormed(f: Frame) {
    && Utils.Distinct(f.columns)
    && forall i, c :: 0 <= i < |f.rows| ==> (c in f.rows[i] <==> c in f.columns)
  }

  /** `df.loc[i, c]` as pandas reads it: a column the frame lacks is empty. */
  function Cell(f: Frame, i: int, c: string): Option<Value>
    requires 0 <= i < |f.rows|
  {
    if c in f.columns then Get(f.rows[i], c) else None
  }

  /** Where the release date of row `i` comes from: `ReleaseDate`, or else the alias column. */
  function DateSource(f: Frame, i: int): Option<Value>
    requires 0 <= i < |f.rows|
  {
    if DateColumn in f.columns then Cell(f, i, DateColumn) else Cell(f, i, DateAlias)
  }

  // ---------------------------------------------------------------------------
  // load: columns
  // ---------------------------------------------------------------------------

  /** Copy the alias column into `ReleaseDate` when only the alias is present. */
  function WithDateAlias(f: Frame): (r: Frame)
    ensures |r.rows| == |f.rows|
    ensures DateColumn !in f.columns && DateAlias in f.columns ==> r.columns == f.columns + [DateColumn]
    ensures !(DateColumn !in f.columns && DateAlias in f.columns) ==> r.columns == f.columns
    ensures forall i :: 0 <= i < |f.rows| ==> Cell(r, i, DateColumn) == DateSource(f, i)
    ensures forall i, c :: 0 <= i < |f.rows| && c != DateColumn ==> Cell(r, i, c) == Cell(f, i, c)
  {
    if DateColumn !in f.columns && DateAlias in f.columns then
      Frame(f.columns + [DateColumn],
            seq(|f.rows|, i requires 0 <= i < |f.rows| => f.rows[i][DateColumn := Get(f.rows[i], DateAlias)]))
    else f
  }

  /** Append, in order, every column of `cols` the frame lacks, empty in every row. */
  function AddColumns(f: Frame, cols: seq<string>): (r: Frame)
    ensures |r.rows| == |f.rows|
    ensures |f.columns| <= |r.columns| && r.columns[..|f.columns|] == f.columns
    ensures forall c :: c in cols ==> c in r.columns
    ensures forall c :: c in r.columns ==> c in f.columns || c in cols
    ensures forall i, c :: 0 <= i < |f.rows| ==> Cell(r, i, c) == Cell(f, i, c)
    ensures Utils.Distinct(f.columns) ==> Utils.Distinct(r.columns)
    decreases |cols|
  {
    if cols == [] then f
    else if cols[0] in f.columns then AddColumns(f, cols[1..])
    else
      var g := Frame(f.columns + [cols[0]],
                     seq(|f.rows|, i requires 0 <= i < |f.rows| => f.rows[i][cols[0] := None]));
      assert forall i, c :: 0 <= i < |f.rows| ==> Cell(g, i, c) == Cell(f, i, c);
      var r := AddColumns(g, cols[1..]);
      assert r.columns[..|f.columns|] == r.columns[..|g.columns|][..|f.columns|];
      assert r.columns[|f.columns|] == cols[0];
      r
  }

  // ---------------------------------------------------------------------------
  // load: cells
  // ---------------------------------------------------------------------------

  /** `fillna("").astype(str)`: an empty cell becomes `""`, any other its text. */
  function Filled(c: Option<Value>): string {
    match c
    case None => ""
    case Some(v) => ToText(v)
  }

  /**
   * `pd.to_datetime(cell, errors="coerce")`: an instant stays, an empty cell
   * stays empty, and text is parsed by `parseDate` (`None` being `NaT`).
   */
  function ToDate(c: Option<Value>, parseDate: string -> Option<int>): (r: Option<Value>)
    ensures r.None? || r.value.Stamp?
    ensures c.Some? && c.value.Stamp? ==> r == c
    ensures c.None? ==> r.None?
  {
    match c
    case None => None
    case Some(Stamp(t)) => Some(Stamp(t))
    case Some(v) =>
      match parseDate(ToText(v))
      case None => None
      case Some(t) => Some(Stamp(t))
  }

  /**
   * `fillna(False).astype(bool)` as written: Python truthiness, so any
   * non-empty text — `"False"` included — reads as posted.
   */
  function PostedAsWritten(c: Option<Value>): (r: Value)
    ensures r.Flag?
    ensures r.b <==> Truthy(c)
  {
    Flag(Truthy(c))
  }

  /** The texts that mean "not posted" once stripped and lower-cased. */
  const NotPostedWords: seq<string> := ["", "false", "0"]

  /** Text that reads as "not posted": empty, `false` or `0`, ignoring case and surrounding space. */
  predicate ReadsAsNo(s: string) {
    Lower(Strip(s)) in NotPostedWords
  }

  /**
   * The posted flag as the loader means it ("if they came as text or empty"):
   * text is read as a boolean, so `"False"` and `"0"` are not posted; other
   * cells keep their truthiness.
   */
  function PostedFlag(c: Option<Value>): (r: Value)
    ensures r.Flag?
    ensures !(c.Some? && c.value.Str?) ==> r == PostedAsWritten(c)
    ensures c.Some? && c.value.Str? ==> (r.b <==> !ReadsAsNo(c.value.s))
    ensures r.b ==> PostedAsWritten(c).b
  {
    match c
    case Some(Str(s)) =>
      assert s == "" ==> Lower(Strip(s)) == "";
      Flag(!ReadsAsNo(s))
    case _ => PostedAsWritten(c)
  }

  /**
   * How `load` reads the posted column: as the code is written (truthiness),
   * or as its comment intends (text read as a boolean).
   */
  datatype PostedReading = AsWritten | Intended

  function ReadPosted(reading: PostedReading, c: Option<Value>): Value {
    match reading
    case AsWritten => PostedAsWritten(c)
    case Intended => PostedFlag(c)
  }

  /** One cell after `load`, by column, reading the posted column by `reading`. */
  function NormalCell(col: string, c: Option<Value>, parseDate: string -> Option<int>, reading: PostedReading): (r: Option<Value>)
    ensures col == UrlColumn ==> r == Some(Str(Strip(Filled(c))))
    ensures col in TextColumns ==> r == Some(Str(Filled(c)))
    ensures col == DateColumn ==> r == ToDate(c, parseDate)
    ensures col == PostedColumn && reading == AsWritten ==> r == Some(Flag(Truthy(c)))
    ensures col == PostedColumn && reading == Intended ==> r == Some(PostedFlag(c))
    ensures !IsNormalised(col) ==> r == c
  {
    if col == UrlColumn then Some(Str(Strip(Filled(c))))
    else if col in TextColumns then Some(Str(Filled(c)))
    else if col == DateColumn then ToDate(c, parseDate)
    else if col == PostedColumn then Some(ReadPosted(reading, c))
    else c
  }

  /** Normalising a cell a second time changes nothing. */
  lemma NormalCellIdempotent(col: string, c: Option<Value>, parseDate: string -> Option<int>, reading: PostedReading)
    ensures NormalCell(col, NormalCell(col, c, parseDate, reading), parseDate, reading) == NormalCell(col, c, parseDate, reading)
  {
    if col == UrlColumn {
      StripIdempotent(Filled(c));
    } else if col == PostedColumn {
      assert ReadPosted(reading, Some(ReadPosted(reading, c))) == ReadPosted(reading, c);
    }
  }

  /** A row restricted to the frame's columns, each cell normalised. */
  function NormalRow(columns: seq<string>, row: Row, parseDate: string -> Option<int>, reading: PostedReading): (r: Row)
    ensures forall c :: c in r <==> c in columns
    ensures forall c :: c in columns ==> r[c] == NormalCell(c, Get(row, c), parseDate, reading)
  {
    map c | c in columns :: NormalCell(c, Get(row, c), parseDate, reading)
  }

  function NormalRows(columns: seq<string>, rows: seq<Row>, parseDate: string -> Option<int>, reading: PostedReading): (r: seq<Row>)
    ensures |r| == |rows|
    ensures forall i :: 0 <= i < |rows| ==> r[i] == NormalRow(columns, rows[i], parseDate, reading)
  {
    seq(|rows|, i requires 0 <= i < |rows| => NormalRow(columns, rows[i], parseDate, reading))
  }

  /** The cell `load` starts from: the release date may come from the alias column. */
  function SourceCell(f: Frame, i: int, c: string): Option<Value>
    requires 0 <= i < |f.rows|
  {
    if c == DateColumn then DateSource(f, i) else Cell(f, i, c)
  }

  /** Every column `load` rewrites is one it creates when missing. */
  lemma NormalisedAreRequired(c: string)
    requires IsNormalised(c)
    ensures c in RequiredColumns
  {
    if c in TextColumns {
      var k :| 0 <= k < |TextColumns| && TextColumns[k] == c;
      assert RequiredColumns[k + 3] == TextColumns[k] || (k == 7 && RequiredColumns[12] == c);
    }
  }

  /**
   * `load` after reading the sheet: the date alias, then the missing columns
   * in order, then the cleaning of the URL, text, date and posted columns.
   * Every cell of the result is its source cell normalised by its column.
   */
  function Normalise(f: Frame, parseDate: string -> Option<int>, reading: PostedReading): (r: Frame)
    ensures |r.rows| == |f.rows|
    ensures |f.columns| <= |r.columns| && r.columns[..|f.columns|] == f.columns
    ensures forall c :: c in RequiredColumns ==> c in r.columns
    ensures forall c :: c in r.columns ==> c in f.columns || c in RequiredColumns
    ensures forall i, c :: 0 <= i < |f.rows| ==> Cell(r, i, c) == NormalCell(c, SourceCell(f, i, c), parseDate, reading)
    ensures forall i, c :: 0 <= i < |f.rows| ==> (c in r.rows[i] <==> c in r.columns)
    ensures Utils.Distinct(f.columns) ==> WellFormed(r)
  {
    var w := WithDateAlias(f);
    var g := AddColumns(w, RequiredColumns);
    var r := Frame(g.columns, NormalRows(g.columns, g.rows, parseDate, reading));
    LoadedCells(f, parseDate, reading, w, g, r);
    LoadedColumns(f, w, g);
    r
  }

  lemma LoadedCells(f: Frame, parseDate: string -> Option<int>, reading: PostedReading, w: Frame, g: Frame, r: Frame)
    requires w == WithDateAlias(f) && g == AddColumns(w, RequiredColumns)
    requires r == Frame(g.columns, NormalRows(g.columns, g.rows, parseDate, reading))
    ensures forall i, c :: 0 <= i < |f.rows| ==> Cell(r, i, c) == NormalCell(c, SourceCell(f, i, c), parseDate, reading)
  {
    forall i, c | 0 <= i < |f.rows|
      ensures Cell(r, i, c) == NormalCell(c, SourceCell(f, i, c), parseDate, reading)
    {
      if c in g.columns {
        assert Cell(r, i, c) == NormalCell(c, Get(g.rows[i], c), parseDate, reading);
        assert Cell(g, i, c) == Cell(w, i, c);
      } else {
        if IsNormalised(c) {
          NormalisedAreRequired(c);
          assert false;
        }
        assert c !in w.columns;
      }
    }
  }

  lemma LoadedColumns(f: Frame, w: Frame, g: Frame)
    requires w == WithDateAlias(f) && g == AddColumns(w, RequiredColumns)
    ensures |f.columns| <= |g.columns| && g.columns[..|f.columns|] == f.columns
    ensures forall c :: c in g.columns ==> c in f.columns || c in RequiredColumns
    ensures Utils.Distinct(f.columns) ==> Utils.Distinct(g.columns)
  {
    assert g.columns[..|w.columns|] == w.columns;
    assert w.columns[..|f.columns|] == f.columns;
    assert g.columns[..|f.columns|] == w.columns[..|f.columns|];
    DateColumnRequired();
    if Utils.Distinct(f.columns) && w.columns != f.columns {
      DistinctAppend(f.columns, DateColumn);
    }
  }

  lemma DateColumnRequired()
    ensures DateColumn in RequiredColumns
  {
    assert RequiredColumns[2] == DateColumn;
  }

  /** Appending a new name keeps the names distinct. */
  lemma DistinctAppend(xs: seq<string>, x: string)
    requires Utils.Distinct(xs) && x !in xs
    ensures Utils.Distinct(xs + [x])
  {
    var ys := xs + [x];
    forall i, j | 0 <= i < j < |ys| ensures ys[i] != ys[j] {
      if j == |xs| {
        assert ys[i] == xs[i];
      } else {
        assert ys[i] == xs[i] && ys[j] == xs[j];
      }
    }
  }

  /**
   * The URL, release date and posted columns of a loaded sheet; as written,
   * the posted flag is the truthiness of the `Posted` cell.
   */
  lemma LoadedColumnsRead(f: Frame, parseDate: string -> Option<int>, reading: PostedReading, i: int)
    requires 0 <= i < |f.rows|
    ensures var r := Normalise(f, parseDate, reading);
            && Cell(r, i, UrlColumn) == Some(Str(Strip(Filled(Cell(f, i, UrlColumn)))))
            && Cell(r, i, DateColumn) == ToDate(DateSource(f, i), parseDate)
            && (reading == AsWritten ==> Cell(r, i, PostedColumn) == Some(Flag(Truthy(Cell(f, i, PostedColumn)))))
            && (reading == Intended ==> Cell(r, i, PostedColumn) == Some(PostedFlag(Cell(f, i, PostedColumn))))
  {
    var r := Normalise(f, parseDate, reading);
    assert Cell(r, i, UrlColumn) == NormalCell(UrlColumn, SourceCell(f, i, UrlColumn), parseDate, reading);
    assert Cell(r, i, DateColumn) == NormalCell(DateColumn, SourceCell(f, i, DateColumn), parseDate, reading);
    assert Cell(r, i, PostedColumn) == NormalCell(PostedColumn, SourceCell(f, i, PostedColumn), parseDate, reading);
  }

  /** The text columns of a loaded sheet are filled in; the columns `load` does not clean keep their cells. */
  lemma LoadedOtherColumns(f: Frame, parseDate: string -> Option<int>, reading: PostedReading, i: int)
    requires 0 <= i < |f.rows|
    ensures var r := Normalise(f, parseDate, reading);
            && (forall c :: c in TextColumns ==> Cell(r, i, c) == Some(Str(Filled(Cell(f, i, c)))))
            && (forall c :: !IsNormalised(c) ==> Cell(r, i, c) == Cell(f, i, c))
  {
    var r := Normalise(f, parseDate, reading);
    forall c | c in TextColumns ensures Cell(r, i, c) == Some(Str(Filled(Cell(f, i, c)))) {
      assert Cell(r, i, c) == NormalCell(c, SourceCell(f, i, c), parseDate, reading);
    }
    forall c | !IsNormalised(c) ensures Cell(r, i, c) == Cell(f, i, c) {
      assert Cell(r, i, c) == NormalCell(c, SourceCell(f, i, c), parseDate, reading);
    }
  }

  /** Normalising a row a second time changes nothing. */
  lemma NormalRowIdempotent(columns: seq<string>, row: Row, parseDate: string -> Option<int>, reading: PostedReading)
    ensures NormalRow(columns, NormalRow(columns, row, parseDate, reading), parseDate, reading) == NormalRow(columns, row, parseDate, reading)
  {
    var once := NormalRow(columns, row, parseDate, reading);
    var twice := NormalRow(columns, once, parseDate, reading);
    forall c | c in columns ensures twice[c] == once[c] {
      assert Get(once, c) == once[c];
      NormalCellIdempotent(c, Get(row, c), parseDate, reading);
    }
  }

  /** Normalising rows a second time changes nothing. */
  lemma NormalRowsIdempotent(columns: seq<string>, rows: seq<Row>, parseDate: string -> Option<int>, reading: PostedReading)
    ensures NormalRows(columns, NormalRows(columns, rows, parseDate, reading), parseDate, reading) == NormalRows(columns, rows, parseDate, reading)
  {
    var once := NormalRows(columns, rows, parseDate, reading);
    var twice := NormalRows(columns, once, parseDate, reading);
    forall i | 0 <= i < |rows| ensures twice[i] == once[i] {
      NormalRowIdempotent(columns, rows[i], parseDate, reading);
    }
  }

  /** A sheet that has every required column only has its cells normalised. */
  lemma NormaliseComplete(f: Frame, parseDate: string -> Option<int>, reading: PostedReading)
    requires forall c :: c in RequiredColumns ==> c in f.columns
    ensures Normalise(f, parseDate, reading) == Frame(f.columns, NormalRows(f.columns, f.rows, parseDate, reading))
  {
    DateColumnRequired();
    assert WithDateAlias(f) == f;
    AddColumnsPresent(f, RequiredColumns);
  }

  /** Loading an already loaded sheet gives it back unchanged, under either reading of the posted column. */
  lemma NormaliseIdempotent(f: Frame, parseDate: string -> Option<int>, reading: PostedReading)
    ensures Normalise(Normalise(f, parseDate, reading), parseDate, reading) == Normalise(f, parseDate, reading)
  {
    var g := AddColumns(WithDateAlias(f), RequiredColumns);
    var r := Normalise(f, parseDate, reading);
    assert r == Frame(g.columns, NormalRows(g.columns, g.rows, parseDate, reading));
    NormaliseComplete(r, parseDate, reading);
    NormalRowsIdempotent(g.columns, g.rows, parseDate, reading);
  }

  /** Adding columns that are all there already changes nothing. */
  lemma {:induction false} AddColumnsPresent(f: Frame, cols: seq<string>)
    requires forall c :: c in cols ==> c in f.columns
    ensures AddColumns(f, cols) == f
    decreases |cols|
  {
    if cols != [] {
      AddColumnsPresent(f, cols[1..]);
    }
  }

  // ---------------------------------------------------------------------------
  // validate_row
  // ---------------------------------------------------------------------------

  /**
   * `validate_row`: a usable YouTube URL and a release date. A missing column
   * raises `KeyError`; a URL cell that is neither text nor falsy raises when
   * it is stripped; an empty URL cell short-circuits to `False`.
   */
  function ValidateRow(row: Row): (r: Result<bool, string>)
    ensures r == Success(true) <==>
              && UrlColumn in row && row[UrlColumn].Some? && row[UrlColumn].value.Str?
              && Utils.IsValidYoutube(row[UrlColumn].value.s)
              && DateColumn in row && row[DateColumn].Some?
    ensures UrlColumn !in row ==> r.Failure?
    ensures UrlColumn in row && row[UrlColumn].Some? && !row[UrlColumn].value.Str? ==>
              (r.Failure? <==> Truthy(row[UrlColumn]))
    ensures UrlColumn in row && row[UrlColumn].Some? && row[UrlColumn].value.Str? ==>
              (r.Failure? <==> Utils.IsValidYoutube(row[UrlColumn].value.s) && DateColumn !in row)
  {
    if UrlColumn !in row then Failure("KeyError: YouTubeURL")
    else
      match row[UrlColumn]
      case None => Success(false)
      case Some(Str(url)) =>
        if !Utils.IsValidYoutube(url) then Success(false)
        else if DateColumn !in row then Failure("KeyError: ReleaseDate")
        else Success(row[DateColumn].Some?)
      case Some(v) =>
        if Truthy(Some(v)) then Failure("AttributeError: strip") else Success(false)
  }

  /** Every row of a loaded sheet validates without raising: a valid URL and a parsed date. */
  lemma LoadedRowsValidate(f: Frame, parseDate: string -> Option<int>, reading: PostedReading, i: int)
    requires 0 <= i < |f.rows|
    ensures var r := Normalise(f, parseDate, reading);
            ValidateRow(r.rows[i]) ==
              Success(Utils.IsValidYoutube(Strip(Filled(Cell(f, i, UrlColumn))))
                      && ToDate(DateSource(f, i), parseDate).Some?)
  {
    var r := Normalise(f, parseDate, reading);
    LoadedColumnsRead(f, parseDate, reading, i);
    assert UrlColumn in r.columns && DateColumn in r.columns;
    assert UrlColumn in r.rows[i] && DateColumn in r.rows[i];
  }

  // ---------------------------------------------------------------------------
  // mark_posted
  // ---------------------------------------------------------------------------

  /** Set the posted flag and instant in a row. */
  function Stamped(row: Row, when: int): Row {
    row[PostedColumn := Some(Flag(true))][LastPostedColumn := Some(Stamp(when))]
  }

  /**
   * `mark_posted` before `save`: fails unless a sheet is loaded; sets
   * `Posted` and `LastPostedAt` of the row at `rowIdx`, adding either column
   * if absent; an index past the rows appends a new row (pandas enlargement).
   */
  function MarkPosted(df: Option<Frame>, rowIdx: int, when: int): (r: Result<Frame, string>)
    ensures r.Failure? <==> df.None?
    ensures r.Success? ==>
              var f := df.value;
              var inRange := 0 <= rowIdx < |f.rows|;
              var at := if inRange then rowIdx else |f.rows|;
              && |r.value.rows| == (if inRange then |f.rows| else |f.rows| + 1)
              && |f.columns| <= |r.value.columns| && r.value.columns[..|f.columns|] == f.columns
              && Cell(r.value, at, PostedColumn) == Some(Flag(true))
              && Cell(r.value, at, LastPostedColumn) == Some(Stamp(when))
              && (forall c :: c != PostedColumn && c != LastPostedColumn ==>
                    Cell(r.value, at, c) == (if inRange then Cell(f, at, c) else None))
              && (forall i, c :: 0 <= i < |f.rows| && i != at ==> Cell(r.value, i, c) == Cell(f, i, c))
  {
    match df
    case None => Failure("load() must come first")
    case Some(f) =>
      var g := AddColumns(f, [PostedColumn, LastPostedColumn]);
      if 0 <= rowIdx < |g.rows| then
        Success(g.(rows := g.rows[rowIdx := Stamped(g.rows[rowIdx], when)]))
      else
        var blank: Row := map c | c in g.columns :: None;
        Success(g.(rows := g.rows + [Stamped(blank, when)]))
  }

  /** Marking the same row twice at the same instant is marking it once. */
  lemma MarkPostedIdempotent(f: Frame, rowIdx: int, when: int)
    requires 0 <= rowIdx < |f.rows|
    ensures var once := MarkPosted(Some(f), rowIdx, when).value;
            MarkPosted(Some(once), rowIdx, when) == Success(once)
  {
    var g := AddColumns(f, [PostedColumn, LastPostedColumn]);
    var once := MarkPosted(Some(f), rowIdx, when).value;
    AddColumnsPresent(once, [PostedColumn, LastPostedColumn]);
    assert Stamped(Stamped(g.rows[rowIdx], when), when) == Stamped(g.rows[rowIdx], when);
    assert once.rows[rowIdx := Stamped(once.rows[rowIdx], when)] == once.rows;
  }

  // ---------------------------------------------------------------------------
  // The posted flag through a save and a reload
  // ---------------------------------------------------------------------------

  /** The loader as written reads back a saved `False` (text, as `dtype=str` gives it) as posted. */
  lemma PostedAsWrittenMisreadsFalse()
    ensures PostedAsWritten(Some(Str(ToText(Flag(false))))) == Flag(true)
  {
  }

  /**
   * The whole load as written marks a row posted when its `Posted` cell holds
   * the saved text `False`; the intended load keeps it unposted.
   */
  lemma LoadMisreadsSavedFalse(f: Frame, parseDate: string -> Option<int>, i: int)
    requires 0 <= i < |f.rows|
    requires Cell(f, i, PostedColumn) == Some(Str(ToText(Flag(false))))
    ensures Cell(Normalise(f, parseDate, AsWritten), i, PostedColumn) == Some(Flag(true))
    ensures Cell(Normalise(f, parseDate, Intended), i, PostedColumn) == Some(Flag(false))
  {
    LoadedColumnsRead(f, parseDate, AsWritten, i);
    LoadedColumnsRead(f, parseDate, Intended, i);
    PostedFlagRoundTrip(false);
  }

  /** The intended reading gives back the flag that was saved. */
  lemma PostedFlagRoundTrip(b: bool)
    ensures PostedFlag(Some(Str(ToText(Flag(b))))) == Flag(b)
  {
    var s := ToText(Flag(b));
    forall k | 0 <= k < |s| ensures !IsSpace(s[k]) {
    }
    StripByKeepsClean(s, IsSpace);
    if b {
      assert Lower(s) == "true";
    } else {
      assert Lower(s) == "false";
    }
  }
}
