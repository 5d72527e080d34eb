/**
 `main_schedule_parse` without its file handling: the uploaded workbook is
 given as a value, `today` is the clock's date, and the notification sends
 are the `deliver` outcomes of the fan-out loop.

 The import reads the schedule date from the file name, purges lessons
 older than two days before today, finds the sheets titled 10 and 11,
 replaces the date's lessons when the regular table already had some, runs
 the grade-10 phase and then the grade-11 phase (each takes its
 university-day path on its cohort's weekday), and finally notifies every
 user. A failing phase deletes every lesson of the date and ends the import.
 */
module Import {
  import opened Outcomes
  import opened Text
  import opened Cells
  import opened Dates
  import opened Seqs
  import opened Records
  import opened Scan
  import opened Broadcast

  // ---------------------------------------------------------------------------
  // Sheet discovery

  /** Python truthiness of a sheet index found so far: `None` and `0` are false. */
  predicate Found(sh: Option<nat>) {
    sh.Some? && sh.value != 0
  }

  /** The stripped tab titles the loop compares with `10` and `11`. */
  function Titles(names: seq<string>): (ts: seq<string>)
    ensures |ts| == |names| && forall j :: 0 <= j < |ts| ==> ts[j] == Strip(names[j])
  {
    seq(|names|, j requires 0 <= j < |names| => Strip(names[j]))
  }

  /**
   The discovery loop from tab `i` on: a tab titled `10` (else `11`)
   overwrites that index, and the loop stops as soon as both indices are
   truthy.
   */
  function Discover(titles: seq<string>, i: nat, sh10: Option<nat>, sh11: Option<nat>): (r: (Option<nat>, Option<nat>))
    requires i <= |titles|
    decreases |titles| - i
  {
    if i == |titles| then (sh10, sh11)
    else
      var next10 := if titles[i] == "10" then Some(i) else sh10;
      var next11 := if titles[i] != "10" && titles[i] == "11" then Some(i) else sh11;
      if Found(next10) && Found(next11) then (next10, next11)
      else Discover(titles, i + 1, next10, next11)
  }

  /** The indices `sh_10`, `sh_11` of the workbook's tabs. */
  function DiscoverSheets(names: seq<string>): (Option<nat>, Option<nat>) {
    Discover(Titles(names), 0, None, None)
  }

  /** A tab the loop reports really carries the title it was looked up by. */
  lemma {:induction false} DiscoverPointsAtTitles(titles: seq<string>, i: nat, sh10: Option<nat>, sh11: Option<nat>)
    requires i <= |titles|
    requires sh10.Some? ==> sh10.value < |titles| && titles[sh10.value] == "10"
    requires sh11.Some? ==> sh11.value < |titles| && titles[sh11.value] == "11"
    ensures var r := Discover(titles, i, sh10, sh11);
      && (r.0.Some? ==> r.0.value < |titles| && titles[r.0.value] == "10")
      && (r.1.Some? ==> r.1.value < |titles| && titles[r.1.value] == "11")
    decreases |titles| - i
  {
    if i < |titles| {
      var next10 := if titles[i] == "10" then Some(i) else sh10;
      var next11 := if titles[i] != "10" && titles[i] == "11" then Some(i) else sh11;
      DiscoverPointsAtTitles(titles, i + 1, next10, next11);
    }
  }

  /**
   An index stays `None` only when no tab from `i` on has that title and
   none was found before: the early stop needs both indices set.
   */
  lemma {:induction false} DiscoverMissesOnlyAbsent(titles: seq<string>, i: nat, sh10: Option<nat>, sh11: Option<nat>)
    requires i <= |titles|
    ensures var r := Discover(titles, i, sh10, sh11);
      && (r.0.None? <==> sh10.None? && forall j :: i <= j < |titles| ==> titles[j] != "10")
      && (r.1.None? <==> sh11.None? && forall j :: i <= j < |titles| ==> titles[j] != "11")
    decreases |titles| - i
  {
    if i < |titles| {
      var next10 := if titles[i] == "10" then Some(i) else sh10;
      var next11 := if titles[i] != "10" && titles[i] == "11" then Some(i) else sh11;
      DiscoverMissesOnlyAbsent(titles, i + 1, next10, next11);
    }
  }

  /** A tab the loop reports for a title carries that title once stripped. */
  lemma DiscoverSheetsFound(names: seq<string>)
    ensures var r := DiscoverSheets(names);
      && (r.0.Some? ==> r.0.value < |names| && Strip(names[r.0.value]) == "10")
      && (r.1.Some? ==> r.1.value < |names| && Strip(names[r.1.value]) == "11")
  {
    DiscoverPointsAtTitles(Titles(names), 0, None, None);
  }

  /** The loop reports no tab for a title exactly when no tab carries it. */
  lemma DiscoverSheetsMissing(names: seq<string>)
    ensures var r := DiscoverSheets(names);
      && (r.0.None? <==> forall j :: 0 <= j < |names| ==> Strip(names[j]) != "10")
      && (r.1.None? <==> forall j :: 0 <= j < |names| ==> Strip(names[j]) != "11")
  {
    DiscoverMissesOnlyAbsent(Titles(names), 0, None, None);
  }

  /**
   Index 0 is falsy, so a `10` tab in first place does not stop the loop: a
   later `10` tab overwrites it, while a `10` tab found second stops the loop
   at once.
   */
  lemma DiscoverIndexZeroQuirk()
    ensures Discover(["10", "11", "10"], 0, None, None) == (Some(2), Some(1))
    ensures Discover(["11", "10", "11", "10"], 0, None, None) == (Some(1), Some(2))
    ensures Discover(["x", "10", "11", "10"], 0, None, None) == (Some(1), Some(2))
  {
  }

  /** `worksheets[k]`; an index past the last tab raises. */
  function SheetAt(book: Workbook, k: nat): Result<Sheet> {
    if k < |book| then Ok(book[k]) else Err(NoSuchSheet(k))
  }

  /** The university-day path's `0 if not sh else sh`: a falsy index (None or 0) picks the first tab. */
  function UdaySheetIndex(sh: Option<nat>): nat {
    if !Found(sh) then 0 else sh.value
  }

  /** The regular path's `1 if not isinstance(sh, int) else sh`: only a missing index falls back, to the second tab. */
  function RegularSheetIndex(sh: Option<nat>): nat {
    if sh.None? then 1 else sh.value
  }

  /**
   Both paths use the found tab whenever there is one (index 0 included:
   the falsy fallback of the university-day path is the same tab); without
   one they fall back to different tabs.
   */
  lemma SheetIndexFallbacks(sh: Option<nat>)
    ensures sh.Some? ==> UdaySheetIndex(sh) == sh.value && RegularSheetIndex(sh) == sh.value
    ensures sh.None? ==> UdaySheetIndex(sh) == 0 && RegularSheetIndex(sh) == 1
  {
  }

  // ---------------------------------------------------------------------------
  // Time labels and the lesson count

  /** The cell reader of a sheet, as the scanners use it. */
  function Reader(sheet: Sheet): Coord -> Result<Value> {
    c => CellValue(sheet, c)
  }

  /**
   `sheet[letter][a:b]`: the cells of column `col` in rows `a+1` to
   `min(b, max_row)`, since the column read covers rows 1 to `max_row`.
   */
  function ColumnSlice(sheet: Sheet, col: int, a: nat, b: int): (cs: seq<Coord>)
    ensures forall k :: 0 <= k < |cs| ==> cs[k] == Coord(a + 1 + k, col) && a + 1 + k <= sheet.maxRow && a + k < b
  {
    var hi := if b < sheet.maxRow then b else sheet.maxRow;
    if hi <= a then [] else seq(hi - a, k requires 0 <= k < hi - a => Coord(a + 1 + k, col))
  }

  /**
   A cell the label comprehension keeps: every cell, or with the filter only
   those whose value is truthy. The filter reads the cell too, so a cell
   that cannot be read raises either way.
   */
  predicate KeepsCell(read: Coord -> Result<Value>, c: Coord, skipEmpty: bool) {
    !skipEmpty || (read(c).Ok? && Truthy(read(c).value))
  }

  /** A cell the comprehension gets past: it can be read, and when kept its value is text. */
  predicate LabelReads(read: Coord -> Result<Value>, c: Coord, skipEmpty: bool) {
    read(c).Ok? && (KeepsCell(read, c, skipEmpty) ==> read(c).value.Text?)
  }

  /** The time label a kept text cell gives: its text with every newline removed. */
  function LabelText(read: Coord -> Result<Value>, c: Coord): (s: string)
    ensures '\n' !in s
  {
    match read(c)
    case Ok(Text(t)) => RemoveCharGone(t, '\n'); RemoveChar(t, '\n')
    case _ => ""
  }

  /** The positions of `cells` from `from` on that the comprehension keeps, in increasing order. */
  function KeptFrom(read: Coord -> Result<Value>, cells: seq<Coord>, skipEmpty: bool, from: nat): (idx: seq<nat>)
    requires from <= |cells|
    ensures |idx| <= |cells| - from
    ensures forall m :: 0 <= m < |idx| ==> from <= idx[m] < |cells|
    decreases |cells| - from
  {
    if from == |cells| then []
    else if KeepsCell(read, cells[from], skipEmpty) then [from] + KeptFrom(read, cells, skipEmpty, from + 1)
    else KeptFrom(read, cells, skipEmpty, from + 1)
  }

  /**
   The kept positions are exactly the positions of kept cells, in
   increasing order; without the filter they are all the positions.
   */
  lemma KeptFromSpec(read: Coord -> Result<Value>, cells: seq<Coord>, skipEmpty: bool, from: nat)
    requires from <= |cells|
    ensures var idx := KeptFrom(read, cells, skipEmpty, from);
      && (forall m :: 0 <= m < |idx| ==> KeepsCell(read, cells[idx[m]], skipEmpty))
      && (forall m, n :: 0 <= m < n < |idx| ==> idx[m] < idx[n])
      && (forall k :: from <= k < |cells| && KeepsCell(read, cells[k], skipEmpty) ==> k in idx)
      && (!skipEmpty ==> |idx| == |cells| - from && forall m :: 0 <= m < |idx| ==> idx[m] == from + m)
  {
    KeptSound(read, cells, skipEmpty, from);
    KeptIncreasing(read, cells, skipEmpty, from);
    KeptComplete(read, cells, skipEmpty, from);
    KeptAllUnfiltered(read, cells, skipEmpty, from);
  }

  lemma {:induction false} KeptSound(read: Coord -> Result<Value>, cells: seq<Coord>, skipEmpty: bool, from: nat)
    requires from <= |cells|
    ensures forall m :: 0 <= m < |KeptFrom(read, cells, skipEmpty, from)| ==>
      KeepsCell(read, cells[KeptFrom(read, cells, skipEmpty, from)[m]], skipEmpty)
    decreases |cells| - from
  {
    if from < |cells| {
      KeptSound(read, cells, skipEmpty, from + 1);
      var idx, tail := KeptFrom(read, cells, skipEmpty, from), KeptFrom(read, cells, skipEmpty, from + 1);
      if KeepsCell(read, cells[from], skipEmpty) {
        assert idx == [from] + tail;
        forall m | 1 <= m < |idx|
          ensures KeepsCell(read, cells[idx[m]], skipEmpty)
        {
          assert 0 <= m - 1 < |tail|;
          assert KeepsCell(read, cells[tail[m - 1]], skipEmpty);
          assert idx[m] == tail[m - 1];
        }
      } else {
        assert idx == tail;
      }
    }
  }

  lemma {:induction false} KeptIncreasing(read: Coord -> Result<Value>, cells: seq<Coord>, skipEmpty: bool, from: nat)
    requires from <= |cells|
    ensures forall m, n :: 0 <= m < n < |KeptFrom(read, cells, skipEmpty, from)| ==>
      KeptFrom(read, cells, skipEmpty, from)[m] < KeptFrom(read, cells, skipEmpty, from)[n]
    decreases |cells| - from
  {
    if from < |cells| {
      KeptIncreasing(read, cells, skipEmpty, from + 1);
      var idx, tail := KeptFrom(read, cells, skipEmpty, from), KeptFrom(read, cells, skipEmpty, from + 1);
      if KeepsCell(read, cells[from], skipEmpty) {
        assert idx == [from] + tail;
        forall m, n | 0 <= m < n < |idx|
          ensures idx[m] < idx[n]
        {
          assert idx[n] == tail[n - 1];
          if m > 0 {
            assert idx[m] == tail[m - 1];
          }
        }
      } else {
        assert idx == tail;
      }
    }
  }

  lemma {:induction false} KeptComplete(read: Coord -> Result<Value>, cells: seq<Coord>, skipEmpty: bool, from: nat)
    requires from <= |cells|
    ensures var idx := KeptFrom(read, cells, skipEmpty, from);
      forall k :: from <= k < |cells| && KeepsCell(read, cells[k], skipEmpty) ==> k in idx
    decreases |cells| - from
  {
    if from < |cells| {
      KeptComplete(read, cells, skipEmpty, from + 1);
      var idx, tail := KeptFrom(read, cells, skipEmpty, from), KeptFrom(read, cells, skipEmpty, from + 1);
      if KeepsCell(read, cells[from], skipEmpty) {
        assert idx == [from] + tail;
      }
    }
  }

  lemma {:induction false} KeptAllUnfiltered(read: Coord -> Result<Value>, cells: seq<Coord>, skipEmpty: bool, from: nat)
    requires from <= |cells|
    ensures var idx := KeptFrom(read, cells, skipEmpty, from);
      !skipEmpty ==> |idx| == |cells| - from && forall m :: 0 <= m < |idx| ==> idx[m] == from + m
    decreases |cells| - from
  {
    if from < |cells| && !skipEmpty {
      KeptAllUnfiltered(read, cells, skipEmpty, from + 1);
      var idx, tail := KeptFrom(read, cells, skipEmpty, from), KeptFrom(read, cells, skipEmpty, from + 1);
      assert idx == [from] + tail;
      forall m | 1 <= m < |idx|
        ensures idx[m] == from + m
      {
        assert idx[m] == tail[m - 1];
      }
    }
  }

  /** The labels of `cells` from `from` on, the comprehension evaluated left to right. */
  function LabelsFrom(read: Coord -> Result<Value>, cells: seq<Coord>, skipEmpty: bool, from: nat): (r: Result<seq<string>>)
    requires from <= |cells|
    ensures r.Ok? <==> forall k :: from <= k < |cells| ==> LabelReads(read, cells[k], skipEmpty)
    decreases |cells| - from
  {
    if from == |cells| then Ok([])
    else
      var c := cells[from];
      var v :- read(c);
      if skipEmpty && !Truthy(v) then LabelsFrom(read, cells, skipEmpty, from + 1)
      else if !v.Text? then Err(NotText(c.row, c.col))
      else
        var rest :- LabelsFrom(read, cells, skipEmpty, from + 1);
        Ok([RemoveChar(v.s, '\n')] + rest)
  }

  /** Label `m` from `from` on is the text of the `m`-th kept cell from there. */
  lemma {:induction false} LabelsFromKept(read: Coord -> Result<Value>, cells: seq<Coord>, skipEmpty: bool, from: nat)
    requires from <= |cells|
    ensures var r := LabelsFrom(read, cells, skipEmpty, from);
      var idx := KeptFrom(read, cells, skipEmpty, from);
      r.Ok? ==> |r.value| == |idx| && forall m :: 0 <= m < |idx| ==> r.value[m] == LabelText(read, cells[idx[m]])
    decreases |cells| - from
  {
    var r := LabelsFrom(read, cells, skipEmpty, from);
    if from < |cells| && r.Ok? {
      LabelsFromKept(read, cells, skipEmpty, from + 1);
      var rest := LabelsFrom(read, cells, skipEmpty, from + 1);
      var tail := KeptFrom(read, cells, skipEmpty, from + 1);
      if KeepsCell(read, cells[from], skipEmpty) {
        var idx := KeptFrom(read, cells, skipEmpty, from);
        assert read(cells[from]).Ok? && read(cells[from]).value.Text?;
        assert r.value == [LabelText(read, cells[from])] + rest.value;
        assert idx == [from] + tail;
        forall m | 1 <= m < |idx|
          ensures r.value[m] == LabelText(read, cells[idx[m]])
        {
          assert r.value[m] == rest.value[m - 1] && idx[m] == tail[m - 1];
        }
      } else {
        assert r == rest;
      }
    }
  }

  /**
   The time labels read from `cells`: each kept value with its newlines
   removed, in order; `skipEmpty` is the `if cell_value(i)` filter. A kept
   value that is not text raises on `.replace`.
   */
  function Labels(read: Coord -> Result<Value>, cells: seq<Coord>, skipEmpty: bool): (r: Result<seq<string>>)
    ensures r.Ok? <==> forall k :: 0 <= k < |cells| ==> LabelReads(read, cells[k], skipEmpty)
    ensures r.Ok? ==> var idx := KeptFrom(read, cells, skipEmpty, 0);
      && |r.value| == |idx|
      && forall m :: 0 <= m < |idx| ==> r.value[m] == LabelText(read, cells[idx[m]])
    ensures r.Ok? ==> forall m :: 0 <= m < |r.value| ==> '\n' !in r.value[m]
    ensures r.Ok? && !skipEmpty ==> |r.value| == |cells| && forall k :: 0 <= k < |cells| ==> r.value[k] == LabelText(read, cells[k])
  {
    LabelsFromKept(read, cells, skipEmpty, 0);
    KeptFromSpec(read, cells, skipEmpty, 0);
    LabelsFrom(read, cells, skipEmpty, 0)
  }

  lemma RemoveCharGone(s: string, c: char)
    ensures c !in RemoveChar(s, c)
  {
    if |s| > 0 {
      RemoveCharGone(s[1..], c);
    }
  }

  /** The digits `ls_num` candidates are looked up in with `in`. */
  const LessonDigits: string := "123456789"

  /**
   One cell of the `ls_num` comprehension: a value whose `str` occurs in
   `123456789` (the empty text does) is read with `int`, which fails on the
   empty text; any other value contributes nothing.
   */
  function CellNumber(sheet: Sheet, c: Coord): Result<Option<int>> {
    var v :- CellValue(sheet, c);
    if !Contains(LessonDigits, Str(v)) then Ok(None)
    else if v.Number? then Ok(Some(v.n))
    else match ParseInt(Str(v))
      case None => Err(NotAnInteger(Str(v)))
      case Some(n) => Ok(Some(n))
  }

  /**
   The comprehension over the cells' outcomes, left to right: the first
   failure is the exception raised, otherwise the numbers in order.
   */
  function CollectNumbers(outcomes: seq<Result<Option<int>>>): (r: Result<seq<int>>)
    ensures r.Ok? <==> forall k :: 0 <= k < |outcomes| ==> outcomes[k].Ok?
    ensures r.Ok? ==> forall n :: n in r.value <==> Ok(Some(n)) in outcomes
  {
    if |outcomes| == 0 then Ok([])
    else
      var here :- outcomes[0];
      var rest :- CollectNumbers(outcomes[1..]);
      assert outcomes == [outcomes[0]] + outcomes[1..];
      Ok((if here.Some? then [here.value] else []) + rest)
  }

  /** A failing collection reports its first failure. */
  lemma {:induction false} CollectNumbersFirstError(outcomes: seq<Result<Option<int>>>, k: nat)
    requires k < |outcomes| && outcomes[k].Err?
    requires forall j :: 0 <= j < k ==> outcomes[j].Ok?
    ensures CollectNumbers(outcomes) == Err(outcomes[k].error)
  {
    if k > 0 {
      CollectNumbersFirstError(outcomes[1..], k - 1);
    }
  }

  /** The lesson numbers of the cells of column B, each cell read before the next one. */
  function LessonNumbers(sheet: Sheet, cells: seq<Coord>): (r: Result<seq<int>>)
    ensures r.Ok? <==> forall k :: 0 <= k < |cells| ==> CellNumber(sheet, cells[k]).Ok?
    ensures r.Ok? ==> forall n :: n in r.value <==> exists k :: 0 <= k < |cells| && CellNumber(sheet, cells[k]) == Ok(Some(n))
  {
    var outcomes := seq(|cells|, k requires 0 <= k < |cells| => CellNumber(sheet, cells[k]));
    CollectPointwise(outcomes, cells, c => CellNumber(sheet, c));
    CollectNumbers(outcomes)
  }

  /** `CollectNumbers` of the outcomes of `read` on each cell, stated cell by cell. */
  lemma CollectPointwise(outcomes: seq<Result<Option<int>>>, cells: seq<Coord>, read: Coord -> Result<Option<int>>)
    requires |outcomes| == |cells| && forall k :: 0 <= k < |cells| ==> outcomes[k] == read(cells[k])
    ensures CollectNumbers(outcomes).Ok? <==> forall k :: 0 <= k < |cells| ==> read(cells[k]).Ok?
    ensures CollectNumbers(outcomes).Ok? ==>
      forall n :: n in CollectNumbers(outcomes).value <==> exists k :: 0 <= k < |cells| && read(cells[k]) == Ok(Some(n))
  {
    if CollectNumbers(outcomes).Ok? {
      forall n | n in CollectNumbers(outcomes).value
        ensures exists k :: 0 <= k < |cells| && read(cells[k]) == Ok(Some(n))
      {
        var k :| 0 <= k < |outcomes| && outcomes[k] == Ok(Some(n));
      }
    }
  }

  /** A failing `ls_num` comprehension reports the first cell that fails, as Python's left-to-right evaluation does. */
  lemma LessonNumbersFirstError(sheet: Sheet, cells: seq<Coord>, k: nat)
    requires k < |cells| && CellNumber(sheet, cells[k]).Err?
    requires forall j :: 0 <= j < k ==> CellNumber(sheet, cells[j]).Ok?
    ensures LessonNumbers(sheet, cells) == Err(CellNumber(sheet, cells[k]).error)
  {
    CollectNumbersFirstError(seq(|cells|, k requires 0 <= k < |cells| => CellNumber(sheet, cells[k])), k);
  }

  function Max(xs: seq<int>): (m: int)
    requires |xs| > 0
    ensures m in xs && forall x :: x in xs ==> x <= m
  {
    if |xs| == 1 then xs[0]
    else
      var rest := Max(xs[1..]);
      assert xs == [xs[0]] + xs[1..];
      if xs[0] >= rest then xs[0] else rest
  }

  /** `ls_num`: the largest lesson number in rows 4 to 14 of column B; `max` of nothing raises. */
  function LessonCount(sheet: Sheet): Result<int> {
    var ns :- LessonNumbers(sheet, ColumnSlice(sheet, 2, 3, 14));
    if |ns| == 0 then Err(NoLessonCount) else Ok(Max(ns))
  }

  /** Python's `xs[:k]` and `xs[k:]` for `k >= 0`. */
  function Take<T>(xs: seq<T>, k: nat): seq<T> {
    if k <= |xs| then xs[..k] else xs
  }

  function Drop<T>(xs: seq<T>, k: nat): seq<T> {
    if k <= |xs| then xs[k..] else []
  }

  // ---------------------------------------------------------------------------
  // The two cohort phases

  /** The windows `main_schedule_parse` hands to the scanners. */
  const Grade10GroupsWindow: Window := Window(2, 4, 8, 27)
  const Grade10ClassesWindow: Window := Window(9, 4, 12, 27)
  const Grade10RegularWindow: Window := Window(2, 4, 11, 23)
  const Grade11GroupsWindow: Window := Window(3, 4, 9, 23)
  const Grade11ClassesWindow: Window := Window(10, 4, 13, 23)
  const Grade11RegularWindow: Window := Window(2, 4, 12, 23)

  /** The column C cells whose labels each phase reads. */
  function Grade10UdayLabelCells(sheet: Sheet): seq<Coord> {
    ColumnSlice(sheet, 3, 2, 9) + ColumnSlice(sheet, 3, 9, 11)
  }

  function Grade11UdayLabelCells(sheet: Sheet): seq<Coord> {
    ColumnSlice(sheet, 3, 3, 9) + ColumnSlice(sheet, 3, 10, 12)
  }

  function Grade10RegularLabelCells(sheet: Sheet, count: int): seq<Coord> {
    ColumnSlice(sheet, 3, 3, 3 + count)
  }

  function Grade11RegularLabelCells(sheet: Sheet): seq<Coord> {
    ColumnSlice(sheet, 3, 3, 11)
  }

  /** The lesson rows a phase writes. */
  datatype Rows = Rows(regular: seq<RegularRecord>, uday: seq<UdayRecord>)

  /** Every row a phase writes carries the import date. */
  predicate Dated(rows: Rows, date: ValidDate) {
    && (forall x :: x in rows.regular ==> x.date == date)
    && (forall x :: x in rows.uday ==> x.date == date)
  }

  /** Grade 10 on its university day (weekday 0): groups, then classes, from one sheet. */
  function Grade10Uday(book: Workbook, sh10: Option<nat>, date: ValidDate): Result<Rows> {
    var sheet :- SheetAt(book, UdaySheetIndex(sh10));
    var times :- Labels(Reader(sheet), Grade10UdayLabelCells(sheet), true);
    var groups :- UdayGroupsScan(Reader(sheet), date, Take(times, 6), Grade10GroupsWindow);
    var classes :- UdayClassesScan(Reader(sheet), date, Drop(times, 6), Grade10ClassesWindow);
    Ok(Rows(classes, groups))
  }

  /** Grade 10 on any other day: `ls_num` time labels, unfiltered, then the regular scan. */
  function Grade10Regular(book: Workbook, sh10: Option<nat>, date: ValidDate): Result<Rows> {
    var sheet :- SheetAt(book, RegularSheetIndex(sh10));
    var count :- LessonCount(sheet);
    var times :- Labels(Reader(sheet), Grade10RegularLabelCells(sheet, count), false);
    var regular :- RegularScan(Reader(sheet), date, times, Grade10RegularWindow);
    Ok(Rows(regular, []))
  }

  /** Grade 11 on its university day (weekday 2). */
  function Grade11Uday(book: Workbook, sh11: Option<nat>, date: ValidDate): Result<Rows> {
    var sheet :- SheetAt(book, UdaySheetIndex(sh11));
    var times :- Labels(Reader(sheet), Grade11UdayLabelCells(sheet), true);
    var groups :- UdayGroupsScan(Reader(sheet), date, Take(times, 6), Grade11GroupsWindow);
    var classes :- UdayClassesScan(Reader(sheet), date, Drop(times, 6), Grade11ClassesWindow);
    Ok(Rows(classes, groups))
  }

  /** Grade 11 on any other day: the labels of rows 4 to 11, filtered, then the regular scan. */
  function Grade11Regular(book: Workbook, sh11: Option<nat>, date: ValidDate): Result<Rows> {
    var sheet :- SheetAt(book, RegularSheetIndex(sh11));
    var times :- Labels(Reader(sheet), Grade11RegularLabelCells(sheet), true);
    var regular :- RegularScan(Reader(sheet), date, times, Grade11RegularWindow);
    Ok(Rows(regular, []))
  }

  /** The weekday of each cohort's university day. */
  const Grade10UniversityWeekday: int := 0
  const Grade11UniversityWeekday: int := 2

  function Grade10Phase(book: Workbook, sh10: Option<nat>, date: ValidDate): Result<Rows> {
    if Weekday(date) == Grade10UniversityWeekday then Grade10Uday(book, sh10, date) else Grade10Regular(book, sh10, date)
  }

  function Grade11Phase(book: Workbook, sh11: Option<nat>, date: ValidDate): Result<Rows> {
    if Weekday(date) == Grade11UniversityWeekday then Grade11Uday(book, sh11, date) else Grade11Regular(book, sh11, date)
  }

  // ---------------------------------------------------------------------------
  // The import

  datatype ImportOutcome =
    | BadFileName                          // `strptime` raised: nothing was changed
    | CohortFailed(date: ValidDate, grade: int, error: Error) // a phase raised: the date's lessons were deleted
    | Saved(date: ValidDate)               // both phases and the notifications went through
    | NotifyAborted(date: ValidDate)       // saved, but a send raised and ended the notifications

  datatype ImportResult = ImportResult(store: Store, outcome: ImportOutcome)

  /** The purge of lessons dated before `today - 2`, then the replace step, which looks only at the regular table. */
  function Prepare(store: Store, date: ValidDate, today: ValidDate): Store {
    var purged := PurgeBefore(store, Ordinal(today) - 2);
    if HasRegularOn(purged, date) then DeleteDate(purged, date) else purged
  }

  function Insert(store: Store, rows: Rows): Store {
    store.(regular := store.regular + rows.regular, uday := store.uday + rows.uday)
  }

  function UserIds(users: seq<UserProfile>): (ids: seq<int>)
    ensures |ids| == |users| && forall k :: 0 <= k < |ids| ==> ids[k] == users[k].userId
  {
    seq(|users|, k requires 0 <= k < |users| => users[k].userId)
  }

  /**
   The part of the import after the phases have been computed: the first
   failing phase rolls back every lesson of the date (including the other
   phase's and any left from before); after both phases every user is
   notified.
   */
  function Commit(prepared: Store, date: ValidDate, phase10: Result<Rows>, phase11: Result<Rows>, deliver: int -> Delivery): ImportResult {
    match phase10
    case Err(e) => ImportResult(DeleteDate(prepared, date), CohortFailed(date, 10, e))
    case Ok(rows10) =>
      var after10 := Insert(prepared, rows10);
      match phase11
      case Err(e) => ImportResult(DeleteDate(after10, date), CohortFailed(date, 11, e))
      case Ok(rows11) =>
        var saved := Insert(after10, rows11);
        var sent := FanOut(UserIds(saved.users), saved.users, deliver);
        ImportResult(saved.(users := sent.users), if sent.aborted then NotifyAborted(date) else Saved(date))
  }

  /** `main_schedule_parse(fileName)` run on `today`. */
  function ImportSchedule(store: Store, book: Workbook, fileName: string, today: ValidDate, deliver: int -> Delivery): ImportResult {
    match ScheduleDate(fileName, today.year)
    case None => ImportResult(store, BadFileName)
    case Some(date) =>
      var sheets := DiscoverSheets(SheetNames(book));
      Commit(Prepare(store, date, today), date, Grade10Phase(book, sheets.0, date), Grade11Phase(book, sheets.1, date), deliver)
  }

  // ---------------------------------------------------------------------------
  // Properties of the phases

  /**
   The rows of a regular-day phase on a sheet: the regular scan's rows and
   no university-day rows; each row comes from a slot of a class column in
   the window, and every filled slot under a class header gives a row.
   */
  ghost predicate RegularPhaseRows(read: Coord -> Result<Value>, date: ValidDate, times: seq<string>, w: Window, rows: Rows)
    requires Addressable(w)
  {
    && RegularScan(read, date, times, w) == Ok(rows.regular)
    && rows.uday == []
    && (forall r :: r in rows.regular ==> exists c :: w.startCol <= c <= w.endCol && RegularFrom(read, date, times, w, c, r))
    && (forall c, j :: w.startCol <= c <= w.endCol && 0 <= j < SlotCount(w, 2) && FilledBelow(read, w, 2, c, j) ==>
          exists r :: r in rows.regular && r.lessonNumber == j && RegularFrom(read, date, times, w, c, r))
  }

  /**
   The rows of a university-day phase on a sheet: the groups scan's rows
   with the first six labels, and the classes scan's rows with the rest.
   */
  ghost predicate UdayPhaseRows(read: Coord -> Result<Value>, date: ValidDate, times: seq<string>, groups: Window, classes: Window, rows: Rows)
    requires Addressable(groups) && Addressable(classes)
  {
    UdayGroupRows(read, date, Take(times, 6), groups, rows.uday) && UdayClassRows(read, date, Drop(times, 6), classes, rows.regular)
  }

  /**
   The groups scan's rows: each comes from a slot of the first column of its
   group, and every filled slot of such a column gives a row.
   */
  ghost predicate UdayGroupRows(read: Coord -> Result<Value>, date: ValidDate, times: seq<string>, w: Window, rows: seq<UdayRecord>)
    requires Addressable(w)
  {
    && UdayGroupsScan(read, date, times, w) == Ok(rows)
    && (forall r :: r in rows ==> exists c :: UdayFrom(read, date, times, w, c, r))
    && (forall c, g, j :: FirstGroupColumn(read, w, c, g) && 0 <= j < SlotCount(w, 1) && FilledBelow(read, w, 1, c, j) ==>
          exists r :: r in rows && r.groupNumber == g && r.lessonNumber == j)
  }

  /**
   The classes scan's rows: each comes from a slot of the first column of
   its class, and every filled slot of such a column gives a row.
   */
  ghost predicate UdayClassRows(read: Coord -> Result<Value>, date: ValidDate, times: seq<string>, w: Window, rows: seq<RegularRecord>)
    requires Addressable(w)
  {
    && UdayClassesScan(read, date, times, w) == Ok(rows)
    && (forall r :: r in rows ==> exists c :: UdayClassFrom(read, date, times, w, c, r))
    && (forall c, key, j :: FirstClassColumn(read, w, c, key) && 0 <= j < SlotCount(w, 1) && FilledBelow(read, w, 1, c, j) ==>
          !key.Blank? && exists r :: r in rows && r.classLetter == StoredText(key) && r.lessonNumber == j)
  }

  /** A regular scan that succeeds gives dated phase rows that are sound and complete. */
  lemma RegularPhaseRowsOf(read: Coord -> Result<Value>, date: ValidDate, times: seq<string>, w: Window)
    requires Addressable(w) && RegularScan(read, date, times, w).Ok?
    ensures var rows := Rows(RegularScan(read, date, times, w).value, []);
      RegularPhaseRows(read, date, times, w, rows) && Dated(rows, date)
  {
    RegularScanSound(read, date, times, w);
    forall c, j | w.startCol <= c <= w.endCol && 0 <= j < SlotCount(w, 2) && FilledBelow(read, w, 2, c, j)
      ensures exists r :: r in RegularScan(read, date, times, w).value && r.lessonNumber == j && RegularFrom(read, date, times, w, c, r)
    {
      RegularScanComplete(read, date, times, w, c, j);
    }
  }

  /** University-day scans that succeed give dated phase rows that are sound and complete, the class rows all of sub-group 0. */
  lemma UdayPhaseRowsOf(read: Coord -> Result<Value>, date: ValidDate, times: seq<string>, groups: Window, classes: Window)
    requires Addressable(groups) && Addressable(classes)
    requires UdayGroupsScan(read, date, Take(times, 6), groups).Ok? && UdayClassesScan(read, date, Drop(times, 6), classes).Ok?
    ensures var rows := Rows(UdayClassesScan(read, date, Drop(times, 6), classes).value, UdayGroupsScan(read, date, Take(times, 6), groups).value);
      && UdayPhaseRows(read, date, times, groups, classes, rows) && Dated(rows, date)
      && forall x :: x in rows.regular ==> x.groupNumber == 0
  {
    UdayGroupRowsOf(read, date, Take(times, 6), groups);
    UdayClassRowsOf(read, date, Drop(times, 6), classes);
  }

  lemma UdayGroupRowsOf(read: Coord -> Result<Value>, date: ValidDate, times: seq<string>, w: Window)
    requires Addressable(w) && UdayGroupsScan(read, date, times, w).Ok?
    ensures UdayGroupRows(read, date, times, w, UdayGroupsScan(read, date, times, w).value)
    ensures forall x :: x in UdayGroupsScan(read, date, times, w).value ==> x.date == date
  {
    UdayGroupsScanSound(read, date, times, w);
    forall c, g, j | FirstGroupColumn(read, w, c, g) && 0 <= j < SlotCount(w, 1) && FilledBelow(read, w, 1, c, j)
      ensures exists r :: r in UdayGroupsScan(read, date, times, w).value && r.groupNumber == g && r.lessonNumber == j
    {
      UdayGroupsScanComplete(read, date, times, w, c, g, j);
    }
  }

  lemma UdayClassRowsOf(read: Coord -> Result<Value>, date: ValidDate, times: seq<string>, w: Window)
    requires Addressable(w) && UdayClassesScan(read, date, times, w).Ok?
    ensures UdayClassRows(read, date, times, w, UdayClassesScan(read, date, times, w).value)
    ensures forall x :: x in UdayClassesScan(read, date, times, w).value ==> x.date == date && x.groupNumber == 0
  {
    UdayClassesScanSound(read, date, times, w);
    forall c, key, j | FirstClassColumn(read, w, c, key) && 0 <= j < SlotCount(w, 1) && FilledBelow(read, w, 1, c, j)
      ensures !key.Blank? && exists r :: r in UdayClassesScan(read, date, times, w).value && r.classLetter == StoredText(key) && r.lessonNumber == j
    {
      UdayClassesScanComplete(read, date, times, w, c, key, j);
    }
  }

  /**
   Grade 10's phase: on its university day (weekday 0) it reads the found
   tab, or the first one, and its rows are the two university-day scans'
   on that sheet with the filtered labels of C3-C11; on any other day it
   reads the found tab, or the second one, and its rows are the regular
   scan's with the unfiltered labels of the `ls_num` rows from C4. Either
   way the rows are sound and complete with respect to the sheet and carry
   the import date.
   */
  lemma Grade10Dispatch(book: Workbook, sh10: Option<nat>, date: ValidDate)
    requires Grade10Phase(book, sh10, date).Ok?
    ensures Dated(Grade10Phase(book, sh10, date).value, date)
    ensures Weekday(date) == Grade10UniversityWeekday ==>
      && UdaySheetIndex(sh10) < |book|
      && var sheet := book[UdaySheetIndex(sh10)];
      && Labels(Reader(sheet), Grade10UdayLabelCells(sheet), true).Ok?
      && UdayPhaseRows(Reader(sheet), date, Labels(Reader(sheet), Grade10UdayLabelCells(sheet), true).value,
                       Grade10GroupsWindow, Grade10ClassesWindow, Grade10Phase(book, sh10, date).value)
      && forall x :: x in Grade10Phase(book, sh10, date).value.regular ==> x.groupNumber == 0
    ensures Weekday(date) != Grade10UniversityWeekday ==>
      && RegularSheetIndex(sh10) < |book|
      && var sheet := book[RegularSheetIndex(sh10)];
      && LessonCount(sheet).Ok?
      && Labels(Reader(sheet), Grade10RegularLabelCells(sheet, LessonCount(sheet).value), false).Ok?
      && RegularPhaseRows(Reader(sheet), date, Labels(Reader(sheet), Grade10RegularLabelCells(sheet, LessonCount(sheet).value), false).value,
                          Grade10RegularWindow, Grade10Phase(book, sh10, date).value)
  {
    if Weekday(date) == Grade10UniversityWeekday {
      var sheet := book[UdaySheetIndex(sh10)];
      var times := Labels(Reader(sheet), Grade10UdayLabelCells(sheet), true).value;
      UdayPhaseRowsOf(Reader(sheet), date, times, Grade10GroupsWindow, Grade10ClassesWindow);
    } else {
      var sheet := book[RegularSheetIndex(sh10)];
      var times := Labels(Reader(sheet), Grade10RegularLabelCells(sheet, LessonCount(sheet).value), false).value;
      RegularPhaseRowsOf(Reader(sheet), date, times, Grade10RegularWindow);
    }
  }

  /**
   Grade 11's phase, the same on its university day (weekday 2) with the
   filtered labels of C4-C9 and C11-C12; on any other day the labels are
   the filtered C4-C11.
   */
  lemma Grade11Dispatch(book: Workbook, sh11: Option<nat>, date: ValidDate)
    requires Grade11Phase(book, sh11, date).Ok?
    ensures Dated(Grade11Phase(book, sh11, date).value, date)
    ensures Weekday(date) == Grade11UniversityWeekday ==>
      && UdaySheetIndex(sh11) < |book|
      && var sheet := book[UdaySheetIndex(sh11)];
      && Labels(Reader(sheet), Grade11UdayLabelCells(sheet), true).Ok?
      && UdayPhaseRows(Reader(sheet), date, Labels(Reader(sheet), Grade11UdayLabelCells(sheet), true).value,
                       Grade11GroupsWindow, Grade11ClassesWindow, Grade11Phase(book, sh11, date).value)
      && forall x :: x in Grade11Phase(book, sh11, date).value.regular ==> x.groupNumber == 0
    ensures Weekday(date) != Grade11UniversityWeekday ==>
      && RegularSheetIndex(sh11) < |book|
      && var sheet := book[RegularSheetIndex(sh11)];
      && Labels(Reader(sheet), Grade11RegularLabelCells(sheet), true).Ok?
      && RegularPhaseRows(Reader(sheet), date, Labels(Reader(sheet), Grade11RegularLabelCells(sheet), true).value,
                          Grade11RegularWindow, Grade11Phase(book, sh11, date).value)
  {
    if Weekday(date) == Grade11UniversityWeekday {
      var sheet := book[UdaySheetIndex(sh11)];
      var times := Labels(Reader(sheet), Grade11UdayLabelCells(sheet), true).value;
      UdayPhaseRowsOf(Reader(sheet), date, times, Grade11GroupsWindow, Grade11ClassesWindow);
    } else {
      var sheet := book[RegularSheetIndex(sh11)];
      var times := Labels(Reader(sheet), Grade11RegularLabelCells(sheet), true).value;
      RegularPhaseRowsOf(Reader(sheet), date, times, Grade11RegularWindow);
    }
  }

  /** Every row either phase writes carries the import date. */
  lemma PhasesDated(book: Workbook, sheets: (Option<nat>, Option<nat>), date: ValidDate)
    ensures Grade10Phase(book, sheets.0, date).Ok? ==> Dated(Grade10Phase(book, sheets.0, date).value, date)
    ensures Grade11Phase(book, sheets.1, date).Ok? ==> Dated(Grade11Phase(book, sheets.1, date).value, date)
  {
    if Grade10Phase(book, sheets.0, date).Ok? {
      Grade10Dispatch(book, sheets.0, date);
    }
    if Grade11Phase(book, sheets.1, date).Ok? {
      Grade11Dispatch(book, sheets.1, date);
    }
  }

  /** Python's `weekday()` numbering: 15 September 2025 was a Monday, 17 September 2025 a Wednesday. */
  lemma UniversityWeekdays()
    ensures Weekday(Date(2025, 9, 15)) == Grade10UniversityWeekday
    ensures Weekday(Date(2025, 9, 17)) == Grade11UniversityWeekday
  {
  }

  // ---------------------------------------------------------------------------
  // Properties of the store updates

  /** The import replaces the date's lessons: its regular table still had rows of the date after the purge. */
  predicate ReplacesDate(store: Store, date: ValidDate, today: ValidDate) {
    HasRegularOn(store, date) && Ordinal(date) >= Ordinal(today) - 2
  }

  /**
   After the purge and the replace step no regular row of the date is left,
   and no row older than two days before today. University-day rows of the
   date survive when the regular table had none: the replace step looks
   only at the regular table.
   */
  lemma PrepareSpec(store: Store, date: ValidDate, today: ValidDate)
    ensures var p := Prepare(store, date, today);
      && (forall x :: x in p.regular <==> x in store.regular && Ordinal(x.date) >= Ordinal(today) - 2 && x.date != date)
      && (forall x :: x in p.uday <==> x in store.uday && Ordinal(x.date) >= Ordinal(today) - 2 &&
                                        (x.date != date || !ReplacesDate(store, date, today)))
      && p.users == store.users
  {
    var purged := PurgeBefore(store, Ordinal(today) - 2);
    assert HasRegularOn(purged, date) <==> ReplacesDate(store, date, today);
  }

  /**
   A failing phase ends the import with every lesson of the date deleted,
   whatever the phases and the earlier imports had written; the first
   failing phase is the one reported, and the users are not notified.
   */
  lemma CommitRollsBack(prepared: Store, date: ValidDate, phase10: Result<Rows>, phase11: Result<Rows>, deliver: int -> Delivery)
    requires phase10.Ok? ==> Dated(phase10.value, date)
    requires phase10.Err? || phase11.Err?
    ensures var r := Commit(prepared, date, phase10, phase11, deliver);
      && r.outcome == (if phase10.Err? then CohortFailed(date, 10, phase10.error) else CohortFailed(date, 11, phase11.error))
      && (forall x :: x in r.store.regular <==> x in prepared.regular && x.date != date)
      && (forall x :: x in r.store.uday <==> x in prepared.uday && x.date != date)
      && r.store.users == prepared.users
  {
  }

  /**
   When both phases succeed the date's rows are the prepared table's rows
   of the date followed by grade 10's and then grade 11's rows, other dates
   are untouched, and the users are notified: exactly the notified users
   who blocked the bot leave, and the outcome says whether a send raised.
   */
  lemma CommitSaves(prepared: Store, date: ValidDate, rows10: Rows, rows11: Rows, deliver: int -> Delivery)
    requires Dated(rows10, date) && Dated(rows11, date)
    ensures var r := Commit(prepared, date, Ok(rows10), Ok(rows11), deliver);
      && RegularOn(r.store.regular, date) == RegularOn(prepared.regular, date) + rows10.regular + rows11.regular
      && UdayOn(r.store.uday, date) == UdayOn(prepared.uday, date) + rows10.uday + rows11.uday
      && (forall x: RegularRecord :: x.date != date ==> (x in r.store.regular <==> x in prepared.regular))
      && (forall x: UdayRecord :: x.date != date ==> (x in r.store.uday <==> x in prepared.uday))
      && (forall u :: u in r.store.users <==> u in prepared.users && !BlockedAmongReached(UserIds(prepared.users), deliver, u.userId))
      && (r.outcome == NotifyAborted(date) <==> exists i :: 0 <= i < |prepared.users| && deliver(prepared.users[i].userId).OtherFailure?)
      && (r.outcome == Saved(date) <==> forall i :: 0 <= i < |prepared.users| ==> !deliver(prepared.users[i].userId).OtherFailure?)
  {
    var ids := UserIds(prepared.users);
    RegularOnAppend(prepared.regular, rows10.regular, date);
    RegularOnAppend(prepared.regular + rows10.regular, rows11.regular, date);
    RegularOnDated(rows10.regular, date);
    RegularOnDated(rows11.regular, date);
    UdayOnAppend(prepared.uday, rows10.uday, date);
    UdayOnAppend(prepared.uday + rows10.uday, rows11.uday, date);
    UdayOnDated(rows10.uday, date);
    UdayOnDated(rows11.uday, date);
    FanOutRemovesBlocked(ids, prepared.users, deliver);
    FanOutAborts(ids, prepared.users, deliver);
    assert (exists i :: 0 <= i < |ids| && deliver(ids[i]).OtherFailure?) <==>
           (exists i :: 0 <= i < |prepared.users| && deliver(prepared.users[i].userId).OtherFailure?);
  }

  // ---------------------------------------------------------------------------
  // Properties of the whole import

  /** Whatever the phases give, the import's outcome is about the date it was given. */
  lemma CommitOutcomeDate(prepared: Store, date: ValidDate, phase10: Result<Rows>, phase11: Result<Rows>, deliver: int -> Delivery)
    ensures var r := Commit(prepared, date, phase10, phase11, deliver);
      r.outcome != BadFileName && r.outcome.date == date
  {
  }

  /** A file name `strptime` rejects changes nothing; one it accepts always gets to the phases. */
  lemma ImportRejectsOnlyBadNames(store: Store, book: Workbook, fileName: string, today: ValidDate, deliver: int -> Delivery)
    ensures var r := ImportSchedule(store, book, fileName, today, deliver);
      && (r.outcome == BadFileName <==> ScheduleDate(fileName, today.year).None?)
      && (r.outcome == BadFileName ==> r.store == store)
      && (r.outcome != BadFileName ==> r.outcome.date == ScheduleDate(fileName, today.year).value)
  {
    match ScheduleDate(fileName, today.year)
    case None =>
    case Some(date) =>
      var sheets := DiscoverSheets(SheetNames(book));
      CommitOutcomeDate(Prepare(store, date, today), date, Grade10Phase(book, sheets.0, date), Grade11Phase(book, sheets.1, date), deliver);
  }

  /** An upload named after a date of this year with `%d.%m.xlsx` is imported for that date. */
  lemma ImportOfFormattedName(store: Store, book: Workbook, d: ValidDate, today: ValidDate, deliver: int -> Delivery)
    requires d.year == today.year
    ensures var r := ImportSchedule(store, book, FormatDayMonth(d) + ".xlsx", today, deliver);
      r.outcome != BadFileName && r.outcome.date == d
  {
    ScheduleDateOfFormat(d);
    ImportRejectsOnlyBadNames(store, book, FormatDayMonth(d) + ".xlsx", today, deliver);
  }

  /**
   An import whose phase fails leaves the store purged and without any
   lesson of the date, and leaves the users alone.
   */
  lemma ImportRollsBack(store: Store, book: Workbook, fileName: string, today: ValidDate, deliver: int -> Delivery)
    requires ImportSchedule(store, book, fileName, today, deliver).outcome.CohortFailed?
    ensures var r := ImportSchedule(store, book, fileName, today, deliver);
      && (forall x :: x in r.store.regular <==> x in store.regular && Ordinal(x.date) >= Ordinal(today) - 2 && x.date != r.outcome.date)
      && (forall x :: x in r.store.uday <==> x in store.uday && Ordinal(x.date) >= Ordinal(today) - 2 && x.date != r.outcome.date)
      && r.store.users == store.users
  {
    var date := ScheduleDate(fileName, today.year).value;
    var sheets := DiscoverSheets(SheetNames(book));
    var p10 := Grade10Phase(book, sheets.0, date);
    PhasesDated(book, sheets, date);
    PrepareSpec(store, date, today);
    CommitRollsBack(Prepare(store, date, today), date, p10, Grade11Phase(book, sheets.1, date), deliver);
  }

  /**
   An import that gets past both phases stores exactly the two phases' regular
   rows for the date, grade 10's first; its university-day rows for the date
   are the two phases' rows after whatever rows of the date survived the
   replace step. Rows of other dates are the purged table's, and a user
   leaves exactly when the notification to them reports a block.
   */
  lemma ImportSaves(store: Store, book: Workbook, fileName: string, today: ValidDate, deliver: int -> Delivery)
    requires ImportSchedule(store, book, fileName, today, deliver).outcome.Saved? ||
             ImportSchedule(store, book, fileName, today, deliver).outcome.NotifyAborted?
    ensures var r := ImportSchedule(store, book, fileName, today, deliver);
      var date := r.outcome.date;
      var sheets := DiscoverSheets(SheetNames(book));
      var p10 := Grade10Phase(book, sheets.0, date);
      var p11 := Grade11Phase(book, sheets.1, date);
      && p10.Ok? && p11.Ok?
      && RegularOn(r.store.regular, date) == p10.value.regular + p11.value.regular
      && (forall x :: x in UdayOn(r.store.uday, date) <==>
            x in p10.value.uday || x in p11.value.uday ||
            (x in store.uday && x.date == date && Ordinal(date) >= Ordinal(today) - 2 && !ReplacesDate(store, date, today)))
      && (forall x: RegularRecord :: x.date != date ==> (x in r.store.regular <==> x in store.regular && Ordinal(x.date) >= Ordinal(today) - 2))
      && (forall x: UdayRecord :: x.date != date ==> (x in r.store.uday <==> x in store.uday && Ordinal(x.date) >= Ordinal(today) - 2))
      && (forall u :: u in r.store.users <==> u in store.users && !BlockedAmongReached(UserIds(store.users), deliver, u.userId))
  {
    var date := ScheduleDate(fileName, today.year).value;
    var sheets := DiscoverSheets(SheetNames(book));
    var p10 := Grade10Phase(book, sheets.0, date);
    var p11 := Grade11Phase(book, sheets.1, date);
    PhasesDated(book, sheets, date);
    PreparedInsertDateRows(store, date, today, p10.value, p11.value);
    PreparedCommitRest(store, date, today, p10.value, p11.value, deliver);
  }

  /** `ImportSaves` for the rows of the import date, once the phases' rows are known. */
  lemma PreparedInsertDateRows(store: Store, date: ValidDate, today: ValidDate, rows10: Rows, rows11: Rows)
    requires Dated(rows10, date) && Dated(rows11, date)
    ensures var saved := Insert(Insert(Prepare(store, date, today), rows10), rows11);
      && RegularOn(saved.regular, date) == rows10.regular + rows11.regular
      && (forall x :: x in UdayOn(saved.uday, date) <==>
            x in rows10.uday || x in rows11.uday ||
            (x in store.uday && x.date == date && Ordinal(date) >= Ordinal(today) - 2 && !ReplacesDate(store, date, today)))
  {
    var prepared := Prepare(store, date, today);
    PrepareSpec(store, date, today);
    RegularOnNone(prepared.regular, date);
    RegularOnAppend(prepared.regular, rows10.regular, date);
    RegularOnAppend(prepared.regular + rows10.regular, rows11.regular, date);
    RegularOnDated(rows10.regular, date);
    RegularOnDated(rows11.regular, date);
    var saved := Insert(Insert(prepared, rows10), rows11);
    assert saved.regular == (prepared.regular + rows10.regular) + rows11.regular;
    assert [] + rows10.regular == rows10.regular;
    assert RegularOn(prepared.regular + rows10.regular, date) == rows10.regular;
    assert saved.uday == prepared.uday + rows10.uday + rows11.uday;
    forall x: UdayRecord | x.date == date
      ensures x in saved.uday <==> x in rows10.uday || x in rows11.uday || x in prepared.uday
    {
    }
  }

  /** `ImportSaves` for the other dates and the users, once the phases' rows are known. */
  lemma PreparedCommitRest(store: Store, date: ValidDate, today: ValidDate, rows10: Rows, rows11: Rows, deliver: int -> Delivery)
    requires Dated(rows10, date) && Dated(rows11, date)
    ensures var r := Commit(Prepare(store, date, today), date, Ok(rows10), Ok(rows11), deliver);
      && (forall x: RegularRecord :: x.date != date ==> (x in r.store.regular <==> x in store.regular && Ordinal(x.date) >= Ordinal(today) - 2))
      && (forall x: UdayRecord :: x.date != date ==> (x in r.store.uday <==> x in store.uday && Ordinal(x.date) >= Ordinal(today) - 2))
      && (forall u :: u in r.store.users <==> u in store.users && !BlockedAmongReached(UserIds(store.users), deliver, u.userId))
  {
    PrepareSpec(store, date, today);
    CommitSaves(Prepare(store, date, today), date, rows10, rows11, deliver);
  }
}
