/**
 The three column scanners of the schedule engine:
 `regular_classes_schedule_parsing`, `uday_groups_schedule_parsing` and
 `uday_classes_schedule_parsing`.

 Each walks the columns `startCol..endCol` of a worksheet window. The first
 row of a column is its header; the rows after the header (and, for a
 regular day, after the sub-group row) are lesson slots 0, 1, 2, ... Every
 slot whose value is truthy becomes one record, labelled with the slot's
 time label. A scanner stops at the first exception; the rows it had
 already written carry the import date and the import deletes every row of
 that date when a scanner fails, so a scan is modelled as returning either
 all its rows or the error.
 */
module Scan {
  import opened Outcomes
  import opened Text
  import opened Cells
  import opened Dates
  import opened Records
  import opened Columns

  /** The `min_row`, `min_col`, `max_row`, `max_col` given to `iter_cols`. */
  datatype Window = Window(startRow: int, startCol: int, endRow: int, endCol: int)

  /** openpyxl refuses rows and columns below 1. */
  predicate Addressable(w: Window) {
    1 <= w.startRow && 1 <= w.startCol
  }

  /** One filled slot: its 0-based slot number and the text to store. */
  datatype Lesson = Lesson(number: int, info: string)

  /** The stored lesson text: the time label, a newline, then the cell text with each blank line collapsed. */
  function LessonInfo(timeLabel: string, text: string): string {
    timeLabel + "\n" + Join(Split(text, "\n\n"), "\n")
  }

  /** The stored text starts with the time label on a line of its own. */
  lemma LessonInfoLabelled(timeLabel: string, text: string)
    ensures StartsWith(LessonInfo(timeLabel, text), timeLabel + "\n")
  {
  }

  /** A cell text without blank lines is stored verbatim after its time label. */
  lemma LessonInfoVerbatim(timeLabel: string, text: string)
    requires !Contains(text, "\n\n")
    ensures LessonInfo(timeLabel, text) == timeLabel + "\n" + text
  {
    SplitWithoutSeparator(text, "\n\n");
  }

  /** Slot `j` of a column whose first slot sits in row `firstRow` holds a truthy value. */
  predicate SlotFilled(read: Coord -> Result<Value>, col: int, firstRow: int, j: int) {
    var v := read(Coord(firstRow + j, col));
    v.Ok? && Truthy(v.value)
  }

  /** `l` is what a filled text slot says: its number has a time label and its info is built from that slot's text. */
  predicate SlotReads(read: Coord -> Result<Value>, col: int, firstRow: int, times: seq<string>, l: Lesson) {
    && 0 <= l.number < |times|
    && var v := read(Coord(firstRow + l.number, col));
    && v.Ok? && v.value.Text? && v.value.s != ""
    && l.info == LessonInfo(times[l.number], v.value.s)
  }

  /**
   One slot: nothing for a falsy value; otherwise the time label (an
   `IndexError` past the end of the labels) and the text split on blank
   lines (an `AttributeError` for a number).
   */
  function SlotLesson(read: Coord -> Result<Value>, col: int, firstRow: int, times: seq<string>, j: int): Result<Option<Lesson>>
    requires 0 <= j
  {
    var v :- read(Coord(firstRow + j, col));
    if !Truthy(v) then Ok(None)
    else if j >= |times| then Err(NoTimeLabel(j))
    else if !v.Text? then Err(NotText(firstRow + j, col))
    else Ok(Some(Lesson(j, LessonInfo(times[j], v.s))))
  }

  /**
   A slot read without error yields a lesson exactly when it is filled, and
   the lesson is numbered by the slot and says what the slot says.
   */
  lemma SlotLessonSpec(read: Coord -> Result<Value>, col: int, firstRow: int, times: seq<string>, j: int)
    requires 0 <= j
    requires SlotLesson(read, col, firstRow, times, j).Ok?
    ensures var l := SlotLesson(read, col, firstRow, times, j).value;
      && (l.Some? <==> SlotFilled(read, col, firstRow, j))
      && (l.Some? ==> l.value.number == j && SlotReads(read, col, firstRow, times, l.value))
  {
  }

  /**
   Slot `j` gets through: it reads without error and, when the column's key
   is empty (`nullKey`), it holds no lesson, since writing one would break
   the NOT NULL constraint on the class letter.
   */
  predicate SlotAccepted(read: Coord -> Result<Value>, col: int, firstRow: int, times: seq<string>, j: int, nullKey: bool)
    requires 0 <= j
  {
    var s := SlotLesson(read, col, firstRow, times, j);
    s.Ok? && !(nullKey && s.value.Some?)
  }

  /**
   The lessons of slots `i..count-1` of a column, in slot order; the error
   of the first slot that does not get through otherwise.
   */
  function ColumnLessons(read: Coord -> Result<Value>, col: int, firstRow: int, times: seq<string>, nullKey: bool, count: int, i: nat): (r: Result<seq<Lesson>>)
    ensures r.Ok? ==> forall k :: 0 <= k < |r.value| ==> i <= r.value[k].number < count
    decreases count - i
  {
    if count <= i then Ok([])
    else
      var here :- SlotLesson(read, col, firstRow, times, i);
      if nullKey && here.Some? then Err(NullClassLetter)
      else
        var rest :- ColumnLessons(read, col, firstRow, times, nullKey, count, i + 1);
        Ok((if here.Some? then [here.value] else []) + rest)
  }

  /** A column's slots are read without error exactly when every one of them gets through. */
  lemma {:induction false} ColumnLessonsSucceed(read: Coord -> Result<Value>, col: int, firstRow: int, times: seq<string>, nullKey: bool, count: int, i: nat)
    ensures ColumnLessons(read, col, firstRow, times, nullKey, count, i).Ok? <==>
            forall j :: i <= j < count ==> SlotAccepted(read, col, firstRow, times, j, nullKey)
    decreases count - i
  {
    if i < count {
      ColumnLessonsSucceed(read, col, firstRow, times, nullKey, count, i + 1);
      if !SlotAccepted(read, col, firstRow, times, i, nullKey) {
        assert ColumnLessons(read, col, firstRow, times, nullKey, count, i).Err?;
      }
    }
  }

  /** Each lesson read from a column is what its slot says, and the lessons come in slot order. */
  lemma {:induction false} ColumnLessonsSound(read: Coord -> Result<Value>, col: int, firstRow: int, times: seq<string>, nullKey: bool, count: int, i: nat)
    requires ColumnLessons(read, col, firstRow, times, nullKey, count, i).Ok?
    ensures var ls := ColumnLessons(read, col, firstRow, times, nullKey, count, i).value;
      && (forall k :: 0 <= k < |ls| ==> SlotReads(read, col, firstRow, times, ls[k]))
      && (forall k, m :: 0 <= k < m < |ls| ==> ls[k].number < ls[m].number)
      && (nullKey ==> ls == [])
    decreases count - i
  {
    if i < count {
      SlotLessonSpec(read, col, firstRow, times, i);
      ColumnLessonsSound(read, col, firstRow, times, nullKey, count, i + 1);
    }
  }

  /** A column read from slot `i` is slot `i`'s lesson, if any, before the rest of the column. */
  lemma ColumnLessonsStep(read: Coord -> Result<Value>, col: int, firstRow: int, times: seq<string>, nullKey: bool, count: int, i: nat)
    requires i < count && ColumnLessons(read, col, firstRow, times, nullKey, count, i).Ok?
    ensures SlotLesson(read, col, firstRow, times, i).Ok?
    ensures ColumnLessons(read, col, firstRow, times, nullKey, count, i + 1).Ok?
    ensures var here := SlotLesson(read, col, firstRow, times, i).value;
      ColumnLessons(read, col, firstRow, times, nullKey, count, i).value ==
        (if here.Some? then [here.value] else []) + ColumnLessons(read, col, firstRow, times, nullKey, count, i + 1).value
  {
  }

  /** No filled slot of a column is missed. */
  lemma {:induction false} ColumnLessonsComplete(read: Coord -> Result<Value>, col: int, firstRow: int, times: seq<string>, nullKey: bool, count: int, i: nat, j: int)
    requires ColumnLessons(read, col, firstRow, times, nullKey, count, i).Ok?
    requires i <= j < count && SlotFilled(read, col, firstRow, j)
    ensures var ls := ColumnLessons(read, col, firstRow, times, nullKey, count, i).value;
      exists k :: 0 <= k < |ls| && ls[k].number == j
    decreases count - i
  {
    ColumnLessonsStep(read, col, firstRow, times, nullKey, count, i);
    var ls := ColumnLessons(read, col, firstRow, times, nullKey, count, i).value;
    var here := SlotLesson(read, col, firstRow, times, i).value;
    var rest := ColumnLessons(read, col, firstRow, times, nullKey, count, i + 1).value;
    var mine := if here.Some? then [here.value] else [];
    if j == i {
      SlotLessonSpec(read, col, firstRow, times, i);
      assert ls[0] == here.value;
    } else {
      ColumnLessonsComplete(read, col, firstRow, times, nullKey, count, i + 1, j);
      var k :| 0 <= k < |rest| && rest[k].number == j;
      assert ls[|mine| + k] == rest[k];
    }
  }

  /** The sub-group a regular column belongs to: `гр.А` is 0, `гр.Б` is 1 (Cyrillic letters). */
  function SubGroupIndex(marker: string): Result<int> {
    if marker == SubGroupMarkers[0] then Ok(0)
    else if marker == SubGroupMarkers[1] then Ok(1)
    else Err(UnknownSubGroup(marker))
  }

  /** The tuple `('гр.А', 'гр.Б')`, spelt with code points so no Latin letter can slip in. */
  const SubGroupMarkers: seq<string> := ["\U{0433}\U{0440}.\U{0410}", "\U{0433}\U{0440}.\U{0411}"]

  /** `tuple.index`: a marker is found exactly when it is one of the two, at its position in the tuple. */
  lemma SubGroupIndexSpec(marker: string)
    ensures SubGroupIndex(marker).Ok? <==> marker in SubGroupMarkers
    ensures SubGroupIndex(marker).Ok? ==> 0 <= SubGroupIndex(marker).value < 2 && SubGroupMarkers[SubGroupIndex(marker).value] == marker
  {
  }

  /** The sub-group row of a regular column: its text with all whitespace removed, looked up among the markers. */
  function SubGroup(v: Value, at: Coord): Result<int> {
    if v.Text? then SubGroupIndex(RemoveSpaces(v.s)) else Err(NotText(at.row, at.col))
  }

  /**
   What a `CharField` stores for a header value: the text itself, or the
   decimal form of a number. An empty header cannot be stored.
   */
  function StoredText(v: Value): string
    requires !v.Blank?
  {
    if v.Text? then v.s else IntToString(v.n)
  }

  /** A number header is stored as a numeral that `int()` reads back as the same number. */
  lemma StoredNumberReadsBack(n: int)
    ensures ParseInt(StoredText(Number(n))) == Some(n)
  {
    ParseIntToString(n);
  }

  /** The number of lesson slots below the header rows of a window. */
  function SlotCount(w: Window, headerRows: int): int {
    w.endRow - w.startRow + 1 - headerRows
  }

  /** Slot `j` below the `headerRows` header rows of column `col` of `w` is filled. */
  predicate FilledBelow(read: Coord -> Result<Value>, w: Window, headerRows: int, col: int, j: int) {
    SlotFilled(read, col, w.startRow + headerRows, j)
  }

  /** A column whose key is empty gets through only when none of its slots is filled. */
  lemma ColumnLessonsNullKey(read: Coord -> Result<Value>, col: int, firstRow: int, times: seq<string>, count: int, j: int)
    requires ColumnLessons(read, col, firstRow, times, true, count, 0).Ok?
    requires 0 <= j < count
    ensures !SlotFilled(read, col, firstRow, j)
  {
    ColumnLessonsSucceed(read, col, firstRow, times, true, count, 0);
    assert SlotAccepted(read, col, firstRow, times, j, true);
    SlotLessonSpec(read, col, firstRow, times, j);
  }

  // ---------------------------------------------------------------------------
  // Regular day

  /** `r` is a record that column `col` of a regular window produces. */
  predicate RegularFrom(read: Coord -> Result<Value>, date: ValidDate, times: seq<string>, w: Window, col: int, r: RegularRecord) {
    && w.startRow + 1 <= w.endRow
    && r.date == date
    && var key := read(Coord(w.startRow, col));
    && key.Ok? && !key.value.Blank? && r.classLetter == StoredText(key.value)
    && var marker := read(Coord(w.startRow + 1, col));
    && marker.Ok? && SubGroup(marker.value, Coord(w.startRow + 1, col)) == Ok(r.groupNumber)
    && r.lessonNumber < SlotCount(w, 2)
    && SlotReads(read, col, w.startRow + 2, times, Lesson(r.lessonNumber, r.lessonInfo))
  }

  function RegularRecords(lessons: seq<Lesson>, key: string, group: int, date: ValidDate): (rs: seq<RegularRecord>)
    ensures |rs| == |lessons|
    ensures forall k :: 0 <= k < |rs| ==> rs[k] == RegularRecord(lessons[k].number, lessons[k].info, key, group, date)
  {
    seq(|lessons|, k requires 0 <= k < |lessons| => RegularRecord(lessons[k].number, lessons[k].info, key, group, date))
  }

  /**
   One column of `regular_classes_schedule_parsing`: the class key in the
   first row, the sub-group marker in the second, lesson slots below.
   */
  function RegularColumn(read: Coord -> Result<Value>, date: ValidDate, times: seq<string>, w: Window, col: int): Result<seq<RegularRecord>> {
    if w.endRow < w.startRow then Err(MissingHeaderRow)
    else
      var key :- read(Coord(w.startRow, col));
      if w.endRow < w.startRow + 1 then Err(MissingHeaderRow)
      else
        var marker :- read(Coord(w.startRow + 1, col));
        var group :- SubGroup(marker, Coord(w.startRow + 1, col));
        var lessons :- ColumnLessons(read, col, w.startRow + 2, times, key.Blank?, SlotCount(w, 2), 0);
        if key.Blank? then Ok([])
        else Ok(RegularRecords(lessons, StoredText(key), group, date))
  }

  /**
   Every record of a regular column comes from the column's key, its
   sub-group row and one filled text slot, and the records follow slot order.
   */
  lemma RegularColumnSound(read: Coord -> Result<Value>, date: ValidDate, times: seq<string>, w: Window, col: int)
    requires RegularColumn(read, date, times, w, col).Ok?
    ensures var rs := RegularColumn(read, date, times, w, col).value;
      && (forall k :: 0 <= k < |rs| ==> RegularFrom(read, date, times, w, col, rs[k]))
      && (forall k, m :: 0 <= k < m < |rs| ==> rs[k].lessonNumber < rs[m].lessonNumber)
  {
    var key := read(Coord(w.startRow, col)).value;
    ColumnLessonsSound(read, col, w.startRow + 2, times, key.Blank?, SlotCount(w, 2), 0);
  }

  /** No filled slot of a regular column that reads without error is missed. */
  lemma RegularColumnComplete(read: Coord -> Result<Value>, date: ValidDate, times: seq<string>, w: Window, col: int, j: int)
    requires RegularColumn(read, date, times, w, col).Ok?
    requires 0 <= j < SlotCount(w, 2) && FilledBelow(read, w, 2, col, j)
    ensures exists r :: r in RegularColumn(read, date, times, w, col).value && r.lessonNumber == j
  {
    var rs := RegularColumn(read, date, times, w, col).value;
    var key := read(Coord(w.startRow, col)).value;
    var lessons := ColumnLessons(read, col, w.startRow + 2, times, key.Blank?, SlotCount(w, 2), 0).value;
    if key.Blank? {
      ColumnLessonsNullKey(read, col, w.startRow + 2, times, SlotCount(w, 2), j);
      assert false;
    }
    ColumnLessonsComplete(read, col, w.startRow + 2, times, false, SlotCount(w, 2), 0, j);
    var k :| 0 <= k < |lessons| && lessons[k].number == j;
    assert rs[k] in rs;
  }

  /** A column headed by an empty cell gets through only when it holds no lesson; it stores nothing. */
  lemma RegularColumnEmptyKey(read: Coord -> Result<Value>, date: ValidDate, times: seq<string>, w: Window, col: int, j: int)
    requires RegularColumn(read, date, times, w, col).Ok?
    requires read(Coord(w.startRow, col)) == Ok(Blank)
    requires 0 <= j < SlotCount(w, 2)
    ensures RegularColumn(read, date, times, w, col).value == []
    ensures !FilledBelow(read, w, 2, col, j)
  {
    ColumnLessonsNullKey(read, col, w.startRow + 2, times, SlotCount(w, 2), j);
  }

  function RegularColumns(read: Coord -> Result<Value>, date: ValidDate, times: seq<string>, w: Window): int -> Result<seq<RegularRecord>> {
    c => RegularColumn(read, date, times, w, c)
  }

  /** `regular_classes_schedule_parsing`: the columns' records in column order. */
  function RegularScan(read: Coord -> Result<Value>, date: ValidDate, times: seq<string>, w: Window): Result<seq<RegularRecord>>
    requires Addressable(w)
  {
    ConcatScan(RegularColumns(read, date, times, w), w.startCol, w.endCol)
  }

  /** The regular scan gets through exactly when each of its columns does. */
  lemma RegularScanSucceeds(read: Coord -> Result<Value>, date: ValidDate, times: seq<string>, w: Window)
    requires Addressable(w)
    ensures RegularScan(read, date, times, w).Ok? <==>
            forall c :: w.startCol <= c <= w.endCol ==> RegularColumn(read, date, times, w, c).Ok?
  {
    var column := RegularColumns(read, date, times, w);
    ConcatScanSucceeds(column, w.startCol, w.endCol);
    assert forall c :: column(c) == RegularColumn(read, date, times, w, c);
  }

  /** Every record of a regular scan comes from one column of the window. */
  lemma RegularScanSound(read: Coord -> Result<Value>, date: ValidDate, times: seq<string>, w: Window)
    requires Addressable(w) && RegularScan(read, date, times, w).Ok?
    ensures forall r :: r in RegularScan(read, date, times, w).value ==>
              exists c :: w.startCol <= c <= w.endCol && RegularFrom(read, date, times, w, c, r)
  {
    ConcatScanSound(RegularColumns(read, date, times, w), w.startCol, w.endCol);
    forall r | r in RegularScan(read, date, times, w).value
      ensures exists c :: w.startCol <= c <= w.endCol && RegularFrom(read, date, times, w, c, r)
    {
      var c :| w.startCol <= c <= w.endCol && RegularColumn(read, date, times, w, c).Ok? && r in RegularColumn(read, date, times, w, c).value;
      var rs := RegularColumn(read, date, times, w, c).value;
      RegularColumnSound(read, date, times, w, c);
      var k :| 0 <= k < |rs| && rs[k] == r;
    }
  }

  /** Every filled slot of every column of the window has its record in a regular scan. */
  lemma RegularScanComplete(read: Coord -> Result<Value>, date: ValidDate, times: seq<string>, w: Window, c: int, j: int)
    requires Addressable(w) && RegularScan(read, date, times, w).Ok?
    requires w.startCol <= c <= w.endCol
    requires 0 <= j < SlotCount(w, 2) && FilledBelow(read, w, 2, c, j)
    ensures exists r :: r in RegularScan(read, date, times, w).value && r.lessonNumber == j && RegularFrom(read, date, times, w, c, r)
  {
    ConcatScanComplete(RegularColumns(read, date, times, w), w.startCol, w.endCol, c);
    var rs := RegularColumn(read, date, times, w, c).value;
    RegularColumnSound(read, date, times, w, c);
    RegularColumnComplete(read, date, times, w, c, j);
    var r :| r in rs && r.lessonNumber == j;
    var k :| 0 <= k < |rs| && rs[k] == r;
    assert r in RegularScan(read, date, times, w).value;
  }

  // ---------------------------------------------------------------------------
  // University day: a lesson slot under a single header row

  /** Lesson `lessonNumber` with text `lessonInfo` is what slot `lessonNumber` of column `col` says, under a single header row. */
  predicate UdaySlot(read: Coord -> Result<Value>, times: seq<string>, w: Window, col: int, lessonNumber: int, lessonInfo: string) {
    && lessonNumber < SlotCount(w, 1)
    && SlotReads(read, col, w.startRow + 1, times, Lesson(lessonNumber, lessonInfo))
  }

  // ---------------------------------------------------------------------------
  // University day, groups
  /** The group number heading a university-day column: the first word of its text, as an integer. */
  function GroupHeader(v: Value, at: Coord): Result<int> {
    if !v.Text? then Err(NotText(at.row, at.col))
    else
      var ws := Words(v.s);
      if |ws| == 0 then Err(NoHeaderToken)
      else match ParseInt(ws[0])
        case None => Err(NotAnInteger(ws[0]))
        case Some(g) => Ok(g)
  }

  /** A header is read exactly when it is text whose first word is an integer literal, and it names that integer. */
  lemma GroupHeaderSpec(v: Value, at: Coord)
    ensures GroupHeader(v, at).Ok? <==> v.Text? && |Words(v.s)| > 0 && ParseInt(Words(v.s)[0]).Some?
    ensures GroupHeader(v, at).Ok? ==> ParseInt(Words(v.s)[0]) == Some(GroupHeader(v, at).value)
  {
  }

  /** A header such as "3 группа" names group 3: the first word is read, the rest ignored. */
  lemma GroupHeaderReadsFirstWord(n: nat, rest: string)
    ensures GroupHeader(Text(NatToString(n) + " " + rest), Coord(1, 1)) == Ok(n)
  {
    var s := NatToString(n) + " " + rest;
    var d := NatToString(n);
    ParseIntToString(n);
    assert IntToString(n) == d;
    assert forall i :: 0 <= i < |d| ==> !IsSpace(d[i]) by {
      forall i | 0 <= i < |d| ensures !IsSpace(d[i]) {
        DigitIsNotSpace(d[i]);
      }
    }
    WordsOfLeadingWord(d, rest);
  }

  /** The header of column `col`, read and parsed. */
  function ColumnGroup(read: Coord -> Result<Value>, row: int, col: int): Result<int> {
    var v :- read(Coord(row, col));
    GroupHeader(v, Coord(row, col))
  }


  /** The key the group scanner reads from column `c`: the parsed header; a window without rows has no header to read. */
  function GroupKey(read: Coord -> Result<Value>, w: Window, c: int): Result<int> {
    if w.endRow < w.startRow then Err(MissingHeaderRow) else ColumnGroup(read, w.startRow, c)
  }

  function GroupKeys(read: Coord -> Result<Value>, w: Window): int -> Result<int> {
    c => GroupKey(read, w, c)
  }

  /** Column `col` is the first in the window headed by group `g`: its lessons are the ones stored for `g`. */
  predicate FirstGroupColumn(read: Coord -> Result<Value>, w: Window, col: int, g: int) {
    FirstKeyed(GroupKeys(read, w), w.startCol, w.endCol, col, g)
  }

  /** `r` is a record that column `col` of a university-day group window produces. */
  predicate UdayFrom(read: Coord -> Result<Value>, date: ValidDate, times: seq<string>, w: Window, col: int, r: UdayRecord) {
    && r.date == date
    && FirstGroupColumn(read, w, col, r.groupNumber)
    && UdaySlot(read, times, w, col, r.lessonNumber, r.lessonInfo)
  }

  function UdayRecords(lessons: seq<Lesson>, group: int, date: ValidDate): (rs: seq<UdayRecord>)
    ensures |rs| == |lessons|
    ensures forall k :: 0 <= k < |rs| ==> rs[k] == UdayRecord(lessons[k].number, lessons[k].info, group, date)
  {
    seq(|lessons|, k requires 0 <= k < |lessons| => UdayRecord(lessons[k].number, lessons[k].info, group, date))
  }

  /** The lesson slots of one university-day group column, stored for group `g`. */
  function UdayGroupColumn(read: Coord -> Result<Value>, date: ValidDate, times: seq<string>, w: Window, col: int, g: int): Result<seq<UdayRecord>> {
    var lessons :- ColumnLessons(read, col, w.startRow + 1, times, false, SlotCount(w, 1), 0);
    Ok(UdayRecords(lessons, g, date))
  }

  /** Each record of a group column is stored for the group on the import date, as its slot says, in slot order. */
  lemma UdayGroupColumnSound(read: Coord -> Result<Value>, date: ValidDate, times: seq<string>, w: Window, col: int, g: int)
    requires UdayGroupColumn(read, date, times, w, col, g).Ok?
    ensures var rs := UdayGroupColumn(read, date, times, w, col, g).value;
      && (forall k :: 0 <= k < |rs| ==> rs[k].date == date && rs[k].groupNumber == g)
      && (forall k :: 0 <= k < |rs| ==> UdaySlot(read, times, w, col, rs[k].lessonNumber, rs[k].lessonInfo))
      && (forall k, m :: 0 <= k < m < |rs| ==> rs[k].lessonNumber < rs[m].lessonNumber)
  {
    ColumnLessonsSound(read, col, w.startRow + 1, times, false, SlotCount(w, 1), 0);
  }

  /** No filled slot of a group column is missed. */
  lemma UdayGroupColumnComplete(read: Coord -> Result<Value>, date: ValidDate, times: seq<string>, w: Window, col: int, g: int, j: int)
    requires UdayGroupColumn(read, date, times, w, col, g).Ok?
    requires 0 <= j < SlotCount(w, 1) && FilledBelow(read, w, 1, col, j)
    ensures exists r :: r in UdayGroupColumn(read, date, times, w, col, g).value && r.lessonNumber == j
  {
    var rs := UdayGroupColumn(read, date, times, w, col, g).value;
    var lessons := ColumnLessons(read, col, w.startRow + 1, times, false, SlotCount(w, 1), 0).value;
    ColumnLessonsComplete(read, col, w.startRow + 1, times, false, SlotCount(w, 1), 0, j);
    var k :| 0 <= k < |lessons| && lessons[k].number == j;
    assert rs[k] in rs;
  }

  function GroupColumns(read: Coord -> Result<Value>, date: ValidDate, times: seq<string>, w: Window): (int, int) -> Result<seq<UdayRecord>> {
    (c, g) => UdayGroupColumn(read, date, times, w, c, g)
  }

  /**
   `uday_groups_schedule_parsing`: a column whose group an earlier column
   already had (the `done` set) is skipped without reading its slots.
   */
  function UdayGroupsScan(read: Coord -> Result<Value>, date: ValidDate, times: seq<string>, w: Window): Result<seq<UdayRecord>>
    requires Addressable(w)
  {
    DedupScan(GroupKeys(read, w), GroupColumns(read, date, times, w), w.startCol, w.endCol, {})
  }

  /**
   The group scan gets through exactly when every header of the window
   parses and every column that is the first with its group reads.
   */
  lemma UdayGroupsScanSucceeds(read: Coord -> Result<Value>, date: ValidDate, times: seq<string>, w: Window)
    requires Addressable(w)
    ensures UdayGroupsScan(read, date, times, w).Ok? <==>
            forall c :: w.startCol <= c <= w.endCol ==>
              && GroupKey(read, w, c).Ok?
              && (FirstGroupColumn(read, w, c, GroupKey(read, w, c).value) ==> UdayGroupColumn(read, date, times, w, c, GroupKey(read, w, c).value).Ok?)
  {
    var key, column := GroupKeys(read, w), GroupColumns(read, date, times, w);
    DedupScanSucceeds(key, column, w.startCol, w.startCol, w.endCol, {});
    forall c | w.startCol <= c <= w.endCol
      ensures ColumnReads(key, column, w.startCol, w.endCol, c) <==>
              GroupKey(read, w, c).Ok? && (FirstGroupColumn(read, w, c, GroupKey(read, w, c).value) ==> UdayGroupColumn(read, date, times, w, c, GroupKey(read, w, c).value).Ok?)
    {
      assert key(c) == GroupKey(read, w, c);
    }
  }

  /**
   Every university-day group record comes from the first column headed by
   its group, from a filled text slot of that column.
   */
  lemma UdayGroupsScanSound(read: Coord -> Result<Value>, date: ValidDate, times: seq<string>, w: Window)
    requires Addressable(w) && UdayGroupsScan(read, date, times, w).Ok?
    ensures forall r :: r in UdayGroupsScan(read, date, times, w).value ==> exists c :: UdayFrom(read, date, times, w, c, r)
  {
    var key, column := GroupKeys(read, w), GroupColumns(read, date, times, w);
    DedupScanSound(key, column, w.startCol, w.startCol, w.endCol, {});
    forall r | r in UdayGroupsScan(read, date, times, w).value
      ensures exists c :: UdayFrom(read, date, times, w, c, r)
    {
      var c, g :| w.startCol <= c && FirstKeyed(key, w.startCol, w.endCol, c, g) && column(c, g).Ok? && r in column(c, g).value;
      var rs := UdayGroupColumn(read, date, times, w, c, g).value;
      UdayGroupColumnSound(read, date, times, w, c, g);
      var k :| 0 <= k < |rs| && rs[k] == r;
      assert UdayFrom(read, date, times, w, c, r);
    }
  }

  /** Every filled slot of the first column headed by a group is stored for that group. */
  lemma UdayGroupsScanComplete(read: Coord -> Result<Value>, date: ValidDate, times: seq<string>, w: Window, c: int, g: int, j: int)
    requires Addressable(w) && UdayGroupsScan(read, date, times, w).Ok?
    requires FirstGroupColumn(read, w, c, g)
    requires 0 <= j < SlotCount(w, 1) && FilledBelow(read, w, 1, c, j)
    ensures exists r :: r in UdayGroupsScan(read, date, times, w).value && r.groupNumber == g && r.lessonNumber == j
  {
    DedupScanComplete(GroupKeys(read, w), GroupColumns(read, date, times, w), w.startCol, w.startCol, w.endCol, {}, c, g);
    var rs := UdayGroupColumn(read, date, times, w, c, g).value;
    UdayGroupColumnSound(read, date, times, w, c, g);
    UdayGroupColumnComplete(read, date, times, w, c, g, j);
    var r :| r in rs && r.lessonNumber == j;
    var k :| 0 <= k < |rs| && rs[k] == r;
    assert r in UdayGroupsScan(read, date, times, w).value;
  }

  /** No group gets two lessons with the same number: within a group the lessons come in increasing slot order. */
  lemma UdayGroupsScanUnique(read: Coord -> Result<Value>, date: ValidDate, times: seq<string>, w: Window)
    requires Addressable(w) && UdayGroupsScan(read, date, times, w).Ok?
    ensures var rs := UdayGroupsScan(read, date, times, w).value;
      forall i, j :: 0 <= i < j < |rs| && rs[i].groupNumber == rs[j].groupNumber ==> rs[i].lessonNumber < rs[j].lessonNumber
  {
    var key, column := GroupKeys(read, w), GroupColumns(read, date, times, w);
    var tag := (r: UdayRecord) => r.groupNumber;
    var num := (r: UdayRecord) => r.lessonNumber;
    forall c | w.startCol <= c <= w.endCol && key(c).Ok? && column(c, key(c).value).Ok?
      ensures TaggedAscending(column(c, key(c).value).value, tag, num, key(c).value)
    {
      UdayGroupColumnSound(read, date, times, w, c, key(c).value);
    }
    DedupScanOrdered(key, column, tag, num, w.startCol, w.endCol, {});
  }

  // ---------------------------------------------------------------------------
  // University day, classes

  /** The key the class scanner reads from column `c`: the raw header value. */
  function ClassKey(read: Coord -> Result<Value>, w: Window, c: int): Result<Value> {
    if w.endRow < w.startRow then Err(MissingHeaderRow) else read(Coord(w.startRow, c))
  }

  function ClassKeys(read: Coord -> Result<Value>, w: Window): int -> Result<Value> {
    c => ClassKey(read, w, c)
  }

  /** Column `col` is the first in the window whose header is `key`. */
  predicate FirstClassColumn(read: Coord -> Result<Value>, w: Window, col: int, key: Value) {
    FirstKeyed(ClassKeys(read, w), w.startCol, w.endCol, col, key)
  }

  /** `r` is a record that column `col` of a university-day class window produces. */
  predicate UdayClassFrom(read: Coord -> Result<Value>, date: ValidDate, times: seq<string>, w: Window, col: int, r: RegularRecord) {
    && r.date == date
    && r.groupNumber == 0
    && var key := ClassKey(read, w, col);
    && key.Ok? && !key.value.Blank? && r.classLetter == StoredText(key.value)
    && FirstClassColumn(read, w, col, key.value)
    && UdaySlot(read, times, w, col, r.lessonNumber, r.lessonInfo)
  }

  /** The lesson slots of one university-day class column; a lesson under an empty header cannot be stored. */
  function UdayClassColumn(read: Coord -> Result<Value>, date: ValidDate, times: seq<string>, w: Window, col: int, key: Value): Result<seq<RegularRecord>> {
    var lessons :- ColumnLessons(read, col, w.startRow + 1, times, key.Blank?, SlotCount(w, 1), 0);
    if key.Blank? then Ok([])
    else Ok(RegularRecords(lessons, StoredText(key), 0, date))
  }

  /** Each record of a class column is stored under its header with sub-group 0, as its slot says, in slot order. */
  lemma UdayClassColumnSound(read: Coord -> Result<Value>, date: ValidDate, times: seq<string>, w: Window, col: int, key: Value)
    requires UdayClassColumn(read, date, times, w, col, key).Ok?
    ensures var rs := UdayClassColumn(read, date, times, w, col, key).value;
      && (forall k :: 0 <= k < |rs| ==> rs[k].date == date && rs[k].groupNumber == 0)
      && (forall k :: 0 <= k < |rs| ==> !key.Blank? && rs[k].classLetter == StoredText(key))
      && (forall k :: 0 <= k < |rs| ==> UdaySlot(read, times, w, col, rs[k].lessonNumber, rs[k].lessonInfo))
      && (forall k, m :: 0 <= k < m < |rs| ==> rs[k].lessonNumber < rs[m].lessonNumber)
  {
    ColumnLessonsSound(read, col, w.startRow + 1, times, key.Blank?, SlotCount(w, 1), 0);
  }

  /** No filled slot of a class column that reads without error is missed; under an empty header none is filled. */
  lemma UdayClassColumnComplete(read: Coord -> Result<Value>, date: ValidDate, times: seq<string>, w: Window, col: int, key: Value, j: int)
    requires UdayClassColumn(read, date, times, w, col, key).Ok?
    requires 0 <= j < SlotCount(w, 1) && FilledBelow(read, w, 1, col, j)
    ensures !key.Blank?
    ensures exists r :: r in UdayClassColumn(read, date, times, w, col, key).value && r.lessonNumber == j
  {
    var rs := UdayClassColumn(read, date, times, w, col, key).value;
    var lessons := ColumnLessons(read, col, w.startRow + 1, times, key.Blank?, SlotCount(w, 1), 0).value;
    if key.Blank? {
      ColumnLessonsNullKey(read, col, w.startRow + 1, times, SlotCount(w, 1), j);
      assert false;
    }
    ColumnLessonsComplete(read, col, w.startRow + 1, times, false, SlotCount(w, 1), 0, j);
    var k :| 0 <= k < |lessons| && lessons[k].number == j;
    assert rs[k] in rs;
  }

  function ClassColumns(read: Coord -> Result<Value>, date: ValidDate, times: seq<string>, w: Window): (int, Value) -> Result<seq<RegularRecord>> {
    (c, key) => UdayClassColumn(read, date, times, w, c, key)
  }

  /**
   `uday_classes_schedule_parsing`: like the group scan, but keyed by the
   raw header value, and the records go to the regular table with
   sub-group 0.
   */
  function UdayClassesScan(read: Coord -> Result<Value>, date: ValidDate, times: seq<string>, w: Window): Result<seq<RegularRecord>>
    requires Addressable(w)
  {
    DedupScan(ClassKeys(read, w), ClassColumns(read, date, times, w), w.startCol, w.endCol, {})
  }

  /**
   The class scan gets through exactly when every header of the window
   reads and every column that is the first with its header reads.
   */
  lemma UdayClassesScanSucceeds(read: Coord -> Result<Value>, date: ValidDate, times: seq<string>, w: Window)
    requires Addressable(w)
    ensures UdayClassesScan(read, date, times, w).Ok? <==>
            forall c :: w.startCol <= c <= w.endCol ==>
              && ClassKey(read, w, c).Ok?
              && (FirstClassColumn(read, w, c, ClassKey(read, w, c).value) ==> UdayClassColumn(read, date, times, w, c, ClassKey(read, w, c).value).Ok?)
  {
    var key, column := ClassKeys(read, w), ClassColumns(read, date, times, w);
    DedupScanSucceeds(key, column, w.startCol, w.startCol, w.endCol, {});
    forall c | w.startCol <= c <= w.endCol
      ensures ColumnReads(key, column, w.startCol, w.endCol, c) <==>
              ClassKey(read, w, c).Ok? && (FirstClassColumn(read, w, c, ClassKey(read, w, c).value) ==> UdayClassColumn(read, date, times, w, c, ClassKey(read, w, c).value).Ok?)
    {
      assert key(c) == ClassKey(read, w, c);
    }
  }

  /**
   Every university-day class record comes from the first column with its
   header, from a filled text slot of that column.
   */
  lemma UdayClassesScanSound(read: Coord -> Result<Value>, date: ValidDate, times: seq<string>, w: Window)
    requires Addressable(w) && UdayClassesScan(read, date, times, w).Ok?
    ensures forall r :: r in UdayClassesScan(read, date, times, w).value ==> exists c :: UdayClassFrom(read, date, times, w, c, r)
  {
    var key, column := ClassKeys(read, w), ClassColumns(read, date, times, w);
    DedupScanSound(key, column, w.startCol, w.startCol, w.endCol, {});
    forall r | r in UdayClassesScan(read, date, times, w).value
      ensures exists c :: UdayClassFrom(read, date, times, w, c, r)
    {
      var c, v :| w.startCol <= c && FirstKeyed(key, w.startCol, w.endCol, c, v) && column(c, v).Ok? && r in column(c, v).value;
      var rs := UdayClassColumn(read, date, times, w, c, v).value;
      UdayClassColumnSound(read, date, times, w, c, v);
      var k :| 0 <= k < |rs| && rs[k] == r;
      assert UdayClassFrom(read, date, times, w, c, r);
    }
  }

  /** Every filled slot of the first column with a given header is stored under that header. */
  lemma UdayClassesScanComplete(read: Coord -> Result<Value>, date: ValidDate, times: seq<string>, w: Window, c: int, key: Value, j: int)
    requires Addressable(w) && UdayClassesScan(read, date, times, w).Ok?
    requires FirstClassColumn(read, w, c, key)
    requires 0 <= j < SlotCount(w, 1) && FilledBelow(read, w, 1, c, j)
    ensures !key.Blank?
    ensures exists r :: r in UdayClassesScan(read, date, times, w).value && r.classLetter == StoredText(key) && r.lessonNumber == j
  {
    DedupScanComplete(ClassKeys(read, w), ClassColumns(read, date, times, w), w.startCol, w.startCol, w.endCol, {}, c, key);
    var rs := UdayClassColumn(read, date, times, w, c, key).value;
    UdayClassColumnSound(read, date, times, w, c, key);
    UdayClassColumnComplete(read, date, times, w, c, key, j);
    var r :| r in rs && r.lessonNumber == j;
    var k :| 0 <= k < |rs| && rs[k] == r;
    assert r in UdayClassesScan(read, date, times, w).value;
  }

  /**
   When no header of the window is a number, no class gets two lessons
   with the same number. (A text header "10" and a number header 10 are
   different keys but are stored under the same class text.)
   */
  lemma UdayClassesScanUnique(read: Coord -> Result<Value>, date: ValidDate, times: seq<string>, w: Window)
    requires Addressable(w) && UdayClassesScan(read, date, times, w).Ok?
    requires forall c :: w.startCol <= c <= w.endCol ==> !read(Coord(w.startRow, c)).Ok? || !read(Coord(w.startRow, c)).value.Number?
    ensures var rs := UdayClassesScan(read, date, times, w).value;
      forall i, j :: 0 <= i < j < |rs| && rs[i].classLetter == rs[j].classLetter ==> rs[i].lessonNumber < rs[j].lessonNumber
  {
    var key, column := ClassKeys(read, w), ClassColumns(read, date, times, w);
    var tag := (r: RegularRecord) => Text(r.classLetter);
    var num := (r: RegularRecord) => r.lessonNumber;
    forall c | w.startCol <= c <= w.endCol && key(c).Ok? && column(c, key(c).value).Ok?
      ensures TaggedAscending(column(c, key(c).value).value, tag, num, key(c).value)
    {
      UdayClassColumnSound(read, date, times, w, c, key(c).value);
    }
    DedupScanOrdered(key, column, tag, num, w.startCol, w.endCol, {});
  }
}
