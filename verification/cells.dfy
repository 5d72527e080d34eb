/**
 Worksheets and the cell reader (`parent_of_merged_cell`, `cell_value`).

 A worksheet is a finite map from coordinates to cells plus its ordered list
 of merged ranges. A coordinate the map lacks is an empty plain cell, which
 is what openpyxl hands back for a cell nobody wrote. Inside a merged range
 only the anchor (top-left) cell holds a value; every other cell of the range
 is a `Merged` placeholder whose value is read from the anchor.
 */
module Cells {
  import opened Outcomes
  import opened Text

  /** A stored cell value: nothing, a string, or a whole number. */
  datatype Value = Blank | Text(s: string) | Number(n: int)

  /** Python truthiness of a cell value: `None`, `''` and `0` are false. */
  predicate Truthy(v: Value) {
    match v
    case Blank => false
    case Text(s) => s != ""
    case Number(n) => n != 0
  }

  /** Python's `str(value)`: `None` prints as the word None. */
  function Str(v: Value): string {
    match v
    case Blank => "None"
    case Text(s) => s
    case Number(n) => IntToString(n)
  }

  /** A 1-based (row, column) position. */
  datatype Coord = Coord(row: int, col: int)

  datatype Cell = Plain(value: Value) | Merged

  /** A merged range: rows minRow..maxRow and columns minCol..maxCol, both inclusive. */
  datatype CellRange = CellRange(minRow: int, minCol: int, maxRow: int, maxCol: int) {
    /** openpyxl's `coord in range`. */
    predicate Covers(c: Coord) {
      minRow <= c.row <= maxRow && minCol <= c.col <= maxCol
    }

    /** The range's anchor, `range.start_cell`. */
    function Start(): Coord {
      Coord(minRow, minCol)
    }
  }

  /**
   A worksheet: its tab title, its cells, its merged ranges in the order the
   sheet lists them, and `max_row`, the last row of its used area, which
   bounds what a whole-column read such as `sheet['C']` returns.
   */
  datatype Sheet = Sheet(title: string, cells: map<Coord, Cell>, merged: seq<CellRange>, maxRow: int)

  /** A workbook is its worksheets in tab order. */
  type Workbook = seq<Sheet>

  function SheetNames(book: Workbook): (names: seq<string>)
    ensures |names| == |book|
    ensures forall i :: 0 <= i < |book| ==> names[i] == book[i].title
  {
    if |book| == 0 then [] else [book[0].title] + SheetNames(book[1..])
  }

  /** The cell at a coordinate; an unwritten one is an empty plain cell. */
  function CellAt(sheet: Sheet, c: Coord): Cell {
    if c in sheet.cells then sheet.cells[c] else Plain(Blank)
  }

  /** The index of the first range in `ranges[from..]` that covers `c`, if any. */
  function FirstCovering(ranges: seq<CellRange>, c: Coord, from: nat): (k: Option<nat>)
    requires from <= |ranges|
    ensures k.Some? ==> from <= k.value < |ranges| && ranges[k.value].Covers(c)
    ensures k.Some? ==> forall j :: from <= j < k.value ==> !ranges[j].Covers(c)
    ensures k.None? ==> forall j :: from <= j < |ranges| ==> !ranges[j].Covers(c)
    decreases |ranges| - from
  {
    if from == |ranges| then None
    else if ranges[from].Covers(c) then Some(from)
    else FirstCovering(ranges, c, from + 1)
  }

  /**
   `parent_of_merged_cell`: the anchor of the first merged range of the
   sheet that covers `c`; `None` when no range does (Python returns `None`).
   */
  function ParentOfMergedCell(sheet: Sheet, c: Coord): (p: Option<Coord>)
    ensures p.None? <==> forall j :: 0 <= j < |sheet.merged| ==> !sheet.merged[j].Covers(c)
    ensures p.Some? ==> exists k :: 0 <= k < |sheet.merged| && sheet.merged[k].Covers(c) && p.value == sheet.merged[k].Start() &&
                                    forall j :: 0 <= j < k ==> !sheet.merged[j].Covers(c)
  {
    match FirstCovering(sheet.merged, c, 0)
    case None => None
    case Some(k) => Some(sheet.merged[k].Start())
  }

  /**
   `cell_value`: a plain cell yields its own value; a merged cell yields the
   value of the anchor of the first range covering it. A merged placeholder
   that no range covers makes the anchor lookup `sheet[None]` raise.
   */
  function CellValue(sheet: Sheet, c: Coord): Result<Value> {
    match CellAt(sheet, c)
    case Plain(v) => Ok(v)
    case Merged =>
      match ParentOfMergedCell(sheet, c)
      case None => Err(NoMergedRange(c.row, c.col))
      case Some(anchor) =>
        // the anchor of a range is an ordinary cell in openpyxl; a placeholder there reads as None
        Ok(match CellAt(sheet, anchor) case Plain(v) => v case Merged => Blank)
  }

  /**
   The layout openpyxl maintains: merged ranges do not overlap, each range's
   anchor is a plain cell and every other cell of a range is a placeholder.
   */
  ghost predicate WellFormed(sheet: Sheet) {
    && (forall i, j :: 0 <= i < j < |sheet.merged| ==> Disjoint(sheet.merged[i], sheet.merged[j]))
    && (forall i :: 0 <= i < |sheet.merged| ==> CellAt(sheet, sheet.merged[i].Start()).Plain?)
    && (forall i, c :: 0 <= i < |sheet.merged| && sheet.merged[i].Covers(c) && c != sheet.merged[i].Start()
          ==> CellAt(sheet, c) == Merged)
  }

  ghost predicate Disjoint(a: CellRange, b: CellRange) {
    forall c: Coord :: !(a.Covers(c) && b.Covers(c))
  }

  /** A plain cell reads as its own value, whatever the merged ranges say. */
  lemma PlainCellValue(sheet: Sheet, c: Coord)
    requires CellAt(sheet, c).Plain?
    ensures CellValue(sheet, c) == Ok(CellAt(sheet, c).value)
  {
  }

  /**
   A merged placeholder reads as the anchor of the FIRST covering range,
   even when later ranges also cover it.
   */
  lemma {:induction false} MergedReadsFirstAnchor(sheet: Sheet, c: Coord, k: nat)
    requires CellAt(sheet, c) == Merged
    requires k < |sheet.merged| && sheet.merged[k].Covers(c)
    requires forall j :: 0 <= j < k ==> !sheet.merged[j].Covers(c)
    ensures CellValue(sheet, c) == Ok(match CellAt(sheet, sheet.merged[k].Start()) case Plain(v) => v case Merged => Blank)
  {
    var f := FirstCovering(sheet.merged, c, 0);
    assert f == Some(k);
  }

  /**
   On a well-formed sheet every cell of a merged range reads the same as the
   range's anchor, namely the anchor's own value.
   */
  lemma {:induction false} MergedRangeReadsAsAnchor(sheet: Sheet, k: nat, c: Coord)
    requires WellFormed(sheet)
    requires k < |sheet.merged| && sheet.merged[k].Covers(c)
    ensures CellValue(sheet, c) == CellValue(sheet, sheet.merged[k].Start())
    ensures CellValue(sheet, c) == Ok(CellAt(sheet, sheet.merged[k].Start()).value)
  {
    var anchor := sheet.merged[k].Start();
    if c != anchor {
      forall j | 0 <= j < k
        ensures !sheet.merged[j].Covers(c)
      {
        assert Disjoint(sheet.merged[j], sheet.merged[k]);
      }
      MergedReadsFirstAnchor(sheet, c, k);
    }
  }
}
