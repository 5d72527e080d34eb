/**
 The failure vocabulary shared by every module of the model.

 The repository signals every problem with a Python exception; here each
 exception the schedule engine can meet becomes one constructor of `Error`,
 and operations that can raise return a `Result`.
 */
module Outcomes {

  datatype Option<+T> = None | Some(value: T)

  /** The exceptions the spreadsheet engine can run into. */
  datatype Error =
    | NoMergedRange(row: int, col: int)   // a merged cell no merged range covers: the anchor lookup raises
    | NotText(row: int, col: int)         // `.split` / `.replace` applied to a value that is not a string
    | UnknownSubGroup(marker: string)     // `tuple.index` finds no such sub-group marker
    | NoHeaderToken                       // `split()[0]` of a header with no words
    | NotAnInteger(token: string)         // `int(...)` of text that is not a decimal literal
    | NoTimeLabel(slot: int)              // `times_list[i]` past the end of the time labels
    | NullClassLetter                     // a lesson row whose class key is empty violates NOT NULL
    | MissingHeaderRow                    // the window has no row for a header (`col[1]` raises)
    | NoLessonCount                       // `max()` of an empty list of lesson numbers
    | NoSuchSheet(index: int)             // `workbook.worksheets[k]` past the last sheet

  datatype Result<+T> = Ok(value: T) | Err(error: Error) {
    predicate IsFailure() {
      Err?
    }

    function PropagateFailure<U>(): Result<U>
      requires Err?
    {
      Err(error)
    }

    function Extract(): T
      requires Ok?
    {
      value
    }
  }
}
