# School schedule bot: a Dafny model

This is a model of the core of a Telegram bot for a lyceum. The bot imports the daily lesson schedule from an uploaded
Excel workbook and stores it in three tables: regular lessons, university-day lessons, and subscribers. It answers
"today" and "tomorrow" schedule requests, walks new users through choosing their class, sub-group and university-day
group, and notifies subscribers. The whole core is in `bot.py`.

The model is pure functions over immutable data:

- **`Cells`**: a worksheet is a map from coordinates to cells, plus its ordered list of merged ranges.
  `parent_of_merged_cell` and `cell_value` resolve a merged placeholder to the anchor of the first range that covers it.
- **`Columns` and `Scan`**: the three column scanners, built on two generic column walks.
  - One walk concatenates every column.
  - The other skips columns whose key it has already seen.
- **`Dates`**: the proleptic Gregorian calendar, with Python's `toordinal` and `weekday`. It also parses the upload's
  file name the way `strptime("%d.%m%Y")` does.
- **`Records`**: the three tables as sequences in insertion order, and the filters and deletions the bot runs on them.
- **`Import`**, for `main_schedule_parse`:
  - date from the file name;
  - purge of rows older than two days before today;
  - replacement of an already imported date, triggered by the regular table only;
  - sheet discovery by title;
  - per-grade dispatch on the weekday: grade 10's university day is Monday (weekday 0), grade 11's is Wednesday (weekday 2);
  - rollback of the date when a grade fails;
  - the notification to every subscriber.
- **`Query`**, for the `get_schedule` callback:
  - the university-day flag and the forced sub-group 0;
  - the university-day text first;
  - the "not yet added" edit, with its comparison against the shown date.
- **`Onboarding`**: the `class_letter`, `class_group` and `univer_group` callbacks, with their keyboards.
- **`Broadcast`**: the fan-out loop, shared by the import's notification and the admin's `send`.
- **`Throttle`**: the five-second time-to-live cache behind `caching_decorator`.

Cell reads, Telegram sends and the clock are parameters:

- `read: Coord -> Result<Value>` for a sheet;
- `deliver: int -> Delivery` for the outcome of each send;
- `today` and `now` for the clock.

## Model

| member | source | states |
|---|---|---|
| Cells.ParentOfMergedCell | bot.py:48-62 | no range covers the cell exactly when the result is absent; otherwise the result is the anchor of the first range, in the sheet's order, that covers it |
| Cells.MergedReadsFirstAnchor | bot.py:80-83 | a merged placeholder reads as the anchor of the first covering range, even if later ranges also cover it |
| Cells.MergedRangeReadsAsAnchor | bot.py:65-83 | on a sheet with disjoint ranges, every cell of a merged range reads the same as that range's anchor |
| Scan.LessonInfoLabelled | bot.py:112 | a stored lesson text starts with its time label and a newline |
| Scan.LessonInfoVerbatim | bot.py:112 | a cell text without blank lines is stored unchanged after its time label and a newline |
| Scan.SubGroupIndexSpec | bot.py:108-109 | the sub-group row is accepted exactly when its whitespace-free text is `гр.А` or `гр.Б`, giving 0 or 1 |
| Scan.GroupHeaderReadsFirstWord | bot.py:138 | a header whose first word is the decimal form of `n`, followed by a space and any text, reads as group `n` |
| Scan.ColumnLessonsSound | bot.py:110-114 | every lesson taken from a column comes from a truthy slot with its label, in increasing slot order |
| Scan.ColumnLessonsComplete | bot.py:110-111 | no truthy slot of a column is skipped |
| Scan.RegularScanSucceeds | bot.py:106-114 | the regular scan succeeds exactly when every column of the window does |
| Scan.RegularScanSound | bot.py:106-114 | each regular record comes from one column: its header as the class, its sub-group marker, and a truthy slot |
| Scan.RegularScanComplete | bot.py:106-114 | each truthy slot of each column has its record |
| Scan.UdayGroupsScanSucceeds | bot.py:136-145 | the group scan succeeds exactly when every column's header parses, and every first column of a group reads |
| Scan.UdayGroupsScanSound | bot.py:136-145 | each university-day record comes from the first column that carries its group number |
| Scan.UdayGroupsScanComplete | bot.py:136-145 | each truthy slot of the first column of a group has its record |
| Scan.UdayGroupsScanUnique | bot.py:139-141 | a later column with an already seen group adds nothing, so no group gets a lesson number twice |
| Scan.UdayClassesScanSucceeds | bot.py:167-177 | the class scan succeeds exactly when the first column of every class key reads; a blank key with a lesson fails |
| Scan.UdayClassesScanSound | bot.py:167-177 | each record comes from the first column of its class key and is stored in sub-group 0 |
| Scan.UdayClassesScanComplete | bot.py:167-177 | each truthy slot of the first column of a class has its record |
| Scan.UdayClassesScanUnique | bot.py:170-172 | with text keys, no class gets a lesson number twice |
| Dates.NextDay | bot.py:542 | the day after has ordinal one more, and is a valid date except after 9999-12-31 |
| Dates.WeekdayOfNextDay | bot.py:199 | `weekday()` advances by one each day, Sunday (6) wrapping to Monday (0) |
| Dates.FirstDayIsMonday | bot.py:199 | 1 January of year 1 is weekday 0, a Monday, as in Python's proleptic calendar |
| Dates.ScheduleDateOfFormat | bot.py:198 | a file name `dd.mm.xlsx` for a date of this year is parsed back to that date |
| Import.DiscoverSheetsFound | bot.py:203-209 | a sheet index the discovery reports points at a sheet whose stripped title is `10` or `11`, respectively |
| Import.DiscoverSheetsMissing | bot.py:203-209 | the discovery misses a grade only when no sheet has that title |
| Import.DiscoverIndexZeroQuirk | bot.py:208 | a match at index 0 is falsy and does not stop the loop, so a later sheet with the same title wins |
| Import.SheetIndexFallbacks | bot.py:219-248 | without a discovered sheet the university day reads sheet 0 and a regular day reads sheet 1 |
| Import.Labels | bot.py:221-249 | the labels succeed exactly when every cell reads and every kept cell is text; label `m` is the text of the `m`-th kept cell with its newlines removed; the kept cells are the truthy ones under the filter and all cells without it |
| Import.LessonNumbers | bot.py:228 | the comprehension succeeds exactly when every cell of B4-B14 reads and converts; its numbers are exactly those the cells whose `str` is among the digits give |
| Import.LessonNumbersFirstError | bot.py:228 | a failing comprehension reports the first cell that fails, in left-to-right order |
| Import.Max | bot.py:228 | the lesson count is the largest of the lesson numbers |
| Import.Grade10Dispatch | bot.py:217-231 | on weekday 0 the rows are the two university-day scans' results on the found tab (or the first) with the filtered labels of C3-C11, on any other day the regular scan's on the found tab (or the second) with the `ls_num` labels from C4; each row comes from a slot of the sheet, every filled slot of a scanned column gives a row, and all carry the import date |
| Import.Grade11Dispatch | bot.py:237-251 | on weekday 2 the rows are the two university-day scans' results on the found tab (or the first) with the filtered labels of C4-C9 and C11-C12, on any other day the regular scan's on the found tab (or the second) with the filtered labels of C4-C11; each row comes from a slot of the sheet, every filled slot of a scanned column gives a row, and all carry the import date |
| Import.UniversityWeekdays | bot.py:219-240 | weekday 0 is a Monday and weekday 2 a Wednesday |
| Import.KeptFromSpec | bot.py:221-249 | the positions the label comprehension keeps are exactly the positions of truthy cells under the `if cell_value(i)` filter, in increasing order, and every position when there is no filter |
| Import.PrepareSpec | bot.py:196-214 | after purge and replace, no regular row of the date or older than today−2 is left; university-day rows of the date go only when the regular table had some |
| Import.CommitRollsBack | bot.py:231-255 | a failing grade deletes every row of the date, reports the first failing grade, and notifies no one |
| Import.CommitSaves | bot.py:257-268 | after both grades, the date holds the kept rows plus grade 10's then grade 11's; exactly the notified users who blocked the bot leave |
| Import.ImportRejectsOnlyBadNames | bot.py:198 | the import stops unchanged exactly when the file name does not parse as a date of this year |
| Import.ImportOfFormattedName | bot.py:198 | an upload named `dd.mm.xlsx` is imported for that date |
| Import.ImportRollsBack | bot.py:196-255 | a failed import leaves the purged store without any lesson of the date, and the users untouched |
| Import.ImportSaves | bot.py:180-268 | a completed import stores exactly the two grades' regular rows for the date; other dates keep the purged rows |
| Query.AnswerSchedule | bot.py:547-558 | a schedule is sent exactly when the regular table has the date, or it is the user's university day and that table has the date; with both parts the university-day text comes first and a blank line separates them; with one part the reply is that part's text alone |
| Query.EmptyScheduleQuirk | bot.py:551-558 | if the date is in the regular table but none of its rows are the user's, the reply is the empty text |
| Query.UniversityDayIgnoresSubGroup | bot.py:543-546 | on the cohort's university day the answer does not depend on the user's sub-group, and reads sub-group 0 |
| Query.OtherDayIgnoresUniversityGroup | bot.py:546-554 | on another day the answer does not depend on the university-day group |
| Query.NoScheduleMeansNoRows | bot.py:548-555 | without a schedule, no regular row of the date exists, nor (on the university day) a university-day row |
| Query.NotYetAddedIsStable | bot.py:560-563 | pressing the same button on the "not yet added" text changes nothing |
| Query.AnswerNotYetAdded | bot.py:560-563 | the first prompt, or a "not yet added" text for another date of the year, is edited to name the requested date |
| Query.FormatDayMonthInjective | bot.py:560-561 | two dates of one year have different `%d.%m` forms |
| Query.GetScheduleFailures | bot.py:537-563 | each failure exactly: data without `=`; "tomorrow" asked on 9999-12-31; an unknown user once the date exists; and, for a known user with nothing to send, a prompt that is not the first one and lacks `расписание на ` |
| Query.RequestedDateSpec | bot.py:542 | `today` asks for today and any other day for tomorrow |
| Onboarding.LetterKeyboardSavesDistinctClasses | bot.py:414-424 | each of a grade's ten class buttons carries data that splits into `class_letter` and `<grade> <letter>`, and no two buttons save the same class |
| Onboarding.ClassLettersDistinct | bot.py:416-419 | the ten letters of a grade are distinct |
| Onboarding.LetterCallbackSplits | bot.py:423-430 | a class button's data splits at `=` into the prefix and `<grade> <letter>` |
| Onboarding.SetClassLetterSpec | bot.py:429-433 | the user ends up with exactly one profile, holding the chosen class; a new profile starts in groups 0 and 0 |
| Onboarding.ClassButtonSavesGrade | bot.py:423-447 | a class button saves a class whose first word is the grade |
| Onboarding.GroupButtonsSave | bot.py:434-446 | the `группа А` button saves sub-group 0 and the `группа Б` button sub-group 1 |
| Onboarding.SetGroupSpec | bot.py:441-454 | only the user's sub-group changes; the keyboard follows the class's first word, and an empty class raises |
| Onboarding.UniversityGroupsOffered | bot.py:448-452 | grade 11 is offered groups 1 to 10 and other classes 1 to 12, each exactly once |
| Onboarding.UniversityGroupButtonSaves | bot.py:457-462 | a group button saves its number; the summary appears when the sub-group is a valid Python index into the two captions |
| Onboarding.SummaryAfterGroupStep | bot.py:457-467 | a sub-group chosen by the previous step never makes the summary fail |
| Onboarding.ReplaceSpec | bot.py:431-433 | saving a profile changes that user's row only |
| Broadcast.FanOutAborts | bot.py:257-268 | the loop is cut short exactly when a send raises something other than an API error |
| Broadcast.FanOutRemovesBlocked | bot.py:525-533 | a user leaves exactly when reached and their send reports the exact blocked description |
| Broadcast.NonBlockedKept | bot.py:531-533 | an API error with another description never removes the user |
| Broadcast.Recipients | bot.py:520-521 | `all` selects every user; any other selector selects users whose class starts with it |
| Broadcast.UnselectedKept | bot.py:518-534 | a user outside the selection is never removed by a broadcast |
| Throttle.RunIsSpaced | bot.py:21-45 | with a timer that never runs backwards, the calls that run are exactly those with no run of the same user in the last five seconds |
| Throttle.SpacedRunsApart | bot.py:21-45 | two calls of one user that both run are at least five seconds apart |
| Throttle.SpacedAdmitsQuietUser | bot.py:42-44 | a call at least five seconds after all of its user's earlier calls runs |
| Throttle.AdmitIgnoresOthers | bot.py:39-45 | one user's calls never throttle another user |
| Records.PurgeBefore | bot.py:200-201 | exactly the rows dated on or after the cutoff remain, and users are untouched |
| Records.DeleteDate | bot.py:213-214 | exactly the rows of other dates remain |
| Records.DeleteUser | bot.py:531-533 | exactly the profiles of other users remain |
| Text.JoinSplit | bot.py:112 | joining the split pieces with the same separator gives back the text |
| Text.ParseIntToString | bot.py:458 | `int` reads back the decimal form of a natural number |

## Left out

- Workbook loading, file removal, `sleep`, logging, and all Telegram calls:
  - the messages and keyboards sent are not modelled;
  - each send is reduced to its outcome, a parameter.
- The admin panel, `schedule_adding`, `confirm_notification`, `/start`'s welcome, and the `choice`/`done` callbacks. These are I/O and message flow; the model keeps only the broadcast loop of `send`.
- The throttle cache's `maxsize` of 400 with its eviction: a user evicted early can get through sooner. `errors_cache` is unused by the core.
- The cache timer is taken as integer milliseconds.
- Throttle.RunIsSpaced: requires a timer that never runs backwards. This matches the monotonic clock of the cache.
- Chartsheets are not modelled: the workbook is its worksheets only. bot.py:203 numbers the tabs of `sheetnames`, which also lists chartsheets, while bot.py:220-248 index `worksheets`, which does not; with a chartsheet ahead of the `10` and `11` tabs the code reads the wrong sheet.
- openpyxl grows `max_row` when cells past it are touched. The model takes `max_row` as fixed per sheet.
- Cell values are blank, text or integers. Floats, dates and booleans are not modelled, and `int()`'s acceptance of non-ASCII digits is left out.
- Query results are taken in insertion order, as the tables store them.
- Dates are limited to years 1000 to 9999. `strptime` needs four year digits; past 9999-12-31, "tomorrow" raises.
- Error texts and exception messages are reduced to error kinds.
- Import.ImportSaves: the grade phases are evaluated as pure functions of the workbook. The import runs them in order, and the order does not matter because they only read.
- Import.PrepareSpec: rows dated before today−2 are purged before the import date's rows are written, so an upload for an older date still leaves rows older than today−2.
- Query.AnswerNotYetAdded: a prompt for the same `dd.mm` in another year gets no reply, as in the code. The lemma covers dates of one year.
