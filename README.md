# xls_to_ass in Dafny

A verified model of the conversion core of xls_to_ass. The tool turns a worksheet
(one row per subtitle line) into an ASS subtitle document. The user picks which
columns hold the start time, end time, dialogue, actor, track and italics flag.

The model covers:

- **Timestamp parsing** (`Timestamp`, timestamp.dfy). `convert_datetime` and
  `is_timestamp` are modelled, with the pattern `(\d+):(\d\d):(\d\d)[:.](\d+)` written
  out as a hand-made prefix matcher (`Match`). The matcher is proved equivalent to the
  declarative "some prefix has this form" (`HasTimestampPrefix`). A conversion reads
  frames at a framerate (timecode mode) or centiseconds (seconds mode), adds the shift,
  then applies the scale. Durations are integer microseconds, the resolution of Python's
  `timedelta`. The framerate and the scale are exact rationals. `timedelta * float` is
  modelled as CPython computes it: the exact product, rounded to the nearest microsecond
  with ties to even.
- **The style table and document** (`Document`, document.dfy): `create_style`,
  `create_document` and `find_style`. The document is a class whose style and event
  lists are appended to in place.
- **Row-to-event conversion** (`Convert`, convert.dfy). `ConvertWorksheetToAss` models
  `convert_worksheet_to_ass` as a loop over the worksheet rows, with a header-skipping
  flag. It is proved against `Run`, a fold of `Step` over the rows after the header.
  The properties of the conversion are lemmas about `Run`: event count and order,
  preserved prefix, unique style names, styles that resolve, and stop on the first
  failing row.
- **The front end's logic** (`DataTable`, datatable.dfy; `AppMain`, app_main.dfy), with
  the widgets reduced to text:
  - the labels, preview rows and dropdown options of `format_ws_to_datatable`, including
    the in-place filling of empty header names;
  - `parse_col_value`;
  - the `.ass` suffix rule and the checks `save_ass_dialog_on_result` makes before it
    converts.

Behaviour reproduced from the code where the code disagrees with itself or with its own
user interface text:

- A leading `-` is not accepted by the pattern (xls_to_ass.py:7), so `-01:00:00.00`
  fails (`NegativeTimestampFails`). This holds for the shift field too
  (`NegativeShiftStops`), although that field's hint (src/main.py:190) suggests exactly
  this value.
- Roles are tested by truthiness (xls_to_ass.py:77-98), so column 0 behaves as "no
  column" for every role (`ColumnZeroIsAbsent`). The up-front check at xls_to_ass.py:65,
  however, uses `is None`.
- In seconds mode the divisor is `10^(len(m[3]) - 2)` (xls_to_ass.py:23), where `m[3]`
  is the two-digit seconds group, so it is always 1. The fraction digits are taken as centiseconds
  whatever their number: `.5` reads as 5 centiseconds (`SecondsModeValue`,
  `FractionDigitCountIgnored`).
- When no end column is chosen, the end equals the start, which is the literal
  `"0:00:00.00"` when no start column is chosen either (xls_to_ass.py:82-87).

Assumptions about the unseen subtitle library, which is treated as plain records:

- A fresh `Document` has empty Script Info, styles and events, and is truthy.
- A fresh `Dialogue` has empty text and an unset actor name (`None` in the model).
- A `Style` keeps the library's alignment unless `is_type` is set (`None` in the model).

Worksheet cells are text, and an empty cell is the empty string. Digits are ASCII.

## Model

| member | source | states |
|---|---|---|
| Digits.DigitRun | xls_to_ass.py:7 | the greedy `\d+`: the longest all-digit prefix, followed by a non-digit or the end |
| Digits.NatToString | src/main.py:31-36 | `str(k)`: non-empty digits, no leading zero, decimal value k |
| Timestamp.MatchSound | xls_to_ass.py:7-12 | a match found by `Match` is a well-formed match of a prefix, and its fraction is not followed by a digit |
| Timestamp.MatchComplete | xls_to_ass.py:7-12 | any well-formed prefix match agrees with `Match` on hours, minutes, seconds and separator; `Match`'s fraction extends it |
| Timestamp.MatchIffPrefix | xls_to_ass.py:12-15 | the pattern matches exactly when some prefix has the timestamp form |
| Timestamp.TrailingIgnored | xls_to_ass.py:7-12 | text after a timestamp is ignored unless it continues the fraction digits |
| Timestamp.NegativeRejected | xls_to_ass.py:7-12 | no text starting with `-` matches |
| Timestamp.IsTimestamp | xls_to_ass.py:8-9 | true exactly when some prefix has the timestamp form |
| Timestamp.RoundHalfEven | xls_to_ass.py:27-28 | the scaled duration is the nearest whole microsecond, ties to even |
| Timestamp.ConvertDatetimeFailure | xls_to_ass.py:11-30 | `convert_datetime` fails exactly on a text without a timestamp prefix (ValueError naming the text) or on a zero framerate in timecode mode (division by zero) |
| Timestamp.SecondsModeValue | xls_to_ass.py:17-24 | seconds mode without shift and scale gives h*360000 + m*6000 + s*100 + fraction centiseconds, whatever the number of fraction digits |
| Timestamp.TimecodeValue | xls_to_ass.py:17-24 | timecode mode gives h*360000 + m*6000 + s*100 + floor(frames*100/framerate) centiseconds |
| Timestamp.TimecodeMonotone | xls_to_ass.py:20-28 | with a fixed H:MM:SS and a positive framerate, more frames never give an earlier time (any shift, no or a positive scale) |
| Timestamp.ShiftThenScale | xls_to_ass.py:24-28 | the shift is added first and the scale is applied to the shifted value |
| Timestamp.ZeroScaleSkipped | xls_to_ass.py:27-28 | a zero scale is falsy and leaves the value unchanged |
| Timestamp.NegativeTimestampFails | xls_to_ass.py:12-15 | a text starting with `-` raises the format error |
| Timestamp.FractionDigitCountIgnored | xls_to_ass.py:17-23 | the fraction digits count only through their integer value, so ".5" and ".05" give the same time |
| Document.CreateStyle | xls_to_ass.py:32-43 | the style has the given name, and an alignment set exactly when `is_type` is set |
| Document.Document.constructor | xls_to_ass.py:46 | a fresh document has no Script Info, styles or events |
| Document.CreateDocument | xls_to_ass.py:45-54 | the fixed script type, the five Script Info entries, exactly one style "Default", no events |
| Document.FindStyle | xls_to_ass.py:56-60 | None exactly when no style has the name, otherwise the first style with that name |
| Convert.EscapeNewlines | xls_to_ass.py:90 | the escaped text has no newline, and text without newlines is unchanged |
| Convert.EscapeRoundTrip | xls_to_ass.py:90 | for text without backslashes, turning `\N` back into newlines restores the cell |
| Convert.RowEventFields | xls_to_ass.py:76-105 | the row fails exactly when a chosen start or end cell fails to convert; otherwise the start is the converted start cell or the zero literal; the end is the converted end cell or the start; the text is the escaped dialogue cell (empty without one) after `{\i1}` exactly when the italics cell is non-empty, and has no newline; the actor is the actor cell, set exactly with an actor column; the style is the track cell or "Default" |
| Convert.ColumnZeroIsAbsent | xls_to_ass.py:77-99 | choosing column 0 for a role has exactly the effect of choosing none |
| Convert.ItalicsOnlyPrefixes | xls_to_ass.py:92-94 | the italics column prepends `{\i1}` exactly when its cell is non-empty, and changes nothing else |
| Convert.RunKeepsPrefix | xls_to_ass.py:68-106 | styles and events already in the document stay, unchanged, as a prefix |
| Convert.RunSucceeds | xls_to_ass.py:76-88 | the conversion fails exactly when some row fails |
| Convert.RunEvents | xls_to_ass.py:72-106 | a successful conversion appends one event per row, in row order |
| Convert.EventCount | xls_to_ass.py:71-75 | \|rows\| events are appended, or \|rows\|-1 with a header row and a non-empty sheet |
| Convert.RunKeepsNamesUnique | xls_to_ass.py:99-102 | style names that were unique stay unique |
| Convert.RunAddsTrackStyles | xls_to_ass.py:99-102 | every added style is the track style of a processed row's track value, and no earlier style had that name |
| Convert.RunResolvesStyles | xls_to_ass.py:99-105 | every event's style is "Default" or the name of a style in the document |
| Convert.KnownTracksAddNoStyle | xls_to_ass.py:101-102 | track values that already name styles add none, so a repeated track adds nothing |
| Convert.TwoTracksExample | xls_to_ass.py:62-108 | header plus tracks A, A, B: three events in order, two new styles A and B |
| Convert.ConvertWorksheetToAss | xls_to_ass.py:62-108 | no start and no dialogue column fails before any change, reading no row; otherwise the document (given or new) ends as `Run` of the rows after the header, including after a failing row, and a given document keeps its script type and Script Info |
| Convert.ConvertRows | xls_to_ass.py:71-106 | the row loop leaves the document's styles and events as `Run` of the rows after the header, with the first row error if any, and the script header unchanged |
| Convert.StopAt | xls_to_ass.py:76-88 | a failing row ends the run with its error and the state the earlier rows left |
| Convert.BuildEvent | xls_to_ass.py:76-105 | building the event field by field gives `RowEvent` of the row, including its failure |
| Convert.ConvertRow | xls_to_ass.py:76-106 | one loop iteration is one `Step`: a failing time cell changes nothing; otherwise the track style is added if new and the event appended |
| DataTable.ColumnLabel | src/main.py:29 | the generated label `Column {j+1}` is never empty |
| DataTable.FilledHeader | src/main.py:26-29 | same length; an empty name at index j becomes `Column {j+1}`; non-empty names unchanged; no name is empty |
| DataTable.OptionKeysDistinct | src/main.py:31-44 | the dropdown keys, "-1" and then "0".."n-1", are pairwise distinct |
| DataTable.FillHeaderNames | src/main.py:27-29 | the header row, in the worksheet itself, becomes its filled form; other rows are unchanged |
| DataTable.FormatWsToDatatable | src/main.py:17-48 | options are "-1" then one per label; at most 4 rows shown; with headers the first row with cells is filled in place, gives the labels and is not shown; without headers the labels are generated and the first rows are shown |
| AppMain.ParseColValue | src/main.py:105-107 | raises exactly on non-integer text; a column exactly for a non-negative integer, with that value |
| AppMain.OptionKeysRoundTrip | src/main.py:31-107 | every dropdown key parses back to its column index, and "-1" to None |
| AppMain.OutputFileName | src/main.py:116-117 | the name ends in ".ass"; a name already ending in ".ass" is kept; any other gets ".ass" appended |
| AppMain.OutputFileNameIdempotent | src/main.py:116-117 | applying the suffix rule twice equals applying it once |
| AppMain.PlanExport | src/main.py:112-147 | the handler stops, in order, on an empty path, a non-integer column value, neither start nor dialogue, no timestamp type, or a shift that fails to convert, and converts otherwise; a started job has the `.ass` file name of the path, the parsed columns, the header flag, timecode mode exactly for "True", the framerate field or 24, the converted shift and the scale |
| AppMain.StartOrDialogueRequired | src/main.py:122-131 | once the columns parse, the handler stops exactly when neither start nor dialogue is chosen |
| AppMain.NegativeShiftStops | src/main.py:141-147 | a shift written with a leading `-` always stops the export |

## Left out

- The flet user interface: `generate_placeholder_datatable`, `create_column_dd`, `main`, `configure_timestamp_render_page` (unfinished in the source), the widget construction in `format_ws_to_datatable`, and the page and dropdown updates in `load_xls_dialog_on_result` and `load_worksheet_on_click`. They are GUI plumbing.
- File input and output: `load_workbook`, `open`, `doc.dump_file` and the ASS text serialisation. `load_excel_file` is not part of this model. The `page.data` lookup of the worksheet is not modelled either.
- The `__main__` scripts of both files, which convert fixed file names.
- Floating point. `frames / framerate * 100` and `seconds + centiseconds / 100.0` are computed exactly, without float rounding.
- Cells that are not text (numbers, dates, `None` from a spreadsheet reader) would make the pattern match raise a TypeError; cells are text here.
- `timedelta` range overflow (OverflowError) is not modelled.
- Python's `\d` and `int()` also accept non-ASCII digits; `int()` also accepts surrounding whitespace and underscores. Only ASCII digits with an optional sign are modelled.
- The Script Info entries are a map, so their insertion order is not kept.
- A column index past the end of a row raises IndexError in the source; `ConvertWorksheetToAss` requires every chosen column to exist in every converted row.
- The dropdowns start with the integer `-1` rather than text; `ParseColValue` takes text, and "-1" behaves the same.
- PlanExport: does not model the ValueError of `float()` on the framerate and scale fields; it takes their already parsed values.
- ConvertRows, ConvertRow, BuildEvent: the source has this code inline in `convert_worksheet_to_ass`; the model splits the row loop, its body and the building of the event into methods with the same statements.
