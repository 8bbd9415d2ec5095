/** `convert_worksheet_to_ass` of xls_to_ass.py: every row after the optional header
    becomes one Dialogue event, and every new track value one style. */
module Convert {
  import opened Wrappers
  import opened Timestamp
  import opened Document
  import opened Workbook

  /** The column chosen for each role, None when no column is chosen. */
  datatype Roles = Roles(
    start: Option<nat>,
    end: Option<nat>,
    dialogue: Option<nat>,
    actor: Option<nat>,
    track: Option<nat>,
    italics: Option<nat>)

  datatype ConvertError =
    | MissingColumns              // neither a start nor a dialogue column was given
    | BadTimestamp(e: TimeError)  // a time cell failed to convert

  /** The row mapping tests a column by Python truthiness, so column 0 counts as absent. */
  predicate Selected(c: Option<nat>) {
    c.Some? && c.value != 0
  }

  predicate CellIn(c: Option<nat>, row: Row) {
    Selected(c) ==> c.value < |row|
  }

  /** Every column the mapping reads exists in the row. */
  predicate Fits(roles: Roles, row: Row) {
    CellIn(roles.start, row) && CellIn(roles.end, row) && CellIn(roles.dialogue, row)
    && CellIn(roles.actor, row) && CellIn(roles.track, row) && CellIn(roles.italics, row)
  }

  predicate AllFit(roles: Roles, rows: seq<Row>) {
    forall i :: 0 <= i < |rows| ==> Fits(roles, rows[i])
  }

  function Cell(row: Row, c: Option<nat>): string
    requires Selected(c) && CellIn(c, row)
  {
    row[c.value]
  }

  const ItalicsTag := "{\\i1}"

  /** `s.replace("\n", "\\N")`: every newline becomes the two-character line break `\N`. */
  function EscapeNewlines(s: string): (r: string)
    ensures '\n' !in r
    ensures '\n' !in s ==> r == s
  {
    if s == [] then []
    else (if s[0] == '\n' then "\\N" else [s[0]]) + EscapeNewlines(s[1..])
  }

  /** The reverse rewrite, `\N` back to a newline. */
  function UnescapeNewlines(s: string): string {
    if |s| >= 2 && s[0] == '\\' && s[1] == 'N' then "\n" + UnescapeNewlines(s[2..])
    else if s == [] then []
    else [s[0]] + UnescapeNewlines(s[1..])
  }

  /** Text without backslashes survives the newline escaping unchanged. */
  lemma {:induction false} EscapeRoundTrip(s: string)
    requires '\\' !in s
    ensures UnescapeNewlines(EscapeNewlines(s)) == s
  {
    if s != [] {
      assert '\\' !in s[1..];
      EscapeRoundTrip(s[1..]);
      var rest := EscapeNewlines(s[1..]);
      if s[0] == '\n' {
        assert EscapeNewlines(s) == "\\N" + rest;
        assert ("\\N" + rest)[2..] == rest;
      } else {
        assert EscapeNewlines(s) == [s[0]] + rest;
        assert ([s[0]] + rest)[1..] == rest;
      }
    }
  }

  function TimeCell(row: Row, c: Option<nat>, args: TimestampArgs): Result<Stamp, ConvertError>
    requires Selected(c) && CellIn(c, row) && ValidArgs(args)
  {
    match ConvertDatetime(Cell(row, c), args)
    case Success(t) => Success(Time(t))
    case Failure(e) => Failure(BadTimestamp(e))
  }

  /** The event text: the escaped dialogue cell (empty without one), after the italics
      tag when the italics cell is not empty. */
  function EventText(row: Row, roles: Roles): string
    requires Fits(roles, row)
  {
    var text := if Selected(roles.dialogue) then EscapeNewlines(Cell(row, roles.dialogue)) else "";
    if Selected(roles.italics) && Cell(row, roles.italics) != "" then ItalicsTag + text else text
  }

  function StyleNameOf(row: Row, roles: Roles): string
    requires Fits(roles, row)
  {
    if Selected(roles.track) then Cell(row, roles.track) else DefaultStyleName
  }

  /** The event one row becomes. */
  function RowEvent(row: Row, roles: Roles, args: TimestampArgs): Result<Event, ConvertError>
    requires Fits(roles, row) && ValidArgs(args)
  {
    var start := if Selected(roles.start) then TimeCell(row, roles.start, args) else Success(ZeroStamp);
    if start.Failure? then Failure(start.error)
    else
      var end := if Selected(roles.end) then TimeCell(row, roles.end, args) else start;
      if end.Failure? then Failure(end.error)
      else
        var name := if Selected(roles.actor) then Some(Cell(row, roles.actor)) else None;
        Success(Event(start.value, end.value, EventText(row, roles), name, StyleNameOf(row, roles)))
  }

  /** A row fails exactly when a chosen time cell fails to convert.  Otherwise the start
      is the converted start cell, or the zero literal without a start column; the end is
      the converted end cell, or the start without an end column; the text is the
      escaped dialogue cell (empty without one) after the italics tag when the italics
      cell is not empty, and holds no newline; the actor is the actor cell, and set
      exactly with an actor column; and the style is the track cell, or "Default"
      without a track column. */
  lemma RowEventFields(row: Row, roles: Roles, args: TimestampArgs)
    requires Fits(roles, row) && ValidArgs(args)
    ensures var r := RowEvent(row, roles, args);
      && (r.Failure? <==>
            (Selected(roles.start) && ConvertDatetime(Cell(row, roles.start), args).Failure?)
            || (Selected(roles.end) && ConvertDatetime(Cell(row, roles.end), args).Failure?))
      && (r.Success? ==>
            && (Selected(roles.start) ==>
                  r.value.start == Time(ConvertDatetime(Cell(row, roles.start), args).value))
            && (!Selected(roles.start) ==> r.value.start == ZeroStamp)
            && (Selected(roles.end) ==>
                  r.value.end == Time(ConvertDatetime(Cell(row, roles.end), args).value))
            && (!Selected(roles.end) ==> r.value.end == r.value.start)
            && r.value.text
               == (if Selected(roles.italics) && Cell(row, roles.italics) != "" then ItalicsTag else "")
                  + (if Selected(roles.dialogue) then EscapeNewlines(Cell(row, roles.dialogue)) else "")
            && '\n' !in r.value.text
            && (Selected(roles.actor) ==> r.value.name == Some(Cell(row, roles.actor)))
            && (r.value.name.Some? <==> Selected(roles.actor))
            && (Selected(roles.track) ==> r.value.style == Cell(row, roles.track))
            && (!Selected(roles.track) ==> r.value.style == DefaultStyleName))
  {
  }

  /** The style list after a row: one new style when the row's track is not yet named. */
  function AddTrackStyle(styles: seq<Style>, row: Row, roles: Roles): seq<Style>
    requires Fits(roles, row)
  {
    if Selected(roles.track) && !HasStyle(styles, Cell(row, roles.track))
    then styles + [CreateStyle(Cell(row, roles.track), false)]
    else styles
  }

  /** The document contents while rows are processed; `error` is set by the first row
      that fails, after which nothing changes. */
  datatype Progress = Progress(styles: seq<Style>, events: seq<Event>, error: Option<ConvertError>)

  function Step(p: Progress, row: Row, roles: Roles, args: TimestampArgs): Progress
    requires Fits(roles, row) && ValidArgs(args)
  {
    if p.error.Some? then p
    else match RowEvent(row, roles, args)
      case Failure(e) => p.(error := Some(e))
      case Success(ev) => Progress(AddTrackStyle(p.styles, row, roles), p.events + [ev], None)
  }

  /** The document contents after the rows, in order. */
  function Run(p: Progress, rows: seq<Row>, roles: Roles, args: TimestampArgs): Progress
    requires AllFit(roles, rows) && ValidArgs(args)
    decreases |rows|
  {
    if rows == [] then p
    else Step(Run(p, rows[..|rows| - 1], roles, args), rows[|rows| - 1], roles, args)
  }

  /** The rows that become events: all of them, or all but the first with a header. */
  function Body(rows: seq<Row>, hasHeaders: bool): seq<Row> {
    if hasHeaders && |rows| > 0 then rows[1..] else rows
  }

  // ---------------------------------------------------------------------------------
  // Properties of the row mapping

  /** Roles with column 0 replaced by "no column". */
  function DropZero(c: Option<nat>): Option<nat> {
    if c == Some(0) then None else c
  }

  function NormalizedRoles(r: Roles): Roles {
    Roles(DropZero(r.start), DropZero(r.end), DropZero(r.dialogue), DropZero(r.actor),
          DropZero(r.track), DropZero(r.italics))
  }

  /** Choosing column 0 for a role has exactly the effect of choosing no column. */
  lemma ColumnZeroIsAbsent(row: Row, roles: Roles, args: TimestampArgs, styles: seq<Style>)
    requires Fits(roles, row) && ValidArgs(args)
    ensures Fits(NormalizedRoles(roles), row)
    ensures RowEvent(row, NormalizedRoles(roles), args) == RowEvent(row, roles, args)
    ensures AddTrackStyle(styles, row, NormalizedRoles(roles)) == AddTrackStyle(styles, row, roles)
  {
  }

  /** The italics column only ever prepends the italics tag, and does so exactly when
      its cell is not empty; every other field is as without it. */
  lemma ItalicsOnlyPrefixes(row: Row, roles: Roles, args: TimestampArgs)
    requires Fits(roles, row) && ValidArgs(args)
    ensures var plain := RowEvent(row, roles.(italics := None), args);
      var r := RowEvent(row, roles, args);
      r.Success? == plain.Success? &&
      (r.Success? ==>
        r.value == plain.value.(text := if Selected(roles.italics) && Cell(row, roles.italics) != ""
                                         then ItalicsTag + plain.value.text else plain.value.text))
  {
  }

  // ---------------------------------------------------------------------------------
  // Properties of the whole conversion

  lemma RunStep(p: Progress, rows: seq<Row>, row: Row, roles: Roles, args: TimestampArgs)
    requires AllFit(roles, rows) && Fits(roles, row) && ValidArgs(args)
    ensures AllFit(roles, rows + [row])
    ensures Run(p, rows + [row], roles, args) == Step(Run(p, rows, roles, args), row, roles, args)
  {
    assert (rows + [row])[..|rows|] == rows;
  }

  /** Both parts of a split of fitting rows fit, and put back together give the rows. */
  lemma AllFitSplit(roles: Roles, rows: seq<Row>, k: nat)
    requires AllFit(roles, rows) && k <= |rows|
    ensures AllFit(roles, rows[..k]) && AllFit(roles, rows[k..]) && rows[..k] + rows[k..] == rows
  {
    assert forall i :: 0 <= i < |rows| - k ==> rows[k..][i] == rows[k + i];
  }

  /** The run over the first `k + 1` rows is one step after the run over the first `k`. */
  lemma RunPrefix(p: Progress, rows: seq<Row>, k: nat, roles: Roles, args: TimestampArgs)
    requires AllFit(roles, rows) && ValidArgs(args) && k < |rows|
    ensures AllFit(roles, rows[..k]) && AllFit(roles, rows[..k + 1])
    ensures Run(p, rows[..k + 1], roles, args) == Step(Run(p, rows[..k], roles, args), rows[k], roles, args)
  {
    assert rows[..k + 1][..k] == rows[..k];
  }

  /** A failed row stops the conversion: later rows change nothing. */
  lemma {:induction false} RunStopped(p: Progress, rows: seq<Row>, roles: Roles, args: TimestampArgs)
    requires AllFit(roles, rows) && ValidArgs(args) && p.error.Some?
    ensures Run(p, rows, roles, args) == p
  {
    if rows != [] {
      RunStopped(p, rows[..|rows| - 1], roles, args);
    }
  }

  /** Processing `a + b` is processing `a`, then `b`. */
  lemma {:induction false} RunAppend(p: Progress, a: seq<Row>, b: seq<Row>, roles: Roles, args: TimestampArgs)
    requires AllFit(roles, a) && AllFit(roles, b) && ValidArgs(args)
    ensures AllFit(roles, a + b)
    ensures Run(p, a + b, roles, args) == Run(Run(p, a, roles, args), b, roles, args)
  {
    if b != [] {
      var b' := b[..|b| - 1];
      assert (a + b)[..|a + b| - 1] == a + b';
      assert (a + b)[|a + b| - 1] == b[|b| - 1];
      RunAppend(p, a, b', roles, args);
    } else {
      assert a + b == a;
    }
  }

  /** Styles and events already in the document are kept, unchanged, as a prefix. */
  lemma {:induction false} RunKeepsPrefix(p: Progress, rows: seq<Row>, roles: Roles, args: TimestampArgs)
    requires AllFit(roles, rows) && ValidArgs(args)
    ensures var q := Run(p, rows, roles, args);
      |p.styles| <= |q.styles| && q.styles[..|p.styles|] == p.styles
      && |p.events| <= |q.events| && q.events[..|p.events|] == p.events
  {
    if rows != [] {
      RunKeepsPrefix(p, rows[..|rows| - 1], roles, args);
      var q := Run(p, rows[..|rows| - 1], roles, args);
      var q' := Run(p, rows, roles, args);
      assert q'.styles[..|q.styles|] == q.styles && q'.events[..|q.events|] == q.events;
      assert q'.styles[..|p.styles|] == q.styles[..|p.styles|];
      assert q'.events[..|p.events|] == q.events[..|p.events|];
    }
  }

  /** Every row converts without error. */
  predicate RowsConvert(rows: seq<Row>, roles: Roles, args: TimestampArgs)
    requires AllFit(roles, rows) && ValidArgs(args)
  {
    forall i :: 0 <= i < |rows| ==> RowEvent(rows[i], roles, args).Success?
  }

  lemma RowsConvertSnoc(rows: seq<Row>, roles: Roles, args: TimestampArgs)
    requires AllFit(roles, rows) && ValidArgs(args) && rows != []
    ensures AllFit(roles, rows[..|rows| - 1])
    ensures RowsConvert(rows, roles, args)
            <==> RowsConvert(rows[..|rows| - 1], roles, args) && RowEvent(rows[|rows| - 1], roles, args).Success?
  {
    var init := rows[..|rows| - 1];
    assert forall i :: 0 <= i < |init| ==> init[i] == rows[i];
  }

  /** One step keeps the run going exactly when it was going and the row converts. */
  lemma StepOutcome(p: Progress, row: Row, roles: Roles, args: TimestampArgs)
    requires Fits(roles, row) && ValidArgs(args)
    ensures Step(p, row, roles, args).error.None? <==> p.error.None? && RowEvent(row, roles, args).Success?
    ensures Step(p, row, roles, args).error.None? ==>
      Step(p, row, roles, args).events == p.events + [RowEvent(row, roles, args).value]
  {
  }

  /** The conversion fails exactly when some row fails. */
  lemma {:induction false} RunSucceeds(p: Progress, rows: seq<Row>, roles: Roles, args: TimestampArgs)
    requires AllFit(roles, rows) && ValidArgs(args) && p.error.None?
    ensures Run(p, rows, roles, args).error.None? <==> RowsConvert(rows, roles, args)
  {
    if rows != [] {
      var init := rows[..|rows| - 1];
      RowsConvertSnoc(rows, roles, args);
      RunSucceeds(p, init, roles, args);
      StepOutcome(Run(p, init, roles, args), rows[|rows| - 1], roles, args);
    }
  }

  /** A conversion that succeeds appends one event per row, in row order. */
  lemma {:induction false} RunEvents(p: Progress, rows: seq<Row>, roles: Roles, args: TimestampArgs)
    requires AllFit(roles, rows) && ValidArgs(args) && p.error.None?
    requires Run(p, rows, roles, args).error.None?
    ensures var q := Run(p, rows, roles, args);
      && |q.events| == |p.events| + |rows|
      && forall i :: 0 <= i < |rows| ==> RowEvent(rows[i], roles, args).Success?
                                         && q.events[|p.events| + i] == RowEvent(rows[i], roles, args).value
  {
    if rows != [] {
      var init := rows[..|rows| - 1];
      RowsConvertSnoc(rows, roles, args);
      var q := Run(p, init, roles, args);
      var q' := Run(p, rows, roles, args);
      StepOutcome(q, rows[|rows| - 1], roles, args);
      RunEvents(p, init, roles, args);
      forall i | 0 <= i < |rows|
        ensures RowEvent(rows[i], roles, args).Success?
        ensures q'.events[|p.events| + i] == RowEvent(rows[i], roles, args).value
      {
        if i < |init| {
          assert rows[i] == init[i];
        }
      }
    }
  }

  /** Style names that were unique stay unique: a track value adds a style only when no
      style has that name yet. */
  lemma {:induction false} RunKeepsNamesUnique(p: Progress, rows: seq<Row>, roles: Roles, args: TimestampArgs)
    requires AllFit(roles, rows) && ValidArgs(args) && UniqueNames(p.styles)
    ensures UniqueNames(Run(p, rows, roles, args).styles)
  {
    if rows != [] {
      RunKeepsNamesUnique(p, rows[..|rows| - 1], roles, args);
    }
  }

  /** Every style the conversion adds is a track style for the track value of a processed
      row, and that name was not in the document before. */
  lemma {:induction false} RunAddsTrackStyles(p: Progress, rows: seq<Row>, roles: Roles, args: TimestampArgs)
    requires AllFit(roles, rows) && ValidArgs(args)
    ensures var q := Run(p, rows, roles, args);
      forall k :: |p.styles| <= k < |q.styles| ==>
        !HasStyle(p.styles, q.styles[k].name)
        && exists i :: 0 <= i < |rows| && Selected(roles.track)
                       && q.styles[k] == CreateStyle(Cell(rows[i], roles.track), false)
  {
    if rows != [] {
      var init := rows[..|rows| - 1];
      RunAddsTrackStyles(p, init, roles, args);
      RunKeepsPrefix(p, init, roles, args);
      var q := Run(p, init, roles, args);
      var q' := Run(p, rows, roles, args);
      assert q' == Step(q, rows[|rows| - 1], roles, args);
      assert |q.styles| <= |q'.styles| && q'.styles[..|q.styles|] == q.styles;
      forall k | |p.styles| <= k < |q'.styles|
        ensures !HasStyle(p.styles, q'.styles[k].name)
        ensures exists i :: 0 <= i < |rows| && Selected(roles.track)
                            && q'.styles[k] == CreateStyle(Cell(rows[i], roles.track), false)
      {
        if k < |q.styles| {
          assert q'.styles[k] == q.styles[k];
          var i :| 0 <= i < |init| && Selected(roles.track)
                   && q.styles[k] == CreateStyle(Cell(init[i], roles.track), false);
          assert rows[i] == init[i];
        } else {
          var row := rows[|rows| - 1];
          assert q'.styles[k] == CreateStyle(Cell(row, roles.track), false);
          assert !HasStyle(q.styles, Cell(row, roles.track));
        }
      }
    }
  }

  /** Every event of the document names a style the document has, or "Default";
      in particular every processed track value is a style name afterwards. */
  lemma {:induction false} RunResolvesStyles(p: Progress, rows: seq<Row>, roles: Roles, args: TimestampArgs)
    requires AllFit(roles, rows) && ValidArgs(args)
    requires forall e :: e in p.events ==> e.style == DefaultStyleName || HasStyle(p.styles, e.style)
    ensures var q := Run(p, rows, roles, args);
      forall e :: e in q.events ==> e.style == DefaultStyleName || HasStyle(q.styles, e.style)
  {
    if rows != [] {
      var init := rows[..|rows| - 1];
      RunResolvesStyles(p, init, roles, args);
      var q := Run(p, init, roles, args);
      var q' := Run(p, rows, roles, args);
      var row := rows[|rows| - 1];
      if q.error.None? && RowEvent(row, roles, args).Success? {
        forall e | e in q'.events
          ensures e.style == DefaultStyleName || HasStyle(q'.styles, e.style)
        {
          if e in q.events {
            if e.style != DefaultStyleName {
              var j :| 0 <= j < |q.styles| && q.styles[j].name == e.style;
              assert q'.styles[j] == q.styles[j];
            }
          } else {
            assert e == RowEvent(row, roles, args).value;
            if Selected(roles.track) && HasStyle(q.styles, e.style) {
              var j :| 0 <= j < |q.styles| && q.styles[j].name == e.style;
              assert q'.styles[j] == q.styles[j];
            } else if Selected(roles.track) {
              assert q'.styles[|q.styles|].name == e.style;
            }
          }
        }
      }
    }
  }

  /** Rows whose track values already name styles add no style. */
  lemma {:induction false} KnownTracksAddNoStyle(p: Progress, rows: seq<Row>, roles: Roles, args: TimestampArgs)
    requires AllFit(roles, rows) && ValidArgs(args)
    requires Selected(roles.track) ==> forall i :: 0 <= i < |rows| ==> HasStyle(p.styles, Cell(rows[i], roles.track))
    ensures Run(p, rows, roles, args).styles == p.styles
  {
    if rows != [] {
      KnownTracksAddNoStyle(p, rows[..|rows| - 1], roles, args);
    }
  }

  /** With a header row, one event per row after it; without, one per row. */
  lemma EventCount(p: Progress, rows: seq<Row>, hasHeaders: bool, roles: Roles, args: TimestampArgs)
    requires AllFit(roles, Body(rows, hasHeaders)) && ValidArgs(args) && p.error.None?
    requires Run(p, Body(rows, hasHeaders), roles, args).error.None?
    ensures |Run(p, Body(rows, hasHeaders), roles, args).events|
            == |p.events| + |rows| - (if hasHeaders && |rows| > 0 then 1 else 0)
  {
    RunEvents(p, Body(rows, hasHeaders), roles, args);
  }

  /** Running three rows is three steps. */
  lemma RunThree(p: Progress, a: Row, b: Row, c: Row, roles: Roles, args: TimestampArgs)
    requires Fits(roles, a) && Fits(roles, b) && Fits(roles, c) && ValidArgs(args)
    ensures AllFit(roles, [a, b, c])
    ensures Run(p, [a, b, c], roles, args)
         == Step(Step(Step(p, a, roles, args), b, roles, args), c, roles, args)
  {
    assert [a, b, c][..2] == [a, b] && [a, b][..1] == [a] && [a][..0] == [];
    assert Run(p, [a], roles, args) == Step(p, a, roles, args);
    assert Run(p, [a, b], roles, args) == Step(Run(p, [a], roles, args), b, roles, args);
  }

  /** The roles of the example below: column 0 as start, 1 as dialogue, 2 as track. */
  const ExampleRoles := Roles(Some(0), None, Some(1), None, Some(2), None)

  /** One row of the example: an event at the zero time with the dialogue cell and the
      track as its style. */
  lemma ExampleRow(p: Progress, start: string, text: string, track: string)
    requires p.error.None? && '\n' !in text
    ensures Fits(ExampleRoles, [start, text, track])
    ensures Step(p, [start, text, track], ExampleRoles, DefaultArgs)
         == Progress(AddTrackStyle(p.styles, [start, text, track], ExampleRoles),
                     p.events + [Event(ZeroStamp, ZeroStamp, text, None, track)], None)
  {
  }

  /** A header row and three rows on tracks "A", "A", "B": three events in row order and
      two new styles.  Column 0 is chosen as the start column, which counts as no column,
      so every event starts and ends at the literal zero time. */
  lemma TwoTracksExample()
    ensures var rows := [["Start", "Text", "Track"], ["1", "a", "A"], ["2", "b", "A"], ["3", "c", "B"]];
      var q := Run(Progress([CreateStyle(DefaultStyleName, false)], [], None), Body(rows, true),
                   ExampleRoles, DefaultArgs);
      && q.error.None?
      && q.events == [Event(ZeroStamp, ZeroStamp, "a", None, "A"),
                      Event(ZeroStamp, ZeroStamp, "b", None, "A"),
                      Event(ZeroStamp, ZeroStamp, "c", None, "B")]
      && q.styles == [CreateStyle(DefaultStyleName, false), CreateStyle("A", false), CreateStyle("B", false)]
  {
    var rows := [["Start", "Text", "Track"], ["1", "a", "A"], ["2", "b", "A"], ["3", "c", "B"]];
    assert Body(rows, true) == [["1", "a", "A"], ["2", "b", "A"], ["3", "c", "B"]];
    var s0 := [CreateStyle(DefaultStyleName, false)];
    var sA := s0 + [CreateStyle("A", false)];
    var sB := sA + [CreateStyle("B", false)];
    var e1 := Event(ZeroStamp, ZeroStamp, "a", None, "A");
    var e2 := Event(ZeroStamp, ZeroStamp, "b", None, "A");
    var e3 := Event(ZeroStamp, ZeroStamp, "c", None, "B");
    ExampleRow(Progress(s0, [], None), "1", "a", "A");
    assert !HasStyle(s0, "A");
    ExampleRow(Progress(sA, [e1], None), "2", "b", "A");
    assert HasStyle(sA, "A") by { assert sA[1].name == "A"; }
    ExampleRow(Progress(sA, [e1, e2], None), "3", "c", "B");
    assert !HasStyle(sA, "B");
    RunThree(Progress(s0, [], None), ["1", "a", "A"], ["2", "b", "A"], ["3", "c", "B"], ExampleRoles, DefaultArgs);
  }

  // ---------------------------------------------------------------------------------
  // The conversion itself

  /** `convert_worksheet_to_ass`.  Without a document a new one is created; the events
      and styles of the rows after the header are appended to it.  A row whose time
      fails to convert aborts the call and leaves the rows before it in the document. */
  method ConvertWorksheetToAss(ws: Worksheet, doc: Document?, roles: Roles, hasHeaders: bool,
                               args: TimestampArgs)
    returns (r: Result<Document, ConvertError>)
    requires ValidArgs(args)
    requires roles.start.Some? || roles.dialogue.Some? ==> AllFit(roles, Body(ws.rows, hasHeaders))
    modifies doc
    ensures roles.start.None? && roles.dialogue.None? ==>
      r == Failure(MissingColumns) && (doc != null ==> unchanged(doc))
    ensures roles.start.Some? || roles.dialogue.Some? ==>
      var init := if doc == null then Progress([CreateStyle(DefaultStyleName, false)], [], None)
                  else Progress(old(doc.styles), old(doc.events), None);
      var q := Run(init, Body(ws.rows, hasHeaders), roles, args);
      && (r.Success? <==> q.error.None?)
      && (r.Failure? ==> r.error == q.error.value)
      && (r.Success? ==> r.value.styles == q.styles && r.value.events == q.events)
      && (r.Success? && doc != null ==> r.value == doc)
      && (r.Success? && doc == null ==>
            fresh(r.value) && r.value.scriptType == "v4.00+" && r.value.scriptInfo == DefaultScriptInfo())
      && (doc != null ==> doc.styles == q.styles && doc.events == q.events)
    ensures doc != null ==> doc.scriptType == old(doc.scriptType) && doc.scriptInfo == old(doc.scriptInfo)
  {
    if roles.start.None? && roles.dialogue.None? {
      return Failure(MissingColumns);
    }
    var d: Document;
    if doc == null {
      d := CreateDocument();
    } else {
      d := doc;
    }
    var err := ConvertRows(d, ws.rows, roles, hasHeaders, args);
    if err.Some? {
      return Failure(err.value);
    }
    return Success(d);
  }

  /** The row loop of `convert_worksheet_to_ass`: skips the header row when there is one
      and converts the others in order into `d`, stopping at the first row that fails. */
  method ConvertRows(d: Document, rows: seq<Row>, roles: Roles, hasHeaders: bool, args: TimestampArgs)
    returns (err: Option<ConvertError>)
    requires ValidArgs(args) && AllFit(roles, Body(rows, hasHeaders))
    modifies d
    ensures Run(Progress(old(d.styles), old(d.events), None), Body(rows, hasHeaders), roles, args)
            == Progress(d.styles, d.events, err)
    ensures d.scriptType == old(d.scriptType) && d.scriptInfo == old(d.scriptInfo)
  {
    ghost var init := Progress(d.styles, d.events, None);
    ghost var body := Body(rows, hasHeaders);
    ghost var done := 0;  // how many rows of `body` are converted
    var skipHeaders := hasHeaders;
    var i := 0;
    while i < |rows|
      invariant 0 <= i <= |rows|
      invariant skipHeaders == (hasHeaders && i == 0)
      invariant done == if hasHeaders && i > 0 then i - 1 else i
      invariant Run(init, body[..done], roles, args) == Progress(d.styles, d.events, None)
      invariant d.scriptType == old(d.scriptType) && d.scriptInfo == old(d.scriptInfo)
    {
      var row := rows[i];
      if skipHeaders {
        skipHeaders := false;
        i := i + 1;
        continue;
      }
      assert row == body[done];
      RunPrefix(init, body, done, roles, args);
      err := ConvertRow(d, row, roles, args);
      if err.Some? {
        StopAt(init, body, done, roles, args);
        return err;
      }
      i := i + 1;
      done := done + 1;
    }
    assert body[..done] == body;
    return None;
  }

  /** When row `k` of `rows` fails after the rows before it succeeded, the whole run ends
      in that row's error with the state the earlier rows left. */
  lemma StopAt(p: Progress, rows: seq<Row>, k: nat, roles: Roles, args: TimestampArgs)
    requires AllFit(roles, rows) && ValidArgs(args) && k < |rows|
    requires Run(p, rows[..k], roles, args).error.None?
    requires RowEvent(rows[k], roles, args).Failure?
    ensures var q := Run(p, rows[..k], roles, args);
      Run(p, rows, roles, args) == q.(error := Some(RowEvent(rows[k], roles, args).error))
  {
    RunPrefix(p, rows, k, roles, args);
    AllFitSplit(roles, rows, k + 1);
    RunAppend(p, rows[..k + 1], rows[k + 1..], roles, args);
    RunStopped(Run(p, rows[..k + 1], roles, args), rows[k + 1..], roles, args);
  }

  /** The event a row becomes, built field by field in the order of the row loop: the
      start and end times, the escaped dialogue, the italics tag, the actor and the
      style name.  A time cell that fails to convert ends the build with its error. */
  method BuildEvent(row: Row, roles: Roles, args: TimestampArgs) returns (r: Result<Event, ConvertError>)
    requires Fits(roles, row) && ValidArgs(args)
    ensures r == RowEvent(row, roles, args)
  {
    var start: Stamp;
    if Selected(roles.start) {
      var t := ConvertDatetime(row[roles.start.value], args);
      if t.Failure? {
        return Failure(BadTimestamp(t.error));
      }
      start := Time(t.value);
    } else {
      start := ZeroStamp;
    }
    assert Selected(roles.start) ==> TimeCell(row, roles.start, args) == Success(start);

    var end: Stamp;
    if Selected(roles.end) {
      var t := ConvertDatetime(row[roles.end.value], args);
      if t.Failure? {
        return Failure(BadTimestamp(t.error));
      }
      end := Time(t.value);
    } else if Selected(roles.start) {
      end := start;
    } else {
      end := ZeroStamp;
    }
    assert Selected(roles.end) ==> TimeCell(row, roles.end, args) == Success(end);

    var text := if Selected(roles.dialogue) then EscapeNewlines(row[roles.dialogue.value]) else "";
    if Selected(roles.italics) && row[roles.italics.value] != "" {
      text := ItalicsTag + text;
    }
    var name: Option<string> := if Selected(roles.actor) then Some(row[roles.actor.value]) else None;
    var style := if Selected(roles.track) then row[roles.track.value] else DefaultStyleName;
    return Success(Event(start, end, text, name, style));
  }

  /** The body of the row loop: builds the event, adds a style for the row's track if
      no style has that name yet, and appends the event.  A time cell that fails to
      convert leaves the document as it was. */
  method ConvertRow(d: Document, row: Row, roles: Roles, args: TimestampArgs)
    returns (err: Option<ConvertError>)
    requires Fits(roles, row) && ValidArgs(args)
    modifies d
    ensures Step(Progress(old(d.styles), old(d.events), None), row, roles, args)
            == Progress(d.styles, d.events, err)
    ensures d.scriptType == old(d.scriptType) && d.scriptInfo == old(d.scriptInfo)
  {
    var event := BuildEvent(row, roles, args);
    if event.Failure? {
      return Some(event.error);
    }
    if Selected(roles.track) {
      var track := row[roles.track.value];
      var found := FindStyle(d, track);
      if found.None? {
        d.styles := d.styles + [CreateStyle(track, false)];
      }
    }
    d.events := d.events + [event.value];
    return None;
  }
}
