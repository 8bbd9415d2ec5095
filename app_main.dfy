/** The non-widget logic of src/main.py: `parse_col_value`, and the steps of
    `save_ass_dialog_on_result` that choose the output name and decide whether a
    conversion starts and with which arguments. */
module AppMain {
  import opened Wrappers
  import opened Digits
  import opened Timestamp
  import opened Convert
  import opened DataTable

  /** `int(s)` on ASCII text: an optional sign followed by at least one digit. */
  function ParseInt(s: string): Option<int> {
    if |s| >= 2 && (s[0] == '-' || s[0] == '+') && AllDigits(s[1..]) then
      var magnitude: int := Value(s[1..]);
      Some(if s[0] == '-' then -magnitude else magnitude)
    else if |s| >= 1 && AllDigits(s) then Some(Value(s))
    else None
  }

  /** `parse_col_value`: a non-negative integer is a column, a negative one is "no
      column", anything else raises (Failure carries the text). */
  function ParseColValue(s: string): (r: Result<Option<nat>, string>)
    ensures r.Failure? <==> ParseInt(s).None?
    ensures r.Success? ==> (r.value.Some? <==> ParseInt(s).value >= 0)
    ensures r.Success? && r.value.Some? ==> r.value.value == ParseInt(s).value
  {
    match ParseInt(s)
    case None => Failure(s)
    case Some(i) => Success(if i >= 0 then Some(i) else None)
  }

  /** The key of every dropdown option parses back to its column, and the "no column"
      key to None. */
  lemma {:induction false} OptionKeysRoundTrip(labels: seq<string>)
    ensures var opts := [NoColumnOption] + KeyedOptions(labels);
      && ParseColValue(opts[0].0) == Success(None)
      && forall k :: 1 <= k < |opts| ==> ParseColValue(opts[k].0) == Success(Some(k - 1))
  {
    var opts := [NoColumnOption] + KeyedOptions(labels);
    assert "-1"[1..] == "1" && "1"[..0] == [];
    assert ParseInt("-1") == Some(-1);
    forall k | 1 <= k < |opts|
      ensures ParseColValue(opts[k].0) == Success(Some(k - 1))
    {
      var key := NatToString(k - 1);
      assert opts[k].0 == key;
      assert !(key[0] == '-' || key[0] == '+');
      assert ParseInt(key) == Some(k - 1);
    }
  }

  /** Python's `path[-4:]`: the last four characters, or the whole of a shorter text. */
  function LastFour(path: string): string {
    if |path| >= 4 then path[|path| - 4..] else path
  }

  ghost predicate EndsWithAss(path: string) {
    exists stem :: path == stem + ".ass"
  }

  /** The output file name: ".ass" is appended unless the name already ends with it. */
  function OutputFileName(path: string): (r: string)
    ensures EndsWithAss(r)
    ensures EndsWithAss(path) ==> r == path
    ensures !EndsWithAss(path) ==> r == path + ".ass"
  {
    if LastFour(path) != ".ass" then
      assert EndsWithAss(path + ".ass");
      path + ".ass"
    else
      assert path == path[..|path| - 4] + ".ass";
      path
  }

  /** Naming the output twice is naming it once. */
  lemma OutputFileNameIdempotent(path: string)
    ensures OutputFileName(OutputFileName(path)) == OutputFileName(path)
  {
  }

  /** The dropdown values chosen for the six column roles. */
  datatype Selections = Selections(
    start: string, end: string, dialogue: string, actor: string, track: string, italics: string)

  /** Why the export handler returns without converting (or raises, for a column value
      that is not an integer). */
  datatype ExportStop =
    | NoPath
    | NotAnInteger(text: string)
    | NoStartOrDialogue
    | NoTimestampType
    | BadShift(error: TimeError)

  /** What the export handler passes on to the conversion. */
  datatype ExportJob = ExportJob(fileName: string, roles: Roles, hasHeaders: bool, args: TimestampArgs)

  /** The six `parse_col_value` calls, in the handler's order. */
  function ParseSelections(sel: Selections): Result<Roles, ExportStop> {
    match (ParseColValue(sel.start), ParseColValue(sel.end), ParseColValue(sel.dialogue),
           ParseColValue(sel.actor), ParseColValue(sel.track), ParseColValue(sel.italics))
    case (Failure(s), _, _, _, _, _) => Failure(NotAnInteger(s))
    case (_, Failure(s), _, _, _, _) => Failure(NotAnInteger(s))
    case (_, _, Failure(s), _, _, _) => Failure(NotAnInteger(s))
    case (_, _, _, Failure(s), _, _) => Failure(NotAnInteger(s))
    case (_, _, _, _, Failure(s), _) => Failure(NotAnInteger(s))
    case (_, _, _, _, _, Failure(s)) => Failure(NotAnInteger(s))
    case (Success(a), Success(b), Success(c), Success(d), Success(e), Success(f)) =>
      Success(Roles(a, b, c, d, e, f))
  }

  /** The shift text field: empty means no shift; otherwise it is converted with the
      default options (timecode at 24 frames per second). */
  function ParseShift(text: string): Result<Option<int>, ExportStop> {
    if text == "" then Success(None)
    else match ConvertDatetime(text, DefaultArgs)
      case Success(t) => Success(Some(t))
      case Failure(e) => Failure(BadShift(e))
  }

  /** `save_ass_dialog_on_result` up to the conversion call.  `framerate` and `scale`
      are the already parsed numbers of their text fields, None when a field is empty. */
  function PlanExport(path: string, sel: Selections, hasHeaders: bool, timestampType: Option<string>,
                      framerate: Option<Ratio>, shiftText: string, scale: Option<Ratio>)
    : (r: Result<ExportJob, ExportStop>)
    requires framerate.Some? ==> framerate.value.den > 0
    requires scale.Some? ==> scale.value.den > 0
    ensures path == "" ==> r == Failure(NoPath)
    ensures path != "" && ParseSelections(sel).Failure? ==> r == Failure(ParseSelections(sel).error)
    ensures path != "" && ParseSelections(sel).Success? ==>
      var roles := ParseSelections(sel).value;
      && (roles.start.None? && roles.dialogue.None? ==> r == Failure(NoStartOrDialogue))
      && ((roles.start.Some? || roles.dialogue.Some?) && timestampType.None? ==> r == Failure(NoTimestampType))
      && ((roles.start.Some? || roles.dialogue.Some?) && timestampType.Some? && ParseShift(shiftText).Failure?
          ==> r == Failure(ParseShift(shiftText).error))
    ensures r.Success? <==>
      && path != ""
      && ParseSelections(sel).Success?
      && (ParseSelections(sel).value.start.Some? || ParseSelections(sel).value.dialogue.Some?)
      && timestampType.Some?
      && ParseShift(shiftText).Success?
    ensures r.Success? ==> EndsWithAss(r.value.fileName) && ValidArgs(r.value.args)
    ensures r.Success? ==> r.value.roles.start.Some? || r.value.roles.dialogue.Some?
    ensures r.Success? ==> (r.value.args.isTimecode <==> timestampType == Some("True"))
    ensures r.Success? ==>
      && r.value.fileName == OutputFileName(path)
      && ParseSelections(sel) == Success(r.value.roles)
      && r.value.hasHeaders == hasHeaders
      && r.value.args.framerate == (if framerate.Some? then framerate.value else Ratio(24, 1))
      && ParseShift(shiftText) == Success(r.value.args.shift)
      && r.value.args.scale == scale
  {
    if path == "" then Failure(NoPath)
    else
      var fileName := OutputFileName(path);
      match ParseSelections(sel)
      case Failure(stop) => Failure(stop)
      case Success(roles) =>
        if roles.start.None? && roles.dialogue.None? then Failure(NoStartOrDialogue)
        else if timestampType.None? then Failure(NoTimestampType)
        else
          var isTimecode := timestampType.value == "True";
          var rate := if framerate.Some? then framerate.value else DefaultArgs.framerate;
          match ParseShift(shiftText)
          case Failure(stop) => Failure(stop)
          case Success(shift) =>
            Success(ExportJob(fileName, roles, hasHeaders, TimestampArgs(isTimecode, rate, shift, scale)))
  }

  /** Once the columns parse, the conversion is not started exactly when neither a
      start nor a dialogue column is chosen. */
  lemma StartOrDialogueRequired(path: string, sel: Selections, hasHeaders: bool, timestampType: Option<string>,
                                framerate: Option<Ratio>, shiftText: string, scale: Option<Ratio>, roles: Roles)
    requires framerate.Some? ==> framerate.value.den > 0
    requires scale.Some? ==> scale.value.den > 0
    requires path != "" && ParseSelections(sel) == Success(roles)
    ensures PlanExport(path, sel, hasHeaders, timestampType, framerate, shiftText, scale) == Failure(NoStartOrDialogue)
            <==> roles.start.None? && roles.dialogue.None?
  {
  }

  /** A negative shift such as "-01:00:00.00", though the shift field's hint suggests it,
      always stops the export. */
  lemma NegativeShiftStops(path: string, sel: Selections, hasHeaders: bool, timestampType: Option<string>,
                           framerate: Option<Ratio>, rest: string, scale: Option<Ratio>, roles: Roles)
    requires framerate.Some? ==> framerate.value.den > 0
    requires scale.Some? ==> scale.value.den > 0
    requires path != "" && ParseSelections(sel) == Success(roles) && timestampType.Some?
    requires roles.start.Some? || roles.dialogue.Some?
    ensures PlanExport(path, sel, hasHeaders, timestampType, framerate, "-" + rest, scale)
            == Failure(BadShift(InvalidTimestamp("-" + rest)))
  {
    NegativeTimestampFails(rest, DefaultArgs);
  }
}
