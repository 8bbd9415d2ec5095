/** The worksheet preview of src/main.py (`format_ws_to_datatable`) with the widgets
    reduced to their text: the column labels, the rows shown, and the options of the
    column dropdowns. */
module DataTable {
  import opened Wrappers
  import opened Digits
  import opened Workbook

  /** `DT_MAX_DISPLAY_ROWS` */
  const MaxDisplayRows := 4

  /** The dropdown entry for "no column". */
  const NoColumnOption := ("-1", " ")

  /** What the preview shows: column labels and data rows. */
  datatype Table = Table(columns: seq<string>, rows: seq<Row>)

  /** `f"Column {j+1}"` */
  function ColumnLabel(j: nat): (r: string)
    ensures r != ""
  {
    "Column " + NatToString(j + 1)
  }

  /** The header names after every empty one at index j became "Column {j+1}". */
  function FilledHeader(names: Row): (r: Row)
    ensures |r| == |names|
    ensures forall j :: 0 <= j < |r| ==> r[j] != ""
    ensures forall j :: 0 <= j < |r| && names[j] != "" ==> r[j] == names[j]
    ensures forall j :: 0 <= j < |r| && names[j] == "" ==> r[j] == ColumnLabel(j)
  {
    seq(|names|, j requires 0 <= j < |names| => if names[j] == "" then ColumnLabel(j) else names[j])
  }

  /** The labels used when the sheet has no header row. */
  function GeneratedLabels(n: nat): seq<string> {
    seq(n, j requires 0 <= j < n => ColumnLabel(j))
  }

  /** One dropdown option per label, keyed by the column index as text. */
  function KeyedOptions(labels: seq<string>): seq<(string, string)> {
    seq(|labels|, k requires 0 <= k < |labels| => (NatToString(k), labels[k]))
  }

  /** The index of the first row that has at least one cell. */
  function FirstNonEmpty(rows: seq<Row>): (r: Option<nat>)
    ensures r.None? ==> forall j :: 0 <= j < |rows| ==> rows[j] == []
    ensures r.Some? ==> r.value < |rows| && rows[r.value] != []
                        && forall j :: 0 <= j < r.value ==> rows[j] == []
  {
    if rows == [] then None
    else if rows[0] != [] then Some(0)
    else match FirstNonEmpty(rows[1..])
      case None => None
      case Some(k) => Some(k + 1)
  }

  /** Past the rows before `p`, none of which has cells, row `p` is the first with
      cells exactly when it has any. */
  lemma FirstNonEmptyAt(rows: seq<Row>, p: nat)
    requires p < |rows|
    requires var h := FirstNonEmpty(rows); !(h.Some? && h.value < p)
    ensures var h := FirstNonEmpty(rows); rows[p] != [] <==> h.Some? && h.value == p
  {
  }

  lemma SliceSnoc(s: seq<Row>, i: nat, j: nat)
    requires i <= j < |s|
    ensures s[i..j + 1] == s[i..j] + [s[j]]
  {
  }

  function Min(a: int, b: int): int {
    if a <= b then a else b
  }

  /** The option keys are "-1" followed by the decimal column indices, all distinct. */
  lemma OptionKeysDistinct(labels: seq<string>)
    ensures var opts := [NoColumnOption] + KeyedOptions(labels);
      forall a, b :: 0 <= a < b < |opts| ==> opts[a].0 != opts[b].0
  {
    var opts := [NoColumnOption] + KeyedOptions(labels);
    forall a, b | 0 <= a < b < |opts|
      ensures opts[a].0 != opts[b].0
    {
      if a == 0 {
        assert AllDigits(opts[b].0);
        assert !IsDigit(opts[a].0[0]);
      }
    }
  }

  /** The inner loop of the header branch: overwrites, in the worksheet's own row, every
      empty name with its generated label. */
  method FillHeaderNames(ws: Worksheet, h: nat)
    requires h < |ws.rows|
    modifies ws
    ensures ws.rows == old(ws.rows)[h := FilledHeader(old(ws.rows)[h])]
  {
    var j := 0;
    while j < |ws.rows[h]|
      invariant |ws.rows| == |old(ws.rows)| && |ws.rows[h]| == |old(ws.rows)[h]|
      invariant 0 <= j <= |ws.rows[h]|
      invariant forall k :: 0 <= k < |ws.rows| && k != h ==> ws.rows[k] == old(ws.rows)[k]
      invariant ws.rows[h][..j] == FilledHeader(old(ws.rows)[h])[..j]
      invariant ws.rows[h][j..] == old(ws.rows)[h][j..]
    {
      if ws.rows[h][j] == "" {
        ws.rows := ws.rows[h := ws.rows[h][j := ColumnLabel(j)]];
      }
      j := j + 1;
    }
    assert ws.rows[h] == ws.rows[h][..j] == FilledHeader(old(ws.rows)[h]);
    assert forall k :: 0 <= k < |ws.rows| ==> ws.rows[k] == old(ws.rows)[h := FilledHeader(old(ws.rows)[h])][k];
  }

  /** `format_ws_to_datatable`.  The first row with cells gives the labels: with headers
      its empty names are filled in place and it is not shown; without headers the labels
      are generated and it is shown like any other row.  With headers, empty rows before
      it are skipped as headers too.  At most `MaxDisplayRows` rows are shown. */
  method FormatWsToDatatable(ws: Worksheet, hasHeaders: bool)
    returns (table: Table, options: seq<(string, string)>)
    modifies ws
    ensures options == [NoColumnOption] + KeyedOptions(table.columns)
    ensures |table.rows| <= MaxDisplayRows
    ensures var rows, h := old(ws.rows), FirstNonEmpty(old(ws.rows));
      if hasHeaders then
        if h.None? then ws.rows == rows && table == Table([], [])
        else
          && ws.rows == rows[h.value := FilledHeader(rows[h.value])]
          && table.columns == FilledHeader(rows[h.value])
          && table.rows == rows[h.value + 1..Min(h.value + 1 + MaxDisplayRows, |rows|)]
      else
        && ws.rows == rows
        && table.rows == rows[..Min(MaxDisplayRows, |rows|)]
        && table.columns == if h.Some? && h.value <= MaxDisplayRows then GeneratedLabels(|rows[h.value]|) else []
  {
    ghost var orig := ws.rows;
    ghost var h := FirstNonEmpty(orig);
    var i := 0;
    var rows: seq<Row> := [];
    var cols: seq<string> := [];
    var ddOptions: seq<(string, string)> := [];
    var p := 0;
    while p < |ws.rows|
      invariant |ws.rows| == |orig|
      invariant 0 <= p <= |orig|
      invariant cols == [] <==> !(h.Some? && h.value < p)
      invariant ddOptions == KeyedOptions(cols)
      invariant i == |rows| <= MaxDisplayRows
      invariant hasHeaders && !(h.Some? && h.value < p) ==> ws.rows == orig && rows == []
      invariant hasHeaders && h.Some? && h.value < p ==>
        && ws.rows == orig[h.value := FilledHeader(orig[h.value])]
        && cols == FilledHeader(orig[h.value])
        && rows == orig[h.value + 1..p]
      invariant !hasHeaders ==>
        && ws.rows == orig && rows == orig[..p]
        && cols == if h.Some? && h.value < p then GeneratedLabels(|orig[h.value]|) else []
    {
      var r := ws.rows[p];
      if cols == [] {
        FirstNonEmptyAt(orig, p);
        if hasHeaders {
          FillHeaderNames(ws, p);
          var colNames := ws.rows[p];
          cols := colNames;
          ddOptions := KeyedOptions(colNames);
          p := p + 1;
          continue;
        } else {
          var colNames := GeneratedLabels(|r|);
          cols := colNames;
          ddOptions := KeyedOptions(colNames);
        }
      }
      if i == MaxDisplayRows {
        break;
      }
      SliceSnoc(orig, if hasHeaders && h.Some? then h.value + 1 else 0, p);
      rows := rows + [r];
      i := i + 1;
      p := p + 1;
    }
    ddOptions := [NoColumnOption] + ddOptions;
    table := Table(cols, rows);
    options := ddOptions;
  }
}
