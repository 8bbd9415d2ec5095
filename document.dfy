/** The subtitle document of xls_to_ass.py: `create_style`, `create_document` and
    `find_style`.  Styles and events are plain records; the document is an object whose
    style and event lists are appended to in place. */
module Document {
  import opened Wrappers

  /** A style record; every attribute is the text the source assigns.  `alignment` is
      None while it keeps the subtitle library's own default. */
  datatype Style = Style(
    name: string,
    fontName: string,
    fontSize: string,
    shadow: string,
    marginL: string,
    marginR: string,
    marginV: string,
    alignment: Option<string>)

  /** An event time: a converted duration in microseconds, or the literal text the
      source assigns when there is no time to convert. */
  datatype Stamp = Time(micros: int) | Literal(text: string)

  const ZeroStamp := Literal("0:00:00.00")

  /** A Dialogue event; `name` (the actor) is None while it keeps the library default. */
  datatype Event = Event(start: Stamp, end: Stamp, text: string, name: Option<string>, style: string)

  const DefaultStyleName := "Default"

  /** `create_style` */
  function CreateStyle(name: string, isType: bool): (r: Style)
    ensures r.name == name
    ensures r.alignment.Some? <==> isType
  {
    Style(name, "Trebuchet MS", "24", "2", "40", "40", "20", if isType then Some("8") else None)
  }

  predicate HasStyle(styles: seq<Style>, name: string) {
    exists i :: 0 <= i < |styles| && styles[i].name == name
  }

  predicate UniqueNames(styles: seq<Style>) {
    forall i, j :: 0 <= i < j < |styles| ==> styles[i].name != styles[j].name
  }

  /** The Script Info entries every new document carries. */
  function DefaultScriptInfo(): map<string, string> {
    map["WrapStyle" := "0", "ScaledBorderAndShadow" := "yes", "YCbCr Matrix" := "TV.601",
        "PlayResX" := "640", "PlayResY" := "360"]
  }

  class Document {
    var scriptType: string
    var scriptInfo: map<string, string>
    var styles: seq<Style>
    var events: seq<Event>

    /** A fresh, empty document as the subtitle library creates it. */
    constructor ()
      ensures scriptType == "" && scriptInfo == map[] && styles == [] && events == []
    {
      scriptType := "";
      scriptInfo := map[];
      styles := [];
      events := [];
    }
  }

  /** `create_document`: the fixed script type and Script Info entries and exactly one
      style, "Default". */
  method CreateDocument() returns (doc: Document)
    ensures fresh(doc)
    ensures doc.scriptType == "v4.00+" && doc.scriptInfo == DefaultScriptInfo()
    ensures doc.styles == [CreateStyle(DefaultStyleName, false)] && doc.events == []
    ensures UniqueNames(doc.styles) && HasStyle(doc.styles, DefaultStyleName)
  {
    doc := new Document();
    doc.scriptType := "v4.00+";
    doc.scriptInfo := doc.scriptInfo["WrapStyle" := "0"];
    doc.scriptInfo := doc.scriptInfo["ScaledBorderAndShadow" := "yes"];
    doc.scriptInfo := doc.scriptInfo["YCbCr Matrix" := "TV.601"];
    doc.scriptInfo := doc.scriptInfo["PlayResX" := "640"];
    doc.scriptInfo := doc.scriptInfo["PlayResY" := "360"];
    doc.styles := doc.styles + [CreateStyle(DefaultStyleName, false)];
    assert doc.styles[0].name == DefaultStyleName;
  }

  /** `find_style`: the first style whose name equals `name`, or None. */
  method FindStyle(doc: Document, name: string) returns (r: Option<Style>)
    ensures r.None? <==> !HasStyle(doc.styles, name)
    ensures r.Some? ==> exists k :: 0 <= k < |doc.styles| && doc.styles[k] == r.value
                                  && r.value.name == name
                                  && forall j :: 0 <= j < k ==> doc.styles[j].name != name
  {
    var i := 0;
    while i < |doc.styles|
      invariant 0 <= i <= |doc.styles|
      invariant forall j :: 0 <= j < i ==> doc.styles[j].name != name
    {
      if doc.styles[i].name == name {
        return Some(doc.styles[i]);
      }
      i := i + 1;
    }
    return None;
  }
}
