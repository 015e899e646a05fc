/** The command-line helpers of src/cli/util.ts: choosing the input file
    from the arguments, and rendering a document's diagnostics as text with
    the offending line and a row of carets under the range. */
module Cli {
  import opened Results
  import opened Strings
  import opened Syntax
  import opened SourceText
  import opened Diagnostics
  import opened Document

  // ----- arguments -----

  const ArgumentCountError := "Invalid number of arguments ファイルは一つ指定してください"

  /** `getFilename`: no argument means standard input (`None`), one
      argument is the file name, more is an error. */
  function GetFilename(args: seq<string>): (r: Result<Option<string>>)
    ensures r == Ok(None) <==> |args| == 0
    ensures r.Ok? && r.value.Some? <==> |args| == 1
    ensures r.Ok? && r.value.Some? ==> r.value.value == args[0]
    ensures r.Err? <==> |args| >= 2
    ensures r.Err? ==> r.error == ArgumentCountError
  {
    if |args| == 0 then Ok(None)
    else if |args| == 1 then Ok(Some(args[0]))
    else Err(ArgumentCountError)
  }

  // ----- one diagnostic -----

  /** The name of a severity; a diagnostic without one is shown as an error. */
  function SeverityName(sev: Option<Severity>): (name: string)
    ensures name == "error" <==> sev == None || sev == Some(Error)
    ensures name in {"error", "warning", "information", "hint"}
  {
    match sev.GetOr(Error)
    case Error => "error"
    case Warning => "warning"
    case Information => "information"
    case Hint => "hint"
  }

  /** The first line of a rendered diagnostic: severity and message. */
  function HeadLine(d: Diagnostic): string
  {
    SeverityName(d.severity) + ": " + d.message
  }

  /** The blank margin before each `|`: as wide as the decimal end line. */
  function Margin(d: Diagnostic): (m: string)
    ensures |m| == |NatToString(d.range.end.line)|
    ensures forall k :: 0 <= k < |m| ==> m[k] == ' '
  {
    Repeat(' ', |NatToString(d.range.end.line)|)
  }

  predicate SingleLine(d: Diagnostic)
  {
    d.range.start.line == d.range.end.line
  }

  /** The caret count `end - start + 1` is not negative: the range ends at
      most one column before it starts. */
  predicate CaretsFit(d: Diagnostic)
  {
    d.range.start.col <= d.range.end.col + 1
  }

  /** `"^".repeat(n)` throws for a negative count. It is reached only for a
      single-line range whose line the document has: a missing line returns
      the construction error first. */
  predicate Renderable(d: Diagnostic, doc: Stlap)
  {
    SingleLine(d) && d.range.start.line < |doc.text.table| ==> CaretsFit(d)
  }

  /** The rows under the head line: a bare margin row, and, when the source
      line is shown, the numbered line and the caret row before a closing
      margin row. */
  function Segment(d: Diagnostic, line: Option<string>): (rows: seq<string>)
    requires line.Some? ==> CaretsFit(d) && SingleLine(d)
    ensures |rows| == if line.Some? then 4 else 1
    ensures rows[0] == rows[|rows| - 1] == Margin(d) + "|"
  {
    var bare := Margin(d) + "|";
    match line
    case None => [bare]
    case Some(l) =>
      var numbered := NatToString(d.range.start.line) + "| " + l;
      var carets := Margin(d) + "| " + Repeat(' ', d.range.start.col)
        + Repeat('^', d.range.end.col - d.range.start.col + 1);
      [bare, numbered, carets, bare]
  }

  const ConstructionError := "Message Construction Error "

  /** `DiagnosticAsPrettyString`: the head line, then the segment rows. A
      range over several lines shows no source line; a single-line range
      whose line the document cannot give is an error. */
  function DiagnosticAsPrettyString(d: Diagnostic, doc: Stlap): (r: Result<string>)
    requires Renderable(d, doc)
    ensures r.Err? <==> SingleLine(d) && d.range.start.line >= |doc.text.table|
    ensures r.Err? ==> r.error == ConstructionError + LineOutOfRange
    ensures r.Ok? ==> StartsWith(r.value, HeadLine(d) + "\n")
  {
    var head := HeadLine(d) + "\n";
    if !SingleLine(d) then Ok(head + Join(Segment(d, None), "\n"))
    else
      match GetLine(doc.text, d.range.start.line)
      case Err(e) => Err(ConstructionError + e)
      case Ok(l) => Ok(head + Join(Segment(d, Some(l)), "\n"))
  }

  /** A range over several lines renders as the head line and one margin row. */
  lemma MultiLineRendering(d: Diagnostic, doc: Stlap)
    requires !SingleLine(d)
    ensures DiagnosticAsPrettyString(d, doc) == Ok(HeadLine(d) + "\n" + Margin(d) + "|")
  {
    assert Segment(d, None) == [Margin(d) + "|"];
    assert HeadLine(d) + "\n" + (Margin(d) + "|") == HeadLine(d) + "\n" + Margin(d) + "|";
  }

  /** A string free of line feeds, from its characters. */
  lemma NoLineFeed(s: string)
    requires forall k :: 0 <= k < |s| ==> s[k] != '\n'
    ensures '\n' !in s
  {
  }

  /** Read line by line, a single-line rendering is the head line followed by
      the segment rows, provided neither the message nor the source line
      holds a line feed. */
  lemma RenderingLines(d: Diagnostic, doc: Stlap)
    requires Renderable(d, doc) && SingleLine(d) && d.range.start.line < |doc.text.table|
    requires '\n' !in d.message && '\n' !in GetLine(doc.text, d.range.start.line).value
    ensures var l := GetLine(doc.text, d.range.start.line).value;
      Split(DiagnosticAsPrettyString(d, doc).value, '\n') == [HeadLine(d)] + Segment(d, Some(l))
  {
    var l := GetLine(doc.text, d.range.start.line).value;
    var rows := Segment(d, Some(l));
    var all := [HeadLine(d)] + rows;
    var name := SeverityName(d.severity);
    NoLineFeed(name);
    NoLineFeed(Margin(d));
    NoLineFeed(NatToString(d.range.start.line));
    NoLineFeed(Repeat(' ', d.range.start.col));
    NoLineFeed(Repeat('^', d.range.end.col - d.range.start.col + 1));
    assert '\n' !in HeadLine(d);
    assert forall k :: 0 <= k < |all| ==> '\n' !in all[k];
    assert all[1..] == rows;
    assert Join(all, "\n") == HeadLine(d) + "\n" + Join(rows, "\n");
    SplitJoin(all, '\n');
  }

  /** The caret row lines up with the numbered line: both start with a
      prefix of the same width (the decimal line number or a blank margin,
      then `| `); past it, the numbered row is the source line and the caret
      row holds a blank under every column before the range's start and a
      caret under every column from the start to the end, and stops there. */
  lemma {:induction false} CaretsUnderRange(d: Diagnostic, l: string)
    requires CaretsFit(d) && SingleLine(d)
    ensures var rows := Segment(d, Some(l));
      var w := |NatToString(d.range.end.line)| + 2;
      && |rows[1]| >= w && |rows[2]| >= w
      && rows[1][..w] == NatToString(d.range.start.line) + "| "
      && rows[2][..w] == Margin(d) + "| "
      && rows[1][w..] == l
      && |rows[2][w..]| == d.range.end.col + 1
      && (forall k :: 0 <= k < d.range.start.col ==> rows[2][w..][k] == ' ')
      && (forall k :: d.range.start.col <= k <= d.range.end.col ==> rows[2][w..][k] == '^')
  {
    var rows := Segment(d, Some(l));
    var w := |NatToString(d.range.end.line)| + 2;
    var blanks := Repeat(' ', d.range.start.col);
    var hats := Repeat('^', d.range.end.col - d.range.start.col + 1);
    assert rows[1] == (NatToString(d.range.start.line) + "| ") + l;
    assert rows[2] == (Margin(d) + "| ") + (blanks + hats);
    assert rows[2][w..] == blanks + hats;
  }

  // ----- a document's diagnostics -----

  /** The number of diagnostics `slice(0, limit)` keeps: a negative limit
      counts back from the end, and neither end goes past the list. */
  function SliceEnd(n: nat, limit: int): (e: nat)
    ensures e <= n
    ensures 0 <= limit <= n ==> e == limit
    ensures limit > n ==> e == n
    ensures limit < 0 ==> e == if n + limit < 0 then 0 else n + limit
  {
    if limit < 0 then (if n + limit < 0 then 0 else n + limit)
    else if limit > n then n
    else limit
  }

  /** The default `limit` of `getDiagnosticsAsPrettyString`. */
  const DefaultLimit := 5

  /** The diagnostics shown under `limit`. */
  function Shown(doc: Stlap, limit: int): seq<Diagnostic>
  {
    doc.diagnostics[..SliceEnd(|doc.diagnostics|, limit)]
  }

  predicate AllRenderable(ds: seq<Diagnostic>, doc: Stlap)
  {
    forall i :: 0 <= i < |ds| ==> Renderable(ds[i], doc)
  }

  /** The rendering of each diagnostic, in order. */
  function RenderEach(ds: seq<Diagnostic>, doc: Stlap): (rs: seq<Result<string>>)
    requires AllRenderable(ds, doc)
    ensures |rs| == |ds|
  {
    seq(|ds|, i requires 0 <= i < |ds| => DiagnosticAsPrettyString(ds[i], doc))
  }

  /** The renderings of the shown diagnostics separated by a blank line, or
      the first error among them. */
  function PrettySpec(doc: Stlap, limit: int): Result<string>
    requires AllRenderable(Shown(doc, limit), doc)
  {
    match AllOk(RenderEach(Shown(doc, limit), doc))
    case Err(e) => Err(e)
    case Ok(ms) => Ok(Join(ms, "\n\n"))
  }

  /** `getDiagnosticsAsPrettyString`: renders the first diagnostics in turn,
      returning the first error. */
  method GetDiagnosticsAsPrettyString(doc: Stlap, limit: int) returns (r: Result<string>)
    requires AllRenderable(Shown(doc, limit), doc)
    ensures r == PrettySpec(doc, limit)
  {
    var ds := doc.diagnostics[..SliceEnd(|doc.diagnostics|, limit)];
    ghost var results := RenderEach(ds, doc);
    var messages: seq<string> := [];
    for i := 0 to |ds|
      invariant AllOk(results[..i]) == Ok(messages)
    {
      var msg := DiagnosticAsPrettyString(ds[i], doc);
      assert results[i] == msg;
      AllOkStep(results, i, messages);
      if msg.Err? {
        return msg;
      }
      messages := messages + [msg.value];
    }
    assert results[..|ds|] == results;
    r := Ok(Join(messages, "\n\n"));
  }

  /** The rendering fails exactly when a shown single-line diagnostic names
      a line the document does not have, and then with the construction
      error; otherwise it joins one rendering per shown diagnostic, in order. */
  lemma PrettyOutcome(doc: Stlap, limit: int)
    requires AllRenderable(Shown(doc, limit), doc)
    ensures PrettySpec(doc, limit).Err? ==>
      (exists i :: 0 <= i < |Shown(doc, limit)| &&
        SingleLine(Shown(doc, limit)[i]) && Shown(doc, limit)[i].range.start.line >= |doc.text.table|)
    ensures (exists i :: 0 <= i < |Shown(doc, limit)| &&
                SingleLine(Shown(doc, limit)[i]) && Shown(doc, limit)[i].range.start.line >= |doc.text.table|) ==>
      PrettySpec(doc, limit).Err?
    ensures PrettySpec(doc, limit).Err? ==> PrettySpec(doc, limit).error == ConstructionError + LineOutOfRange
    ensures PrettySpec(doc, limit).Ok? ==>
      exists ms: seq<string> ::
        && |ms| == |Shown(doc, limit)|
        && (forall i :: 0 <= i < |ms| ==> DiagnosticAsPrettyString(Shown(doc, limit)[i], doc) == Ok(ms[i]))
        && PrettySpec(doc, limit).value == Join(ms, "\n\n")
  {
    var ds := Shown(doc, limit);
    var rs := RenderEach(ds, doc);
    AllOkOutcome(rs);
    if AllOk(rs).Ok? {
      var ms := AllOk(rs).value;
      assert PrettySpec(doc, limit) == Ok(Join(ms, "\n\n"));
      forall i | 0 <= i < |ms| ensures DiagnosticAsPrettyString(ds[i], doc) == Ok(ms[i]) {
        assert rs[i] == DiagnosticAsPrettyString(ds[i], doc);
      }
      forall i | 0 <= i < |ds| ensures !(SingleLine(ds[i]) && ds[i].range.start.line >= |doc.text.table|) {
        assert rs[i] == DiagnosticAsPrettyString(ds[i], doc);
      }
    } else {
      assert PrettySpec(doc, limit) == Err(AllOk(rs).error);
      var i :| FailsFirst(rs, i) && rs[i].error == AllOk(rs).error;
      assert rs[i] == DiagnosticAsPrettyString(ds[i], doc);
    }
  }

  /** With the default limit at most five diagnostics are rendered, and a
      document with no diagnostics renders as the empty string. */
  lemma DefaultShowsFive(doc: Stlap)
    ensures |Shown(doc, DefaultLimit)| == if |doc.diagnostics| < 5 then |doc.diagnostics| else 5
    ensures doc.diagnostics == [] ==> PrettySpec(doc, DefaultLimit) == Ok("")
  {
  }
}
