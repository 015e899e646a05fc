/** The passages of the older line-based format (src/stlap.ts): `@flag` and
    `@collect` rows, `//` comments, `\` escapes, and text rows. */
module LegacyPassage {
  import opened Results
  import opened Strings

  // ----- flag and collect rows -----

  /** JavaScript's `\w`. */
  predicate IsWordChar(c: char) {
    ('A' <= c <= 'Z') || ('a' <= c <= 'z') || ('0' <= c <= '9') || c == '_'
  }

  /** `[A-Za-z_]`. */
  predicate IsIdentStart(c: char) {
    ('A' <= c <= 'Z') || ('a' <= c <= 'z') || c == '_'
  }

  /** `[A-Za-z_]\w*`. */
  predicate IsIdentifier(s: string) {
    |s| > 0 && IsIdentStart(s[0]) && forall k :: 0 <= k < |s| ==> IsWordChar(s[k])
  }

  /** Length of the run of word characters starting at `i`. */
  function WordRun(s: string, i: nat): (n: nat)
    requires i <= |s|
    ensures i + n <= |s|
    ensures forall k :: i <= k < i + n ==> IsWordChar(s[k])
    ensures i + n == |s| || !IsWordChar(s[i + n])
    decreases |s| - i
  {
    if i == |s| || !IsWordChar(s[i]) then 0 else 1 + WordRun(s, i + 1)
  }

  lemma {:induction false} WordRunExact(s: string, i: nat, n: nat)
    requires i + n <= |s|
    requires forall k :: i <= k < i + n ==> IsWordChar(s[k])
    requires i + n == |s| || !IsWordChar(s[i + n])
    ensures WordRun(s, i) == n
    decreases n
  {
    if n > 0 {
      WordRunExact(s, i + 1, n - 1);
    }
  }

  function ParseError(row: string): string
  {
    "Parse Error: " + row
  }

  /** `/^<marker>[^\S\r\n]+([A-Za-z_]\w*)[^\S\r\n]*$/` on a row, giving
      the captured name. The groups cannot overlap (a blank is never a word
      character), so each is the maximal run of its class. */
  function ParseMarker(row: string, marker: string): (r: Result<string>)
    ensures r.Err? ==> r.error == ParseError(row)
    ensures r.Ok? ==> IsIdentifier(r.value) && StartsWith(row, marker)
  {
    var k := |marker|;
    if !StartsWith(row, marker) then Err(ParseError(row))
    else
      var s := Span(row, k, Blank);
      var w := WordRun(row, k + s);
      if s > 0 && w > 0 && IsIdentStart(row[k + s]) && Span(row, k + s + w, Blank) == |row| - (k + s + w)
      then Ok(row[k + s..k + s + w])
      else Err(ParseError(row))
  }

  /** `Flag.fromString`. */
  function FlagFromString(row: string): (r: Result<string>)
    ensures r.Err? ==> r.error == ParseError(row)
    ensures r.Ok? ==> IsIdentifier(r.value) && StartsWith(row, "@flag")
  {
    ParseMarker(row, "@flag")
  }

  /** `Collect.fromString`. */
  function CollectFromString(row: string): (r: Result<string>)
    ensures r.Err? ==> r.error == ParseError(row)
    ensures r.Ok? ==> IsIdentifier(r.value) && StartsWith(row, "@collect")
  {
    ParseMarker(row, "@collect")
  }

  /** A row that parses is the marker, a non-empty run of blanks, the
      name, and blanks only. */
  lemma MarkerSound(row: string, marker: string)
    requires ParseMarker(row, marker).Ok?
    ensures exists blanks, trail ::
      && row == marker + blanks + ParseMarker(row, marker).value + trail
      && |blanks| > 0 && All(blanks, Blank) && All(trail, Blank)
  {
    var k := |marker|;
    var s := Span(row, k, Blank);
    var w := WordRun(row, k + s);
    var name := row[k + s..k + s + w];
    assert ParseMarker(row, marker) == Ok(name);
    MarkerParts(row, marker, s, w);
  }

  /** A row that starts with the marker, laid out as a run of blanks, a
      middle part and blanks to the end, as strings. */
  lemma MarkerParts(row: string, marker: string, s: nat, w: nat)
    requires StartsWith(row, marker)
    requires |marker| + s + w <= |row|
    requires forall i :: |marker| <= i < |marker| + s ==> IsBlank(row[i])
    requires Span(row, |marker| + s + w, Blank) == |row| - (|marker| + s + w)
    ensures row == marker + row[|marker|..|marker| + s] + row[|marker| + s..|marker| + s + w] + row[|marker| + s + w..]
    ensures All(row[|marker|..|marker| + s], Blank) && All(row[|marker| + s + w..], Blank)
  {
    var k := |marker|;
    AllSlice(row, k, k + s, Blank);
    AllSlice(row, k + s + w, |row|, Blank);
    assert row[k + s + w..] == row[k + s + w..|row|];
    assert row[..k] == marker;
    FourPieces(row, k, k + s, k + s + w);
  }

  /** Index facts of `marker + blanks + name + trail`. */
  lemma MarkerLayout(row: string, marker: string, blanks: string, name: string, trail: string)
    requires row == marker + blanks + name + trail
    ensures var k := |marker|;
      && StartsWith(row, marker)
      && (forall i :: 0 <= i < |blanks| ==> row[k + i] == blanks[i])
      && (forall i :: 0 <= i < |name| ==> row[k + |blanks| + i] == name[i])
      && (forall i :: 0 <= i < |trail| ==> row[k + |blanks| + |name| + i] == trail[i])
      && row[k + |blanks|..k + |blanks| + |name|] == name
  {
    assert row[..|marker|] == marker;
  }

  /** The runs the scan measures in a row laid out as blanks, a word, and
      blanks to the end. */
  lemma MarkerRuns(row: string, k: nat, b: nat, n: nat)
    requires k + b + n <= |row|
    requires forall i :: k <= i < k + b ==> IsBlank(row[i])
    requires forall i :: k + b <= i < k + b + n ==> IsWordChar(row[i])
    requires forall i :: k + b + n <= i < |row| ==> IsBlank(row[i])
    requires n > 0
    ensures Span(row, k, Blank) == b
    ensures WordRun(row, k + b) == n
    ensures Span(row, k + b + n, Blank) == |row| - (k + b + n)
  {
    SpanExact(row, k, b, Blank);
    WordRunExact(row, k + b, n);
    SpanExact(row, k + b + n, |row| - (k + b + n), Blank);
  }

  /** Every row of that shape parses, and to that name. */
  lemma MarkerComplete(marker: string, blanks: string, name: string, trail: string)
    requires |blanks| > 0 && All(blanks, Blank) && IsIdentifier(name) && All(trail, Blank)
    ensures ParseMarker(marker + blanks + name + trail, marker) == Ok(name)
  {
    var row := marker + blanks + name + trail;
    var k := |marker|;
    MarkerLayout(row, marker, blanks, name, trail);
    assert row[k + |blanks|] == name[0];
    MarkerRuns(row, k, |blanks|, |name|);
  }

  // ----- rows -----

  /** `row` without one trailing carriage return. */
  function DropCarriageReturn(row: string): string
  {
    if |row| > 0 && row[|row| - 1] == '\r' then row[..|row| - 1] else row
  }

  /** `s.split(/\r?\n/)`: the pieces between line feeds, a carriage return
      directly before a line feed belonging to the separator. */
  function SplitRows(s: string): (rows: seq<string>)
    ensures |rows| == |Split(s, '\n')| >= 1
    ensures forall i :: 0 <= i < |rows| ==> '\n' !in rows[i]
  {
    var parts := Split(s, '\n');
    seq(|parts|, i requires 0 <= i < |parts| => if i + 1 < |parts| then DropCarriageReturn(parts[i]) else parts[i])
  }

  /** A line feed ends a row, and a carriage return directly before it is
      dropped from that row. */
  lemma RowsAtLineFeed(a: string, b: string)
    requires '\n' !in a
    ensures SplitRows(a + "\n" + b) == [DropCarriageReturn(a)] + SplitRows(b)
  {
    SplitFirst(a, '\n', b);
    var parts := Split(a + "\n" + b, '\n');
    var rest := Split(b, '\n');
    assert parts == [a] + rest;
    var r, r' := SplitRows(a + "\n" + b), [DropCarriageReturn(a)] + SplitRows(b);
    forall i | 0 <= i < |r| ensures r[i] == r'[i] {
      if i > 0 {
        assert parts[i] == rest[i - 1];
      }
    }
  }

  /** `/\r?\n/` separates rows: "\r\n" and a lone "\n" both end a row, and
      a text without line feeds is one row. Applied from the left, these
      determine the rows of every text. */
  lemma RowSeparators(a: string, b: string)
    requires '\n' !in a
    ensures SplitRows(a) == [a]
    ensures SplitRows(a + "\r\n" + b) == [a] + SplitRows(b)
    ensures (a == [] || a[|a| - 1] != '\r') ==> SplitRows(a + "\n" + b) == [a] + SplitRows(b)
  {
    RowsAtLineFeed(a, b);
    var a' := a + "\r";
    assert a + "\r\n" + b == a' + "\n" + b;
    assert a'[..|a'| - 1] == a;
    RowsAtLineFeed(a', b);
  }

  /** Without carriage returns, the rows joined by line feeds are the
      source. */
  lemma RowsRejoin(s: string)
    requires '\r' !in s
    ensures Join(SplitRows(s), "\n") == s
  {
    var parts := Split(s, '\n');
    JoinSplit(s, '\n');
    forall i | 0 <= i < |parts| ensures SplitRows(s)[i] == parts[i] {
      if |parts[i]| > 0 {
        JoinKeeps(parts, '\n', i, |parts[i]| - 1);
      }
    }
    assert SplitRows(s) == parts;
  }

  /** What a row contributes to its passage. */
  datatype Row = TextRow(text: string) | Silent | FlagRow(name: string) | CollectRow(name: string)

  function InvalidAtUse(row: string): string
  {
    "Parse Error Invalid @ use: " + row
  }

  /** The body of `Passage.fromString`'s loop for one row. */
  function ClassifyRow(row: string): (r: Result<Row>)
    ensures r.Err? ==> StartsWith(row, "@")
    ensures r.Err? && !StartsWith(row, "@flag") && !StartsWith(row, "@collect") ==> r.error == InvalidAtUse(row)
    ensures r.Ok? && r.value.TextRow? ==>
      || (StartsWith(row, "\\@") && r.value.text == row[1..])
      || (!StartsWith(row, "\\") && !StartsWith(row, "//") && !StartsWith(row, "@") && r.value.text == row)
    ensures r.Ok? && r.value.FlagRow? ==> FlagFromString(row) == Ok(r.value.name)
    ensures r.Ok? && r.value.CollectRow? ==> CollectFromString(row) == Ok(r.value.name)
    ensures StartsWith(row, "\\@") ==> r == Ok(TextRow(row[1..]))
    ensures StartsWith(row, "\\") && !StartsWith(row, "\\@") ==> r == Ok(Silent)
    ensures StartsWith(row, "//") ==> r == Ok(Silent)
    ensures !StartsWith(row, "\\") && !StartsWith(row, "//") && !StartsWith(row, "@") ==> r == Ok(TextRow(row))
  {
    if StartsWith(row, "\\") then
      if StartsWith(row, "\\@") then Ok(TextRow(row[1..])) else Ok(Silent)
    else if StartsWith(row, "//") then Ok(Silent)
    else if StartsWith(row, "@") then
      if StartsWith(row, "@flag") then
        match FlagFromString(row)
        case Ok(name) => Ok(FlagRow(name))
        case Err(e) => Err(e)
      else if StartsWith(row, "@collect") then
        match CollectFromString(row)
        case Ok(name) => Ok(CollectRow(name))
        case Err(e) => Err(e)
      else Err(InvalidAtUse(row))
    else Ok(TextRow(row))
  }

  /** A row is rejected exactly when it starts with "@" and is neither a
      valid flag row nor a valid collect row. */
  lemma RejectedRow(row: string)
    ensures ClassifyRow(row).Err? <==>
      StartsWith(row, "@") && FlagFromString(row).Err? && CollectFromString(row).Err?
  {
    if StartsWith(row, "@flag") {
      assert row[1] == 'f';
      assert !StartsWith(row, "@collect");
      assert StartsWith(row, "@");
    } else if StartsWith(row, "@collect") {
      assert StartsWith(row, "@");
    }
  }

  /** The class of every row, in order. */
  function ClassifyAll(rows: seq<string>): (rs: seq<Result<Row>>)
    ensures |rs| == |rows| && forall i :: 0 <= i < |rows| ==> rs[i] == ClassifyRow(rows[i])
  {
    seq(|rows|, i requires 0 <= i < |rows| => ClassifyRow(rows[i]))
  }

  /** The text contributions of classified rows, in order. */
  function Texts(rs: seq<Row>): seq<string>
  {
    if rs == [] then []
    else Texts(rs[..|rs| - 1]) + (if rs[|rs| - 1].TextRow? then [rs[|rs| - 1].text] else [])
  }

  /** The names of the flag rows, in order. */
  function Flags(rs: seq<Row>): seq<string>
  {
    if rs == [] then []
    else Flags(rs[..|rs| - 1]) + (if rs[|rs| - 1].FlagRow? then [rs[|rs| - 1].name] else [])
  }

  /** The names of the collect rows, in order. */
  function Collects(rs: seq<Row>): seq<string>
  {
    if rs == [] then []
    else Collects(rs[..|rs| - 1]) + (if rs[|rs| - 1].CollectRow? then [rs[|rs| - 1].name] else [])
  }

  /** One more row adds its text, flag or collect name at the end. */
  lemma GatherSnoc(rs: seq<Row>, v: Row)
    ensures Texts(rs + [v]) == Texts(rs) + (if v.TextRow? then [v.text] else [])
    ensures Flags(rs + [v]) == Flags(rs) + (if v.FlagRow? then [v.name] else [])
    ensures Collects(rs + [v]) == Collects(rs) + (if v.CollectRow? then [v.name] else [])
  {
    assert (rs + [v])[..|rs|] == rs;
  }

  /** A passage: its source, its text (the text rows run together), and its
      flag and collect names in row order. */
  datatype Passage = Passage(source: string, text: string, flags: seq<string>, collects: seq<string>)

  /** What `Passage.fromString` returns. */
  function PassageSpec(source: string): Result<Passage>
  {
    match AllOk(ClassifyAll(SplitRows(source)))
    case Err(e) => Err(e)
    case Ok(rs) => Ok(Passage(source, Join(Texts(rs), ""), Flags(rs), Collects(rs)))
  }

  /** `Passage.fromString`: the rows split at line ends, then gathered. */
  method PassageFromString(source: string) returns (r: Result<Passage>)
    ensures r == PassageSpec(source)
  {
    var rows := SplitRows(source);
    var gathered := GatherRows(rows);
    match gathered {
      case Err(e) => r := Err(e);
      case Ok((textRows, flags, collects)) => r := Ok(Passage(source, Join(textRows, ""), flags, collects));
    }
  }

  /** The loop of `Passage.fromString`: rows are classified in order and
      text rows, flags and collects gathered; the first row in error ends
      the loop with its error. */
  method GatherRows(rows: seq<string>) returns (r: Result<(seq<string>, seq<string>, seq<string>)>)
    ensures AllOk(ClassifyAll(rows)).Err? ==> r == Err(AllOk(ClassifyAll(rows)).error)
    ensures AllOk(ClassifyAll(rows)).Ok? ==>
      var rs := AllOk(ClassifyAll(rows)).value;
      r == Ok((Texts(rs), Flags(rs), Collects(rs)))
  {
    var textRows: seq<string> := [];
    var flags: seq<string> := [];
    var collects: seq<string> := [];
    ghost var results := ClassifyAll(rows);
    ghost var rs: seq<Row> := [];
    assert results[..0] == [];
    for i := 0 to |rows|
      invariant AllOk(results[..i]) == Ok(rs)
      invariant textRows == Texts(rs) && flags == Flags(rs) && collects == Collects(rs)
    {
      var row := ClassifyRow(rows[i]);
      assert results[i] == row;
      assert results[..i + 1] == results[..i] + [row];
      if row.Err? {
        AllOkErrPersists(results, i + 1);
        return Err(row.error);
      }
      match row.value {
        case TextRow(text) =>
          textRows := textRows + [text];
        case FlagRow(name) =>
          flags := flags + [name];
        case CollectRow(name) =>
          collects := collects + [name];
        case Silent =>
      }
      GatherSnoc(rs, row.value);
      rs := rs + [row.value];
    }
    assert results[..|rows|] == results;
    r := Ok((textRows, flags, collects));
  }

  /** A passage fails exactly when one of its rows is rejected, and then
      with the error of the first such row; otherwise it keeps its source. */
  lemma PassageOutcome(source: string)
    ensures var rows := SplitRows(source);
      PassageSpec(source).Err? <==> exists i :: 0 <= i < |rows| && ClassifyRow(rows[i]).Err?
    ensures var rows := SplitRows(source);
      PassageSpec(source).Err? ==>
        exists i :: FailsFirst(ClassifyAll(rows), i) && PassageSpec(source).error == ClassifyRow(rows[i]).error
    ensures PassageSpec(source).Ok? ==> PassageSpec(source).value.source == source
  {
    var rows := SplitRows(source);
    AllOkOutcome(ClassifyAll(rows));
    if PassageSpec(source).Err? {
      var i :| FailsFirst(ClassifyAll(rows), i) && ClassifyAll(rows)[i].error == AllOk(ClassifyAll(rows)).error;
      assert ClassifyAll(rows)[i] == ClassifyRow(rows[i]);
    }
  }
}
