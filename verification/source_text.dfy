/** The source text of a document and its line-offset table
    (`numberOfCharUntilLine` of src/core/stlap.ts), with the two ways of
    reading it back: `getText` by range and `getLine` by line number. */
module SourceText {
  import opened Results
  import opened Strings
  import opened Syntax

  /** A source and its table of line start offsets. */
  datatype Text = Text(source: string, table: seq<nat>)

  const LineOutOfRange := "Line number out of range"

  /** The pieces of `source.split("\n")`. */
  function Lines(source: string): seq<string>
  {
    Split(source, '\n')
  }

  /** Entry `i` counts the characters before piece `i`: every earlier piece
      with its "\n". There is one entry more than there are pieces. */
  function Offsets(source: string): (t: seq<nat>)
    ensures |t| == |Lines(source)| + 1
  {
    seq(|Lines(source)| + 1, i requires 0 <= i <= |Lines(source)| => PrefixLength(Lines(source), i))
  }

  /** The table `Stlap.fromString` builds: a zero-filled array, each entry
      after the first then incremented by the length of the piece before it
      plus one and by the entry before it. */
  method LineOffsets(source: string) returns (table: seq<nat>)
    ensures table == Offsets(source)
  {
    var lines := Split(source, '\n');
    var counts := new nat[|lines| + 1](_ => 0);
    for i := 0 to |lines|
      invariant forall k :: 0 <= k <= i ==> counts[k] == PrefixLength(lines, k)
      invariant forall k :: i < k <= |lines| ==> counts[k] == 0
    {
      PrefixLengthStep(lines, i);
      counts[i + 1] := counts[i + 1] + (|lines[i]| + 1) + counts[i];
    }
    table := counts[..];
  }

  /** The table is the running sum of the piece lengths, each plus one for
      its "\n"; its last entry is one past the end of the source. */
  lemma OffsetsShape(source: string)
    ensures Offsets(source)[0] == 0
    ensures forall i :: 0 <= i < |Lines(source)| ==>
      Offsets(source)[i + 1] == Offsets(source)[i] + |Lines(source)[i]| + 1
    ensures Offsets(source)[|Lines(source)|] == |source| + 1
  {
    var lines := Lines(source);
    forall i | 0 <= i < |lines|
      ensures Offsets(source)[i + 1] == Offsets(source)[i] + |lines[i]| + 1
    {
      PrefixLengthStep(lines, i);
    }
    JoinLength(lines, '\n');
    JoinSplit(source, '\n');
  }

  /** Entry `i` is where piece `i` starts in the source; a "\n" follows every
      piece but the last. */
  lemma OffsetsLocate(source: string, i: nat)
    requires i < |Lines(source)|
    ensures Offsets(source)[i] + |Lines(source)[i]| <= |source|
    ensures source[Offsets(source)[i]..Offsets(source)[i] + |Lines(source)[i]|] == Lines(source)[i]
    ensures i + 1 < |Lines(source)| ==>
      Offsets(source)[i] + |Lines(source)[i]| < |source| && source[Offsets(source)[i] + |Lines(source)[i]|] == '\n'
  {
    JoinLocates(Lines(source), '\n', i);
    JoinSplit(source, '\n');
  }

  /** The table of a source, built as `Stlap.fromString` builds it. */
  function TextOf(source: string): (t: Text)
    ensures t.source == source && |t.table| == |Lines(source)| + 1
  {
    Text(source, Offsets(source))
  }

  /** The offset of a position: its line's entry plus its column, or nothing
      for a line the table has no entry for (JavaScript computes `NaN`). */
  function Offset(t: Text, p: Position): (r: Option<nat>)
    ensures r.Some? <==> p.line < |t.table|
  {
    if p.line < |t.table| then Some(t.table[p.line] + p.col) else None
  }

  /** `getText`: the whole source without a range; otherwise the slice from
      the start position through the end position inclusive, clamped like
      `String.slice` (which reads a `NaN` bound as 0). */
  function GetText(t: Text, range: Option<Range>): (r: string)
    ensures range.None? ==> r == t.source
    ensures |r| <= |t.source|
    ensures range.Some? && Offset(t, range.value.start).Some? && Offset(t, range.value.end).Some? ==>
      var from, to := Offset(t, range.value.start).value, Offset(t, range.value.end).value + 1;
      && (from <= to <= |t.source| ==> r == t.source[from..to])
      && (from <= |t.source| <= to ==> r == t.source[from..])
  {
    match range
    case None => t.source
    case Some(rg) =>
      var from := Offset(t, rg.start).GetOr(0);
      var to := match Offset(t, rg.end) case Some(e) => e + 1 case None => 0;
      Slice(t.source, from, to)
  }

  /** Within one line, a range reads the characters of that line from the
      start column through the end column. */
  lemma GetTextInLine(source: string, line: nat, from: nat, to: nat)
    requires line < |Lines(source)| && from <= to < |Lines(source)[line]|
    ensures GetText(TextOf(source), Some(Range(Position(line, from), Position(line, to))))
      == Lines(source)[line][from..to + 1]
  {
    var a := Lines(source)[line];
    var o := Offsets(source)[line];
    OffsetsLocate(source, line);
    GetTextOnLine(TextOf(source), line, from, to);
    SliceOfSlice(source, o, |a|, from, to + 1);
  }

  /** A range on one line of the table reads from the line's entry plus the
      start column through its entry plus the end column. */
  lemma GetTextOnLine(t: Text, line: nat, from: nat, to: nat)
    requires line < |t.table| && from <= to && t.table[line] + to < |t.source|
    ensures GetText(t, Some(Range(Position(line, from), Position(line, to))))
      == t.source[t.table[line] + from..t.table[line] + to + 1]
  {
  }

  /** Two neighbouring pieces of a string, read across the "\n" between them. */
  lemma SliceAcross(s: string, o: nat, a: string, b: string, from: nat, to: nat)
    requires o + |a| + 1 + |b| <= |s| && from <= |a| && to < |b|
    requires s[o..o + |a|] == a && s[o + |a|] == '\n' && s[o + |a| + 1..o + |a| + 1 + |b|] == b
    ensures s[o + from..o + |a| + 1 + to + 1] == a[from..] + "\n" + b[..to + 1]
  {
    var r := s[o + from..o + |a| + 1 + to + 1];
    var x := a[from..] + "\n" + b[..to + 1];
    assert |r| == |x|;
    forall k | 0 <= k < |r| ensures r[k] == x[k] {
      if k < |a| - from {
        assert r[k] == s[o..o + |a|][from + k];
      } else if k > |a| - from {
        assert r[k] == s[o + |a| + 1..o + |a| + 1 + |b|][k - (|a| - from) - 1];
      }
    }
  }

  /** A range from one line into the next reads the rest of the first line,
      its "\n", and the start of the next line through the end column. */
  lemma GetTextAcrossLines(source: string, line: nat, from: nat, to: nat)
    requires line + 1 < |Lines(source)|
    requires from <= |Lines(source)[line]| && to < |Lines(source)[line + 1]|
    ensures GetText(TextOf(source), Some(Range(Position(line, from), Position(line + 1, to))))
      == Lines(source)[line][from..] + "\n" + Lines(source)[line + 1][..to + 1]
  {
    var lines := Lines(source);
    var t := TextOf(source);
    var a, b := lines[line], lines[line + 1];
    var o, o' := Offsets(source)[line], Offsets(source)[line + 1];
    OffsetsLocate(source, line);
    OffsetsLocate(source, line + 1);
    PrefixLengthStep(lines, line);
    assert o' == o + |a| + 1;
    assert Offset(t, Position(line, from)) == Some(o + from);
    assert Offset(t, Position(line + 1, to)) == Some(o' + to);
    SliceAcross(source, o, a, b, from, to);
  }

  /** `getLine`: the characters from the line's entry up to one before the
      next entry, or up to one past the end of the source when there is no
      next entry (or it is 0); an error for a line with no entry. */
  function GetLine(t: Text, line: int): (r: Result<string>)
    ensures r.Err? <==> !(0 <= line < |t.table|)
    ensures r.Err? ==> r.error == LineOutOfRange
  {
    if line < 0 || line >= |t.table| then Err(LineOutOfRange)
    else
      var e := if line + 1 < |t.table| && t.table[line + 1] != 0 then t.table[line + 1] else |t.source| + 2;
      Ok(Slice(t.source, t.table[line], e - 1))
  }

  /** Over the table of its own source, `getLine` gives each piece without
      its "\n", "" for the entry after the last piece, and an error past it. */
  lemma GetLineReadsPiece(source: string, line: int)
    ensures 0 <= line < |Lines(source)| ==> GetLine(TextOf(source), line) == Ok(Lines(source)[line])
    ensures line == |Lines(source)| ==> GetLine(TextOf(source), line) == Ok("")
    ensures (line < 0 || line > |Lines(source)|) ==> GetLine(TextOf(source), line) == Err(LineOutOfRange)
  {
    OffsetsShape(source);
    if 0 <= line < |Lines(source)| {
      OffsetsLocate(source, line);
    }
  }
}
