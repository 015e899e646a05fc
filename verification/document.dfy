/** The document of src/core/stlap.ts (class `Stlap`): the parsed story, the
    source with its line-offset table, and the diagnostics computed once at
    construction; plus the plain-text serializer `toText` and `isValid`. */
module Document {
  import opened Results
  import opened Strings
  import opened Syntax
  import opened LineTokenizer
  import opened Tokenizer
  import opened Parser
  import opened SourceText
  import opened Diagnostics
  import opened Validation

  /** A parsed document. Its fields are set once, by `FromString`. */
  datatype Stlap = Stlap(story: Vertex, text: Text, diagnostics: seq<Diagnostic>)

  /** `Stlap.fromString`: a parse error is returned as is; otherwise the
      offset table is built and the story validated. */
  method FromString(source: string) returns (r: Result<Stlap>)
    ensures TokenizeSpec(source).Err? ==> r == Err(TokenizeSpec(source).error)
    ensures TokenizeSpec(source).Ok? ==>
      && r.Ok?
      && r.value.text == TextOf(source)
      && WellFormedStory(r.value.story)
      && Flatten(VertexChild(r.value.story)) == TokenizeSpec(source).value
      && r.value.diagnostics == ValidateSpec(r.value.text, r.value.story)
  {
    var story := Parse(source);
    if story.Err? {
      return Err(story.error);
    }
    var table := LineOffsets(source);
    var text := Text(source, table);
    var diagnostics := Validate(text, story.value);
    r := Ok(Stlap(story.value, text, diagnostics));
  }

  // ----- toText -----

  /** `_toTextArray` on a child: a Words token gives its text; a Sentence
      the texts of its children; a Paragraph those texts run together, or
      nothing when there are none; the Story the texts of its children (the
      source drops empty arrays before flattening, which changes nothing);
      every other vertex nothing. */
  function TextArray(t: Text, c: Child): seq<string>
    decreases c
  {
    match c
    case TokenChild(tok) =>
      if tok.kind == Words then
        match TextRange(tok)
        case Some(r) => [GetText(t, Some(r))]
        case None => []
      else []
    case VertexChild(v) =>
      match v.kind
      case Sentence => TextArrays(t, v.children)
      case Paragraph =>
        var texts := TextArrays(t, v.children);
        if |texts| > 0 then [Join(texts, "")] else []
      case Story => TextArrays(t, v.children)
      case _ => []
  }

  /** The texts of children, in order. */
  function TextArrays(t: Text, cs: seq<Child>): seq<string>
    decreases cs
  {
    if cs == [] then [] else TextArrays(t, cs[..|cs| - 1]) + TextArray(t, cs[|cs| - 1])
  }

  /** `toText(separator)`: the story's texts joined by the separator, then
      one final line feed. */
  function ToText(doc: Stlap, separator: string): (r: string)
    ensures |r| > 0 && r[|r| - 1] == '\n'
  {
    Join(TextArray(doc.text, VertexChild(doc.story)), separator) + "\n"
  }

  /** The separator `toText()` uses when given none. */
  const DefaultSeparator := "\n\n"

  /** The text of each `Words` token of a run, in order. */
  function WordsTexts(t: Text, ts: seq<Token>): seq<string>
  {
    if ts == [] then []
    else
      var tok := ts[|ts| - 1];
      WordsTexts(t, ts[..|ts| - 1])
        + (if tok.kind == Words then [GetText(t, Some(Range(tok.start, tok.end)))] else [])
  }

  /** The `Words` texts of the Sentence lines among `lines`; comment and
      command lines contribute nothing. */
  function SentenceTexts(t: Text, lines: seq<Child>): seq<string>
  {
    if lines == [] then []
    else
      var c := lines[|lines| - 1];
      SentenceTexts(t, lines[..|lines| - 1])
        + (if c.VertexChild? && c.vertex.kind == Sentence then WordsTexts(t, FlattenAll(c.vertex.children)) else [])
  }

  /** One string per paragraph with at least one sentence text: those
      texts run together. Separators and the End vertex contribute nothing. */
  function ParagraphStrings(t: Text, blocks: seq<Child>): seq<string>
  {
    if blocks == [] then []
    else
      var c := blocks[|blocks| - 1];
      var texts := if c.VertexChild? && c.vertex.kind == Paragraph then SentenceTexts(t, c.vertex.children) else [];
      ParagraphStrings(t, blocks[..|blocks| - 1]) + (if |texts| > 0 then [Join(texts, "")] else [])
  }

  /** Children that are all tokens give the texts of their `Words`. */
  lemma {:induction false} TokenChildrenTexts(t: Text, cs: seq<Child>)
    requires forall j :: 0 <= j < |cs| ==> cs[j].TokenChild?
    ensures TextArrays(t, cs) == WordsTexts(t, FlattenAll(cs))
  {
    if cs != [] {
      var init := cs[..|cs| - 1];
      var c := cs[|cs| - 1];
      TokenChildrenTexts(t, init);
      var ts := FlattenAll(init);
      assert FlattenAll(cs) == ts + [c.token];
      assert (ts + [c.token])[..|ts|] == ts;
    }
  }

  /** The lines of a paragraph give the texts of its Sentence lines. */
  lemma {:induction false} LinesTexts(t: Text, lines: seq<Child>)
    requires forall j :: 0 <= j < |lines| ==> lines[j].VertexChild? && IsLine(lines[j].vertex)
    ensures TextArrays(t, lines) == SentenceTexts(t, lines)
  {
    if lines != [] {
      var c := lines[|lines| - 1];
      LinesTexts(t, lines[..|lines| - 1]);
      if c.vertex.kind == Sentence {
        TokenChildrenTexts(t, c.vertex.children);
      }
    }
  }

  /** Paragraphs, separators and End vertices, every paragraph well formed. */
  predicate Blocks(cs: seq<Child>)
  {
    forall j :: 0 <= j < |cs| ==>
      cs[j].VertexChild? && (IsParagraph(cs[j].vertex) || cs[j].vertex.kind in {ParagraphSeparater, End})
  }

  lemma {:induction false} BlocksTexts(t: Text, blocks: seq<Child>)
    requires Blocks(blocks)
    ensures TextArrays(t, blocks) == ParagraphStrings(t, blocks)
  {
    if blocks != [] {
      var c := blocks[|blocks| - 1];
      assert Blocks(blocks[..|blocks| - 1]);
      BlocksTexts(t, blocks[..|blocks| - 1]);
      if c.vertex.kind == Paragraph {
        assert IsParagraph(c.vertex);
        LinesTexts(t, c.vertex.children);
      }
    }
  }

  /** The text of a parsed story is its non-empty paragraph strings joined
      by the separator, then one line feed; each paragraph string is the
      texts of its sentences run together. */
  lemma StoryText(doc: Stlap, separator: string)
    requires WellFormedStory(doc.story)
    ensures ToText(doc, separator) == Join(ParagraphStrings(doc.text, doc.story.children), separator) + "\n"
  {
    var cs := doc.story.children;
    assert Blocks(cs) by {
      forall j | 0 <= j < |cs|
        ensures cs[j].VertexChild? && (IsParagraph(cs[j].vertex) || cs[j].vertex.kind in {ParagraphSeparater, End})
      {
        if j < |cs| - 1 {
          assert IsBlock(cs[j]);
        }
      }
    }
    BlocksTexts(doc.text, cs);
  }

  lemma {:induction false} AvoidsSplit(a: seq<Token>, b: seq<Token>, kind: TokenKind)
    requires Avoids(a + b, kind)
    ensures Avoids(a, kind) && Avoids(b, kind)
  {
    assert forall k :: 0 <= k < |a| ==> a[k] == (a + b)[k];
    assert forall k :: 0 <= k < |b| ==> b[k] == (a + b)[|a| + k];
  }

  /** A subtree without `Words` tokens has no text. */
  lemma {:induction false} NoWordsNoText(t: Text, c: Child)
    requires Avoids(Flatten(c), Words)
    ensures TextArray(t, c) == []
    decreases c
  {
    match c
    case TokenChild(tok) =>
      assert Flatten(c)[0] == tok;
    case VertexChild(v) =>
      assert Flatten(c) == FlattenAll(v.children);
      NoWordsNoTexts(t, v.children);
  }

  lemma {:induction false} NoWordsNoTexts(t: Text, cs: seq<Child>)
    requires Avoids(FlattenAll(cs), Words)
    ensures TextArrays(t, cs) == []
    decreases cs
  {
    if cs != [] {
      AvoidsSplit(FlattenAll(cs[..|cs| - 1]), Flatten(cs[|cs| - 1]), Words);
      NoWordsNoTexts(t, cs[..|cs| - 1]);
      NoWordsNoText(t, cs[|cs| - 1]);
    }
  }

  /** A source of blank and comment lines only (the empty source, a lone
      line feed, a lone comment) serializes to a single line feed. */
  lemma QuietSourceText(source: string, doc: Stlap, separator: string)
    requires forall i :: 0 <= i < |KeptLines(source)| ==> IsNewLine(KeptLines(source)[i]) || IsCommentLine(KeptLines(source)[i])
    requires TokenizeSpec(source) == Ok(Flatten(VertexChild(doc.story)))
    ensures ToText(doc, separator) == "\n"
  {
    QuietSource(source);
    NoWordsNoText(doc.text, VertexChild(doc.story));
  }

  /** The text of a sentence line's `Words` token, read through the table
      of the source, is the line without its trailing white space. */
  lemma SentenceLineText(source: string, n: nat, ts: seq<Token>)
    requires n < |KeptLines(source)| && TokenizeLine(KeptLines(source)[n], n) == Ok(ts)
    requires |ts| > 0 && ts[0].kind == Words
    ensures var line := KeptLines(source)[n];
      GetText(TextOf(source), TextRange(ts[0])) == line[..|line| - TrailingSpan(line, Blank)]
  {
    var line := KeptLines(source)[n];
    WordsSpan(line, n);
    assert line == Lines(source)[n];
    GetTextInLine(source, n, 0, |line| - TrailingSpan(line, Blank) - 1);
  }

  // ----- validity -----

  /** `isValid`. */
  function IsValidDocument(doc: Stlap): (b: bool)
    ensures b <==> forall i :: 0 <= i < |doc.diagnostics| ==> doc.diagnostics[i].severity != Some(Error)
  {
    IsValidMeansNoError(doc.diagnostics);
    IsValid(doc.diagnostics)
  }

  /** A validated story is valid exactly when it holds no syntax error and
      its flags and collects pair up: every flag opens a fresh name, every
      collect closes an open one, and no name is left open. */
  lemma ValidIffPaired(t: Text, story: Vertex)
    ensures var ts := Flatten(VertexChild(story));
      IsValid(ValidateSpec(t, story)) <==> Clean(t, ts) && Paired(t, ts)
  {
    var ts := Flatten(VertexChild(story));
    var walk := Scan(t, Empty, ts);
    ScanReportsErrors(t, Empty, ts);
    var ds := ValidateSpec(t, story);
    assert forall i :: 0 <= i < |ds| ==> ds[i].severity == Some(Error) by {
      forall i | 0 <= i < |ds| ensures ds[i].severity == Some(Error) {
        if i >= |walk.1| {
          assert ds[i] == Leftovers(walk.0.remaining)[i - |walk.1|];
        }
      }
    }
    IsValidMeansNoError(ds);
    if ds != [] {
      assert ds[0].severity == Some(Error);
    }
    ValidateClean(t, story);
  }

  /** The tokens of src/parser.ts carry no flag or collect argument, so a
      parsed document's diagnostics are exactly its syntax errors: one per
      MissingToken or SkippedToken, in document order. */
  lemma ParsedDiagnostics(source: string, story: Vertex)
    requires TokenizeSpec(source) == Ok(Flatten(VertexChild(story)))
    ensures ValidateSpec(TextOf(source), story) == SyntaxErrors(Flatten(VertexChild(story)))
  {
    var ts := Flatten(VertexChild(story));
    TokensAvoidArgs(source);
    ScanWithoutArgs(TextOf(source), Empty, ts);
  }
}
