/** `Parser.parse` of src/parser.ts: the token stream is grouped into a story
    of alternating paragraph separators (runs of blank lines) and paragraphs
    (runs of sentence, comment and command lines), closed by an End vertex. */
module Parser {
  import opened Results
  import opened Syntax
  import opened Tokenizer

  const CannotRecognize := "Parse Error faital: Cannot recognize Vertexkind"

  predicate IsNewlineLeaf(c: Child) {
    c.TokenChild? && c.token.kind == Newline
  }

  /** A non-empty run of Newline tokens. */
  predicate IsSeparatorRun(cs: seq<Child>) {
    |cs| > 0 && forall j :: 0 <= j < |cs| ==> IsNewlineLeaf(cs[j])
  }

  /** A line vertex: its tokens up to and including the line's Newline, its
      kind the one its first token gives. */
  predicate IsLine(v: Vertex) {
    && |v.children| > 0
    && (forall j :: 0 <= j < |v.children| ==> v.children[j].TokenChild?)
    && (forall j :: 0 <= j < |v.children| - 1 ==> v.children[j].token.kind != Newline)
    && v.children[|v.children| - 1].token.kind == Newline
    && HeadKind(v.children[0].token.kind) == Some(v.kind)
  }

  predicate IsParagraph(v: Vertex) {
    && v.kind == Paragraph
    && |v.children| > 0
    && forall j :: 0 <= j < |v.children| ==> v.children[j].VertexChild? && IsLine(v.children[j].vertex)
  }

  predicate IsSeparator(v: Vertex) {
    v.kind == ParagraphSeparater && IsSeparatorRun(v.children)
  }

  predicate IsBlock(c: Child) {
    c.VertexChild? && (IsSeparator(c.vertex) || IsParagraph(c.vertex))
  }

  /** Neighbouring blocks differ in kind. */
  predicate Alternates(cs: seq<Child>) {
    forall j, k :: 0 <= j < |cs| && 0 <= k < |cs| && k == j + 1 ==>
      cs[j].VertexChild? && cs[k].VertexChild? && cs[j].vertex.kind != cs[k].vertex.kind
  }

  /** The grammar the parser builds: `(separator? paragraph)*` alternating,
      ending in a paragraph, then an End vertex holding the trailing run of
      blank lines (the last separator relabelled) or nothing. */
  predicate WellFormedStory(v: Vertex) {
    && v.kind == Story
    && |v.children| > 0
    && (forall j :: 0 <= j < |v.children| - 1 ==> IsBlock(v.children[j]))
    && Alternates(v.children[..|v.children| - 1])
    && (|v.children| > 1 ==> v.children[|v.children| - 2].vertex.kind == Paragraph)
    && v.children[|v.children| - 1].VertexChild?
    && v.children[|v.children| - 1].vertex.kind == End
    && (v.children[|v.children| - 1].vertex.children == [] || IsSeparatorRun(v.children[|v.children| - 1].vertex.children))
  }

  /** No line opening in `[lo, hi)` starts with a token that gives no
      vertex kind. */
  predicate NoBadHeadIn(ts: seq<Token>, lo: int, hi: int) {
    forall j :: lo <= j < hi && 0 <= j < |ts| && IsHead(ts, j) ==> HeadKind(ts[j].kind).Some?
  }

  /** The innermost loop of `Parser.parse` and the Newline after it: one line
      vertex of the given kind, from its first token through its Newline. */
  method ReadLine(tokens: seq<Token>, i: nat, kind: VertexKind) returns (v: Vertex, next: nat)
    requires i < |tokens| && tokens[|tokens| - 1].kind == Newline
    requires HeadKind(tokens[i].kind) == Some(kind)
    ensures i < next <= |tokens| && tokens[next - 1].kind == Newline
    ensures forall k :: i <= k < next - 1 ==> tokens[k].kind != Newline
    ensures IsLine(v) && v.kind == kind && FlattenAll(v.children) == tokens[i..next]
  {
    var line;
    line, next := ReadContent(tokens, i);
    FlattenAllSnoc(line, TokenChild(tokens[next]));
    assert tokens[i..next + 1] == tokens[i..next] + [tokens[next]];
    line := line + [TokenChild(tokens[next])];
    next := next + 1;
    v := Vertex(kind, line);
  }

  /** The token children of a line up to, not including, its Newline. */
  method ReadContent(tokens: seq<Token>, i: nat) returns (line: seq<Child>, next: nat)
    requires i < |tokens| && tokens[|tokens| - 1].kind == Newline
    ensures i <= next < |tokens| && tokens[next].kind == Newline
    ensures |line| == next - i
    ensures forall j :: 0 <= j < |line| ==> line[j] == TokenChild(tokens[i + j])
    ensures FlattenAll(line) == tokens[i..next]
    ensures forall k :: i <= k < next ==> tokens[k].kind != Newline
  {
    line := [];
    next := i;
    while next < |tokens| && tokens[next].kind != Newline
      invariant i <= next <= |tokens|
      invariant |line| == next - i
      invariant forall j :: 0 <= j < |line| ==> line[j] == TokenChild(tokens[i + j])
      invariant FlattenAll(line) == tokens[i..next]
      invariant forall k :: i <= k < next ==> tokens[k].kind != Newline
    {
      FlattenAllSnoc(line, TokenChild(tokens[next]));
      assert tokens[i..next + 1] == tokens[i..next] + [tokens[next]];
      line := line + [TokenChild(tokens[next])];
      next := next + 1;
    }
  }

  /** `p` is the paragraph of the lines from `i` up to `next`, where the
      next blank line (or the end) begins. */
  predicate ParagraphRead(tokens: seq<Token>, i: int, p: Vertex, next: int) {
    && 0 <= i < next <= |tokens| && tokens[next - 1].kind == Newline
    && (next == |tokens| || tokens[next].kind == Newline)
    && IsParagraph(p) && FlattenAll(p.children) == tokens[i..next]
    && NoBadHeadIn(tokens, i, next)
  }

  /** The paragraph loop of `Parser.parse`: line vertices until a Newline
      token opens a line; an error when a line opens with a token that gives
      no vertex kind. */
  method ReadParagraph(tokens: seq<Token>, i: nat) returns (r: Result<(Vertex, nat)>)
    requires i < |tokens| && tokens[|tokens| - 1].kind == Newline
    requires tokens[i].kind != Newline && (i == 0 || tokens[i - 1].kind == Newline)
    ensures r.Err? ==> r.error == CannotRecognize && HasBadHead(tokens)
    ensures r.Ok? ==> ParagraphRead(tokens, i, r.value.0, r.value.1)
  {
    var para: seq<Child> := [];
    var j := i;
    while j < |tokens| && tokens[j].kind != Newline
      invariant i <= j <= |tokens|
      invariant j == 0 || tokens[j - 1].kind == Newline
      invariant FlattenAll(para) == tokens[i..j]
      invariant j > i ==> |para| > 0
      invariant j == i ==> |para| == 0
      invariant forall k :: 0 <= k < |para| ==> para[k].VertexChild? && IsLine(para[k].vertex)
      invariant NoBadHeadIn(tokens, i, j)
      decreases |tokens| - j
    {
      if HeadKind(tokens[j].kind).None? {
        assert IsHead(tokens, j);
        return Err(CannotRecognize);
      }
      var kind := HeadKind(tokens[j].kind).value;
      var v, next := ReadLine(tokens, j, kind);
      ParagraphGrows(tokens, i, j, para, v, next);
      para := para + [VertexChild(v)];
      j := next;
    }
    r := Ok((Vertex(Paragraph, para), j));
  }

  lemma ParagraphGrows(tokens: seq<Token>, i: nat, j: nat, para: seq<Child>, v: Vertex, next: nat)
    requires i <= j < next <= |tokens|
    requires FlattenAll(para) == tokens[i..j] && FlattenAll(v.children) == tokens[j..next]
    requires NoBadHeadIn(tokens, i, j) && HeadKind(tokens[j].kind).Some?
    requires forall k :: j <= k < next - 1 ==> tokens[k].kind != Newline
    ensures FlattenAll(para + [VertexChild(v)]) == tokens[i..next]
    ensures NoBadHeadIn(tokens, i, next)
  {
    FlattenAllSnoc(para, VertexChild(v));
    assert tokens[i..next] == tokens[i..j] + tokens[j..next];
    forall k | j < k < next ensures !IsHead(tokens, k) {
      assert tokens[k - 1].kind != Newline;
    }
  }

  /** The separator loop of `Parser.parse`: the run of Newline tokens from `i`. */
  method ReadSeparator(tokens: seq<Token>, i: nat) returns (run: seq<Child>, next: nat)
    requires i < |tokens| && tokens[i].kind == Newline
    ensures i < next <= |tokens| && (next == |tokens| || tokens[next].kind != Newline)
    ensures forall k :: i <= k < next ==> tokens[k].kind == Newline
    ensures IsSeparatorRun(run) && FlattenAll(run) == tokens[i..next]
  {
    run := [];
    next := i;
    while next < |tokens| && tokens[next].kind == Newline
      invariant i <= next <= |tokens|
      invariant FlattenAll(run) == tokens[i..next]
      invariant |run| == next - i
      invariant forall j :: 0 <= j < |run| ==> IsNewlineLeaf(run[j])
      invariant forall k :: i <= k < next ==> tokens[k].kind == Newline
    {
      FlattenAllSnoc(run, TokenChild(tokens[next]));
      assert tokens[i..next + 1] == tokens[i..next] + [tokens[next]];
      run := run + [TokenChild(tokens[next])];
      next := next + 1;
    }
  }

  /** Blocks that alternate in kind. */
  predicate BlockSequence(cs: seq<Child>) {
    (forall j :: 0 <= j < |cs| ==> IsBlock(cs[j])) && Alternates(cs)
  }

  lemma AppendBlock(cs: seq<Child>, c: Child)
    requires BlockSequence(cs) && IsBlock(c)
    requires |cs| > 0 ==> cs[|cs| - 1].vertex.kind != c.vertex.kind
    ensures BlockSequence(cs + [c])
  {
    var all := cs + [c];
    forall j | 0 <= j < |all| ensures IsBlock(all[j]) {
      if j < |cs| { assert all[j] == cs[j]; }
    }
    forall j, k | 0 <= j < |all| && 0 <= k < |all| && k == j + 1
      ensures all[j].VertexChild? && all[k].VertexChild? && all[j].vertex.kind != all[k].vertex.kind
    {
      assert all[j] == cs[j];
      if k < |cs| { assert all[k] == cs[k]; }
    }
  }

  /** The end of `Parser.parse`: the last block, when it is a separator,
      becomes the End vertex; otherwise an empty End vertex is appended. */
  method AddEnd(children: seq<Child>) returns (story: Vertex)
    requires |children| > 0 && BlockSequence(children)
    ensures WellFormedStory(story)
    ensures Flatten(VertexChild(story)) == FlattenAll(children)
  {
    var last := children[|children| - 1];
    if last.vertex.kind == ParagraphSeparater {
      SeparatorBecomesEnd(children);
      story := Vertex(Story, children[..|children| - 1] + [VertexChild(Vertex(End, last.vertex.children))]);
    } else {
      EmptyEnd(children);
      story := Vertex(Story, children + [VertexChild(Vertex(End, []))]);
    }
  }

  /** A trailing separator relabelled as the End vertex. */
  lemma SeparatorBecomesEnd(children: seq<Child>)
    requires |children| > 0 && BlockSequence(children)
    requires children[|children| - 1].vertex.kind == ParagraphSeparater
    ensures var story := Vertex(Story, children[..|children| - 1] + [VertexChild(Vertex(End, children[|children| - 1].vertex.children))]);
      WellFormedStory(story) && Flatten(VertexChild(story)) == FlattenAll(children)
  {
    var last := children[|children| - 1];
    var body := children[..|children| - 1];
    var end := VertexChild(Vertex(End, last.vertex.children));
    DropLastBlock(children);
    if |body| > 0 {
      assert body[|body| - 1] == children[|children| - 2];
    }
    EndStory(body, end);
    FlattenAllSnoc(body, end);
    assert children == body + [last];
    FlattenAllSnoc(body, last);
  }

  /** An empty End vertex after a story that ends in a paragraph. */
  lemma EmptyEnd(children: seq<Child>)
    requires |children| > 0 && BlockSequence(children)
    requires children[|children| - 1].vertex.kind != ParagraphSeparater
    ensures var story := Vertex(Story, children + [VertexChild(Vertex(End, []))]);
      WellFormedStory(story) && Flatten(VertexChild(story)) == FlattenAll(children)
  {
    var end := VertexChild(Vertex(End, []));
    EndStory(children, end);
    FlattenAllSnoc(children, end);
  }

  /** Without its last block a block sequence is still one, and the block
      before the last differs from it in kind. */
  lemma DropLastBlock(cs: seq<Child>)
    requires |cs| > 0 && BlockSequence(cs)
    ensures BlockSequence(cs[..|cs| - 1])
    ensures |cs| > 1 ==> cs[|cs| - 2].vertex.kind != cs[|cs| - 1].vertex.kind
  {
    var init := cs[..|cs| - 1];
    forall j | 0 <= j < |init| ensures IsBlock(init[j]) {
      assert init[j] == cs[j];
    }
    forall j, k | 0 <= j < |init| && 0 <= k < |init| && k == j + 1
      ensures init[j].VertexChild? && init[k].VertexChild? && init[j].vertex.kind != init[k].vertex.kind
    {
      assert init[j] == cs[j] && init[k] == cs[k];
    }
  }

  /** Blocks ending in a paragraph, followed by an End vertex that is empty
      or holds a run of blank lines, make a well-formed story. */
  lemma EndStory(body: seq<Child>, end: Child)
    requires BlockSequence(body)
    requires |body| > 0 ==> body[|body| - 1].vertex.kind == Paragraph
    requires end.VertexChild? && end.vertex.kind == End
    requires end.vertex.children == [] || IsSeparatorRun(end.vertex.children)
    ensures WellFormedStory(Vertex(Story, body + [end]))
  {
    var all := body + [end];
    assert all[..|body|] == body;
    forall j | 0 <= j < |all| - 1 ensures IsBlock(all[j]) {
      assert all[j] == body[j];
    }
    if |body| > 0 {
      assert all[|all| - 2] == body[|body| - 1];
    }
  }

  /** The state of the grouping loop after the tokens before `i`: the blocks
      built so far hold exactly those tokens, `i` starts a line, and the last
      block is a separator exactly when the next token opens a paragraph. */
  predicate Grouped(tokens: seq<Token>, children: seq<Child>, i: int) {
    && 0 <= i <= |tokens|
    && (i == 0 || tokens[i - 1].kind == Newline)
    && FlattenAll(children) == tokens[..i]
    && BlockSequence(children)
    && (i < |tokens| && |children| > 0 ==>
         (children[|children| - 1].vertex.kind == ParagraphSeparater <==> tokens[i].kind != Newline))
    && (i > 0 ==> |children| > 0)
    && NoBadHeadIn(tokens, 0, i)
  }

  /** The separator half of the grouping loop's body. */
  method SeparatorStep(tokens: seq<Token>, children: seq<Child>, i: nat) returns (children': seq<Child>, i': nat)
    requires Grouped(tokens, children, i) && i < |tokens| && tokens[i].kind == Newline
    ensures Grouped(tokens, children', i') && i < i'
    ensures i' < |tokens| ==> tokens[i'].kind != Newline
  {
    var run, next := ReadSeparator(tokens, i);
    var sep := VertexChild(Vertex(ParagraphSeparater, run));
    FlattenAllSnoc(children, sep);
    assert tokens[..next] == tokens[..i] + tokens[i..next];
    AppendBlock(children, sep);
    children' := children + [sep];
    i' := next;
  }

  /** The paragraph half of the grouping loop's body. */
  method ParagraphStep(tokens: seq<Token>, children: seq<Child>, i: nat) returns (r: Result<(seq<Child>, nat)>)
    requires Grouped(tokens, children, i) && i < |tokens| && tokens[i].kind != Newline
    requires tokens[|tokens| - 1].kind == Newline
    ensures r.Err? ==> r.error == CannotRecognize && HasBadHead(tokens)
    ensures r.Ok? ==> Grouped(tokens, r.value.0, r.value.1) && i < r.value.1
  {
    var p := ReadParagraph(tokens, i);
    if p.Err? {
      return Err(p.error);
    }
    var (para, next) := p.value;
    FlattenAllSnoc(children, VertexChild(para));
    assert tokens[..next] == tokens[..i] + tokens[i..next];
    AppendBlock(children, VertexChild(para));
    r := Ok((children + [VertexChild(para)], next));
  }

  /** The grouping loop of `Parser.parse` over a token list that ends with a
      Newline. The result is an error exactly when some line opens with a
      token that is not words, a comment prefix or a command prefix;
      otherwise it is a well-formed story whose tokens, left to right, are
      the input. */
  method BuildStory(tokens: seq<Token>) returns (r: Result<Vertex>)
    requires |tokens| > 0 && tokens[|tokens| - 1].kind == Newline
    ensures r.Err? <==> HasBadHead(tokens)
    ensures r.Err? ==> r.error == CannotRecognize
    ensures r.Ok? ==> WellFormedStory(r.value) && Flatten(VertexChild(r.value)) == tokens
  {
    var children: seq<Child> := [];
    var i := 0;
    while i < |tokens|
      invariant Grouped(tokens, children, i)
      decreases |tokens| - i
    {
      if tokens[i].kind == Newline {
        children, i := SeparatorStep(tokens, children, i);
      }
      if i < |tokens| && tokens[i].kind != Newline {
        var step := ParagraphStep(tokens, children, i);
        if step.Err? {
          return Err(step.error);
        }
        children, i := step.value.0, step.value.1;
      }
    }
    assert tokens[..i] == tokens;
    assert !HasBadHead(tokens);
    var story := AddEnd(children);
    r := Ok(story);
  }

  /** `Parser.parse`: a tokenizer error is returned as is; otherwise the
      tokens are grouped, which cannot fail on a tokenizer result. */
  method Parse(source: string) returns (r: Result<Vertex>)
    ensures TokenizeSpec(source).Err? ==> r == Err(TokenizeSpec(source).error)
    ensures TokenizeSpec(source).Ok? ==>
      r.Ok? && WellFormedStory(r.value) && Flatten(VertexChild(r.value)) == TokenizeSpec(source).value
  {
    var tokens := Tokenize(source);
    if tokens.Err? {
      return Err(tokens.error);
    }
    TokenizeStream(source);
    r := BuildStory(tokens.value);
  }
}
