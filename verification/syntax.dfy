/** The data model of the line parser (src/parser.ts): positions, inclusive
    ranges, tokens with leading trivia, and the document tree. */
module Syntax {
  import opened Results

  /** A zero-based line and column; columns count characters within the line. */
  datatype Position = Position(line: nat, col: nat)

  /** `end` is inclusive: it names the last character of the span. */
  datatype Range = Range(start: Position, end: Position)

  /** Every token kind the format knows. The line tokenizer emits `Name` for
      a command argument; the validator works on `FlagArg` and `CollectArg`,
      which a parser distinguishing the argument by its keyword would emit. */
  datatype TokenKind =
    | Newline | Space | CommandPrefix | CommentBody | Flag | Collect | Name
    | FlagArg | CollectArg | Words | CommentPrefix | MissingToken | SkippedToken

  /** `fullStart` is where the token's leading trivia begins; `start..end`
      (inclusive) bounds its significant content. */
  datatype Token = Token(kind: TokenKind, fullStart: Position, start: Position, end: Position, message: Option<string>)

  /** `Token.getTextRange`: only a `Words` token carries text. */
  function TextRange(t: Token): (r: Option<Range>)
    ensures r.Some? <==> t.kind == Words
    ensures r.Some? ==> r.value.start == t.start && r.value.end == t.end
  {
    if t.kind == Words then Some(Range(t.start, t.end)) else None
  }

  datatype VertexKind = Story | Paragraph | Command | Comment | Sentence | ParagraphSeparater | End | Start

  /** A tree vertex owns its children in order. The source's `parent`
      back-reference is navigation only and is not part of the model. */
  datatype Vertex = Vertex(kind: VertexKind, children: seq<Child>)

  datatype Child = TokenChild(token: Token) | VertexChild(vertex: Vertex)

  /** The tokens of a subtree, left to right. */
  function Flatten(c: Child): seq<Token>
    decreases c
  {
    match c
    case TokenChild(t) => [t]
    case VertexChild(v) => FlattenAll(v.children)
  }

  function FlattenAll(cs: seq<Child>): seq<Token>
    decreases cs
  {
    if cs == [] then [] else FlattenAll(cs[..|cs| - 1]) + Flatten(cs[|cs| - 1])
  }

  lemma FlattenAllSnoc(cs: seq<Child>, c: Child)
    ensures FlattenAll(cs + [c]) == FlattenAll(cs) + Flatten(c)
  {
    assert (cs + [c])[..|cs|] == cs;
  }

  /** No token of `ts` has kind `kind`. */
  predicate Avoids(ts: seq<Token>, kind: TokenKind)
  {
    forall k :: 0 <= k < |ts| ==> ts[k].kind != kind
  }

  /** The vertex kind the parser gives a line, chosen by the line's first token. */
  function HeadKind(k: TokenKind): Option<VertexKind>
  {
    match k
    case Words => Some(Sentence)
    case CommentPrefix => Some(Comment)
    case CommandPrefix => Some(Command)
    case _ => None
  }

  /** Token `j` opens a line: it is not a Newline, and it is first or follows one. */
  predicate IsHead(ts: seq<Token>, j: int)
    requires 0 <= j < |ts|
  {
    ts[j].kind != Newline && (j == 0 || ts[j - 1].kind == Newline)
  }

  /** Some line opens with a token that gives no vertex kind. */
  predicate HasBadHead(ts: seq<Token>)
  {
    exists j :: 0 <= j < |ts| && IsHead(ts, j) && HeadKind(ts[j].kind).None?
  }
}
