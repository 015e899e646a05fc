/** The per-line tokenizers of src/parser.ts and the line classification that
    picks one of them. Each regular expression of the source is replaced by
    an explicit scan over the character classes of module Strings. */
module LineTokenizer {
  import opened Results
  import opened Strings
  import opened Syntax

  const FatalError := "Tokenize Error: faital"
  const MissingCommandName := "Expected Command Name:コマンド名(flagまたはcollect)がありません"
  const UnexpectedCommandName := "Unexpected Command Name:コマンド名(flagまたはcollect)ではありません"
  const UnexpectedContent := "Unexpected: 予期しない文字列です"

  /** A token on line `n` without a message. */
  function Tok(kind: TokenKind, n: nat, fullStart: nat, start: nat, end: nat): Token
  {
    Token(kind, Position(n, fullStart), Position(n, start), Position(n, end), None)
  }

  /** A token on line `n` carrying a diagnostic message. */
  function TokWith(kind: TokenKind, n: nat, fullStart: nat, start: nat, end: nat, message: string): Token
  {
    Token(kind, Position(n, fullStart), Position(n, start), Position(n, end), Some(message))
  }

  predicate NoLineBreak(row: string) {
    forall k :: 0 <= k < |row| ==> row[k] != '\r' && row[k] != '\n'
  }

  /** `isNewLine`: `/^[^\S\r\n]*$/`. */
  predicate IsNewLine(row: string) { All(row, Blank) }

  /** `isCommentLine`: `/^\/\/[^\r\n]*$/`. */
  predicate IsCommentLine(row: string) { StartsWith(row, "//") && NoLineBreak(row) }

  /** `mayBeCommandLine`: `/^@[^\r\n]*$/`. */
  predicate MayBeCommandLine(row: string) { StartsWith(row, "@") && NoLineBreak(row) }

  /** `tokenizeNewLine`: the whole line is the trivia of one Newline token. */
  function TokenizeNewLine(line: string, n: nat): Result<seq<Token>>
  {
    Ok([Tok(Newline, n, 0, |line|, |line|)])
  }

  /** `tokenizeCommentLine`: `//`, then the run of non-white-space characters
      right after it as the comment body (when non-empty), then a Newline
      whose trivia is the rest of the line. */
  function TokenizeCommentLine(line: string, n: nat): Result<seq<Token>>
  {
    if !StartsWith(line, "//") then Err(FatalError)
    else
      var k := Span(line, 2, NonWhiteSpace);
      var body := if k == 0 then [] else [Tok(CommentBody, n, 2, 2, 2 + k - 1)];
      Ok([Tok(CommentPrefix, n, 0, 0, 1)] + body + [Tok(Newline, n, 2 + k, |line|, |line|)])
  }

  /** The lengths of the five groups of
      `/^@(\S*)([^\S\r\n]*)(\S*)(.*?)([^\S\r\n]*)$/`. */
  datatype CommandMatch = CommandMatch(keyword: nat, space: nat, name: nat, skip: nat, trailing: nat)

  /** Every character of `line[i..j]` is in class `p`. */
  predicate Run(line: string, i: nat, j: nat, p: CharClass) {
    i <= j <= |line| && forall k :: i <= k < j ==> In(line[k], p)
  }

  /** A run of class `p` ending at `j` cannot be extended. */
  predicate Maximal(line: string, j: nat, p: CharClass) {
    j == |line| || (j < |line| && !In(line[j], p))
  }

  /** The groups cover the line after `@` in order, each group's characters
      are in its class, the three greedy groups cannot be extended, and the
      lazy group does not end in a character the trailing group could take. */
  predicate CommandShape(line: string, m: CommandMatch)
  {
    var a := 1 + m.keyword;
    var b := a + m.space;
    var c := b + m.name;
    var d := c + m.skip;
    && |line| == d + m.trailing
    && line[0] == '@'
    && Run(line, 1, a, NonWhiteSpace) && Maximal(line, a, NonWhiteSpace)
    && Run(line, a, b, Blank) && Maximal(line, b, Blank)
    && Run(line, b, c, NonWhiteSpace) && Maximal(line, c, NonWhiteSpace)
    && Run(line, c, d, Dot)
    && Run(line, d, |line|, Blank)
    && (m.skip == 0 || !IsBlank(line[d - 1]))
  }

  /** The groups of the command regular expression when it matches: the
      greedy groups take their longest runs, the trailing group the longest
      blank suffix, and the lazy group what lies between. */
  function CommandGroups(line: string): (g: CommandMatch)
    requires StartsWith(line, "@")
    ensures 1 + g.keyword + g.space + g.name + g.skip + g.trailing == |line|
  {
    var a := 1 + Span(line, 1, NonWhiteSpace);
    var b := a + Span(line, a, Blank);
    var c := b + Span(line, b, NonWhiteSpace);
    var t := TrailingSpan(line[c..], Blank);
    CommandMatch(a - 1, b - a, c - b, |line| - t - c, t)
  }

  /** The match the command regular expression finds, if any. When the lazy
      group's leftover holds a line terminator no other choice of groups can
      match either. */
  function MatchCommand(line: string): (m: Option<CommandMatch>)
    ensures m.Some? ==> StartsWith(line, "@") && m.value == CommandGroups(line)
  {
    if !StartsWith(line, "@") then None
    else
      var g := CommandGroups(line);
      var c := 1 + g.keyword + g.space + g.name;
      if All(line[c..c + g.skip], Dot) then Some(g) else None
  }

  /** A match is the one the regular expression's priorities pick. */
  lemma MatchCommandShape(line: string)
    ensures MatchCommand(line).Some? ==> CommandShape(line, MatchCommand(line).value)
  {
    if MatchCommand(line).Some? {
      var g := CommandGroups(line);
      assert MatchCommand(line).value == g;
      GroupsShape(line, g);
    }
  }

  lemma GroupsShape(line: string, g: CommandMatch)
    requires StartsWith(line, "@") && g == CommandGroups(line)
    requires var c := 1 + g.keyword + g.space + g.name; All(line[c..c + g.skip], Dot)
    ensures CommandShape(line, g)
  {
    GreedyGroups(line, g);
    ShapeOfGroups(line, g);
  }

  /** The shape, from the greedy groups, the trailing group and a leftover
      in the class of `.`. */
  lemma ShapeOfGroups(line: string, g: CommandMatch)
    requires StartsWith(line, "@")
    requires 1 + g.keyword + g.space + g.name + g.skip + g.trailing == |line|
    requires Run(line, 1, 1 + g.keyword, NonWhiteSpace) && Maximal(line, 1 + g.keyword, NonWhiteSpace)
    requires Run(line, 1 + g.keyword, 1 + g.keyword + g.space, Blank)
    requires Maximal(line, 1 + g.keyword + g.space, Blank)
    requires Run(line, 1 + g.keyword + g.space, 1 + g.keyword + g.space + g.name, NonWhiteSpace)
    requires Maximal(line, 1 + g.keyword + g.space + g.name, NonWhiteSpace)
    requires g.trailing == TrailingSpan(line[1 + g.keyword + g.space + g.name..], Blank)
    requires var c := 1 + g.keyword + g.space + g.name; All(line[c..c + g.skip], Dot)
    ensures CommandShape(line, g)
  {
    var c := 1 + g.keyword + g.space + g.name;
    var d := c + g.skip;
    TrailingBlanks(line, c, d);
    AllSlice(line, c, d, Dot);
    assert line[..1] == "@";
  }

  /** The three greedy groups: each in its class and not extendable; the
      trailing group is the longest blank suffix after them. */
  lemma GreedyGroups(line: string, g: CommandMatch)
    requires StartsWith(line, "@") && g == CommandGroups(line)
    ensures Run(line, 1, 1 + g.keyword, NonWhiteSpace) && Maximal(line, 1 + g.keyword, NonWhiteSpace)
    ensures Run(line, 1 + g.keyword, 1 + g.keyword + g.space, Blank)
    ensures Maximal(line, 1 + g.keyword + g.space, Blank)
    ensures Run(line, 1 + g.keyword + g.space, 1 + g.keyword + g.space + g.name, NonWhiteSpace)
    ensures Maximal(line, 1 + g.keyword + g.space + g.name, NonWhiteSpace)
    ensures g.trailing == TrailingSpan(line[1 + g.keyword + g.space + g.name..], Blank)
  {
  }

  /** The trailing group read back on the whole line: it starts at `d`. */
  lemma TrailingBlanks(line: string, c: nat, d: nat)
    requires c <= |line| && d == |line| - TrailingSpan(line[c..], Blank)
    ensures c <= d <= |line|
    ensures Run(line, d, |line|, Blank)
    ensures d == c || !IsBlank(line[d - 1])
  {
    var r := line[c..];
    var t := TrailingSpan(r, Blank);
    forall j | d <= j < |line| ensures In(line[j], Blank) {
      assert line[j] == r[j - c];
    }
    if t < |r| {
      assert line[d - 1] == r[|r| - t - 1];
    }
  }

  /** Only lines starting with `@` match, and such a line always matches
      when it holds no line terminator. */
  lemma MatchCommandTotal(line: string)
    ensures StartsWith(line, "@") && All(line, Dot) ==> MatchCommand(line).Some?
    ensures !StartsWith(line, "@") ==> MatchCommand(line).None?
  {
    if StartsWith(line, "@") && All(line, Dot) {
      var g := CommandGroups(line);
      var c := 1 + g.keyword + g.space + g.name;
      TrailingBlanks(line, c, c + g.skip);
      AllSlice(line, c, c + g.skip, Dot);
    }
  }

  /** The keyword token: MissingToken for an empty keyword, Flag or Collect
      for the two known keywords, SkippedToken for anything else. */
  function KeywordToken(line: string, n: nat, k: nat): Token
    requires 1 + k <= |line|
  {
    var keyword := line[1..1 + k];
    if k == 0 then TokWith(MissingToken, n, 0, 0, 0, MissingCommandName)
    else if keyword == "flag" then Tok(Flag, n, 1, 1, |"flag"|)
    else if keyword == "collect" then Tok(Collect, n, 1, 1, |"collect"|)
    else TokWith(SkippedToken, n, 1, 1, k, UnexpectedCommandName)
  }

  /** The tokens of a matched command line: prefix, keyword, space, name,
      the leftover as a SkippedToken when there is one, and a Newline whose
      trivia is the trailing blanks. */
  function CommandTokens(line: string, n: nat, m: CommandMatch): seq<Token>
    requires 1 + m.keyword + m.space + m.name + m.skip + m.trailing == |line|
  {
    CommandList(n, |line|, m.keyword, m.space, m.name, m.skip, KeywordToken(line, n, m.keyword))
  }

  /** The command tokens around a given keyword token, for group lengths
      `k`, `s`, `nm` and `l` on a line of length `len`. */
  function CommandList(n: nat, len: nat, k: nat, s: nat, nm: nat, l: nat, kw: Token): seq<Token>
  {
    var skipped := if l == 0 then [] else [TokWith(SkippedToken, n, k + s + nm + 1, k + s + nm + 1, k + s + nm + l, UnexpectedContent)];
    [Tok(CommandPrefix, n, 0, 0, 0), kw,
     Tok(Space, n, k + 1, k + s, k + s),
     Tok(Name, n, k + s + 1, k + s + 1, k + s + nm)]
    + skipped
    + [Tok(Newline, n, k + s + nm + l + 1, len, len)]
  }

  /** `tokenizeCommand`. */
  function TokenizeCommand(line: string, n: nat): Result<seq<Token>>
  {
    match MatchCommand(line)
    case None => Err(FatalError)
    case Some(m) => Ok(CommandTokens(line, n, m))
  }

  /** `tokenizeSentenceLine`: `/^(.*?)([^\S\r\n]*)$/` splits the line into the
      sentence and its trailing blanks; the sentence must be non-empty and
      must not look like a comment or a command. */
  function TokenizeSentenceLine(line: string, n: nat): Result<seq<Token>>
  {
    var m := |line| - TrailingSpan(line, Blank);
    var sentence := line[..m];
    if !All(sentence, Dot) || StartsWith(sentence, "//") || StartsWith(sentence, "@") then Err(FatalError)
    else if sentence == "" then Err(FatalError)
    else Ok([Tok(Words, n, 0, 0, m - 1), Tok(Newline, n, m, |line|, |line|)])
  }

  /** The body of `Tokenizer.tokenize`'s loop: the first matching class, in
      priority order, picks the tokenizer. */
  function TokenizeLine(line: string, n: nat): Result<seq<Token>>
  {
    if IsNewLine(line) then TokenizeNewLine(line, n)
    else if IsCommentLine(line) then TokenizeCommentLine(line, n)
    else if MayBeCommandLine(line) then TokenizeCommand(line, n)
    else TokenizeSentenceLine(line, n)
  }

  // ----- properties of a successful per-line result -----

  predicate OnLine(t: Token, n: nat) {
    t.fullStart.line == n && t.start.line == n && t.end.line == n
  }

  /** `b`'s leading trivia starts right after `a`'s content, or `b` is a
      zero-width MissingToken sitting on `a`'s last column. */
  predicate Adjacent(a: Token, b: Token) {
    || b.fullStart.col == a.end.col + 1
    || (b.kind == MissingToken && b.fullStart.col == a.end.col && b.start.col == a.end.col && b.end.col == a.end.col)
  }

  /** The shape every successful per-line result has: all tokens on line `n`,
      starting at column 0, each token's trivia following the previous
      token's content, and exactly one Newline, last, at column `len`. */
  predicate Lossless(ts: seq<Token>, n: nat, len: nat)
  {
    && |ts| > 0
    && (forall k :: 0 <= k < |ts| ==> OnLine(ts[k], n))
    && ts[0].fullStart.col == 0
    && (forall k :: 0 <= k < |ts| - 1 ==> ts[k].kind != Newline && Adjacent(ts[k], ts[k + 1]))
    && ts[|ts| - 1].kind == Newline
    && ts[|ts| - 1].fullStart.col <= len
    && ts[|ts| - 1].start.col == len && ts[|ts| - 1].end.col == len
  }

  lemma CommentLineLossless(line: string, n: nat)
    ensures TokenizeCommentLine(line, n).Ok? ==>
      var ts := TokenizeCommentLine(line, n).value;
      Lossless(ts, n, |line|) && |ts| > 1 && ts[0].kind == CommentPrefix
  {
  }

  /** On a comment line the body is the maximal run of non-white-space
      characters right after `//`, present exactly when that run is not
      empty, and the Newline's trivia starts where the run ends. */
  lemma CommentSpan(line: string, n: nat)
    requires !IsNewLine(line) && IsCommentLine(line)
    ensures TokenizeLine(line, n).Ok?
    ensures var ts := TokenizeLine(line, n).value;
      var k := Span(line, 2, NonWhiteSpace);
      && Run(line, 2, 2 + k, NonWhiteSpace) && Maximal(line, 2 + k, NonWhiteSpace)
      && (|ts| == 3 <==> k > 0) && |ts| >= 2
      && (k > 0 ==> ts[1].kind == CommentBody && ts[1].start == Position(n, 2) && ts[1].end == Position(n, 2 + k - 1))
      && ts[|ts| - 1].kind == Newline && ts[|ts| - 1].fullStart == Position(n, 2 + k)
  {
    assert TokenizeLine(line, n) == TokenizeCommentLine(line, n);
  }

  lemma KeywordTokenPlacement(line: string, n: nat, k: nat)
    requires 1 + k <= |line|
    ensures OnLine(KeywordToken(line, n, k), n)
    ensures KeywordToken(line, n, k).end.col == k
    ensures KeywordToken(line, n, k).kind != Newline
    ensures k == 0 ==> KeywordToken(line, n, k).kind == MissingToken && KeywordToken(line, n, k).fullStart.col == 0 && KeywordToken(line, n, k).start.col == 0
    ensures k > 0 ==> KeywordToken(line, n, k).fullStart.col == 1
  {
  }

  lemma CommandTokensLossless(line: string, n: nat, m: CommandMatch)
    requires 1 + m.keyword + m.space + m.name + m.skip + m.trailing == |line|
    ensures Lossless(CommandTokens(line, n, m), n, |line|)
    ensures |CommandTokens(line, n, m)| > 1 && CommandTokens(line, n, m)[0].kind == CommandPrefix
  {
    KeywordTokenPlacement(line, n, m.keyword);
    CommandListLossless(n, |line|, m.keyword, m.space, m.name, m.skip, KeywordToken(line, n, m.keyword));
  }

  /** The token list of a command line, for any keyword token that sits
      where `KeywordToken` puts it. */
  lemma CommandListLossless(n: nat, len: nat, k: nat, s: nat, nm: nat, l: nat, kw: Token)
    requires 1 + k + s + nm + l <= len
    requires OnLine(kw, n) && kw.end.col == k && kw.kind != Newline
    requires k == 0 ==> kw.kind == MissingToken && kw.fullStart.col == 0 && kw.start.col == 0
    requires k > 0 ==> kw.fullStart.col == 1
    ensures Lossless(CommandList(n, len, k, s, nm, l, kw), n, len)
    ensures |CommandList(n, len, k, s, nm, l, kw)| > 1 && CommandList(n, len, k, s, nm, l, kw)[0].kind == CommandPrefix
  {
    var pre, sp, name := Tok(CommandPrefix, n, 0, 0, 0), Tok(Space, n, k + 1, k + s, k + s), Tok(Name, n, k + s + 1, k + s + 1, k + s + nm);
    var nl := Tok(Newline, n, k + s + nm + l + 1, len, len);
    var sk := TokWith(SkippedToken, n, k + s + nm + 1, k + s + nm + 1, k + s + nm + l, UnexpectedContent);
    var ts := if l == 0 then [pre, kw, sp, name, nl] else [pre, kw, sp, name, sk, nl];
    assert CommandList(n, len, k, s, nm, l, kw) == ts;
    forall i | 0 <= i < |ts| ensures OnLine(ts[i], n) {
    }
    forall i | 0 <= i < |ts| - 1 ensures ts[i].kind != Newline && Adjacent(ts[i], ts[i + 1]) {
      if i == 3 && l != 0 {
        assert ts[i + 1] == sk;
      }
    }
  }

  lemma CommandLossless(line: string, n: nat)
    ensures TokenizeCommand(line, n).Ok? ==>
      var ts := TokenizeCommand(line, n).value;
      Lossless(ts, n, |line|) && |ts| > 1 && ts[0].kind == CommandPrefix
  {
    if MatchCommand(line).Some? {
      CommandTokensLossless(line, n, MatchCommand(line).value);
    }
  }

  lemma SentenceLineLossless(line: string, n: nat)
    ensures TokenizeSentenceLine(line, n).Ok? ==>
      var ts := TokenizeSentenceLine(line, n).value;
      Lossless(ts, n, |line|) && |ts| == 2 && ts[0].kind == Words
  {
  }

  /** What the token stream needs of one line's tokens. */
  predicate LineShaped(ts: seq<Token>, n: nat, len: nat)
  {
    Lossless(ts, n, len) && (|ts| > 1 ==> HeadKind(ts[0].kind).Some?)
  }

  /** Every line the classification accepts is tokenized losslessly, and the
      first token tells the class: a lone Newline for a blank line, otherwise
      the prefix or the words that give the parser its vertex kind. */
  lemma TokenizeLineShape(line: string, n: nat)
    ensures TokenizeLine(line, n).Ok? ==> LineShaped(TokenizeLine(line, n).value, n, |line|)
    ensures TokenizeLine(line, n).Ok? ==>
      var ts := TokenizeLine(line, n).value;
      && Lossless(ts, n, |line|)
      && (|ts| == 1 <==> IsNewLine(line))
      && (|ts| > 1 ==> HeadKind(ts[0].kind).Some?)
      && (ts[0].kind == CommentPrefix <==> !IsNewLine(line) && IsCommentLine(line))
      && (ts[0].kind == CommandPrefix <==> !IsNewLine(line) && !IsCommentLine(line) && MayBeCommandLine(line))
  {
    var r := TokenizeLine(line, n);
    if IsNewLine(line) {
      assert r == Ok([Tok(Newline, n, 0, |line|, |line|)]);
    } else if IsCommentLine(line) {
      assert r == TokenizeCommentLine(line, n);
      CommentLineLossless(line, n);
    } else if MayBeCommandLine(line) {
      assert r == TokenizeCommand(line, n);
      CommandLossless(line, n);
    } else {
      assert r == TokenizeSentenceLine(line, n);
      SentenceLineLossless(line, n);
    }
  }

  /** The keyword token covers the keyword from its trivia start, and the
      Name token covers exactly `word`. */
  predicate Captures(line: string, ts: seq<Token>, keyword: string, word: string)
  {
    && |ts| >= 5
    && ts[0].kind == CommandPrefix
    && ts[1].kind == (if keyword == "flag" then Flag else Collect)
    && ts[1].fullStart.col <= ts[1].end.col < |line|
    && line[ts[1].fullStart.col .. ts[1].end.col + 1] == keyword
    && ts[3].kind == Name
    && ts[3].start.col <= ts[3].end.col < |line|
    && line[ts[3].start.col .. ts[3].end.col + 1] == word
  }

  /** The captures of a well-formed command line `@flag NAME` or
      `@collect NAME`: the keyword token spans the keyword (from its trivia
      start) and the Name token spans exactly the first word after the
      separating blanks. */
  lemma CommandCaptures(line: string, n: nat, keyword: string, blanks: string, word: string, rest: string)
    requires keyword == "flag" || keyword == "collect"
    requires line == "@" + keyword + blanks + word + rest
    requires |blanks| > 0 && All(blanks, Blank)
    requires |word| > 0 && All(word, NonWhiteSpace)
    requires All(rest, Dot) && (rest == [] || IsWs(rest[0]))
    ensures TokenizeLine(line, n).Ok? && Captures(line, TokenizeLine(line, n).value, keyword, word)
  {
    CaptureLayout(line, keyword, blanks, word, rest);
    CapturesOfMatch(line, n, keyword, word);
  }

  /** The captures, from where the match puts the keyword and the name. */
  lemma CapturesOfMatch(line: string, n: nat, keyword: string, word: string)
    requires keyword == "flag" || keyword == "collect"
    requires |line| >= 2 && StartsWith(line, "@") && line[1] != '/' && NoLineBreak(line)
    requires MatchCommand(line).Some?
    requires var m := MatchCommand(line).value;
      && m.keyword == |keyword| && m.name == |word| && |word| > 0
      && 1 + m.keyword + m.space + m.name <= |line|
      && line[1..1 + m.keyword] == keyword
      && line[1 + m.keyword + m.space..1 + m.keyword + m.space + m.name] == word
    ensures TokenizeLine(line, n).Ok? && Captures(line, TokenizeLine(line, n).value, keyword, word)
  {
    CaptureDispatch(line, n);
    CaptureTokens(line, n, MatchCommand(line).value, keyword, word);
  }

  lemma CaptureLayout(line: string, keyword: string, blanks: string, word: string, rest: string)
    requires keyword == "flag" || keyword == "collect"
    requires line == "@" + keyword + blanks + word + rest
    requires |blanks| > 0 && All(blanks, Blank)
    requires |word| > 0 && All(word, NonWhiteSpace)
    requires All(rest, Dot) && (rest == [] || IsWs(rest[0]))
    ensures |line| >= 2 && StartsWith(line, "@") && line[1] != '/' && NoLineBreak(line)
    ensures MatchCommand(line).Some?
    ensures var m := MatchCommand(line).value;
      && m.keyword == |keyword| && m.space == |blanks| && m.name == |word|
      && 1 + m.keyword + m.space + m.name <= |line|
      && line[1..1 + m.keyword] == keyword
      && line[1 + m.keyword + m.space..1 + m.keyword + m.space + m.name] == word
  {
    Decompose(line, keyword, blanks, word, rest);
    CaptureGroups(line, |keyword|, |blanks|, |word|);
  }

  lemma CaptureTokens(line: string, n: nat, m: CommandMatch, keyword: string, word: string)
    requires keyword == "flag" || keyword == "collect"
    requires 1 + m.keyword + m.space + m.name + m.skip + m.trailing == |line|
    requires m.keyword == |keyword| && m.name == |word| && |word| > 0
    requires line[1..1 + m.keyword] == keyword
    requires line[1 + m.keyword + m.space..1 + m.keyword + m.space + m.name] == word
    ensures Captures(line, CommandTokens(line, n, m), keyword, word)
  {
    var k := m.keyword;
    var kw := if keyword == "flag" then Tok(Flag, n, 1, 1, 4) else Tok(Collect, n, 1, 1, 7);
    assert KeywordToken(line, n, k) == kw;
  }

  /** The concatenation read position by position. */
  lemma Decompose(line: string, keyword: string, blanks: string, word: string, rest: string)
    requires keyword == "flag" || keyword == "collect"
    requires line == "@" + keyword + blanks + word + rest
    requires |blanks| > 0 && All(blanks, Blank)
    requires |word| > 0 && All(word, NonWhiteSpace)
    requires All(rest, Dot) && (rest == [] || IsWs(rest[0]))
    ensures var a, b, c := 1 + |keyword|, 1 + |keyword| + |blanks|, 1 + |keyword| + |blanks| + |word|;
      && c <= |line|
      && line[0] == '@' && line[1] != '/'
      && line[1..a] == keyword && line[b..c] == word
      && (forall j :: 1 <= j < a ==> IsNonWs(line[j]))
      && (forall j :: a <= j < b ==> IsBlank(line[j]))
      && (forall j :: b <= j < c ==> IsNonWs(line[j]))
      && (forall j :: c <= j < |line| ==> IsDot(line[j]))
      && (c == |line| || IsWs(line[c]))
  {
    var a, b, c := 1 + |keyword|, 1 + |keyword| + |blanks|, 1 + |keyword| + |blanks| + |word|;
    assert line[1..a] == keyword;
    assert line[b..c] == word;
    forall j | 1 <= j < a ensures IsNonWs(line[j]) { assert line[j] == keyword[j - 1]; }
    forall j | a <= j < b ensures IsBlank(line[j]) { assert line[j] == blanks[j - a]; }
    forall j | b <= j < c ensures IsNonWs(line[j]) { assert line[j] == word[j - b]; }
    forall j | c <= j < |line| ensures IsDot(line[j]) { assert line[j] == rest[j - c]; }
    if c < |line| { assert line[c] == rest[0]; }
  }

  /** Where the groups fall on a line laid out as `@`, a keyword, blanks, a
      word, and a remainder that starts with white space. */
  lemma CaptureGroups(line: string, k: nat, s: nat, w: nat)
    requires 0 < k && 0 < s && 0 < w && 1 + k + s + w <= |line|
    requires line[0] == '@' && line[1] != '/'
    requires forall j :: 1 <= j < 1 + k ==> IsNonWs(line[j])
    requires forall j :: 1 + k <= j < 1 + k + s ==> IsBlank(line[j])
    requires forall j :: 1 + k + s <= j < 1 + k + s + w ==> IsNonWs(line[j])
    requires forall j :: 1 + k + s + w <= j < |line| ==> IsDot(line[j])
    requires 1 + k + s + w == |line| || IsWs(line[1 + k + s + w])
    ensures MatchCommand(line).Some?
    ensures var m := MatchCommand(line).value;
      m.keyword == k && m.space == s && m.name == w
    ensures StartsWith(line, "@") && line[1] != '/' && NoLineBreak(line)
  {
    assert StartsWith(line, "@");
    assert NoLineBreak(line);
    CaptureSpans(line, k, s, w);
    var g := CommandGroups(line);
    AllSlice(line, 1 + k + s + w, 1 + k + s + w + g.skip, Dot);
  }

  lemma CaptureDispatch(line: string, n: nat)
    requires |line| >= 2 && StartsWith(line, "@") && line[1] != '/' && NoLineBreak(line)
    requires MatchCommand(line).Some?
    ensures TokenizeLine(line, n) == Ok(CommandTokens(line, n, MatchCommand(line).value))
  {
    assert !IsBlank(line[0]);
    assert line[..2] != "//";
  }

  lemma CaptureSpans(line: string, k: nat, s: nat, w: nat)
    requires 0 < k && 0 < s && 0 < w && 1 + k + s + w <= |line|
    requires StartsWith(line, "@")
    requires forall j :: 1 <= j < 1 + k ==> IsNonWs(line[j])
    requires forall j :: 1 + k <= j < 1 + k + s ==> IsBlank(line[j])
    requires forall j :: 1 + k + s <= j < 1 + k + s + w ==> IsNonWs(line[j])
    requires 1 + k + s + w == |line| || IsWs(line[1 + k + s + w])
    ensures var g := CommandGroups(line); g.keyword == k && g.space == s && g.name == w
  {
    SpanExact(line, 1, k, NonWhiteSpace);
    SpanExact(line, 1 + k, s, Blank);
    SpanExact(line, 1 + k + s, w, NonWhiteSpace);
  }

  /** A line holding a carriage return is neither blank, nor a comment, nor a
      command; it reaches the sentence tokenizer, whose regular expression
      cannot match it. */
  lemma CarriageReturnFails(line: string, n: nat)
    requires '\r' in line
    ensures TokenizeLine(line, n).Err?
  {
    var i :| 0 <= i < |line| && line[i] == '\r';
    assert !IsBlank(line[i]);
    var m := |line| - TrailingSpan(line, Blank);
    assert i < m;
    assert line[..m][i] == '\r';
  }

  /** A line without line terminators is always tokenized. */
  lemma PlainLineSucceeds(line: string, n: nat)
    requires All(line, Dot)
    ensures TokenizeLine(line, n).Ok?
  {
    assert NoLineBreak(line);
    if IsNewLine(line) {
    } else if IsCommentLine(line) {
    } else if MayBeCommandLine(line) {
      MatchCommandTotal(line);
    } else {
      SentenceSucceeds(line, n);
    }
  }

  /** A line of the class of `.` that is not blank and starts with neither
      `//` nor `@` is a sentence. */
  lemma SentenceSucceeds(line: string, n: nat)
    requires All(line, Dot) && !IsNewLine(line)
    requires !StartsWith(line, "//") && !StartsWith(line, "@")
    ensures TokenizeSentenceLine(line, n).Ok?
  {
    var m := |line| - TrailingSpan(line, Blank);
    var sentence := line[..m];
    assert |sentence| >= 2 ==> sentence[..2] == line[..2];
    assert sentence[..1] == line[..1];
    assert All(sentence, Dot);
  }


  /** The line tokenizer never emits a flag or collect argument: a command's
      argument is a `Name`. */
  lemma LineAvoidsArgs(line: string, n: nat)
    ensures TokenizeLine(line, n).Ok? ==>
      Avoids(TokenizeLine(line, n).value, FlagArg) && Avoids(TokenizeLine(line, n).value, CollectArg)
  {
    if !IsNewLine(line) && !IsCommentLine(line) && MayBeCommandLine(line) && MatchCommand(line).Some? {
      CommandAvoidsArgs(line, n, MatchCommand(line).value);
    }
  }

  lemma CommandAvoidsArgs(line: string, n: nat, m: CommandMatch)
    requires 1 + m.keyword + m.space + m.name + m.skip + m.trailing == |line|
    ensures Avoids(CommandTokens(line, n, m), FlagArg) && Avoids(CommandTokens(line, n, m), CollectArg)
  {
    var kw := KeywordToken(line, n, m.keyword);
    assert kw.kind != FlagArg && kw.kind != CollectArg;
  }

  /** A blank line or a comment line always tokenizes, and into no `Words`. */
  lemma QuietLine(line: string, n: nat)
    requires IsNewLine(line) || IsCommentLine(line)
    ensures TokenizeLine(line, n).Ok? && Avoids(TokenizeLine(line, n).value, Words)
  {
  }

  /** A line whose first token is `Words` is a sentence line: the token runs
      from column 0 to the last character before the trailing blanks. */
  lemma WordsSpan(line: string, n: nat)
    requires TokenizeLine(line, n).Ok? && |TokenizeLine(line, n).value| > 0
    requires TokenizeLine(line, n).value[0].kind == Words
    ensures var w := TokenizeLine(line, n).value[0];
      var m := |line| - TrailingSpan(line, Blank);
      0 < m && w.start == Position(n, 0) && w.end == Position(n, m - 1)
  {
  }
}
