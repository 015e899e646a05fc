/** `Tokenizer.tokenize` of src/parser.ts: the source is split into lines,
    each line is tokenized with its zero-based number, and the per-line token
    lists are concatenated; the first line that fails fails the whole run. */
module Tokenizer {
  import opened Results
  import opened Strings
  import opened Syntax
  import opened LineTokenizer

  predicate EndsWithNewline(s: string) {
    |s| > 0 && s[|s| - 1] == '\n'
  }

  /** The lines the tokenizer visits: `split("\n")`, without the empty piece
      after a final line feed (a source that is only a line feed keeps its
      single empty line). */
  function KeptLines(src: string): seq<string>
  {
    var parts := Split(src, '\n');
    if |parts| > 1 && parts[|parts| - 1] == "" then parts[..|parts| - 1] else parts
  }

  /** The kept lines are the source's lines: at least one, none holding a
      line feed, and joining them back gives the source up to a final line
      feed. */
  lemma {:induction false} KeptLinesRejoin(src: string)
    ensures |KeptLines(src)| >= 1
    ensures forall i :: 0 <= i < |KeptLines(src)| ==> '\n' !in KeptLines(src)[i]
    ensures src == Join(KeptLines(src), "\n") + (if EndsWithNewline(src) then "\n" else "")
  {
    var parts := Split(src, '\n');
    JoinSplit(src, '\n');
    if |parts| > 1 {
      JoinSnoc(parts, "\n");
      var last := parts[|parts| - 1];
      if last != "" {
        assert src[|src| - 1] == last[|last| - 1];
        assert last[|last| - 1] in last;
      }
    } else {
      assert Join(parts, "\n") == parts[0];
      assert |src| > 0 ==> src[|src| - 1] in parts[0];
    }
  }

  /** Each line's own result, tokenized with its zero-based number. */
  function LineResults(lines: seq<string>): (rs: seq<Result<seq<Token>>>)
    ensures |rs| == |lines|
  {
    seq(|lines|, i requires 0 <= i < |lines| => TokenizeLine(lines[i], i))
  }

  /** The concatenated tokens of the first `k` results, or the first error
      among them. */
  function Collect(rs: seq<Result<seq<Token>>>, k: nat): Result<seq<Token>>
    requires k <= |rs|
  {
    if k == 0 then Ok([])
    else match Collect(rs, k - 1)
      case Err(e) => Err(e)
      case Ok(ts) =>
        match rs[k - 1]
        case Err(e) => Err(e)
        case Ok(t) => Ok(ts + t)
  }

  /** The whole source's tokens. */
  function TokenizeSpec(src: string): Result<seq<Token>>
  {
    Collect(LineResults(KeptLines(src)), |KeptLines(src)|)
  }

  /** `Tokenizer.tokenize`. */
  method Tokenize(src: string) returns (r: Result<seq<Token>>)
    ensures r == TokenizeSpec(src)
  {
    var lines := Split(src, '\n');
    if |lines| > 1 && lines[|lines| - 1] == "" {
      lines := lines[..|lines| - 1];
    }
    r := TokenizeLines(lines);
  }

  /** The loop of `Tokenizer.tokenize`: each line tokenized with its number,
      the tokens concatenated, returning on the first error. */
  method TokenizeLines(lines: seq<string>) returns (r: Result<seq<Token>>)
    ensures r == Collect(LineResults(lines), |lines|)
  {
    ghost var rs := LineResults(lines);
    var tokens: seq<Token> := [];
    for i := 0 to |lines|
      invariant Collect(rs, i) == Ok(tokens)
    {
      var t := TokenizeLine(lines[i], i);
      assert rs[i] == t;
      if t.Err? {
        ErrPersists(rs, i + 1, |lines|);
        return Err(t.error);
      }
      tokens := tokens + t.value;
    }
    r := Ok(tokens);
  }

  /** Once a result fails, every longer prefix fails with the same error. */
  lemma {:induction false} ErrPersists(rs: seq<Result<seq<Token>>>, k: nat, k': nat)
    requires k <= k' <= |rs|
    requires Collect(rs, k).Err?
    ensures Collect(rs, k') == Collect(rs, k)
    decreases k' - k
  {
    if k' > k {
      ErrPersists(rs, k, k' - 1);
    }
  }

  /** Collecting succeeds exactly when every result is a success; a failure
      is the first failing result. */
  lemma {:induction false} CollectOutcome(rs: seq<Result<seq<Token>>>, k: nat)
    requires k <= |rs|
    ensures Collect(rs, k).Ok? <==> forall i :: 0 <= i < k ==> rs[i].Ok?
    ensures Collect(rs, k).Err? ==>
      exists i :: 0 <= i < k && Collect(rs, k) == rs[i] && forall j :: 0 <= j < i ==> rs[j].Ok?
  {
    if k > 0 {
      CollectOutcome(rs, k - 1);
      if Collect(rs, k - 1).Err? {
        var i :| 0 <= i < k - 1 && Collect(rs, k - 1) == rs[i] && forall j :: 0 <= j < i ==> rs[j].Ok?;
        assert Collect(rs, k) == rs[i];
      }
    }
  }

  /** Tokenizing a source succeeds exactly when every kept line is
      tokenized; otherwise the error is that of the first line that fails. */
  lemma TokenizeOutcome(src: string)
    ensures var rs := LineResults(KeptLines(src));
      TokenizeSpec(src).Ok? <==> forall i :: 0 <= i < |rs| ==> rs[i].Ok?
    ensures var rs := LineResults(KeptLines(src));
      TokenizeSpec(src).Err? ==>
        exists i :: 0 <= i < |rs| && TokenizeSpec(src) == rs[i] && forall j :: 0 <= j < i ==> rs[j].Ok?
  {
    var rs := LineResults(KeptLines(src));
    CollectOutcome(rs, |rs|);
  }

  /** A carriage return anywhere in the source (a CRLF line ending, say)
      makes tokenizing fail. */
  lemma CarriageReturnSourceFails(src: string)
    requires '\r' in src
    ensures TokenizeSpec(src).Err?
  {
    var lines := KeptLines(src);
    KeptLinesRejoin(src);
    var joined := Join(lines, "\n");
    if EndsWithNewline(src) {
      var k :| 0 <= k < |src| && src[k] == '\r';
      assert k < |joined| && joined[k] == '\r';
    }
    JoinMember(lines, '\n', '\r');
    var i :| 0 <= i < |lines| && '\r' in lines[i];
    CarriageReturnFails(lines[i], i);
    assert LineResults(lines)[i].Err?;
    TokenizeOutcome(src);
  }

  /** A source without carriage returns and without the Unicode line and
      paragraph separators always tokenizes. */
  lemma PlainSourceSucceeds(src: string)
    requires forall k :: 0 <= k < |src| ==> src[k] == '\n' || IsDot(src[k])
    ensures TokenizeSpec(src).Ok?
  {
    var lines := KeptLines(src);
    KeptLinesRejoin(src);
    var joined := Join(lines, "\n");
    assert joined == src[..|joined|];
    forall i | 0 <= i < |lines| ensures LineResults(lines)[i].Ok? {
      forall k | 0 <= k < |lines[i]| ensures IsDot(lines[i][k]) {
        JoinKeeps(lines, '\n', i, k);
        assert lines[i][k] != '\n';
      }
      PlainLineSucceeds(lines[i], i);
    }
    TokenizeOutcome(src);
  }

  /** When no result holds a token of `kind`, neither does their
      concatenation. */
  lemma {:induction false} CollectAvoids(rs: seq<Result<seq<Token>>>, k: nat, kind: TokenKind)
    requires k <= |rs|
    requires forall i :: 0 <= i < k && rs[i].Ok? ==> Avoids(rs[i].value, kind)
    ensures Collect(rs, k).Ok? ==> Avoids(Collect(rs, k).value, kind)
  {
    if k > 0 {
      CollectAvoids(rs, k - 1, kind);
    }
  }

  /** The tokens of a source hold no flag or collect argument. */
  lemma TokensAvoidArgs(src: string)
    ensures TokenizeSpec(src).Ok? ==>
      Avoids(TokenizeSpec(src).value, FlagArg) && Avoids(TokenizeSpec(src).value, CollectArg)
  {
    var lines := KeptLines(src);
    var rs := LineResults(lines);
    forall i | 0 <= i < |rs| ensures rs[i].Ok? ==> Avoids(rs[i].value, FlagArg) && Avoids(rs[i].value, CollectArg) {
      LineAvoidsArgs(lines[i], i);
    }
    CollectAvoids(rs, |rs|, FlagArg);
    CollectAvoids(rs, |rs|, CollectArg);
  }

  /** A source of blank and comment lines only (the empty source, a lone
      line feed, a comment) tokenizes into no `Words`. */
  lemma QuietSource(src: string)
    requires forall i :: 0 <= i < |KeptLines(src)| ==> IsNewLine(KeptLines(src)[i]) || IsCommentLine(KeptLines(src)[i])
    ensures TokenizeSpec(src).Ok? && Avoids(TokenizeSpec(src).value, Words)
  {
    var lines := KeptLines(src);
    var rs := LineResults(lines);
    forall i | 0 <= i < |rs| ensures rs[i].Ok? && Avoids(rs[i].value, Words) {
      QuietLine(lines[i], i);
    }
    TokenizeOutcome(src);
    CollectAvoids(rs, |rs|, Words);
  }

  /** The end positions of the Newline tokens, in order. */
  function NewlineEnds(ts: seq<Token>): seq<Position>
  {
    if ts == [] then []
    else NewlineEnds(ts[..|ts| - 1]) + (if ts[|ts| - 1].kind == Newline then [ts[|ts| - 1].end] else [])
  }

  lemma {:induction false} NewlineEndsAppend(a: seq<Token>, b: seq<Token>)
    ensures NewlineEnds(a + b) == NewlineEnds(a) + NewlineEnds(b)
    decreases |b|
  {
    if b == [] {
      assert a + b == a;
    } else {
      var b' := b[..|b| - 1];
      assert (a + b)[..|a + b| - 1] == a + b';
      NewlineEndsAppend(a, b');
    }
  }

  lemma {:induction false} NoNewlineEnds(ts: seq<Token>)
    requires forall k :: 0 <= k < |ts| ==> ts[k].kind != Newline
    ensures NewlineEnds(ts) == []
  {
    if ts != [] {
      NoNewlineEnds(ts[..|ts| - 1]);
    }
  }

  /** A per-line result ends at its one Newline. */
  lemma LineNewlineEnds(ts: seq<Token>, n: nat, len: nat)
    requires Lossless(ts, n, len)
    ensures NewlineEnds(ts) == [Position(n, len)]
  {
    NoNewlineEnds(ts[..|ts| - 1]);
  }

  /** One Newline per line, in order, each ending at its line's length. */
  predicate NewlinesMatch(ts: seq<Token>, lines: seq<string>, k: nat)
    requires k <= |lines|
  {
    |NewlineEnds(ts)| == k && forall i :: 0 <= i < k ==> NewlineEnds(ts)[i] == Position(i, |lines[i]|)
  }

  /** Every token lies within one of the first `k` lines, in line order. */
  predicate LinesOrdered(ts: seq<Token>, k: nat)
  {
    && (forall j :: 0 <= j < |ts| ==> OnLine(ts[j], ts[j].start.line) && ts[j].start.line < k)
    && (forall a, b :: 0 <= a <= b < |ts| ==> ts[a].start.line <= ts[b].start.line)
  }

  /** The token stream of `k` lines: the Newlines match the lines, the lines
      are in order, the stream ends with a Newline, and every line opens with
      a token that gives the parser a vertex kind. */
  predicate Stream(ts: seq<Token>, lines: seq<string>, k: nat)
    requires k <= |lines|
  {
    && NewlinesMatch(ts, lines, k)
    && LinesOrdered(ts, k)
    && (k > 0 ==> |ts| > 0 && ts[|ts| - 1].kind == Newline)
    && !HasBadHead(ts)
  }

  lemma NewlinesSnoc(ts: seq<Token>, t: seq<Token>, lines: seq<string>, k: nat)
    requires 0 < k <= |lines|
    requires NewlinesMatch(ts, lines, k - 1)
    requires Lossless(t, k - 1, |lines[k - 1]|)
    ensures NewlinesMatch(ts + t, lines, k)
  {
    NewlineEndsAppend(ts, t);
    LineNewlineEnds(t, k - 1, |lines[k - 1]|);
  }

  lemma OrderedSnoc(ts: seq<Token>, t: seq<Token>, k: nat)
    requires 0 < k
    requires LinesOrdered(ts, k - 1)
    requires forall j :: 0 <= j < |t| ==> OnLine(t[j], k - 1)
    ensures LinesOrdered(ts + t, k)
  {
    var all := ts + t;
    forall j | 0 <= j < |all| ensures OnLine(all[j], all[j].start.line) && all[j].start.line < k {
      if j >= |ts| { assert all[j] == t[j - |ts|]; }
    }
    forall a, b | 0 <= a <= b < |all| ensures all[a].start.line <= all[b].start.line {
      if b >= |ts| {
        assert all[b] == t[b - |ts|];
        if a >= |ts| { assert all[a] == t[a - |ts|]; }
      }
    }
  }

  lemma HeadsSnoc(ts: seq<Token>, t: seq<Token>, n: nat, len: nat)
    requires !HasBadHead(ts)
    requires ts != [] ==> ts[|ts| - 1].kind == Newline
    requires LineShaped(t, n, len)
    ensures !HasBadHead(ts + t)
  {
    var all := ts + t;
    forall j | 0 <= j < |all| ensures IsHead(all, j) ==> HeadKind(all[j].kind).Some? {
      if j >= |ts| {
        assert all[j] == t[j - |ts|];
        if j > |ts| {
          assert all[j - 1] == t[j - 1 - |ts|];
        }
      } else {
        assert all[j] == ts[j];
        if j > 0 { assert all[j - 1] == ts[j - 1]; }
        assert IsHead(all, j) ==> IsHead(ts, j);
      }
    }
  }

  lemma {:induction false} CollectStream(rs: seq<Result<seq<Token>>>, lines: seq<string>, k: nat)
    requires |rs| == |lines| && k <= |rs|
    requires forall i :: 0 <= i < |rs| && rs[i].Ok? ==> LineShaped(rs[i].value, i, |lines[i]|)
    ensures Collect(rs, k).Ok? ==> Stream(Collect(rs, k).value, lines, k)
  {
    if k > 0 && Collect(rs, k).Ok? {
      CollectStream(rs, lines, k - 1);
      var ts := Collect(rs, k - 1).value;
      var t := rs[k - 1].value;
      assert LineShaped(t, k - 1, |lines[k - 1]|);
      NewlinesSnoc(ts, t, lines, k);
      OrderedSnoc(ts, t, k);
      HeadsSnoc(ts, t, k - 1, |lines[k - 1]|);
    }
  }

  /** The tokens of any source that tokenizes form a stream over its kept
      lines. */
  lemma TokenizeStream(src: string)
    ensures TokenizeSpec(src).Ok? ==> Stream(TokenizeSpec(src).value, KeptLines(src), |KeptLines(src)|)
    ensures TokenizeSpec(src).Ok? ==> |TokenizeSpec(src).value| > 0
  {
    var lines := KeptLines(src);
    var rs := LineResults(lines);
    KeptLinesRejoin(src);
    forall i | 0 <= i < |rs| && rs[i].Ok? ensures LineShaped(rs[i].value, i, |lines[i]|) {
      TokenizeLineShape(lines[i], i);
    }
    CollectStream(rs, lines, |lines|);
  }
}
