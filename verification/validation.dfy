/** The flag/collect validator of src/core/stlap.ts (`validate` and
    `_validate`). It walks the tree in document order and carries two pieces
    of state: the set of completed names, and the insertion-ordered map of
    names flagged but not yet collected. It reports syntax errors, misused
    markers, and every name left open at the end. */
module Validation {
  import opened Results
  import opened Syntax
  import opened SourceText
  import opened Diagnostics
  import Strings

  /** The validator's state. `remaining` keeps the JavaScript `Map` in
      insertion order, as a list of (name, FlagArg token) entries. */
  datatype Markers = Markers(completed: set<string>, remaining: seq<(string, Token)>)

  const Empty := Markers({}, [])

  function Names(remaining: seq<(string, Token)>): set<string>
  {
    set p | p in remaining :: p.0
  }

  predicate DistinctNames(remaining: seq<(string, Token)>)
  {
    forall j, k :: 0 <= j < k < |remaining| ==> remaining[j].0 != remaining[k].0
  }

  /** The state the validator keeps: no name is both open and completed,
      and no name is open twice. */
  predicate Consistent(m: Markers)
  {
    DistinctNames(m.remaining) && Names(m.remaining) !! m.completed
  }

  /** `Map.delete`: the entries without the one named `a`, in order. */
  function Without(remaining: seq<(string, Token)>, a: string): (r: seq<(string, Token)>)
    ensures forall p :: p in r <==> p in remaining && p.0 != a
    ensures Names(r) == Names(remaining) - {a}
  {
    if remaining == [] then []
    else
      var last := remaining[|remaining| - 1];
      var init := remaining[..|remaining| - 1];
      assert remaining == init + [last];
      Without(init, a) + (if last.0 == a then [] else [last])
  }

  lemma {:induction false} WithoutDistinct(remaining: seq<(string, Token)>, a: string)
    requires DistinctNames(remaining)
    ensures DistinctNames(Without(remaining, a))
  {
    if remaining != [] {
      var init := remaining[..|remaining| - 1];
      var last := remaining[|remaining| - 1];
      assert DistinctNames(init);
      WithoutDistinct(init, a);
      assert last.0 !in Names(init);
    }
  }

  /** Deleting distributes over concatenation: the entries that survive
      keep their insertion order. */
  lemma {:induction false} WithoutAppend(x: seq<(string, Token)>, y: seq<(string, Token)>, a: string)
    ensures Without(x + y, a) == Without(x, a) + Without(y, a)
    ensures |y| == 1 ==> Without(y, a) == if y[0].0 == a then [] else y
    decreases |y|
  {
    if |y| == 1 {
      assert y[..0] == [];
    }
    if y == [] {
      assert x + y == x;
    } else {
      var y', last := y[..|y| - 1], y[|y| - 1];
      var tail := if last.0 == a then [] else [last];
      var wx, wy' := Without(x, a), Without(y', a);
      WithoutAppend(x, y', a);
      Strings.AppendInit(x, y);
      assert Without(x + y, a) == (wx + wy') + tail;
      assert Without(y, a) == wy' + tail;
      Strings.AppendAssoc(wx, wy', tail);
    }
  }

  /** `x` is `y` with some entries deleted, the others kept in order. */
  predicate SubSeq<T(==)>(x: seq<T>, y: seq<T>)
    decreases |y|
  {
    if x == [] then true
    else if y == [] then false
    else (x[|x| - 1] == y[|y| - 1] && SubSeq(x[..|x| - 1], y[..|y| - 1])) || SubSeq(x, y[..|y| - 1])
  }

  lemma SubSeqSnoc<T>(x: seq<T>, y: seq<T>, e: T)
    requires SubSeq(x, y)
    ensures SubSeq(x + [e], y + [e]) && SubSeq(x, y + [e])
  {
    assert (x + [e])[..|x|] == x;
    assert (y + [e])[..|y|] == y;
  }

  lemma {:induction false} SubSeqTrans<T>(x: seq<T>, y: seq<T>, z: seq<T>)
    requires SubSeq(x, y) && SubSeq(y, z)
    ensures SubSeq(x, z)
    decreases |z|
  {
    if x != [] {
      var y', z' := y[..|y| - 1], z[..|z| - 1];
      if y[|y| - 1] == z[|z| - 1] && SubSeq(y', z') {
        if x[|x| - 1] == y[|y| - 1] && SubSeq(x[..|x| - 1], y') {
          SubSeqTrans(x[..|x| - 1], y', z');
        } else {
          SubSeqTrans(x, y', z');
        }
      } else {
        SubSeqTrans(x, y, z');
      }
    }
  }

  /** Deleting a name leaves a subsequence of the entries. */
  lemma {:induction false} WithoutSubSeq(remaining: seq<(string, Token)>, a: string)
    ensures SubSeq(Without(remaining, a), remaining)
    decreases |remaining|
  {
    if remaining != [] {
      var init := remaining[..|remaining| - 1];
      var last := remaining[|remaining| - 1];
      assert remaining == init + [last];
      var w := Without(init, a);
      WithoutSubSeq(init, a);
      SubSeqSnoc(w, init, last);
      if last.0 == a {
        assert Without(remaining, a) == w + [];
        assert w + [] == w;
      } else {
        assert Without(remaining, a) == w + [last];
      }
    }
  }

  /** The argument of a FlagArg or CollectArg token: the source from its
      start through its end. */
  function ArgText(t: Text, tok: Token): string
  {
    GetText(t, Some(Range(tok.start, tok.end)))
  }

  function AlreadyUsed(a: string): string
  {
    a + " is already used" + " フラグ" + a + " はすでに使用されています"
  }

  function AlreadyCompleted(a: string): string
  {
    a + " is already completed" + " " + a + " フラグはすでに回収されています\n@flag " + a + "\nを消去してください"
  }

  function NotFlagged(a: string): string
  {
    a + " is not flagged" + " " + a + " フラグがありません\n@flag " + a + "\nをしてください"
  }

  function NotCollected(a: string): string
  {
    "Flag " + a + " is not collected フラグ " + a + " が回収されていません\n@collect " + a + "\nをしてください"
  }

  /** An Error diagnostic covering a token's trivia and content. */
  function ErrorAt(tok: Token, message: string): Diagnostic
  {
    Diagnostic(Range(tok.fullStart, tok.end), Some(Error), message)
  }

  /** What visiting one token does to the state and which diagnostics it
      reports. */
  function Step(t: Text, m: Markers, tok: Token): (Markers, seq<Diagnostic>)
  {
    match tok.kind
    case MissingToken => (m, [ErrorAt(tok, tok.message.GetOr(""))])
    case SkippedToken => (m, [ErrorAt(tok, tok.message.GetOr(""))])
    case FlagArg =>
      var a := ArgText(t, tok);
      if a in Names(m.remaining) || a in m.completed then (m, [ErrorAt(tok, AlreadyUsed(a))])
      else (Markers(m.completed, m.remaining + [(a, tok)]), [])
    case CollectArg =>
      var a := ArgText(t, tok);
      if a in Names(m.remaining) && a !in m.completed then (Markers(m.completed + {a}, Without(m.remaining, a)), [])
      else if a in m.completed then (m, [ErrorAt(tok, AlreadyCompleted(a))])
      else (m, [ErrorAt(tok, NotFlagged(a))])
    case _ => (m, [])
  }

  /** Visiting a token sequence in order: the final state and the
      diagnostics of every step, in order. */
  function Scan(t: Text, m: Markers, ts: seq<Token>): (Markers, seq<Diagnostic>)
  {
    if ts == [] then (m, [])
    else
      var before := Scan(t, m, ts[..|ts| - 1]);
      var after := Step(t, before.0, ts[|ts| - 1]);
      (after.0, before.1 + after.1)
  }

  /** Scanning two sequences one after the other is scanning their
      concatenation. */
  lemma {:induction false} ScanAppend(t: Text, m: Markers, a: seq<Token>, b: seq<Token>)
    ensures Scan(t, m, a + b).0 == Scan(t, Scan(t, m, a).0, b).0
    ensures Scan(t, m, a + b).1 == Scan(t, m, a).1 + Scan(t, Scan(t, m, a).0, b).1
    decreases |b|
  {
    if b == [] {
      assert a + b == a;
    } else {
      var b' := b[..|b| - 1];
      ScanAppend(t, m, a, b');
      assert (a + b)[..|a + b| - 1] == a + b';
    }
  }

  /** The diagnostics for the names still open after the walk, in the
      order they were flagged. */
  function Leftovers(remaining: seq<(string, Token)>): (ds: seq<Diagnostic>)
    ensures |ds| == |remaining|
    ensures forall k :: 0 <= k < |ds| ==> ds[k] == ErrorAt(remaining[k].1, NotCollected(remaining[k].0))
  {
    seq(|remaining|, k requires 0 <= k < |remaining| => ErrorAt(remaining[k].1, NotCollected(remaining[k].0)))
  }

  /** `validate`: the walk's diagnostics, then one for every name left open. */
  function ValidateSpec(t: Text, story: Vertex): seq<Diagnostic>
  {
    var walk := Scan(t, Empty, Flatten(VertexChild(story)));
    walk.1 + Leftovers(walk.0.remaining)
  }

  // ----- the state stays consistent -----

  lemma StepConsistent(t: Text, m: Markers, tok: Token)
    requires Consistent(m)
    ensures Consistent(Step(t, m, tok).0)
    ensures m.completed <= Step(t, m, tok).0.completed
  {
    if tok.kind == CollectArg {
      WithoutDistinct(m.remaining, ArgText(t, tok));
    } else if tok.kind == FlagArg {
      var a := ArgText(t, tok);
      var r := m.remaining + [(a, tok)];
      if a !in Names(m.remaining) && a !in m.completed {
        assert Names(r) == Names(m.remaining) + {a};
        forall j, k | 0 <= j < k < |r| ensures r[j].0 != r[k].0 {
          if k == |r| - 1 {
            assert r[j] in m.remaining;
          }
        }
      }
    }
  }

  /** Whatever the tokens, no name is ever both open and completed, no name
      is open twice, and a completed name stays completed. */
  lemma {:induction false} ScanConsistent(t: Text, m: Markers, ts: seq<Token>)
    requires Consistent(m)
    ensures Consistent(Scan(t, m, ts).0)
    ensures m.completed <= Scan(t, m, ts).0.completed
  {
    if ts != [] {
      ScanConsistent(t, m, ts[..|ts| - 1]);
      StepConsistent(t, Scan(t, m, ts[..|ts| - 1]).0, ts[|ts| - 1]);
    }
  }

  /** The entries the FlagArg tokens of `ts` would make, in token order. */
  function FlagEntries(t: Text, ts: seq<Token>): seq<(string, Token)>
  {
    if ts == [] then []
    else
      var tok := ts[|ts| - 1];
      FlagEntries(t, ts[..|ts| - 1]) + (if tok.kind == FlagArg then [(ArgText(t, tok), tok)] else [])
  }

  /** Every name still open after a walk from the empty state is paired
      with the FlagArg token that opened it, and the open entries follow
      those tokens' order in the walk. */
  lemma {:induction false} ScanOrder(t: Text, ts: seq<Token>)
    ensures SubSeq(Scan(t, Empty, ts).0.remaining, FlagEntries(t, ts))
  {
    if ts != [] {
      var init := ts[..|ts| - 1];
      var tok := ts[|ts| - 1];
      ScanOrder(t, init);
      StepOrder(t, Scan(t, Empty, init).0, tok, FlagEntries(t, init));
    }
  }

  /** One step keeps the open entries a subsequence of the flag entries,
      extended by the token's own entry when it is a FlagArg. */
  lemma StepOrder(t: Text, m: Markers, tok: Token, fe: seq<(string, Token)>)
    requires SubSeq(m.remaining, fe)
    ensures SubSeq(Step(t, m, tok).0.remaining, fe + (if tok.kind == FlagArg then [(ArgText(t, tok), tok)] else []))
  {
    var a := ArgText(t, tok);
    var rem' := Step(t, m, tok).0.remaining;
    if tok.kind == FlagArg {
      SubSeqSnoc(m.remaining, fe, (a, tok));
    } else {
      assert fe + [] == fe;
      if tok.kind == CollectArg && a in Names(m.remaining) && a !in m.completed {
        WithoutSubSeq(m.remaining, a);
        SubSeqTrans(Without(m.remaining, a), m.remaining, fe);
      } else {
        assert rem' == m.remaining;
      }
    }
  }

  // ----- the reference: counting markers -----

  /** How many tokens of `kind` in `ts` name `a`. */
  function Count(t: Text, ts: seq<Token>, kind: TokenKind, a: string): nat
  {
    if ts == [] then 0
    else Count(t, ts[..|ts| - 1], kind, a) + (if ts[|ts| - 1].kind == kind && ArgText(t, ts[|ts| - 1]) == a then 1 else 0)
  }

  lemma CountSnoc(t: Text, ts: seq<Token>, tok: Token, kind: TokenKind, a: string)
    ensures Count(t, ts + [tok], kind, a) == Count(t, ts, kind, a) + (if tok.kind == kind && ArgText(t, tok) == a then 1 else 0)
  {
    assert (ts + [tok])[..|ts|] == ts;
  }

  /** A token may follow `before` without complaint: it is no syntax error,
      a flag opens a name never flagged before, and a collect closes a name
      flagged once and not yet collected. */
  predicate CleanStep(t: Text, before: seq<Token>, tok: Token)
  {
    && tok.kind != MissingToken && tok.kind != SkippedToken
    && (tok.kind == FlagArg ==> Count(t, before, FlagArg, ArgText(t, tok)) == 0)
    && (tok.kind == CollectArg ==>
          Count(t, before, FlagArg, ArgText(t, tok)) == 1 && Count(t, before, CollectArg, ArgText(t, tok)) == 0)
  }

  /** Every token of `ts` may follow the ones before it. */
  predicate Clean(t: Text, ts: seq<Token>)
  {
    ts == [] || (Clean(t, ts[..|ts| - 1]) && CleanStep(t, ts[..|ts| - 1], ts[|ts| - 1]))
  }

  /** Every name flagged is collected. */
  ghost predicate Paired(t: Text, ts: seq<Token>)
  {
    forall a :: Count(t, ts, CollectArg, a) == Count(t, ts, FlagArg, a)
  }

  /** After a clean run the state is what the counts say: completed names
      were flagged and collected once, open names flagged once and never
      collected, and no name more often. */
  ghost predicate Tracks(t: Text, ts: seq<Token>, m: Markers)
  {
    forall a ::
      && Count(t, ts, FlagArg, a) <= 1
      && Count(t, ts, CollectArg, a) <= Count(t, ts, FlagArg, a)
      && (a in m.completed <==> Count(t, ts, FlagArg, a) == 1 && Count(t, ts, CollectArg, a) == 1)
      && (a in Names(m.remaining) <==> Count(t, ts, FlagArg, a) == 1 && Count(t, ts, CollectArg, a) == 0)
  }

  lemma FlagTracks(t: Text, before: seq<Token>, m: Markers, tok: Token)
    requires Tracks(t, before, m) && tok.kind == FlagArg
    ensures Step(t, m, tok).1 == [] <==> CleanStep(t, before, tok)
    ensures CleanStep(t, before, tok) ==> Tracks(t, before + [tok], Step(t, m, tok).0)
  {
    var a := ArgText(t, tok);
    assert a in Names(m.remaining) || a in m.completed <==> Count(t, before, FlagArg, a) == 1;
    if CleanStep(t, before, tok) {
      var m' := Step(t, m, tok).0;
      assert Names(m'.remaining) == Names(m.remaining) + {a};
      forall b
        ensures && Count(t, before + [tok], FlagArg, b) <= 1
                && Count(t, before + [tok], CollectArg, b) <= Count(t, before + [tok], FlagArg, b)
                && (b in m'.completed <==> Count(t, before + [tok], FlagArg, b) == 1 && Count(t, before + [tok], CollectArg, b) == 1)
                && (b in Names(m'.remaining) <==> Count(t, before + [tok], FlagArg, b) == 1 && Count(t, before + [tok], CollectArg, b) == 0)
      {
        CountSnoc(t, before, tok, FlagArg, b);
        CountSnoc(t, before, tok, CollectArg, b);
      }
    }
  }

  lemma CollectTracks(t: Text, before: seq<Token>, m: Markers, tok: Token)
    requires Tracks(t, before, m) && tok.kind == CollectArg
    ensures Step(t, m, tok).1 == [] <==> CleanStep(t, before, tok)
    ensures CleanStep(t, before, tok) ==> Tracks(t, before + [tok], Step(t, m, tok).0)
  {
    var a := ArgText(t, tok);
    assert a in Names(m.remaining) && a !in m.completed <==>
      Count(t, before, FlagArg, a) == 1 && Count(t, before, CollectArg, a) == 0;
    if CleanStep(t, before, tok) {
      var m' := Step(t, m, tok).0;
      forall b
        ensures && Count(t, before + [tok], FlagArg, b) <= 1
                && Count(t, before + [tok], CollectArg, b) <= Count(t, before + [tok], FlagArg, b)
                && (b in m'.completed <==> Count(t, before + [tok], FlagArg, b) == 1 && Count(t, before + [tok], CollectArg, b) == 1)
                && (b in Names(m'.remaining) <==> Count(t, before + [tok], FlagArg, b) == 1 && Count(t, before + [tok], CollectArg, b) == 0)
      {
        CountSnoc(t, before, tok, FlagArg, b);
        CountSnoc(t, before, tok, CollectArg, b);
      }
    }
  }

  lemma OtherTracks(t: Text, before: seq<Token>, m: Markers, tok: Token)
    requires Tracks(t, before, m) && tok.kind != FlagArg && tok.kind != CollectArg
    ensures Step(t, m, tok).1 == [] <==> CleanStep(t, before, tok)
    ensures CleanStep(t, before, tok) ==> Tracks(t, before + [tok], Step(t, m, tok).0)
  {
    forall b
      ensures Count(t, before + [tok], FlagArg, b) == Count(t, before, FlagArg, b)
      ensures Count(t, before + [tok], CollectArg, b) == Count(t, before, CollectArg, b)
    {
      CountSnoc(t, before, tok, FlagArg, b);
      CountSnoc(t, before, tok, CollectArg, b);
    }
  }

  /** A run of tokens draws no diagnostic exactly when it is clean, and then
      the state is what the counts say. */
  lemma {:induction false} ScanClean(t: Text, ts: seq<Token>)
    ensures Scan(t, Empty, ts).1 == [] <==> Clean(t, ts)
    ensures Clean(t, ts) ==> Tracks(t, ts, Scan(t, Empty, ts).0)
  {
    if ts != [] {
      var init := ts[..|ts| - 1];
      var tok := ts[|ts| - 1];
      assert ts == init + [tok];
      ScanClean(t, init);
      var m := Scan(t, Empty, init).0;
      if Clean(t, init) {
        if tok.kind == FlagArg {
          FlagTracks(t, init, m, tok);
        } else if tok.kind == CollectArg {
          CollectTracks(t, init, m, tok);
        } else {
          OtherTracks(t, init, m, tok);
        }
      }
    }
  }

  /** `validate` reports nothing exactly when the tokens hold no syntax
      error, every flag opens a fresh name, every collect closes an open
      name, and every flagged name is collected. */
  lemma ValidateClean(t: Text, story: Vertex)
    ensures var ts := Flatten(VertexChild(story));
      ValidateSpec(t, story) == [] <==> Clean(t, ts) && Paired(t, ts)
  {
    var ts := Flatten(VertexChild(story));
    ScanClean(t, ts);
    var m := Scan(t, Empty, ts).0;
    if Clean(t, ts) {
      if m.remaining != [] {
        var a := m.remaining[0].0;
        assert a in Names(m.remaining);
        assert Count(t, ts, CollectArg, a) != Count(t, ts, FlagArg, a);
      } else {
        forall a ensures Count(t, ts, CollectArg, a) == Count(t, ts, FlagArg, a) {
          assert a !in Names(m.remaining);
        }
      }
    }
  }

  // ----- syntax errors -----

  /** One Error diagnostic per MissingToken or SkippedToken, in order, with
      the token's message or "" when it has none. */
  function SyntaxErrors(ts: seq<Token>): seq<Diagnostic>
  {
    if ts == [] then []
    else
      var tok := ts[|ts| - 1];
      SyntaxErrors(ts[..|ts| - 1])
        + (if tok.kind == MissingToken || tok.kind == SkippedToken then [ErrorAt(tok, tok.message.GetOr(""))] else [])
  }

  /** Without flag or collect arguments the state never changes and the
      only diagnostics are the syntax errors. */
  lemma {:induction false} ScanWithoutArgs(t: Text, m: Markers, ts: seq<Token>)
    requires Avoids(ts, FlagArg) && Avoids(ts, CollectArg)
    ensures Scan(t, m, ts) == (m, SyntaxErrors(ts))
  {
    if ts != [] {
      assert Avoids(ts[..|ts| - 1], FlagArg) && Avoids(ts[..|ts| - 1], CollectArg);
      ScanWithoutArgs(t, m, ts[..|ts| - 1]);
    }
  }

  /** Every diagnostic the walk reports is an Error. */
  lemma {:induction false} ScanReportsErrors(t: Text, m: Markers, ts: seq<Token>)
    ensures forall k :: 0 <= k < |Scan(t, m, ts).1| ==> Scan(t, m, ts).1[k].severity == Some(Error)
  {
    if ts != [] {
      ScanReportsErrors(t, m, ts[..|ts| - 1]);
    }
  }

  /** `_validate`'s mutable arguments, with the walk as methods on them. */
  class Validator {
    const text: Text
    var completed: set<string>
    var remaining: seq<(string, Token)>

    function State(): Markers
      reads this
    {
      Markers(completed, remaining)
    }

    constructor (text: Text)
      ensures this.text == text && State() == Empty
    {
      this.text := text;
      completed := {};
      remaining := [];
    }

    /** The token case of `_validate`. */
    method VisitToken(tok: Token) returns (ds: seq<Diagnostic>)
      modifies this
      ensures (State(), ds) == Step(text, old(State()), tok)
    {
      ds := [];
      if tok.kind == MissingToken {
        ds := [ErrorAt(tok, tok.message.GetOr(""))];
      } else if tok.kind == SkippedToken {
        ds := [ErrorAt(tok, tok.message.GetOr(""))];
      } else if tok.kind == FlagArg {
        var arg := ArgText(text, tok);
        if arg in Names(remaining) || arg in completed {
          ds := [ErrorAt(tok, AlreadyUsed(arg))];
        } else {
          remaining := remaining + [(arg, tok)];
        }
      } else if tok.kind == CollectArg {
        var arg := ArgText(text, tok);
        if arg in Names(remaining) && arg !in completed {
          remaining := Without(remaining, arg);
          completed := completed + {arg};
        } else if arg in completed {
          ds := [ErrorAt(tok, AlreadyCompleted(arg))];
        } else {
          ds := [ErrorAt(tok, NotFlagged(arg))];
        }
      }
    }

    /** `_validate`: a token is visited; a vertex's children are walked in
        order, their diagnostics concatenated. */
    method Visit(c: Child) returns (ds: seq<Diagnostic>)
      modifies this
      ensures (State(), ds) == Scan(text, old(State()), Flatten(c))
      decreases c
    {
      match c
      case TokenChild(tok) =>
        var start := State();
        ds := VisitToken(tok);
        assert [tok][..0] == [];
        assert Scan(text, start, [tok]) == (State(), [] + ds);
        assert [] + ds == ds && Flatten(c) == [tok];
      case VertexChild(v) =>
        ds := [];
        var k := 0;
        while k < |v.children|
          invariant 0 <= k <= |v.children|
          invariant (State(), ds) == Scan(text, old(State()), FlattenAll(v.children[..k]))
        {
          var before := State();
          var d := Visit(v.children[k]);
          ScanAppend(text, old(State()), FlattenAll(v.children[..k]), Flatten(v.children[k]));
          assert v.children[..k + 1] == v.children[..k] + [v.children[k]];
          FlattenAllSnoc(v.children[..k], v.children[k]);
          ds := ds + d;
          k := k + 1;
        }
        assert v.children[..k] == v.children;
        assert Flatten(c) == FlattenAll(v.children);
    }
  }

  /** `validate`: a fresh state, the walk over the story, then one "not
      collected" diagnostic per entry left in the map. */
  method Validate(t: Text, story: Vertex) returns (ds: seq<Diagnostic>)
    ensures ds == ValidateSpec(t, story)
  {
    var v := new Validator(t);
    ds := v.Visit(VertexChild(story));
    var open := v.remaining;
    for i := 0 to |open|
      invariant ds == Scan(t, Empty, Flatten(VertexChild(story))).1 + Leftovers(open[..i])
    {
      var (arg, tok) := open[i];
      ds := ds + [ErrorAt(tok, NotCollected(arg))];
      assert Leftovers(open[..i + 1]) == Leftovers(open[..i]) + [ErrorAt(tok, NotCollected(arg))];
    }
    assert open[..|open|] == open;
  }
}
