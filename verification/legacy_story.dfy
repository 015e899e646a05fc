/** The story of the older line-based format (class `Stlap` of
    src/stlap.ts): passages separated by blank lines, the plain-text
    serializer, and the flag/collect check. */
module LegacyStory {
  import opened Results
  import opened Strings
  import opened LegacyPassage

  // ----- line ends -----

  /** A carriage return and a line feed start at `i`. */
  predicate CrLfAt(s: string, i: int) {
    0 <= i && i + 1 < |s| && s[i] == '\r' && s[i + 1] == '\n'
  }

  /** Index of the first "\r\n" at or after `from`. */
  function FindCrLf(s: string, from: nat): (r: Option<nat>)
    requires from <= |s|
    ensures r.Some? ==> from <= r.value && CrLfAt(s, r.value)
    ensures forall j :: from <= j < (if r.Some? then r.value else |s|) ==> !CrLfAt(s, j)
    decreases |s| - from
  {
    if from + 1 >= |s| then None
    else if s[from] == '\r' && s[from + 1] == '\n' then Some(from)
    else FindCrLf(s, from + 1)
  }

  /** `s.replace("\r\n", "\n")` with a string pattern: only the first
      occurrence is replaced. */
  function ReplaceFirst(s: string): (r: string)
    ensures FindCrLf(s, 0).None? ==> r == s
    ensures FindCrLf(s, 0).Some? ==>
      var k := FindCrLf(s, 0).value;
      |r| == |s| - 1 && r[..k] == s[..k] && r[k] == '\n' && r[k + 1..] == s[k + 2..]
  {
    match FindCrLf(s, 0)
    case None => s
    case Some(k) => s[..k] + "\n" + s[k + 2..]
  }

  /** Every "\r\n" replaced by "\n", scanning from the left: what the
      first step of `Stlap.fromString` evidently intends. */
  function ReplaceAll(s: string): (r: string)
    ensures |r| <= |s|
    decreases |s|
  {
    if s == [] then []
    else if |s| >= 2 && s[0] == '\r' && s[1] == '\n' then "\n" + ReplaceAll(s[2..])
    else [s[0]] + ReplaceAll(s[1..])
  }

  /** A text without carriage returns has nothing to replace. */
  lemma {:induction false} ReplaceAllPlain(s: string)
    requires '\r' !in s
    ensures ReplaceAll(s) == s
  {
    if s != [] {
      assert '\r' !in s[1..];
      ReplaceAllPlain(s[1..]);
      assert s == [s[0]] + s[1..];
    }
  }

  /** The same text with Windows line ends: every "\n" becomes "\r\n". */
  function CrLf(s: string): (r: string)
    ensures forall k :: 0 <= k < |r| && r[k] == '\n' ==> 0 < k && r[k - 1] == '\r'
    ensures |r| == 0 <==> |s| == 0
  {
    if s == [] then []
    else if s[0] == '\n' then "\r\n" + CrLf(s[1..])
    else [s[0]] + CrLf(s[1..])
  }

  /** Replacing every "\r\n" undoes the conversion to Windows line ends. */
  lemma {:induction false} ReplaceAllUndoesCrLf(s: string)
    ensures ReplaceAll(CrLf(s)) == s
  {
    if s != [] {
      ReplaceAllUndoesCrLf(s[1..]);
      var rest := CrLf(s[1..]);
      if s[0] == '\n' {
        assert ("\r\n" + rest)[2..] == rest;
      } else {
        var r := [s[0]] + rest;
        assert r[1..] == rest;
        if s[0] == '\r' && |r| >= 2 {
          assert r[1] == rest[0];
        }
      }
    }
  }

  // ----- passages -----

  /** Two line feeds start at `i`. */
  predicate BreakAt(s: string, i: int) {
    0 <= i && i + 1 < |s| && s[i] == '\n' && s[i + 1] == '\n'
  }

  /** Index of the first pair of line feeds at or after `from`. */
  function FindBreak(s: string, from: nat): (r: Option<nat>)
    requires from <= |s|
    ensures r.Some? ==> from <= r.value && BreakAt(s, r.value)
    ensures forall j :: from <= j < (if r.Some? then r.value else |s|) ==> !BreakAt(s, j)
    decreases |s| - from
  {
    if from + 1 >= |s| then None
    else if s[from] == '\n' && s[from + 1] == '\n' then Some(from)
    else FindBreak(s, from + 1)
  }

  /** Length of the run of line feeds starting at `i`. */
  function LineFeedRun(s: string, i: nat): (n: nat)
    requires i <= |s|
    ensures i + n <= |s|
    ensures forall k :: i <= k < i + n ==> s[k] == '\n'
    ensures i + n == |s| || s[i + n] != '\n'
    decreases |s| - i
  {
    if i == |s| || s[i] != '\n' then 0 else 1 + LineFeedRun(s, i + 1)
  }

  /** No two line feeds in a row. */
  predicate NoBreak(s: string) {
    forall j :: 0 <= j < |s| ==> !BreakAt(s, j)
  }

  lemma NoBreakBefore(s: string, i: nat)
    requires i <= |s| && forall j :: 0 <= j < i ==> !BreakAt(s, j)
    ensures NoBreak(s[..i])
  {
    forall j | 0 <= j < i ensures !BreakAt(s[..i], j) {
      assert BreakAt(s[..i], j) ==> BreakAt(s, j);
    }
  }

  /** `s.split(/\n\n*\n/)`: the pieces between maximal runs of two or more
      line feeds. */
  function Chunks(s: string): (cs: seq<string>)
    ensures |cs| >= 1
    ensures forall k :: 0 <= k < |cs| ==> NoBreak(cs[k])
    decreases |s|
  {
    match FindBreak(s, 0)
    case None =>
      NoBreakBefore(s, |s|);
      assert s[..|s|] == s;
      [s]
    case Some(i) =>
      NoBreakBefore(s, i);
      [s[..i]] + Chunks(s[i + LineFeedRun(s, i)..])
  }

  /** `s` with every run of three or more line feeds shortened to two. */
  function Collapse(s: string): string
    decreases |s|
  {
    if s == [] then []
    else if |s| >= 3 && s[0] == '\n' && s[1] == '\n' && s[2] == '\n' then Collapse(s[1..])
    else [s[0]] + Collapse(s[1..])
  }

  lemma {:induction false} CollapsePlain(s: string, i: nat)
    requires i <= |s| && forall j :: 0 <= j < i ==> !BreakAt(s, j)
    ensures Collapse(s) == s[..i] + Collapse(s[i..])
    decreases i
  {
    if i > 0 {
      assert !BreakAt(s, 0);
      assert forall j :: 0 <= j < i - 1 ==> !BreakAt(s[1..], j) by {
        forall j | 0 <= j < i - 1 ensures !BreakAt(s[1..], j) {
          assert !BreakAt(s, j + 1);
        }
      }
      CollapsePlain(s[1..], i - 1);
      assert s[..i] == [s[0]] + s[1..][..i - 1];
      assert s[1..][i - 1..] == s[i..];
    }
  }

  lemma {:induction false} CollapseRun(s: string, n: nat)
    requires 2 <= n <= |s| && (forall k :: 0 <= k < n ==> s[k] == '\n') && (n == |s| || s[n] != '\n')
    ensures Collapse(s) == "\n\n" + Collapse(s[n..])
    decreases n
  {
    if n == 2 {
      var t := s[1..];
      assert Collapse(s) == [s[0]] + Collapse(t);
      assert Collapse(t) == [t[0]] + Collapse(t[1..]);
      assert t[1..] == s[2..];
    } else {
      CollapseRun(s[1..], n - 1);
      assert s[1..][n - 1..] == s[n..];
    }
  }

  /** Collapsing a text whose first pair of line feeds starts a run of `n`
      at `i`. */
  lemma CollapseAt(s: string, i: nat, n: nat)
    requires FindBreak(s, 0) == Some(i) && n == LineFeedRun(s, i)
    ensures Collapse(s) == s[..i] + "\n\n" + Collapse(s[i + n..])
  {
    CollapsePlain(s, i);
    CollapseRun(s[i..], n);
    assert s[i..][n..] == s[i + n..];
  }

  lemma JoinCons(x: string, ps: seq<string>, sep: string)
    requires |ps| >= 1
    ensures Join([x] + ps, sep) == x + sep + Join(ps, sep)
  {
    assert ([x] + ps)[1..] == ps;
  }

  /** Joining the pieces with a blank line gives back the text, with every
      longer run of blank lines shortened to one. */
  lemma {:induction false} JoinChunks(s: string)
    ensures Join(Chunks(s), "\n\n") == Collapse(s)
    decreases |s|
  {
    match FindBreak(s, 0)
    case None =>
      assert Chunks(s) == [s];
      CollapsePlain(s, |s|);
      assert s[..|s|] == s && s[|s|..] == [];
    case Some(i) =>
      var n := LineFeedRun(s, i);
      var rest := s[i + n..];
      assert Chunks(s) == [s[..i]] + Chunks(rest);
      JoinChunks(rest);
      JoinCons(s[..i], Chunks(rest), "\n\n");
      CollapseAt(s, i, n);
  }

  /** The pieces of a text that has no blank line. */
  lemma SingleChunk(s: string)
    requires NoBreak(s)
    ensures Chunks(s) == [s]
  {
    var r := FindBreak(s, 0);
    assert r.Some? ==> BreakAt(s, r.value);
  }

  /** A story: its passages in order. */
  datatype Stlap = Stlap(story: seq<Passage>)

  /** Every piece parsed as a passage. */
  function ParseEach(chunks: seq<string>): (rs: seq<Result<Passage>>)
    ensures |rs| == |chunks| && forall i :: 0 <= i < |chunks| ==> rs[i] == PassageSpec(chunks[i])
  {
    seq(|chunks|, i requires 0 <= i < |chunks| => PassageSpec(chunks[i]))
  }

  /** What `Stlap.fromString` returns, with every "\r\n" made "\n". */
  function StorySpec(source: string): Result<Stlap>
  {
    match AllOk(ParseEach(Chunks(ReplaceAll(source))))
    case Err(e) => Err(e)
    case Ok(ps) => Ok(Stlap(ps))
  }

  /** `Stlap.fromString`: line ends are made "\n" (the source converts only
      the first "\r\n"; `FirstOnlyMissesBreak` shows what that breaks), the
      text is cut at blank lines, and each piece is parsed as a passage; the
      first passage in error ends the loop with its error. */
  method FromString(source: string) returns (r: Result<Stlap>)
    ensures r == StorySpec(source)
  {
    var sourceLF := ReplaceAll(source);
    var chunks := Chunks(sourceLF);
    var output: seq<Passage> := [];
    ghost var results := ParseEach(chunks);
    assert results[..0] == [];
    for i := 0 to |chunks|
      invariant AllOk(results[..i]) == Ok(output)
    {
      assert results[..i + 1][..i] == results[..i];
      var passage := PassageFromString(chunks[i]);
      if passage.Err? {
        AllOkErrPersists(results, i + 1);
        return Err(passage.error);
      }
      output := output + [passage.value];
    }
    assert results[..|chunks|] == results;
    r := Ok(Stlap(output));
  }

  /** Loading fails exactly when some piece fails to parse as a passage, and
      then with the error of the first such piece; otherwise the story holds
      one passage per piece, in order. */
  lemma StoryOutcome(source: string)
    ensures StorySpec(source).Err? ==>
      exists i :: 0 <= i < |Chunks(ReplaceAll(source))| && PassageSpec(Chunks(ReplaceAll(source))[i]).Err?
    ensures (exists i :: 0 <= i < |Chunks(ReplaceAll(source))| && PassageSpec(Chunks(ReplaceAll(source))[i]).Err?) ==>
      StorySpec(source).Err?
    ensures StorySpec(source).Err? ==>
      exists i :: FailsFirst(ParseEach(Chunks(ReplaceAll(source))), i)
        && StorySpec(source).error == PassageSpec(Chunks(ReplaceAll(source))[i]).error
    ensures StorySpec(source).Ok? ==>
      && |StorySpec(source).value.story| == |Chunks(ReplaceAll(source))|
      && forall i :: 0 <= i < |Chunks(ReplaceAll(source))| ==>
           PassageSpec(Chunks(ReplaceAll(source))[i]) == Ok(StorySpec(source).value.story[i])
  {
    var chunks := Chunks(ReplaceAll(source));
    PiecesOutcome(chunks);
    var all := AllOk(ParseEach(chunks));
    if all.Err? {
      assert StorySpec(source) == Err(all.error);
      var i :| FailsFirst(ParseEach(chunks), i) && all.error == PassageSpec(chunks[i]).error;
      assert ParseEach(chunks)[i] == PassageSpec(chunks[i]);
      assert 0 <= i < |chunks| && PassageSpec(chunks[i]).Err?;
    } else {
      assert StorySpec(source) == Ok(Stlap(all.value));
    }
  }

  lemma PiecesOutcome(chunks: seq<string>)
    ensures AllOk(ParseEach(chunks)).Err? <==> exists i :: 0 <= i < |chunks| && PassageSpec(chunks[i]).Err?
    ensures AllOk(ParseEach(chunks)).Err? ==>
      exists i :: FailsFirst(ParseEach(chunks), i) && AllOk(ParseEach(chunks)).error == PassageSpec(chunks[i]).error
    ensures AllOk(ParseEach(chunks)).Ok? ==>
      && |AllOk(ParseEach(chunks)).value| == |chunks|
      && forall i :: 0 <= i < |chunks| ==> PassageSpec(chunks[i]) == Ok(AllOk(ParseEach(chunks)).value[i])
  {
    AllOkOutcome(ParseEach(chunks));
    if AllOk(ParseEach(chunks)).Err? {
      var i :| FailsFirst(ParseEach(chunks), i) && ParseEach(chunks)[i].error == AllOk(ParseEach(chunks)).error;
      assert ParseEach(chunks)[i] == PassageSpec(chunks[i]);
    }
  }

  /** The sources of the passages. */
  function Sources(ps: seq<Passage>): (r: seq<string>)
    ensures |r| == |ps| && forall i :: 0 <= i < |ps| ==> r[i] == ps[i].source
  {
    seq(|ps|, i requires 0 <= i < |ps| => ps[i].source)
  }

  /** A loaded story keeps its source: the passage sources joined by a blank
      line are the source (its "\r\n" made "\n") with longer runs of blank
      lines shortened to one. */
  lemma StorySources(source: string)
    requires StorySpec(source).Ok?
    ensures Join(Sources(StorySpec(source).value.story), "\n\n") == Collapse(ReplaceAll(source))
  {
    var chunks := Chunks(ReplaceAll(source));
    AllOkOutcome(ParseEach(chunks));
    var ps := StorySpec(source).value.story;
    assert Sources(ps) == chunks;
    JoinChunks(ReplaceAll(source));
  }

  /** A source with Windows line ends and a blank line after its second
      line: replacing only the first "\r\n" leaves "\r\n\r\n", which is no
      passage break, so the story has one passage instead of two. */
  lemma FirstOnlyMissesBreak()
    ensures |Chunks("a\nb\n\nc")| == 2
    ensures |Chunks(ReplaceFirst(CrLf("a\nb\n\nc")))| == 1
    ensures Chunks(ReplaceAll(CrLf("a\nb\n\nc"))) == Chunks("a\nb\n\nc")
  {
    TwoChunks();
    CrLfExample();
    ReplaceAllUndoesCrLf("a\nb\n\nc");
  }

  /** A story saved with Windows line ends loads exactly as the same story
      saved with "\n" line ends. */
  lemma WindowsLineEnds(s: string)
    requires '\r' !in s
    ensures StorySpec(CrLf(s)) == StorySpec(s)
  {
    ReplaceAllUndoesCrLf(s);
    ReplaceAllPlain(s);
    SameLineEnds(CrLf(s), s);
  }

  /** Texts with the same line ends once "\r\n" is made "\n" load alike. */
  lemma SameLineEnds(a: string, b: string)
    requires ReplaceAll(a) == ReplaceAll(b)
    ensures StorySpec(a) == StorySpec(b)
  {
  }

  lemma TwoChunks()
    ensures Chunks("a\nb\n\nc") == ["a\nb", "c"]
  {
    var s := "a\nb\n\nc";
    assert FindBreak(s, 0) == Some(3) by {
      assert BreakAt(s, 3);
      assert !BreakAt(s, 0) && !BreakAt(s, 1) && !BreakAt(s, 2);
    }
    assert LineFeedRun(s, 3) == 2 by {
      assert s[3] == '\n' && s[4] == '\n' && s[5] != '\n';
    }
    assert s[5..] == "c" && s[..3] == "a\nb";
    SingleChunk("c");
    assert Chunks(s) == [s[..3]] + Chunks(s[5..]);
  }

  lemma CrLfExample()
    ensures ReplaceFirst(CrLf("a\nb\n\nc")) == "a\nb\r\n\r\nc"
    ensures Chunks("a\nb\r\n\r\nc") == ["a\nb\r\n\r\nc"]
  {
    FirstReplaced();
    NoBreakLeft();
  }

  lemma FirstReplaced()
    ensures ReplaceFirst(CrLf("a\nb\n\nc")) == "a\nb\r\n\r\nc"
  {
    CrLfOfExample();
    FirstOfExample();
  }

  lemma CrLfOfExample()
    ensures CrLf("a\nb\n\nc") == "a\r\nb\r\n\r\nc"
  {
    assert CrLf("\nc") == "\r\nc" by { assert CrLf("c") == "c"; }
    assert CrLf("b\n\nc") == "b\r\n\r\nc" by { assert CrLf("\n\nc") == "\r\n\r\nc"; }
    assert CrLf("\nb\n\nc") == "\r\nb\r\n\r\nc";
  }

  lemma FirstOfExample()
    ensures ReplaceFirst("a\r\nb\r\n\r\nc") == "a\nb\r\n\r\nc"
  {
    var w := "a\r\nb\r\n\r\nc";
    assert FindCrLf(w, 0) == Some(1) by {
      assert CrLfAt(w, 1) && !CrLfAt(w, 0);
    }
    assert w[..1] == "a" && w[3..] == "b\r\n\r\nc";
  }

  lemma NoBreakLeft()
    ensures Chunks("a\nb\r\n\r\nc") == ["a\nb\r\n\r\nc"]
  {
    var lf := "a\nb\r\n\r\nc";
    assert NoBreak(lf) by {
      forall j | 0 <= j < |lf| ensures !BreakAt(lf, j) {
        assert lf[1] != lf[2] && lf[4] == '\n' && lf[5] == '\r';
      }
    }
    SingleChunk(lf);
  }

  // ----- toText -----

  /** The passage texts that are not empty, in order. */
  function NonEmptyTexts(ps: seq<Passage>): (r: seq<string>)
    ensures forall k :: 0 <= k < |r| ==> r[k] != ""
    ensures r == [] <==> forall i :: 0 <= i < |ps| ==> ps[i].text == ""
    ensures |ps| == 1 ==> r == if ps[0].text == "" then [] else [ps[0].text]
  {
    if ps == [] then []
    else
      var p := ps[|ps| - 1];
      var init := NonEmptyTexts(ps[..|ps| - 1]);
      assert forall i :: 0 <= i < |ps| - 1 ==> ps[..|ps| - 1][i] == ps[i];
      init + (if p.text != "" then [p.text] else [])
  }

  /** Filtering distributes over concatenation: every non-empty text is
      kept, in passage order. */
  lemma {:induction false} NonEmptyTextsAppend(a: seq<Passage>, b: seq<Passage>)
    ensures NonEmptyTexts(a + b) == NonEmptyTexts(a) + NonEmptyTexts(b)
    decreases |b|
  {
    if b == [] {
      assert a + b == a;
    } else {
      var b', p := b[..|b| - 1], b[|b| - 1];
      NonEmptyTextsAppend(a, b');
      AppendInit(a, b);
      var tail := if p.text != "" then [p.text] else [];
      assert NonEmptyTexts(a + b) == NonEmptyTexts(a + b') + tail;
    }
  }

  /** `toText`: the non-empty passage texts joined by a blank line, then one
      final line feed. */
  function ToText(doc: Stlap): (r: string)
    ensures |r| > 0 && r[|r| - 1] == '\n'
  {
    Join(NonEmptyTexts(doc.story), "\n\n") + "\n"
  }

  /** The text is a lone line feed exactly when every passage text is empty. */
  lemma ToTextBlank(doc: Stlap)
    ensures ToText(doc) == "\n" <==> forall i :: 0 <= i < |doc.story| ==> doc.story[i].text == ""
  {
    var texts := NonEmptyTexts(doc.story);
    if texts != [] {
      assert |Join(texts, "\n\n")| >= |texts[0]| > 0;
    }
  }

  // ----- isValid -----

  /** A flag opens a name, a collect closes one. */
  datatype Event = Open(name: string) | Close(name: string)

  function Opens(names: seq<string>): (r: seq<Event>)
    ensures |r| == |names| && forall i :: 0 <= i < |names| ==> r[i] == Open(names[i])
  {
    seq(|names|, i requires 0 <= i < |names| => Open(names[i]))
  }

  function Closes(names: seq<string>): (r: seq<Event>)
    ensures |r| == |names| && forall i :: 0 <= i < |names| ==> r[i] == Close(names[i])
  {
    seq(|names|, i requires 0 <= i < |names| => Close(names[i]))
  }

  /** The events of a story: passage by passage, its flags then its
      collects. */
  function Events(ps: seq<Passage>): seq<Event>
  {
    if ps == [] then []
    else
      var p := ps[|ps| - 1];
      Events(ps[..|ps| - 1]) + Opens(p.flags) + Closes(p.collects)
  }

  /** The set of open names after the events, or nothing once a collect
      found its name closed. */
  function Check(evs: seq<Event>): Option<set<string>>
  {
    if evs == [] then Some({})
    else
      match Check(evs[..|evs| - 1])
      case None => None
      case Some(openNames) =>
        match evs[|evs| - 1]
        case Open(a) => Some(openNames + {a})
        case Close(a) => if a in openNames then Some(openNames - {a}) else None
  }

  /** What `isValid` returns. */
  predicate ValidSpec(doc: Stlap)
  {
    Check(Events(doc.story)) == Some({})
  }

  lemma {:induction false} CheckNonePersists(evs: seq<Event>, more: seq<Event>)
    requires Check(evs).None?
    ensures Check(evs + more).None?
    decreases |more|
  {
    if more != [] {
      var m := more[..|more| - 1];
      CheckNonePersists(evs, m);
      var all := evs + more;
      assert all[..|all| - 1] == evs + m;
    } else {
      assert evs + more == evs;
    }
  }

  lemma {:induction false} EventsAppend(a: seq<Passage>, b: seq<Passage>)
    ensures Events(a + b) == Events(a) + Events(b)
    decreases |b|
  {
    if b != [] {
      EventsAppend(a, b[..|b| - 1]);
      var all := a + b;
      assert all[..|all| - 1] == a + b[..|b| - 1];
      assert all[|all| - 1] == b[|b| - 1];
    } else {
      assert a + b == a;
    }
  }

  /** One more event: the check's step. */
  lemma CheckSnoc(evs: seq<Event>, e: Event)
    ensures Check(evs + [e]) ==
      match Check(evs)
      case None => None
      case Some(names) =>
        match e
        case Open(a) => Some(names + {a})
        case Close(a) => if a in names then Some(names - {a}) else None
  {
    assert (evs + [e])[..|evs|] == evs;
  }

  lemma OpensSnoc(pre: seq<Event>, names: seq<string>, j: nat)
    requires j < |names|
    ensures pre + Opens(names[..j + 1]) == (pre + Opens(names[..j])) + [Open(names[j])]
  {
    assert Opens(names[..j + 1]) == Opens(names[..j]) + [Open(names[j])];
  }

  lemma ClosesSnoc(pre: seq<Event>, names: seq<string>, j: nat)
    requires j < |names|
    ensures pre + Closes(names[..j + 1]) == (pre + Closes(names[..j])) + [Close(names[j])]
  {
    assert Closes(names[..j + 1]) == Closes(names[..j]) + [Close(names[j])];
  }

  lemma EventsStep(story: seq<Passage>, i: nat)
    requires i < |story|
    ensures Events(story[..i + 1]) == Events(story[..i]) + Opens(story[i].flags) + Closes(story[i].collects)
  {
    assert story[..i + 1][..i] == story[..i];
  }

  /** `isValid`: every passage opens its flags, then each collect must find
      its name open and closes it; the story is valid when no name is left
      open. */
  method IsValid(doc: Stlap) returns (b: bool)
    ensures b == ValidSpec(doc)
  {
    var story := doc.story;
    var remainFlags: set<string> := {};
    assert story[..0] == [];
    for i := 0 to |story|
      invariant Check(Events(story[..i])) == Some(remainFlags)
    {
      var p := story[i];
      ghost var before := Events(story[..i]);
      assert before + Opens(p.flags[..0]) == before;
      for j := 0 to |p.flags|
        invariant Check(before + Opens(p.flags[..j])) == Some(remainFlags)
      {
        OpensSnoc(before, p.flags, j);
        CheckSnoc(before + Opens(p.flags[..j]), Open(p.flags[j]));
        remainFlags := remainFlags + {p.flags[j]};
      }
      assert p.flags[..|p.flags|] == p.flags;
      ghost var flagged := before + Opens(p.flags);
      assert flagged + Closes(p.collects[..0]) == flagged;
      for j := 0 to |p.collects|
        invariant Check(flagged + Closes(p.collects[..j])) == Some(remainFlags)
      {
        var c := p.collects[j];
        ClosesSnoc(flagged, p.collects, j);
        CheckSnoc(flagged + Closes(p.collects[..j]), Close(c));
        if c !in remainFlags {
          CollectFails(story, i, j);
          return false;
        }
        remainFlags := remainFlags - {c};
      }
      assert p.collects[..|p.collects|] == p.collects;
      EventsStep(story, i);
    }
    assert story[..|story|] == story;
    b := |remainFlags| == 0;
  }

  /** A collect that fails the check fails the whole story. */
  lemma CollectFails(story: seq<Passage>, i: nat, j: nat)
    requires i < |story| && j < |story[i].collects|
    requires Check(Events(story[..i]) + Opens(story[i].flags) + Closes(story[i].collects[..j + 1])).None?
    ensures Check(Events(story)).None?
  {
    var p := story[i];
    var failed := Events(story[..i]) + Opens(p.flags) + Closes(p.collects[..j + 1]);
    var rest := Closes(p.collects[j + 1..]) + Events(story[i + 1..]);
    EventsAround(story, i, j);
    CheckNonePersists(failed, rest);
  }

  /** The events of a story, cut after collect `j` of passage `i`. */
  lemma EventsAround(story: seq<Passage>, i: nat, j: nat)
    requires i < |story| && j < |story[i].collects|
    ensures Events(story) ==
      (Events(story[..i]) + Opens(story[i].flags) + Closes(story[i].collects[..j + 1]))
      + (Closes(story[i].collects[j + 1..]) + Events(story[i + 1..]))
  {
    var p := story[i];
    var flagged := Events(story[..i]) + Opens(p.flags);
    var tail := Closes(p.collects[j + 1..]);
    ClosesSplit(p.collects, j + 1);
    EventsStep(story, i);
    Associate(flagged, Closes(p.collects[..j + 1]), tail);
    EventsAppend(story[..i + 1], story[i + 1..]);
    assert story[..i + 1] + story[i + 1..] == story;
    Associate(flagged + Closes(p.collects[..j + 1]), tail, Events(story[i + 1..]));
  }

  lemma ClosesSplit(names: seq<string>, k: nat)
    requires k <= |names|
    ensures Closes(names) == Closes(names[..k]) + Closes(names[k..])
  {
  }

  lemma Associate(a: seq<Event>, b: seq<Event>, c: seq<Event>)
    ensures a + (b + c) == (a + b) + c
  {
  }

  // ----- the check name by name -----

  /** The events of one name: `true` for a flag, `false` for a collect. */
  function Project(evs: seq<Event>, a: string): seq<bool>
  {
    if evs == [] then []
    else
      var e := evs[|evs| - 1];
      Project(evs[..|evs| - 1], a) + (if e.name == a then [e.Open?] else [])
  }

  /** The check for one name: whether it is open, or nothing once a collect
      found it closed. */
  function NameCheck(es: seq<bool>): Option<bool>
  {
    if es == [] then Some(false)
    else
      match NameCheck(es[..|es| - 1])
      case None => None
      case Some(isOpen) => if es[|es| - 1] then Some(true) else if isOpen then Some(false) else None
  }

  /** Every name passes its own check. */
  ghost predicate AllNamesPass(evs: seq<Event>)
  {
    forall a :: NameCheck(Project(evs, a)).Some?
  }

  /** The open names are those whose own check leaves them open. */
  ghost predicate OpenByName(evs: seq<Event>, names: set<string>)
  {
    forall a :: a in names <==> NameCheck(Project(evs, a)) == Some(true)
  }

  /** The check of all names is the checks of the names one by one: it
      fails exactly when some name's check fails, and otherwise a name is
      open exactly when its own check leaves it open. */
  lemma {:induction false} CheckByName(evs: seq<Event>)
    ensures Check(evs).Some? <==> AllNamesPass(evs)
    ensures Check(evs).Some? ==> OpenByName(evs, Check(evs).value)
  {
    if evs != [] {
      var init := evs[..|evs| - 1];
      CheckByName(init);
      assert evs == init + [evs[|evs| - 1]];
      CheckByNameStep(init, evs[|evs| - 1]);
    }
  }

  lemma ProjectSnoc(evs: seq<Event>, e: Event, a: string)
    ensures Project(evs + [e], a) == Project(evs, a) + (if e.name == a then [e.Open?] else [])
  {
    assert (evs + [e])[..|evs|] == evs;
  }

  lemma CheckByNameStep(init: seq<Event>, e: Event)
    requires Check(init).Some? <==> AllNamesPass(init)
    requires Check(init).Some? ==> OpenByName(init, Check(init).value)
    ensures Check(init + [e]).Some? <==> AllNamesPass(init + [e])
    ensures Check(init + [e]).Some? ==> OpenByName(init + [e], Check(init + [e]).value)
  {
    var evs := init + [e];
    var x := e.name;
    CheckSnoc(init, e);
    OtherNamesKeep(init, e);
    ProjectSnoc(init, e, x);
    NameCheckSnoc(Project(init, x), e.Open?);
    if Check(init).None? {
      var a :| NameCheck(Project(init, a)).None?;
      assert NameCheck(Project(evs, a)).None?;
    } else if e.Close? && x !in Check(init).value {
      assert NameCheck(Project(init, x)) == Some(false);
      assert NameCheck(Project(evs, x)).None?;
    } else {
      var names := Check(evs).value;
      forall a ensures NameCheck(Project(evs, a)).Some? && (a in names <==> NameCheck(Project(evs, a)) == Some(true)) {
        if a == x {
          assert NameCheck(Project(init, x)).Some?;
        }
      }
    }
  }

  /** A name other than the event's keeps its own check. */
  lemma OtherNamesKeep(init: seq<Event>, e: Event)
    ensures forall a :: a != e.name ==> NameCheck(Project(init + [e], a)) == NameCheck(Project(init, a))
  {
    forall a | a != e.name ensures NameCheck(Project(init + [e], a)) == NameCheck(Project(init, a)) {
      ProjectSnoc(init, e, a);
      assert Project(init, a) + [] == Project(init, a);
    }
  }

  lemma NameCheckSnoc(es: seq<bool>, b: bool)
    ensures NameCheck(es + [b]) ==
      match NameCheck(es)
      case None => None
      case Some(isOpen) => if b then Some(true) else if isOpen then Some(false) else None
  {
    assert (es + [b])[..|es|] == es;
  }

  /** A story is valid exactly when, name by name, the check ends with the
      name closed. */
  lemma ValidByName(doc: Stlap)
    ensures ValidSpec(doc) ==> forall a :: NameCheck(Project(Events(doc.story), a)) == Some(false)
    ensures (forall a :: NameCheck(Project(Events(doc.story), a)) == Some(false)) ==> ValidSpec(doc)
  {
    var evs := Events(doc.story);
    if Check(evs) == Some({}) {
      ValidClosesEveryName(evs);
      assert ValidSpec(doc);
    } else {
      InvalidLeavesAName(evs);
    }
  }

  lemma ValidClosesEveryName(evs: seq<Event>)
    requires Check(evs) == Some({})
    ensures forall a :: NameCheck(Project(evs, a)) == Some(false)
  {
    CheckByName(evs);
    forall a ensures NameCheck(Project(evs, a)) == Some(false) {
      assert NameCheck(Project(evs, a)).Some?;
      assert a !in Check(evs).value;
    }
  }

  lemma InvalidLeavesAName(evs: seq<Event>)
    requires Check(evs) != Some({})
    ensures exists a :: NameCheck(Project(evs, a)) != Some(false)
  {
    CheckByName(evs);
    if Check(evs).None? {
      assert !AllNamesPass(evs);
    } else {
      assert Check(evs).value != {};
      var a :| a in Check(evs).value;
      assert NameCheck(Project(evs, a)) == Some(true);
    }
  }

  /** Of the events of a name that passes the check, the first is a flag
      and the last a collect. */
  lemma {:induction false} NameCheckShape(es: seq<bool>)
    ensures NameCheck(es).Some? && es != [] ==> es[0]
    ensures NameCheck(es) == Some(false) && es != [] ==> !es[|es| - 1]
  {
    if es != [] {
      var init := es[..|es| - 1];
      NameCheckShape(init);
      if init != [] {
        assert init[0] == es[0];
      }
    }
  }
}
