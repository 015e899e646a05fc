# Stlap in Dafny

Stlap is a small markup language for branching stories. A story is plain
text split into paragraphs by blank lines. Each line of a paragraph is a
sentence, a `//` comment, or an `@` command (`@flag NAME` opens a marker and
`@collect NAME` closes it). This project models four parts of the
TypeScript implementation and proves properties about each:

- **The line tokenizer and tree builder** (`src/parser.ts`).
  - `Tokenizer.tokenize` splits the source on `"\n"`.
  - It classifies each line as blank, comment, command or sentence.
  - It emits tokens with exact column positions: trivia start `fullStart` and an inclusive `start..end`.
  - `Parser.parse` groups the tokens into Story → ParagraphSeparater | Paragraph → Sentence | Comment | Command, and closes the story with an End vertex.
- **The document** (`src/core/stlap.ts`).
  - The line-offset table.
  - `getText` and `getLine`.
  - The `toText` serializer.
  - The flag/collect validator and `isValid`.
- **The older passage-based loader** (`src/stlap.ts`).
  - `Flag`/`Collect` row parsers.
  - `Passage.fromString`, with `\@` escapes.
  - `Stlap.fromString`, which cuts a text at blank lines.
  - `toText` and a set-based `isValid`.
- **The command-line renderer** (`src/cli/util.ts`).
  - `getFilename`.
  - `DiagnosticAsPrettyString`: header, margin, source line and caret row.
  - `getDiagnosticsAsPrettyString`.

The code that changes state step by step is modelled as methods with loop
invariants: `tokenize`, `parse`, the offset table, the validator walk (a
class whose fields are the `completed` set and the `remainingFlag` map),
`Passage.fromString`, the older `Stlap.fromString` and `isValid`, and
`getDiagnosticsAsPrettyString`. The tokenizer loop, the offset table, the
validator, the passage and story loops and the pretty-printing loop are
each proved equal to a functional specification, and the properties the
code promises are proved about that specification. The grouping loop of
`parse` (`Parser.Parse`, `BuildStory`, `ReadLine`, `ReadParagraph`,
`ReadSeparator`, `AddEnd`) has no such function: its methods are
characterised directly, by the shape of the tree they build and by its
flattening back to the token stream. The remaining code consists of pure string and sequence
computations, modelled as functions with lemmas.

Modelling conventions:

- A JavaScript `T | Error` result is `Result<T>`, with `Err` carrying the error's message.
- `T | null`, and an optional field, are `Option<T>`.
- Strings are `seq<char>`. A column counts characters.
- Each regular expression is replaced by an explicit scan over character classes that mirror JavaScript:
  - `\s` is `IsWs`, which includes U+3000, U+2028/2029 and U+FEFF.
  - `[^\S\r\n]` is `IsBlank`.
  - `.` is `IsDot`, which excludes `\n`, `\r`, U+2028 and U+2029.
  - `\w` is `IsWordChar`.

The document's validator reads `FlagArg` and `CollectArg` tokens, which
come from the tokenizer in src/core/parser.ts; src/core/parser.ts is not
part of this model. The tokenizer modelled here (src/parser.ts) emits a
`Name` token instead, so the token kinds include all three, and the
validator reads an argument as the source text from its token's start
through its end. `Document.ParsedDiagnostics` states what follows for a
document built from src/parser.ts's tokens: its diagnostics are exactly its
syntax errors.

## Model

| member | source | states |
|---|---|---|
| Syntax.TextRange | src/parser.ts:57-65 | a token has a text range exactly when it is a Words token, and the range runs from its start to its end |
| Strings.Split | src/parser.ts:406 | `split` on one character gives at least one piece and no piece contains the separator |
| Strings.JoinSplit | src/parser.ts:406 | joining the pieces of a split with the separator gives back the string |
| Strings.Slice | src/core/stlap.ts:223 | `String.slice` with both ends clamped to the string, and "" when the end is at or before the start |
| Strings.NatToString | src/cli/util.ts:60 | the decimal rendering of a number: at least one character, all digits, and "0" exactly for zero |
| Strings.NatToStringDecimal | src/cli/util.ts:60 | the rendering, read left to right as decimal digits, denotes the number, and only "0" starts with a zero |
| Strings.Repeat | src/cli/util.ts:61 | `repeat` gives `n` copies of the character |
| LineTokenizer.CommandGroups | src/parser.ts:247 | the five groups of the command pattern cover the whole line after `@` |
| LineTokenizer.MatchCommand | src/parser.ts:247-257 | a match exists only for a line starting with `@`, and it is the greedy grouping |
| LineTokenizer.MatchCommandShape | src/parser.ts:247 | a match satisfies the pattern: every group is in its class, the greedy groups are maximal, and the lazy group does not end in a blank |
| LineTokenizer.GreedyGroups | src/parser.ts:247 | keyword, space and name are the maximal runs of their classes, and the trailing group is the maximal blank suffix |
| LineTokenizer.MatchCommandTotal | src/parser.ts:247-257 | every `@` line without line terminators matches, and no line without a leading `@` does |
| LineTokenizer.KeywordTokenPlacement | src/parser.ts:268-313 | the keyword token: MissingToken at column 0 for an empty keyword, otherwise it starts at column 1 and ends at the keyword's last column |
| LineTokenizer.CommentLineLossless | src/parser.ts:204-243 | a comment line gives CommentPrefix first, tokens that follow each other without gaps, and one final Newline at the line's length |
| LineTokenizer.CommentSpan | src/parser.ts:204-243 | on a comment line the body token is the maximal non-white-space run right after `//`, present exactly when that run is non-empty, and the Newline's trivia starts where the run ends |
| LineTokenizer.CommandTokensLossless | src/parser.ts:259-367 | command tokens are contiguous on their line: prefix, keyword, Space, Name, an optional SkippedToken, then one Newline at the line's length |
| LineTokenizer.CommandLossless | src/parser.ts:245-370 | a command line that matches is tokenized losslessly and starts with CommandPrefix |
| LineTokenizer.SentenceLineLossless | src/parser.ts:372-401 | a sentence line gives exactly Words and Newline, losslessly |
| LineTokenizer.TokenizeLineShape | src/parser.ts:414-424 | each line goes to one tokenizer in priority order: the output is a lone Newline exactly for blank lines, and starts with CommentPrefix or CommandPrefix exactly for comment and command lines |
| LineTokenizer.CommandCaptures | src/parser.ts:245-370 | for `@flag NAME rest` or `@collect NAME rest`, the keyword token spans the keyword and the Name token spans exactly NAME |
| LineTokenizer.CarriageReturnFails | src/parser.ts:372-385 | a line containing "\r" fails to tokenize |
| LineTokenizer.PlainLineSucceeds | src/parser.ts:179-401 | every line without line terminators tokenizes |
| LineTokenizer.LineAvoidsArgs | src/parser.ts:326-333 | the line tokenizer never emits FlagArg or CollectArg tokens |
| LineTokenizer.QuietLine | src/parser.ts:197-243 | blank and comment lines tokenize without Words tokens |
| LineTokenizer.WordsSpan | src/parser.ts:387-392 | the Words token spans from column 0 to the last character before the trailing blanks |
| Tokenizer.KeptLinesRejoin | src/parser.ts:406-412 | the kept lines hold no "\n" and, joined by "\n", give back the source minus one final "\n" |
| Tokenizer.Tokenize | src/parser.ts:404-435 | the loop computes the tokenize specification: every line's tokens in order, or the first line's error |
| Tokenizer.TokenizeOutcome | src/parser.ts:414-428 | tokenizing succeeds exactly when every line does, and otherwise fails with the first failing line's error |
| Tokenizer.CarriageReturnSourceFails | src/parser.ts:404-428 | a source containing "\r" fails to tokenize |
| Tokenizer.PlainSourceSucceeds | src/parser.ts:404-428 | a source whose only line terminators are "\n" tokenizes |
| Tokenizer.TokensAvoidArgs | src/parser.ts:404-435 | the token stream holds no FlagArg or CollectArg |
| Tokenizer.QuietSource | src/parser.ts:404-435 | a source of blank and comment lines tokenizes without Words tokens |
| Tokenizer.TokenizeStream | src/parser.ts:414-430 | the stream is non-empty, has one Newline per kept line at (line, length) in line order, and every token lies on its line in order |
| Tokenizer.TokenizeLines | src/parser.ts:414-428 | the per-line loop concatenates each line's tokens in line order and stops at the first line that fails, with that line's error |
| Parser.ReadLine | src/parser.ts:147-157 | reads one line's tokens up to and including its Newline into a vertex of the given kind |
| Parser.ReadContent | src/parser.ts:148-151 | the inner loop takes every token up to the next Newline, in order and unchanged, and stops at that Newline |
| Parser.ReadParagraph | src/parser.ts:131-162 | reads a maximal run of non-separator lines into a paragraph, or fails with "Cannot recognize Vertexkind" on a line with a bad first token |
| Parser.ReadSeparator | src/parser.ts:120-128 | reads a maximal run of Newline tokens into a separator |
| Parser.AddEnd | src/parser.ts:165-173 | the result is a well-formed story whose last vertex is End, holding either nothing or the trailing Newline run, and its flattening is the blocks' tokens in order |
| Parser.SeparatorStep | src/parser.ts:119-128 | one separator step keeps the grouping invariant |
| Parser.ParagraphStep | src/parser.ts:130-162 | one paragraph step keeps the grouping invariant or fails on a bad head |
| Parser.BuildStory | src/parser.ts:115-175 | the grouping fails exactly on a bad head; otherwise the story is well formed and its flattening is the token stream |
| Parser.Parse | src/parser.ts:110-176 | parse returns the tokenizer's error, or a well-formed story (alternating separators and paragraphs, End last) whose flattening is the token stream |
| SourceText.Offsets | src/core/stlap.ts:37-44 | the table has one entry per "\n"-separated piece plus one |
| SourceText.LineOffsets | src/core/stlap.ts:37-44 | the loop fills the prefix-sum table |
| SourceText.OffsetsShape | src/core/stlap.ts:37-44 | entry 0 is 0, each entry is the previous one plus that piece's length plus one, and the last entry is the source length plus one |
| SourceText.OffsetsLocate | src/core/stlap.ts:37-44 | entry `i` is where piece `i` starts, and a "\n" follows every piece but the last |
| SourceText.TextOf | src/core/stlap.ts:31-46 | the document text keeps the source and a table one entry longer than the pieces |
| SourceText.Offset | src/core/stlap.ts:220-222 | a position has an offset exactly when its line has a table entry |
| SourceText.GetText | src/core/stlap.ts:216-225 | no range gives the source; a range whose lines have table entries gives the source from the start offset through the end offset, cut at the source's end; never longer than the source |
| SourceText.GetTextInLine | src/core/stlap.ts:216-225 | a range within one line reads that line's characters from the start column through the end column |
| SourceText.GetTextAcrossLines | src/core/stlap.ts:216-225 | a range into the next line reads the rest of the first line, "\n", and the next line through the end column |
| SourceText.GetLine | src/core/stlap.ts:227-234 | fails with "Line number out of range" exactly for a line without a table entry |
| SourceText.GetLineReadsPiece | src/core/stlap.ts:227-234 | over its own table, `getLine` gives piece `i` without its "\n", "" for the sentinel line, and an error past it |
| Diagnostics.ErrorCount | src/core/stlap.ts:208-214 | counts the Error diagnostics, at most all of them |
| Diagnostics.IsValidMeansNoError | src/core/stlap.ts:208-214 | valid exactly when no diagnostic has severity Error |
| Validation.Without | src/core/stlap.ts:163 | `Map.delete` keeps exactly the entries for other names, so the open names lose just that name |
| Validation.WithoutAppend | src/core/stlap.ts:163 | deleting distributes over concatenation and keeps a single entry exactly when it names another name, so the surviving entries keep their insertion order |
| Validation.WithoutDistinct | src/core/stlap.ts:163 | deleting keeps names distinct |
| Validation.Leftovers | src/core/stlap.ts:95-108 | one "not collected" Error per open entry, in the entries' order, each at that entry's token and naming that entry's name |
| Validation.ScanAppend | src/core/stlap.ts:199-201 | walking children in turn is walking their concatenation: states thread through and diagnostics concatenate |
| Validation.StepConsistent | src/core/stlap.ts:136-197 | a step keeps open and completed disjoint and open names distinct, and never un-completes a name |
| Validation.ScanOrder | src/core/stlap.ts:136-164 | after the walk every open entry pairs a name with the FlagArg token that opened it, and the open entries follow those tokens' order: they are a subsequence of the flag entries in token order |
| Validation.ScanConsistent | src/core/stlap.ts:112-203 | the whole walk keeps open and completed disjoint and open names distinct |
| Validation.FlagTracks | src/core/stlap.ts:136-156 | a FlagArg reports nothing exactly when its name was never flagged before, and then the open and completed names still agree with the flag and collect counts |
| Validation.CollectTracks | src/core/stlap.ts:157-195 | a CollectArg reports nothing exactly when its name was flagged once and not yet collected, and then the open and completed names still agree with the counts |
| Validation.OtherTracks | src/core/stlap.ts:117-135 | MissingToken and SkippedToken report an error; every other token reports nothing and keeps the state in agreement with the counts |
| Validation.ScanClean | src/core/stlap.ts:112-203 | the walk reports nothing exactly when no token is a syntax error, no name is flagged twice and every collect follows its flag once; then completed names are those flagged and collected, open ones those only flagged |
| Validation.ValidateClean | src/core/stlap.ts:91-203 | `validate` reports nothing exactly when the walk is clean and every name is collected as often as it is flagged |
| Validation.ScanWithoutArgs | src/core/stlap.ts:117-135 | without argument tokens the state is unchanged and the diagnostics are exactly the syntax errors |
| Validation.ScanReportsErrors | src/core/stlap.ts:117-197 | every diagnostic of the walk has severity Error |
| Validation.Validator.constructor | src/core/stlap.ts:92-93 | a new validator starts with nothing completed and no open flag |
| Validation.Validator.VisitToken | src/core/stlap.ts:117-197 | visiting a token moves `completed` and `remaining` and reports the diagnostics exactly as one step of the specified walk |
| Validation.Validator.Visit | src/core/stlap.ts:112-203 | visiting a subtree is the walk over its tokens in document order |
| Validation.Validate | src/core/stlap.ts:91-110 | the walk's diagnostics followed by the leftovers |
| Document.FromString | src/core/stlap.ts:31-47 | returns the parse error, or a document with the offset table, a well-formed story of the source's tokens, and its validated diagnostics |
| Document.ToText | src/core/stlap.ts:49-51 | the text ends with "\n"; `Document.StoryText` states the whole text |
| Document.StoryText | src/core/stlap.ts:49-89 | `toText` gives the non-empty paragraph strings joined by the separator plus "\n"; each paragraph string runs together the Words of its sentences |
| Document.NoWordsNoText | src/core/stlap.ts:53-89 | a subtree without Words tokens contributes no text |
| Document.QuietSourceText | src/core/stlap.ts:49-51 | a source of blank and comment lines (so "", "\n" or a lone comment) gives "\n" |
| Document.SentenceLineText | src/core/stlap.ts:53-62 | a sentence line's text is the line without its trailing blanks |
| Document.IsValidDocument | src/core/stlap.ts:208-214 | `isValid` holds exactly when no diagnostic is an Error |
| Document.ValidIffPaired | src/core/stlap.ts:91-214 | a validated story is valid exactly when it is clean and every flagged name is collected |
| Document.ParsedDiagnostics | src/core/stlap.ts:117-135 | for a parsed source, the diagnostics are exactly its MissingToken and SkippedToken errors in order |
| LegacyPassage.ParseMarker | src/stlap.ts:8-15 | a rejected row gives "Parse Error: row"; an accepted one gives an identifier and starts with the marker |
| LegacyPassage.FlagFromString | src/stlap.ts:7-16 | `Flag.fromString` gives an identifier for an `@flag` row, or the parse error |
| LegacyPassage.CollectFromString | src/stlap.ts:25-34 | `Collect.fromString` gives an identifier for an `@collect` row, or the parse error |
| LegacyPassage.MarkerSound | src/stlap.ts:8-15 | an accepted row is the marker, at least one blank, the name, then only blanks |
| LegacyPassage.MarkerComplete | src/stlap.ts:26-30 | every row of that shape is accepted, with that name |
| LegacyPassage.SplitRows | src/stlap.ts:61 | `split(/\r?\n/)` gives as many rows as there are "\n"-pieces, none containing "\n" |
| LegacyPassage.RowSeparators | src/stlap.ts:61 | `/\r?\n/` separates rows: "\r\n" ends a row without its "\r", a lone "\n" ends a row, and a text without line feeds is one row; applied from the left these fix the rows of every text |
| LegacyPassage.RowsRejoin | src/stlap.ts:61 | without "\r", the rows joined by "\n" give back the passage |
| LegacyPassage.ClassifyRow | src/stlap.ts:62-97 | a `\@` row contributes itself minus the backslash; plain rows contribute themselves; flag and collect rows give their names; only `@` rows can fail |
| LegacyPassage.RejectedRow | src/stlap.ts:73-91 | a row is rejected exactly when it starts with `@` and is neither a valid flag nor a valid collect |
| LegacyPassage.PassageFromString | src/stlap.ts:55-101 | the loop computes the passage specification: row texts concatenated, flags and collects in row order, or the first row's error |
| LegacyPassage.GatherRows | src/stlap.ts:61-98 | the row loop keeps text rows, flags and collects in row order, each from its own kind of row, and returns the first rejected row's error |
| LegacyPassage.PassageOutcome | src/stlap.ts:55-101 | a passage fails exactly when some row is rejected, and then with the first rejected row's error; otherwise it keeps its source |
| LegacyStory.ReplaceFirst | src/stlap.ts:111 | `replace("\r\n", "\n")` changes only the first occurrence |
| LegacyStory.ReplaceAllUndoesCrLf | src/stlap.ts:111 | replacing every "\r\n" undoes a conversion to Windows line ends |
| LegacyStory.Chunks | src/stlap.ts:114 | `split(/\n\n*\n/)` gives at least one piece, and no piece holds two "\n" in a row |
| LegacyStory.JoinChunks | src/stlap.ts:114 | the pieces joined by "\n\n" are the text with every longer run of "\n" cut to two |
| LegacyStory.SingleChunk | src/stlap.ts:114 | a text without a blank line is one piece |
| LegacyStory.FromString | src/stlap.ts:110-123 | the loop computes the story specification: one passage per piece, or the first piece's error |
| LegacyStory.StoryOutcome | src/stlap.ts:114-119 | loading fails exactly when some piece fails, with the first such error; otherwise one passage per piece, in order |
| LegacyStory.StorySources | src/stlap.ts:110-123 | the passage sources joined by "\n\n" are the normalised text with longer runs of blank lines cut to one |
| LegacyStory.FirstOnlyMissesBreak | src/stlap.ts:111 | with Windows line ends, converting only the first "\r\n" leaves a blank line unrecognised: one piece instead of two |
| LegacyStory.WindowsLineEnds | src/stlap.ts:111-114 | with every "\r\n" converted, a text with Windows line ends loads exactly like the same text with "\n" line ends |
| LegacyStory.NonEmptyTexts | src/stlap.ts:128-130 | keeps only non-empty texts, is empty exactly when every passage text is empty, and a single passage gives its text exactly when that text is non-empty |
| LegacyStory.NonEmptyTextsAppend | src/stlap.ts:128-130 | filtering distributes over concatenation, so every non-empty text is kept in passage order |
| LegacyStory.ToText | src/stlap.ts:125-133 | the text always ends with "\n" |
| LegacyStory.ToTextBlank | src/stlap.ts:125-133 | the text is a lone "\n" exactly when every passage text is empty |
| LegacyStory.IsValid | src/stlap.ts:138-156 | the nested loops compute the check over the events: each passage's flags, then its collects |
| LegacyStory.CollectFails | src/stlap.ts:146-150 | a collect of a name that is not open makes the whole story invalid |
| LegacyStory.CheckByName | src/stlap.ts:138-156 | the set-based check is the name-by-name check: it fails exactly when some name fails, and the open names are those left open by their own check |
| LegacyStory.ValidByName | src/stlap.ts:138-156 | a story is valid exactly when every name's own events end with the name closed |
| LegacyStory.NameCheckShape | src/stlap.ts:141-152 | for a name that passes, its first event is a flag, and if it ends closed its last event is a collect |
| Cli.GetFilename | src/cli/util.ts:4-19 | no argument gives null (standard input), one gives that argument, and more give the argument-count error |
| Cli.SeverityName | src/cli/util.ts:52-59 | a missing severity is named "error" like Error, and every name is one of the four |
| Cli.Margin | src/cli/util.ts:60-61 | the margin is as many blanks as the end line has digits |
| Cli.Segment | src/cli/util.ts:61-76 | one margin row for a multi-line range; four rows (margin, numbered line, carets, margin) when the line is shown |
| Cli.DiagnosticAsPrettyString | src/cli/util.ts:48-79 | fails, with "Message Construction Error " and the `getLine` message, exactly for a single-line range on a line the document lacks; otherwise starts with the header line |
| Cli.MultiLineRendering | src/cli/util.ts:59-78 | a multi-line range renders as the header and one margin row |
| Cli.RenderingLines | src/cli/util.ts:63-78 | read line by line, a single-line rendering is the header line followed by the four segment rows |
| Cli.CaretsUnderRange | src/cli/util.ts:69-74 | the caret row lines up with the numbered line: same prefix width, blanks before the start column, carets from the start through the end column |
| Cli.SliceEnd | src/cli/util.ts:86 | `slice(0, limit)` keeps `limit` items, all items when there are fewer, and counts back from the end for a negative limit |
| Cli.GetDiagnosticsAsPrettyString | src/cli/util.ts:81-94 | the loop computes the specification: the shown renderings joined by a blank line, or the first error |
| Cli.PrettyOutcome | src/cli/util.ts:81-94 | the rendering fails exactly when a shown single-line diagnostic names a missing line; otherwise it joins one rendering per shown diagnostic, in order |
| Cli.DefaultShowsFive | src/cli/util.ts:81-84 | with the default limit at most five diagnostics are shown, and no diagnostics render as "" |

## Left out

- `getBuffer` (src/cli/util.ts:21-46) and the whole of src/util.ts: they read standard input and files. src/util.ts's `getFilename` duplicates the command-line one, but throws.
- src/bin.ts: it only wires command-line options.
- The build configuration files.
- src/core/parser.ts is not part of this model. Its `FlagArg`/`CollectArg` tokens are modelled as token kinds only.
- The JavaScript regular expression engine. Each pattern is an explicit scan, and `MatchCommandShape`/`GreedyGroups` state the match that the patterns' priorities pick.
- `Vertex.parent` back-references: they are cyclic and used only for navigation.
- Columns count characters, not UTF-16 code units. Characters outside the Basic Multilingual Plane therefore count once rather than twice.
- `NaN` offsets: `getText` on a line without a table entry reads `NaN` as 0. The model's `Offset` returns nothing, and `GetText` states its result only when both offsets exist.
- Cli.DiagnosticAsPrettyString: requires a single-line range on a line the document has to end at most one column before it starts. Otherwise `"^".repeat` is given a negative count and throws. On a missing line the construction error is returned first, and that case is modelled.
- Cli.GetDiagnosticsAsPrettyString: requires that precondition of every diagnostic it shows. `limit` is an integer: a fractional or `NaN` limit is not modelled.
- Parser.BuildStory: requires a non-empty token stream ending in a Newline. The tokenizer always produces one, and `Parser.Parse` discharges the requirement.
- Document.ToText: the default separator is the constant `Document.DefaultSeparator`, not a separate function.
- The diagnostic messages are exact strings. Their Japanese halves are copied and no property depends on them.
- LegacyStory.FromString: it converts every "\r\n" to "\n", the evidently intended behaviour (see Findings). The code as written converts only the first, which is modelled by `LegacyStory.ReplaceFirst`.

## Findings

| source | as written | input that shows it | evidently intended | confidence | as-written member | corrected member |
|---|---|---|---|---|---|---|
| src/stlap.ts:111 | `source.replace("\r\n", "\n")` with a string pattern replaces only the first "\r\n" | "a\r\nb\r\n\r\nc" (the text "a\nb\n\nc" with Windows line ends): the blank line stays "\r\n\r\n", so `split(/\n\n*\n/)` gives one passage where the "\n" text gives two | convert every "\r\n" to "\n" so that a Windows text loads like the same text with "\n" line ends | not executed | LegacyStory.FirstOnlyMissesBreak | LegacyStory.WindowsLineEnds |
