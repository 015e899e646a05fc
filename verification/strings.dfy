/** String helpers shared by every component: the character classes of the
    JavaScript regular expressions the source uses, maximal runs, `split`,
    `join`, `repeat` and decimal rendering of a non-negative integer. */
module Strings {

  /** JavaScript's `\s`: the ECMAScript white-space and line-terminator
      characters. */
  predicate IsWs(c: char) {
    || c == '\t' || c == '\n' || c == '\U{000B}' || c == '\U{000C}' || c == '\r' || c == ' '
    || c == '\U{00A0}' || c == '\U{1680}' || ('\U{2000}' <= c <= '\U{200A}')
    || c == '\U{2028}' || c == '\U{2029}' || c == '\U{202F}' || c == '\U{205F}'
    || c == '\U{3000}' || c == '\U{FEFF}'
  }

  /** JavaScript's `\S`. */
  predicate IsNonWs(c: char) { !IsWs(c) }

  /** JavaScript's `[^\S\r\n]`: white space other than a carriage return or a line feed. */
  predicate IsBlank(c: char) { IsWs(c) && c != '\r' && c != '\n' }

  /** JavaScript's `.` without the `s` flag: anything but a line terminator. */
  predicate IsDot(c: char) { c != '\n' && c != '\r' && c != '\U{2028}' && c != '\U{2029}' }

  /** The character classes the scans below work with. */
  datatype CharClass = WhiteSpace | NonWhiteSpace | Blank | Dot

  predicate In(c: char, cls: CharClass) {
    match cls
    case WhiteSpace => IsWs(c)
    case NonWhiteSpace => IsNonWs(c)
    case Blank => IsBlank(c)
    case Dot => IsDot(c)
  }

  predicate All(s: string, p: CharClass) {
    forall k :: 0 <= k < |s| ==> In(s[k], p)
  }

  lemma AllSlice(s: string, i: nat, j: nat, p: CharClass)
    requires i <= j <= |s|
    ensures All(s[i..j], p) <==> forall k :: i <= k < j ==> In(s[k], p)
  {
    if forall k :: i <= k < j ==> In(s[k], p) {
      forall k | 0 <= k < j - i ensures In(s[i..j][k], p) {
        assert s[i..j][k] == s[i + k];
      }
    }
  }

  predicate StartsWith(s: string, prefix: string) {
    |prefix| <= |s| && s[..|prefix|] == prefix
  }

  /** Length of the longest run of characters satisfying `p` that starts at `i`
      (what a greedy `p*` consumes there). */
  function Span(s: string, i: nat, p: CharClass): (n: nat)
    requires i <= |s|
    ensures i + n <= |s|
    ensures forall k :: i <= k < i + n ==> In(s[k], p)
    ensures i + n == |s| || !In(s[i + n], p)
    decreases |s| - i
  {
    if i == |s| || !In(s[i], p) then 0 else 1 + Span(s, i + 1, p)
  }

  /** A run that satisfies `p` and cannot be extended is what `Span` measures. */
  lemma {:induction false} SpanExact(s: string, i: nat, n: nat, p: CharClass)
    requires i + n <= |s|
    requires forall k :: i <= k < i + n ==> In(s[k], p)
    requires i + n == |s| || !In(s[i + n], p)
    ensures Span(s, i, p) == n
    decreases n
  {
    if n > 0 {
      SpanExact(s, i + 1, n - 1, p);
    }
  }

  /** Length of the longest suffix of `s` whose characters all satisfy `p`. */
  function TrailingSpan(s: string, p: CharClass): (n: nat)
    ensures n <= |s|
    ensures forall k :: |s| - n <= k < |s| ==> In(s[k], p)
    ensures n == |s| || !In(s[|s| - n - 1], p)
  {
    if s == [] || !In(s[|s| - 1], p) then 0 else 1 + TrailingSpan(s[..|s| - 1], p)
  }

  /** Index of the first occurrence of `c`. */
  function IndexOf(s: string, c: char): (k: nat)
    requires c in s
    ensures k < |s| && s[k] == c && c !in s[..k]
  {
    if s[0] == c then 0 else 1 + IndexOf(s[1..], c)
  }

  /** `s.split(c)` for a one-character separator: the pieces between
      occurrences of `c`; always at least one piece. */
  function Split(s: string, c: char): (parts: seq<string>)
    ensures |parts| >= 1
    ensures forall k :: 0 <= k < |parts| ==> c !in parts[k]
    decreases |s|
  {
    if c !in s then [s]
    else
      var k := IndexOf(s, c);
      [s[..k]] + Split(s[k + 1..], c)
  }

  /** Splitting at the first separator: the piece before it, then the
      pieces of the rest. */
  lemma SplitFirst(a: string, c: char, b: string)
    requires c !in a
    ensures Split(a + [c] + b, c) == [a] + Split(b, c)
  {
    var s := a + [c] + b;
    assert s[|a|] == c;
    var k := IndexOf(s, c);
    assert k == |a|;
    assert s[..k] == a;
    assert s[k + 1..] == b;
  }

  /** `parts.join(sep)`. */
  function Join(parts: seq<string>, sep: string): string
  {
    if |parts| == 0 then ""
    else if |parts| == 1 then parts[0]
    else parts[0] + sep + Join(parts[1..], sep)
  }

  /** Joining peels off the last piece. */
  lemma {:induction false} JoinSnoc(parts: seq<string>, sep: string)
    requires |parts| >= 2
    ensures Join(parts, sep) == Join(parts[..|parts| - 1], sep) + sep + parts[|parts| - 1]
  {
    if |parts| > 2 {
      JoinSnoc(parts[1..], sep);
      assert parts[1..][..|parts| - 2] == parts[..|parts| - 1][1..];
    }
  }

  /** A character of a joined string other than the separator comes from a piece. */
  lemma {:induction false} JoinMember(parts: seq<string>, sep: char, c: char)
    requires c != sep && c in Join(parts, [sep])
    ensures exists i :: 0 <= i < |parts| && c in parts[i]
  {
    if |parts| > 1 {
      var rest := Join(parts[1..], [sep]);
      if c !in parts[0] {
        assert c in rest;
        JoinMember(parts[1..], sep, c);
        var i :| 0 <= i < |parts[1..]| && c in parts[1..][i];
        assert c in parts[i + 1];
      }
    }
  }

  /** Every character of every piece is a character of the joined string. */
  lemma JoinKeeps(parts: seq<string>, sep: char, i: nat, k: nat)
    requires i < |parts| && k < |parts[i]|
    ensures parts[i][k] in Join(parts, [sep])
  {
    JoinLocates(parts, sep, i);
    var p := PrefixLength(parts, i);
    assert Join(parts, [sep])[p + k] == parts[i][k];
  }

  /** `"x".repeat(n)` for a one-character `x`. */
  function Repeat(c: char, n: nat): (s: string)
    ensures |s| == n && forall k :: 0 <= k < n ==> s[k] == c
  {
    if n == 0 then "" else [c] + Repeat(c, n - 1)
  }

  /** Number of characters before piece `i` when `parts` is joined with a
      one-character separator: every earlier piece plus its separator. */
  function PrefixLength(parts: seq<string>, i: nat): nat
    requires i <= |parts|
  {
    if i == 0 then 0 else |parts[0]| + 1 + PrefixLength(parts[1..], i - 1)
  }

  lemma {:induction false} PrefixLengthStep(parts: seq<string>, i: nat)
    requires i < |parts|
    ensures PrefixLength(parts, i + 1) == PrefixLength(parts, i) + |parts[i]| + 1
  {
    if i > 0 {
      PrefixLengthStep(parts[1..], i - 1);
    }
  }

  /** Splitting and joining again with the same separator gives back the string. */
  lemma {:induction false} JoinSplit(s: string, c: char)
    ensures Join(Split(s, c), [c]) == s
    decreases |s|
  {
    if c in s {
      var k := IndexOf(s, c);
      var rest := Split(s[k + 1..], c);
      JoinSplit(s[k + 1..], c);
      assert Split(s, c) == [s[..k]] + rest;
      assert (([s[..k]] + rest)[1..]) == rest;
      assert s == s[..k] + [c] + s[k + 1..];
    }
  }

  /** The first occurrence of `c` is the one with no `c` before it. */
  lemma IndexOfAt(s: string, c: char, k: nat)
    requires k < |s| && s[k] == c && c !in s[..k]
    ensures IndexOf(s, c) == k
  {
    var k' := IndexOf(s, c);
    assert forall j :: 0 <= j < k ==> s[j] != c by {
      forall j | 0 <= j < k ensures s[j] != c {
        assert s[..k][j] == s[j];
      }
    }
    assert forall j :: 0 <= j < k' ==> s[j] != c by {
      forall j | 0 <= j < k' ensures s[j] != c {
        assert s[..k'][j] == s[j];
      }
    }
  }

  /** Splitting a join of pieces free of the separator gives the pieces back. */
  lemma {:induction false} SplitJoin(parts: seq<string>, c: char)
    requires |parts| >= 1
    requires forall k :: 0 <= k < |parts| ==> c !in parts[k]
    ensures Split(Join(parts, [c]), c) == parts
    decreases |parts|
  {
    if |parts| > 1 {
      var p := parts[0];
      var rest := Join(parts[1..], [c]);
      var s := p + [c] + rest;
      assert Join(parts, [c]) == s;
      assert s[|p|] == c && s[..|p|] == p && s[|p| + 1..] == rest;
      IndexOfAt(s, c, |p|);
      assert Split(s, c) == [p] + Split(rest, c);
      SplitJoin(parts[1..], c);
      assert parts == [p] + parts[1..];
    }
  }

  /** The joined string is one character shorter than
      `PrefixLength(parts, |parts|)`: one separator fewer than pieces. */
  lemma {:induction false} JoinLength(parts: seq<string>, sep: char)
    requires |parts| > 0
    ensures PrefixLength(parts, |parts|) == |Join(parts, [sep])| + 1
  {
    if |parts| == 1 {
      assert PrefixLength(parts[1..], 0) == 0;
    } else {
      JoinLength(parts[1..], sep);
    }
  }

  /** Piece `i` sits in the joined string at offset `PrefixLength(parts, i)`,
      followed by the separator unless it is the last piece. */
  lemma {:induction false} JoinLocates(parts: seq<string>, sep: char, i: nat)
    requires i < |parts|
    ensures PrefixLength(parts, i) + |parts[i]| <= |Join(parts, [sep])|
    ensures Join(parts, [sep])[PrefixLength(parts, i)..PrefixLength(parts, i) + |parts[i]|] == parts[i]
    ensures i + 1 < |parts| ==> PrefixLength(parts, i) + |parts[i]| < |Join(parts, [sep])|
    ensures i + 1 < |parts| ==> Join(parts, [sep])[PrefixLength(parts, i) + |parts[i]|] == sep
  {
    if |parts| == 1 {
      assert Join(parts, [sep]) == parts[0];
      assert parts[0][0..|parts[0]|] == parts[0];
    } else {
      var head := parts[0] + [sep];
      var rest := Join(parts[1..], [sep]);
      assert Join(parts, [sep]) == head + rest;
      if i == 0 {
        assert (head + rest)[..|parts[0]|] == parts[0];
        assert (head + rest)[|parts[0]|] == sep;
      } else {
        JoinLocates(parts[1..], sep, i - 1);
        var p := PrefixLength(parts[1..], i - 1);
        assert parts[1..][i - 1] == parts[i];
        assert PrefixLength(parts, i) == |head| + p;
        AppendShift(head, rest, p, p + |parts[i]|);
      }
    }
  }

  /** Past a prefix, a concatenation reads as its second part. */
  lemma AppendShift(a: string, b: string, x: nat, y: nat)
    requires x <= y <= |b|
    ensures (a + b)[|a| + x..|a| + y] == b[x..y]
    ensures y < |b| ==> (a + b)[|a| + y] == b[y]
  {
    assert (a + b)[|a|..] == b;
    assert (a + b)[|a| + x..|a| + y] == (a + b)[|a|..][x..y];
  }

  /** A string is its four pieces cut at `a`, `b` and `c`. */
  lemma FourPieces(s: string, a: nat, b: nat, c: nat)
    requires a <= b <= c <= |s|
    ensures s == s[..a] + s[a..b] + s[b..c] + s[c..]
  {
    assert s[..b] == s[..a] + s[a..b];
    assert s[..c] == s[..b] + s[b..c];
    assert s == s[..c] + s[c..];
  }

  /** A slice of a slice is a slice of the whole. */
  lemma SliceOfSlice(s: string, o: nat, n: nat, x: nat, y: nat)
    requires o + n <= |s| && x <= y <= n
    ensures s[o..o + n][x..y] == s[o + x..o + y]
  {
    var inner, whole := s[o..o + n], s[o + x..o + y];
    forall k | 0 <= k < y - x ensures inner[x..y][k] == whole[k] {
      assert inner[x..y][k] == inner[x + k];
    }
  }

  /** Dropping the last element of a concatenation with a non-empty right
      side drops it from the right side. */
  lemma AppendInit<T>(x: seq<T>, y: seq<T>)
    requires y != []
    ensures (x + y)[..|x + y| - 1] == x + y[..|y| - 1] && (x + y)[|x + y| - 1] == y[|y| - 1]
  {
  }

  lemma AppendAssoc<T>(x: seq<T>, y: seq<T>, z: seq<T>)
    ensures (x + y) + z == x + (y + z)
  {
  }

  /** `s.slice(from, to)` for non-negative arguments: both ends are clamped
      to the string, and an end at or before the start gives "". */
  function Slice(s: string, from: nat, to: nat): (r: string)
    ensures from <= to <= |s| ==> r == s[from..to]
    ensures from <= |s| <= to ==> r == s[from..]
    ensures to <= from || |s| <= from ==> r == ""
  {
    var lo := if from < |s| then from else |s|;
    var hi := if to < |s| then to else |s|;
    if hi <= lo then "" else s[lo..hi]
  }

  /** The decimal digit of `d`. */
  function DigitChar(d: nat): (c: char)
    requires d < 10
    ensures '0' <= c <= '9' && c as int - '0' as int == d
  {
    ('0' as int + d) as char
  }

  /** The number a string of decimal digits denotes, read left to right. */
  function DecimalValue(s: string): nat
  {
    if s == [] then 0
    else
      var c := s[|s| - 1];
      DecimalValue(s[..|s| - 1]) * 10 + (if '0' <= c <= '9' then c as int - '0' as int else 0)
  }

  /** `n.toString()` for a non-negative integer: its decimal digits, without
      leading zeros (`NatToStringDecimal`). */
  function NatToString(n: nat): (s: string)
    ensures 1 <= |s|
    ensures forall k :: 0 <= k < |s| ==> '0' <= s[k] <= '9'
    ensures n == 0 <==> s == "0"
    decreases n
  {
    if n < 10 then [DigitChar(n)] else NatToString(n / 10) + [DigitChar(n % 10)]
  }

  /** Read back left to right, the digits denote `n`, and only "0" itself
      starts with a zero. */
  lemma {:induction false} NatToStringDecimal(n: nat)
    ensures DecimalValue(NatToString(n)) == n
    ensures |NatToString(n)| > 1 ==> NatToString(n)[0] != '0'
    decreases n
  {
    var s := NatToString(n);
    if n < 10 {
      assert s[..0] == [];
    } else {
      var init := NatToString(n / 10);
      NatToStringDecimal(n / 10);
      assert s[..|s| - 1] == init;
      assert s[0] == init[0];
    }
  }
}
