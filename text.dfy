/**
 * String helpers with the meaning of the Python built-ins the analyser uses:
 * `sep.join(parts)`, `str.splitlines()`, `str.startswith(prefix)` and the
 * decimal rendering of a non-negative integer in an f-string.
 */
module Text {

  /** Python's `sep.join(parts)`. */
  function Join(sep: string, parts: seq<string>): (s: string)
    decreases |parts|
  {
    if |parts| == 0 then ""
    else if |parts| == 1 then parts[0]
    else Join(sep, parts[..|parts| - 1]) + sep + parts[|parts| - 1]
  }

  /** Appending one part adds the separator and the part, except to an empty list. */
  lemma JoinSnoc(sep: string, parts: seq<string>, x: string)
    ensures Join(sep, parts + [x]) == if parts == [] then x else Join(sep, parts) + sep + x
  {
    assert (parts + [x])[..|parts|] == parts;
  }

  /** Joining two non-empty lists is joining each and putting one separator between. */
  lemma {:induction false} JoinConcat(sep: string, a: seq<string>, b: seq<string>)
    requires a != [] && b != []
    ensures Join(sep, a + b) == Join(sep, a) + sep + Join(sep, b)
    decreases |b|
  {
    if |b| == 1 {
      JoinSnoc(sep, a, b[0]);
      assert a + b == a + [b[0]];
    } else {
      var b' := b[..|b| - 1];
      var x := b[|b| - 1];
      assert b == b' + [x];
      assert a + b == (a + b') + [x];
      JoinSnoc(sep, a + b', x);
      JoinConcat(sep, a, b');
      JoinSnoc(sep, b', x);
    }
  }

  /** Joining around a non-empty middle: separators appear only next to non-empty sides. */
  lemma JoinAround(sep: string, a: seq<string>, m: seq<string>, b: seq<string>)
    requires m != []
    ensures Join(sep, a + m + b) ==
      (if a == [] then "" else Join(sep, a) + sep) + Join(sep, m) + (if b == [] then "" else sep + Join(sep, b))
  {
    if a != [] {
      JoinConcat(sep, a, m);
    } else {
      assert a + m == m;
    }
    if b != [] {
      JoinConcat(sep, a + m, b);
    } else {
      assert a + m + b == a + m;
    }
  }

  /** The join of a list that holds a non-empty part is non-empty. */
  lemma {:induction false} JoinNonEmpty(sep: string, parts: seq<string>, k: nat)
    requires k < |parts| && parts[k] != ""
    ensures Join(sep, parts) != ""
    decreases |parts|
  {
    if |parts| > 1 {
      if k == |parts| - 1 {
        assert |Join(sep, parts)| >= |parts[k]|;
      } else {
        JoinNonEmpty(sep, parts[..|parts| - 1], k);
      }
    }
  }

  /**
   * The line boundaries of Python's `str.splitlines()`: line feed, carriage
   * return, vertical tab, form feed, the three information separators, next
   * line, line separator and paragraph separator.
   */
  predicate IsLineBreak(c: char)
  {
    || c == '\n' || c == '\r' || c == '\U{000B}' || c == '\U{000C}'
    || c == '\U{001C}' || c == '\U{001D}' || c == '\U{001E}'
    || c == '\U{0085}' || c == '\U{2028}' || c == '\U{2029}'
  }

  /** A string holding no line boundary. */
  predicate NoLineBreak(s: string)
  {
    forall j :: 0 <= j < |s| ==> !IsLineBreak(s[j])
  }

  /** The index of the first line boundary in `s`, or `|s|` when there is none. */
  function LineEnd(s: string): (k: nat)
    ensures k <= |s|
    ensures forall j :: 0 <= j < k ==> !IsLineBreak(s[j])
    ensures k < |s| ==> IsLineBreak(s[k])
    decreases |s|
  {
    if s == [] || IsLineBreak(s[0]) then 0
    else
      1 + LineEnd(s[1..])
  }

  /** How many characters the boundary at `k` takes: `\r\n` counts as one boundary. */
  function BreakWidth(s: string, k: nat): (w: nat)
    requires k < |s| && IsLineBreak(s[k])
    ensures 1 <= w <= 2 && k + w <= |s|
  {
    if s[k] == '\r' && k + 1 < |s| && s[k + 1] == '\n' then 2 else 1
  }

  /**
   * Python's `s.splitlines()`: the lines of `s` without their boundaries; a
   * boundary at the very end does not start an empty last line.
   */
  function SplitLines(s: string): (lines: seq<string>)
    ensures forall i :: 0 <= i < |lines| ==> NoLineBreak(lines[i])
    ensures s == [] <==> lines == []
    decreases |s|
  {
    if s == [] then []
    else
      var k := LineEnd(s);
      if k == |s| then
        assert s[..k] == s;
        assert forall j :: 0 <= j < |s| ==> s[..k][j] == s[j];
        [s]
      else
        assert forall j :: 0 <= j < k ==> s[..k][j] == s[j];
        [s[..k]] + SplitLines(s[k + BreakWidth(s, k)..])
  }

  /** `u` occurs in `s` starting at index `at`. */
  predicate InfixAt(u: string, s: string, at: nat)
  {
    at + |u| <= |s| && s[at..at + |u|] == u
  }

  lemma SliceOfSlice(s: string, a: nat, b: nat, c: nat, d: nat)
    requires a <= b <= |s| && c <= d <= b - a
    ensures s[a..b][c..d] == s[a + c..a + d]
  {
    assert forall k :: 0 <= k < d - c ==> s[a..b][c..d][k] == s[a + c + k];
  }

  lemma SuffixOfSlice(s: string, a: nat, b: nat, c: nat)
    requires a <= b <= |s| && c <= b - a
    ensures s[a + c..] == s[a..b][c..] + s[b..]
  {
  }

  /** Every line `splitlines()` yields is a contiguous piece of the text, starting at `at`. */
  lemma {:induction false} LineOffset(s: string, i: nat) returns (at: nat)
    requires i < |SplitLines(s)|
    ensures InfixAt(SplitLines(s)[i], s, at)
    decreases |s|
  {
    var k := LineEnd(s);
    if k == |s| {
      assert s[0..|s|] == s;
      at := 0;
    } else {
      var d := SplitLinesUnfold(s);
      if i == 0 {
        assert s[0..k] == s[..k];
        at := 0;
      } else {
        var rest := s[d..];
        var at' := LineOffset(rest, i - 1);
        at := LineOffsetStep(s, d, i, at');
      }
    }
  }

  /** The lines of `s` when its first line ends before the end: that line, then the lines after its boundary at `d`. */
  lemma SplitLinesUnfold(s: string) returns (d: nat)
    requires LineEnd(s) < |s|
    ensures LineEnd(s) < d <= |s| && SplitLines(s) == [s[..LineEnd(s)]] + SplitLines(s[d..])
  {
    d := LineEnd(s) + BreakWidth(s, LineEnd(s));
  }

  /** A line found at `at'` in the text after the first boundary sits at `d + at'` in the whole text. */
  lemma LineOffsetStep(s: string, d: nat, i: nat, at': nat) returns (at: nat)
    requires LineEnd(s) < d <= |s| && SplitLines(s) == [s[..LineEnd(s)]] + SplitLines(s[d..])
    requires 0 < i < |SplitLines(s)| && InfixAt(SplitLines(s[d..])[i - 1], s[d..], at')
    ensures InfixAt(SplitLines(s)[i], s, at)
  {
    var line := SplitLines(s[d..])[i - 1];
    assert SplitLines(s)[i] == line;
    SuffixSlice(s, d, at', |line|);
    at := d + at';
  }

  lemma SuffixSlice(s: string, d: nat, a: nat, n: nat)
    requires d <= |s| && a + n <= |s| - d
    ensures s[d + a..d + a + n] == s[d..][a..a + n]
  {
  }

  /** Where the first line ends in a line feed, the lines are that line and the lines after it. */
  lemma SplitAtFeed(s: string)
    requires LineEnd(s) < |s| && s[LineEnd(s)] == '\n'
    ensures SplitLines(s) == [s[..LineEnd(s)]] + SplitLines(s[LineEnd(s) + 1..])
    ensures s == s[..LineEnd(s)] + "\n" + s[LineEnd(s) + 1..]
  {
    var k := LineEnd(s);
    assert BreakWidth(s, k) == 1;
    SplitAround(s, k);
  }

  lemma SplitAround(s: string, k: nat)
    requires k < |s|
    ensures s == s[..k] + [s[k]] + s[k + 1..]
  {
  }

  /**
   * Round trip: for text whose only boundaries are line feeds and that does
   * not end with one, joining its lines with `"\n"` gives the text back.
   */
  lemma {:induction false} JoinSplitLines(s: string)
    requires forall j :: 0 <= j < |s| && IsLineBreak(s[j]) ==> s[j] == '\n'
    requires s != [] ==> s[|s| - 1] != '\n'
    ensures Join("\n", SplitLines(s)) == s
    decreases |s|
  {
    if s != [] {
      var k := LineEnd(s);
      if k < |s| {
        SplitAtFeed(s);
        var rest := s[k + 1..];
        assert rest != [] && rest[|rest| - 1] == s[|s| - 1];
        assert forall j :: 0 <= j < |rest| ==> rest[j] == s[k + 1 + j];
        JoinSplitLines(rest);
        JoinConcat("\n", [s[..k]], SplitLines(rest));
      } else {
        assert s[..k] == s;
      }
    }
  }

  /** With an empty separator, joining distributes over concatenation of the lists. */
  lemma ConcatJoin(a: seq<string>, b: seq<string>)
    ensures Join("", a + b) == Join("", a) + Join("", b)
  {
    if a == [] {
      assert a + b == b;
    } else if b == [] {
      assert a + b == a;
    } else {
      JoinConcat("", a, b);
    }
  }

  /** A string and a string without boundaries, joined, have no boundary. */
  lemma NoLineBreakConcat(a: string, b: string)
    requires NoLineBreak(a) && NoLineBreak(b)
    ensures NoLineBreak(a + b)
  {
    forall j | 0 <= j < |a + b| ensures !IsLineBreak((a + b)[j]) {
      if j >= |a| {
        assert (a + b)[j] == b[j - |a|];
      }
    }
  }

  /** The first boundary of a line followed by a line feed is that line feed. */
  lemma LineEndAt(l: string, rest: string)
    requires NoLineBreak(l)
    ensures LineEnd(l + "\n" + rest) == |l|
  {
    var s := l + "\n" + rest;
    var k := LineEnd(s);
    assert s[|l|] == '\n';
    assert forall j :: 0 <= j < |l| ==> s[j] == l[j];
  }

  /**
   * Round trip the other way: lines without boundaries whose last line is
   * not empty come back from `splitlines()` after a join with `"\n"`.
   */
  lemma {:induction false} SplitJoin(ls: seq<string>)
    requires forall j :: 0 <= j < |ls| ==> NoLineBreak(ls[j])
    requires ls != [] ==> ls[|ls| - 1] != ""
    ensures SplitLines(Join("\n", ls)) == ls
    decreases |ls|
  {
    if |ls| == 1 {
      var s := ls[0];
      assert LineEnd(s) == |s|;
    } else if |ls| > 1 {
      var tail := ls[1..];
      assert ls == [ls[0]] + tail;
      JoinConcat("\n", [ls[0]], tail);
      var rest := Join("\n", tail);
      JoinNonEmpty("\n", tail, |tail| - 1);
      var s := ls[0] + "\n" + rest;
      LineEndAt(ls[0], rest);
      assert s[..|ls[0]|] == ls[0];
      assert BreakWidth(s, |ls[0]|) == 1;
      assert s[|ls[0]| + 1..] == rest;
      SplitJoin(tail);
    }
  }

  /** Python's `s.startswith(prefix)`. */
  predicate StartsWith(s: string, prefix: string)
  {
    |prefix| <= |s| && s[..|prefix|] == prefix
  }

  /** The decimal digits of `n`, as an f-string writes an `int`. */
  function Decimal(n: nat): (s: string)
    ensures s != []
    ensures forall j :: 0 <= j < |s| ==> '0' <= s[j] <= '9'
    decreases n
  {
    if n < 10 then [DigitChar(n)] else Decimal(n / 10) + [DigitChar(n % 10)]
  }

  function DigitChar(d: nat): (c: char)
    requires d < 10
    ensures '0' <= c <= '9'
  {
    (('0' as int) + d) as char
  }

  /** Reads a string of decimal digits back as a number (the inverse of `Decimal`). */
  function ParseDecimal(s: string): (v: nat)
    requires forall j :: 0 <= j < |s| ==> '0' <= s[j] <= '9'
    decreases |s|
  {
    if s == [] then 0
    else ParseDecimal(s[..|s| - 1]) * 10 + ((s[|s| - 1] as int) - ('0' as int))
  }

  lemma {:induction false} ParseDecimalOfDecimal(n: nat)
    ensures ParseDecimal(Decimal(n)) == n
    decreases n
  {
    if n < 10 {
      assert (DigitChar(n) as int) - ('0' as int) == n;
    } else {
      var s := Decimal(n);
      assert s[..|s| - 1] == Decimal(n / 10);
      assert (DigitChar(n % 10) as int) - ('0' as int) == n % 10;
      ParseDecimalOfDecimal(n / 10);
    }
  }
}
