/**
 * The signature patterns. Every pattern of the catalogue is an alternation of
 * literals, some of them split by `.*`, compiled case-insensitively and
 * without DOTALL. The model represents exactly that shape: a list of
 * alternatives, each a list of literal pieces with a `.*` gap between
 * consecutive pieces. `Search` is the meaning of `pattern.search(s)`.
 */
module Patterns {

  import opened Text

  /**
   * Case folding under IGNORECASE: ASCII letters fold to lower case, and the
   * four non-ASCII letters that match ASCII ones (capital I with dot above,
   * dotless i, long s, Kelvin sign) fold to those.
   */
  function Fold(c: char): (f: char)
    ensures 'a' <= c <= 'z' ==> f == c
    ensures 'A' <= c <= 'Z' ==> 'a' <= f <= 'z' && f as int - 'a' as int == c as int - 'A' as int
  {
    if 'A' <= c <= 'Z' then (c as int + 32) as char
    else if c == '\U{0130}' || c == '\U{0131}' then 'i'
    else if c == '\U{017F}' then 's'
    else if c == '\U{212A}' then 'k'
    else c
  }

  /** ASCII upper-casing: a lower-case letter becomes the same letter in upper case. */
  function Upper(c: char): (u: char)
    ensures 'a' <= c <= 'z' ==> 'A' <= u <= 'Z' && u as int - 'A' as int == c as int - 'a' as int
    ensures !('a' <= c <= 'z') ==> u == c
  {
    if 'a' <= c <= 'z' then (c as int - 32) as char else c
  }

  /** Two ASCII letters fold alike exactly when they are the same letter, in either case. */
  lemma FoldLetters(c: char, d: char)
    requires ('a' <= c <= 'z' || 'A' <= c <= 'Z') && ('a' <= d <= 'z' || 'A' <= d <= 'Z')
    ensures Fold(c) == Fold(d) <==> Upper(c) == Upper(d)
  {
  }

  /** A string with every ASCII letter upper-cased. */
  function UpperText(s: string): (u: string)
    ensures |u| == |s|
    ensures forall k :: 0 <= k < |s| ==> u[k] == Upper(s[k])
  {
    seq(|s|, k requires 0 <= k < |s| => Upper(s[k]))
  }

  /** Upper-casing a character does not change how it folds. */
  lemma FoldUpper(c: char)
    ensures Fold(Upper(c)) == Fold(c)
  {
  }

  /** Equal up to case folding, character by character. */
  predicate FoldEq(a: string, b: string)
  {
    |a| == |b| && forall k :: 0 <= k < |a| ==> Fold(a[k]) == Fold(b[k])
  }

  /** An alternation of literal-piece sequences; `.*` sits between consecutive pieces. */
  datatype Pattern = Pattern(alternatives: seq<seq<string>>)

  /** Every alternative starts with a non-empty literal, so no match is empty. */
  predicate WellFormed(p: Pattern)
  {
    forall a :: 0 <= a < |p.alternatives| ==> |p.alternatives[a]| > 0 && p.alternatives[a][0] != ""
  }

  /** Literal `w` matches `s` at index `i`, ignoring case. */
  predicate PieceAt(w: string, s: string, i: nat)
  {
    i + |w| <= |s| && FoldEq(s[i..i + |w|], w)
  }

  /**
   * The pieces match in order from the start of `s`; the text a `.*` gap
   * skips before each piece holds no line feed, since `.` does not match one.
   */
  predicate Follows(pieces: seq<string>, s: string)
    decreases |pieces|
  {
    pieces == [] ||
    exists i :: 0 <= i <= |s| - |pieces[0]| && PieceAt(pieces[0], s, i) &&
      GapFree(s[..i]) && Follows(pieces[1..], s[i + |pieces[0]|..])
  }

  /** Text a `.*` gap may skip: anything but a line feed. */
  predicate GapFree(t: string)
  {
    '\n' !in t
  }

  /** One alternative occurs somewhere in `s` (a search may start anywhere). */
  predicate Occurs(pieces: seq<string>, s: string)
  {
    pieces == [] ||
    exists i :: 0 <= i <= |s| - |pieces[0]| && PieceAt(pieces[0], s, i) &&
      Follows(pieces[1..], s[i + |pieces[0]|..])
  }

  /** `pattern.search(s)` finds a match. */
  predicate Search(p: Pattern, s: string)
  {
    exists a :: 0 <= a < |p.alternatives| && Occurs(p.alternatives[a], s)
  }

  /** A well-formed pattern never matches the empty string. */
  lemma SearchNonEmpty(p: Pattern, s: string)
    requires WellFormed(p) && Search(p, s)
    ensures |s| > 0
  {
    var a :| 0 <= a < |p.alternatives| && Occurs(p.alternatives[a], s);
    var i :| 0 <= i <= |s| - |p.alternatives[a][0]| && PieceAt(p.alternatives[a][0], s, i) &&
      Follows(p.alternatives[a][1..], s[i + |p.alternatives[a][0]|..]);
  }

  /** Text appended after the part a match uses does not undo the match. */
  lemma {:induction false} FollowsExtends(pieces: seq<string>, x: string, y: string)
    requires Follows(pieces, x)
    ensures Follows(pieces, x + y)
    decreases |pieces|
  {
    if pieces != [] {
      var i := FollowsWitness(pieces, x);
      FollowsExtends(pieces[1..], x[i + |pieces[0]|..], y);
      FollowsExtendsStep(pieces, x, y, i);
    }
  }

  /** Where the first piece of a `Follows` match sits. */
  lemma FollowsWitness(pieces: seq<string>, s: string) returns (i: nat)
    requires pieces != [] && Follows(pieces, s)
    ensures i <= |s| - |pieces[0]| && PieceAt(pieces[0], s, i) && GapFree(s[..i])
    ensures Follows(pieces[1..], s[i + |pieces[0]|..])
  {
    i :| 0 <= i <= |s| - |pieces[0]| && PieceAt(pieces[0], s, i) && GapFree(s[..i]) && Follows(pieces[1..], s[i + |pieces[0]|..]);
  }

  /** One step of `FollowsExtends`: the first piece's match carries over to `x + y`. */
  lemma FollowsExtendsStep(pieces: seq<string>, x: string, y: string, i: nat)
    requires pieces != [] && i <= |x| - |pieces[0]| && PieceAt(pieces[0], x, i) && GapFree(x[..i])
    requires Follows(pieces[1..], x[i + |pieces[0]|..] + y)
    ensures Follows(pieces, x + y)
  {
    var w := pieces[0];
    var xy := x + y;
    PieceAtExtends(w, x, y, i);
    assert xy[..i] == x[..i];
    assert xy[i + |w|..] == x[i + |w|..] + y;
    FollowsIntro(pieces, xy, i);
  }

  /** The witness form of `Follows`. */
  lemma FollowsIntro(pieces: seq<string>, s: string, i: nat)
    requires pieces != [] && i <= |s| - |pieces[0]| && PieceAt(pieces[0], s, i) && GapFree(s[..i])
    requires Follows(pieces[1..], s[i + |pieces[0]|..])
    ensures Follows(pieces, s)
  {
  }

  lemma PieceAtExtends(w: string, x: string, y: string, i: nat)
    requires PieceAt(w, x, i)
    ensures PieceAt(w, x + y, i)
  {
    assert (x + y)[i..i + |w|] == x[i..i + |w|];
  }

  /** A match in a piece of a text is a match in the whole text. */
  lemma SearchExtends(p: Pattern, u: string, s: string, at: nat)
    requires InfixAt(u, s, at) && Search(p, u)
    ensures Search(p, s)
  {
    var a :| 0 <= a < |p.alternatives| && Occurs(p.alternatives[a], u);
    var pieces := p.alternatives[a];
    if pieces != [] {
      var w := pieces[0];
      var i :| 0 <= i <= |u| - |w| && PieceAt(w, u, i) && Follows(pieces[1..], u[i + |w|..]);
      SliceOfSlice(s, at, at + |u|, i, i + |w|);
      SuffixOfSlice(s, at, at + |u|, i + |w|);
      FollowsExtends(pieces[1..], u[i + |w|..], s[at + |u|..]);
      assert PieceAt(w, s, at + i);
      assert Occurs(pieces, s);
    }
  }

  /** Any occurrence of a literal, in any letter case, is a match of a one-literal alternative. */
  lemma LiteralFound(p: Pattern, a: nat, s: string, at: nat)
    requires a < |p.alternatives| && |p.alternatives[a]| == 1
    requires at + |p.alternatives[a][0]| <= |s| && FoldEq(s[at..at + |p.alternatives[a][0]|], p.alternatives[a][0])
    ensures Search(p, s)
  {
    var pieces := p.alternatives[a];
    assert pieces[1..] == [];
    assert PieceAt(pieces[0], s, at);
  }

  /** Upper-casing a text keeps it equal to the original up to case. */
  lemma FoldEqUpper(s: string)
    ensures FoldEq(UpperText(s), s)
  {
    forall k | 0 <= k < |s| ensures Fold(UpperText(s)[k]) == Fold(s[k]) {
      FoldUpper(s[k]);
    }
  }

  /** A one-literal alternative matches its literal written in upper case, whatever surrounds it. */
  lemma UpperCaseFound(p: Pattern, a: nat, before: string, after: string)
    requires a < |p.alternatives| && |p.alternatives[a]| == 1
    ensures Search(p, before + UpperText(p.alternatives[a][0]) + after)
  {
    var w := p.alternatives[a][0];
    var s := before + UpperText(w) + after;
    assert s[|before|..|before| + |w|] == UpperText(w);
    FoldEqUpper(w);
    LiteralFound(p, a, s, |before|);
  }

  /** The refused-connection literal, shouted, still matches. */
  lemma ShoutedLiteralFound()
    ensures Search(Pattern([["Connection refused"]]), "CONNECTION REFUSED")
  {
    var w := "Connection refused";
    assert UpperText(w) == "CONNECTION REFUSED";
    UpperCaseFound(Pattern([[w]]), 0, "", "");
    assert "" + UpperText(w) + "" == UpperText(w);
  }

  /** A literal is matched where it occurs verbatim. */
  lemma PieceAtLiteral(w: string, s: string, i: nat)
    requires i + |w| <= |s| && s[i..i + |w|] == w
    ensures PieceAt(w, s, i)
  {
  }

  /**
   * A two-piece alternative matches its first literal, any gap without a
   * line feed, then its second literal.
   */
  lemma TwoPiecesAcross(p: Pattern, a: nat, first: string, gap: string, second: string)
    requires a < |p.alternatives| && p.alternatives[a] == [first, second]
    requires GapFree(gap)
    ensures Search(p, first + gap + second)
  {
    var text := first + gap + second;
    assert text[0..|first|] == first;
    PieceAtLiteral(first, text, 0);
    var rest := text[|first|..];
    assert rest == gap + second;
    assert rest[..|gap|] == gap;
    assert rest[|gap|..|gap| + |second|] == second;
    PieceAtLiteral(second, rest, |gap|);
    assert [first, second][1..] == [second];
    assert [second][1..] == [];
    FollowsIntro([second], rest, |gap|);
    var pieces := p.alternatives[a];
    assert pieces[0] == first && pieces[1..] == [second];
    assert text[0 + |first|..] == rest;
    assert 0 <= |text| - |pieces[0]| && PieceAt(pieces[0], text, 0) && Follows(pieces[1..], text[0 + |pieces[0]|..]);
  }

  /** The combined length of an alternative's literals: the shortest text it can match. */
  function TotalLength(pieces: seq<string>): (n: nat)
    decreases |pieces|
  {
    if pieces == [] then 0 else |pieces[0]| + TotalLength(pieces[1..])
  }

  lemma {:induction false} FollowsLength(pieces: seq<string>, s: string)
    requires Follows(pieces, s)
    ensures |s| >= TotalLength(pieces)
    decreases |pieces|
  {
    if pieces != [] {
      var i := FollowsWitness(pieces, s);
      FollowsLength(pieces[1..], s[i + |pieces[0]|..]);
    }
  }

  /** A text shorter than every alternative cannot match. */
  lemma SearchLength(p: Pattern, s: string)
    requires Search(p, s)
    ensures exists a :: 0 <= a < |p.alternatives| && |s| >= TotalLength(p.alternatives[a])
  {
    var a :| 0 <= a < |p.alternatives| && Occurs(p.alternatives[a], s);
    var pieces := p.alternatives[a];
    if pieces != [] {
      var w := pieces[0];
      var i :| 0 <= i <= |s| - |w| && PieceAt(w, s, i) && Follows(pieces[1..], s[i + |w|..]);
      FollowsLength(pieces[1..], s[i + |w|..]);
    }
  }
}
