/**
 * Evidence extraction: the lines around the first line a pattern matches,
 * clamped to the text.
 */
module Evidence {

  import opened Wrappers
  import opened Text
  import opened Patterns

  /** The first line at or after `from` that the pattern matches. */
  function FirstMatchFrom(lines: seq<string>, p: Pattern, from: nat): (r: Option<nat>)
    requires from <= |lines|
    ensures r.Some? ==> from <= r.value < |lines| && Search(p, lines[r.value])
    ensures forall j :: from <= j < (if r.Some? then r.value else |lines|) ==> !Search(p, lines[j])
    decreases |lines| - from
  {
    if from == |lines| then None
    else if Search(p, lines[from]) then Some(from)
    else FirstMatchFrom(lines, p, from + 1)
  }

  function FirstMatch(lines: seq<string>, p: Pattern): (r: Option<nat>)
  {
    FirstMatchFrom(lines, p, 0)
  }

  /** `i` is the first line the pattern matches. */
  predicate IsFirstMatch(lines: seq<string>, p: Pattern, i: nat)
  {
    i < |lines| && Search(p, lines[i]) && forall j :: 0 <= j < i ==> !Search(p, lines[j])
  }

  /** `max(0, i - w)`. */
  function WindowStart(i: nat, w: nat): (start: nat)
  {
    if i >= w then i - w else 0
  }

  /** `min(n, i + w + 1)`. */
  function WindowEnd(i: nat, w: nat, n: nat): (stop: nat)
  {
    if i + w + 1 <= n then i + w + 1 else n
  }

  /** What `extract_snippet(text, p, w)` returns. */
  function Snippet(text: string, p: Pattern, w: nat): (snippet: string)
  {
    var lines := SplitLines(text);
    match FirstMatch(lines, p)
    case None => ""
    case Some(i) => Join("\n", lines[WindowStart(i, w)..WindowEnd(i, w, |lines|)])
  }

  /**
   * `extract_snippet`: walks the lines of the text and, at the first one the
   * pattern matches, returns the lines from `i - window` to `i + window`
   * clamped to the text, joined with line feeds; `""` when no line matches.
   */
  method ExtractSnippet(text: string, p: Pattern, window: nat) returns (snippet: string)
    ensures snippet == Snippet(text, p, window)
    ensures (forall j :: 0 <= j < |SplitLines(text)| ==> !Search(p, SplitLines(text)[j])) ==> snippet == ""
    ensures forall i :: IsFirstMatch(SplitLines(text), p, i) ==>
      snippet == Join("\n", SplitLines(text)[WindowStart(i, window)..WindowEnd(i, window, |SplitLines(text)|)])
  {
    var lines := SplitLines(text);
    var i := 0;
    while i < |lines|
      invariant 0 <= i <= |lines|
      invariant forall j :: 0 <= j < i ==> !Search(p, lines[j])
    {
      if Search(p, lines[i]) {
        var start := if i - window >= 0 then i - window else 0;
        var end := if |lines| <= i + window + 1 then |lines| else i + window + 1;
        FirstMatchUnique(lines, p, i);
        snippet := Join("\n", lines[start..end]);
        return;
      }
      i := i + 1;
    }
    snippet := "";
  }

  /** The first match is unique: `FirstMatch` finds exactly it. */
  lemma FirstMatchUnique(lines: seq<string>, p: Pattern, i: nat)
    requires IsFirstMatch(lines, p, i)
    ensures FirstMatch(lines, p) == Some(i)
    ensures forall k :: IsFirstMatch(lines, p, k) ==> k == i
  {
    var r := FirstMatch(lines, p);
  }

  /**
   * The snippet is empty exactly when no line matches (for a pattern that
   * cannot match an empty line).
   */
  lemma SnippetEmptyIff(text: string, p: Pattern, w: nat)
    requires WellFormed(p)
    ensures Snippet(text, p, w) == "" <==> forall j :: 0 <= j < |SplitLines(text)| ==> !Search(p, SplitLines(text)[j])
  {
    var lines := SplitLines(text);
    var r := FirstMatch(lines, p);
    if r.Some? {
      var i := r.value;
      var s, e := WindowStart(i, w), WindowEnd(i, w, |lines|);
      assert Search(p, lines[i]);
      SearchNonEmpty(p, lines[i]);
      assert lines[s..e][i - s] == lines[i];
      JoinNonEmpty("\n", lines[s..e], i - s);
      assert Snippet(text, p, w) == Join("\n", lines[s..e]);
    }
  }

  /**
   * Clamping: for the first matching line `i` the snippet is the join of
   * lines `start..end` with `0 <= start <= i < end <= |lines|`, at most
   * `2w + 1` of them, holding line `i`; the window starts at line 0 when
   * `i <= w` and ends at the last line when `i + w` reaches past it.
   */
  lemma SnippetWindow(text: string, p: Pattern, w: nat, i: nat)
    requires IsFirstMatch(SplitLines(text), p, i)
    ensures var lines := SplitLines(text);
      var start, end := WindowStart(i, w), WindowEnd(i, w, |lines|);
      && 0 <= start <= i < end <= |lines|
      && end - start <= 2 * w + 1
      && lines[start..end][i - start] == lines[i]
      && (i <= w ==> start == 0) && (i >= w ==> start == i - w)
      && (i + w + 1 >= |lines| ==> end == |lines|) && (i + w + 1 <= |lines| ==> end == i + w + 1)
      && Snippet(text, p, w) == Join("\n", lines[start..end])
  {
    FirstMatchUnique(SplitLines(text), p, i);
  }

  /** A line match is a match of the whole text: a non-empty snippet implies the rule fires. */
  lemma SnippetImpliesSearch(text: string, p: Pattern, w: nat)
    requires Snippet(text, p, w) != ""
    ensures Search(p, text)
  {
    var lines := SplitLines(text);
    var i := FirstMatch(lines, p).value;
    var at := LineOffset(text, i);
    SearchExtends(p, lines[i], text, at);
  }
}
