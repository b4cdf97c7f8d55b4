/**
 * Findings: one per rule whose pattern occurs in the corpus, built in
 * catalogue order, then stably sorted by priority.
 */
module Findings {

  import opened Wrappers
  import opened Text
  import opened Patterns
  import opened Rules
  import opened Evidence

  /** The window radius the aggregation passes to `extract_snippet`. */
  const EVIDENCE_WINDOW: nat := 15

  datatype Finding = Finding(
    ruleId: string,
    priority: int,
    severity: Severity,
    rootCause: string,
    verifySteps: seq<string>,
    fixSteps: seq<string>,
    evidenceSnippet: string)

  /** The rule test: its pattern is searched in the whole corpus, not line by line. */
  predicate Fires(r: Rule, text: string)
  {
    Search(r.pattern, text)
  }

  /** The finding a firing rule contributes: the rule's fields and the evidence around its first matching line. */
  function FindingOf(r: Rule, text: string): (f: Finding)
  {
    Finding(r.id, r.priority, r.severity, r.cause, r.verify, r.fix, Snippet(text, r.pattern, EVIDENCE_WINDOW))
  }

  /** The findings list after the loop over `rules`, before sorting. */
  function Collect(rules: seq<Rule>, text: string): (fs: seq<Finding>)
    ensures |fs| <= |rules|
    decreases |rules|
  {
    if rules == [] then []
    else
      var last := rules[|rules| - 1];
      Collect(rules[..|rules| - 1], text) + (if Fires(last, text) then [FindingOf(last, text)] else [])
  }

  /** One more rule of the loop appends its finding exactly when it fires. */
  lemma CollectStep(rules: seq<Rule>, i: nat, text: string)
    requires i < |rules|
    ensures Collect(rules[..i + 1], text) ==
      Collect(rules[..i], text) + (if Fires(rules[i], text) then [FindingOf(rules[i], text)] else [])
  {
    assert rules[..i + 1][..i] == rules[..i];
  }

  /** The positions of the rules that fire, in catalogue order. */
  function Origins(rules: seq<Rule>, text: string): (ix: seq<nat>)
    decreases |rules|
  {
    if rules == [] then []
    else
      Origins(rules[..|rules| - 1], text) + (if Fires(rules[|rules| - 1], text) then [|rules| - 1] else [])
  }

  /**
   * The collected findings are exactly the firing rules, one each, in
   * catalogue order, each carrying its rule's fields unchanged.
   */
  lemma CollectOrigins(rules: seq<Rule>, text: string)
    ensures |Collect(rules, text)| == |Origins(rules, text)|
    ensures forall j :: 0 <= j < |Origins(rules, text)| ==>
      Origins(rules, text)[j] < |rules| && Collect(rules, text)[j] == FindingOf(rules[Origins(rules, text)[j]], text)
    ensures forall j, k :: 0 <= j < k < |Origins(rules, text)| ==> Origins(rules, text)[j] < Origins(rules, text)[k]
    ensures forall i :: 0 <= i < |rules| ==> (Fires(rules[i], text) <==> i in Origins(rules, text))
  {
    CollectAtOrigins(rules, text);
    OriginsIncreasing(rules, text);
    OriginsFire(rules, text);
  }

  lemma {:induction false} CollectAtOrigins(rules: seq<Rule>, text: string)
    ensures |Collect(rules, text)| == |Origins(rules, text)|
    ensures forall j :: 0 <= j < |Origins(rules, text)| ==>
      Origins(rules, text)[j] < |rules| && Collect(rules, text)[j] == FindingOf(rules[Origins(rules, text)[j]], text)
    decreases |rules|
  {
    if rules != [] {
      var n := |rules| - 1;
      var prefix := rules[..n];
      CollectAtOrigins(prefix, text);
      var fs, ix := Collect(prefix, text), Origins(prefix, text);
      assert forall j :: 0 <= j < |ix| ==> ix[j] < n && rules[ix[j]] == prefix[ix[j]];
      if Fires(rules[n], text) {
        assert Collect(rules, text) == fs + [FindingOf(rules[n], text)];
        assert Origins(rules, text) == ix + [n];
      } else {
        assert Collect(rules, text) == fs;
        assert Origins(rules, text) == ix;
      }
    }
  }

  lemma {:induction false} OriginsBounded(rules: seq<Rule>, text: string)
    ensures forall j :: 0 <= j < |Origins(rules, text)| ==> Origins(rules, text)[j] < |rules|
    decreases |rules|
  {
    if rules != [] {
      OriginsBounded(rules[..|rules| - 1], text);
    }
  }

  lemma {:induction false} OriginsIncreasing(rules: seq<Rule>, text: string)
    ensures forall j, k :: 0 <= j < k < |Origins(rules, text)| ==> Origins(rules, text)[j] < Origins(rules, text)[k]
    decreases |rules|
  {
    if rules != [] {
      var n := |rules| - 1;
      OriginsIncreasing(rules[..n], text);
      OriginsBounded(rules[..n], text);
    }
  }

  lemma {:induction false} OriginsFire(rules: seq<Rule>, text: string)
    ensures forall i :: 0 <= i < |rules| ==> (Fires(rules[i], text) <==> i in Origins(rules, text))
    decreases |rules|
  {
    if rules != [] {
      var n := |rules| - 1;
      var prefix := rules[..n];
      OriginsFire(prefix, text);
      OriginsBounded(prefix, text);
      assert forall i :: 0 <= i < n ==> rules[i] == prefix[i];
    }
  }

  /** A strictly increasing list of positions spans at least its length. */
  lemma {:induction false} IncreasingSpread(ix: seq<nat>)
    requires forall j, k :: 0 <= j < k < |ix| ==> ix[j] < ix[k]
    ensures |ix| > 0 ==> ix[|ix| - 1] - ix[0] >= |ix| - 1
    decreases |ix|
  {
    if |ix| > 1 {
      IncreasingSpread(ix[..|ix| - 1]);
    }
  }

  /** A strictly increasing list whose elements all equal `v` has just one element. */
  lemma IncreasingConstant(ix: seq<nat>, v: nat)
    requires forall j, k :: 0 <= j < k < |ix| ==> ix[j] < ix[k]
    requires forall j :: 0 <= j < |ix| ==> ix[j] == v
    requires v in ix
    ensures ix == [v]
  {
    IncreasingSpread(ix);
    assert ix[0] == v && ix[|ix| - 1] == v;
  }

  /** A strictly increasing list holding `a < b` and nothing else is `[a, b]`. */
  lemma IncreasingPair(ix: seq<nat>, a: nat, b: nat)
    requires forall j, k :: 0 <= j < k < |ix| ==> ix[j] < ix[k]
    requires forall j :: 0 <= j < |ix| ==> ix[j] == a || ix[j] == b
    requires a < b && a in ix && b in ix
    ensures ix == [a, b]
  {
    var ia :| 0 <= ia < |ix| && ix[ia] == a;
    var ib :| 0 <= ib < |ix| && ix[ib] == b;
    assert ia <= ib;
    assert ix[0] <= ix[ia];
    assert ix[0] == a;
    var tail := ix[1..];
    assert forall j :: 0 <= j < |tail| ==> tail[j] == ix[j + 1];
    assert forall j :: 0 <= j < |tail| ==> tail[j] == b;
    assert tail[ib - 1] == b;
    IncreasingConstant(tail, b);
    assert ix == [ix[0]] + tail;
  }

  /** The origins lie among the given positions, and include each firing one. */
  lemma OriginsAmong(rules: seq<Rule>, text: string, k: nat)
    requires k < |rules| && Fires(rules[k], text)
    ensures k in Origins(rules, text)
    ensures forall j :: 0 <= j < |Origins(rules, text)| ==>
      Origins(rules, text)[j] < |rules| && Fires(rules[Origins(rules, text)[j]], text)
  {
    OriginsFire(rules, text);
    OriginsBounded(rules, text);
    var ix := Origins(rules, text);
    forall j | 0 <= j < |ix| ensures ix[j] < |rules| && Fires(rules[ix[j]], text) {
      assert ix[j] in ix;
    }
  }

  /** A lone firing rule `k` is the only origin. */
  lemma OnlyOrigin(rules: seq<Rule>, text: string, k: nat)
    requires k < |rules| && Fires(rules[k], text)
    requires forall i :: 0 <= i < |rules| && i != k ==> !Fires(rules[i], text)
    ensures Origins(rules, text) == [k]
  {
    OriginsAmong(rules, text, k);
    OriginsIncreasing(rules, text);
    IncreasingConstant(Origins(rules, text), k);
  }

  /** Two firing rules `a < b`, and no other, are the origins in that order. */
  lemma TwoOrigins(rules: seq<Rule>, text: string, a: nat, b: nat)
    requires a < b < |rules| && Fires(rules[a], text) && Fires(rules[b], text)
    requires forall i :: 0 <= i < |rules| && i != a && i != b ==> !Fires(rules[i], text)
    ensures Origins(rules, text) == [a, b]
  {
    OriginsAmong(rules, text, a);
    OriginsAmong(rules, text, b);
    OriginsIncreasing(rules, text);
    IncreasingPair(Origins(rules, text), a, b);
  }

  predicate SortedByPriority(fs: seq<Finding>)
  {
    forall i, j :: 0 <= i < j < |fs| ==> fs[i].priority <= fs[j].priority
  }

  /** Puts `x` after every element whose priority is not above its own. */
  function Insert(x: Finding, s: seq<Finding>): (r: seq<Finding>)
    ensures multiset(r) == multiset(s) + multiset{x}
    ensures |r| == |s| + 1
    ensures SortedByPriority(s) ==> SortedByPriority(r)
    decreases |s|
  {
    if s == [] then [x]
    else if x.priority < s[0].priority then [x] + s
    else
      var rest := Insert(x, s[1..]);
      assert s == [s[0]] + s[1..];
      InsertSorted(x, s, rest);
      [s[0]] + rest
  }

  /** The step of `Insert` that keeps the list sorted. */
  lemma InsertSorted(x: Finding, s: seq<Finding>, rest: seq<Finding>)
    requires s != [] && s[0].priority <= x.priority
    requires multiset(rest) == multiset(s[1..]) + multiset{x}
    requires SortedByPriority(s[1..]) ==> SortedByPriority(rest)
    ensures SortedByPriority(s) ==> SortedByPriority([s[0]] + rest)
  {
    if SortedByPriority(s) {
      forall k | 0 <= k < |rest| ensures s[0].priority <= rest[k].priority {
        assert rest[k] in multiset(rest);
        if rest[k] != x {
          assert rest[k] in multiset(s[1..]);
          var m :| 0 <= m < |s[1..]| && s[1..][m] == rest[k];
          assert s[m + 1] == rest[k];
        }
      }
      assert SortedByPriority(rest);
    }
  }

  /**
   * `findings.sort(key=lambda x: x["priority"])`: a stable sort, taken here
   * as insertion of each element, in list order, behind all elements of no
   * greater priority.
   */
  function SortByPriority(fs: seq<Finding>): (r: seq<Finding>)
    ensures multiset(r) == multiset(fs)
    ensures |r| == |fs|
    ensures SortedByPriority(r)
    decreases |fs|
  {
    if fs == [] then []
    else
      assert fs == fs[..|fs| - 1] + [fs[|fs| - 1]];
      Insert(fs[|fs| - 1], SortByPriority(fs[..|fs| - 1]))
  }

  /** Along the list, findings of equal priority have increasing `rank`. */
  predicate StableWrt(fs: seq<Finding>, rank: Finding -> int)
  {
    forall i, j :: 0 <= i < j < |fs| && fs[i].priority == fs[j].priority ==> rank(fs[i]) < rank(fs[j])
  }

  lemma {:induction false} InsertStable(x: Finding, s: seq<Finding>, rank: Finding -> int)
    requires SortedByPriority(s) && StableWrt(s, rank)
    requires forall k :: 0 <= k < |s| ==> rank(s[k]) < rank(x)
    ensures StableWrt(Insert(x, s), rank)
    decreases |s|
  {
    if s != [] && x.priority >= s[0].priority {
      var rest := Insert(x, s[1..]);
      InsertStable(x, s[1..], rank);
      assert Insert(x, s) == [s[0]] + rest;
      forall k | 0 <= k < |rest| && s[0].priority == rest[k].priority
        ensures rank(s[0]) < rank(rest[k])
      {
        assert rest[k] in multiset(rest);
        assert rest[k] in multiset(s[1..]) + multiset{x};
        if rest[k] != x {
          assert rest[k] in s[1..];
          var m :| 0 <= m < |s[1..]| && s[1..][m] == rest[k];
          assert s[m + 1] == rest[k];
        }
      }
    }
  }

  /**
   * Stability: when the input is strictly increasing in `rank` (the
   * catalogue position, for the findings list), findings of equal priority
   * keep that order after sorting.
   */
  lemma {:induction false} SortStable(fs: seq<Finding>, rank: Finding -> int)
    requires forall i, j :: 0 <= i < j < |fs| ==> rank(fs[i]) < rank(fs[j])
    ensures StableWrt(SortByPriority(fs), rank)
    decreases |fs|
  {
    if fs != [] {
      var n := |fs| - 1;
      var prefix := fs[..n];
      var sorted := SortByPriority(prefix);
      SortStable(prefix, rank);
      forall k | 0 <= k < |sorted| ensures rank(sorted[k]) < rank(fs[n]) {
        assert sorted[k] in multiset(sorted);
        assert sorted[k] in prefix;
      }
      InsertStable(fs[n], sorted, rank);
    }
  }

  /** A list already in priority order is left as it is. */
  lemma {:induction false} SortOfSorted(fs: seq<Finding>)
    requires SortedByPriority(fs)
    ensures SortByPriority(fs) == fs
    decreases |fs|
  {
    if fs != [] {
      var n := |fs| - 1;
      var p := fs[..n];
      SortedSplit(fs, p);
      calc {
        SortByPriority(fs);
        Insert(fs[n], SortByPriority(p));
        { SortOfSorted(p); }
        Insert(fs[n], p);
        { InsertLast(fs[n], p); }
        p + [fs[n]];
        { assert fs == p + [fs[n]]; }
        fs;
      }
    }
  }

  /** The prefix of a sorted list is sorted and no more urgent than its last element. */
  lemma SortedSplit(fs: seq<Finding>, p: seq<Finding>)
    requires SortedByPriority(fs) && fs != [] && p == fs[..|fs| - 1]
    ensures SortedByPriority(p)
    ensures forall k :: 0 <= k < |p| ==> p[k].priority <= fs[|fs| - 1].priority
  {
    assert forall k :: 0 <= k < |p| ==> p[k] == fs[k];
  }

  /** An element of no smaller priority than all others goes to the end. */
  lemma {:induction false} InsertLast(x: Finding, s: seq<Finding>)
    requires forall k :: 0 <= k < |s| ==> s[k].priority <= x.priority
    ensures Insert(x, s) == s + [x]
    decreases |s|
  {
    if s != [] {
      InsertLast(x, s[1..]);
      assert s == [s[0]] + s[1..];
    }
  }

  /** The corpus of the example below: the database rule's two literals on either side of a carriage return. */
  const CR_SPLIT_TEXT: string := "Access denied for user \r@'localhost'"

  /**
   * The rule can fire while no single line matches: the `.*` of the
   * database rule crosses a carriage return, which `splitlines()` treats as
   * a line boundary, so the finding is reported with an empty snippet.
   */
  lemma EvidenceCanBeEmpty()
    ensures Fires(RULES[4], CR_SPLIT_TEXT)
    ensures FindingOf(RULES[4], CR_SPLIT_TEXT).evidenceSnippet == ""
  {
    CrSplitFires();
    CrSplitNoLine();
  }

  lemma CrSplitFires()
    ensures Search(RULES[4].pattern, CR_SPLIT_TEXT)
  {
    var first, second := "Access denied for user ", "@'localhost'";
    assert RULES[4].pattern.alternatives[0] == [first, second];
    assert CR_SPLIT_TEXT == first + "\r" + second;
    TwoPiecesAcross(RULES[4].pattern, 0, first, "\r", second);
  }

  lemma CrSplitNoLine()
    ensures Snippet(CR_SPLIT_TEXT, RULES[4].pattern, EVIDENCE_WINDOW) == ""
  {
    assert |CR_SPLIT_TEXT| == 36 && IsLineBreak(CR_SPLIT_TEXT[23]);
    ShortLinesNoSnippet(CR_SPLIT_TEXT, RULES[4].pattern, EVIDENCE_WINDOW);
  }

  /**
   * In a 36-character text broken at index 23 no line is long enough for
   * the database rule, whose alternatives need 35 and 32 characters.
   */
  lemma ShortLinesNoSnippet(text: string, p: Pattern, w: nat)
    requires |text| == 36 && IsLineBreak(text[23])
    requires p == RULES[4].pattern
    ensures Snippet(text, p, w) == ""
  {
    var lines := SplitLines(text);
    assert TotalLength(p.alternatives[0]) == 35;
    assert TotalLength(p.alternatives[1]) == 32;
    forall j | 0 <= j < |lines| ensures !Search(p, lines[j]) {
      LineShort(text, j);
      if Search(p, lines[j]) {
        SearchLength(p, lines[j]);
      }
    }
  }

  /** Every line of such a text is at most 23 characters long. */
  lemma LineShort(text: string, j: nat)
    requires |text| == 36 && IsLineBreak(text[23])
    requires j < |SplitLines(text)|
    ensures |SplitLines(text)[j]| <= 23
  {
    var line := SplitLines(text)[j];
    var at := LineOffset(text, j);
  }
}
