/**
 * The human-readable text report: a title, the bundle and host directory,
 * then either a no-match line or the primary finding's headline followed by
 * one numbered block per finding.
 */
module Render {

  import opened Wrappers
  import opened Text
  import opened Rules
  import opened Findings
  import opened Report

  const TITLE: string := "=== TRIAGE REPORT ===\n"
  const NO_MATCH: string := "No known patterns matched.\n"

  /** The step list `[f"  - {v}" for v in steps]`: one bulleted line per step, in order. */
  function BulletLines(steps: seq<string>): (ls: seq<string>)
    ensures |ls| == |steps|
    ensures forall j :: 0 <= j < |steps| ==> ls[j] == "  - " + steps[j]
    decreases |steps|
  {
    if steps == [] then []
    else BulletLines(steps[..|steps| - 1]) + ["  - " + steps[|steps| - 1]]
  }

  /** The bulleted lines joined with line feeds. */
  function Bullets(steps: seq<string>): (b: string)
  {
    Join("\n", BulletLines(steps))
  }

  /**
   * The text file is modelled as the list of pieces handed to `f.write`, in
   * order; the file's content is their concatenation.
   */
  function Content(writes: seq<string>): (c: string)
  {
    Join("", writes)
  }

  /** The five writes for the finding numbered `n`. */
  function BlockWrites(n: nat, f: Finding): (ws: seq<string>)
  {
    [ "[" + Decimal(n) + "] " + f.ruleId + " " + f.severity.Label() + "\n",
      "Cause: " + f.rootCause + "\n",
      "Verify:\n" + Bullets(f.verifySteps) + "\n",
      "Fix:\n" + Bullets(f.fixSteps) + "\n",
      "Evidence snippet:\n" + f.evidenceSnippet + "\n\n" ]
  }

  /** The block of text for the finding numbered `n`. */
  function Block(n: nat, f: Finding): (b: string)
  {
    Content(BlockWrites(n, f))
  }

  /** The writes for the blocks of `fs`, numbered consecutively from `first`. */
  function BlocksWrites(fs: seq<Finding>, first: nat): (ws: seq<string>)
    decreases |fs|
  {
    if fs == [] then []
    else BlocksWrites(fs[..|fs| - 1], first) + BlockWrites(first + |fs| - 1, fs[|fs| - 1])
  }

  /** The text of the blocks of `fs`, numbered consecutively from `first`. */
  function Blocks(fs: seq<Finding>, first: nat): (b: string)
  {
    Content(BlocksWrites(fs, first))
  }

  /** The bundle and host-directory lines. */
  function BundleLines(r: Report): (b: string)
  {
    "Bundle: " + r.bundle + "\nHostDir: " + r.hostdir + "\n\n"
  }

  /** The title and the bundle and host-directory lines. */
  function Preamble(r: Report): (pre: string)
  {
    TITLE + BundleLines(r)
  }

  /** The two headline lines naming the primary finding. */
  function Headline(pf: Finding): (h: string)
  {
    "Primary: " + pf.ruleId + " (" + pf.severity.Label() + ")\nCause: " + pf.rootCause + "\n\n"
  }

  /**
   * Every write of the text report. When there are findings, the headline is
   * taken from the report's primary finding, which must then be present.
   */
  function Writes(r: Report): (ws: seq<string>)
    requires r.findings != [] ==> r.primaryFinding.Some?
  {
    [TITLE, BundleLines(r)]
    + if r.findings == [] then [NO_MATCH] else [Headline(r.primaryFinding.value)] + BlocksWrites(r.findings, 1)
  }

  /** The content of the text report. */
  function Rendered(r: Report): (text: string)
    requires r.findings != [] ==> r.primaryFinding.Some?
  {
    Content(Writes(r))
  }

  /** A report as the analysis builds it: the primary finding is the head of the list. */
  predicate Coherent(r: Report)
  {
    r.primaryFinding == Primary(r.findings)
  }

  /** One more write adds its piece at the end of the content. */
  lemma ContentSnoc(ws: seq<string>, x: string)
    ensures Content(ws + [x]) == Content(ws) + x
  {
    JoinSnoc("", ws, x);
    if ws != [] {
      assert Join("", ws) + "" == Join("", ws);
    }
  }

  /**
   * The report writer: the title, the bundle lines, then the no-match line
   * or the headline and, for each finding in turn, its five writes. The
   * returned text is the file's content; `written` follows the writes.
   */
  method RenderText(r: Report) returns (text: string)
    requires r.findings != [] ==> r.primaryFinding.Some?
    ensures text == Rendered(r)
  {
    ghost var written: seq<string> := [];
    text := "";
    text, written := Write(text, written, TITLE);
    text, written := Write(text, written, "Bundle: " + r.bundle + "\nHostDir: " + r.hostdir + "\n\n");
    if r.findings == [] {
      text, written := Write(text, written, NO_MATCH);
    } else {
      var pf := r.primaryFinding.value;
      text, written := Write(text, written, "Primary: " + pf.ruleId + " (" + pf.severity.Label() + ")\nCause: " + pf.rootCause + "\n\n");
      text, written := WriteBlocks(text, written, r.findings);
    }
    assert written == Writes(r);
  }

  /** For each finding in turn, numbered from 1, its five writes. */
  method WriteBlocks(text: string, ghost written: seq<string>, fs: seq<Finding>) returns (text': string, ghost written': seq<string>)
    requires text == Content(written)
    ensures written' == written + BlocksWrites(fs, 1)
    ensures text' == Content(written')
  {
    text', written' := text, written;
    var i := 0;
    while i < |fs|
      invariant 0 <= i <= |fs|
      invariant text' == Content(written')
      invariant written' == written + BlocksWrites(fs[..i], 1)
    {
      ghost var before := written';
      text', written' := WriteBlock(text', written', i + 1, fs[i]);
      BlocksWritesSnoc(fs, i);
      AppendAssoc(written, BlocksWrites(fs[..i], 1), BlockWrites(i + 1, fs[i]));
      i := i + 1;
    }
    assert fs[..i] == fs;
  }

  /** The five writes of the block numbered `n` for finding `it`. */
  method WriteBlock(text: string, ghost written: seq<string>, n: nat, it: Finding) returns (text': string, ghost written': seq<string>)
    requires text == Content(written)
    ensures written' == written + BlockWrites(n, it)
    ensures text' == Content(written')
  {
    text', written' := Write(text, written, "[" + Decimal(n) + "] " + it.ruleId + " " + it.severity.Label() + "\n");
    text', written' := Write(text', written', "Cause: " + it.rootCause + "\n");
    text', written' := Write(text', written', "Verify:\n" + Join("\n", BulletLines(it.verifySteps)) + "\n");
    text', written' := Write(text', written', "Fix:\n" + Join("\n", BulletLines(it.fixSteps)) + "\n");
    text', written' := Write(text', written', "Evidence snippet:\n" + it.evidenceSnippet + "\n\n");
  }

  /** `f.write(piece)`: the piece is appended to the file. */
  method Write(text: string, ghost written: seq<string>, piece: string) returns (text': string, ghost written': seq<string>)
    requires text == Content(written)
    ensures written' == written + [piece]
    ensures text' == Content(written') && text' == text + piece
  {
    text' := text + piece;
    written' := written + [piece];
    ContentSnoc(written, piece);
  }

  lemma AppendAssoc(a: seq<string>, b: seq<string>, c: seq<string>)
    ensures (a + b) + c == a + (b + c)
  {
  }

  /** One more finding adds its block's writes, numbered after the others. */
  lemma BlocksWritesSnoc(fs: seq<Finding>, i: nat)
    requires i < |fs|
    ensures BlocksWrites(fs[..i + 1], 1) == BlocksWrites(fs[..i], 1) + BlockWrites(i + 1, fs[i])
  {
    assert fs[..i + 1][..i] == fs[..i] && fs[..i + 1][i] == fs[i];
  }

  /** The writes for a concatenation: the second list's numbering continues after the first's. */
  lemma {:induction false} BlocksWritesConcat(a: seq<Finding>, b: seq<Finding>, first: nat)
    ensures BlocksWrites(a + b, first) == BlocksWrites(a, first) + BlocksWrites(b, first + |a|)
    decreases |b|
  {
    if b == [] {
      assert a + b == a;
    } else {
      var b', x := b[..|b| - 1], b[|b| - 1];
      var last := BlockWrites(first + |a| + |b| - 1, x);
      assert (a + b)[..|a + b| - 1] == a + b' && (a + b)[|a + b| - 1] == x;
      assert BlocksWrites(a + b, first) == BlocksWrites(a + b', first) + last;
      assert BlocksWrites(b, first + |a|) == BlocksWrites(b', first + |a|) + last;
      BlocksWritesConcat(a, b', first);
      AppendAssoc(BlocksWrites(a, first), BlocksWrites(b', first + |a|), last);
    }
  }

  /**
   * Blocks appear in list order: the `k`-th finding (from zero) is the block
   * numbered `k + 1`, after the blocks of the findings before it and before
   * the blocks of those after it.
   */
  lemma EachFindingPrinted(fs: seq<Finding>, k: nat)
    requires k < |fs|
    ensures Blocks(fs, 1) == Blocks(fs[..k], 1) + Block(k + 1, fs[k]) + Blocks(fs[k + 1..], k + 2)
  {
    assert fs == fs[..k] + ([fs[k]] + fs[k + 1..]);
    BlocksWritesConcat(fs[..k], [fs[k]] + fs[k + 1..], 1);
    BlocksWritesConcat([fs[k]], fs[k + 1..], 1 + k);
    assert BlocksWrites([fs[k]], 1 + k) == BlockWrites(k + 1, fs[k]) by {
      assert [fs[k]][..0] == [];
    }
    ConcatJoin(BlocksWrites(fs[..k], 1), BlocksWrites([fs[k]] + fs[k + 1..], 1 + k));
    ConcatJoin(BlockWrites(k + 1, fs[k]), BlocksWrites(fs[k + 1..], k + 2));
  }

  /**
   * The content of the text report: with no findings, the no-match line
   * after the preamble; otherwise the primary finding's headline and the
   * numbered blocks.
   */
  lemma RenderedLayout(r: Report)
    requires r.findings != [] ==> r.primaryFinding.Some?
    ensures r.findings == [] ==> Rendered(r) == Preamble(r) + NO_MATCH
    ensures r.findings != [] ==> Rendered(r) == Preamble(r) + Headline(r.primaryFinding.value) + Blocks(r.findings, 1)
  {
    var pre := [TITLE, BundleLines(r)];
    ContentSnoc([TITLE], pre[1]);
    assert [TITLE] + [pre[1]] == pre;
    assert Content([TITLE]) == TITLE;
    if r.findings == [] {
      ContentSnoc(pre, NO_MATCH);
    } else {
      var hl := Headline(r.primaryFinding.value);
      ContentSnoc(pre, hl);
      ConcatJoin(pre + [hl], BlocksWrites(r.findings, 1));
      assert Writes(r) == (pre + [hl]) + BlocksWrites(r.findings, 1);
    }
  }

  /**
   * For a report built by the analysis, the text opens with the preamble and
   * then the headline of the head of the findings list, the most urgent one.
   */
  lemma HeadlineNamesFirst(r: Report)
    requires Coherent(r) && r.findings != []
    ensures StartsWith(Rendered(r), Preamble(r) + Headline(r.findings[0]))
  {
    RenderedLayout(r);
    var p := Preamble(r) + Headline(r.findings[0]);
    assert Rendered(r) == p + Blocks(r.findings, 1);
    assert Rendered(r)[..|p|] == p;
  }

  /** A block opens with its number in brackets, which reads back as that number. */
  lemma BlockNumber(n: nat, f: Finding)
    ensures Block(n, f)[0] == '['
    ensures 1 + |Decimal(n)| < |Block(n, f)| && Block(n, f)[1 + |Decimal(n)|] == ']'
    ensures Block(n, f)[1..1 + |Decimal(n)|] == Decimal(n) && ParseDecimal(Block(n, f)[1..1 + |Decimal(n)|]) == n
  {
    var ws := BlockWrites(n, f);
    var d := Decimal(n);
    var w0 := ws[0];
    assert ws == [w0] + ws[1..];
    ConcatJoin([w0], ws[1..]);
    var b := Block(n, f);
    assert b == w0 + Content(ws[1..]);
    assert w0 == "[" + d + ("] " + f.ruleId + " " + f.severity.Label() + "\n");
    assert b[0] == w0[0] == '[';
    assert b[1..1 + |d|] == w0[1..1 + |d|] == d;
    assert b[1 + |d|] == w0[1 + |d|] == ']';
    ParseDecimalOfDecimal(n);
  }

  /** Bulleted lines are non-empty, and free of boundaries when the steps are. */
  lemma BulletLinesPlain(steps: seq<string>)
    requires forall j :: 0 <= j < |steps| ==> NoLineBreak(steps[j])
    ensures forall j :: 0 <= j < |steps| ==> NoLineBreak(BulletLines(steps)[j]) && BulletLines(steps)[j] != ""
  {
    var ls := BulletLines(steps);
    assert NoLineBreak("  - ");
    forall j | 0 <= j < |steps| ensures NoLineBreak(ls[j]) && ls[j] != "" {
      NoLineBreakConcat("  - ", steps[j]);
    }
  }

  /** Steps without line boundaries read back from the bulleted list one line per step. */
  lemma BulletsReadBack(steps: seq<string>)
    requires forall j :: 0 <= j < |steps| ==> NoLineBreak(steps[j])
    ensures SplitLines(Bullets(steps)) == BulletLines(steps)
    ensures forall j :: 0 <= j < |steps| ==> SplitLines(Bullets(steps))[j] == "  - " + steps[j]
  {
    BulletLinesPlain(steps);
    SplitJoin(BulletLines(steps));
  }

  /** The text report of an empty bundle, whatever its path and host directory. */
  lemma EmptyBundleText(bundle: string, hostdir: string, generatedAt: string)
    ensures Writes(Report(bundle, hostdir, generatedAt, Ranked(RULES, ""), Primary(Ranked(RULES, "")))) ==
      ["=== TRIAGE REPORT ===\n", "Bundle: " + bundle + "\nHostDir: " + hostdir + "\n\n", "No known patterns matched.\n"]
  {
    EmptyBundle();
  }
}
