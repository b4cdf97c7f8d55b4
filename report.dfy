/**
 * Report assembly: the findings loop over the catalogue, the priority sort
 * and the choice of the primary finding.
 */
module Report {

  import opened Wrappers
  import opened Patterns
  import opened Rules
  import opened Evidence
  import opened Findings

  /**
   * One run's report. The generation time is wall-clock time and arrives as
   * a parameter, like the bundle path and the host directory's name.
   */
  datatype Report = Report(
    bundle: string,
    hostdir: string,
    generatedAt: string,
    findings: seq<Finding>,
    primaryFinding: Option<Finding>)

  /** `findings[0] if findings else None`. */
  function Primary(fs: seq<Finding>): (pf: Option<Finding>)
  {
    if fs == [] then None else Some(fs[0])
  }

  /** The report's findings for a corpus: collected in catalogue order, then sorted by priority. */
  function Ranked(rules: seq<Rule>, text: string): (fs: seq<Finding>)
  {
    SortByPriority(Collect(rules, text))
  }

  /** The catalogue position of a finding's rule. */
  function Rank(rules: seq<Rule>, f: Finding): (k: int)
  {
    IndexOf(rules, f.ruleId)
  }

  /**
   * The aggregation: for each rule in catalogue order, when its pattern
   * occurs in the corpus, append a finding with the rule's fields and the
   * evidence around the first matching line; sort by priority; the primary
   * finding is the head of the sorted list.
   */
  method Analyze(bundle: string, hostdir: string, generatedAt: string, text: string) returns (report: Report)
    ensures report == Report(bundle, hostdir, generatedAt, Ranked(RULES, text), Primary(Ranked(RULES, text)))
    ensures SortedByPriority(report.findings)
    ensures multiset(report.findings) == multiset(Collect(RULES, text))
    ensures report.findings == [] <==> report.primaryFinding == None
    ensures report.primaryFinding.Some? ==>
      forall j :: 0 <= j < |report.findings| ==> report.primaryFinding.value.priority <= report.findings[j].priority
  {
    var findings := CollectFindings(RULES, text);
    findings := SortByPriority(findings);
    report := Report(bundle, hostdir, generatedAt, findings, if findings == [] then None else Some(findings[0]));
  }

  /** The loop over the catalogue: each rule that fires contributes its finding, in catalogue order. */
  method CollectFindings(rules: seq<Rule>, text: string) returns (findings: seq<Finding>)
    ensures findings == Collect(rules, text)
  {
    findings := [];
    var i := 0;
    while i < |rules|
      invariant 0 <= i <= |rules|
      invariant findings == Collect(rules[..i], text)
    {
      CollectStep(rules, i, text);
      var r := rules[i];
      if Search(r.pattern, text) {
        var snippet := ExtractSnippet(text, r.pattern, EVIDENCE_WINDOW);
        findings := findings + [Finding(r.id, r.priority, r.severity, r.cause, r.verify, r.fix, snippet)];
      }
      i := i + 1;
    }
    assert rules[..|rules|] == rules;
  }

  /** Before sorting, the findings are strictly increasing in catalogue position. */
  lemma CollectRanked(rules: seq<Rule>, text: string)
    requires UniqueIds(rules)
    ensures forall i, j :: 0 <= i < j < |Collect(rules, text)| ==>
      Rank(rules, Collect(rules, text)[i]) < Rank(rules, Collect(rules, text)[j])
    ensures forall j :: 0 <= j < |Collect(rules, text)| ==>
      Rank(rules, Collect(rules, text)[j]) < |rules| &&
      Collect(rules, text)[j] == FindingOf(rules[Rank(rules, Collect(rules, text)[j])], text)
  {
    CollectOrigins(rules, text);
    var fs, ix := Collect(rules, text), Origins(rules, text);
    forall j | 0 <= j < |fs| ensures Rank(rules, fs[j]) == ix[j] {
      IndexOfId(rules, ix[j]);
    }
  }

  /** Every reported finding is the finding of a rule that fires, with that rule's fields unchanged. */
  lemma RankedFaithful(rules: seq<Rule>, text: string)
    requires UniqueIds(rules)
    ensures forall j :: 0 <= j < |Ranked(rules, text)| ==>
      Rank(rules, Ranked(rules, text)[j]) < |rules| && Fires(rules[Rank(rules, Ranked(rules, text)[j])], text) &&
      Ranked(rules, text)[j] == FindingOf(rules[Rank(rules, Ranked(rules, text)[j])], text)
  {
    CollectRanked(rules, text);
    CollectOrigins(rules, text);
    var fs, rs, ix := Collect(rules, text), Ranked(rules, text), Origins(rules, text);
    forall j | 0 <= j < |rs|
      ensures Rank(rules, rs[j]) < |rules| && Fires(rules[Rank(rules, rs[j])], text)
      ensures rs[j] == FindingOf(rules[Rank(rules, rs[j])], text)
    {
      assert rs[j] in multiset(rs);
      var m :| 0 <= m < |fs| && fs[m] == rs[j];
      assert ix[m] in ix;
      IndexOfId(rules, ix[m]);
    }
  }

  /** A rule's finding is reported exactly when the rule fires. */
  lemma RankedComplete(rules: seq<Rule>, text: string)
    requires UniqueIds(rules)
    ensures forall k :: 0 <= k < |rules| ==> (Fires(rules[k], text) <==> FindingOf(rules[k], text) in Ranked(rules, text))
  {
    RankedFaithful(rules, text);
    CollectOrigins(rules, text);
    var fs, rs, ix := Collect(rules, text), Ranked(rules, text), Origins(rules, text);
    forall k | 0 <= k < |rules| ensures Fires(rules[k], text) <==> FindingOf(rules[k], text) in rs {
      if Fires(rules[k], text) {
        var m :| 0 <= m < |ix| && ix[m] == k;
        assert fs[m] in multiset(fs);
        assert fs[m] in multiset(rs);
      }
      if FindingOf(rules[k], text) in rs {
        var j :| 0 <= j < |rs| && rs[j] == FindingOf(rules[k], text);
        IndexOfId(rules, k);
      }
    }
  }

  /** Findings of equal priority appear in catalogue order. */
  lemma RankedStable(rules: seq<Rule>, text: string)
    requires UniqueIds(rules)
    ensures forall i, j :: 0 <= i < j < |Ranked(rules, text)| && Ranked(rules, text)[i].priority == Ranked(rules, text)[j].priority ==>
      Rank(rules, Ranked(rules, text)[i]) < Rank(rules, Ranked(rules, text)[j])
  {
    CollectRanked(rules, text);
    SortStable(Collect(rules, text), f => Rank(rules, f));
  }

  /** No rule contributes two findings. */
  lemma AtMostOnePerRule(rules: seq<Rule>, text: string)
    requires UniqueIds(rules)
    ensures forall i, j :: 0 <= i < |Ranked(rules, text)| && 0 <= j < |Ranked(rules, text)| ==>
      (Ranked(rules, text)[i].ruleId == Ranked(rules, text)[j].ruleId ==> i == j)
  {
    RankedFaithful(rules, text);
    RankedStable(rules, text);
  }

  /** The primary finding has the least priority of all; there is none exactly when no rule fires. */
  lemma PrimaryMostUrgent(rules: seq<Rule>, text: string)
    requires UniqueIds(rules)
    ensures Primary(Ranked(rules, text)).Some? ==>
      forall j :: 0 <= j < |Ranked(rules, text)| ==> Primary(Ranked(rules, text)).value.priority <= Ranked(rules, text)[j].priority
    ensures Primary(Ranked(rules, text)) == None <==> forall k :: 0 <= k < |rules| ==> !Fires(rules[k], text)
  {
    RankedFaithful(rules, text);
    RankedComplete(rules, text);
    var rs := Ranked(rules, text);
    if rs != [] {
      assert Fires(rules[Rank(rules, rs[0])], text);
    }
  }

  /** An empty bundle (an empty corpus) gives no findings and no primary finding. */
  lemma EmptyCorpus(rules: seq<Rule>)
    requires UniqueIds(rules)
    requires forall k :: 0 <= k < |rules| ==> WellFormed(rules[k].pattern)
    ensures Ranked(rules, "") == [] && Primary(Ranked(rules, "")) == None
  {
    forall k | 0 <= k < |rules| ensures !Fires(rules[k], "") {
      if Fires(rules[k], "") {
        SearchNonEmpty(rules[k].pattern, "");
      }
    }
    PrimaryMostUrgent(rules, "");
  }

  /** When exactly rule `k` fires, its finding is the whole report. */
  lemma OnlyOneFires(rules: seq<Rule>, text: string, k: nat)
    requires k < |rules| && Fires(rules[k], text)
    requires forall i :: 0 <= i < |rules| && i != k ==> !Fires(rules[i], text)
    ensures Ranked(rules, text) == [FindingOf(rules[k], text)]
    ensures Primary(Ranked(rules, text)) == Some(FindingOf(rules[k], text))
  {
    OnlyOrigin(rules, text, k);
    CollectOrigins(rules, text);
    var fs := Collect(rules, text);
    assert fs == [FindingOf(rules[k], text)];
    SortOfSorted(fs);
  }

  /** When exactly rules `a < b` fire and `a` is no less urgent, the report lists `a` then `b`. */
  lemma OnlyTwoFire(rules: seq<Rule>, text: string, a: nat, b: nat)
    requires a < b < |rules| && Fires(rules[a], text) && Fires(rules[b], text)
    requires rules[a].priority <= rules[b].priority
    requires forall i :: 0 <= i < |rules| && i != a && i != b ==> !Fires(rules[i], text)
    ensures Ranked(rules, text) == [FindingOf(rules[a], text), FindingOf(rules[b], text)]
    ensures Primary(Ranked(rules, text)) == Some(FindingOf(rules[a], text))
  {
    TwoOrigins(rules, text, a, b);
    CollectOrigins(rules, text);
    var fs := Collect(rules, text);
    assert fs == [FindingOf(rules[a], text), FindingOf(rules[b], text)];
    SortOfSorted(fs);
  }

  /** The catalogue's own empty-bundle outcome. */
  lemma EmptyBundle()
    ensures Ranked(RULES, "") == [] && Primary(Ranked(RULES, "")) == None
  {
    CatalogueValid();
    EmptyCorpus(RULES);
  }

  /**
   * A corpus on which only the refused-connection rule fires yields exactly
   * that finding, of severity P1, and it is the primary one.
   */
  lemma OnlyRefusedScenario(text: string)
    requires Fires(RULES[1], text)
    requires forall i :: 0 <= i < |RULES| && i != 1 ==> !Fires(RULES[i], text)
    ensures Ranked(RULES, text) == [FindingOf(RULES[1], text)]
    ensures Ranked(RULES, text)[0].ruleId == "NGINX_UPSTREAM_REFUSED" && Ranked(RULES, text)[0].severity == P1
    ensures Primary(Ranked(RULES, text)) == Some(FindingOf(RULES[1], text))
  {
    OnlyOneFires(RULES, text, 1);
  }

  /**
   * A corpus on which only the SELinux rule (priority 10) and the
   * refused-connection rule (priority 30) fire yields both, SELinux first
   * and primary.
   */
  lemma SelinuxAndRefusedScenario(text: string)
    requires Fires(RULES[0], text) && Fires(RULES[1], text)
    requires forall i :: 2 <= i < |RULES| ==> !Fires(RULES[i], text)
    ensures Ranked(RULES, text) == [FindingOf(RULES[0], text), FindingOf(RULES[1], text)]
    ensures Primary(Ranked(RULES, text)) == Some(FindingOf(RULES[0], text))
    ensures Ranked(RULES, text)[0].ruleId == "NGINX_UPSTREAM_SELINUX"
  {
    OnlyTwoFire(RULES, text, 0, 1);
  }

  /** The line the refused-connection signature looks for makes it fire, whatever surrounds it. */
  lemma RefusedLineFires(before: string, after: string)
    ensures Fires(RULES[1], before + "connect() failed (111: Connection refused)" + after)
  {
    var line := "connect() failed (111: Connection refused)";
    var text := before + line + after;
    assert text[|before|..|before| + |line|] == line;
    LiteralFound(RULES[1].pattern, 0, text, |before|);
  }
}
