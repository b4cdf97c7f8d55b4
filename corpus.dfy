/**
 * The evidence corpus: every text artifact of the bundle, in discovery order,
 * each behind a header naming it, joined into one searchable text.
 */
module Corpus {

  import opened Wrappers
  import opened Text

  /**
   * One discovered `*.txt` file: its base name and its decoded text, or `None`
   * when reading it raised. The files arrive in sorted path order.
   */
  datatype Artifact = Artifact(name: string, content: Option<string>)

  function Header(name: string): (h: string)
  {
    "\n===== " + name + " =====\n"
  }

  /** What one artifact appends to the parts list: its header, then its text if it was read. */
  function ArtifactParts(a: Artifact): (parts: seq<string>)
  {
    [Header(a.name)] + (match a.content case Some(c) => [c] case None => [])
  }

  /** The parts list after the loop has visited every artifact. */
  function Parts(arts: seq<Artifact>): (parts: seq<string>)
    decreases |arts|
  {
    if arts == [] then []
    else Parts(arts[..|arts| - 1]) + ArtifactParts(arts[|arts| - 1])
  }

  /**
   * `read_all_texts`: builds the parts list one artifact at a time; a failed
   * read leaves the header it already appended in place. The parts are then
   * joined with line feeds.
   */
  method ReadAllTexts(arts: seq<Artifact>) returns (text: string)
    ensures text == Join("\n", Parts(arts))
    ensures arts == [] ==> text == ""
  {
    var parts: seq<string> := [];
    var i := 0;
    while i < |arts|
      invariant 0 <= i <= |arts|
      invariant parts == Parts(arts[..i])
    {
      assert arts[..i + 1][..i] == arts[..i];
      parts := parts + [Header(arts[i].name)];
      match arts[i].content {
        case Some(c) => parts := parts + [c];
        case None =>
      }
      i := i + 1;
    }
    assert arts[..|arts|] == arts;
    text := Join("\n", parts);
  }

  lemma {:induction false} PartsConcat(a: seq<Artifact>, b: seq<Artifact>)
    ensures Parts(a + b) == Parts(a) + Parts(b)
    decreases |b|
  {
    if b == [] {
      assert a + b == a;
    } else {
      assert (a + b)[..|a + b| - 1] == a + b[..|b| - 1];
      assert (a + b)[|a + b| - 1] == b[|b| - 1];
      PartsConcat(a, b[..|b| - 1]);
    }
  }

  /** Every artifact contributes at least its header. */
  lemma {:induction false} PartsNonEmpty(arts: seq<Artifact>)
    ensures |Parts(arts)| >= |arts|
    decreases |arts|
  {
    if arts != [] {
      PartsNonEmpty(arts[..|arts| - 1]);
    }
  }

  /** The text one artifact contributes: its header, then a line feed and its text if it was read. */
  function ArtifactText(a: Artifact): (t: string)
  {
    Header(a.name) + (match a.content case Some(c) => "\n" + c case None => "")
  }

  lemma JoinArtifactParts(a: Artifact)
    ensures Join("\n", ArtifactParts(a)) == ArtifactText(a)
  {
    match a.content {
      case Some(c) => JoinSnoc("\n", [Header(a.name)], c);
      case None =>
    }
  }

  /**
   * Where artifact `k` sits in the corpus: after everything before it and a
   * line feed, its header, then a line feed and its text when it was read,
   * then a line feed and everything after it.
   */
  lemma ArtifactInCorpus(arts: seq<Artifact>, k: nat)
    requires k < |arts|
    ensures Join("\n", Parts(arts)) ==
      (if k == 0 then "" else Join("\n", Parts(arts[..k])) + "\n")
      + ArtifactText(arts[k])
      + (if k + 1 == |arts| then "" else "\n" + Join("\n", Parts(arts[k + 1..])))
  {
    var before, here, after := arts[..k], arts[k], arts[k + 1..];
    assert arts == (before + [here]) + after;
    PartsConcat(before + [here], after);
    PartsConcat(before, [here]);
    assert Parts([here]) == ArtifactParts(here) by {
      assert [here][..0] == [];
    }
    JoinArtifactParts(here);
    PartsNonEmpty(before);
    PartsNonEmpty(after);
    assert Parts(before) == [] <==> k == 0;
    assert Parts(after) == [] <==> k + 1 == |arts|;
    JoinAround("\n", Parts(before), ArtifactParts(here), Parts(after));
  }
}
