# Triage analyzer: a verified model

This project models the analysis core of the ops triage assistant's analyzer
(`bin/triage_analyze.py`). The analyzer takes an uploaded diagnostics bundle and:

1. extracts the bundle behind a path-traversal guard;
2. builds one searchable corpus from every `*.txt` artifact, each behind a header line naming the file;
3. tests the corpus against a fixed, ordered catalogue of failure signatures;
4. for each signature that matches, attaches the lines around its first matching line as evidence;
5. sorts the findings by priority (lower is more urgent) and names the head of the list the primary finding;
6. writes a plain-text report.

The Dafny model follows that structure, one module per concern:

- `Text`:
  - Python's `str.join` and `str.splitlines`, with all ten line boundaries and `\r\n` taken as one;
  - `str.startswith`;
  - the decimal form of a number.
- `Patterns`: the shape every catalogue regex has. It is an alternation of literals, some split by `.*`. Matching ignores case (`re.I`), and `.` does not cross a line feed. `Search` is `pattern.search`.
- `Rules`: the seven-entry catalogue, with its identifiers, priorities, severities, patterns, causes and steps copied out.
- `Corpus`: `read_all_texts`, as a loop over the discovered artifacts, which arrive in sorted order. Each artifact is read or failed to read.
- `Evidence`: `extract_snippet`, as a loop over the lines, and the function that specifies it.
- `Findings`:
  - a rule fires, and its finding record;
  - the findings collected in catalogue order;
  - the stable priority sort.
- `Report`:
  - the aggregation loop over the catalogue;
  - the sort;
  - the primary finding.
- `Render`: the text report, modelled as the exact sequence of `f.write` pieces. The file's content is their concatenation.
- `Archive`: `safe_extract`, as a class for the extraction directory. Its method checks every member with the guard as written, a textual prefix test of the resolved target against the base directory. It either raises on the first member that fails the test or extracts all members. A second method is the same extraction with containment by path components, the corrected guard of the finding below.

Inputs from the environment are parameters of the model:

- the bundle path, the host directory name and the timestamp;
- the discovered files' names and decoded contents;
- each tar member's resolved target path.

## Model

| member | source | states |
|---|---|---|
| Rules.CatalogueValid | bin/triage_analyze.py:7-71 | The catalogue has seven signatures with pairwise distinct identifiers, and every pattern's alternatives begin with a non-empty literal. |
| Rules.SelinuxMostUrgent | bin/triage_analyze.py:8-16 | The SELinux signature comes first, with priority 10, strictly more urgent than every other signature. |
| Rules.IndexOf | bin/triage_analyze.py:7-71 | Locating a rule by identifier gives a position holding that identifier, with no earlier rule holding it. |
| Rules.IndexOfId | bin/triage_analyze.py:7-71 | With unique identifiers, a rule's identifier leads back to exactly its position. |
| Rules.Severity.Label | bin/triage_analyze.py:11 | A severity prints as a two-character `P` label. |
| Patterns.Fold | bin/triage_analyze.py:12 | Case-insensitive matching folds an upper-case ASCII letter to the same letter in lower case and leaves lower case alone. |
| Patterns.Upper | bin/triage_analyze.py:12 | ASCII upper-casing turns a lower-case letter into the same letter in upper case and leaves every other character alone. |
| Patterns.FoldLetters | bin/triage_analyze.py:12 | Two ASCII letters fold alike exactly when they are the same letter, whatever their case. |
| Patterns.UpperText | bin/triage_analyze.py:12 | An upper-cased text has the same length, with each character upper-cased. |
| Patterns.FoldUpper | bin/triage_analyze.py:12 | Upper-casing a character does not change how it folds. |
| Patterns.FoldEqUpper | bin/triage_analyze.py:12 | A text upper-cased is equal to the original up to case. |
| Patterns.UpperCaseFound | bin/triage_analyze.py:21 | A one-literal alternative matches its literal written in upper case, whatever text surrounds it. |
| Patterns.ShoutedLiteralFound | bin/triage_analyze.py:21 | The literal `Connection refused` matches the text `CONNECTION REFUSED`. |
| Patterns.SearchNonEmpty | bin/triage_analyze.py:130 | No catalogue-shaped pattern matches the empty string. |
| Patterns.SearchExtends | bin/triage_analyze.py:94-96 | A pattern found in a piece of a text is found in the whole text. |
| Patterns.LiteralFound | bin/triage_analyze.py:130 | A single-literal alternative occurring anywhere in a text, up to case, makes the pattern match. |
| Patterns.TwoPiecesAcross | bin/triage_analyze.py:48 | Two literals joined by `.*` match across any gap free of line feeds. |
| Patterns.SearchLength | bin/triage_analyze.py:96 | A text a pattern matches is at least as long as the literals of one matching alternative. |
| Patterns.FollowsLength | bin/triage_analyze.py:96 | Literals matched in order need at least their total length. |
| Text.LineEnd | bin/triage_analyze.py:94 | The first line boundary, or the end of the string: nothing before it is a boundary. |
| Text.SplitLines | bin/triage_analyze.py:94 | Split lines hold no boundary, and only the empty string has no lines. |
| Text.LineOffset | bin/triage_analyze.py:94 | Every line of `splitlines()` is a contiguous piece of the text. |
| Text.JoinSplitLines | bin/triage_analyze.py:94-99 | For text whose only boundaries are line feeds, none of them last, joining the lines with line feeds gives back the text. |
| Text.SplitJoin | bin/triage_analyze.py:99 | Joining boundary-free lines with line feeds and splitting again gives back the lines, provided the last line is not empty. |
| Text.JoinSnoc | bin/triage_analyze.py:90 | Appending a part to a join adds the separator and the part, except for an empty list. |
| Text.JoinConcat | bin/triage_analyze.py:90 | Joining two non-empty lists puts exactly one separator between their joins. |
| Text.JoinAround | bin/triage_analyze.py:90 | Around a non-empty middle, separators appear only next to non-empty sides. |
| Text.JoinNonEmpty | bin/triage_analyze.py:99 | A join with one non-empty part is non-empty. |
| Text.ConcatJoin | bin/triage_analyze.py:162-174 | Concatenation distributes over lists of writes. |
| Text.Decimal | bin/triage_analyze.py:170 | A number prints as a non-empty string of decimal digits. |
| Text.ParseDecimalOfDecimal | bin/triage_analyze.py:170 | The printed number reads back as the number. |
| Corpus.ReadAllTexts | bin/triage_analyze.py:82-90 | The corpus is the artifacts' parts joined by line feeds. Each artifact gives its header, then its text when the read succeeded. An empty bundle gives the empty corpus. |
| Corpus.ArtifactInCorpus | bin/triage_analyze.py:82-90 | Artifact `k`'s header and text appear in the corpus between everything before it and everything after it, separated by line feeds. |
| Corpus.PartsConcat | bin/triage_analyze.py:84-89 | The parts of a concatenation of artifacts are the parts of each, in order. |
| Corpus.PartsNonEmpty | bin/triage_analyze.py:86 | Every artifact contributes at least its header, even when reading it fails. |
| Corpus.JoinArtifactParts | bin/triage_analyze.py:86-87 | One artifact's parts join to its header, followed by a line feed and its text when it was read. |
| Evidence.FirstMatchFrom | bin/triage_analyze.py:95-96 | The first matching line at or after a position: it matches, and no line before it does. |
| Evidence.ExtractSnippet | bin/triage_analyze.py:93-100 | The loop returns the specification's snippet: `""` when no line matches, and otherwise the lines from `i - window` to `i + window` around the first matching line `i`, clamped and joined by line feeds. |
| Evidence.FirstMatchUnique | bin/triage_analyze.py:95-96 | The first matching line is unique and is the one the search finds. |
| Evidence.SnippetEmptyIff | bin/triage_analyze.py:96-100 | For a catalogue-shaped pattern, the snippet is empty exactly when no line matches. |
| Evidence.SnippetWindow | bin/triage_analyze.py:97-99 | The snippet's window spans at most `2 * window + 1` lines and holds the matching line. It starts `window` lines before that line, or at line 0. It ends `window` lines after it, or at the last line. |
| Evidence.SnippetImpliesSearch | bin/triage_analyze.py:130 | A non-empty snippet means the pattern matches the whole text. |
| Findings.Collect | bin/triage_analyze.py:128-139 | The collected list is no longer than the catalogue. |
| Findings.CollectStep | bin/triage_analyze.py:129-139 | Each turn of the loop appends a rule's finding exactly when the rule fires. |
| Findings.CollectOrigins | bin/triage_analyze.py:128-139 | The collected findings are those of the firing rules, one each, in catalogue order, with fields copied from the rule. A rule fires exactly when its position is among the origins. |
| Findings.CollectAtOrigins | bin/triage_analyze.py:131-139 | The `j`-th collected finding is the finding of the `j`-th firing rule. |
| Findings.OriginsIncreasing | bin/triage_analyze.py:129 | Firing positions are strictly increasing. |
| Findings.OriginsFire | bin/triage_analyze.py:130 | A position is a firing position exactly when its rule fires. |
| Findings.OriginsBounded | bin/triage_analyze.py:129 | Firing positions lie inside the catalogue. |
| Findings.OnlyOrigin | bin/triage_analyze.py:129-130 | When exactly one rule fires, it is the only origin. |
| Findings.TwoOrigins | bin/triage_analyze.py:129-130 | When exactly two rules fire, they are the origins in catalogue order. |
| Findings.Insert | bin/triage_analyze.py:141 | Insertion adds one element, keeps the multiset and keeps a sorted list sorted. |
| Findings.SortByPriority | bin/triage_analyze.py:141 | The sort gives a permutation of the findings in non-decreasing priority. |
| Findings.InsertStable | bin/triage_analyze.py:141 | Inserting an element of later rank behind its equals keeps equal priorities in rank order. |
| Findings.SortStable | bin/triage_analyze.py:141 | The sort is stable: findings of equal priority keep their input order. |
| Findings.SortOfSorted | bin/triage_analyze.py:141 | Sorting a list already in priority order leaves it unchanged. |
| Findings.InsertLast | bin/triage_analyze.py:141 | An element no more urgent than all others is placed last. |
| Findings.EvidenceCanBeEmpty | bin/triage_analyze.py:130-138 | The database rule fires on a corpus whose two literals lie on either side of a carriage return, yet its evidence snippet is empty. |
| Findings.CrSplitFires | bin/triage_analyze.py:48 | That corpus matches the database pattern as a whole. |
| Findings.CrSplitNoLine | bin/triage_analyze.py:94-100 | No line of that corpus matches, so the snippet is empty. |
| Findings.ShortLinesNoSnippet | bin/triage_analyze.py:94-100 | In a 36-character text broken at index 23, the database pattern matches no line, so its snippet is empty. |
| Findings.LineShort | bin/triage_analyze.py:94 | Each line of that text is at most 23 characters long. |
| Report.CollectFindings | bin/triage_analyze.py:128-139 | The loop over the catalogue computes the collected findings in catalogue order. |
| Report.Analyze | bin/triage_analyze.py:128-148 | The report holds the collected findings sorted by priority, as a permutation of them. The primary finding is absent exactly when there are no findings, and is otherwise the head of the list, of least priority. |
| Report.CollectRanked | bin/triage_analyze.py:128-139 | Before sorting, findings are strictly increasing in catalogue position, and each is its rule's finding. |
| Report.RankedFaithful | bin/triage_analyze.py:131-139 | Every reported finding is the unchanged finding of a rule that fires. |
| Report.RankedComplete | bin/triage_analyze.py:129-141 | A rule's finding is reported exactly when the rule fires. |
| Report.RankedStable | bin/triage_analyze.py:141 | Reported findings of equal priority appear in catalogue order. |
| Report.AtMostOnePerRule | bin/triage_analyze.py:129-139 | No rule identifier is reported twice. |
| Report.PrimaryMostUrgent | bin/triage_analyze.py:141-148 | The primary finding has the least priority of all, and it is absent exactly when no rule fires. |
| Report.EmptyCorpus | bin/triage_analyze.py:128-148 | An empty corpus gives no findings and no primary finding. |
| Report.OnlyOneFires | bin/triage_analyze.py:128-148 | When exactly one rule fires, its finding is the whole report and the primary one. |
| Report.OnlyTwoFire | bin/triage_analyze.py:128-148 | When exactly two rules fire, the one earlier in the catalogue and no less urgent is listed first and is primary. |
| Report.EmptyBundle | bin/triage_analyze.py:128-148 | With the real catalogue, an empty corpus gives no findings. |
| Report.OnlyRefusedScenario | bin/triage_analyze.py:17-25 | When only the refused-connection rule fires, the report is its single P1 finding, and that finding is primary. |
| Report.SelinuxAndRefusedScenario | bin/triage_analyze.py:8-25 | When only the SELinux and refused-connection rules fire, SELinux is listed first and is primary. |
| Report.RefusedLineFires | bin/triage_analyze.py:21 | The refused-connection message fires its rule whatever text surrounds it. |
| Render.BulletLines | bin/triage_analyze.py:172-173 | One bulleted line `  - step` per step, in order. |
| Render.ContentSnoc | bin/triage_analyze.py:161-174 | One more write appends its piece to the file's content. |
| Render.Write | bin/triage_analyze.py:162 | A write appends its piece to the file and to the record of writes. |
| Render.RenderText | bin/triage_analyze.py:161-174 | The writer produces exactly the report's content. |
| Render.WriteBlocks | bin/triage_analyze.py:169-174 | The loop writes the five pieces of each finding's block in list order, numbered from 1. |
| Render.WriteBlock | bin/triage_analyze.py:170-174 | The five writes of one block, in order. |
| Render.BlocksWritesSnoc | bin/triage_analyze.py:169 | One more finding adds its block's writes, numbered after the others. |
| Render.BlocksWritesConcat | bin/triage_analyze.py:169 | The numbering of a second list of blocks continues after the first list. |
| Render.EachFindingPrinted | bin/triage_analyze.py:169-174 | The `k`-th finding appears as block `k + 1`, after the earlier blocks and before the later ones. |
| Render.RenderedLayout | bin/triage_analyze.py:161-174 | The content is the title and bundle lines, then either the no-match line or the primary headline and the numbered blocks. |
| Render.HeadlineNamesFirst | bin/triage_analyze.py:166-168 | For an analyzed report, the text opens with the headline of the head of the sorted list. |
| Render.BlockNumber | bin/triage_analyze.py:170 | A block opens with `[`, then its number, then `]`, and the bracketed digits read back as the number. |
| Render.BulletLinesPlain | bin/triage_analyze.py:172-173 | Bulleted lines are non-empty, and free of boundaries when the steps are. |
| Render.BulletsReadBack | bin/triage_analyze.py:172-173 | Boundary-free steps read back from the bulleted text, one line per step. |
| Render.EmptyBundleText | bin/triage_analyze.py:161-165 | The report of an empty bundle is exactly the title, the bundle lines and the no-match line. |
| Archive.FirstUnsafe | bin/triage_analyze.py:76-79 | The first member the guard rejects, with all earlier members passing. There is none exactly when all members pass. |
| Archive.Names | bin/triage_analyze.py:80 | The extracted names are the member names, in archive order. |
| Archive.Directory.constructor | bin/triage_analyze.py:75 | A fresh extraction directory with its base path and no entries. |
| Archive.Directory.SafeExtract | bin/triage_analyze.py:74-80 | Every member is checked, with the textual prefix test, before any is extracted. If one fails, the error `Unsafe path in tar: <name>` names the first such member and nothing is extracted. Otherwise every member is extracted, in order. |
| Archive.FirstUnsafeAt | bin/triage_analyze.py:76-79 | The member where the prefix-test loop stops is the first one the test rejects. |
| Archive.Directory.ContainedExtract | bin/triage_analyze.py:74-80 | The same all-or-nothing extraction with the corrected guard. If a member lies outside the base directory by path components, the error names the first such member and nothing is extracted. Otherwise every member is extracted. |
| Archive.FirstOutsideAt | bin/triage_analyze.py:76-79 | The member where the corrected guard's loop stops is the first one outside the base. |
| Archive.RejectsIffNoPrefix | bin/triage_analyze.py:78-79 | As written, an error is raised exactly when some member's target fails the textual prefix test. |
| Archive.RejectsIffOutside | bin/triage_analyze.py:78-79 | With the corrected guard, an error is raised exactly when some member's target lies outside the base directory. |
| Archive.AcceptedAreUnderBase | bin/triage_analyze.py:78 | In an accepted bundle, every target is the base itself or the base followed by `/` and more. |
| Archive.SiblingPrefixAccepted | bin/triage_analyze.py:78 | As written, the guard accepts `../abc/x` under base `/tmp/ab`, although its target is outside the base. |
| Archive.FirstOutside | bin/triage_analyze.py:76-79 | The corrected guard's first rejected member, with all earlier members inside. There is none exactly when all members are inside. |
| Archive.InsideIsContainment | bin/triage_analyze.py:78 | Containment by components means the base itself, or the base followed by `/`. It implies the textual prefix test. |
| Archive.ComponentGuardStricter | bin/triage_analyze.py:78 | Every bundle the corrected guard admits, the guard as written admits too. |
| Archive.SiblingRejected | bin/triage_analyze.py:78 | The corrected guard rejects the sibling-directory member. |

## Left out

- Archive, directory and file I/O are parameters of the model, not modelled:
  - opening the gzip tar;
  - the temporary directory;
  - `iterdir`, `rglob("*.txt")` and `read_text`;
  - creating the output directory;
  - writing the files.

  The discovered artifacts arrive in sorted order with their decoded text, or with a failed read. Path resolution arrives as each member's resolved target. The report writer returns the file's content.
- The command line is not modelled: the argument count, the missing-bundle check, the "no extracted directory" exit and the printed paths.
- The JSON report is not modelled. `json.dump` is serialisation of the same report value that `Report.Analyze` builds.
- Timestamps come from the clock and are not modelled. They enter as the `generatedAt` parameter and are not part of the text report.
- The LLM companion script is not part of this model.
- The regular-expression engine is modelled only for the shape the catalogue uses: alternations of literals with `.*` gaps, case-insensitive. Case folding covers the letters an ASCII literal can match under `re.I`. Full Unicode folding is not modelled because the catalogue's literals are ASCII.
- Evidence.ExtractSnippet: `window` is a natural number. Negative windows, which Python would accept, are not modelled. The only call, at line 138, passes 15, so the default of 20 is never used and is not modelled.
- Findings.SortByPriority: the library sort is modelled as a stable insertion sort. Its result is the same permutation, because Python's sort is stable.
- Render.RenderText: the file is modelled as the list of pieces written; buffering and encoding are not modelled.
- Render.RenderText requires a primary finding whenever there are findings. The source reads `pf['rule_id']` from it and would fail without it, and `Report.Analyze` always produces one.
- Evidence.SnippetEmptyIff requires a pattern whose alternatives start with a non-empty literal. This is needed because a match must be a non-empty line. Every catalogue pattern meets it (`Rules.CatalogueValid`).
- Findings.Collect: its own contract bounds only the length. Which findings are collected, one per firing rule in catalogue order, is stated by `Findings.CollectOrigins`, and that no rule is reported twice by `Report.AtMostOnePerRule`.
- Archive.Directory.SafeExtract runs the guard as written, so it admits the sibling-directory member of the finding below. `Archive.Directory.ContainedExtract` is the corrected extraction. `tarfile`'s own handling of links and special members is not modelled.

The analyzer tests each rule against the whole corpus, but takes evidence from one line at a time. The two can disagree: a `.*` may cross a carriage return, or another boundary that `splitlines()` splits on but `.` matches. The finding is then still reported, with an empty snippet (`Findings.EvidenceCanBeEmpty`). The code does this consistently, so the model keeps it.

## Findings

| source | as written | input that shows it | evidently intended | confidence | as-written member | corrected member |
|---|---|---|---|---|---|---|
| bin/triage_analyze.py:78 | The guard tests whether the resolved target's text starts with the base directory's text. | Base `/tmp/ab` and member `../abc/x`, which resolves to `/tmp/abc/x` in the sibling directory `/tmp/abc`: it passes the guard. | A target is safe only when it is the base itself or lies under `base + "/"`. | medium; not executed | Archive.SiblingPrefixAccepted | Archive.SiblingRejected |
