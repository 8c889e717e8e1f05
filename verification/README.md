# TraceDecay tooling, modelled and proved in Dafny

TraceDecay ships a code-intelligence server together with the tooling that measures it, releases it
and keeps its repository in order. This project models the parts of that tooling that hold real
algorithms and proves what they are for.

- **Ranked-tail trimming** (`Text`, `Utf8`, `TrimMarker`, `RowPattern`, `RankedPage`, `TailRule`,
  `TailReplay`, `TailInvariance`, `TailTheorems`, `SampleRows`, `TailExamples`). A served page is parsed
  into blocks of ranked rows; the longest weak suffix of a block is cut and replaced by one marker line;
  the replay reads markers back, splices stored tails in, or accounts for tails whose handle is dead.
- **The query of the rule** (`QueryTest`, `QueryAgreement`, `TailPrice`, `TailQuery`, `QueryExamples`,
  `TailRequery`, `RequeryExamples`). The rule is modelled twice, as the measuring script has it and as
  the Rust binary has it, each with its own test of the query's words. The two cut alike where the tests
  agree, and it is proved for which queries they do; and what a replay with another query than the one
  served records.
- **The unused-context scorer** (`Evidence`, `Scorer`, `TranscriptGrowth`, `Aggregation`). Calls are
  paired with results, evidence is split around each result, lines are scored by whole-word anchors, and
  reports are summed in two levels with sums that a missing count makes null.
- **Prompt pairing** (`Words`, `PromptPairing`). A greedy one-pass matcher over prompt events, proved
  to be a maximum matching by an exchange argument, and the stable one.
- **Release assets and recovery** (`ReleaseAssets`, `ReleaseRecovery`). Two independent validators
  over sets of immutable assets, recovery runs as a state machine, and the publish job.
- **The scorecard observer** (`ObserverStream`, `Observer`, `ObserverAnswers`). A line reader over arbitrary chunking,
  request/reply correlation, and a polling loop that reopens its observer. The pipe, the clock and the
  daemon are scripts of what happens next, and every statement holds for all of them.
- **Encodings, closures and synchronisers** (`Orders`, `Digest`, `BundleOrder`, `Framing`, `Features`, `Caches`,
  `CacheKeys`, `CachePruning`, `Mirror`). The bytes fed to the bundle and tree digests, Content-Length framing, the
  feature worklist and the release profile check, cache supersession, and the skill mirror.

Foreign code is a parameter: JSON decoding, URL splitting, SHA-256, case folding, the word class of
regular expressions, the response store. What is assumed of it stands in the `requires` clause that
uses it. Loops of the scripts are methods proved against a specification function; objects whose
methods update their fields are classes.

## Where the code does not do what it says

Each of these is proved both at failing inputs and as an exact condition.

- The totals of a replay are to be the same whichever handles are dead. A cut with no line feed before
  its marker is invisible to every replay, so with all tails stored the page is restored if and only
  if every cut made follows a line feed (`TailTheorems.RestoreUndoesTrimIff`,
  `TailExamples.SomeCutsAreNotSeen`). And a cut without a final line feed right before the
  lexical-anchor heading makes the heading surface, which protects every row that is left: a replay
  records the original's totals if and only if every cut follows a line feed and either no such cut
  is lost or every cut is (`TailTheorems.ReplayIsExactIff`, `TailExamples.SomeLostCutsHideOthers`).
- The replay is to apply the rule the binary serves by. The two tests of a row's name differ in three
  ways. `str.split` also separates at U+001C to U+001F, so the two word lists are the same if and only if
  the query has none of the four (`QueryTest.SplitsAgreeIff`). `str.isalnum` drops characters that
  `char::is_alphanumeric` keeps, vowel signs among them, and `str.lower` turns a capital sigma at the end
  of a word into the final form, so the two folds of a text are the same if and only if it has neither
  (`QueryTest.FoldsAgreeIff`). A block is cut alike if none of the three occurs in the query or its names
  (`TailQuery.FoldsAlikeAgree`). All blocks are cut alike if and only if every word of the query is a
  single letter or digit, none of them a sigma or one only the binary keeps
  (`QueryAgreement.TestsAgreeIff`, `TailQuery.CutsAgreeIff`). Four blocks that only one of the two cuts,
  three of them by the binary, are given (`QueryExamples.QueriesCanSplitTheRules`).
- A stored session is replayed with all argument values as the query, "which can only overstate the
  cut". That holds, for the cuts made, the rows and the bytes of every readable block, if and only if the
  query served has a letter or digit, or the values have none: a query without words protects nothing, so
  the extra words can only protect more (`TailQuery.OverstatesIff`, `QueryExamples.SomeReplaysUnderstate`).
  And with such a query dead handles do matter: the totals are those of the original page if and only if
  every cut follows a line feed, every lost cut is where the larger query cuts too, and no heading
  surfaces or nothing else is cut (`TailRequery.RequeryIsExactIff`,
  `RequeryExamples.SomeReplaysDependOnHandles`).
- The two implementations of the bundle digest are to hash the same bytes. The script sorts paths part by
  part and the build script sorts their texts, so they do if and only if no file's name lengthens a
  directory's beside it with a character before the slash, as `assets.css` beside `assets/`
  (`BundleOrder.StreamsAgreeIff`, `BundleOrder.SomeBundlesDiffer`).
- Two differently named targets can share an asset name, but only under a tag that the worker prefix
  can absorb; no tag that starts with `v` is one (`ReleaseAssets.AmbiguousTagCollides`,
  `ReleaseAssets.AssetNamesAreDistinct`).
- The publish job of the release workflow (`.github/workflows/release.yml`, lines 374 to 585) uploads
  `SHA256SUMS` and `install.sh` after a partial build too, and its comment says that the recovery
  planner then rebuilds only the missing targets. The planner refuses such a
  release, so no recovery run is possible: recovery continues if and only if the run stopped before
  the metadata or left nothing missing (`ReleaseRecovery.RecoveryContinuesIff`,
  `ReleaseRecovery.PartialPublicationIsFinal`, `ReleaseRecovery.OneTargetPublishedFirst`).
- A cache entry that is listed twice, or ties with another for the newest of its lane, is selected for
  deletion although nothing supersedes it (`Caches.ListedTwice`, `Caches.SelectionIsSafeIff`).
- `sync` does not work from any pair of trees: it stops, part way, if and only if the destination has
  a directory where the source has a shared file, or a file above one. A shared file that became a
  directory is such a case, because deletions come after writes (`Mirror.Sync`,
  `Mirror.SomeTreesCannotBeSynced`).
- A CLI default that lists a dependency's feature directly is refused as an undeclared feature,
  because the closure keeps selected names that are not in the table. A default is accepted if and only
  if its declared part is in order and it lists declared features only (`Features.DefaultHoldsIff`); an
  accepted one is refused, for that reason alone, once it lists one such feature more
  (`Features.DirectForwardIsRefused`, and with the release's names `Features.SomeDefaultIsRefused`).

## Model

| member | source | states |
|---|---|---|
| `Text.SplitLinesExact` | scripts/measure-ranked-tail-trim.py:86 | Splitting a text into physical lines loses no character, and each piece is one whole line, for every terminator `splitlines` knows. |
| `Text.SplitConcat` | scripts/measure-ranked-tail-trim.py:86 | Joining a list of whole lines and splitting it again gives the list back. |
| `Text.BreaksAre` | scripts/measure-ranked-tail-trim.py:86 | The terminators of `splitlines` by code point. |
| `Text.HexDigitsAre` | scripts/measure-ranked-tail-trim.py:67 | The characters of a handle are the ten digits and the letters `a` to `f`. |
| `Text.SpacesAre` | scripts/render-codex-hook-inputs.py:258-259 | The white space of `str.split` by code point. |
| `Utf8.EncodeInjective` | scripts/check-dashboard-bundle.py:137 | UTF-8 encoding is injective on texts of any code points. |
| `Utf8.EncodeCharIsShortest` | scripts/check-dashboard-bundle.py:137 | A character takes the shortest of the four forms of section 3 of RFC 3629: its length by code point, the range of its first byte, and continuation bytes behind it. |
| `TrimMarker.MarkerReadsBack` | scripts/measure-ranked-tail-trim.py:64-70 | A printed marker is matched by the marker pattern whatever follows, with the printed line, row count, byte count and handle. |
| `TrimMarker.MarkerNumbersReadBack` | scripts/measure-ranked-tail-trim.py:64-70 | The three numbers the pattern does not name read back too: the ranks of the first and the last cut row and the best utility. |
| `TrimMarker.MarkerSays` | scripts/measure-ranked-tail-trim.py:125-131 | The printed line is the sentence with count, ranks, bytes, best utility and handle each in its place. |
| `TrimMarker.MarkerIsLocal` | scripts/measure-ranked-tail-trim.py:64-70 | Whether a line is a marker does not depend on the lines after it. |
| `TrimMarker.MarkerIsOneLine` | scripts/measure-ranked-tail-trim.py:125-131 | A marker is exactly one physical line, ends in a line feed and opens like no row. |
| `TrimMarker.MarkerSizeIgnoresHandle` | scripts/measure-ranked-tail-trim.py:63 | Markers of one cut have the same byte size for every handle, so the stand-in handle prices them exactly. |
| `TrimMarker.ScanCopiesLine` | scripts/measure-ranked-tail-trim.py:191 | Substitution copies a line that is no marker, or does not start at a line start, unchanged. |
| `TrimMarker.ScanFindsMarker` | scripts/measure-ranked-tail-trim.py:191 | Substitution finds a marker that starts a line, and resumes after it. |
| `RowPattern.RowMatchIsLazy` | scripts/measure-ranked-tail-trim.py:60 | Of all the ways the row pattern can match a line, the one taken has the shortest name and then the shortest gap; a line is refused only if there is no way; the row read has that name and the numbers of that score. |
| `RowPattern.MatchScoreIff` | scripts/measure-ranked-tail-trim.py:60 | A text matches the score part with a rank and a utility if and only if it is one of the two separators, `rank `, digits of that rank, ` · utility ` and all the digits of that utility, and then anything. |
| `RowPattern.RowReadsBack` | scripts/measure-ranked-tail-trim.py:60 | A row head rendered with either separator reads back as its name, rank and utility, whatever the gap holds besides a middle dot and a line feed. |
| `RowPattern.RoutesAnchoredIff` | scripts/measure-ranked-tail-trim.py:89-90 | A row is protected by its routes if and only if some ` · via ` of its line is followed by `anchor:`. |
| `RowPattern.MarkerIsNoRow` | scripts/measure-ranked-tail-trim.py:87-93 | A marker line is neither a row nor a continuation of one. |
| `RankedPage.RankedBlocks` | scripts/measure-ranked-tail-trim.py:82-100 | The line loop finds exactly the maximal runs of rows with their continuation lines. |
| `RankedPage.ParseIsExact` | scripts/measure-ranked-tail-trim.py:82-100 | Parsing a page into blocks and other lines loses nothing, and blocks are maximal. |
| `RankedPage.ParseOfCanonical` | scripts/measure-ranked-tail-trim.py:82-100 | Printing a list of maximal blocks and other lines and parsing it again gives the list back. |
| `TailRule.TailStartIsOptimal` | scripts/measure-ranked-tail-trim.py:112-122 | The cut is the least index at or after three from which every row is weak with at least two rows left, and there is none exactly when the best utility is zero or no such suffix exists. |
| `TailRule.TailStartIff` | scripts/measure-ranked-tail-trim.py:112-122 | Row by row: the cut starts at an index if and only if three rows or more stand before it and two or more behind, every row behind is unprotected, unnamed and worth at most half of some row, the row before it is not such a row unless it is the third, and some row is worth anything. |
| `TailRule.CutAtIff` | scripts/measure-ranked-tail-trim.py:134-148 | A block is cut where the rule says if and only if the cut rows take more bytes than their marker. |
| `TailRule.BestIsKept` | scripts/measure-ranked-tail-trim.py:112-122 | The kept rows have the block's best utility. |
| `TailRule.KeptRowsAreNotCutAgain` | scripts/measure-ranked-tail-trim.py:112-122 | The kept rows have no tail to cut. |
| `TailRule.NoSecondCut` | scripts/measure-ranked-tail-trim.py:134-148 | With the price of the marker taken into account, what a cut kept is never cut again. |
| `QueryAgreement.PassesIff` | scripts/measure-ranked-tail-trim.py:107-109 | A name passes the test if and only if some word of the query folds to anything and the folded name holds every one that does. |
| `QueryTest.SplitsAgreeIff` | crates/tracedecay-mcp/src/tools/render/ranked_tail.rs:46-47 | The script and the binary split a query into the same words if and only if it holds none of U+001C to U+001F. |
| `QueryTest.FoldsAgreeIff` | crates/tracedecay-mcp/src/tools/render/ranked_tail.rs:39-44 | The two folds of a text are equal if and only if it has no character that only the binary keeps and no capital sigma ends a word of its letters and digits. |
| `QueryTest.TestsAgree` | crates/tracedecay-mcp/src/tools/render/ranked_tail.rs:38-52 | With no such separator in the query and equal folds of its words and of the name, the two tests give the same answer. |
| `QueryTest.BinaryFoldIsCharByChar` | crates/tracedecay-mcp/src/tools/render/ranked_tail.rs:39-44 | The binary's fold works character by character and drops white space. |
| `QueryTest.BinaryTestImpliesScript` | crates/tracedecay-mcp/src/tools/render/ranked_tail.rs:46-51 | The split alone: with one character-by-character fold for both, every name the binary accepts the script accepts, for every query. |
| `QueryTest.SplitTestsAgreeIff` | crates/tracedecay-mcp/src/tools/render/ranked_tail.rs:46-51 | The split alone: with one such fold for both, the tests agree on all names if and only if each folded word of the binary's split lies in a folded word of the script's. |
| `QueryAgreement.SingleLettersAgree` | crates/tracedecay-mcp/src/tools/render/ranked_tail.rs:38-52 | For a query of single letters the two languages' tests give the same answer on every name. |
| `QueryAgreement.SplittingName` | crates/tracedecay-mcp/src/tools/render/ranked_tail.rs:38-52 | Every other query has a name, of letters and digits only, on which the two tests differ. |
| `QueryAgreement.TestsAgreeIff` | crates/tracedecay-mcp/src/tools/render/ranked_tail.rs:38-52 | The two languages' tests agree on every name if and only if every word of the query is a single letter or digit, none of them a sigma or one only the binary keeps. |
| `QueryTest.MoreWordsAcceptLess` | scripts/measure-ranked-tail-trim.py:107-109 | A query with more words accepts fewer names, if the smaller one has a folded word. |
| `TailQuery.QueriesAgree` | crates/tracedecay-mcp/src/tools/render/ranked_tail.rs:57-77 | Under those conditions on query and names, the binary and the script cut every block at the same row. |
| `TailQuery.FoldsAlikeAgree` | crates/tracedecay-mcp/src/tools/render/ranked_tail.rs:57-77 | For the two languages' folds: a query without separators, and words and names the two fold alike, give the same priced cut. |
| `TailQuery.CutsAgreeIff` | crates/tracedecay-mcp/src/tools/render/ranked_tail.rs:57-77 | The two cut every readable block alike, price included, if and only if the query is of single letters. |
| `TailQuery.BinarySaves` | crates/tracedecay-mcp/src/tools/render/ranked_tail.rs:82-117 | What the binary serves of a block is shorter by exactly what its cut saves. |
| `TailQuery.FewerProtectedCutsMore` | scripts/measure-ranked-tail-trim.py:112-122 | A test that protects fewer rows cuts wherever the other does, and no later. |
| `TailPrice.ReadableRowPays` | scripts/measure-ranked-tail-trim.py:60 | Every row a page can yield is longer than its rank and its byte count written out. |
| `TailPrice.OneMoreRowSaves` | scripts/measure-ranked-tail-trim.py:125-148 | Cutting one such row more always saves more, the longer marker included. |
| `TailPrice.TwoCutsSaveLess` | scripts/measure-ranked-tail-trim.py:125-148 | Cutting a tail in two pieces always saves less than cutting it at once. |
| `TailQuery.FewerProtectedSavesMore` | scripts/measure-ranked-tail-trim.py:134-148 | With the price taken into account, a test that protects fewer rows cuts wherever the other does and no later, and no fewer rows and bytes. |
| `TailQuery.BinaryCutsAtOrBefore` | crates/tracedecay-mcp/src/tools/render/ranked_tail.rs:57-77 | The split alone: with one character-by-character fold for both, the binary cuts wherever the script does, and no later, for every query. |
| `QueryExamples.QueriesCanSplitTheRules` | crates/tracedecay-mcp/src/tools/render/ranked_tail.rs:38-77 | There are readable blocks that only the binary cuts, for a query with U+001F, one with a final sigma and one against a name with a vowel sign, and one that only the script cuts, for a query with a medial sigma. |
| `QueryExamples.OnlyOneServesShorter` | crates/tracedecay-mcp/src/tools/render/ranked_tail.rs:82-117 | Such a block is served shorter than its rows exactly if the binary is the one that cuts it. |
| `QueryExamples.LettersCutAlikeIff` | crates/tracedecay-mcp/src/tools/render/ranked_tail.rs:57-77 | The tables of these examples meet what is assumed of Unicode's, so the exact condition holds for them. |
| `TailQuery.ValuesHoldTheirWords` | scripts/measure-unused-tool-context.py:152-166 | The words of each argument value are among the words of the flattened values. |
| `TailQuery.LargerQueryOverstates` | scripts/measure-ranked-tail-trim.py:34-36 | If the query served has a folded word or the larger has none, replaying with more words cuts wherever that query did and no later, and no fewer rows and bytes. |
| `TailQuery.WordlessQueryUnderstates` | scripts/measure-ranked-tail-trim.py:34-36 | A query without a folded word, and a larger one that accepts some name: a readable block exists that the first cuts and the second does not. |
| `TailQuery.OverstatesIff` | scripts/measure-ranked-tail-trim.py:34-36 | For the script's fold, replaying with more words can only overstate the cut, in place, rows and bytes over all readable blocks, if and only if the query served has a letter or digit or the larger one has none. |
| `QueryExamples.SomeReplaysUnderstate` | scripts/measure-ranked-tail-trim.py:34-36 | The query `-` with the further argument `x` is such a call. |
| `TailQuery.ReplayOverstatesServing` | scripts/measure-ranked-tail-trim.py:34-36 | Where the tests agree on a query with a folded word, the replay with more words cuts each readable block wherever the binary did and no later, and no fewer rows and bytes. |
| `TailRule.RulesAgree` | crates/tracedecay-mcp/src/tools/render/ranked_tail.rs:57-77 | Where the two tests of a name agree on the names of the block, the binary's cut point and best utility are those of the script. |
| `TailRule.MarkersAgree` | crates/tracedecay-mcp/src/tools/render/ranked_tail.rs:121-132 | The binary and the script print the same marker. |
| `TailRule.BinaryServesTheRule` | crates/tracedecay-mcp/src/tools/render/ranked_tail.rs:82-117 | Where the tests agree, what the binary serves for a block is what the script's rule says, byte for byte, and every row when the tail cannot be stored. |
| `TailReplay.Substitute` | scripts/measure-ranked-tail-trim.py:184-191 | Each marker becomes its stored tail or stays and is reported dead, in page order. |
| `TailReplay.Untrimmed` | scripts/measure-ranked-tail-trim.py:175-191 | The spliced page and the dead markers are those of the scan of the text. |
| `TailReplay.UnresolvedTails` | scripts/measure-ranked-tail-trim.py:169-172 | Dead markers add up to the rows and saved bytes their own metadata proves. |
| `TailReplay.CutTotals` | scripts/measure-ranked-tail-trim.py:221-226 | The cuts of a page add up to the rows cut and bytes saved of its blocks. |
| `TailReplay.Replay` | scripts/measure-ranked-tail-trim.py:203-226 | The recorded bytes, saved bytes and trimmed rows of one result are those of the restored page and the dead markers, for whatever query the replay uses. |
| `TailInvariance.TrimmedIsCanonical` | scripts/measure-ranked-tail-trim.py:134-148 | A page with any choice of its cuts made still consists of maximal blocks and other lines. |
| `TailInvariance.AnchorsSurvive` | scripts/measure-ranked-tail-trim.py:137 | Short of a selected cut without a final line feed right before it, making the selected cuts neither adds nor hides the lexical-anchor heading. |
| `TailTheorems.TrimmedPageReadsBack` | scripts/measure-ranked-tail-trim.py:134-148 | Where no heading surfaces, the text of a page with any choice of cuts made parses as exactly the trimmed blocks, markers and other lines. |
| `TailTheorems.TrimmedSize` | scripts/measure-ranked-tail-trim.py:143 | Any choice of cuts shrinks the page by exactly what those cuts save. |
| `TailTheorems.TrimmedBlocks` | scripts/measure-ranked-tail-trim.py:134-148 | A second pass over a trimmed page finds exactly the cuts the first left. |
| `TailTheorems.RestoreTrimmed` | scripts/measure-ranked-tail-trim.py:175-191 | Restoring a page served with some of its cuts made undoes every visible one the store answers and reports every visible one it does not. |
| `TailTheorems.DeadAccount` | scripts/measure-ranked-tail-trim.py:169-172 | The dead markers' own metadata accounts for every visible lost cut, rows and bytes. |
| `TailTheorems.TrimmedAnchorsIff` | scripts/measure-ranked-tail-trim.py:137 | Making any choice of cuts changes whether the page reports anchors exactly when one of them lacks a final line feed and stands right before the heading. |
| `TailTheorems.AnchoredCutsNothing` | scripts/measure-ranked-tail-trim.py:90 | On a page that reports anchors nothing is cut. |
| `TailTheorems.MeasuredIff` | scripts/measure-ranked-tail-trim.py:213-226 | What is recorded for a page with some cuts made is what its blocks and the dead markers account for if and only if no heading surfaces or no cut is left. |
| `TailTheorems.ReplayIgnoresDeadHandlesIff` | scripts/measure-ranked-tail-trim.py:203-226 | For a page served with any of its cuts made: whichever handles are dead, the replay records the same totals, those of the original page short of the cuts no replay can see, if and only if the lost cuts leave the page measurable; the recorded bytes are the same in any case. |
| `TailTheorems.ReplayIsExactIff` | scripts/measure-ranked-tail-trim.py:203-226 | For a page served with any of its cuts made, the totals are the original page's, for any store, if and only if every cut made follows a line feed and the lost cuts leave the page measurable. |
| `TailTheorems.ReplayIsRecorded` | scripts/measure-ranked-tail-trim.py:203-226 | Whatever query the replay uses, it records the page with the lost cuts still made as that query measures it, and the dead markers' own account. |
| `TailRequery.LargerQueryRecordsMore` | scripts/measure-ranked-tail-trim.py:34-36 | Over a whole page, the rows cut and bytes saved under the larger query are at least those of the rule and of the page as served. |
| `TailRequery.ReplayRecordsAtLeastServed` | scripts/measure-ranked-tail-trim.py:203-226 | A served page whose cuts are all seen and stored is replayed with at least the rows and bytes that were cut from it. |
| `TailRequery.LostBlockIff` | scripts/measure-ranked-tail-trim.py:213-226 | Whatever the two queries, a lost cut and its kept rows are recorded as the whole block would be if and only if both queries cut at the same row. |
| `TailRequery.RequeryIsExactIf` | scripts/measure-ranked-tail-trim.py:203-226 | Whatever the query of the replay, a page whose cuts are all seen, with no heading surfaced and every lost cut where that query cuts, is recorded as the original. |
| `TailRequery.RequeryIsExactIff` | scripts/measure-ranked-tail-trim.py:203-226 | For a query that cuts no later than the one served, the replay records what it records of the original page, for any store, if and only if every cut made follows a line feed, every lost cut is where that query cuts, and no heading surfaces or that query cuts nothing else. |
| `RequeryExamples.SomeReplaysDependOnHandles` | scripts/measure-ranked-tail-trim.py:203-226 | A page served for the query `b` and replayed with the further argument `c` is recorded as the original with its tail stored, and with other totals with nothing stored. |
| `SampleRows.FiveNamedAreCut` | scripts/measure-ranked-tail-trim.py:112-148 | A readable block of five rows, four of them of a long name and the first far ahead, is cut after its third row unless the last row is protected by its name. |
| `TailExamples.SomeCutsAreNotSeen` | scripts/measure-ranked-tail-trim.py:191 | There is a page, with a store that answers every handle, whose cut follows a carriage return: its served form is not restored and is replayed with other totals, with that store and with an empty one. |
| `TailExamples.SomeLostCutsHideOthers` | scripts/measure-ranked-tail-trim.py:213-226 | There is a page all of whose cuts are seen and whose replay still records other totals, because a lost cut makes the heading surface. |
| `TailTheorems.RestoreUndoesTrimIff` | scripts/measure-ranked-tail-trim.py:175-191 | With the tail of every cut made stored, restoring gives the original page back if and only if each of them follows a line feed. |
| `TailTheorems.ServedSize` | scripts/measure-ranked-tail-trim.py:143 | The served page is smaller by exactly what the cuts made save, which is all the rule saves if and only if every cut was made. |
| `TailTheorems.BinaryServesThePage` | crates/tracedecay-mcp/src/tools/render/ranked_tail.rs:82-117 | Where the tests agree on the names of the page, the page the binary serves is the page of the rule, with every row of a block whose tail could not be stored. |
| `TailTheorems.TrimIsIdempotent` | scripts/measure-ranked-tail-trim.py:134-148 | Trimming a served page again changes nothing, on every page. |
| `TailTheorems.ServedAnchorsIff` | scripts/measure-ranked-tail-trim.py:137 | The served page reports anchors exactly when the original did or a cut made without a final line feed stands right before the heading. |
| `TailTheorems.UntouchedReplay` | scripts/measure-ranked-tail-trim.py:203-226 | A page without markers is replayed as it stands, whatever the store. |
| `TailTheorems.RecordedMeasures` | scripts/measure-ranked-tail-trim.py:212-226 | What is recorded for a page without dead markers is its size, how much smaller it is with every cut made, and how many rows fewer it then has. |
| `Evidence.OccursInTwo` | scripts/measure-unused-tool-context.py:130-149 | An anchor occurs in two texts joined by a line feed exactly when it occurs in one of them. |
| `Evidence.OccursIff` | scripts/measure-unused-tool-context.py:130-149 | An anchor occurs in a text if and only if the text is a left part, its key and a right part between which it may stand: no path character before a path, no word character before a symbol, none after either, and a quote anywhere. |
| `Evidence.JoinIsFaithful` | scripts/measure-unused-tool-context.py:297-313 | An anchor occurs in the joined evidence exactly when it occurs in some segment. |
| `Evidence.AnchorsArePlain` | scripts/measure-unused-tool-context.py:130-149 | Every anchor a line yields is free of line feeds and not empty, so joining cannot create or hide it. |
| `Evidence.AnchorOfIff` | scripts/measure-unused-tool-context.py:130-149 | An anchor is a path of word characters and `.@+-/`, a symbol of word characters and colons, or the whole line in canonical form when that has 24 characters or more. |
| `Scorer.PairedCalls` | scripts/measure-unused-tool-context.py:258-294 | The pairing holds exactly the tool-call ids, each with its first call. |
| `Scorer.PairedResults` | scripts/measure-unused-tool-context.py:258-294 | An id is answered exactly when a result follows its first call, and by the first such result. |
| `Scorer.PairCalls` | scripts/measure-unused-tool-context.py:258-294 | The first pass builds that pairing. |
| `Scorer.SplitEvidence` | scripts/measure-unused-tool-context.py:297-313 | The three evidence texts are the joined segments before the result, of later use, and of later re-requests. |
| `Scorer.ScoreLines` | scripts/measure-unused-tool-context.py:316-329 | Lines and bytes are used exactly where a line has an anchor that is new and occurs later. |
| `Scorer.CountRerequests` | scripts/measure-unused-tool-context.py:332-341 | One re-request is counted exactly when some line has a new anchor that later calls of the tool repeat. |
| `Scorer.UnterminatedIs` | scripts/measure-unused-tool-context.py:335 | What a line loses without its terminator is one line break, or CR LF, or nothing, and no break is left in it. |
| `Scorer.Analyze` | scripts/measure-unused-tool-context.py:258-341 | For the first call of each id that has a result after it, in order, one report that says of the first such result what the events say of it; and the number of the other calls. |
| `Scorer.ReportIsUse` | scripts/measure-unused-tool-context.py:258-341 | A report has as used lines, with their bytes, exactly the lines with an anchor that no event the agent wrote before the result mentions and some event after it does that is no call of the same tool; one re-request exactly if such a call mentions one; every other figure, the token split and the re-requests blamed on a cut follow case by case; errors and missing texts give zeros. |
| `Scorer.EveryCallIsAccountedFor` | scripts/measure-unused-tool-context.py:258-294 | Reports and unpaired calls together are exactly the distinct tool-call ids, each report at the first result after the id's first call. |
| `Scorer.ReportIsExact` | scripts/measure-unused-tool-context.py:316-329 | A scored call's total is the UTF-8 size of its text for any line terminators, use never exceeds it, and a token split that is present adds up. |
| `TranscriptGrowth.EvidenceGrows` | scripts/measure-unused-tool-context.py:297-313 | Appending events leaves the evidence before a result alone and only extends the evidence after it. |
| `TranscriptGrowth.ReportOnlyGrows` | scripts/measure-unused-tool-context.py:258-341 | Appending events never lowers the used lines, used bytes or re-requests of a report. |
| `TranscriptGrowth.AppendingNeverLowersUse` | scripts/measure-unused-tool-context.py:258-341 | An answered call stays answered by the same result in every longer transcript, and its use never drops. |
| `Aggregation.AddOptionalIsPlus` | scripts/measure-unused-tool-context.py:483-491 | The two variables of a null-absorbing sum carry one value, and adding to them adds to it. |
| `Aggregation.AccumulateIsCombine` | scripts/measure-unused-tool-context.py:494-536 | One report moves a tool's counters by exactly its own tally. |
| `Aggregation.CountsAre` | scripts/measure-unused-tool-context.py:494-536 | Over any calls the tally counts all of them, those with an error, those without a text, and among the scored ones those with nothing used, without a token count and with unknown blame. |
| `Aggregation.AmountsAre` | scripts/measure-unused-tool-context.py:494-536 | It adds up re-requests, bytes, used bytes, lines and used lines of the scored calls. |
| `Aggregation.SumsAre` | scripts/measure-unused-tool-context.py:494-536 | Its four null-absorbing sums are those of the total, used and unused tokens and of the blamed re-requests of the scored calls. |
| `Aggregation.FiguresAre` | scripts/measure-unused-tool-context.py:483-491 | Such a sum has a value if and only if some call was scored and none of those lacks the figure, and then it is their sum. |
| `Aggregation.FillRows` | scripts/measure-unused-tool-context.py:494-536 | After the loop each tool's counters are the tally of its reports. |
| `Aggregation.Aggregate` | scripts/measure-unused-tool-context.py:494-536 | There is one row for each tool, in descending order of bytes and of equal ones in order of first report, and each is the tally of the tool's reports. |
| `Aggregation.SumRows` | scripts/measure-unused-tool-context.py:637-654 | The all-tools row is the combined tally of the rows. |
| `Aggregation.TwoLevelsAreFlat` | scripts/measure-unused-tool-context.py:637-654 | Summing per tool and then over tools equals one flat pass over every call, nulls included. |
| `Aggregation.TotalIffComplete` | scripts/measure-unused-tool-context.py:483-491 | The token total is present exactly when some call was scored and none lacks a count. |
| `Aggregation.SplitAddsUp` | scripts/measure-unused-tool-context.py:119-127 | Wherever the aggregate split is present, used and unused tokens add up to the total. |
| `Aggregation.ReportsAreWellSplit` | scripts/measure-unused-tool-context.py:119-127 | Every report the scorer writes splits its tokens exactly or leaves both parts null. |
| `Aggregation.TokenCountCoverage` | scripts/measure-unused-tool-context.py:582-596 | Coverage counts the scored calls and those without a stored count over all rows. |
| `Aggregation.ReportIsConsistent` | scripts/measure-unused-tool-context.py:582-654 | The all-tools row, the coverage and the token split agree with each other and with the flat pass. |
| `Words.CanonicalIsWords` | scripts/render-codex-hook-inputs.py:258-259 | Two texts have the same canonical form exactly when they have the same words in order, and canonical text is a fixed point. |
| `Words.SplitAtSpace` | scripts/render-codex-hook-inputs.py:258-259 | The words of two texts with white space between them are the words of the one and then of the other. |
| `Words.SplitFirstWord` | scripts/render-codex-hook-inputs.py:258-259 | A text without white space, followed by white space or the end, is one word. |
| `PromptPairing.ParseFile` | scripts/render-codex-hook-inputs.py:118-166 | The loop returns the message records and the prompt records of the file. |
| `PromptPairing.MessageMembership` | scripts/render-codex-hook-inputs.py:118-166 | The message list holds exactly the records of the message lines. |
| `PromptPairing.SubmissionMembership` | scripts/render-codex-hook-inputs.py:118-166 | The prompt list holds exactly each legacy event and each id's first completed item. |
| `PromptPairing.ListsAreInSourceOrder` | scripts/render-codex-hook-inputs.py:118-166 | Both lists are in strictly increasing line order. |
| `PromptPairing.WrappedPromptIdentity` | scripts/render-codex-hook-inputs.py:177-200 | A message that opens like a hook and has a word after its first rule or, without a rule, its first `hook context:` pairs with a prompt if and only if what follows has the same words. |
| `PromptPairing.PlainPromptIdentity` | scripts/render-codex-hook-inputs.py:177-200 | Every other message pairs with a prompt if and only if its whole text has the same words. |
| `PromptPairing.NoHookWrapsNothing` | scripts/render-codex-hook-inputs.py:178-179 | Such is a message that does not open like a hook after its white space. |
| `PromptPairing.NoMarkerWrapsNothing` | scripts/render-codex-hook-inputs.py:180-185 | Such is a message with neither marker. |
| `PromptPairing.NoWordWrapsNothing` | scripts/render-codex-hook-inputs.py:199-200 | Such is a message with no word after its marker. |
| `PromptPairing.EligibleIff` | scripts/render-codex-hook-inputs.py:211-221 | The matcher takes a message for a prompt if and only if it is not recorded later and holds that prompt, wrapped or as its own text. |
| `PromptPairing.PairSubmittedUsers` | scripts/render-codex-hook-inputs.py:203-224 | The loop that pops matches makes exactly the greedy pairs. |
| `PromptPairing.GreedyIsLegal` | scripts/render-codex-hook-inputs.py:203-224 | Greedy pairs use no record twice, join equal identities only, and never pair a message later than its event. |
| `PromptPairing.Exchange` | scripts/render-codex-hook-inputs.py:203-224 | Any legal pairing can give up the first greedy pair's two records at the cost of one pair. |
| `PromptPairing.GreedyIsMaximum` | scripts/render-codex-hook-inputs.py:203-224 | No legal pairing of lists in source order has more pairs than the greedy one. |
| `PromptPairing.GreedyIsFifo` | scripts/render-codex-hook-inputs.py:203-224 | Within one identity both records of a later pair are later. |
| `PromptPairing.GreedyIsStable` | scripts/render-codex-hook-inputs.py:203-224 | Of a message and a prompt that could be paired, the message went to a prompt no later than that one or the prompt took a message no later. |
| `PromptPairing.MapHoldsPairs` | scripts/render-codex-hook-inputs.py:203-224 | The returned dictionary holds exactly the pairs made, none overwritten. |
| `PromptPairing.PairingIsMaximum` | scripts/render-codex-hook-inputs.py:118-224 | For every file, what is returned joins user messages with submitted prompts they hold and do not follow, no record twice, and no such pairing of the file has more pairs. |
| `PromptPairing.PairingIsStable` | scripts/render-codex-hook-inputs.py:118-224 | For every file, what is returned is stable in that sense. |
| `ReleaseAssets.TargetMatrix` | scripts/check-release-artifacts.py:24-38 | A manifest is accepted exactly when it has targets, none of their fields is empty, all use a known archive and their names are distinct; a refusal says which of these fails and where. |
| `ReleaseAssets.InventoryIs` | scripts/check-release-artifacts.py:63-80 | The inventory spelled out for both profiles: archive and bundle, and for exactly the supported targets the worker archive and its `.sha256`; any other status is refused. |
| `ReleaseAssets.AssetNamesAreDistinct` | scripts/check-release-artifacts.py:63-80 | Under a tag that is not ambiguous, an asset name tells its target and its kind. |
| `ReleaseAssets.AmbiguousTagCollides` | scripts/check-release-artifacts.py:63-80 | Under an ambiguous stable tag two differently named targets share a name. |
| `ReleaseAssets.VersionTagIsPlain` | scripts/check-release-artifacts.py:63-80 | No tag that starts with `v` is ambiguous. |
| `ReleaseAssets.RequireExact` | scripts/check-release-artifacts.py:93-102 | Exact coverage is accepted exactly when the two sets are equal. |
| `ReleaseAssets.RequireWholeTargets` | scripts/check-release-artifacts.py:105-146 | The partial check accepts if and only if no file is foreign, every target has all of its files by name or none, and some target is there; it returns the absent targets in order, and a refusal says which of these failed. |
| `ReleaseAssets.InPlaceIff` | scripts/check-release-artifacts.py:121-139 | A target is complete exactly when its named files are all in their directories, and untouched exactly when none is. |
| `ReleaseAssets.MissingChecksumIsHalfBuilt` | scripts/check-release-artifacts.py:125-139 | A worker archive without its checksum makes a target half built. |
| `ReleaseRecovery.ValidatorsAgree` | scripts/plan-release-recovery.py:24-63 | When the partial check accepts, the planner on the union of the three sets keeps every file and builds exactly the targets the check reported missing. |
| `ReleaseRecovery.ExactIffNothingMissing` | scripts/check-release-artifacts.py:93-146 | The exact check accepts if and only if the partial check accepts with nothing missing. |
| `ReleaseRecovery.PlanAcceptsIff` | scripts/plan-release-recovery.py:41-61 | The planner accepts exactly the known assets, with metadata only when nothing is missing. |
| `ReleaseRecovery.PlanKeepsAssets` | scripts/plan-release-recovery.py:62-63 | An accepted plan keeps everything published but the metadata. |
| `ReleaseRecovery.PlanRefusesWith` | scripts/plan-release-recovery.py:41-61 | A refusal names the foreign files or, when there are none, the metadata published before the last asset. |
| `ReleaseRecovery.ExpectedIff` | scripts/plan-release-recovery.py:31-35 | A name can be published exactly when it is one of the named files of a target. |
| `ReleaseRecovery.MissingIff` | scripts/plan-release-recovery.py:48-55 | A target is to be built exactly when one of its named files is not published. |
| `ReleaseRecovery.MissingChecksumIsBuilt` | scripts/plan-release-recovery.py:48-55 | A supported target whose checksum is not published is to be built. |
| `ReleaseRecovery.NothingMissingIff` | scripts/plan-release-recovery.py:48-55 | No target is missing exactly when every expected asset exists. |
| `ReleaseRecovery.StepIsSafe` | scripts/plan-release-recovery.py:24-63 | A recovery step keeps the release acceptable and drops no retained asset. |
| `ReleaseRecovery.CompleteStaysComplete` | scripts/plan-release-recovery.py:48-55 | A complete target never returns to the build matrix. |
| `ReleaseRecovery.MissingOnlyShrinks` | scripts/plan-release-recovery.py:48-55 | More assets never mean more missing targets, and one completed target means strictly fewer. |
| `ReleaseRecovery.WholeTargetIsProgress` | scripts/plan-release-recovery.py:48-55 | Publishing a missing target whole strictly reduces the missing count. |
| `ReleaseRecovery.RunsAreSafe` | scripts/plan-release-recovery.py:24-63 | In every run every state is accepted, retained assets only grow and missing targets only shrink. |
| `ReleaseRecovery.AcceptedIsReachable` | scripts/plan-release-recovery.py:24-63 | Every accepted asset set is reached by some run, so the planner accepts no state too many. |
| `ReleaseRecovery.RecoveryContinuesIff` | scripts/plan-release-recovery.py:56-63 | After a publish run the planner accepts if and only if the run stopped before the metadata or left no target missing. |
| `ReleaseRecovery.PartialPublicationIsFinal` | scripts/plan-release-recovery.py:56-61 | After a completed run that leaves a target missing the planner refuses and no further run of the job is possible. |
| `ReleaseRecovery.OneTargetPublishedFirst` | scripts/plan-release-recovery.py:56-61 | Every release with a second target has such a run. |
| `ObserverStream.ReadTakesTheNextLine` | scripts/efficiency-scorecard.py:415-431 | A read uses exactly the next non-blank line of the byte stream, and leaves exactly the rest, however the stream is cut into chunks. |
| `ObserverStream.ReadsAreTheLines` | scripts/efficiency-scorecard.py:415-431 | Reading to the end returns the non-blank lines of the stream in order, each once. |
| `ObserverStream.LinesOfLine` | scripts/efficiency-scorecard.py:418-421 | A line of the stream is passed over exactly when it holds only white space. |
| `ObserverStream.ChunkingDoesNotMatter` | scripts/efficiency-scorecard.py:415-431 | Two pipes with the same bytes give the same lines, whatever the chunks and timeouts. |
| `ObserverStream.RequestIsCorrelated` | scripts/efficiency-scorecard.py:389-407 | A request is answered only by a reply with its own new id; all it skips are replies to others; nothing else leaves the stream. |
| `ObserverStream.LateRepliesAreIgnored` | scripts/efficiency-scorecard.py:389-407 | In every run of requests the k-th is answered, if at all, by the k-th fresh id and by no earlier one. |
| `ObserverStream.RunsLoseNothing` | scripts/efficiency-scorecard.py:389-431 | Over every run of requests the lines used are the stream's, in order, none lost and none used twice. |
| `Observer.StatusIsAnAnswer` | scripts/efficiency-scorecard.py:339-366 | A status text comes from a successful reply to the newest request on a usable, initialized connection; an unusable one stays so and is asked nothing. |
| `ObserverAnswers.ReadArrives` | scripts/efficiency-scorecard.py:415-431 | A read of a pipe that delivers a complete line takes the first one, in whatever chunks it comes. |
| `ObserverAnswers.ReadStalls` | scripts/efficiency-scorecard.py:424-429 | Once nothing more arrives a read times out, or breaks at the end of the stream. |
| `ObserverAnswers.AwaitAnswered` | scripts/efficiency-scorecard.py:400-407 | The first line that arrives in time and is no reply to another request is the outcome, and the lines behind it are left. |
| `ObserverAnswers.AwaitUnanswered` | scripts/efficiency-scorecard.py:400-407 | Without such a line the wait gives nothing, unless the stream ends. |
| `ObserverAnswers.StatusAnswered` | scripts/efficiency-scorecard.py:339-366 | The line that answers the tool request decides: a status text is the payload and an error or tool error is nothing, both leaving the connection usable; a misshapen or broken reply loses it. |
| `ObserverAnswers.FirstStatusAnswered` | scripts/efficiency-scorecard.py:339-387 | The same behind a good reply to the handshake, with the two ids used in turn. |
| `ObserverAnswers.HandshakeRefused` | scripts/efficiency-scorecard.py:368-387 | A failed handshake loses the connection before anything is asked. |
| `ObserverAnswers.StatusUnanswered` | scripts/efficiency-scorecard.py:339-366 | A call that cannot be written or meets the end of the stream loses the connection; one without an answer in time does not. |
| `ObserverAnswers.ReadyAnswerEndsWait` | scripts/efficiency-scorecard.py:657-661 | A ready answer on the open connection ends the wait with it. |
| `ObserverAnswers.ReadyDaemonIsSeen` | scripts/efficiency-scorecard.py:642-661 | A daemon that answers the handshake and then reports ready is seen to be ready in the first round, whatever other replies and chunks come with it. |
| `Observer.ExitsAreExplained` | scripts/efficiency-scorecard.py:642-685 | The wait goes on exactly past rounds that are not ready with a live daemon in time, and each exit says what its last round was. |
| `Observer.ObserversAreOrderly` | scripts/efficiency-scorecard.py:642-685 | In every run each observer but the newest was found unusable, and none is open after an exit. |
| `Observer.WaitIsSound` | scripts/efficiency-scorecard.py:642-685 | A normal return carries a payload that satisfies the predicate, and observers opened are then one more than those found unusable; on any other exit there is one more only if the last is still usable; none stays open; a phase failure needs a dead daemon or a passed deadline and a poll that is not ready. |
| `Observer.StatusObserver.constructor` | scripts/efficiency-scorecard.py:268-294 | A new observer is usable, not initialized, with an empty buffer and no id used. |
| `Observer.StatusObserver.ReadMessage` | scripts/efficiency-scorecard.py:415-431 | The buffer loop is the specified read. |
| `Observer.StatusObserver.AwaitReply` | scripts/efficiency-scorecard.py:400-407 | The reply loop is the specified wait. |
| `Observer.StatusObserver.RequestReply` | scripts/efficiency-scorecard.py:389-407 | The request is the specified one: a fresh id, a write, and the wait. |
| `Observer.StatusObserver.GetStatus` | scripts/efficiency-scorecard.py:339-387 | The status call is the specified one, with the handshake first and every caught exception making the observer unusable. |
| `Observer.Sandbox.OpenStatusObserver` | scripts/efficiency-scorecard.py:613-617 | Opening counts one process and one connection. |
| `Observer.Observe` | scripts/efficiency-scorecard.py:656-685 | One observer's rounds move the wait as specified, and it is closed on every exit. |
| `Observer.WaitFor` | scripts/efficiency-scorecard.py:642-685 | The nested loops are the specified wait; process and connection counts both grow by the observers opened; every one is closed on every exit. |
| `Orders.EnumerationIsUnique` | scripts/check-dashboard-bundle.py:124 | A set has one increasing enumeration, so sorting is canonical. |
| `Orders.Sort` | scripts/check-dashboard-bundle.py:124 | Sorting a set gives its increasing enumeration. |
| `Orders.PathLessIsStrictOrder` | scripts/check-dashboard-bundle.py:124 | Part-by-part, code-point-by-code-point comparison of paths is a strict total order. |
| `Orders.LexLessIff` | scripts/check-dashboard-bundle.py:124 | One sequence comes before another if and only if it has the smaller item where they first differ, or ends there. |
| `Digest.PathTextInjective` | scripts/check-dashboard-bundle.py:137 | Different normalised paths have different texts. |
| `Digest.PathTextAppends` | scripts/check-dashboard-bundle.py:137 | A path is written as its parts with a slash between them. |
| `Digest.ManifestRelativePaths` | scripts/check-dashboard-bundle.py:116-124 | The loop returns the distinct paths in increasing order, or refuses at the first entry that is not local. |
| `Digest.NamedPathsAreTheEntries` | scripts/check-dashboard-bundle.py:116-124 | The paths are exactly those of the entries, whatever their order or repetition. |
| `Digest.FirstEntryRefused` | scripts/check-dashboard-bundle.py:117-122 | A refusal names the first entry that is not a local path. |
| `Digest.FeedFiles` | scripts/check-dashboard-bundle.py:130-140 | The loop feeds exactly the frames of the files in order, or refuses at the first that cannot be hashed. |
| `Digest.FirstBadIsFirst` | scripts/check-dashboard-bundle.py:132-135 | The path refused is the first that is missing or too long. |
| `Digest.BundleFrame` | scripts/check-dashboard-bundle.py:136-140 | One more file adds its path as text, a NUL byte, its length in eight bytes and its contents. |
| `Digest.LeOfEight` | scripts/check-dashboard-bundle.py:139 | The eight bytes of a length are its base-256 digits, lowest first. |
| `Digest.BundlePreimage` | scripts/check-dashboard-bundle.py:127-141 | What is hashed is the prefix and the canonical stream of the listed files; it is refused exactly when an entry or a file is bad. |
| `Digest.BundleDigest` | scripts/check-dashboard-bundle.py:127-141 | The digest is the hash of `tracedecay-dashboard-bundle-v1`, a NUL byte and that stream. |
| `Digest.StreamIsInjective` | scripts/check-dashboard-bundle.py:127-141 | Two sets of files give the same stream if and only if they hold the same paths with the same contents. |
| `Digest.BundleDigestIsInjective` | scripts/check-dashboard-bundle.py:127-141 | Two bundles feed the hash the same bytes if and only if their path-to-contents maps are equal. |
| `BundleOrder.EncodeKeepsOrder` | crates/tracedecay-cli/build-support/dashboard_manifest.rs:163 | Comparing texts by code point and comparing their UTF-8 bytes is the same. |
| `BundleOrder.TextLessIff` | crates/tracedecay-cli/build-support/dashboard_manifest.rs:163 | The build script's order of two paths is the script's, except for two that cross, where it is the reverse. |
| `BundleOrder.OrdersAgreeIff` | crates/tracedecay-cli/build-support/dashboard_manifest.rs:163 | A set of paths sorted by text and sorted by parts is in the same order if and only if no two of them cross. |
| `BundleOrder.StreamsAgreeIff` | crates/tracedecay-cli/build-support/dashboard_bundle.rs:42-56 | The two implementations feed the hash the same bytes for the same files if and only if no two paths cross. |
| `BundleOrder.SomeBundlesDiffer` | crates/tracedecay-cli/build-support/dashboard_bundle.rs:42-56 | For `index.html`, `assets.css` and `assets/x.js` they feed it different bytes, whatever the contents. |
| `Digest.TreePreimage` | scripts/efficiency-scorecard.py:183-191 | The tree digest hashes the canonical stream of the files' paths and digests. |
| `Digest.TreeDigestIsInjective` | scripts/efficiency-scorecard.py:183-191 | Two trees feed the hash the same bytes if and only if they hold the same files with the same digests. |
| `Framing.FrameIsRead` | scripts/check-packaged-lsp-bridge.py:26-46 | With exactly one recognised length field among any other header lines, exactly the announced body is read, whatever follows it. |
| `Framing.PrefixIsRefused` | scripts/check-packaged-lsp-bridge.py:26-46 | Every strict prefix of such a frame is refused, as incomplete up to the blank line and as short after it. |
| `Framing.LengthIsRefusedIff` | scripts/check-packaged-lsp-bridge.py:30-36 | A complete header is refused as invalid if and only if it does not have exactly one length field, with a number. |
| `Framing.NamesFieldIff` | scripts/check-packaged-lsp-bridge.py:33 | A line is a length field if and only if it opens with the name and colon, in either case of each letter. |
| `Framing.LengthFieldReads` | scripts/check-packaged-lsp-bridge.py:31 | Its value is what follows the first colon, without the white space around it. |
| `Framing.FramingRoundTrip` | scripts/check-packaged-lsp-bridge.py:21-46 | Reading a framed value followed by anything gives the value. |
| `Framing.FramedPrefixIsRefused` | scripts/check-packaged-lsp-bridge.py:21-46 | No strict prefix of a framed value is read as anything. |
| `Features.ExpandLocalFeatures` | scripts/resolve-release-source-profile.py:13-26 | The worklist ends on every table, cyclic ones too, with exactly the features some chain reaches from the selection. |
| `Features.ReachableIsLeast` | scripts/resolve-release-source-profile.py:13-26 | What is reachable lies in every closed set that holds the selection. |
| `Features.MembersOf` | scripts/check-distribution-feature-wiring.py:327-334 | Members are collected exactly when every feature is a declared list. |
| `Features.RequireNativeLibrary` | scripts/check-distribution-feature-wiring.py:848-858 | The library side is accepted exactly when `production` is declared and reaches neither the provider host nor the test transport; a refusal names exactly those it reaches. |
| `Features.RequireDefault` | scripts/check-distribution-feature-wiring.py:863-875 | The CLI default is accepted exactly when it reaches what it must, only through declared features, and never reaches or forwards the test transport; a refusal names exactly what it lacks, or the fault it has. |
| `Features.RequireHost` | scripts/check-distribution-feature-wiring.py:876-888 | The host is accepted exactly when its closure is declared and enables the required members; a refusal names exactly those that are missing. |
| `Features.RequireReleaseProfile` | scripts/check-distribution-feature-wiring.py:839-888 | A pair of manifests is accepted exactly when both sides hold, and every refusal is one of those faults. |
| `Features.AcceptedProfiles` | scripts/check-distribution-feature-wiring.py:839-888 | In an accepted pair no chain leads from `production` to a forbidden feature, and nothing the CLI default or its host reaches is, forwards or hides the test transport. |
| `Features.DefaultHoldsIff` | scripts/check-distribution-feature-wiring.py:863-875 | The CLI default is accepted if and only if everything asked of its declared features holds and it lists declared features only. |
| `Features.DirectForwardIsRefused` | scripts/check-distribution-feature-wiring.py:869-870 | An accepted default that also lists an undeclared feature is refused, although everything asked of its declared features still holds. |
| `Features.SomeDefaultIsRefused` | scripts/check-distribution-feature-wiring.py:839-888 | With the release's own names there is a CLI manifest that is accepted, and that is refused with any dependency feature added to its default. |
| `Caches.GroupEntries` | scripts/prune-superseded-actions-caches.py:35-40 | The grouping pass holds, for each lane in order of first appearance, exactly its entries. |
| `Caches.Superseded` | scripts/prune-superseded-actions-caches.py:33-45 | Every listing of a lane's entries is selected except one of its newest, and keys without a lineage never are; lanes come in order of first appearance, each without the head of its sorted entries. |
| `Caches.SortIsStable` | scripts/prune-superseded-actions-caches.py:43 | The sort of a lane is descending in time and id and keeps listing order among ties. |
| `Caches.NewerIff` | scripts/prune-superseded-actions-caches.py:43 | Newer means a creation time that is larger where the two first differ, or goes on where the other ends, or the same time and a larger id. |
| `Caches.SelectedIff` | scripts/prune-superseded-actions-caches.py:33-45 | With distinct ids an entry is selected if and only if a newer listed entry of its lane exists. |
| `Caches.OneSurvivor` | scripts/prune-superseded-actions-caches.py:33-45 | An entry that is not selected is newer than every other of its lane, and they are all selected. |
| `Caches.SomeSurvivor` | scripts/prune-superseded-actions-caches.py:33-45 | Every lane that is listed keeps an entry. |
| `Caches.OrderDoesNotMatter` | scripts/prune-superseded-actions-caches.py:33-45 | The selection does not depend on the listing order. |
| `Caches.RerunSelectsNothing` | scripts/prune-superseded-actions-caches.py:33-45 | Running again on what was left selects nothing. |
| `Caches.SelectionIsSafeIff` | scripts/prune-superseded-actions-caches.py:33-45 | Only superseded entries are selected if and only if no two listings tie for the newest of their lane. |
| `Caches.ListedTwice` | scripts/prune-superseded-actions-caches.py:33-45 | The newest entry of a lane, listed twice, is selected. |
| `CacheKeys.ParseInvertsFormat` | scripts/rust_cache_lineage.py:30-47 | A key parses into its parts if and only if it is `v`, digits, `-rust-`, a text on one line, a dash and eight hexadecimal digits twice, with or without a final line feed; so there is one way, and lineage and generation are read from it. |
| `CachePruning.PrunedIff` | scripts/prune-superseded-actions-caches.py:33-45 | With distinct ids an entry is pruned if and only if its key is a Rust cache key and a newer listed entry of its ref has a key of the same lineage, whatever its generation and hashes. |
| `Mirror.Check` | scripts/check-dev-skill-mirrors.py:67-89 | Check reports, each path once and in path order, exactly the shared files that only one side has, those whose bytes differ and those that differ in executable bits alone; nothing exactly when the shared files agree. |
| `Mirror.HostPrivateIff` | scripts/check-dev-skill-mirrors.py:32-36 | Private are `agents/openai.yaml` and the names that end in `.test.sh`, in any directory, and nothing else. |
| `Mirror.SyncedAgrees` | scripts/check-dev-skill-mirrors.py:92-120 | After a sync the shared files of the two trees agree. |
| `Mirror.SyncedKeepsTheRest` | scripts/check-dev-skill-mirrors.py:106-119 | Host-private files, and the non-executable mode bits of files that were there, are as before; new files have the mode of a new file. |
| `Mirror.HostFilesStay` | scripts/check-dev-skill-mirrors.py:32-36 | With the script's own rule no sync touches a host's `agents/openai.yaml` or any `.test.sh` file, in any directory. |
| `Mirror.SyncBackDoesNothing` | scripts/check-dev-skill-mirrors.py:92-120 | Syncing the other way after a sync would change nothing. |
| `Mirror.NoActionsIff` | scripts/check-dev-skill-mirrors.py:106-119 | A sync has no action to report exactly when the shared files agree already. |
| `Mirror.ActionsIff` | scripts/check-dev-skill-mirrors.py:106-119 | A sync reports a write for exactly the shared files whose bytes are missing or differ, a mode change for those whose executable bits do, and a deletion for what the source does not have. |
| `Mirror.ActionsInOrder` | scripts/check-dev-skill-mirrors.py:106-119 | Writes and mode changes come first and deletions last, each in path order, a write before the mode change of its file. |
| `Mirror.SecondSyncDoesNothing` | scripts/check-dev-skill-mirrors.py:92-120 | Once the shared files agree a sync cannot fail, performs no action and changes no file. |
| `Mirror.SkillTree.MakeParents` | scripts/check-dev-skill-mirrors.py:110 | Parent directories are made exactly when no file is in the way. |
| `Mirror.SkillTree.CopyFile` | scripts/check-dev-skill-mirrors.py:108-116 | A file is brought over, keeping its other mode bits, exactly when nothing blocks its path. |
| `Mirror.SkillTree.CopyShared` | scripts/check-dev-skill-mirrors.py:106-116 | All shared files are copied with the reported actions exactly when none was blocked at the start; otherwise only listed files changed. |
| `Mirror.SkillTree.DeleteAll` | scripts/check-dev-skill-mirrors.py:117-119 | Exactly the listed files are removed. |
| `Mirror.Sync` | scripts/check-dev-skill-mirrors.py:92-120 | Sync fails if and only if the destination is in the way of a shared source file; otherwise the destination is the source's shared files with its own private ones. |
| `Mirror.SyncAndCheck` | scripts/check-dev-skill-mirrors.py:144-148 | After every successful sync the check is empty and a second sync would do nothing. |
| `Mirror.SomeTreesCannotBeSynced` | scripts/check-dev-skill-mirrors.py:110-112 | A file that became a directory, and a directory that became a file, stop the sync. |

## Left out

- Subprocesses, sockets, git, walking the file system, and time as a quantity: the model takes what they yield as parameters, and a deadline is whether it has passed.
- The insides of JSON, TOML, regular-expression Unicode classes, case folding, URL splitting and SHA-256: parameters. `\d` is the ASCII digits only.
- TailReplay.Replay: `trimmed_calls` and `trimmed_rows_used` are not recorded; the first counts blocks on one path and pages on another, the second only counts. The query run with its truth columns is not modelled.
- QueryTest.FoldsAgreeIff: the Unicode tables are parameters, of one release for both languages; that the two can be built with different releases is not modelled.
- TailPrice.ReadableRowPays: ranks have at most 4300 digits, the most that CPython's `int` converts by default; the script raises at a longer one.
- BundleOrder.StreamsAgreeIff: both sides take the same files; which manifest entries each of them refuses is not compared.
- Paging of a stored tail in the trim replay: the store is a function from handle to tail or nothing.
- Scorer.ScoreLines: the list of matched anchors kept for sanitized examples is not produced.
- The scorer's transcript loading, the exact lexing of paths and symbols in a line (an anchor is characterised, not searched for), sanitized examples and rendering.
- `timestamp_delta_seconds`, case building and rendering of the prompt report: presentational.
- ReleaseAssets.TargetMatrix: the worker platform policy it also consults is a field-by-field check of a foreign file.
- Worker checksums and the `main` functions: field-by-field checks of foreign files.
- Attestation, checksum comparison and download checks of the publish job: the model has which names are uploaded and in what order.
- Observer.WaitFor: a run that has not ended within the rounds given is reported as still waiting, because a wait without bound has no result; daemon log tails, process signalling on close and the wall-clock figures it returns are not modelled.
- Observer.StatusObserver.GetStatus: payloads are texts and their decoding is part of the message, so a payload on which the readiness predicate itself raises is not modelled.
- ObserverStream.LateRepliesAreIgnored: a reply's id is the number Python compares with an integer, so `1`, `1.0` and `true` are one id, as in the source.
- Digest.BundlePreimage: reading and validating `asset-manifest.json` is left to the caller; entries are strings.
- Framing.FrameIsRead: a length field of more digits than Python converts is refused by both as too long for the body, with another exception.
- Features.ExpandLocalFeatures: a feature value that cannot be iterated raises in the source; here every value has members.
- Mirror.Sync: file permissions never stop a write, symbolic links are not modelled, and missing host roots are refused before it.
- The closing-keyword neutraliser, the benchmark corpus generator, distribution and manifest validators, dashboard code and the Rust crates other than the ranked-tail renderer and the bundle digest: one-branch checks, presentation, or code outside the core.
