# Real-estate scraper: a Dafny model of the URL pipeline

This project models the core of a Next.js application that finds property
listings on a real-estate site and extracts user-defined fields from them.
The pipeline it models has these steps:

1. **Link discovery.** A site map is reduced to the property links, those
   ending in `/sv<digits>` (`getPropertyUrls`).
2. **Categorisation.** A language model sorts a sample of the links into
   categories with examples (`findUrlTypes`). The links are sent in batches of
   500, at most 2000 in all. The answers are merged. A category's first report
   is stored as given, with all its examples. Each later report appends the new
   examples and then cuts the list to its first 5, so the stored examples can
   lose entries they had before.
3. **Filtering and browsing.** The links are filtered by the selected
   categories, either by example membership or by one generated regex per
   category (`URLPatternMatcher`). The `generate-patterns` route gathers the
   examples the pattern generator sees. The agent wizard's tree view browses
   the links as a path hierarchy (`HTMLThree`).
4. **Configuration.** The wizard gathers the data fields, parses CSV headers,
   steps through its pages and saves a job configuration (`customLLM`,
   `agent/page.tsx`).
5. **Test run.** The `test-scraping` route processes a few URLs. It answers
   with a JSON reply or a stream of server-sent events. The scraping page
   reads the stream chunk by chunk and folds the events into its progress
   state. The test-URL limit it uses is clamped by `TestControls`.

Everything the application gets from the outside is a parameter of the model:

- a regular-expression engine;
- the URL parser;
- `parseInt`;
- `JSON.parse`;
- the language model's answers;
- the Firecrawl map call;
- the per-URL scrape outcomes;
- the pattern generator;
- the HTTP reply the page receives;
- whether `localStorage` accepts a write;
- the clock value used as a field id.

Helper modules:

- `Wrappers`: `Option` and `Result`.
- `Seqs`: `filter`, `map`, an insertion-ordered `Set` as `AddAll`/`Dedup`, and flattening.
- `Text`: ASCII lower-casing, JavaScript's `trim`, `includes`, `indexOf`, `split` and `join`.
- `Records`: a plain JavaScript object used as a dictionary. It is an association list with unique keys in insertion order.
- `Arith`: small arithmetic facts.
- `Platform`: the types of the external oracles.

## Model

| member | source | states |
|---|---|---|
| UrlPatternMatcher.MatchByRegex | src/lib/url-pattern-matcher.ts:25-37 | true iff some pattern both compiles and matches the URL; an empty list never matches |
| UrlPatternMatcher.BadPatternIsIgnored | src/lib/url-pattern-matcher.ts:29-35 | a pattern that fails to compile can be removed from the list without changing the answer |
| UrlPatternMatcher.LiteralPatternIsPrefix | src/lib/url-pattern-matcher.ts:49-54 | a path pattern without `*` is a case-insensitive prefix test on the pathname |
| UrlPatternMatcher.WildcardMatchExtends | src/lib/url-pattern-matcher.ts:53-54 | only the start is anchored: a matching pathname still matches with any text appended |
| UrlPatternMatcher.StarThenLiteral | src/lib/url-pattern-matcher.ts:49-54 | `*lit` matches iff `lit` occurs, ignoring case, after a run free of line terminators |
| UrlPatternMatcher.AnyWildcardMatches | src/lib/url-pattern-matcher.ts:47-55 | true iff some wildcard pattern matches the pathname |
| UrlPatternMatcher.MatchByPath | src/lib/url-pattern-matcher.ts:42-60 | false for an empty list or an unparseable URL; otherwise true iff some pattern matches the start of the parsed pathname |
| UrlPatternMatcher.AnyIndicatorIn | src/lib/url-pattern-matcher.ts:69-71 | true iff some lower-cased indicator is a substring of the lower-cased URL |
| UrlPatternMatcher.MatchByIndicators | src/lib/url-pattern-matcher.ts:65-72 | true iff some indicator occurs in the URL, ignoring ASCII case; an empty list never matches |
| UrlPatternMatcher.EmptyIndicatorMatchesAll | src/lib/url-pattern-matcher.ts:68-71 | an empty indicator matches every URL |
| UrlPatternMatcher.IncludesFrom | src/lib/url-pattern-matcher.ts:79 | the linear search finds `x` iff it occurs at or after `from` |
| UrlPatternMatcher.MatchByExamples | src/lib/url-pattern-matcher.ts:77-80 | true iff the URL is one of the examples, compared exactly |
| UrlPatternMatcher.MatchCategory | src/lib/url-pattern-matcher.ts:85-97 | `matches` iff `matchedBy` is non-empty iff the URL is an example; `matchedBy` is `[]` or `["examples"]` |
| UrlPatternMatcher.MatchPattern | src/lib/url-pattern-matcher.ts:102-114 | `matches` iff `matchedBy` is non-empty iff the single regex compiles and matches; `matchedBy` is `[]` or `["regex"]` |
| UrlPatternMatcher.ContributionMembership | src/lib/url-pattern-matcher.ts:134-145 | a URL is added to a name's list iff it is in the input, the name has a definition, and the definition matches it |
| UrlPatternMatcher.Contributions | src/lib/url-pattern-matcher.ts:133-146 | one contribution per selected name, in selection order |
| UrlPatternMatcher.InitMatches | src/lib/url-pattern-matcher.ts:127-130 | after the first loop the keys are the distinct selected names in first-selection order, each with an empty list |
| UrlPatternMatcher.ScanStep | src/lib/url-pattern-matcher.ts:133-146 | one pass of the second loop adds no key |
| UrlPatternMatcher.ScanStepLists | src/lib/url-pattern-matcher.ts:141-143 | a pass appends the name's matches to its own list and leaves every other list alone |
| UrlPatternMatcher.ScanStepSeen | src/lib/url-pattern-matcher.ts:143 | a pass adds the name's matches to the running `Set` in first-seen order |
| UrlPatternMatcher.SeenSnoc | src/lib/url-pattern-matcher.ts:125-149 | the `Set` after one more name is the old `Set` plus that name's new matches |
| UrlPatternMatcher.ScanCategories | src/lib/url-pattern-matcher.ts:133-146 | the second loop keeps the keys of the first and the `Set` free of duplicates |
| UrlPatternMatcher.ScanCategoriesResult | src/lib/url-pattern-matcher.ts:133-146 | each name's list is its matches repeated once per time the name was selected |
| UrlPatternMatcher.ScanCategoriesSeen | src/lib/url-pattern-matcher.ts:125-149 | the `Set` holds every match of every selected name once, in first-seen order |
| UrlPatternMatcher.FilterWith | src/lib/url-pattern-matcher.ts:119-159 | keys, lists, the duplicate-free ordered union as `filteredUrls`, and stats counting the input and `filteredUrls` |
| UrlPatternMatcher.RepeatMembership | src/lib/url-pattern-matcher.ts:142 | a list repeated `k` times holds `u` iff `k > 0` and the list holds it |
| UrlPatternMatcher.ListMembership | src/lib/url-pattern-matcher.ts:138-145 | a selected name's reported list holds exactly its matching URLs |
| UrlPatternMatcher.FilteredIsUnionOfLists | src/lib/url-pattern-matcher.ts:141-149 | a URL is in `filteredUrls` iff some selected name's list holds it |
| UrlPatternMatcher.FilterMonotone | src/lib/url-pattern-matcher.ts:133-149 | selecting one more name only extends `filteredUrls`: the old result is a prefix of the new one |
| UrlPatternMatcher.MissingDefinitionGivesEmptyList | src/lib/url-pattern-matcher.ts:127-135 | a selected name without a definition keeps its empty list |
| UrlPatternMatcher.SingleSelectionList | src/lib/url-pattern-matcher.ts:138-145 | a name selected once lists its matching URLs in input order |
| UrlPatternMatcher.FilterUrlsByCategories | src/lib/url-pattern-matcher.ts:119-159 | one key per distinct selected name; `filteredUrls` is duplicate-free and drawn from the input; stats count the input and the result |
| UrlPatternMatcher.CategoryListIsExamples | src/lib/url-pattern-matcher.ts:134-145 | in examples mode a selected name lists exactly the input URLs among its category's examples |
| UrlPatternMatcher.CategorySingleSelection | src/lib/url-pattern-matcher.ts:138-145 | a category selected once lists its example URLs in input order, input duplicates kept |
| UrlPatternMatcher.CategoriesUnion | src/lib/url-pattern-matcher.ts:141-149 | a URL is kept iff some selected category's list holds it |
| UrlPatternMatcher.FilterUrlsByPatterns | src/lib/url-pattern-matcher.ts:164-204 | the same shape of result as the category filter, in regex mode |
| UrlPatternMatcher.PatternListIsHits | src/lib/url-pattern-matcher.ts:179-190 | a selected name lists exactly the input URLs its regex compiles and matches |
| UrlPatternMatcher.PatternSingleSelection | src/lib/url-pattern-matcher.ts:183-190 | a pattern selected once lists its hits in input order |
| UrlPatternMatcher.PatternsUnion | src/lib/url-pattern-matcher.ts:186-194 | a URL is kept iff some selected pattern's list holds it |
| UrlPatternMatcher.ListDependsOnOwnDefinition | src/lib/url-pattern-matcher.ts:134-145 | a name's list is the same under any two definition maps that agree on that name |
| UrlPatternMatcher.FilteredWithinInput | src/lib/url-pattern-matcher.ts:141-149 | every URL in the combined list is one of the input URLs |
| UrlPatternMatcher.AnyPatternHits | src/lib/url-pattern-matcher.ts:25-37 | true exactly when some pattern of the list finds the URL |
| UrlPatternMatcher.PatternChangeIsLocal | src/lib/url-pattern-matcher.ts:178-191 | changing one category's pattern leaves every other category's list unchanged |
| CustomLlm.CreateScrapingJobConfig | src/lib/customLLM.ts:155-165 | base URL and categories copied; the kept fields are exactly the given fields with a name and a description, in order |
| CustomLlm.JobConfigFields | src/lib/customLLM.ts:163 | the kept fields of a concatenation are the kept fields of each part |
| CustomLlm.GetFieldNames | src/lib/customLLM.ts:170-172 | the non-empty names of the fields, no more names than fields |
| CustomLlm.FieldNamesCompose | src/lib/customLLM.ts:171 | names distribute over concatenation; an unnamed field contributes none |
| CustomLlm.ValidateScrapingConfig | src/lib/customLLM.ts:177-205 | each error is reported iff its condition holds; valid iff there is no error; errors in check order |
| CustomLlm.ErrorsInOrder | src/lib/customLLM.ts:182-200 | any selection of the four checks lists its errors in the checks' order, and lists an error exactly when its check was selected |
| CustomLlm.CompleteFieldsFound | src/lib/customLLM.ts:195-200 | the filter for fields with both a name and a description is empty exactly when no field has both |
| CustomLlm.ValidatedJobConfig | src/lib/customLLM.ts:155-205 | for a configuration built by `createScrapingJobConfig` the two field errors appear together, and it is valid iff it has a base URL, a selected category and a complete field |
| CustomLlm.NamedLines | src/lib/customLLM.ts:46-48 | one rendered line per named field |
| CustomLlm.NamedLinesSnoc | src/lib/customLLM.ts:46-48 | appending a field appends its line iff it has a name |
| CustomLlm.NamedLineFor | src/lib/customLLM.ts:46-48 | every named field's line is among the lines |
| CustomLlm.CreateFormatInstructions | src/lib/customLLM.ts:45-59 | the text starts with the header and ends with the footer, and holds a schema line for every named field |
| CustomLlm.FormatShape | src/lib/customLLM.ts:51-59 | the instructions are the schema body followed by the fixed footer |
| CustomLlm.FormatInstructionsIgnoreUnnamed | src/lib/customLLM.ts:47 | an unnamed field leaves the instructions unchanged |
| CustomLlm.FormatInstructionsSnoc | src/lib/customLLM.ts:46-49 | a named field adds its schema line, after `",\n"` unless it is the first |
| CustomLlm.FieldInstructions | src/lib/customLLM.ts:69-75 | one instruction line per named field; empty without named fields |
| CustomLlm.FieldInstructionsSnoc | src/lib/customLLM.ts:69-75 | a named field appends its line after a newline unless it is the first; an unnamed one changes nothing |
| AgentWizard.FirstLine | src/app/agent/page.tsx:310-313 | the first line of the trimmed upload: a prefix of it without a newline, cut at its first newline |
| AgentWizard.DetectSeparator | src/app/agent/page.tsx:316-322 | `;` iff the line has more semicolons than commas, otherwise `,` |
| AgentWizard.StripEdgeQuotes | src/app/agent/page.tsx:337-344 | a quote-free text is unchanged; nothing is added |
| AgentWizard.UnquotedSeparators | src/app/agent/page.tsx:329-341 | the separators outside quotes are at most all the separators |
| AgentWizard.PushedHeader | src/app/agent/page.tsx:337 | a pushed field is the trimmed text read since the last separator, with no quote left to strip |
| AgentWizard.CsvStepKeeps | src/app/agent/page.tsx:329-341 | one iteration of the character loop keeps the loop invariant |
| AgentWizard.CsvScanFacts | src/app/agent/page.tsx:329-341 | the loop invariant holds after any line |
| AgentWizard.FinishFacts | src/app/agent/page.tsx:343-348 | the returned headers are non-empty, trimmed and quote-free, at most one more than the unquoted separators |
| AgentWizard.ParseCsvHeaders | src/app/agent/page.tsx:309-350 | the loop computes the headers; they are non-empty, trimmed and quote-free; at most one more than the unquoted separators |
| AgentWizard.QuoteFreeHeaders | src/app/agent/page.tsx:309-350 | without quotes the headers are the non-empty trimmed pieces of the first line split on the separator |
| AgentWizard.QuoteFreeLine | src/app/agent/page.tsx:325-350 | finishing the scan of any quote-free line gives its non-empty trimmed pieces |
| AgentWizard.FinishQuoteFree | src/app/agent/page.tsx:343-348 | finishing a quote-free scan keeps the non-empty trimmed pieces |
| AgentWizard.QuoteFreeScan | src/app/agent/page.tsx:329-341 | the scan of a quote-free line holds the trimmed pieces read so far and the current piece |
| AgentWizard.QuoteFreeStep | src/app/agent/page.tsx:336-340 | one quote-free character either closes a piece or extends the current one, as a split does |
| AgentWizard.QuoteFreeScanSnoc | src/app/agent/page.tsx:329-341 | one more quote-free character moves the scan to the state of the split it extends |
| AgentWizard.QuoteFreeCurrent | src/app/agent/page.tsx:329-341 | reading a quote-free line never leaves a quote in the field being read |
| AgentWizard.ScanInsideQuotes | src/app/agent/page.tsx:332-340 | inside quotes every character but a quote is copied, separators included |
| AgentWizard.QuotedFieldIsOneHeader | src/app/agent/page.tsx:309-350 | a field wrapped in quotes is one header, whatever separators it contains |
| AgentWizard.QuotedFirstLine | src/app/agent/page.tsx:310-313 | a one-line quoted upload is its own first line |
| AgentWizard.QuotedScan | src/app/agent/page.tsx:329-341 | scanning a quoted field collects its inside and ends outside quotes |
| AgentWizard.QuotedFinish | src/app/agent/page.tsx:343-348 | the collected inside becomes the single trimmed header |
| AgentWizard.ToggleCategory | src/app/agent/page.tsx:146-150 | membership flips for the toggled name only; a selected name is removed everywhere, an unselected one appended |
| AgentWizard.ToggleTwice | src/app/agent/page.tsx:146-150 | toggling an unselected name twice restores the selection |
| AgentWizard.ToggleTwiceReorders | src/app/agent/page.tsx:146-150 | toggling a selected name twice can move it to the end |
| AgentWizard.SetAttr | src/app/agent/page.tsx:298-300 | the spread update sets one attribute and keeps the others |
| AgentWizard.AddDataField | src/app/agent/page.tsx:273-281 | a blank field with the new id is appended after the existing ones |
| AgentWizard.AddedFieldIsInert | src/app/agent/page.tsx:273-281 | a new blank field changes neither the field names nor the saved configuration's fields |
| AgentWizard.RemoveDataField | src/app/agent/page.tsx:288-290 | the fields without the id are kept in order, with their multiplicities |
| AgentWizard.UpdateDataField | src/app/agent/page.tsx:292-301 | only fields carrying the id change, in the named attribute only |
| AgentWizard.UpdateIdempotent | src/app/agent/page.tsx:292-301 | repeating an update changes nothing more |
| AgentWizard.RemoveAfterUpdate | src/app/agent/page.tsx:288-301 | removing a field undoes an edit of any attribute but its id |
| AgentWizard.HandleNext | src/app/agent/page.tsx:209-271 | each step's guard and outcome: only steps 2 and 3 advance, each to the next step; step 4 shows the incomplete-fields error iff no field is complete, the storage error iff some field is complete but saving fails, and launches with the built configuration iff some field is complete and saving succeeds; the second field check (:239-248) never reports its error; every other case changes nothing |
| AgentWizard.LaunchedConfigHasFields | src/app/agent/page.tsx:219-262 | a launched configuration passes both field checks of `validateScrapingConfig` |
| UrlAnalysis.SkipGap | src/lib/url-analysis.ts:155-156 | indices strictly between multiples of the step are skipped |
| UrlAnalysis.EveryNthAt | src/lib/url-analysis.ts:155-156 | counting from index `j*step`, the `t`-th URL kept is the one at index `(j+t)*step` |
| UrlAnalysis.EveryNthLength | src/lib/url-analysis.ts:155-156 | counting from index `j*step`, no multiple of the step below the length is missed |
| UrlAnalysis.EveryNthFromStart | src/lib/url-analysis.ts:155-156 | the `t`-th kept URL is the one at index `t*step`, and at least 2000 are kept when the list holds `2000*step` URLs |
| UrlAnalysis.SampleUrls | src/lib/url-analysis.ts:145-158 | at most 2000 URLs are unchanged; more give exactly 2000, the `t`-th at index `t*floor(n/2000)`; the first URL is always kept |
| UrlAnalysis.Batches | src/lib/url-analysis.ts:164-166 | the batches concatenate to the sample; each holds 1 to 500 URLs, all but the last exactly 500; batch `i` is the slice from `500*i` |
| UrlAnalysis.NewExamples | src/lib/url-analysis.ts:188-193 | the incoming examples not already present, in incoming order, each repeat inside the incoming list kept as often as it occurs there |
| UrlAnalysis.MergedExamples | src/lib/url-analysis.ts:188-198 | a known category's list after a merge: as long as old plus new examples capped at 5, its first part is the old examples cut to 5, and what follows them is a prefix of the new examples, so it is exactly old plus new cut to 5 |
| UrlAnalysis.MergeCategory | src/lib/url-analysis.ts:181-198 | a first report is stored as given, however many examples it has; a known category keeps its type, its old examples cut to the first 5 stay a prefix, and after them come the leading new examples in order, up to a total of 5; other categories and key order are unchanged |
| UrlAnalysis.MergeKnownExamples | src/lib/url-analysis.ts:187-197 | merging only known examples just applies the cut to 5 |
| UrlAnalysis.MergeEntries | src/lib/url-analysis.ts:179-200 | the keys are the old keys plus the newly reported names, in entry order |
| UrlAnalysis.MergeOutcome | src/lib/url-analysis.ts:170-205 | a batch adds exactly the names it reports; a failed batch adds none |
| UrlAnalysis.AnalyzeSnoc | src/lib/url-analysis.ts:164-205 | one more batch merges its answer into the running result |
| UrlAnalysis.FailedBatchContributesNothing | src/lib/url-analysis.ts:179-205 | a failed batch, or one reporting no categories, can be removed without changing the result |
| UrlAnalysis.AnalysisKeys | src/lib/url-analysis.ts:164-205 | the categories found are every reported name once, in first-report order |
| UrlAnalysis.KindIsStable | src/lib/url-analysis.ts:181-198 | once found, a category keeps its type through all later batches |
| UrlAnalysis.OutcomeKeepsKind | src/lib/url-analysis.ts:179-200 | one batch keeps a known category and its type |
| UrlAnalysis.EntriesKeepKind | src/lib/url-analysis.ts:180-199 | merging entries keeps a known category and its type |
| UrlAnalysis.MergeKeepsKind | src/lib/url-analysis.ts:181-198 | merging one reported category, of any name, keeps a known category and its type |
| UrlAnalysis.FindUrlTypes | src/lib/url-analysis.ts:143-205 | the result's categories are the distinct names reported for the batches of the sample |
| UrlAnalysis.AtMostFourBatches | src/lib/url-analysis.ts:144-166 | at most four batches are ever sent |
| UrlTree.CategoryForUrl | src/components/HTMLThree.tsx:57-64 | `undefined` iff no category lists the URL; otherwise the first category in entry order that lists it |
| UrlTree.TreeLinks | src/components/HTMLThree.tsx:67-73 | all links when the filter is off; otherwise the links whose first category is non-empty and selected, in order |
| UrlTree.VisibleUrls | src/components/HTMLThree.tsx:253-267 | the count is the total when the filter is off, and never exceeds it |
| UrlTree.VisibleUrlsEmpty | src/components/HTMLThree.tsx:254-267 | with the filter on, an empty link list counts zero |
| UrlTree.VisibleUrlsSnoc | src/components/HTMLThree.tsx:254-267 | with the filter on, one more link adds one exactly when some selected category's examples include it, and zero otherwise |
| UrlTree.TreeLinksAreCounted | src/components/HTMLThree.tsx:253-267 | every link in the tree is counted, so the tree never has more links than the count |
| UrlTree.CountAndTreeCanDiffer | src/components/HTMLThree.tsx:253-267 | a link whose first category is unselected is counted but left out of the tree |
| UrlTree.Segments | src/components/HTMLThree.tsx:82-84 | the pieces are non-empty and free of `/`; they keep the order of the `/`-split, and hold every non-empty piece of it exactly as often as it occurs and no empty one |
| UrlTree.SegmentsOfJoin | src/components/HTMLThree.tsx:82-84 | a pathname made of `/` and the `/`-join of non-empty, `/`-free segments gives back exactly those segments |
| UrlTree.CurrentPathIsJoin | src/components/HTMLThree.tsx:91 | the running path is the `/`-join of the segments so far: empty iff there are none, with one `/` fewer than segments |
| UrlTree.AddSegment | src/components/HTMLThree.tsx:90-107 | the path gets a node if it had none, and existing nodes are kept |
| UrlTree.AddPath | src/components/HTMLThree.tsx:90-107 | existing nodes are kept; the keys are the old keys plus the running path after every segment; the full path has a node |
| UrlTree.PrefixPathsAre | src/components/HTMLThree.tsx:90-92 | the running path after `k` segments is the path of the first `k` segments |
| UrlTree.AddPathPrefixes | src/components/HTMLThree.tsx:90-107 | every prefix of the link's path has a node, and every new node is for such a prefix |
| UrlTree.AddPathDepth | src/components/HTMLThree.tsx:90-107 | in a well-formed map, the node reached after the segment loop is as deep as there are segments |
| UrlTree.AddLink | src/components/HTMLThree.tsx:79-125 | the root is never changed |
| UrlTree.AddLinks | src/components/HTMLThree.tsx:79 | the root is never changed |
| UrlTree.BuildTree | src/components/HTMLThree.tsx:46-127 | fails iff the base URL does not parse; the root is the hostname node at depth 0 (which path nodes it holds is stated by `UrlTree.BuildTreeFacts`) |
| UrlTree.AddSegmentWellFormed | src/components/HTMLThree.tsx:93-104 | a new node sits under its path, its depth is its segment count, its parent exists |
| UrlTree.AddPathWellFormed | src/components/HTMLThree.tsx:90-107 | the segment loop keeps every path node well formed |
| UrlTree.LeavesSurviveGrowth | src/components/HTMLThree.tsx:93-104 | adding path nodes keeps every leaf's parent |
| UrlTree.NewLeafWellFormed | src/components/HTMLThree.tsx:110-122 | a new leaf hangs under the link's path with depth one more than its parent's |
| UrlTree.AddLinkFacts | src/components/HTMLThree.tsx:79-125 | one link keeps the tree well formed and existing nodes unchanged; a parsed link's path prefixes all have nodes |
| UrlTree.QueryLeafFor | src/components/HTMLThree.tsx:113-121 | the leaf shows the link with the link's category, hangs under the given path one level below its node, and its path extends that path by exactly the query and fragment, which also name it ("params" when both are empty) |
| UrlTree.LeafDepth | src/components/HTMLThree.tsx:82-122 | a link with a query or fragment gets one leaf, for that link, named by its query and fragment, one level below its last segment, under the joined path, with path the joined path followed by the query and fragment, and with the link's category |
| UrlTree.AddLinksFacts | src/components/HTMLThree.tsx:79-125 | the whole build keeps the tree well formed and never replaces a node |
| UrlTree.BadLinkIsSkipped | src/components/HTMLThree.tsx:123-125 | an unparseable link can be removed without changing the tree |
| UrlTree.BuildTreeFacts | src/components/HTMLThree.tsx:46-127 | the built tree is well formed, and a path has a node iff it is the path of the first `k` segments of some shown link that parses |
| UrlTree.AddLinksKeys | src/components/HTMLThree.tsx:79-107 | every path node after the loop existed before it or is a prefix path of a processed link that parses |
| UrlTree.LinksCovered | src/components/HTMLThree.tsx:90-107 | every prefix of every parsed link's path has a node |
| UrlTree.ToggleNode | src/components/HTMLThree.tsx:140-150 | the path's membership flips and nothing else changes |
| UrlTree.ToggleNodeTwice | src/components/HTMLThree.tsx:140-150 | toggling twice restores the set |
| Firecrawl.CleanUrl | src/lib/firecrawl.ts:48 | the cleaned link is trimmed, free of `?` and `#`, and a substring of the original |
| Firecrawl.BeforeFirst | src/lib/firecrawl.ts:48 | the text before the first separator is returned unchanged |
| Firecrawl.QueryIsIgnored | src/lib/firecrawl.ts:48 | whatever follows the first `?` does not change the cleaned link |
| Firecrawl.CleanUrlKeepsCleanLinks | src/lib/firecrawl.ts:48 | a link with no `?` or `#` is cleaned by trimming alone, so one without edge white space is its own cleaned form |
| Firecrawl.FragmentIsIgnored | src/lib/firecrawl.ts:48 | whatever follows the first `#` of a link with no `?` before it does not change the cleaned link, even a `?` inside the fragment |
| Firecrawl.TrailingDigits | src/lib/firecrawl.ts:44 | the length of the maximal run of digits ending the text |
| Firecrawl.TrailingDigitsExact | src/lib/firecrawl.ts:44 | any maximal final run of digits has that length |
| Firecrawl.AcceptedHasMatch | src/lib/firecrawl.ts:44 | a text the computed test accepts has a place where `/\/sv\d+\/?$/i` matches |
| Firecrawl.MatchIsAccepted | src/lib/firecrawl.ts:44 | a text where `/\/sv\d+\/?$/i` matches somewhere is accepted by the computed test |
| Firecrawl.IsPropertyUrlMeansMatch | src/lib/firecrawl.ts:44-50 | the computed test accepts exactly the texts `/\/sv\d+\/?$/i` matches somewhere |
| Firecrawl.PropertyLinkShape | src/lib/firecrawl.ts:44-50 | `…/sv<digits>` and `…/SV<digits>/` both pass |
| Firecrawl.PropertyLinks | src/lib/firecrawl.ts:46-53 | the kept links are the original links whose cleaned form passes, in order |
| Firecrawl.CollectPropertyLinks | src/lib/firecrawl.ts:42-53 | the loop computes the kept links and adds no link |
| Firecrawl.GetPropertyUrls | src/lib/firecrawl.ts:4-71 | the missing-key and thrown-error messages; an empty answer unless the call succeeded with links; `count` is the number of links |
| Firecrawl.ReturnedLinksPass | src/lib/firecrawl.ts:41-58 | every returned link came from the map and passes the pattern |
| TestScraping.ResultFor | src/app/api/test-scraping/route.ts:121-181 | the result for one URL: data only when analysed; otherwise "No content extracted" or the thrown message |
| TestScraping.ResultsUpTo | src/app/api/test-scraping/route.ts:248-296 | the `i`-th result is the result for URL `i`, one per URL |
| TestScraping.ResultsPrefix | src/app/api/test-scraping/route.ts:91-196 | the result list only grows |
| TestScraping.Summarize | src/app/api/test-scraping/route.ts:298-310 | successes and errors add up to the results, successes being the results with data |
| TestScraping.SummaryCountsEveryUrl | src/app/api/test-scraping/route.ts:298-310 | every URL is counted once, as a success iff its analysis returned data |
| TestScraping.TraditionalResults | src/app/api/test-scraping/route.ts:243-296 | the loop gives one result per URL, in order |
| TestScraping.LoopEvents | src/app/api/test-scraping/route.ts:91-196 | two events per URL: progress before it, its result after |
| TestScraping.StreamEvents | src/app/api/test-scraping/route.ts:77-219 | an opening event, two per URL and a completion |
| TestScraping.StreamOpens | src/app/api/test-scraping/route.ts:77-87 | the stream opens with an empty progress event at 0 |
| TestScraping.StreamAnnounces | src/app/api/test-scraping/route.ts:101-111 | URL `i` is announced with `current = i`, its text and the results so far |
| TestScraping.StreamReports | src/app/api/test-scraping/route.ts:131-194 | URL `i`'s result follows, with `current = i + 1` and a list ending in it |
| TestScraping.StreamCompletes | src/app/api/test-scraping/route.ts:199-219 | the last event completes with `current = total`, all results and the summary |
| TestScraping.StreamTotals | src/app/api/test-scraping/route.ts:77-219 | every event reports the number of URLs as `total` |
| TestScraping.Post | src/app/api/test-scraping/route.ts:20-64 | 400 for missing or non-array URLs, then for a config whose `dataFields` is falsy or has `length` 0 (a truthy non-array passes); a stream iff `Accept` has `text/event-stream`; 500 on an unreadable body; the JSON reply holds, at each position, the result of processing that URL, with the summary of those results; the stream is the event sequence `StreamEvents` describes |
| TestScraping.PathsAgree | src/app/api/test-scraping/route.ts:199-310 | the stream's completion and the JSON reply carry the same results and summary |
| ScrapingClient.SliceEnd | src/app/scraping/page.tsx:105 | where `slice(0, end)` stops: the end capped by the length, or counted from the back when negative |
| ScrapingClient.TestUrls | src/app/scraping/page.tsx:105-111 | the first URLs up to the limit, or the "No URLs found to test" error iff that is empty |
| ScrapingClient.TestUrlsArePrefix | src/app/scraping/page.tsx:105 | a positive limit picks the first `min(limit, n)` URLs |
| ScrapingClient.SplitFrames | src/app/scraping/page.tsx:146-147 | the frames and the kept buffer join back to the buffer; none contains `"\n\n"` |
| ScrapingClient.Reduce | src/app/scraping/page.tsx:154-198 | the three event kinds copy the counts and results; only `complete` sets `isComplete` and stops testing; others change nothing |
| ScrapingClient.HandleFrame | src/app/scraping/page.tsx:149-201 | only `data: ` frames are decoded, from character 6; an unparseable payload is skipped |
| ScrapingClient.HandleFrames | src/app/scraping/page.tsx:149-203 | the progress and its error survive any frames |
| ScrapingClient.HandleFramesAppend | src/app/scraping/page.tsx:149-203 | handling two frame lists is handling their concatenation |
| ScrapingClient.ReadChunks | src/app/scraping/page.tsx:138-204 | the progress and its error survive; the kept buffer never holds a whole frame separator |
| ScrapingClient.ChunkingIsIrrelevant | src/app/scraping/page.tsx:138-204 | however the text is cut into chunks, the frames handled are all pieces of the whole text but the last, which stays in the buffer |
| ScrapingClient.Fail | src/app/scraping/page.tsx:205-217 | the catch records the message, marks the run complete and stops testing |
| ScrapingClient.HandleTestDataRetrieval | src/app/scraping/page.tsx:91-218 | nothing happens without a config or filter result; an empty selection fails with its message; otherwise progress is always shown |
| ScrapingClient.ServerTextSplits | src/app/api/test-scraping/route.ts:77-219 | the route's stream text splits back into one frame per event and an empty tail |
| ScrapingClient.FramesAreEvents | src/app/scraping/page.tsx:149-203 | when parsing undoes encoding, handling the frames is reducing the events |
| ScrapingClient.ReduceAllKeepsProgress | src/app/scraping/page.tsx:154-198 | events never clear the progress or its error |
| ScrapingClient.TestingStopsOnComplete | src/app/scraping/page.tsx:183-197 | testing stops iff some event is `complete` |
| ScrapingClient.CompletionIsSticky | src/app/scraping/page.tsx:183-197 | once complete, the progress stays complete |
| ScrapingClient.StreamEndsComplete | src/app/scraping/page.tsx:183-196 | folding the route's events ends on the `complete` event: `current = total = n`, every result, complete, testing stopped |
| ScrapingClient.ClientShowsServerResults | src/app/scraping/page.tsx:134-204 | whatever the chunking, reading the route's stream ends complete with `current = total = n`, the route's results, no error, and testing stopped |
| GeneratePatterns.CategoryExamples | src/app/api/generate-patterns/route.ts:17-23 | a key exactly for each selected name whose category has an `examples` array, holding those examples unchanged |
| GeneratePatterns.CategoryExamplesOrder | src/app/api/generate-patterns/route.ts:17-23 | the keys are those names, once each, in first-selection order |
| GeneratePatterns.Post | src/app/api/generate-patterns/route.ts:4-50 | 400 for a falsy parameter; 500 when `selectedCategories` is truthy but not an array, or when a non-empty selection meets an analysis without `url_categories`; 400 when no selected category has examples; otherwise the generator's patterns, or 500 with its message |
| GeneratePatterns.GeneratorSeesSelectedExamples | src/app/api/generate-patterns/route.ts:17-38 | a successful reply comes from the generator asked about exactly the selected categories with examples |
| TestControls.ClampLimit | src/components/scraping/TestControls.tsx:37-44 | at least 1; at most the count when there are URLs; values in range kept; missing, zero or negative input gives 1 |
| TestControls.ClampIsIdempotent | src/components/scraping/TestControls.tsx:37-44 | clamping a clamped limit changes nothing |
| TestControls.ClampIsMonotone | src/components/scraping/TestControls.tsx:37-44 | a larger input never gives a smaller limit |
| TestControls.ClampedLimitIsHonoured | src/components/scraping/TestControls.tsx:37-44 | a clamped limit over a non-empty list picks exactly that many URLs, the first ones |

## Left out

- **Object keys.** JavaScript objects are modelled as insertion-ordered association lists. The model does not cover:
  - integer-like keys, which `Object.keys` lists first;
  - prototype keys such as `constructor` or `__proto__`, which read as defined even when never set.
- **Case folding.** Lower-casing and the regex `i` flag are modelled for ASCII letters only. Non-ASCII case folding is left out.
- **Floating point.** `averageProcessingTime` and `processingTime` are left out: they are floating point and read the clock. `Summarize` counts successes and errors only.
- **Timers and effects.** The one-second delay between URLs is left out, and so are `console` logging and navigation. `localStorage` reads are left out; whether a write succeeds is a parameter.
- **Outside services.** Language-model calls, Firecrawl calls, page scraping and the HTTP transport are left out. Each is a parameter giving its answer.
- **Bytes.** The `TextDecoder` is left out. Chunks are the decoded text, and byte-level splitting of multi-byte characters is not modelled.
- **Tree order.** `sortNode` orders children with `localeCompare`, and `children` lists are not modelled: path nodes are keyed by path. Sorting depends on the locale's collation, which is not modelled. Node expansion is modelled by `ToggleNode` only.
- **Zod schemas.** `createCustomSchema` and `analyzeCustomPropertyData` build Zod schemas and call the model. They are left out; extraction results are opaque JSON text.
- **The rest of `createCustomPrompt`.** Only its field instruction list (`FieldInstructions`) is modelled.
- UrlAnalysis.MergeCategory: a language-model answer whose category has no `examples` array makes the source throw part-way through a batch, which keeps the entries merged before the throw. Answers are modelled as always carrying examples.
- **An undefined `dataFields` array.** `validateScrapingConfig` throws in that case; the model's configuration always has an array.
- ScrapingClient.HandleTestDataRetrieval: states the early return, the empty-selection error and that progress is always shown. The streamed outcome is stated separately by `ClientShowsServerResults`. The HTTP status is taken as its decimal text.
- ScrapingClient.HandleTestDataRetrieval: a read failure of the stream in the middle (a rejected `reader.read()`) is not modelled.
- GeneratePatterns.Post: the message of the `TypeError` thrown when `urlAnalysis` has no `url_categories`, or when `selectedCategories` has no `forEach`, is not modelled. The reply is a 500 with `None` as its message.
- GeneratePatterns.Post: a truthy `examples` value that is not an array is copied to the generator as it is. The model's categories carry either no examples or an array of them, so this case is not modelled.
- TestScraping.Post: a `urls` value that is not an array is modelled as a missing one; both get the same 400 reply.
- TestScraping.Post: a truthy `dataFields` that is not an array is not rejected by the source unless its `length` is the number 0. The model keeps only that fact about such a value; the URLs are then processed as for a valid configuration.
- TestScraping.Post: the `result` field of each `result` event is not modelled. It repeats the last entry of that event's `results`, which is modelled, and the page does not read it.
- **Unused matchers.** `matchCategory` consults only the examples, as the source does. The path, indicator and regex matchers are modelled on their own.
