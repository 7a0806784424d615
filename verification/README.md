# Keyword occurrence analyser — a Dafny model

The analyser takes a folder of documents (PDF, DOCX, PPTX) and a list of
keywords. It counts the whole-word occurrences of each keyword in each
document and groups the counts by category, which is the folder each
document sits in. It then shows:

- one table per category, with keywords in list order and each keyword's
  files sorted by descending count;
- a final report with the most frequent keyword, the most shared keyword and
  the distinctive keyword of each category;
- a CSV export;
- in the enriched variant only, charts.

The repository has two variants of the same page, and both are modelled:

- **Plain** (`script.js`) lower-cases the text before counting.
- **Enriched** (`otros/script.js`) also surrounds each of `. , ; : " ( ) [ ]`
  with spaces and pads the whole text with one space at each end. It adds the
  charts, a summary block in the CSV and a byte-order mark.

The model is written as pure functions over immutable data. The modules follow
the stages of the page:

| module | what it holds |
|---|---|
| `Text` | ASCII lower-casing, JavaScript `trim`, `join` / `split`, decimal rendering |
| `Keywords` | the badge list: entering and removing keywords |
| `Files` | the category of a file, the supported-name test, extension dispatch, the checks before a search |
| `Extraction` | the promises of the three extractors, with what the libraries hand back as input |
| `Pptx` | slide-entry selection and the `<a:t>…</a:t>` text runs of a slide |
| `SearchText` | the text each variant searches |
| `Matcher` | keyword escaping, the `\bkeyword\b` global match and its count |
| `Analyzer` | `processFile`, the whole search, and reference definitions of what it must report |
| `Aggregate` | `aggregateResults` and its invariants |
| `Display` | the per-category tables and the in-place sort of file lists |
| `Insights` | `generateFinalSummary` |
| `Charts` | `prepareGlobalChartData` and the per-category pie data |
| `Csv` | both CSV exports |
| `Scenarios` | worked examples on concrete texts |

JavaScript objects are modelled as maps, paired with sequences that record
their insertion order. Unlike the objects, the maps inherit no keys (see
"## Left out"). `Promise.allSettled` becomes an ordered sequence of
settled results. File reading and the PDF and DOCX libraries become inputs.

Word boundaries follow section 22.2 of ECMA-262. Without the `u` or `i` flag,
a word character is one of `[A-Za-z0-9_]`, and positions outside the text
count as non-word characters. Accented letters are therefore boundaries.

Three points about what the code does:

- The most frequent and the most shared keyword are chosen by a `reduce` that
  keeps the accumulator only when it is strictly greater. A tie therefore goes
  to the LAST tied keyword. The distinctive scan is different: it replaces
  its candidate only on a strictly greater ratio, so there the FIRST tied
  keyword wins.
- Neither script has an allow-list of words or context snippets. Only counts
  and file lists are modelled.
- Reordering the settled results changes the order of the file lists and of
  the categories. It does not change totals, file sets or file counts, and
  `Aggregate.SwapInvariant` states exactly that.

## Model

| member | source | states |
|---|---|---|
| Text.LowerChar | otros/script.js:240 | a capital becomes the lower-case letter at the same place in the alphabet, and every other character is kept |
| Text.LowerIsLower | script.js:225 | lower-cased text is lower case, and lower-casing leaves text unchanged exactly when it is already lower case |
| Text.Trim | otros/script.js:35 | `trim` removes a whitespace-only prefix and suffix, and the result starts and ends with a non-whitespace character |
| Text.TrimStart | otros/script.js:35 | the leading part removed is whitespace, and what is left does not start with whitespace |
| Text.TrimEnd | otros/script.js:35 | the trailing part removed is whitespace, and what is left does not end with whitespace |
| Text.TrimOfTrimmed | otros/script.js:35 | trimming a trimmed text changes nothing |
| Text.LowerKeepsTrimmed | otros/script.js:35 | lower-casing cannot expose whitespace at either end |
| Text.Split | otros/script.js:225 | `split` pieces hold no separator and join back to the input |
| Text.SplitJoin | otros/script.js:162 | splitting a join of separator-free pieces gives the pieces back |
| Text.JoinAppend | otros/script.js:162 | joining two non-empty lists is joining each and gluing with the separator |
| Text.JoinAvoids | otros/script.js:161 | a join of pieces and a separator without a character does not contain it |
| Text.SplitHead | script.js:210 | splitting at the first separator peels off the first piece |
| Text.SplitLast | otros/script.js:225 | the last piece of a split is the text after the last separator |
| Text.NatToString | otros/script.js:414 | a count is rendered as decimal digits without leading zeros |
| Text.ParseNatToString | otros/script.js:428 | reading the rendered digits back gives the number |
| Keywords.Clean | otros/script.js:35 | a cleaned input is empty or a well-formed keyword: non-empty, trimmed, lower case |
| Keywords.CreateTag | otros/script.js:34-60 | empty input is ignored and leaves the field, a duplicate clears the field only, a new keyword is appended after the others |
| Keywords.CreateTagPreserves | otros/script.js:34-60 | the badge list stays free of duplicates and malformed entries, keeps every old keyword, and holds the cleaned input exactly when it is non-empty |
| Keywords.RemoveTag | otros/script.js:73-79 | removing badge `i` shifts the later badges down and keeps the earlier ones |
| Keywords.RemoveTagPreserves | script.js:68-74 | removal keeps the list well formed, drops the removed keyword and keeps every other one |
| Files.Category | otros/script.js:225-226 | a path without `/` falls into "Raíz", and a category never contains `/` |
| Files.CategoryIsParentFolder | script.js:210-211 | for a path with `/`, the category is exactly the folder segment right before the file's own segment |
| Files.ExtensionOfSuffix | otros/script.js:228 | a name ending in `.` and a dot-free extension, in any ASCII case, has that extension in lower case as its dispatch key |
| Files.SupportedDispatches | otros/script.js:228-234 | every name the support test accepts dispatches to one of the three extractors |
| Files.SupportedFiles | otros/script.js:199 | the supported files are exactly the selected files whose name passes the test |
| Files.SupportedFilesIsFilter | otros/script.js:199 | the supported files are the selection filtered by the test: same order, same repeats |
| Files.Preflight | otros/script.js:186-204 | no files, no keywords and no supported file are each reported exactly when they apply, in that order; otherwise the search gets the non-empty list of supported files |
| Extraction.ParseError | otros/script.js:130 | a library rejection is never reported with the reader's message |
| Extraction.ParseErrorInjective | otros/script.js:141 | the three rejection messages name different formats |
| Extraction.Extract | otros/script.js:118-168 | an extractor resolves exactly when the library parsed the file, with the page lines, the DOCX raw text or the slide texts; it rejects with the reader's message exactly when the file could not be read |
| Extraction.ExtractPdfReadsBack | otros/script.js:118-130 | the resolved PDF text splits back into one line per page, when no item holds a line feed |
| Extraction.ExtractPptxReadsBack | otros/script.js:149-164 | the resolved presentation text splits back into the slides' texts, in archive order |
| Extraction.PdfTextIsLines | otros/script.js:124-129 | the PDF text is the page lines, each followed by a line feed |
| Extraction.PdfPagesReadBack | script.js:119-124 | when no item holds a line feed, the PDF text splits back into the pages in order |
| Pptx.SlideEntries | otros/script.js:152-156 | exactly the entries named `slide…xml` are read |
| Pptx.SlideEntriesIsFilter | otros/script.js:152-156 | the slides read are the archive entries filtered by their name, in archive order |
| Pptx.CloseIn | otros/script.js:160 | the lazy match stops at the first `</a:t>` and does not cross a line terminator |
| Pptx.RunsAreTagged | otros/script.js:160 | every run found starts with `<a:t>` and ends with `</a:t>` |
| Pptx.StripTagsSubset | otros/script.js:161 | removing the tags introduces no new character |
| Pptx.RunsHaveNoLineTerminator | otros/script.js:160 | no run spans a line break, because `.` does not match a line terminator |
| Pptx.SlideTextHasNoLineFeed | otros/script.js:159-161 | the text of one slide has no line feed |
| Pptx.SlidesReadBack | otros/script.js:159-162 | the presentation text splits back into one line per slide, in slide order |
| Pptx.RunsOfSlideXml | otros/script.js:160 | a slide made of plain runs between tag-free filler yields exactly those runs |
| Pptx.SlideTextRoundTrip | script.js:154-157 | such a slide's text is the runs' contents joined by a space |
| SearchText.Pad | otros/script.js:240 | padding adds two spaces per punctuation mark, and the result never starts with a mark |
| SearchText.UnpadPad | otros/script.js:240 | removing the inserted spaces recovers the text |
| SearchText.PadSurroundsPunct | otros/script.js:240 | every punctuation mark of the padded text has a space on each side |
| SearchText.EnrichedShape | otros/script.js:240 | the enriched search text is the lowered text padded around each mark and at both ends, and it can be read back |
| SearchText.LowerKeepsPunct | otros/script.js:240 | lower-casing keeps the number of punctuation marks |
| SearchText.EnrichedPunctIsolated | otros/script.js:240 | in the enriched search text every padded mark sits strictly inside, between two spaces |
| Matcher.Escape | otros/script.js:244 | escaping adds one backslash per escaped character |
| Matcher.EscapeIsLiteral | script.js:228 | the escaped keyword is a pure literal pattern that stands for the keyword itself, whatever its characters |
| Matcher.MatchesFrom | otros/script.js:244-245 | every match the global search picks is a whole-word occurrence, and the picks are increasing and do not overlap |
| Matcher.MatchesCover | otros/script.js:245 | the global search skips no whole-word occurrence: each lies inside a picked match |
| Matcher.LeftmostUnique | otros/script.js:245 | any picking that is valid, non-overlapping and complete is the global search's result, so the greedy leftmost reading is the only one |
| Matcher.OrderedAbove | otros/script.js:245 | any two picks are at least a keyword length apart |
| Matcher.GlobalMatch | otros/script.js:245 | `match` gives null exactly when nothing matched, and otherwise one copy of the keyword per pick |
| Matcher.Count | otros/script.js:246 | the count is the number of picked matches |
| Matcher.CountZeroIff | script.js:229-230 | a count of zero means no position matches, and the reverse |
| Matcher.MatchesFit | otros/script.js:245 | a non-empty keyword cannot match more times than fit in the text |
| Analyzer.SupportedFileIsExtracted | otros/script.js:231-234 | a supported file always goes through one of the three extractors |
| Analyzer.ProcessFile | otros/script.js:224-250 | a file fails exactly when its extraction fails, with its name and the extractor's message; otherwise its category, name and counts come from its path and text |
| Analyzer.KeywordCountsFeedAggregate | otros/script.js:264-270 | a file adds its count of a listed keyword to the summary and appears in the keyword's file list exactly when that count is positive |
| Analyzer.CaseBlind | script.js:225 | the search text does not depend on the case of the document text |
| Analyzer.PreparedIsLower | otros/script.js:240 | the search text of both variants has no ASCII capital |
| Analyzer.UpperCaseKeywordNeverFound | script.js:225-230 | a keyword holding an ASCII capital is never counted |
| Analyzer.PunctuatedKeywordNeverFound | otros/script.js:240-246 | in the enriched variant, a keyword with a padded mark not followed by a space is never counted |
| Analyzer.ResultsTotal | otros/script.js:264-265 | a category's total for a keyword is the sum of that keyword's counts over the category's extracted files |
| Analyzer.ResultsDetails | otros/script.js:266-268 | a category's file list for a keyword holds exactly its files with a positive count, in file order |
| Analyzer.ResultsNames | otros/script.js:260-263 | a category's processed files are the names of its extracted files |
| Analyzer.ResultsListKeyword | otros/script.js:264 | every successful result of a category lists every keyword |
| Analyzer.CategoryTotalZero | otros/script.js:264-265 | a category's total is zero exactly when none of its files contains the keyword |
| Analyzer.SortAnalysisKeeps | otros/script.js:296 | the in-place sort keeps the categories, summaries and file counts and leaves the aggregate valid |
| Analyzer.SearchSteps | otros/script.js:171-214 | a search fails exactly on the three checks, with their error, and otherwise reports on the aggregate of the supported files |
| Analyzer.AnalyzeCounts | otros/script.js:207-214 | a category is present exactly when one of its files was extracted, lists every keyword, counts its distinct file names, and totals and lists each keyword's files, which are sorted by descending count |
| Analyzer.AnalyzeCategories | otros/script.js:207-209 | the categories shown are those of the extracted files, each once, in the order of their first extracted file |
| Analyzer.AnalyzeKeys | otros/script.js:242-247 | every category's summary keys are the keyword list, each keyword once, in first-occurrence order |
| Analyzer.AnalyzeCsvRowsFollowList | otros/script.js:408-416 | a category's CSV detail rows name its listed keywords with a positive total, in keyword-list order |
| Analyzer.AnalyzeMostFrequentCell | otros/script.js:421-428 | a category's most frequent CSV cell is `N/A` exactly when no listed keyword occurs there, and otherwise names the first listed keyword of maximal total |
| Analyzer.AnalyzeFindsNothingIff | otros/script.js:358-362 | the report says nothing was found exactly when no extracted file contains any keyword |
| Aggregate.SumCountsAppend | otros/script.js:265 | the counts in a file list sum over a concatenation |
| Aggregate.AddCountValid | otros/script.js:265-269 | adding one keyword's count keeps the category record consistent |
| Aggregate.AddCountsValid | otros/script.js:264-270 | adding a file's counts keeps the record consistent and leaves its files alone |
| Aggregate.AddFileValid | otros/script.js:260-270 | adding a file keeps the record consistent and adds its name once |
| Aggregate.FoldValid | otros/script.js:254-271 | one step of the fold keeps the whole aggregate consistent |
| Aggregate.AggregateValid | otros/script.js:252-274 | every aggregate is consistent: its totals are the sums of its positive file lists, and each file count is the number of distinct names |
| Aggregate.OkResults | otros/script.js:255 | all and only the fulfilled results are kept, in order |
| Aggregate.AddCountsEffect | otros/script.js:264-270 | a file's counts add to the summary, append to the file list only when positive, and list every keyword counted |
| Aggregate.AddFileEffect | otros/script.js:257-270 | adding a file adds its counts and its name, and nothing else |
| Aggregate.AggregateIsReference | otros/script.js:252-274 | each category record holds exactly its results: the sum of the counts, their positive entries in order, the set of names and the keywords listed |
| Aggregate.CategoryResultsAfterErr | otros/script.js:255 | rejected results add nothing to any category |
| Aggregate.AggregateSkipsRejected | otros/script.js:255 | the aggregate ignores rejected results |
| Aggregate.AggregateEmptyIff | otros/script.js:253-273 | the aggregate is empty exactly when every file was rejected |
| Aggregate.DuplicateFile | otros/script.js:260-265 | a second file of the same name in a category adds its counts again but not a second file |
| Aggregate.AggregateCounts | otros/script.js:260-269 | a category's file count is its number of distinct names, and each total equals the sum of its positive file list |
| Aggregate.TotalForAppend | otros/script.js:265 | totals add up over concatenated results |
| Aggregate.FileNamesAppend | otros/script.js:262 | name sets unite over concatenated results |
| Aggregate.AnyListsAppend | otros/script.js:264 | a keyword is listed in concatenated results exactly when it is listed in one part |
| Aggregate.AggregateCategories | otros/script.js:253-259 | the categories of the aggregate are those of the fulfilled results, each once, in the order of their first result |
| Aggregate.AggregateKeys | otros/script.js:264-265 | when every fulfilled result counts the same repeat-free keys, every category's summary keys are those keys in that order |
| Aggregate.SwapInvariant | otros/script.js:207-209 | swapping two adjacent settled results changes no category's presence, totals, listed keywords, file set or file count |
| Display.InsertPermutes | otros/script.js:296 | inserting a file entry adds exactly that entry |
| Display.InsertSorted | otros/script.js:296 | inserting into a list sorted by descending count keeps it sorted |
| Display.SortDetails | otros/script.js:296 | the sort permutes the file list |
| Display.SortDetailsSorted | otros/script.js:296 | the sorted list is in descending count order and is a permutation of the original |
| Display.SortDetailsStable | script.js:293 | files with equal counts keep their order, as `Array.prototype.sort` is stable |
| Display.SortDetailsKeepsSum | otros/script.js:296 | sorting keeps the sum and the positivity of the counts |
| Display.SortDetailsOfSorted | otros/script.js:296 | sorting a sorted list changes nothing |
| Display.SortDetailsIdempotent | otros/script.js:296 | sorting twice is sorting once, so rendering the tables again leaves the lists as they are |
| Display.Rows | otros/script.js:290-301 | a table has one row per listed keyword with a positive total, showing that total and the keyword's files sorted by descending count |
| Display.RowsFollowKeywordList | script.js:287-298 | the table rows are exactly the keywords with a positive total, in keyword-list order |
| Display.RowDetails | otros/script.js:293-299 | a row's files are a sorted permutation of the keyword's files, all positive, summing to the row total |
| Display.SortedList | otros/script.js:296 | after the in-place sort a file list keeps its entries, sum and files, and is sorted when its keyword is listed |
| Display.SortCategoryValid | otros/script.js:290-301 | the in-place sort keeps the category record consistent and changes only its file lists |
| Display.SortCategoryEffect | otros/script.js:296 | after the sort a keyword's file list is a permutation of the original, sorted when the keyword is listed |
| Insights.TickEffect | otros/script.js:347-354 | a positive count adds to the keyword's total and counts the category once, and no other keyword changes |
| Insights.TallyCategoryEffect | otros/script.js:346-355 | one category adds its total of each listed keyword, and marks it present when that total is positive |
| Insights.TallyAllIsReference | otros/script.js:337-356 | each keyword's total is its column sum over the categories, and its presence is the set of categories where it is positive, counted once each |
| Insights.TallyAll | otros/script.js:345-356 | the tallies are defined for exactly the keywords of the list |
| Insights.PresentIn | otros/script.js:350-352 | the categories where a keyword is present are those where its total is positive |
| Text.Dedup | otros/script.js:340-343 | the object keys of the tallies hold each keyword once |
| Text.DedupOfDistinct | otros/script.js:364 | a list without repeats is its own key order |
| Insights.Found | otros/script.js:364 | the found keywords are exactly those with a positive total |
| Insights.FoundIsFilter | otros/script.js:364 | the found keywords are the tally keys filtered by a positive total, in key order |
| Insights.GrandTotalPositive | otros/script.js:358-366 | the grand total is positive exactly when some keyword was found |
| Insights.LastMax | otros/script.js:367 | a strict-greater `reduce` returns a maximum, with no equal value after it |
| Insights.ScanMax | otros/script.js:378-389 | the scan returns the first maximum ratio over keywords with a positive total, or −1 when there is none |
| Insights.RatioAboveHalf | otros/script.js:383-390 | a share above one half means twice the category count exceeds the total |
| Insights.RatioLe | otros/script.js:383-384 | ratios compare as cross-multiplied counts |
| Insights.DistinctiveSpec | otros/script.js:375-394 | a category's distinctive keyword is reported exactly when the first keyword of maximal share holds more than half of that keyword's total |
| Insights.ColumnSumZero | otros/script.js:345-356 | a keyword's column sum is zero exactly when every category has it at zero |
| Insights.NoMatchesIff | otros/script.js:358-362 | "no matches" is reported exactly when every category has every keyword at zero |
| Insights.MostFrequentSpec | otros/script.js:367-368 | the most frequent keyword has a maximal total, and no later keyword ties it |
| Insights.MostSharedSpec | script.js:360-362 | the most shared keyword is present in a maximal number of categories, no later one ties it, and it is reported out of the number of categories |
| Insights.ReportShape | otros/script.js:364-373 | a report is built from a non-empty set of found keywords, all with positive totals |
| Insights.SharedCountsCategories | otros/script.js:370-372 | the most shared keyword's number of categories is the number of categories where it is present |
| Charts.Labels | otros/script.js:477 | the labels are exactly the listed keywords present in some category |
| Charts.LabelsIsFilter | otros/script.js:477 | the labels are the keyword list filtered by presence in some category: list order, repeats kept |
| Charts.LabelTotalIsDatasetSum | otros/script.js:478 | a label's total is the sum of that label's entries over the datasets |
| Charts.LabelTotalPositive | otros/script.js:477-478 | a label's total is positive exactly when some category has the keyword |
| Charts.ChartAlignment | otros/script.js:476-484 | the bar and radar series are aligned with the labels and categories, and every bar is positive and equal to its column sum |
| Charts.ChartMatchesSummary | otros/script.js:476-484 | the chart labels are the report's found keywords, and each bar is that keyword's total in the report |
| Charts.PieMatchesTable | otros/script.js:507-517 | a category's pie shows the same keywords as its table, in the same order and with the same totals, and is absent exactly when the table is empty |
| Charts.PieLabelsAreChartLabels | otros/script.js:511 | every keyword of a pie is a label of the global charts |
| Display.Positive | otros/script.js:410 | the keywords kept are those with a positive total; the CSV filters the summary keys with it, and the table the keyword list |
| Csv.DetailRowNeverNA | script.js:403 | a keyword with a positive total always has its files listed, never `N/A` |
| Csv.CategoryRowsSpec | otros/script.js:408-416 | a category exports one row per positive summary key, holding the category, keyword, total and quoted file list |
| Csv.AllCategoryRowsSpec | script.js:397-406 | every detail row names a present category and a keyword with a positive total there |
| Csv.SummaryTotalIsDetailSum | otros/script.js:421-424 | a category's summary total equals the sum of the totals in its detail rows |
| Csv.FirstMax | otros/script.js:421-427 | the summary's most frequent cell takes the FIRST maximal key, or none when every count is zero |
| Csv.FirstMaxFindsPositive | otros/script.js:427 | a maximum is found exactly when some key has a positive total |
| Csv.MostFrequentCellSpec | otros/script.js:421-428 | the cell is `N/A` exactly when no key is positive, and otherwise the first key of maximal total with that total |
| Csv.MostFrequentCellOfList | otros/script.js:421-428 | with the summary keys equal to a keyword list, the cell is `N/A` exactly when every keyword of it is at zero, and otherwise names its first keyword of maximal total |
| Csv.NoPositiveIff | otros/script.js:410 | no keyword is kept by the positive filter exactly when every keyword is at zero |
| Csv.MostFrequentCellAt | otros/script.js:421-428 | when some key has a positive total, the cell names the key `FirstMax` picks, with its total; that key has a maximal total and no earlier key reaches it |
| Csv.RowReadsBack | script.js:408 | a row whose fields hold no comma reads back field by field |
| Csv.CommaShiftsColumns | otros/script.js:414 | a comma inside a category or keyword adds a column, because fields are not quoted |
| Csv.LinesReadBack | otros/script.js:431 | the exported text splits back into its lines when no field holds a line feed |
| Csv.CsvShape | otros/script.js:431-432 | the enriched export is the byte-order mark, the plain export's rows, a line feed and the summary block |
| Scenarios.CatScenario | script.js:225-230 | "cat" is counted twice in "Cats category cat-nap CAT.", at the hyphenated word and at the capitalised word before the full stop |
| Scenarios.AccentScenario | script.js:228 | "canci" is counted in "canción", because `ó` is not a word character |
| Scenarios.AbbreviationScenario | otros/script.js:240-246 | "e.g" is counted once in "e.g. x" by the plain variant and never by the enriched variant |
| Scenarios.TieGoesToLast | otros/script.js:367-372 | with two keywords tied on total and on presence, both the most frequent and the most shared are the second |

## Left out

- The DOM, the tag badges as elements, messages, loader, modal, theme and the
  expand/collapse of detail rows. These are presentation. The badge list is
  modelled as a sequence.
- `FileReader`, pdf.js, mammoth and JSZip. Reading bytes and parsing formats
  happen in libraries the model cannot see. What they hand back is an input
  to `Extraction.Extract`. PDF pages arrive as their text items, and a
  presentation arrives as its archive entries.
- The order in which `zip.folder(...).forEach` visits entries. It is taken
  to be the order of the entries given.
- Concurrency of `Promise.allSettled`. Its settled results keep the input
  order, so they are modelled as a sequence in file order.
- Floating-point ratios. They are exact reals here. `Math.round(maxRatio * 100)`
  only formats the percentage in the report text, so it is not modelled.
- Full Unicode `toLowerCase`. Only ASCII letters are lowered, and other
  characters are kept. Accented capitals are therefore not lowered in the
  model.
- Keys inherited from `Object.prototype`. The source keeps counts, records and
  tallies in plain objects. A keyword or folder named `constructor`,
  `toString`, `valueOf`, `hasOwnProperty` or `__proto__` therefore reads an
  inherited member. `summary[k] || 0` then yields a function, and the sum
  becomes a string. `details[k].push` or `processedFiles.has` throws, and the
  search shows nothing. An assignment to `counts["__proto__"]` is dropped, so
  that keyword is never reported. The model's maps have no inherited keys and
  treat these names like any other. Every lemma about the aggregate, the report
  and the CSV therefore holds for the source only when no keyword or category
  is one of these names.
- The ordering of integer-like object keys. JavaScript lists them first, in
  numeric order. The model keeps insertion order for all keys, which matches
  whenever no category or keyword is a canonical array index.
- `Blob`, `URL.createObjectURL`, the download link, the plain variant's
  `data:text/csv;charset=utf-8,` prefix and `encodeURI`. `Csv.CsvText` is the
  text before these steps.
- The "no data to save" alert of the CSV button. The model exports a given
  analysis.
- Chart.js rendering, colours and canvas lookup.
- The rendered HTML of the report and tables. The model produces their
  content, but not the markup.
- The `else` path of the extension dispatch, where no extractor runs and the
  text stays empty. It is modelled in `Analyzer.FileText`, but
  `Analyzer.SupportedFileIsExtracted` shows that no supported file reaches it.
- Analyzer.AnalyzeFindsNothingIff: requires a keyword list without repeats, as
  the badge list always is (`Keywords.CreateTagPreserves`). The report's loop
  over the list adds a repeated keyword's count once per repetition
  (otros/script.js:346-349), and the lemma is not stated for that case. The
  aggregate itself sees a repeated keyword once, because `processFile` stores
  the counts in an object (`Analyzer.KeywordCounts` keys on `Text.Dedup`,
  and `Analyzer.AnalyzeKeys` shows the summary keys are the list once each).
- Insights.NoMatchesIff: requires a keyword list without repeats, for the same
  reason.
- Charts.ChartMatchesSummary: requires a keyword list without repeats, for the
  same reason.
- Analyzer.Search: the report, the charts and the CSV are computed on the
  aggregate after the tables have sorted its file lists in place. This matches
  the order of calls in the source. The report and the charts read only
  totals, so for them the sort makes no difference.
