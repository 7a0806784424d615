/** One search: the per-file step (`processFile`) and the pipeline from the
    selected folder to the aggregate, the rendered tables, the final report,
    the charts and the CSV text. */
module Analyzer {
  import opened Wrappers
  import opened Text
  import opened Files
  import opened SearchText
  import opened Matcher
  import opened Aggregate
  import opened Insights
  import opened Display
  import Charts
  import Csv
  import Extraction

  /** What extracting a file in a given format resolves or rejects with. */
  type Extractor = (SelectedFile, Format) -> Result<string, string>

  /** The extractor the page wires up, given what the libraries make of each file. */
  function Libraries(read: SelectedFile -> Extraction.Contents): Extractor {
    (f: SelectedFile, fmt: Format) => Extraction.Extract(fmt, read(f))
  }

  // ---------------------------------------------------------------------------
  // processFile

  /** The text `processFile` counts in: the extractor's result for a known
      extension, and the empty text for any other. */
  function FileText(f: SelectedFile, extract: Extractor): Result<string, string> {
    match FormatOf(Extension(f.name))
    case Some(fmt) => extract(f, fmt)
    case None => Ok("")
  }

  /** `counts[keyword] = matches ? matches.length : 0` for each keyword of the
      list. The object holds one entry per distinct keyword, in first-occurrence
      order: a repeated keyword assigns its own entry again, with the same
      count. The pattern is the escaped keyword between two `\b`;
      `Matcher.EscapeIsLiteral` shows it matches the keyword literally. */
  function KeywordCounts(v: Variant, text: string, ks: seq<string>): (r: seq<KeywordCount>)
    ensures |r| == |Dedup(ks)|
    ensures forall i :: 0 <= i < |r| ==> r[i].keyword == Dedup(ks)[i]
  {
    var keys := Dedup(ks);
    seq(|keys|, i requires 0 <= i < |keys| => KeywordCount(keys[i], Count(Prepare(v, text), keys[i])))
  }

  /** `processFile`: the file's category, name and counts, or the file's name
      and the extractor's message when extraction is rejected. */
  function ProcessFile(v: Variant, f: SelectedFile, ks: seq<string>, extract: Extractor): (r: Settled)
    ensures r.Ok? <==> FileText(f, extract).Ok?
    ensures r.Err? ==> r.error == FileError(f.name, FileText(f, extract).error)
    ensures r.Ok? ==> r.value.category == Category(f.relativePath) && r.value.fileName == f.name
    ensures r.Ok? ==> r.value.counts == KeywordCounts(v, FileText(f, extract).value, ks)
  {
    match FileText(f, extract)
    case Err(e) => Err(FileError(f.name, e))
    case Ok(text) => Ok(FileResult(Category(f.relativePath), f.name, KeywordCounts(v, text, ks)))
  }

  /** A supported file always reaches an extractor: the empty-text fallback of
      an unknown extension is never taken for the files a search processes. */
  lemma SupportedFileIsExtracted(f: SelectedFile, extract: Extractor)
    requires IsSupported(f.name)
    ensures FormatOf(Extension(f.name)).Some?
    ensures FileText(f, extract) == extract(f, FormatOf(Extension(f.name)).value)
  {
    SupportedDispatches(f.name);
  }

  /** What one file's counts contribute to the aggregate: the count of a
      listed keyword, once even when the list repeats it, a detail exactly when
      that count is positive, and nothing for a keyword outside the list. */
  lemma KeywordCountsFeedAggregate(v: Variant, text: string, ks: seq<string>, name: string, k: string)
    ensures CountFor(KeywordCounts(v, text, ks), k) == (if k in ks then Count(Prepare(v, text), k) else 0)
    ensures DetailsFor(name, KeywordCounts(v, text, ks), k) ==
      (if k in ks && Count(Prepare(v, text), k) > 0 then [Detail(name, Count(Prepare(v, text), k))] else [])
    ensures Lists(KeywordCounts(v, text, ks), k) <==> k in ks
  {
    var n := (x: string) => Count(Prepare(v, text), x);
    var r := KeywordCounts(v, text, ks);
    var keys := Dedup(ks);
    assert forall i :: 0 <= i < |keys| ==> r[i] == KeywordCount(keys[i], n(keys[i]));
    TalliesFeed(r, keys, n, name, k);
  }

  // ---------------------------------------------------------------------------
  // What the search text lets a keyword match

  /** Counting ignores the case of the text: the text and its lower-cased copy
      are prepared into the same search text. */
  lemma CaseBlind(v: Variant, text: string)
    ensures Prepare(v, text) == Prepare(v, Lower(text))
  {
    LowerIsLower(Lower(text));
  }

  lemma {:induction false} PadKeepsLower(s: string)
    requires IsLower(s)
    ensures IsLower(Pad(s))
  {
    if s != [] {
      PadKeepsLower(s[1..]);
      var head := if IsPaddedPunct(s[0]) then [' ', s[0], ' '] else [s[0]];
      assert Pad(s) == head + Pad(s[1..]);
      forall i | 0 <= i < |Pad(s)| ensures !IsAsciiUpper(Pad(s)[i]) {
        if i >= |head| {
          assert Pad(s)[i] == Pad(s[1..])[i - |head|];
        }
      }
    }
  }

  /** The search text holds no upper-case ASCII letter. */
  lemma PreparedIsLower(v: Variant, text: string)
    ensures IsLower(Prepare(v, text))
  {
    LowerIsLower(text);
    if v == Enriched {
      PadKeepsLower(Lower(text));
      var p := Prepare(Enriched, text);
      forall i | 0 <= i < |p| ensures !IsAsciiUpper(p[i]) {
        if 0 < i < |p| - 1 {
          assert p[i] == Pad(Lower(text))[i - 1];
        }
      }
    }
  }

  /** A keyword with an upper-case ASCII letter is never found, whatever the
      text: the text is lower-cased and the keyword is not. This is why keywords
      are lower-cased when they are entered. */
  lemma UpperCaseKeywordNeverFound(v: Variant, text: string, k: string, j: nat)
    requires j < |k| && IsAsciiUpper(k[j])
    ensures Count(Prepare(v, text), k) == 0
  {
    var t := Prepare(v, text);
    PreparedIsLower(v, text);
    forall p: nat ensures !MatchAt(t, k, p) {
      if p + |k| <= |t| {
        assert t[p..p + |k|][j] == t[p + j];
      }
    }
    CountZeroIff(t, k);
  }

  /** In the enriched variant a keyword in which a padded mark is directly
      followed by something other than a space is never found: in the search
      text every such mark is followed by a space. */
  lemma PunctuatedKeywordNeverFound(text: string, k: string, j: nat)
    requires j + 1 < |k| && IsPaddedPunct(k[j]) && k[j + 1] != ' '
    ensures Count(Prepare(Enriched, text), k) == 0
  {
    var t := Prepare(Enriched, text);
    forall p: nat ensures !MatchAt(t, k, p) {
      if p + |k| <= |t| {
        assert t[p..p + |k|][j] == t[p + j];
        assert t[p..p + |k|][j + 1] == t[p + j + 1];
        if IsPaddedPunct(t[p + j]) {
          EnrichedPunctIsolated(text, p + j);
        }
      }
    }
    CountZeroIff(t, k);
  }

  // ---------------------------------------------------------------------------
  // Reference: what a search should report, file by file

  /** The count of `k` in a file, or 0 when its extraction is rejected. */
  function FileCount(v: Variant, f: SelectedFile, extract: Extractor, k: string): nat {
    match FileText(f, extract)
    case Ok(text) => Count(Prepare(v, text), k)
    case Err(_) => 0
  }

  /** The count of `k` in each file of category `c`; files of other categories weigh 0. */
  function CategoryWeight(v: Variant, extract: Extractor, c: string, k: string): SelectedFile -> nat {
    (f: SelectedFile) => if Category(f.relativePath) == c then FileCount(v, f, extract, k) else 0
  }

  /** The sum of `w` over the files. */
  function SumOver(fs: seq<SelectedFile>, w: SelectedFile -> nat): nat
    decreases |fs|
  {
    if fs == [] then 0 else SumOver(fs[..|fs| - 1], w) + w(fs[|fs| - 1])
  }

  /** The sum of the counts of `k` over the files of category `c`. */
  function CategoryTotal(v: Variant, fs: seq<SelectedFile>, extract: Extractor, c: string, k: string): nat {
    SumOver(fs, CategoryWeight(v, extract, c, k))
  }

  /** The files of category `c` with a positive count of `k`, in order. */
  function FileDetails(v: Variant, fs: seq<SelectedFile>, extract: Extractor, c: string, k: string): seq<Detail>
    decreases |fs|
  {
    if fs == [] then []
    else
      var f := fs[|fs| - 1];
      var n := FileCount(v, f, extract, k);
      FileDetails(v, fs[..|fs| - 1], extract, c, k) + (if Category(f.relativePath) == c && n > 0 then [Detail(f.name, n)] else [])
  }

  /** The names of the files of category `c` whose extraction succeeded. */
  function CategoryNames(fs: seq<SelectedFile>, extract: Extractor, c: string): set<string> {
    set i | 0 <= i < |fs| && Category(fs[i].relativePath) == c && FileText(fs[i], extract).Ok? :: fs[i].name
  }

  /** `processingPromises`: one settled result per file, in order. */
  function Results(v: Variant, fs: seq<SelectedFile>, ks: seq<string>, extract: Extractor): (rs: seq<Settled>)
    ensures |rs| == |fs|
    ensures forall i :: 0 <= i < |fs| ==> rs[i] == ProcessFile(v, fs[i], ks, extract)
  {
    seq(|fs|, i requires 0 <= i < |fs| => ProcessFile(v, fs[i], ks, extract))
  }

  lemma CategoryNamesSnoc(fs: seq<SelectedFile>, extract: Extractor, c: string)
    requires fs != []
    ensures var f := fs[|fs| - 1];
      CategoryNames(fs, extract, c) == CategoryNames(fs[..|fs| - 1], extract, c) +
        (if Category(f.relativePath) == c && FileText(f, extract).Ok? then {f.name} else {})
  {
    var init := fs[..|fs| - 1];
    assert forall i :: 0 <= i < |init| ==> init[i] == fs[i];
  }

  /** The results of all but the last file are the results of the files before it. */
  lemma ResultsSnoc(v: Variant, fs: seq<SelectedFile>, ks: seq<string>, extract: Extractor, c: string)
    requires fs != []
    ensures var f := fs[|fs| - 1]; var r := ProcessFile(v, f, ks, extract);
      CategoryResults(Results(v, fs, ks, extract), c) ==
        CategoryResults(Results(v, fs[..|fs| - 1], ks, extract), c) + (if r.Ok? && Category(f.relativePath) == c then [r.value] else [])
  {
    var rs := Results(v, fs, ks, extract);
    assert rs[..|rs| - 1] == Results(v, fs[..|fs| - 1], ks, extract);
  }

  /** The total of `k` over the successful results of category `c` is the sum
      of the counts of `k` in the files of `c`. */
  lemma {:induction false} ResultsTotal(v: Variant, fs: seq<SelectedFile>, ks: seq<string>, extract: Extractor, c: string, k: string)
    requires k in ks
    ensures TotalFor(CategoryResults(Results(v, fs, ks, extract), c), k) == CategoryTotal(v, fs, extract, c, k)
    decreases |fs|
  {
    if fs != [] {
      var init := fs[..|fs| - 1];
      var f := fs[|fs| - 1];
      ResultsTotal(v, init, ks, extract, c, k);
      ResultsSnoc(v, fs, ks, extract, c);
      var prev := CategoryResults(Results(v, init, ks, extract), c);
      var cur := CategoryResults(Results(v, fs, ks, extract), c);
      var r := ProcessFile(v, f, ks, extract);
      CategoryTotalSnoc(v, fs, extract, c, k);
      if r.Ok? && Category(f.relativePath) == c {
        assert cur == prev + [r.value];
        assert cur[..|cur| - 1] == prev;
        assert TotalFor(cur, k) == TotalFor(prev, k) + CountFor(r.value.counts, k);
        KeywordCountsFeedAggregate(v, FileText(f, extract).value, ks, f.name, k);
      } else {
        assert cur == prev;
      }
    }
  }

  /** The details of `k` over the successful results of category `c` are the
      files of `c` with a positive count of `k`, in order. */
  lemma {:induction false} ResultsDetails(v: Variant, fs: seq<SelectedFile>, ks: seq<string>, extract: Extractor, c: string, k: string)
    requires k in ks
    ensures AllDetailsFor(CategoryResults(Results(v, fs, ks, extract), c), k) == FileDetails(v, fs, extract, c, k)
    decreases |fs|
  {
    if fs != [] {
      var init := fs[..|fs| - 1];
      var f := fs[|fs| - 1];
      ResultsDetails(v, init, ks, extract, c, k);
      ResultsSnoc(v, fs, ks, extract, c);
      var prev := CategoryResults(Results(v, init, ks, extract), c);
      var cur := CategoryResults(Results(v, fs, ks, extract), c);
      var r := ProcessFile(v, f, ks, extract);
      var n := FileCount(v, f, extract, k);
      assert FileDetails(v, fs, extract, c, k) == FileDetails(v, init, extract, c, k) +
        (if Category(f.relativePath) == c && n > 0 then [Detail(f.name, n)] else []);
      if r.Ok? && Category(f.relativePath) == c {
        assert cur == prev + [r.value];
        assert cur[..|cur| - 1] == prev;
        assert AllDetailsFor(cur, k) == AllDetailsFor(prev, k) + DetailsFor(f.name, r.value.counts, k);
        KeywordCountsFeedAggregate(v, FileText(f, extract).value, ks, f.name, k);
      } else {
        assert cur == prev;
      }
    }
  }

  /** The names over the successful results of category `c` are the names of
      the files of `c` that were extracted. */
  lemma {:induction false} ResultsNames(v: Variant, fs: seq<SelectedFile>, ks: seq<string>, extract: Extractor, c: string)
    ensures FileNames(CategoryResults(Results(v, fs, ks, extract), c)) == CategoryNames(fs, extract, c)
    decreases |fs|
  {
    if fs != [] {
      var init := fs[..|fs| - 1];
      var f := fs[|fs| - 1];
      ResultsNames(v, init, ks, extract, c);
      ResultsSnoc(v, fs, ks, extract, c);
      CategoryNamesSnoc(fs, extract, c);
      var prev := CategoryResults(Results(v, init, ks, extract), c);
      var cur := CategoryResults(Results(v, fs, ks, extract), c);
      var r := ProcessFile(v, f, ks, extract);
      if r.Ok? && Category(f.relativePath) == c {
        assert cur == prev + [r.value];
        assert cur[..|cur| - 1] == prev;
        assert FileNames(cur) == FileNames(prev) + {f.name};
      } else {
        assert cur == prev;
      }
    }
  }

  /** Every successful result of category `c` lists every keyword of the list. */
  lemma ResultsListKeyword(v: Variant, fs: seq<SelectedFile>, ks: seq<string>, extract: Extractor, c: string, k: string)
    requires k in ks
    ensures var cr := CategoryResults(Results(v, fs, ks, extract), c);
      forall j :: 0 <= j < |cr| ==> Lists(cr[j].counts, k)
  {
    var rs := Results(v, fs, ks, extract);
    var listsK := (r: FileResult) => Lists(r.counts, k);
    forall i | 0 <= i < |rs| && rs[i].Ok?
      ensures listsK(rs[i].value)
    {
      KeywordCountsFeedAggregate(v, FileText(fs[i], extract).value, ks, fs[i].name, k);
    }
    CategoryResultsAll(rs, c, listsK);
  }

  /** The last file adds its count to the total of its own category only. */
  lemma CategoryTotalSnoc(v: Variant, fs: seq<SelectedFile>, extract: Extractor, c: string, k: string)
    requires fs != []
    ensures var f := fs[|fs| - 1];
      CategoryTotal(v, fs, extract, c, k) == CategoryTotal(v, fs[..|fs| - 1], extract, c, k) +
        (if Category(f.relativePath) == c then FileCount(v, f, extract, k) else 0)
  {
  }

  /** A sum is zero exactly when every file weighs zero. */
  lemma {:induction false} SumOverZero(fs: seq<SelectedFile>, w: SelectedFile -> nat)
    ensures SumOver(fs, w) == 0 <==> forall i :: 0 <= i < |fs| ==> w(fs[i]) == 0
    decreases |fs|
  {
    if fs != [] {
      var init := fs[..|fs| - 1];
      SumOverZero(init, w);
      assert forall i :: 0 <= i < |init| ==> init[i] == fs[i];
    }
  }

  lemma CategoryTotalZero(v: Variant, fs: seq<SelectedFile>, extract: Extractor, c: string, k: string)
    ensures CategoryTotal(v, fs, extract, c, k) == 0 <==>
      forall i :: 0 <= i < |fs| && Category(fs[i].relativePath) == c ==> FileCount(v, fs[i], extract, k) == 0
  {
    SumOverZero(fs, CategoryWeight(v, extract, c, k));
  }

  // ---------------------------------------------------------------------------
  // The search

  /** The charts of the enriched variant: the global series and one pie per
      category, in category order. */
  datatype Graphics = Graphics(global: Charts.ChartData, pies: seq<Charts.Pie>)

  /** Everything a search produces: the aggregate as left after rendering (each
      listed keyword's file list sorted), one table per category, the final
      report, the charts (enriched variant only) and the CSV text. */
  datatype Outcome = Outcome(analysis: Analysis, tables: seq<seq<Row>>, report: Report, charts: Option<Graphics>, csv: string)

  /** The aggregate of the supported files' results, after the tables sorted
      its file lists in place. */
  function Analyze(v: Variant, fs: seq<SelectedFile>, ks: seq<string>, extract: Extractor): Analysis {
    SortAnalysis(AggregateResults(Results(v, fs, ks, extract)), ks)
  }

  /** One table of rows per category, in category order. */
  function Tables(a: Analysis, ks: seq<string>): (r: seq<seq<Row>>)
    ensures |r| == |a.categories|
  {
    seq(|a.categories|, j requires 0 <= j < |a.categories| => Rows(Cat(a, a.categories[j]), ks))
  }

  /** The charts: drawn by the enriched variant only. */
  function ChartsOf(v: Variant, a: Analysis, ks: seq<string>): (r: Option<Graphics>)
    ensures r.Some? <==> v == Enriched
  {
    if v == Enriched then
      Some(Graphics(Charts.GlobalChartData(a, ks),
        seq(|a.categories|, j requires 0 <= j < |a.categories| => Charts.PieOf(Cat(a, a.categories[j]), ks))))
    else None
  }

  /** What a search produces from the supported files. */
  function Outcomes(v: Variant, supported: seq<SelectedFile>, ks: seq<string>, extract: Extractor): Outcome {
    var a := Analyze(v, supported, ks, extract);
    Outcome(a, Tables(AggregateResults(Results(v, supported, ks, extract)), ks), FinalSummary(a, ks), ChartsOf(v, a, ks), Csv.CsvText(v, a))
  }

  /** The click handler of the search button followed by a CSV export. */
  function Search(v: Variant, files: seq<SelectedFile>, ks: seq<string>, extract: Extractor): Result<Outcome, PreflightError> {
    match Preflight(files, ks)
    case Err(e) => Err(e)
    case Ok(supported) => Ok(Outcomes(v, supported, ks, extract))
  }

  /** The analysis after the sort: same categories, same summaries and file
      counts, still valid. */
  lemma SortAnalysisKeeps(a: Analysis, ks: seq<string>, c: string)
    requires Valid(a)
    ensures Valid(SortAnalysis(a, ks))
    ensures SortAnalysis(a, ks).categories == a.categories
    ensures (c in SortAnalysis(a, ks).data) == (c in a.data)
    ensures Cat(SortAnalysis(a, ks), c).summary == Cat(a, c).summary
    ensures Cat(SortAnalysis(a, ks), c).fileCount == Cat(a, c).fileCount
  {
    var s := SortAnalysis(a, ks);
    forall d | d in s.data ensures ValidCategory(s.data[d]) {
      SortCategoryValid(a.data[d], ks);
    }
  }

  /** A search fails exactly when no file was selected, the keyword list is
      empty or no selected file is supported, with the first failing check's
      error; otherwise it analyses the supported files and reports on that
      analysis. */
  lemma SearchSteps(v: Variant, files: seq<SelectedFile>, ks: seq<string>, extract: Extractor)
    ensures Search(v, files, ks, extract).Err? <==>
      |files| == 0 || |ks| == 0 || forall f :: f in files ==> !IsSupported(f.name)
    ensures Search(v, files, ks, extract).Err? ==> Search(v, files, ks, extract).error == Preflight(files, ks).error
    ensures Search(v, files, ks, extract).Ok? ==>
      && Search(v, files, ks, extract).value.analysis == Analyze(v, SupportedFiles(files), ks, extract)
      && Search(v, files, ks, extract).value.report == FinalSummary(Analyze(v, SupportedFiles(files), ks, extract), ks)
  {
    var pre := Preflight(files, ks);
    if pre.Ok? {
      assert Search(v, files, ks, extract) == Ok(Outcomes(v, pre.value, ks, extract));
      OutcomesReport(v, pre.value, ks, extract);
    } else {
      assert Search(v, files, ks, extract) == Err(pre.error);
    }
  }

  /** The outcome carries the analysis and the report computed from it. */
  lemma OutcomesReport(v: Variant, supported: seq<SelectedFile>, ks: seq<string>, extract: Extractor)
    ensures Outcomes(v, supported, ks, extract).analysis == Analyze(v, supported, ks, extract)
    ensures Outcomes(v, supported, ks, extract).report == FinalSummary(Analyze(v, supported, ks, extract), ks)
  {
  }

  /** For a listed keyword `k`, repeated in the list or not: the record of
      category `c` exists iff some file of `c` was extracted, and then lists
      `k` in its summary, even with a total of 0; its file count is
      the number of distinct names of those files; its total for `k` is the sum
      of their counts; and its file list for `k` holds the files with a
      positive count, sorted by descending count. */
  lemma AnalyzeCounts(v: Variant, fs: seq<SelectedFile>, ks: seq<string>, extract: Extractor, c: string, k: string)
    requires k in ks
    ensures var a := Analyze(v, fs, ks, extract);
      && Valid(a)
      && (c in a.data <==> CategoryNames(fs, extract, c) != {})
      && (c in a.data ==> k in Cat(a, c).summary)
      && Cat(a, c).fileCount == |CategoryNames(fs, extract, c)|
      && SummaryOf(Cat(a, c), k) == CategoryTotal(v, fs, extract, c, k)
      && multiset(DetailsOf(Cat(a, c), k)) == multiset(FileDetails(v, fs, extract, c, k))
      && SortedDesc(DetailsOf(Cat(a, c), k))
  {
    var rs := Results(v, fs, ks, extract);
    var a0 := AggregateResults(rs);
    AggregateValid(rs);
    AggregateIsReference(rs, c, k);
    AggregateCounts(rs, c, k);
    ResultsTotal(v, fs, ks, extract, c, k);
    ResultsDetails(v, fs, ks, extract, c, k);
    ResultsNames(v, fs, ks, extract, c);
    ResultsListKeyword(v, fs, ks, extract, c, k);
    SortAnalysisKeeps(a0, ks, c);
    var cr := CategoryResults(rs, c);
    assert |cr| > 0 <==> FileNames(cr) != {} by {
      if |cr| > 0 {
        assert cr[|cr| - 1].fileName in FileNames(cr);
        assert Lists(cr[|cr| - 1].counts, k);
      }
    }
    if c in a0.data {
      SortCategoryEffect(a0.data[c], ks, k);
    }
  }

  /** The report says nothing was found exactly when no listed keyword occurs
      in any extracted file. */
  lemma AnalyzeFindsNothingIff(v: Variant, fs: seq<SelectedFile>, ks: seq<string>, extract: Extractor)
    requires Distinct(ks)
    ensures FinalSummary(Analyze(v, fs, ks, extract), ks) == NoMatches <==>
      forall i, k :: 0 <= i < |fs| && k in ks ==> FileCount(v, fs[i], extract, k) == 0
  {
    var a := Analyze(v, fs, ks, extract);
    NoMatchesIff(a, ks);
    if forall i, k :: 0 <= i < |fs| && k in ks ==> FileCount(v, fs[i], extract, k) == 0 {
      forall c, k | c in a.categories && k in ks ensures SummaryOf(Cat(a, c), k) == 0 {
        AnalyzeTotal(v, fs, ks, extract, c, k);
        CategoryTotalZero(v, fs, extract, c, k);
      }
    } else {
      var i, k :| 0 <= i < |fs| && k in ks && FileCount(v, fs[i], extract, k) != 0;
      var c := Category(fs[i].relativePath);
      AnalyzeTotal(v, fs, ks, extract, c, k);
      CategoryTotalZero(v, fs, extract, c, k);
    }
  }

  /** The report's total for a listed keyword in a category is the sum of the
      category's file counts, and a positive sum puts the category in the report. */
  lemma AnalyzeTotal(v: Variant, fs: seq<SelectedFile>, ks: seq<string>, extract: Extractor, c: string, k: string)
    requires k in ks
    ensures SummaryOf(Cat(Analyze(v, fs, ks, extract), c), k) == CategoryTotal(v, fs, extract, c, k)
    ensures CategoryTotal(v, fs, extract, c, k) > 0 ==> c in Analyze(v, fs, ks, extract).categories
  {
    AnalyzeCounts(v, fs, ks, extract, c, k);
    if CategoryTotal(v, fs, extract, c, k) > 0 {
      assert c in Analyze(v, fs, ks, extract).data;
    }
  }

  // ---------------------------------------------------------------------------
  // The orders the page shows: categories, summary keys, CSV rows

  /** The categories of the files whose extraction succeeded, in file order,
      repeats kept. */
  function ExtractedCategories(fs: seq<SelectedFile>, extract: Extractor): seq<string>
    decreases |fs|
  {
    if fs == [] then []
    else
      var f := fs[|fs| - 1];
      ExtractedCategories(fs[..|fs| - 1], extract) + (if FileText(f, extract).Ok? then [Category(f.relativePath)] else [])
  }

  lemma {:induction false} OkCategoriesOfResults(v: Variant, fs: seq<SelectedFile>, ks: seq<string>, extract: Extractor)
    ensures OkCategories(Results(v, fs, ks, extract)) == ExtractedCategories(fs, extract)
    decreases |fs|
  {
    if fs != [] {
      var init := fs[..|fs| - 1];
      var rs := Results(v, fs, ks, extract);
      OkCategoriesOfResults(v, init, ks, extract);
      assert rs[..|rs| - 1] == Results(v, init, ks, extract);
    }
  }

  /** The report, the tables and the CSV list the categories in the order
      their first extracted file comes in, each once. */
  lemma AnalyzeCategories(v: Variant, fs: seq<SelectedFile>, ks: seq<string>, extract: Extractor)
    ensures Analyze(v, fs, ks, extract).categories == Dedup(ExtractedCategories(fs, extract))
  {
    AggregateCategories(Results(v, fs, ks, extract));
    OkCategoriesOfResults(v, fs, ks, extract);
  }

  /** Every category's summary keys are the keyword list, each keyword once,
      in first-occurrence order, and nothing else. */
  lemma AnalyzeKeys(v: Variant, fs: seq<SelectedFile>, ks: seq<string>, extract: Extractor, c: string)
    ensures c in Analyze(v, fs, ks, extract).data ==>
      && Cat(Analyze(v, fs, ks, extract), c).keys == Dedup(ks)
      && forall k :: k in Cat(Analyze(v, fs, ks, extract), c).summary <==> k in ks
  {
    if c in Analyze(v, fs, ks, extract).data {
      var rs := Results(v, fs, ks, extract);
      var d := Dedup(ks);
      forall i | 0 <= i < |rs| && rs[i].Ok?
        ensures EntriesFor(rs[i].value.counts, d)
      {
      }
      AggregateKeys(rs, d, c);
      var agg := AggregateResults(rs);
      assert Cat(Analyze(v, fs, ks, extract), c) == SortCategory(agg.data[c], ks);
    }
  }

  /** A category's CSV detail rows name the listed keywords with a positive
      total there, in keyword-list order. */
  lemma AnalyzeCsvRowsFollowList(v: Variant, fs: seq<SelectedFile>, ks: seq<string>, extract: Extractor, c: string)
    ensures c in Analyze(v, fs, ks, extract).data ==>
      var cd := Cat(Analyze(v, fs, ks, extract), c); var rows := Csv.CategoryRows(c, cd);
      && |rows| == |Positive(cd, Dedup(ks))|
      && forall i :: 0 <= i < |rows| ==> rows[i][1] == Positive(cd, Dedup(ks))[i]
  {
    AnalyzeKeys(v, fs, ks, extract, c);
  }

  /** A category's most-frequent CSV cell is `N/A` exactly when no listed
      keyword occurs there, and otherwise names the first listed keyword of
      maximal total, with that total. */
  lemma AnalyzeMostFrequentCell(v: Variant, fs: seq<SelectedFile>, ks: seq<string>, extract: Extractor, c: string)
    ensures c in Analyze(v, fs, ks, extract).data ==>
      var cd := Cat(Analyze(v, fs, ks, extract), c); var d := Dedup(ks);
      && (Csv.MostFrequentCell(cd) == Csv.NotAvailable <==> forall j :: 0 <= j < |d| ==> SummaryOf(cd, d[j]) == 0)
      && ((exists j :: 0 <= j < |d| && SummaryOf(cd, d[j]) > 0) ==> exists i :: (0 <= i < |d|
        && Csv.MostFrequentCell(cd) == d[i] + " (" + NatToString(SummaryOf(cd, d[i])) + ")"
        && (forall j :: 0 <= j < |d| ==> SummaryOf(cd, d[j]) <= SummaryOf(cd, d[i]))
        && (forall j :: 0 <= j < i ==> SummaryOf(cd, d[j]) < SummaryOf(cd, d[i]))))
  {
    AnalyzeKeys(v, fs, ks, extract, c);
    if c in Analyze(v, fs, ks, extract).data {
      Csv.MostFrequentCellOfList(Cat(Analyze(v, fs, ks, extract), c), Dedup(ks));
    }
  }

}
