/** Aggregation of the settled per-file results into one record per category
    (`aggregateResults`). Rejected files are skipped. A category record appears
    with the first successful file of that category; its `fileCount` counts
    distinct file names, while the keyword counts of every successful file are
    added to `summary`, and each positive count is appended to `details`. */
module Aggregate {
  import opened Wrappers
  import opened Text

  /** One entry of a file's `counts` object, in insertion (keyword-list) order. */
  datatype KeywordCount = KeywordCount(keyword: string, count: nat)

  /** What `processFile` resolves with. */
  datatype FileResult = FileResult(category: string, fileName: string, counts: seq<KeywordCount>)

  /** What `processFile` rejects with. */
  datatype FileError = FileError(fileName: string, error: string)

  /** One element of the `Promise.allSettled` array. */
  type Settled = Result<FileResult, FileError>

  /** One file's positive count of one keyword. */
  datatype Detail = Detail(file: string, count: nat)

  /** A category's record. `keys` is the insertion order of `summary`'s keys,
      which is the order `Object.keys` enumerates them in. */
  datatype CategoryData = CategoryData(
    summary: map<string, nat>,
    keys: seq<string>,
    details: map<string, seq<Detail>>,
    fileCount: nat,
    processedFiles: set<string>)

  /** The aggregate: the categories in insertion order and their records. */
  datatype Analysis = Analysis(categories: seq<string>, data: map<string, CategoryData>)

  const EmptyCategory := CategoryData(map[], [], map[], 0, {})
  const EmptyAnalysis := Analysis([], map[])

  /** `summary[k] || 0`. */
  function SummaryOf(cd: CategoryData, k: string): nat {
    if k in cd.summary then cd.summary[k] else 0
  }

  /** The summary entries of `keys`, in order, 0 for a key the summary lacks:
      `keys.map(k => summary[k] || 0)`, as the chart datasets and the CSV's
      most-frequent cell read them. */
  function Column(cd: CategoryData, keys: seq<string>): (r: seq<nat>)
    ensures |r| == |keys|
    ensures forall i :: 0 <= i < |keys| ==> r[i] == SummaryOf(cd, keys[i])
  {
    seq(|keys|, i requires 0 <= i < |keys| => SummaryOf(cd, keys[i]))
  }

  function DetailsOf(cd: CategoryData, k: string): seq<Detail> {
    if k in cd.details then cd.details[k] else []
  }

  /** The record of category `c`, or an empty one when `c` is not a category. */
  function Cat(a: Analysis, c: string): CategoryData {
    if c in a.data then a.data[c] else EmptyCategory
  }

  function SumCounts(ds: seq<Detail>): nat {
    if ds == [] then 0 else ds[0].count + SumCounts(ds[1..])
  }

  lemma {:induction false} SumCountsAppend(a: seq<Detail>, b: seq<Detail>)
    ensures SumCounts(a + b) == SumCounts(a) + SumCounts(b)
    decreases |a|
  {
    if a != [] {
      assert (a + b)[1..] == a[1..] + b;
      SumCountsAppend(a[1..], b);
    } else {
      assert a + b == b;
    }
  }

  predicate AllPositive(ds: seq<Detail>) {
    forall i :: 0 <= i < |ds| ==> ds[i].count > 0
  }

  // ---------------------------------------------------------------------------
  // The fold

  /** Adds one `[keyword, count]` entry of file `fileName` to a record. */
  function AddCount(cd: CategoryData, fileName: string, kc: KeywordCount): CategoryData {
    var k := kc.keyword;
    var keys := if k in cd.summary then cd.keys else cd.keys + [k];
    var summary := cd.summary[k := SummaryOf(cd, k) + kc.count];
    var details := if kc.count > 0 then cd.details[k := DetailsOf(cd, k) + [Detail(fileName, kc.count)]] else cd.details;
    cd.(summary := summary, keys := keys, details := details)
  }

  /** `for (const [keyword, count] of Object.entries(counts))`. */
  function AddCounts(cd: CategoryData, fileName: string, counts: seq<KeywordCount>): CategoryData
    decreases |counts|
  {
    if counts == [] then cd else AddCounts(AddCount(cd, fileName, counts[0]), fileName, counts[1..])
  }

  /** The `processedFiles` guard: a name not seen before is counted and
      remembered; a name seen before changes nothing. */
  function MarkSeen(cd: CategoryData, f: string): CategoryData {
    if f in cd.processedFiles then cd
    else cd.(fileCount := cd.fileCount + 1, processedFiles := cd.processedFiles + {f})
  }

  /** Folds one successful file into its category's record. */
  function AddFile(cd: CategoryData, r: FileResult): CategoryData {
    AddCounts(MarkSeen(cd, r.fileName), r.fileName, r.counts)
  }

  /** One step of `results.forEach`. */
  function Fold(a: Analysis, s: Settled): Analysis {
    match s
    case Err(_) => a
    case Ok(r) =>
      var cats := if r.category in a.data then a.categories else a.categories + [r.category];
      Analysis(cats, a.data[r.category := AddFile(Cat(a, r.category), r)])
  }

  /** `aggregateResults`: the fold over the settled results, in order. */
  function AggregateResults(results: seq<Settled>): Analysis
    decreases |results|
  {
    if results == [] then EmptyAnalysis
    else Fold(AggregateResults(results[..|results| - 1]), results[|results| - 1])
  }

  // ---------------------------------------------------------------------------
  // The invariant

  /** `keys` lists `summary`'s keys, once each. */
  ghost predicate KeysOk(cd: CategoryData) {
    && Distinct(cd.keys)
    && (forall k :: k in cd.summary ==> k in cd.keys)
    && (forall i :: 0 <= i < |cd.keys| ==> cd.keys[i] in cd.summary)
  }

  /** `details` holds non-empty lists of positive counts of seen files, under summary keys only. */
  ghost predicate DetailsOk(cd: CategoryData) {
    forall k :: k in cd.details ==>
      && k in cd.summary
      && |cd.details[k]| > 0
      && AllPositive(cd.details[k])
      && (forall i :: 0 <= i < |cd.details[k]| ==> cd.details[k][i].file in cd.processedFiles)
  }

  /** Each summary entry is the sum of its details. */
  ghost predicate SumsOk(cd: CategoryData) {
    forall k :: k in cd.summary ==> cd.summary[k] == SumCounts(DetailsOf(cd, k))
  }

  /** What every category record satisfies: `fileCount` is the number of
      distinct files seen, `keys` lists `summary`'s keys once each, `details`
      holds only positive counts under summary keys, and each summary entry is
      the sum of its details. */
  ghost predicate ValidCategory(cd: CategoryData) {
    cd.fileCount == |cd.processedFiles| && KeysOk(cd) && DetailsOk(cd) && SumsOk(cd)
  }

  ghost predicate Valid(a: Analysis) {
    && Distinct(a.categories)
    && (forall c :: c in a.data ==> c in a.categories)
    && (forall i :: 0 <= i < |a.categories| ==> a.categories[i] in a.data)
    && (forall c :: c in a.data ==> ValidCategory(a.data[c]))
  }

  lemma AddCountKeys(cd: CategoryData, fileName: string, kc: KeywordCount)
    requires KeysOk(cd)
    ensures KeysOk(AddCount(cd, fileName, kc))
  {
    var r := AddCount(cd, fileName, kc);
    var k := kc.keyword;
    if k !in cd.summary {
      assert r.keys == cd.keys + [k];
      forall i, j | 0 <= i < j < |r.keys| ensures r.keys[i] != r.keys[j] {
        if j == |cd.keys| {
          assert r.keys[i] == cd.keys[i];
        }
      }
      forall i | 0 <= i < |r.keys| ensures r.keys[i] in r.summary {
        if i < |cd.keys| { assert r.keys[i] == cd.keys[i]; }
      }
    }
  }

  lemma AddCountDetails(cd: CategoryData, fileName: string, kc: KeywordCount)
    requires DetailsOk(cd) && fileName in cd.processedFiles
    ensures DetailsOk(AddCount(cd, fileName, kc))
  {
    var r := AddCount(cd, fileName, kc);
    var k := kc.keyword;
    if kc.count > 0 {
      var ds := DetailsOf(cd, k) + [Detail(fileName, kc.count)];
      assert r.details == cd.details[k := ds];
      forall i | 0 <= i < |ds| ensures ds[i].count > 0 && ds[i].file in r.processedFiles {
        if i < |DetailsOf(cd, k)| {
          assert ds[i] == DetailsOf(cd, k)[i];
        }
      }
    }
  }

  lemma AddCountSums(cd: CategoryData, fileName: string, kc: KeywordCount)
    requires SumsOk(cd) && (forall x :: x in cd.details ==> x in cd.summary)
    ensures SumsOk(AddCount(cd, fileName, kc))
  {
    var r := AddCount(cd, fileName, kc);
    var k := kc.keyword;
    if kc.count > 0 {
      SumCountsAppend(DetailsOf(cd, k), [Detail(fileName, kc.count)]);
      assert SumCounts([Detail(fileName, kc.count)]) == kc.count;
      assert DetailsOf(r, k) == DetailsOf(cd, k) + [Detail(fileName, kc.count)];
    } else {
      assert DetailsOf(r, k) == DetailsOf(cd, k);
    }
    assert k !in cd.summary ==> DetailsOf(cd, k) == [];
    forall x | x in r.summary && x != k ensures r.summary[x] == SumCounts(DetailsOf(r, x)) {
      assert DetailsOf(r, x) == DetailsOf(cd, x);
    }
  }

  lemma AddCountValid(cd: CategoryData, fileName: string, kc: KeywordCount)
    requires ValidCategory(cd) && fileName in cd.processedFiles
    ensures ValidCategory(AddCount(cd, fileName, kc))
  {
    AddCountKeys(cd, fileName, kc);
    AddCountDetails(cd, fileName, kc);
    AddCountSums(cd, fileName, kc);
  }

  lemma {:induction false} AddCountsValid(cd: CategoryData, fileName: string, counts: seq<KeywordCount>)
    requires ValidCategory(cd) && fileName in cd.processedFiles
    ensures ValidCategory(AddCounts(cd, fileName, counts))
    ensures AddCounts(cd, fileName, counts).processedFiles == cd.processedFiles
    ensures AddCounts(cd, fileName, counts).fileCount == cd.fileCount
    decreases |counts|
  {
    if counts != [] {
      AddCountValid(cd, fileName, counts[0]);
      AddCountsValid(AddCount(cd, fileName, counts[0]), fileName, counts[1..]);
    }
  }

  lemma AddFileValid(cd: CategoryData, r: FileResult)
    requires ValidCategory(cd)
    ensures ValidCategory(AddFile(cd, r))
    ensures AddFile(cd, r).processedFiles == cd.processedFiles + {r.fileName}
  {
    if r.fileName !in cd.processedFiles {
      NewFileValid(cd, r.fileName);
    }
    AddCountsValid(MarkSeen(cd, r.fileName), r.fileName, r.counts);
  }

  /** Counting a file not seen before keeps the record valid. */
  lemma NewFileValid(cd: CategoryData, f: string)
    requires ValidCategory(cd) && f !in cd.processedFiles
    ensures ValidCategory(cd.(fileCount := cd.fileCount + 1, processedFiles := cd.processedFiles + {f}))
  {
    var counted := cd.(fileCount := cd.fileCount + 1, processedFiles := cd.processedFiles + {f});
    assert |counted.processedFiles| == |cd.processedFiles| + 1;
    assert DetailsOk(counted);
  }

  lemma FoldValid(a: Analysis, s: Settled)
    requires Valid(a)
    ensures Valid(Fold(a, s))
  {
    if s.Ok? {
      var r := s.value;
      assert ValidCategory(EmptyCategory);
      AddFileValid(Cat(a, r.category), r);
      var b := Fold(a, s);
      if r.category !in a.data {
        assert Distinct(b.categories) by {
          forall i, j | 0 <= i < j < |b.categories| ensures b.categories[i] != b.categories[j] {
            if j == |a.categories| {
              assert b.categories[i] == a.categories[i];
            }
          }
        }
        forall i | 0 <= i < |b.categories| ensures b.categories[i] in b.data {
          if i < |a.categories| { assert b.categories[i] == a.categories[i]; }
        }
      }
    }
  }

  /** The aggregate always satisfies the record invariant: in every category,
      `fileCount == |processedFiles|` and each summary entry is the sum of its
      positive-only details. */
  lemma {:induction false} AggregateValid(results: seq<Settled>)
    ensures Valid(AggregateResults(results))
    decreases |results|
  {
    if results != [] {
      AggregateValid(results[..|results| - 1]);
      FoldValid(AggregateResults(results[..|results| - 1]), results[|results| - 1]);
    }
  }

  // ---------------------------------------------------------------------------
  // Reference definitions: what the aggregate holds, stated per category

  /** The successful results of category `c`, in order. */
  function CategoryResults(rs: seq<Settled>, c: string): seq<FileResult>
    decreases |rs|
  {
    if rs == [] then []
    else
      var last := rs[|rs| - 1];
      CategoryResults(rs[..|rs| - 1], c) + (if last.Ok? && last.value.category == c then [last.value] else [])
  }

  predicate IsFulfilled(s: Settled) {
    s.Ok?
  }

  /** The successful results, in order: all and only the fulfilled ones. */
  function OkResults(rs: seq<Settled>): (r: seq<Settled>)
    ensures forall i :: 0 <= i < |r| ==> r[i].Ok?
    ensures r == Filter(rs, IsFulfilled)
    decreases |rs|
  {
    if rs == [] then []
    else
      var init := rs[..|rs| - 1];
      assert rs == init + [rs[|rs| - 1]];
      FilterSnoc(init, rs[|rs| - 1], IsFulfilled);
      OkResults(init) + (if rs[|rs| - 1].Ok? then [rs[|rs| - 1]] else [])
  }

  /** What one file's entries contribute to keyword `k`. */
  function CountFor(counts: seq<KeywordCount>, k: string): nat {
    if counts == [] then 0
    else (if counts[0].keyword == k then counts[0].count else 0) + CountFor(counts[1..], k)
  }

  function DetailsFor(fileName: string, counts: seq<KeywordCount>, k: string): seq<Detail> {
    if counts == [] then []
    else (if counts[0].keyword == k && counts[0].count > 0 then [Detail(fileName, counts[0].count)] else [])
         + DetailsFor(fileName, counts[1..], k)
  }

  predicate Lists(counts: seq<KeywordCount>, k: string) {
    exists i :: 0 <= i < |counts| && counts[i].keyword == k
  }

  /** Sum over files of what each contributes to `k`. */
  function TotalFor(fs: seq<FileResult>, k: string): nat
    decreases |fs|
  {
    if fs == [] then 0 else TotalFor(fs[..|fs| - 1], k) + CountFor(fs[|fs| - 1].counts, k)
  }

  function AllDetailsFor(fs: seq<FileResult>, k: string): seq<Detail>
    decreases |fs|
  {
    if fs == [] then [] else AllDetailsFor(fs[..|fs| - 1], k) + DetailsFor(fs[|fs| - 1].fileName, fs[|fs| - 1].counts, k)
  }

  function FileNames(fs: seq<FileResult>): set<string>
    decreases |fs|
  {
    if fs == [] then {} else FileNames(fs[..|fs| - 1]) + {fs[|fs| - 1].fileName}
  }

  ghost predicate AnyLists(fs: seq<FileResult>, k: string) {
    exists i :: 0 <= i < |fs| && Lists(fs[i].counts, k)
  }

  /** Entries that list the keywords `ks` (no repeats) in order, with counts
      given by `n`: a listed keyword gets its count and a detail exactly when
      that count is positive, and a keyword outside the list gets nothing. */
  lemma {:induction false} TalliesFeed(r: seq<KeywordCount>, ks: seq<string>, n: string -> nat, name: string, k: string)
    requires Distinct(ks) && |r| == |ks|
    requires forall i :: 0 <= i < |ks| ==> r[i] == KeywordCount(ks[i], n(ks[i]))
    ensures CountFor(r, k) == (if k in ks then n(k) else 0)
    ensures DetailsFor(name, r, k) == (if k in ks && n(k) > 0 then [Detail(name, n(k))] else [])
    ensures Lists(r, k) <==> k in ks
    decreases |ks|
  {
    if ks != [] {
      assert Distinct(ks[1..]) by {
        forall i, j | 0 <= i < j < |ks[1..]| ensures ks[1..][i] != ks[1..][j] {
          assert ks[1..][i] == ks[i + 1] && ks[1..][j] == ks[j + 1];
        }
      }
      assert ks[0] !in ks[1..] by {
        forall j | 0 <= j < |ks[1..]| ensures ks[1..][j] != ks[0] {
          assert ks[1..][j] == ks[j + 1];
        }
      }
      assert forall i :: 0 <= i < |ks| - 1 ==> r[1..][i] == r[i + 1];
      TalliesFeed(r[1..], ks[1..], n, name, k);
      assert k in ks <==> k == ks[0] || k in ks[1..] by {
        assert ks == [ks[0]] + ks[1..];
      }
    }
    if k in ks {
      var i :| 0 <= i < |ks| && ks[i] == k;
      assert r[i].keyword == k;
    }
  }

  /** One entry adds to its own keyword only. */
  lemma AddCountEffect(cd: CategoryData, f: string, kc: KeywordCount, k: string)
    ensures SummaryOf(AddCount(cd, f, kc), k) == SummaryOf(cd, k) + (if kc.keyword == k then kc.count else 0)
    ensures DetailsOf(AddCount(cd, f, kc), k) == DetailsOf(cd, k) + (if kc.keyword == k && kc.count > 0 then [Detail(f, kc.count)] else [])
    ensures k in AddCount(cd, f, kc).summary <==> k in cd.summary || kc.keyword == k
    ensures AddCount(cd, f, kc).processedFiles == cd.processedFiles
    ensures AddCount(cd, f, kc).fileCount == cd.fileCount
  {
  }

  lemma ListsCons(counts: seq<KeywordCount>, k: string)
    requires counts != []
    ensures Lists(counts, k) <==> counts[0].keyword == k || Lists(counts[1..], k)
  {
    if Lists(counts[1..], k) {
      var i :| 0 <= i < |counts[1..]| && counts[1..][i].keyword == k;
      assert counts[i + 1].keyword == k;
    }
    if Lists(counts, k) && counts[0].keyword != k {
      var i :| 0 <= i < |counts| && counts[i].keyword == k;
      assert counts[1..][i - 1].keyword == k;
    }
  }

  lemma {:induction false} AddCountsSummary(cd: CategoryData, f: string, counts: seq<KeywordCount>, k: string)
    ensures SummaryOf(AddCounts(cd, f, counts), k) == SummaryOf(cd, k) + CountFor(counts, k)
    ensures k in AddCounts(cd, f, counts).summary <==> k in cd.summary || Lists(counts, k)
    decreases |counts|
  {
    if counts != [] {
      var next := AddCount(cd, f, counts[0]);
      AddCountEffect(cd, f, counts[0], k);
      AddCountsSummary(next, f, counts[1..], k);
      ListsCons(counts, k);
    }
  }

  lemma {:induction false} AddCountsDetails(cd: CategoryData, f: string, counts: seq<KeywordCount>, k: string)
    ensures DetailsOf(AddCounts(cd, f, counts), k) == DetailsOf(cd, k) + DetailsFor(f, counts, k)
    decreases |counts|
  {
    if counts != [] {
      var next := AddCount(cd, f, counts[0]);
      var x := if counts[0].keyword == k && counts[0].count > 0 then [Detail(f, counts[0].count)] else [];
      var later := DetailsFor(f, counts[1..], k);
      AddCountEffect(cd, f, counts[0], k);
      assert AddCounts(cd, f, counts) == AddCounts(next, f, counts[1..]);
      AddCountsDetails(next, f, counts[1..], k);
      assert DetailsFor(f, counts, k) == x + later;
      AppendAssoc(DetailsOf(cd, k), x, later);
    } else {
      assert DetailsFor(f, counts, k) == [];
    }
  }

  lemma {:induction false} AddCountsFiles(cd: CategoryData, f: string, counts: seq<KeywordCount>)
    ensures AddCounts(cd, f, counts).processedFiles == cd.processedFiles
    ensures AddCounts(cd, f, counts).fileCount == cd.fileCount
    decreases |counts|
  {
    if counts != [] {
      AddCountsFiles(AddCount(cd, f, counts[0]), f, counts[1..]);
    }
  }

  /** A file's entries add its counts of `k` to the summary, append its positive
      counts to the file list and list `k` when one of them is for `k`; the
      file set and file count are left alone. */
  lemma AddCountsEffect(cd: CategoryData, f: string, counts: seq<KeywordCount>, k: string)
    ensures SummaryOf(AddCounts(cd, f, counts), k) == SummaryOf(cd, k) + CountFor(counts, k)
    ensures DetailsOf(AddCounts(cd, f, counts), k) == DetailsOf(cd, k) + DetailsFor(f, counts, k)
    ensures k in AddCounts(cd, f, counts).summary <==> k in cd.summary || Lists(counts, k)
    ensures AddCounts(cd, f, counts).processedFiles == cd.processedFiles
    ensures AddCounts(cd, f, counts).fileCount == cd.fileCount
  {
    AddCountsSummary(cd, f, counts, k);
    AddCountsDetails(cd, f, counts, k);
    AddCountsFiles(cd, f, counts);
  }

  lemma AddFileEffect(cd: CategoryData, r: FileResult, k: string)
    ensures SummaryOf(AddFile(cd, r), k) == SummaryOf(cd, k) + CountFor(r.counts, k)
    ensures DetailsOf(AddFile(cd, r), k) == DetailsOf(cd, k) + DetailsFor(r.fileName, r.counts, k)
    ensures k in AddFile(cd, r).summary <==> k in cd.summary || Lists(r.counts, k)
    ensures AddFile(cd, r).processedFiles == cd.processedFiles + {r.fileName}
  {
    var counted := MarkSeen(cd, r.fileName);
    assert counted.summary == cd.summary && counted.details == cd.details;
    assert counted.processedFiles == cd.processedFiles + {r.fileName};
    AddCountsEffect(counted, r.fileName, r.counts, k);
  }

  lemma AnyListsAppend(fs: seq<FileResult>, g: seq<FileResult>, k: string)
    ensures AnyLists(fs + g, k) <==> AnyLists(fs, k) || AnyLists(g, k)
  {
    if AnyLists(fs + g, k) {
      var i :| 0 <= i < |fs + g| && Lists((fs + g)[i].counts, k);
      if i >= |fs| { assert (fs + g)[i] == g[i - |fs|]; }
    }
    if AnyLists(g, k) {
      var i :| 0 <= i < |g| && Lists(g[i].counts, k);
      assert (fs + g)[|fs| + i] == g[i];
    }
    if AnyLists(fs, k) {
      var i :| 0 <= i < |fs| && Lists(fs[i].counts, k);
      assert (fs + g)[i] == fs[i];
    }
  }

  /** What the aggregate holds for category `c` and keyword `k`, stated without
      the fold: the category exists iff one of its files succeeded; its summary
      is the sum of its successful files' counts; its details are their positive
      counts in file order; its seen files are their names; and `k` is a summary
      key iff some successful file of `c` reported it (with count 0 or more). */
  lemma {:induction false} AggregateIsReference(rs: seq<Settled>, c: string, k: string)
    ensures c in AggregateResults(rs).data <==> |CategoryResults(rs, c)| > 0
    ensures SummaryOf(Cat(AggregateResults(rs), c), k) == TotalFor(CategoryResults(rs, c), k)
    ensures DetailsOf(Cat(AggregateResults(rs), c), k) == AllDetailsFor(CategoryResults(rs, c), k)
    ensures Cat(AggregateResults(rs), c).processedFiles == FileNames(CategoryResults(rs, c))
    ensures k in Cat(AggregateResults(rs), c).summary <==> AnyLists(CategoryResults(rs, c), k)
    decreases |rs|
  {
    if rs != [] {
      var front := rs[..|rs| - 1];
      var last := rs[|rs| - 1];
      AggregateIsReference(front, c, k);
      if last.Ok? && last.value.category == c {
        ReferenceAfterOwnFile(rs, c, k);
      } else {
        assert CategoryResults(rs, c) == CategoryResults(front, c);
        assert Cat(AggregateResults(rs), c) == Cat(AggregateResults(front), c);
      }
    }
  }

  /** The aggregate of `rs` for `c` and `k` agrees with the reference definitions. */
  ghost predicate MatchesReference(rs: seq<Settled>, c: string, k: string) {
    && (c in AggregateResults(rs).data <==> |CategoryResults(rs, c)| > 0)
    && SummaryOf(Cat(AggregateResults(rs), c), k) == TotalFor(CategoryResults(rs, c), k)
    && DetailsOf(Cat(AggregateResults(rs), c), k) == AllDetailsFor(CategoryResults(rs, c), k)
    && Cat(AggregateResults(rs), c).processedFiles == FileNames(CategoryResults(rs, c))
    && (k in Cat(AggregateResults(rs), c).summary <==> AnyLists(CategoryResults(rs, c), k))
  }

  /** The step of `AggregateIsReference` where the last result is a file of `c`. */
  lemma ReferenceAfterOwnFile(rs: seq<Settled>, c: string, k: string)
    requires rs != [] && rs[|rs| - 1].Ok? && rs[|rs| - 1].value.category == c
    requires MatchesReference(rs[..|rs| - 1], c, k)
    ensures MatchesReference(rs, c, k)
  {
    var front := rs[..|rs| - 1];
    var r := rs[|rs| - 1].value;
    var prev := AggregateResults(front);
    var fs := CategoryResults(front, c);
    assert Cat(AggregateResults(rs), c) == AddFile(Cat(prev, c), r);
    AddFileEffect(Cat(prev, c), r, k);
    assert CategoryResults(rs, c) == fs + [r];
    ReferenceOfAppend(fs, r, k);
  }

  /** The reference definitions of one more file: its counts, details and name
      are added to those of the files before it. */
  lemma ReferenceOfAppend(fs: seq<FileResult>, r: FileResult, k: string)
    ensures TotalFor(fs + [r], k) == TotalFor(fs, k) + CountFor(r.counts, k)
    ensures AllDetailsFor(fs + [r], k) == AllDetailsFor(fs, k) + DetailsFor(r.fileName, r.counts, k)
    ensures FileNames(fs + [r]) == FileNames(fs) + {r.fileName}
    ensures AnyLists(fs + [r], k) <==> AnyLists(fs, k) || Lists(r.counts, k)
  {
    assert (fs + [r])[..|fs|] == fs;
    AnyListsAppend(fs, [r], k);
    assert AnyLists([r], k) <==> Lists(r.counts, k) by {
      if Lists(r.counts, k) { assert [r][0] == r; }
    }
  }

  lemma {:induction false} CategoryResultsAfterErr(rs: seq<Settled>, c: string)
    ensures CategoryResults(rs, c) == CategoryResults(OkResults(rs), c)
    decreases |rs|
  {
    if rs != [] {
      var front := rs[..|rs| - 1];
      CategoryResultsAfterErr(front, c);
      var ok := OkResults(rs);
      if rs[|rs| - 1].Ok? {
        assert ok[..|ok| - 1] == OkResults(front);
      } else {
        assert ok == OkResults(front);
      }
    }
  }

  /** Rejected files leave no trace: aggregating all results is aggregating the
      successful ones alone. */
  lemma {:induction false} AggregateSkipsRejected(rs: seq<Settled>)
    ensures AggregateResults(rs) == AggregateResults(OkResults(rs))
    decreases |rs|
  {
    if rs != [] {
      var front := rs[..|rs| - 1];
      AggregateSkipsRejected(front);
      var ok := OkResults(rs);
      if rs[|rs| - 1].Ok? {
        assert ok[..|ok| - 1] == OkResults(front);
        assert ok[|ok| - 1] == rs[|rs| - 1];
      } else {
        assert ok == OkResults(front);
      }
    }
  }

  /** No successful file (no input, or every file rejected) gives the empty
      aggregate; any successful file creates its category. */
  lemma AggregateEmptyIff(rs: seq<Settled>)
    ensures AggregateResults(rs) == EmptyAnalysis <==> |OkResults(rs)| == 0
  {
    AggregateSkipsRejected(rs);
    var ok := OkResults(rs);
    if |ok| > 0 {
      var c := ok[|ok| - 1].value.category;
      AggregateIsReference(ok, c, "");
      assert CategoryResults(ok, c) == CategoryResults(ok[..|ok| - 1], c) + [ok[|ok| - 1].value];
    }
  }

  /** A file name folded in twice counts once in `fileCount`, but its keyword
      counts are added to `summary` a second time. */
  lemma DuplicateFile(a: Analysis, r: FileResult, k: string)
    requires Valid(a)
    ensures var once := Fold(a, Ok(r)); var twice := Fold(once, Ok(r));
      && Cat(twice, r.category).fileCount == Cat(once, r.category).fileCount
      && Cat(twice, r.category).processedFiles == Cat(once, r.category).processedFiles
      && SummaryOf(Cat(twice, r.category), k) == SummaryOf(Cat(once, r.category), k) + CountFor(r.counts, k)
  {
    var once := Fold(a, Ok(r));
    var c := r.category;
    FoldValid(a, Ok(r));
    AddFileEffect(Cat(a, c), r, k);
    AddFileEffect(Cat(once, c), r, k);
    var cd := Cat(once, c);
    assert r.fileName in cd.processedFiles;
    AddCountsEffect(cd, r.fileName, r.counts, k);
  }

  /** In every category, `fileCount` is the number of distinct names among its
      successful files, and each summary entry equals the sum of the detail
      counts for that keyword. */
  lemma AggregateCounts(rs: seq<Settled>, c: string, k: string)
    ensures Cat(AggregateResults(rs), c).fileCount == |FileNames(CategoryResults(rs, c))|
    ensures SummaryOf(Cat(AggregateResults(rs), c), k) == SumCounts(DetailsOf(Cat(AggregateResults(rs), c), k))
    ensures AllPositive(DetailsOf(Cat(AggregateResults(rs), c), k))
  {
    AggregateValid(rs);
    AggregateIsReference(rs, c, k);
  }

  /** A property every successful result has, every result of a category has. */
  lemma {:induction false} CategoryResultsAll(rs: seq<Settled>, c: string, p: FileResult -> bool)
    requires forall i :: 0 <= i < |rs| && rs[i].Ok? ==> p(rs[i].value)
    ensures forall j :: 0 <= j < |CategoryResults(rs, c)| ==> p(CategoryResults(rs, c)[j])
    decreases |rs|
  {
    if rs != [] {
      var init := rs[..|rs| - 1];
      assert forall i :: 0 <= i < |init| ==> init[i] == rs[i];
      CategoryResultsAll(init, c, p);
    }
  }

  lemma CategoryResultsSnoc(p: seq<Settled>, s: Settled, c: string)
    ensures CategoryResults(p + [s], c) == CategoryResults(p, c) + Piece(s, c)
  {
    assert (p + [s])[..|p|] == p;
  }

  lemma {:induction false} TotalForAppend(fs: seq<FileResult>, g: seq<FileResult>, k: string)
    ensures TotalFor(fs + g, k) == TotalFor(fs, k) + TotalFor(g, k)
    decreases |g|
  {
    if g != [] {
      assert (fs + g)[..|fs + g| - 1] == fs + g[..|g| - 1];
      TotalForAppend(fs, g[..|g| - 1], k);
    } else {
      assert fs + g == fs;
    }
  }

  lemma {:induction false} FileNamesAppend(fs: seq<FileResult>, g: seq<FileResult>)
    ensures FileNames(fs + g) == FileNames(fs) + FileNames(g)
    decreases |g|
  {
    if g != [] {
      assert (fs + g)[..|fs + g| - 1] == fs + g[..|g| - 1];
      FileNamesAppend(fs, g[..|g| - 1]);
    } else {
      assert fs + g == fs;
    }
  }

  /** The reference definitions ignore the order of two adjacent groups. */
  lemma SwapPieces(base: seq<FileResult>, xs: seq<FileResult>, ys: seq<FileResult>, k: string)
    ensures TotalFor(base + (xs + ys), k) == TotalFor(base + (ys + xs), k)
    ensures FileNames(base + (xs + ys)) == FileNames(base + (ys + xs))
    ensures AnyLists(base + (xs + ys), k) <==> AnyLists(base + (ys + xs), k)
    ensures |base + (xs + ys)| == |base + (ys + xs)|
  {
    TotalForAppend(base, xs + ys, k);
    TotalForAppend(base, ys + xs, k);
    TotalForAppend(xs, ys, k);
    TotalForAppend(ys, xs, k);
    FileNamesAppend(base, xs + ys);
    FileNamesAppend(base, ys + xs);
    FileNamesAppend(xs, ys);
    FileNamesAppend(ys, xs);
    AnyListsAppend(base, xs + ys, k);
    AnyListsAppend(base, ys + xs, k);
    AnyListsAppend(xs, ys, k);
    AnyListsAppend(ys, xs, k);
  }

  function Piece(s: Settled, c: string): seq<FileResult> {
    if s.Ok? && s.value.category == c then [s.value] else []
  }

  lemma SwapResults(p: seq<Settled>, x: Settled, y: Settled, c: string)
    ensures CategoryResults(p + [x, y], c) == CategoryResults(p, c) + (Piece(x, c) + Piece(y, c))
    ensures CategoryResults(p + [y, x], c) == CategoryResults(p, c) + (Piece(y, c) + Piece(x, c))
  {
    assert p + [x, y] == (p + [x]) + [y];
    assert p + [y, x] == (p + [y]) + [x];
    CategoryResultsSnoc(p, x, c);
    CategoryResultsSnoc(p + [x], y, c);
    CategoryResultsSnoc(p, y, c);
    CategoryResultsSnoc(p + [y], x, c);
  }

  /** Swapping two neighbouring results changes no category's existence, summary
      values, summary key set, seen files or file count. (Only orders change:
      the category order, the key order and the order inside `details`.) */
  lemma SwapInvariant(p: seq<Settled>, x: Settled, y: Settled, c: string, k: string)
    ensures var a := AggregateResults(p + [x, y]); var b := AggregateResults(p + [y, x]);
      && (c in a.data <==> c in b.data)
      && SummaryOf(Cat(a, c), k) == SummaryOf(Cat(b, c), k)
      && (k in Cat(a, c).summary <==> k in Cat(b, c).summary)
      && Cat(a, c).processedFiles == Cat(b, c).processedFiles
      && Cat(a, c).fileCount == Cat(b, c).fileCount
  {
    SwapResults(p, x, y, c);
    SwapPieces(CategoryResults(p, c), Piece(x, c), Piece(y, c), k);
    AggregateIsReference(p + [x, y], c, k);
    AggregateIsReference(p + [y, x], c, k);
    AggregateCounts(p + [x, y], c, k);
    AggregateCounts(p + [y, x], c, k);
  }

  // ---------------------------------------------------------------------------
  // Orders: the category order and the key order of each record

  /** The categories of the successful results, in result order, repeats kept. */
  function OkCategories(rs: seq<Settled>): seq<string>
    decreases |rs|
  {
    if rs == [] then []
    else
      var last := rs[|rs| - 1];
      OkCategories(rs[..|rs| - 1]) + (if last.Ok? then [last.value.category] else [])
  }

  /** `Object.keys(analysisData)`: the categories appear in the order their
      first successful file comes in, each once. */
  lemma {:induction false} AggregateCategories(rs: seq<Settled>)
    ensures AggregateResults(rs).categories == Dedup(OkCategories(rs))
    decreases |rs|
  {
    if rs != [] {
      var front := rs[..|rs| - 1];
      var last := rs[|rs| - 1];
      var a := AggregateResults(front);
      AggregateCategories(front);
      AggregateValid(front);
      if last.Ok? {
        var c := last.value.category;
        assert OkCategories(rs) == OkCategories(front) + [c];
        DedupSnoc(OkCategories(front), c);
        assert c in a.data <==> c in a.categories;
      } else {
        assert OkCategories(rs) == OkCategories(front);
      }
    }
  }

  /** The record's keys are `d`, in that order, and its summary has exactly them. */
  ghost predicate KeyedBy(cd: CategoryData, d: seq<string>) {
    cd.keys == d && forall k :: k in cd.summary <==> k in d
  }

  /** A file's entries are for the keywords `d`, in that order. */
  predicate EntriesFor(counts: seq<KeywordCount>, d: seq<string>) {
    |counts| == |d| && forall i :: 0 <= i < |d| ==> counts[i].keyword == d[i]
  }

  /** A record that has seen the keywords `d[..j]` and takes the entries for
      `d[j..]` ends up keyed by `d`. */
  lemma {:induction false} AddCountsFresh(cd: CategoryData, f: string, counts: seq<KeywordCount>, d: seq<string>, j: nat)
    requires Distinct(d) && j <= |d| && |counts| == |d| - j
    requires forall i :: 0 <= i < |counts| ==> counts[i].keyword == d[j + i]
    requires KeyedBy(cd, d[..j])
    ensures KeyedBy(AddCounts(cd, f, counts), d)
    decreases |counts|
  {
    if counts == [] {
      assert d[..j] == d;
    } else {
      var next := AddCount(cd, f, counts[0]);
      var k := d[j];
      assert k !in d[..j] by {
        forall i | 0 <= i < j ensures d[..j][i] != k {
          assert d[..j][i] == d[i];
        }
      }
      assert d[..j + 1] == d[..j] + [k];
      assert KeyedBy(next, d[..j + 1]);
      assert forall i :: 0 <= i < |counts[1..]| ==> counts[1..][i].keyword == d[j + 1 + i] by {
        forall i | 0 <= i < |counts[1..]| ensures counts[1..][i].keyword == d[j + 1 + i] {
          assert counts[1..][i] == counts[i + 1];
        }
      }
      AddCountsFresh(next, f, counts[1..], d, j + 1);
    }
  }

  /** A record keyed by `d` stays so under entries for keywords of `d`. */
  lemma {:induction false} AddCountsKept(cd: CategoryData, f: string, counts: seq<KeywordCount>, d: seq<string>)
    requires KeyedBy(cd, d)
    requires forall i :: 0 <= i < |counts| ==> counts[i].keyword in d
    ensures KeyedBy(AddCounts(cd, f, counts), d)
    decreases |counts|
  {
    if counts != [] {
      var next := AddCount(cd, f, counts[0]);
      assert KeyedBy(next, d);
      assert forall i :: 0 <= i < |counts[1..]| ==> counts[1..][i] == counts[i + 1];
      AddCountsKept(next, f, counts[1..], d);
    }
  }

  /** When every successful file has entries for the keywords `d` (no
      repeats), in that order, every record's keys are `d` in that order. */
  lemma {:induction false} AggregateKeys(rs: seq<Settled>, d: seq<string>, c: string)
    requires Distinct(d)
    requires forall i :: 0 <= i < |rs| && rs[i].Ok? ==> EntriesFor(rs[i].value.counts, d)
    ensures c in AggregateResults(rs).data ==> KeyedBy(AggregateResults(rs).data[c], d)
    decreases |rs|
  {
    if rs != [] {
      var front := rs[..|rs| - 1];
      var last := rs[|rs| - 1];
      var a := AggregateResults(front);
      assert forall i :: 0 <= i < |front| ==> front[i] == rs[i];
      AggregateKeys(front, d, c);
      if last.Ok? && last.value.category == c {
        var r := last.value;
        assert AggregateResults(rs).data[c] == AddFile(Cat(a, c), r);
        if c in a.data {
          AddFileKeyed(Cat(a, c), r, d);
        } else {
          NewRecordKeyed(r, d);
        }
      } else {
        assert AggregateResults(rs) == Fold(a, last);
      }
    }
  }


  /** A record keyed by `d` stays keyed by `d` after a file with entries for `d`. */
  lemma AddFileKeyed(cd: CategoryData, r: FileResult, d: seq<string>)
    requires EntriesFor(r.counts, d) && KeyedBy(cd, d)
    ensures KeyedBy(AddFile(cd, r), d)
  {
    assert forall i :: 0 <= i < |r.counts| ==> r.counts[i].keyword in d;
    AddCountsKept(MarkSeen(cd, r.fileName), r.fileName, r.counts, d);
  }

  /** A category's first file, with entries for `d`, creates a record keyed by `d`. */
  lemma NewRecordKeyed(r: FileResult, d: seq<string>)
    requires Distinct(d) && EntriesFor(r.counts, d)
    ensures KeyedBy(AddFile(EmptyCategory, r), d)
  {
    var cd := EmptyCategory;
    assert r.fileName !in cd.processedFiles;
    var counted := MarkSeen(cd, r.fileName);
    assert d[..0] == [];
    assert forall i :: 0 <= i < |r.counts| ==> r.counts[i].keyword == d[0 + i];
    AddCountsFresh(counted, r.fileName, r.counts, d, 0);
  }

}
