/** The chart series of the enriched variant: `prepareGlobalChartData` (the
    labels, total bars and one radar dataset per category) and the data of a
    category's pie chart. Rendering and colours are not modelled. */
module Charts {
  import opened Text
  import opened Aggregate
  import opened Insights
  import opened Display

  /** Some category has a positive count of `k`
      (`Object.values(analysisData).some(cat => (cat.summary[k] || 0) > 0)`). */
  predicate InSomeCategory(a: Analysis, k: string) {
    exists i :: 0 <= i < |a.categories| && SummaryOf(Cat(a, a.categories[i]), k) > 0
  }

  /** The chart labels: the keywords of the list present in some category, in
      keyword-list order. */
  function Labels(a: Analysis, ks: seq<string>): (r: seq<string>)
    ensures forall k :: k in r <==> k in ks && InSomeCategory(a, k)
    decreases |ks|
  {
    if ks == [] then []
    else
      var k := ks[|ks| - 1];
      Labels(a, ks[..|ks| - 1]) + (if InSomeCategory(a, k) then [k] else [])
  }

  /** `label => some category has a positive count of it`, as a test. */
  function HasCategory(a: Analysis): string -> bool {
    k => InSomeCategory(a, k)
  }

  /** The labels are the keyword list filtered by presence: the keywords
      present in some category, in list order, repeats kept. */
  lemma {:induction false} LabelsIsFilter(a: Analysis, ks: seq<string>)
    ensures Labels(a, ks) == Filter(ks, HasCategory(a))
    decreases |ks|
  {
    if ks != [] {
      var init := ks[..|ks| - 1];
      var k := ks[|ks| - 1];
      LabelsIsFilter(a, init);
      assert ks == init + [k];
      FilterSnoc(init, k, HasCategory(a));
    }
  }

  /** One radar dataset: a category and its counts aligned to the labels. */
  datatype Dataset = Dataset(category: string, data: seq<nat>)

  datatype ChartData = ChartData(labels: seq<string>, totalCounts: seq<nat>, datasets: seq<Dataset>)

  /** `Object.values(analysisData).reduce((sum, category) => sum + (category.summary[label] || 0), 0)`. */
  function LabelTotal(a: Analysis, cats: seq<string>, k: string): nat
    decreases |cats|
  {
    if cats == [] then 0 else LabelTotal(a, cats[..|cats| - 1], k) + SummaryOf(Cat(a, cats[|cats| - 1]), k)
  }

  function GlobalChartData(a: Analysis, ks: seq<string>): ChartData {
    var labels := Labels(a, ks);
    var totals := seq(|labels|, i requires 0 <= i < |labels| => LabelTotal(a, a.categories, labels[i]));
    ChartData(labels, totals, Datasets(a, a.categories, labels))
  }

  /** `Object.entries(analysisData).map(...)` over the categories `cats`. */
  function Datasets(a: Analysis, cats: seq<string>, labels: seq<string>): (ds: seq<Dataset>)
    ensures |ds| == |cats|
    ensures forall j :: 0 <= j < |cats| ==> ds[j] == Dataset(cats[j], Column(Cat(a, cats[j]), labels))
  {
    seq(|cats|, j requires 0 <= j < |cats| => Dataset(cats[j], Column(Cat(a, cats[j]), labels)))
  }

  /** The sum of entry `i` over the datasets. */
  function DatasetSum(ds: seq<Dataset>, i: nat): nat
    decreases |ds|
  {
    if ds == [] then 0
    else DatasetSum(ds[..|ds| - 1], i) + (if i < |ds[|ds| - 1].data| then ds[|ds| - 1].data[i] else 0)
  }

  lemma {:induction false} LabelTotalIsDatasetSum(a: Analysis, cats: seq<string>, labels: seq<string>, i: nat)
    requires i < |labels|
    ensures LabelTotal(a, cats, labels[i]) == DatasetSum(Datasets(a, cats, labels), i)
    decreases |cats|
  {
    var ds := Datasets(a, cats, labels);
    if cats != [] {
      var init := cats[..|cats| - 1];
      LabelTotalIsDatasetSum(a, init, labels, i);
      assert ds[..|ds| - 1] == Datasets(a, init, labels);
    }
  }

  /** The labels total is a keyword's column sum: it is positive exactly when
      some category has the keyword. */
  lemma {:induction false} LabelTotalPositive(a: Analysis, cats: seq<string>, k: string)
    ensures LabelTotal(a, cats, k) > 0 <==> exists i :: 0 <= i < |cats| && SummaryOf(Cat(a, cats[i]), k) > 0
    decreases |cats|
  {
    if cats != [] {
      var init := cats[..|cats| - 1];
      LabelTotalPositive(a, init, k);
      assert forall i :: 0 <= i < |init| ==> init[i] == cats[i];
      if LabelTotal(a, init, k) > 0 {
        var i :| 0 <= i < |init| && SummaryOf(Cat(a, init[i]), k) > 0;
        assert cats[i] == init[i];
      }
    }
  }

  /** The series are aligned: one total per label, equal to the sum of that
      label's entries over the datasets and positive; one dataset per category,
      in category order, holding the category's count of each label (0 when
      the category lacks it). */
  lemma ChartAlignment(a: Analysis, ks: seq<string>)
    ensures var g := GlobalChartData(a, ks);
      && |g.totalCounts| == |g.labels|
      && |g.datasets| == |a.categories|
      && (forall j :: 0 <= j < |g.datasets| ==> g.datasets[j].category == a.categories[j] && |g.datasets[j].data| == |g.labels|)
      && (forall j, i :: 0 <= j < |g.datasets| && 0 <= i < |g.labels| ==>
            g.datasets[j].data[i] == SummaryOf(Cat(a, a.categories[j]), g.labels[i]))
      && (forall i :: 0 <= i < |g.labels| ==> g.totalCounts[i] == DatasetSum(g.datasets, i) && g.totalCounts[i] > 0)
  {
    var g := GlobalChartData(a, ks);
    forall i | 0 <= i < |g.labels|
      ensures g.totalCounts[i] == DatasetSum(g.datasets, i) && g.totalCounts[i] > 0
    {
      assert g.totalCounts[i] == LabelTotal(a, a.categories, g.labels[i]);
      LabelTotalIsDatasetSum(a, a.categories, g.labels, i);
      assert g.labels[i] in Labels(a, ks);
      LabelTotalPositive(a, a.categories, g.labels[i]);
    }
  }

  /** The label totals are the keyword totals of the final summary: for a
      duplicate-free list the chart labels are exactly the summary's found
      keywords, in the same order, and each bar is that keyword's total. */
  lemma ChartMatchesSummary(a: Analysis, ks: seq<string>)
    requires Distinct(ks)
    ensures Labels(a, ks) == Found(Dedup(ks), Tallies(a, ks))
    ensures var g := GlobalChartData(a, ks);
      forall i :: 0 <= i < |g.labels| ==> g.totalCounts[i] == TotalOf(Tallies(a, ks), g.labels[i])
  {
    var m := Tallies(a, ks);
    DedupOfDistinct(ks);
    forall k | k in ks
      ensures LabelTotal(a, a.categories, k) == TotalOf(m, k)
      ensures InSomeCategory(a, k) <==> TotalOf(m, k) > 0
    {
      TallyAllIsReference(a, a.categories, ks, k);
      LabelTotalSame(a, a.categories, k);
      LabelTotalPositive(a, a.categories, k);
    }
    LabelsFilter(a, ks, m);
  }

  lemma {:induction false} LabelTotalSame(a: Analysis, cats: seq<string>, k: string)
    ensures LabelTotal(a, cats, k) == ColumnSum(a, cats, k)
    decreases |cats|
  {
    if cats != [] {
      LabelTotalSame(a, cats[..|cats| - 1], k);
    }
  }

  lemma {:induction false} LabelsFilter(a: Analysis, keys: seq<string>, m: map<string, Tally>)
    requires forall k :: k in keys ==> (InSomeCategory(a, k) <==> TotalOf(m, k) > 0)
    ensures Labels(a, keys) == Found(keys, m)
    decreases |keys|
  {
    if keys != [] {
      LabelsFilter(a, keys[..|keys| - 1], m);
    }
  }

  // ---------------------------------------------------------------------------
  // Pie chart of one category

  /** Labels and data of a category's pie chart, or no chart when no keyword of
      the list has a positive count. */
  datatype Pie = NoChartData | Pie(labels: seq<string>, data: seq<nat>)

  function PieOf(cd: CategoryData, ks: seq<string>): Pie {
    var labels := Positive(cd, ks);
    var data := seq(|labels|, i requires 0 <= i < |labels| => SummaryOf(cd, labels[i]));
    if |data| == 0 then NoChartData else Pie(labels, data)
  }

  /** The pie shows the same keywords as the table, in the same order, each
      with its positive total; there is no pie exactly when the table is empty. */
  lemma PieMatchesTable(cd: CategoryData, ks: seq<string>)
    ensures PieOf(cd, ks).NoChartData? <==> |Rows(cd, ks)| == 0
    ensures PieOf(cd, ks).Pie? ==> PieOf(cd, ks).labels == RowKeywords(Rows(cd, ks))
    ensures PieOf(cd, ks).Pie? ==>
      && |PieOf(cd, ks).data| == |PieOf(cd, ks).labels|
      && (forall i :: 0 <= i < |PieOf(cd, ks).data| ==> PieOf(cd, ks).data[i] == Rows(cd, ks)[i].total > 0)
  {
    RowsFollowKeywordList(cd, ks);
  }

  /** Every keyword of a category's pie is also a label of the global charts. */
  lemma PieLabelsAreChartLabels(a: Analysis, ks: seq<string>, j: nat)
    requires j < |a.categories|
    ensures var p := PieOf(Cat(a, a.categories[j]), ks);
      p.Pie? ==> forall k :: k in p.labels ==> k in Labels(a, ks)
  {
    var cd := Cat(a, a.categories[j]);
    var p := PieOf(cd, ks);
    if p.Pie? {
      RowsFollowKeywordList(cd, ks);
      forall k | k in p.labels
        ensures k in Labels(a, ks)
      {
        var i :| 0 <= i < |p.labels| && p.labels[i] == k;
        assert Rows(cd, ks)[i].keyword == k;
      }
    }
  }

}
