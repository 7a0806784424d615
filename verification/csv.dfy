/** The CSV export. Both variants write a header row and one row per category
    and summary key with a positive total, holding the category, the keyword,
    the total and the quoted list `file (count); file (count); …` (or `N/A`).
    The enriched variant appends two empty rows, a title row, a second header
    and one summary row per category, and prefixes the text with a byte-order
    mark. Fields are joined with `,` and rows with a line feed; no field is
    escaped, so a comma in a category, keyword or file name shifts the columns. */
module Csv {
  import opened Text
  import opened Aggregate
  import opened Display
  import opened SearchText

  type Row = seq<string>

  const DetailHeader: Row := ["Categoria", "Palabra Clave", "Total Apariciones", "Archivos con la Palabra (cantidad)"]
  const SummaryTitle: Row := ["--- RESUMEN POR MATERIA ---"]
  const SummaryHeader: Row :=
    ["Materia", "Archivos Analizados", "Total Palabras Clave Encontradas", "Palabra M\U{E1}s Frecuente (Apariciones)"]
  const NotAvailable := "N/A"
  const ByteOrderMark := "\U{FEFF}"

  // ---------------------------------------------------------------------------
  // Detail rows

  /** `${d.file} (${d.count})`. */
  function FileEntry(d: Detail): string {
    d.file + " (" + NatToString(d.count) + ")"
  }

  function FileEntries(ds: seq<Detail>): (r: seq<string>)
    ensures |r| == |ds|
    ensures forall i :: 0 <= i < |ds| ==> r[i] == FileEntry(ds[i])
  {
    seq(|ds|, i requires 0 <= i < |ds| => FileEntry(ds[i]))
  }

  /** The fourth column before quoting. */
  function FilesDetail(cd: CategoryData, k: string): string {
    if k in cd.details then Join(FileEntries(cd.details[k]), "; ") else NotAvailable
  }

  function Quote(s: string): string {
    "\"" + s + "\""
  }

  function DetailRow(c: string, cd: CategoryData, k: string): Row {
    [c, k, NatToString(SummaryOf(cd, k)), Quote(FilesDetail(cd, k))]
  }

  /** The detail rows of one category, in summary-key order: one per key of
      `Object.keys(categoryData.summary).filter(k => categoryData.summary[k] > 0)`. */
  function CategoryRows(c: string, cd: CategoryData): (rows: seq<Row>)
  {
    var ks := Positive(cd, cd.keys);
    seq(|ks|, i requires 0 <= i < |ks| => DetailRow(c, cd, ks[i]))
  }

  /** The detail rows of the categories `cats`, in category order. */
  function AllCategoryRows(a: Analysis, cats: seq<string>): seq<Row>
    decreases |cats|
  {
    if cats == [] then []
    else
      var c := cats[|cats| - 1];
      AllCategoryRows(a, cats[..|cats| - 1]) + CategoryRows(c, Cat(a, c))
  }

  function DetailRows(a: Analysis): seq<Row> {
    [DetailHeader] + AllCategoryRows(a, a.categories)
  }

  // ---------------------------------------------------------------------------
  // Summary block (enriched variant)

  /** The scan `if (count > maxCount) { maxCount = count; mostFrequentWord = keyword; }`
      starting from `maxCount = 0`: the index of the first maximal positive
      score, or -1 when every score is 0. */
  datatype Max = Max(at: int, count: nat)

  function FirstMax(scores: seq<nat>): (m: Max)
    ensures m.at == -1 <==> forall j :: 0 <= j < |scores| ==> scores[j] == 0
    ensures m.at == -1 ==> m.count == 0
    ensures m.at != -1 ==> 0 <= m.at < |scores| && m.count == scores[m.at] > 0
    ensures m.at != -1 ==> forall j :: 0 <= j < |scores| ==> scores[j] <= m.count
    ensures m.at != -1 ==> forall j :: 0 <= j < m.at ==> scores[j] < m.count
    decreases |scores|
  {
    if scores == [] then Max(-1, 0)
    else
      var n := |scores| - 1;
      var prev := FirstMax(scores[..n]);
      if scores[n] > prev.count then Max(n, scores[n]) else prev
  }

  /** `totalWordsFound`: the sum of the summary entries over `keys`. */
  function KeySum(cd: CategoryData, keys: seq<string>): nat
    decreases |keys|
  {
    if keys == [] then 0 else SummaryOf(cd, keys[0]) + KeySum(cd, keys[1..])
  }

  /** `${mostFrequentWord} (${maxCount})`, or `N/A` when no count is positive. */
  function MostFrequentCell(cd: CategoryData): string {
    var m := FirstMax(Column(cd, cd.keys));
    if m.count > 0 then cd.keys[m.at] + " (" + NatToString(m.count) + ")" else NotAvailable
  }

  function SummaryRow(c: string, cd: CategoryData): Row {
    [c, NatToString(cd.fileCount), NatToString(KeySum(cd, cd.keys)), MostFrequentCell(cd)]
  }

  function SummaryRows(a: Analysis, cats: seq<string>): (rows: seq<Row>)
    ensures |rows| == |cats|
    ensures forall i :: 0 <= i < |cats| ==> rows[i] == SummaryRow(cats[i], Cat(a, cats[i]))
  {
    seq(|cats|, i requires 0 <= i < |cats| => SummaryRow(cats[i], Cat(a, cats[i])))
  }

  function SummaryBlock(a: Analysis): seq<Row> {
    [[], [], SummaryTitle, SummaryHeader] + SummaryRows(a, a.categories)
  }

  // ---------------------------------------------------------------------------
  // The text

  /** `e.join(",")`. */
  function Line(row: Row): string {
    Join(row, ",")
  }

  function Lines(rows: seq<Row>): (r: seq<string>)
    ensures |r| == |rows|
    ensures forall i :: 0 <= i < |rows| ==> r[i] == Line(rows[i])
  {
    seq(|rows|, i requires 0 <= i < |rows| => Line(rows[i]))
  }

  /** The exported text, before the plain variant's `data:` prefix and URI encoding. */
  function CsvText(v: Variant, a: Analysis): string {
    match v
    case Plain => Join(Lines(DetailRows(a)), "\n")
    case Enriched => ByteOrderMark + Join(Lines(DetailRows(a) + SummaryBlock(a)), "\n")
  }

  // ---------------------------------------------------------------------------
  // Properties

  /** In a valid record a keyword with a positive total always has details, so
      its file list is never `N/A`; the list names every detail, in order. */
  lemma DetailRowNeverNA(c: string, cd: CategoryData, k: string)
    requires ValidCategory(cd) && SummaryOf(cd, k) > 0
    ensures k in cd.details
    ensures DetailRow(c, cd, k)[3] == Quote(Join(FileEntries(cd.details[k]), "; "))
  {
    assert SummaryOf(cd, k) == SumCounts(DetailsOf(cd, k));
  }

  /** A category contributes one row per summary key with a positive total, in
      `keys` order, and each row states the category, the keyword, its total
      and its file list. */
  lemma CategoryRowsSpec(c: string, cd: CategoryData)
    requires ValidCategory(cd)
    ensures var ks := Positive(cd, cd.keys); var rows := CategoryRows(c, cd);
      && |rows| == |ks|
      && (forall k :: k in ks <==> k in cd.summary && cd.summary[k] > 0)
      && (forall i :: 0 <= i < |rows| ==>
            rows[i] == [c, ks[i], NatToString(cd.summary[ks[i]]), Quote(Join(FileEntries(cd.details[ks[i]]), "; "))])
  {
    var ks := Positive(cd, cd.keys);
    forall i | 0 <= i < |ks|
      ensures ks[i] in cd.details && SummaryOf(cd, ks[i]) == cd.summary[ks[i]]
    {
      DetailRowNeverNA(c, cd, ks[i]);
    }
  }

  /** Every row after the header belongs to a category of the analysis and a
      keyword with a positive total there. */
  lemma {:induction false} AllCategoryRowsSpec(a: Analysis, cats: seq<string>)
    ensures forall i :: 0 <= i < |AllCategoryRows(a, cats)| ==>
      var row := AllCategoryRows(a, cats)[i];
      |row| == 4 && row[0] in cats && SummaryOf(Cat(a, row[0]), row[1]) > 0
    decreases |cats|
  {
    if cats != [] {
      var init := cats[..|cats| - 1];
      AllCategoryRowsSpec(a, init);
      var c := cats[|cats| - 1];
      var prev := AllCategoryRows(a, init);
      var mine := CategoryRows(c, Cat(a, c));
      var all := AllCategoryRows(a, cats);
      forall i | 0 <= i < |all|
        ensures |all[i]| == 4 && all[i][0] in cats && SummaryOf(Cat(a, all[i][0]), all[i][1]) > 0
      {
        if i < |prev| {
          assert all[i] == prev[i];
        } else {
          assert all[i] == mine[i - |prev|];
        }
      }
    }
  }

  /** The summary row's total is the sum of the category's detail-row totals
      (keys with a zero total add nothing). */
  lemma {:induction false} SummaryTotalIsDetailSum(cd: CategoryData, keys: seq<string>)
    ensures KeySum(cd, keys) == KeySum(cd, Positive(cd, keys))
    decreases |keys|
  {
    if keys != [] {
      SummaryTotalIsDetailSum(cd, keys[1..]);
      if SummaryOf(cd, keys[0]) > 0 {
        assert Positive(cd, keys) == [keys[0]] + Positive(cd, keys[1..]);
        assert Positive(cd, keys)[1..] == Positive(cd, keys[1..]);
      } else {
        assert Positive(cd, keys) == Positive(cd, keys[1..]);
      }
    }
  }

  /** The scan finds a positive count exactly when some summary key has a
      positive total. */
  lemma FirstMaxFindsPositive(cd: CategoryData)
    ensures FirstMax(Column(cd, cd.keys)).count > 0 <==> |Positive(cd, cd.keys)| > 0
  {
    var ks := Positive(cd, cd.keys);
    if |ks| > 0 {
      assert ks[0] in cd.keys;
      var i :| 0 <= i < |cd.keys| && cd.keys[i] == ks[0];
      assert Column(cd, cd.keys)[i] > 0;
    }
  }

  /** The summary row's last cell: `N/A` exactly when the category has no detail
      rows; otherwise the first summary key with the largest total, with that
      total. */
  lemma MostFrequentCellSpec(cd: CategoryData)
    ensures MostFrequentCell(cd) == NotAvailable <==> |Positive(cd, cd.keys)| == 0
    ensures |Positive(cd, cd.keys)| > 0 ==> exists i :: (0 <= i < |cd.keys|
      && MostFrequentCell(cd) == cd.keys[i] + " (" + NatToString(SummaryOf(cd, cd.keys[i])) + ")"
      && (forall j :: 0 <= j < |cd.keys| ==> SummaryOf(cd, cd.keys[j]) <= SummaryOf(cd, cd.keys[i]))
      && (forall j :: 0 <= j < i ==> SummaryOf(cd, cd.keys[j]) < SummaryOf(cd, cd.keys[i])))
  {
    var m := FirstMax(Column(cd, cd.keys));
    FirstMaxFindsPositive(cd);
    if m.count > 0 {
      MostFrequentCellAt(cd);
      CellIsNotNA(cd.keys[m.at], NatToString(m.count));
    } else {
      assert MostFrequentCell(cd) == NotAvailable;
    }
  }

  /** The cell in terms of the keyword list `d` the summary keys equal: `N/A`
      exactly when no keyword of `d` occurs, otherwise the first keyword of `d`
      with the largest total. */
  lemma MostFrequentCellOfList(cd: CategoryData, d: seq<string>)
    requires cd.keys == d
    ensures MostFrequentCell(cd) == NotAvailable <==> forall j :: 0 <= j < |d| ==> SummaryOf(cd, d[j]) == 0
    ensures (exists j :: 0 <= j < |d| && SummaryOf(cd, d[j]) > 0) ==> exists i :: (0 <= i < |d|
      && MostFrequentCell(cd) == d[i] + " (" + NatToString(SummaryOf(cd, d[i])) + ")"
      && (forall j :: 0 <= j < |d| ==> SummaryOf(cd, d[j]) <= SummaryOf(cd, d[i]))
      && (forall j :: 0 <= j < i ==> SummaryOf(cd, d[j]) < SummaryOf(cd, d[i])))
  {
    MostFrequentCellSpec(cd);
    NoPositiveIff(cd, d);
  }

  lemma NoPositiveIff(cd: CategoryData, d: seq<string>)
    ensures |Positive(cd, d)| == 0 <==> forall j :: 0 <= j < |d| ==> SummaryOf(cd, d[j]) == 0
  {
    var p := Positive(cd, d);
    if |p| > 0 {
      assert p[0] in p;
    }
    if exists j :: 0 <= j < |d| && SummaryOf(cd, d[j]) > 0 {
      var j :| 0 <= j < |d| && SummaryOf(cd, d[j]) > 0;
      assert d[j] in p;
    }
  }

  /** When some total is positive, the cell names the key `FirstMax` picks,
      which has the largest total and no earlier key reaches it. */
  lemma MostFrequentCellAt(cd: CategoryData)
    requires FirstMax(Column(cd, cd.keys)).count > 0
    ensures var i := FirstMax(Column(cd, cd.keys)).at;
      && 0 <= i < |cd.keys|
      && MostFrequentCell(cd) == cd.keys[i] + " (" + NatToString(SummaryOf(cd, cd.keys[i])) + ")"
      && (forall j :: 0 <= j < |cd.keys| ==> SummaryOf(cd, cd.keys[j]) <= SummaryOf(cd, cd.keys[i]))
      && (forall j :: 0 <= j < i ==> SummaryOf(cd, cd.keys[j]) < SummaryOf(cd, cd.keys[i]))
  {
    var scores := Column(cd, cd.keys);
    var m := FirstMax(scores);
    assert forall j :: 0 <= j < |cd.keys| ==> scores[j] <= m.count;
    assert forall j :: 0 <= j < m.at ==> scores[j] < m.count;
  }

  /** A keyword cell ends in `)`, so it is never `N/A`. */
  lemma CellIsNotNA(k: string, n: string)
    ensures k + " (" + n + ")" != NotAvailable
  {
    var cell := k + " (" + n + ")";
    assert cell[|cell| - 1] == ')';
    assert NotAvailable[|NotAvailable| - 1] == 'A';
  }

  /** A row whose fields contain no comma reads back field by field. */
  lemma RowReadsBack(row: Row)
    requires |row| >= 1
    requires forall i :: 0 <= i < |row| ==> ',' !in row[i]
    ensures Split(Line(row), ',') == row
  {
    SplitJoin(row, ',');
  }

  /** A comma inside the first field splits it in two: the line reads back with
      one column too many. */
  lemma CommaShiftsColumns(p: string, q: string, rest: Row)
    requires ',' !in p && ',' !in q
    requires forall i :: 0 <= i < |rest| ==> ',' !in rest[i]
    ensures |Split(Line([p + "," + q] + rest), ',')| == |rest| + 2
  {
    var parts := [p, q] + rest;
    if rest == [] {
      assert Join(parts, ",") == p + "," + q;
    } else {
      JoinAppend([p, q], rest, ",");
      JoinAppend([p + "," + q], rest, ",");
      assert Join([p, q], ",") == p + "," + q;
    }
    assert Line([p + "," + q] + rest) == Join(parts, ",");
    SplitJoin(parts, ',');
  }

  /** A text whose rows contain no line feed splits back into its lines. */
  lemma LinesReadBack(rows: seq<Row>)
    requires |rows| >= 1
    requires forall i, j :: 0 <= i < |rows| && 0 <= j < |rows[i]| ==> '\n' !in rows[i][j]
    ensures Split(Join(Lines(rows), "\n"), '\n') == Lines(rows)
  {
    forall i | 0 <= i < |rows|
      ensures '\n' !in Lines(rows)[i]
    {
      JoinAvoids(rows[i], ",", '\n');
    }
    SplitJoin(Lines(rows), '\n');
  }

  /** The plain export is exactly the detail table; the enriched export is the
      byte-order mark followed by the detail table, a line feed and the summary
      block. */
  lemma CsvShape(a: Analysis)
    ensures CsvText(Plain, a) == Join(Lines(DetailRows(a)), "\n")
    ensures CsvText(Enriched, a) == ByteOrderMark + (CsvText(Plain, a) + "\n" + Join(Lines(SummaryBlock(a)), "\n"))
  {
    JoinBlocks(DetailRows(a), SummaryBlock(a));
  }

  /** Two non-empty blocks of rows written one after the other are the two
      texts joined by a line feed. */
  lemma JoinBlocks(d: seq<Row>, s: seq<Row>)
    requires |d| > 0 && |s| > 0
    ensures Join(Lines(d + s), "\n") == Join(Lines(d), "\n") + "\n" + Join(Lines(s), "\n")
  {
    assert Lines(d + s) == Lines(d) + Lines(s);
    JoinAppend(Lines(d), Lines(s), "\n");
  }

}
