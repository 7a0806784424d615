/** The row logic of the results table (`displayResults`): per category, one row
    per keyword of the keyword list whose summary total is positive, in
    keyword-list order, followed by that keyword's details sorted by descending
    count. `Array.prototype.sort` is stable and sorts in place, so files with
    equal counts keep their aggregation order and every later reader of the
    analysis (the CSV export) sees the sorted lists. */
module Display {
  import opened Text
  import opened Aggregate

  // ---------------------------------------------------------------------------
  // Stable descending sort of a detail list

  predicate SortedDesc(s: seq<Detail>) {
    forall i, j :: 0 <= i < j < |s| ==> s[i].count >= s[j].count
  }

  /** Places `x` before the first element whose count is not larger. */
  function Insert(x: Detail, s: seq<Detail>): (r: seq<Detail>)
    ensures |r| == |s| + 1
    decreases |s|
  {
    if s == [] || s[0].count <= x.count then [x] + s
    else [s[0]] + Insert(x, s[1..])
  }

  /** Inserting adds exactly `x`. */
  lemma {:induction false} InsertPermutes(x: Detail, s: seq<Detail>)
    ensures multiset(Insert(x, s)) == multiset(s) + multiset{x}
    decreases |s|
  {
    if !(s == [] || s[0].count <= x.count) {
      InsertPermutes(x, s[1..]);
      assert s == [s[0]] + s[1..];
    }
  }

  /** `details.sort((a, b) => b.count - a.count)`. */
  function SortDetails(s: seq<Detail>): (r: seq<Detail>)
    ensures multiset(r) == multiset(s)
    decreases |s|
  {
    if s == [] then []
    else
      assert s == [s[0]] + s[1..];
      InsertPermutes(s[0], SortDetails(s[1..]));
      Insert(s[0], SortDetails(s[1..]))
  }

  lemma {:induction false} InsertSorted(x: Detail, s: seq<Detail>)
    requires SortedDesc(s)
    ensures SortedDesc(Insert(x, s))
    ensures Insert(x, s)[0] == x || (s != [] && Insert(x, s)[0] == s[0])
    decreases |s|
  {
    if s != [] && s[0].count > x.count {
      InsertSorted(x, s[1..]);
      InsertBounded(x, s[1..], s[0].count);
      var r := Insert(x, s);
      var t := Insert(x, s[1..]);
      assert r == [s[0]] + t;
      forall i, j | 0 <= i < j < |r|
        ensures r[i].count >= r[j].count
      {
        if i == 0 {
          assert r[j] == t[j - 1];
        }
      }
    }
  }

  /** Inserting below a bound keeps every count below it. */
  lemma {:induction false} InsertBounded(x: Detail, s: seq<Detail>, b: nat)
    requires x.count <= b
    requires forall k :: 0 <= k < |s| ==> s[k].count <= b
    ensures forall k :: 0 <= k < |Insert(x, s)| ==> Insert(x, s)[k].count <= b
    decreases |s|
  {
    if !(s == [] || s[0].count <= x.count) {
      InsertBounded(x, s[1..], b);
      assert Insert(x, s) == [s[0]] + Insert(x, s[1..]);
    }
  }

  /** The sort yields a descending permutation of its input. */
  lemma {:induction false} SortDetailsSorted(s: seq<Detail>)
    ensures SortedDesc(SortDetails(s))
    ensures multiset(SortDetails(s)) == multiset(s)
    decreases |s|
  {
    if s != [] {
      SortDetailsSorted(s[1..]);
      InsertSorted(s[0], SortDetails(s[1..]));
    }
  }

  /** The elements with count `v`, in order. */
  function WithCount(s: seq<Detail>, v: nat): (r: seq<Detail>)
    ensures |r| <= |s|
    decreases |s|
  {
    if s == [] then []
    else (if s[0].count == v then [s[0]] else []) + WithCount(s[1..], v)
  }

  lemma {:induction false} InsertStable(x: Detail, s: seq<Detail>, v: nat)
    ensures WithCount(Insert(x, s), v) == (if x.count == v then [x] else []) + WithCount(s, v)
    decreases |s|
  {
    if s != [] && s[0].count > x.count {
      var t := Insert(x, s[1..]);
      assert Insert(x, s) == [s[0]] + t;
      assert [s[0]] + s[1..] == s;
      WithCountCons(s[0], t, v);
      WithCountCons(s[0], s[1..], v);
      InsertStable(x, s[1..], v);
      if x.count == v {
        assert s[0].count != v;
      }
    } else {
      assert Insert(x, s) == [x] + s;
      WithCountCons(x, s, v);
    }
  }

  lemma WithCountCons(d: Detail, s: seq<Detail>, v: nat)
    ensures WithCount([d] + s, v) == (if d.count == v then [d] else []) + WithCount(s, v)
  {
    assert ([d] + s)[1..] == s;
  }

  /** Stability: among files with equal counts the sorted list keeps the
      original order. */
  lemma {:induction false} SortDetailsStable(s: seq<Detail>, v: nat)
    ensures WithCount(SortDetails(s), v) == WithCount(s, v)
    decreases |s|
  {
    if s != [] {
      SortDetailsStable(s[1..], v);
      SortDetailsSorted(s[1..]);
      InsertStable(s[0], SortDetails(s[1..]), v);
    }
  }

  lemma {:induction false} SumCountsInsert(x: Detail, s: seq<Detail>)
    ensures SumCounts(Insert(x, s)) == x.count + SumCounts(s)
    decreases |s|
  {
    if s != [] && s[0].count > x.count {
      SumCountsInsert(x, s[1..]);
      assert Insert(x, s)[1..] == Insert(x, s[1..]);
    } else {
      assert Insert(x, s)[1..] == s;
    }
  }

  /** Sorting changes neither the total nor the positivity of the counts. */
  lemma {:induction false} SortDetailsKeepsSum(s: seq<Detail>)
    ensures SumCounts(SortDetails(s)) == SumCounts(s)
    ensures AllPositive(s) ==> AllPositive(SortDetails(s))
    decreases |s|
  {
    if s != [] {
      SortDetailsKeepsSum(s[1..]);
      SumCountsInsert(s[0], SortDetails(s[1..]));
      if AllPositive(s) {
        var r := SortDetails(s);
        forall i | 0 <= i < |r| ensures r[i].count > 0 {
          assert r[i] in multiset(s);
        }
      }
    }
  }

  /** Sorting an already sorted list changes nothing, so sorting twice is
      sorting once. */
  lemma {:induction false} SortDetailsOfSorted(s: seq<Detail>)
    requires SortedDesc(s)
    ensures SortDetails(s) == s
    decreases |s|
  {
    if s != [] {
      SortDetailsOfSorted(s[1..]);
      assert s == [s[0]] + s[1..];
    }
  }

  lemma SortDetailsIdempotent(s: seq<Detail>)
    ensures SortDetails(SortDetails(s)) == SortDetails(s)
  {
    SortDetailsSorted(s);
    SortDetailsOfSorted(SortDetails(s));
  }

  // ---------------------------------------------------------------------------
  // Table rows

  /** A keyword row and its (sorted) detail rows. */
  datatype Row = Row(keyword: string, total: nat, details: seq<Detail>)

  /** `keywordList.forEach(...)` for one category. */
  function Rows(cd: CategoryData, ks: seq<string>): (rows: seq<Row>)
    ensures |rows| <= |ks|
    ensures forall i :: 0 <= i < |rows| ==> rows[i].keyword in ks && rows[i].total == SummaryOf(cd, rows[i].keyword) > 0
    ensures forall i :: 0 <= i < |rows| ==> rows[i].details == SortDetails(DetailsOf(cd, rows[i].keyword))
    decreases |ks|
  {
    if ks == [] then []
    else
      var k := ks[0];
      var rest := Rows(cd, ks[1..]);
      if SummaryOf(cd, k) > 0 then
        var rows := [Row(k, SummaryOf(cd, k), SortDetails(DetailsOf(cd, k)))] + rest;
        assert forall i :: 0 < i < |rows| ==> rows[i] == rest[i - 1];
        rows
      else rest
  }

  /** The keywords of the rows, as a list. */
  function RowKeywords(rows: seq<Row>): (r: seq<string>)
    ensures |r| == |rows|
    ensures forall i :: 0 <= i < |rows| ==> r[i] == rows[i].keyword
  {
    seq(|rows|, i requires 0 <= i < |rows| => rows[i].keyword)
  }

  /** The keywords of `ks` with a positive total, in keyword-list order. */
  function Positive(cd: CategoryData, ks: seq<string>): (r: seq<string>)
    ensures |r| <= |ks|
    ensures forall k :: k in r <==> k in ks && SummaryOf(cd, k) > 0
    decreases |ks|
  {
    if ks == [] then [] else (if SummaryOf(cd, ks[0]) > 0 then [ks[0]] else []) + Positive(cd, ks[1..])
  }

  /** The rows follow keyword-list order: their keywords are exactly the
      keywords of the list whose total is positive, in that order. */
  lemma {:induction false} RowsFollowKeywordList(cd: CategoryData, ks: seq<string>)
    ensures RowKeywords(Rows(cd, ks)) == Positive(cd, ks)
    decreases |ks|
  {
    if ks != [] {
      RowsFollowKeywordList(cd, ks[1..]);
      var rest := Rows(cd, ks[1..]);
      var r := Rows(cd, ks);
      if SummaryOf(cd, ks[0]) > 0 {
        var x := Row(ks[0], SummaryOf(cd, ks[0]), SortDetails(DetailsOf(cd, ks[0])));
        assert r == [x] + rest;
        RowKeywordsCons(x, rest);
      } else {
        assert r == rest;
      }
    }
  }

  /** The keywords of a row list with one more row in front. */
  lemma RowKeywordsCons(x: Row, rest: seq<Row>)
    ensures RowKeywords([x] + rest) == [x.keyword] + RowKeywords(rest)
  {
  }

  /** In a valid record every row's detail rows are sorted by descending count,
      are all positive, and add up to the row's total. */
  lemma RowDetails(cd: CategoryData, ks: seq<string>, i: nat)
    requires ValidCategory(cd) && i < |Rows(cd, ks)|
    ensures var row := Rows(cd, ks)[i];
      && SortedDesc(row.details)
      && multiset(row.details) == multiset(DetailsOf(cd, row.keyword))
      && AllPositive(row.details)
      && SumCounts(row.details) == row.total
  {
    var row := Rows(cd, ks)[i];
    var d := DetailsOf(cd, row.keyword);
    SortDetailsSorted(d);
    SortDetailsKeepsSum(d);
    assert row.keyword in cd.summary;
  }

  // ---------------------------------------------------------------------------
  // The in-place sort seen by later readers

  /** The record after the table was rendered: the detail list of every
      keyword of the list with a positive total is sorted. A keyword listed twice
      is sorted twice, which changes nothing (`SortDetailsIdempotent`). */
  function SortCategory(cd: CategoryData, ks: seq<string>): CategoryData {
    cd.(details := map k | k in cd.details ::
      if k in ks && SummaryOf(cd, k) > 0 then SortDetails(cd.details[k]) else cd.details[k])
  }

  /** The analysis after `displayResults`. */
  function SortAnalysis(a: Analysis, ks: seq<string>): Analysis {
    Analysis(a.categories, map c | c in a.data :: SortCategory(a.data[c], ks))
  }

  /** What the in-place sort does to one detail list. */
  lemma SortedList(cd: CategoryData, ks: seq<string>, x: string)
    requires ValidCategory(cd) && x in cd.details
    ensures var r := SortCategory(cd, ks).details[x];
      && SumCounts(r) == SumCounts(cd.details[x])
      && multiset(r) == multiset(cd.details[x])
      && |r| == |cd.details[x]| > 0
      && AllPositive(r)
      && (forall i :: 0 <= i < |r| ==> r[i].file in cd.processedFiles)
      && (x in ks ==> SortedDesc(r))
  {
    var s := cd.details[x];
    var r := SortCategory(cd, ks).details[x];
    SortDetailsSorted(s);
    SortDetailsKeepsSum(s);
    forall i | 0 <= i < |r|
      ensures r[i].file in cd.processedFiles
    {
      assert r[i] in multiset(s);
    }
  }

  /** The in-place sort keeps the record valid and changes nothing but the
      order inside the detail lists. */
  lemma SortCategoryValid(cd: CategoryData, ks: seq<string>)
    requires ValidCategory(cd)
    ensures ValidCategory(SortCategory(cd, ks))
    ensures SortCategory(cd, ks).summary == cd.summary && SortCategory(cd, ks).keys == cd.keys
    ensures SortCategory(cd, ks).processedFiles == cd.processedFiles && SortCategory(cd, ks).fileCount == cd.fileCount
  {
    var r := SortCategory(cd, ks);
    forall x | x in r.details
      ensures && x in r.summary && |r.details[x]| > 0 && AllPositive(r.details[x])
              && (forall i :: 0 <= i < |r.details[x]| ==> r.details[x][i].file in r.processedFiles)
    {
      SortedList(cd, ks, x);
    }
    forall x | x in r.summary
      ensures r.summary[x] == SumCounts(DetailsOf(r, x))
    {
      if x in r.details {
        SortedList(cd, ks, x);
      }
    }
  }

  /** After the in-place sort, each detail list is a permutation of what it was,
      sorted by descending count when its keyword is in the keyword list. */
  lemma SortCategoryEffect(cd: CategoryData, ks: seq<string>, k: string)
    requires ValidCategory(cd)
    ensures multiset(DetailsOf(SortCategory(cd, ks), k)) == multiset(DetailsOf(cd, k))
    ensures k in ks ==> SortedDesc(DetailsOf(SortCategory(cd, ks), k))
  {
    if k in cd.details {
      SortedList(cd, ks, k);
    }
  }

}
