/** The final summary (`generateFinalSummary`): per-keyword totals over all
    categories and the number of categories each keyword appears in; a "no
    matches" result when nothing was found; otherwise the most frequent and the
    most shared keyword, and for each category the keyword it holds the largest
    share of, reported when that share is above one half.

    The two `reduce` calls keep the accumulator only when it is strictly
    greater, so the LAST of several tied keywords wins; the distinctive scan
    replaces its candidate only on a strictly greater ratio, so the FIRST of
    several tied keywords wins. */
module Insights {
  import opened Wrappers
  import opened Text
  import opened Aggregate

  // ---------------------------------------------------------------------------
  // Totals and presence, as the nested loops compute them

  /** `totalCounts[k]`, and `categoryPresence[k]` as its counter and its set. */
  datatype Tally = Tally(total: nat, count: nat, seen: set<string>)

  const ZeroTally := Tally(0, 0, {})

  /** The tallies before the loops: every keyword of the list at zero. */
  function InitTallies(ks: seq<string>): (m: map<string, Tally>)
    ensures forall k :: k in m <==> k in ks
    ensures forall k :: k in m ==> m[k] == ZeroTally
  {
    map k | k in ks :: ZeroTally
  }

  /** The body of the inner loop for keyword `k` with count `n` in category `c`:
      a positive count is added to the total, and the category is counted once
      for the keyword, the first time it is met. */
  function Tick(m: map<string, Tally>, c: string, n: nat, k: string): (r: map<string, Tally>)
    requires k in m
    ensures r.Keys == m.Keys
  {
    if n > 0 then
      var t := m[k];
      m[k := Tally(t.total + n, if c in t.seen then t.count else t.count + 1, t.seen + {c})]
    else m
  }

  /** `for (const keyword of keywordList)` inside one category. */
  function TallyCategory(m: map<string, Tally>, c: string, cd: CategoryData, ks: seq<string>): (r: map<string, Tally>)
    requires forall k :: k in ks ==> k in m
    ensures r.Keys == m.Keys
    decreases |ks|
  {
    if ks == [] then m
    else TallyCategory(Tick(m, c, SummaryOf(cd, ks[0]), ks[0]), c, cd, ks[1..])
  }

  /** `for (const category in analysisData)` over the categories `cats`. */
  function TallyAll(a: Analysis, cats: seq<string>, ks: seq<string>): (r: map<string, Tally>)
    ensures forall k :: k in r <==> k in ks
    decreases |cats|
  {
    if cats == [] then InitTallies(ks)
    else
      var c := cats[|cats| - 1];
      TallyCategory(TallyAll(a, cats[..|cats| - 1], ks), c, Cat(a, c), ks)
  }

  function Tallies(a: Analysis, ks: seq<string>): (r: map<string, Tally>)
    ensures forall k :: k in r <==> k in ks
  {
    TallyAll(a, a.categories, ks)
  }

  // ---------------------------------------------------------------------------
  // Reference definitions: column sums and the set of categories a keyword is in

  /** The sum of keyword `k`'s summary entries over the categories `cats`. */
  function ColumnSum(a: Analysis, cats: seq<string>, k: string): nat
    decreases |cats|
  {
    if cats == [] then 0
    else ColumnSum(a, cats[..|cats| - 1], k) + SummaryOf(Cat(a, cats[|cats| - 1]), k)
  }

  /** The categories among `cats` whose summary has a positive count for `k`. */
  function PresentIn(a: Analysis, cats: seq<string>, k: string): (r: set<string>)
    ensures forall c :: c in r <==> c in cats && SummaryOf(Cat(a, c), k) > 0
    decreases |cats|
  {
    if cats == [] then {}
    else
      var c := cats[|cats| - 1];
      PresentIn(a, cats[..|cats| - 1], k) + (if SummaryOf(Cat(a, c), k) > 0 then {c} else {})
  }

  /** Each presence counter equals the size of its set. */
  predicate CountsSeen(m: map<string, Tally>) {
    forall k :: k in m ==> m[k].count == |m[k].seen|
  }

  lemma TickEffect(m: map<string, Tally>, c: string, n: nat, k: string, x: string)
    requires k in m && x in m && CountsSeen(m)
    ensures CountsSeen(Tick(m, c, n, k))
    ensures x != k ==> Tick(m, c, n, k)[x] == m[x]
    ensures x == k ==> Tick(m, c, n, k)[x].total == m[x].total + n
    ensures x == k ==> Tick(m, c, n, k)[x].seen == m[x].seen + (if n > 0 then {c} else {})
  {
    if n > 0 {
      var t := m[k];
      var u := Tally(t.total + n, if c in t.seen then t.count else t.count + 1, t.seen + {c});
      assert Tick(m, c, n, k) == m[k := u];
      if c in t.seen {
        assert t.seen + {c} == t.seen;
      } else {
        assert |t.seen + {c}| == |t.seen| + 1;
      }
      assert u.count == |u.seen|;
    }
  }

  lemma {:induction false} TallyCategoryEffect(m: map<string, Tally>, c: string, cd: CategoryData, ks: seq<string>, x: string)
    requires forall k :: k in ks ==> k in m
    requires Distinct(ks) && x in m && CountsSeen(m)
    ensures CountsSeen(TallyCategory(m, c, cd, ks))
    ensures x !in ks ==> TallyCategory(m, c, cd, ks)[x] == m[x]
    ensures x in ks ==> TallyCategory(m, c, cd, ks)[x].total == m[x].total + SummaryOf(cd, x)
    ensures x in ks ==> TallyCategory(m, c, cd, ks)[x].seen == m[x].seen + (if SummaryOf(cd, x) > 0 then {c} else {})
    decreases |ks|
  {
    if ks != [] {
      var m' := Tick(m, c, SummaryOf(cd, ks[0]), ks[0]);
      TickEffect(m, c, SummaryOf(cd, ks[0]), ks[0], x);
      assert Distinct(ks[1..]);
      assert x == ks[0] ==> x !in ks[1..];
      assert x in ks ==> x == ks[0] || x in ks[1..];
      TallyCategoryEffect(m', c, cd, ks[1..], x);
    }
  }

  /** For a duplicate-free keyword list the loops compute exactly the column sum
      of each keyword and the set of categories it is present in, and the
      presence counter is the size of that set. */
  lemma {:induction false} TallyAllIsReference(a: Analysis, cats: seq<string>, ks: seq<string>, k: string)
    requires Distinct(ks) && k in ks
    ensures CountsSeen(TallyAll(a, cats, ks))
    ensures TallyAll(a, cats, ks)[k].total == ColumnSum(a, cats, k)
    ensures TallyAll(a, cats, ks)[k].seen == PresentIn(a, cats, k)
    ensures TallyAll(a, cats, ks)[k].count == |PresentIn(a, cats, k)|
    decreases |cats|
  {
    if cats != [] {
      var c := cats[|cats| - 1];
      var prev := TallyAll(a, cats[..|cats| - 1], ks);
      TallyAllIsReference(a, cats[..|cats| - 1], ks, k);
      TallyCategoryEffect(prev, c, Cat(a, c), ks, k);
    }
  }

  // ---------------------------------------------------------------------------
  // Grand total and found keywords

  function TotalOf(m: map<string, Tally>, k: string): nat {
    if k in m then m[k].total else 0
  }

  /** `Object.values(totalCounts).reduce((sum, count) => sum + count, 0)`. */
  function GrandTotal(keys: seq<string>, m: map<string, Tally>): nat
    decreases |keys|
  {
    if keys == [] then 0 else GrandTotal(keys[..|keys| - 1], m) + TotalOf(m, keys[|keys| - 1])
  }

  /** `.filter(k => totalCounts[k] > 0)`. */
  function Found(keys: seq<string>, m: map<string, Tally>): (r: seq<string>)
    ensures forall k :: k in r <==> k in keys && TotalOf(m, k) > 0
    ensures |r| <= |keys|
    decreases |keys|
  {
    if keys == [] then []
    else
      var k := keys[|keys| - 1];
      Found(keys[..|keys| - 1], m) + (if TotalOf(m, k) > 0 then [k] else [])
  }

  /** `k => totalCounts[k] > 0`, as a test. */
  function HasTotal(m: map<string, Tally>): string -> bool {
    k => TotalOf(m, k) > 0
  }

  /** The found keywords are the keys filtered by their total: the keys with a
      positive total, in key order. */
  lemma {:induction false} FoundIsFilter(keys: seq<string>, m: map<string, Tally>)
    ensures Found(keys, m) == Filter(keys, HasTotal(m))
    decreases |keys|
  {
    if keys != [] {
      var init := keys[..|keys| - 1];
      var k := keys[|keys| - 1];
      FoundIsFilter(init, m);
      assert keys == init + [k];
      FilterSnoc(init, k, HasTotal(m));
    }
  }

  /** The grand total is positive exactly when some keyword was found. */
  lemma {:induction false} GrandTotalPositive(keys: seq<string>, m: map<string, Tally>)
    ensures GrandTotal(keys, m) > 0 <==> |Found(keys, m)| > 0
    decreases |keys|
  {
    if keys != [] {
      GrandTotalPositive(keys[..|keys| - 1], m);
    }
  }

  // ---------------------------------------------------------------------------
  // `reduce((a, b) => score(a) > score(b) ? a : b)`

  /** The index `reduce` ends on: the accumulator survives only a strictly
      smaller score, so this is the last index with the maximal score. */
  function LastMax(scores: seq<nat>): (i: nat)
    requires |scores| > 0
    ensures i < |scores|
    ensures forall j :: 0 <= j < |scores| ==> scores[j] <= scores[i]
    ensures forall j :: i < j < |scores| ==> scores[j] < scores[i]
    decreases |scores|
  {
    if |scores| == 1 then 0
    else
      var acc := LastMax(scores[..|scores| - 1]);
      if scores[acc] > scores[|scores| - 1] then acc else |scores| - 1
  }

  // ---------------------------------------------------------------------------
  // The distinctive scan: `maxRatio = -1`, replaced on a strictly greater ratio

  /** The scan's state: the index of the candidate (or -1) and `maxRatio`. */
  datatype Best = Best(at: int, ratio: real)

  /** The scan over `ratios`, considering index `j` only when `live[j]` (the
      keyword's total is positive). */
  function ScanMax(ratios: seq<real>, live: seq<bool>): (b: Best)
    requires |live| == |ratios|
    requires forall j :: 0 <= j < |ratios| ==> ratios[j] >= 0.0
    ensures b.at == -1 <==> forall j :: 0 <= j < |live| ==> !live[j]
    ensures b.at == -1 ==> b.ratio == -1.0
    ensures b.at != -1 ==> 0 <= b.at < |ratios| && live[b.at] && b.ratio == ratios[b.at]
    ensures b.at != -1 ==> forall j :: 0 <= j < |ratios| && live[j] ==> ratios[j] <= b.ratio
    ensures b.at != -1 ==> forall j :: 0 <= j < b.at && live[j] ==> ratios[j] < b.ratio
    decreases |ratios|
  {
    if ratios == [] then Best(-1, -1.0)
    else
      var n := |ratios| - 1;
      var prev := ScanMax(ratios[..n], live[..n]);
      if live[n] && ratios[n] > prev.ratio then Best(n, ratios[n]) else prev
  }

  /** `countInCategory / totalCountForKeyword`. */
  function Ratio(count: nat, total: nat): real
    requires total > 0
  {
    (count as real) / (total as real)
  }

  /** A ratio is above one half exactly when twice the count exceeds the total. */
  lemma RatioAboveHalf(count: nat, total: nat)
    requires total > 0
    ensures Ratio(count, total) > 0.5 <==> 2 * count > total
  {
    assert Ratio(1, 2) == 0.5;
    RatioLe(count, total, 1, 2);
  }

  /** Ratios compare as their cross products. */
  lemma RatioLe(c1: nat, t1: nat, c2: nat, t2: nat)
    requires t1 > 0 && t2 > 0
    ensures Ratio(c1, t1) <= Ratio(c2, t2) <==> c1 * t2 <= c2 * t1
  {
    var r1 := Ratio(c1, t1);
    var r2 := Ratio(c2, t2);
    var d := (t1 as real) * (t2 as real);
    assert r1 * (t1 as real) == c1 as real;
    assert r2 * (t2 as real) == c2 as real;
    assert r1 * d == (c1 * t2) as real;
    assert r2 * d == (c2 * t1) as real;
  }

  function RatiosOf(cd: CategoryData, found: seq<string>, m: map<string, Tally>): (rs: seq<real>)
    ensures |rs| == |found|
    ensures forall j :: 0 <= j < |found| && TotalOf(m, found[j]) > 0 ==> rs[j] == Ratio(SummaryOf(cd, found[j]), TotalOf(m, found[j]))
    ensures forall j :: 0 <= j < |rs| ==> rs[j] >= 0.0
  {
    seq(|found|, j requires 0 <= j < |found| =>
      if TotalOf(m, found[j]) > 0 then Ratio(SummaryOf(cd, found[j]), TotalOf(m, found[j])) else 0.0)
  }

  function LiveOf(found: seq<string>, m: map<string, Tally>): (live: seq<bool>)
    ensures |live| == |found|
    ensures forall j :: 0 <= j < |found| ==> (live[j] <==> TotalOf(m, found[j]) > 0)
  {
    seq(|found|, j requires 0 <= j < |found| => TotalOf(m, found[j]) > 0)
  }

  function DistinctiveScan(cd: CategoryData, found: seq<string>, m: map<string, Tally>): Best {
    ScanMax(RatiosOf(cd, found, m), LiveOf(found, m))
  }

  /** The keyword reported for a category: the scan's candidate, when there is
      one, its ratio is above one half and its count in the category is positive. */
  function Distinctive(cd: CategoryData, found: seq<string>, m: map<string, Tally>): Option<string> {
    var b := DistinctiveScan(cd, found, m);
    var word := if b.at >= 0 then found[b.at] else "";
    if word != "" && b.ratio > 0.5 && SummaryOf(cd, word) > 0 then Some(word) else None
  }

  /** What the scan finds, without ratios: a keyword is reported exactly when it
      is the first one whose share `count / total` is maximal, it is non-empty,
      and twice its count in the category exceeds its total. */
  lemma DistinctiveSpec(cd: CategoryData, found: seq<string>, m: map<string, Tally>)
    ensures var b := DistinctiveScan(cd, found, m);
      Distinctive(cd, found, m).Some? <==>
        (b.at >= 0 && found[b.at] != "" && 2 * SummaryOf(cd, found[b.at]) > TotalOf(m, found[b.at]))
    ensures var b := DistinctiveScan(cd, found, m);
      Distinctive(cd, found, m).Some? ==> Distinctive(cd, found, m).value == found[b.at]
    ensures var b := DistinctiveScan(cd, found, m);
      b.at >= 0 ==> FirstMaxShare(cd, found, m, b.at)
  {
    var b := DistinctiveScan(cd, found, m);
    if b.at >= 0 {
      var w := found[b.at];
      RatioAboveHalf(SummaryOf(cd, w), TotalOf(m, w));
      assert 2 * SummaryOf(cd, w) > TotalOf(m, w) ==> SummaryOf(cd, w) > 0;
      forall j | 0 <= j < |found| && TotalOf(m, found[j]) > 0
        ensures SummaryOf(cd, found[j]) * TotalOf(m, w) <= SummaryOf(cd, w) * TotalOf(m, found[j])
        ensures j < b.at ==> SummaryOf(cd, found[j]) * TotalOf(m, w) < SummaryOf(cd, w) * TotalOf(m, found[j])
      {
        RatioLe(SummaryOf(cd, found[j]), TotalOf(m, found[j]), SummaryOf(cd, w), TotalOf(m, w));
        RatioLe(SummaryOf(cd, w), TotalOf(m, w), SummaryOf(cd, found[j]), TotalOf(m, found[j]));
      }
    }
  }

  /** Index `i` holds the first maximal share among the keywords with a positive
      total, stated by cross-multiplication. */
  predicate FirstMaxShare(cd: CategoryData, found: seq<string>, m: map<string, Tally>, i: int) {
    && 0 <= i < |found| && TotalOf(m, found[i]) > 0
    && (forall j :: 0 <= j < |found| && TotalOf(m, found[j]) > 0 ==>
          SummaryOf(cd, found[j]) * TotalOf(m, found[i]) <= SummaryOf(cd, found[i]) * TotalOf(m, found[j]))
    && (forall j :: 0 <= j < i && TotalOf(m, found[j]) > 0 ==>
          SummaryOf(cd, found[j]) * TotalOf(m, found[i]) < SummaryOf(cd, found[i]) * TotalOf(m, found[j]))
  }

  // ---------------------------------------------------------------------------
  // The summary

  datatype Frequent = Frequent(word: string, total: nat)
  datatype Shared = Shared(word: string, categories: nat, of: nat)
  datatype Insight = Insight(category: string, word: string, ratio: real)

  /** What the summary panel shows. An empty `distinctive` list is the
      "no sufficiently distinctive words" line. */
  datatype Report =
    | NoMatches
    | Report(mostFrequent: Option<Frequent>, mostShared: Option<Shared>, distinctive: seq<Insight>)

  function TotalsOf(found: seq<string>, m: map<string, Tally>): (s: seq<nat>)
    ensures |s| == |found|
    ensures forall j :: 0 <= j < |found| ==> s[j] == TotalOf(m, found[j])
  {
    seq(|found|, j requires 0 <= j < |found| => TotalOf(m, found[j]))
  }

  function PresenceOf(found: seq<string>, m: map<string, Tally>): (s: seq<nat>)
    ensures |s| == |found|
    ensures forall j :: 0 <= j < |found| ==> s[j] == (if found[j] in m then m[found[j]].count else 0)
  {
    seq(|found|, j requires 0 <= j < |found| => if found[j] in m then m[found[j]].count else 0)
  }

  function MostFrequent(found: seq<string>, m: map<string, Tally>): Option<Frequent> {
    if |found| == 0 then None
    else
      var w := found[LastMax(TotalsOf(found, m))];
      Some(Frequent(w, TotalOf(m, w)))
  }

  function MostShared(found: seq<string>, m: map<string, Tally>, numCategories: nat): Option<Shared> {
    if |found| == 0 then None
    else
      var i := LastMax(PresenceOf(found, m));
      Some(Shared(found[i], PresenceOf(found, m)[i], numCategories))
  }

  /** The distinctive line of each category in `cats`, in category order. */
  function DistinctiveLines(a: Analysis, cats: seq<string>, found: seq<string>, m: map<string, Tally>): (r: seq<Insight>)
    ensures |r| <= |cats|
    decreases |cats|
  {
    if cats == [] then []
    else
      var c := cats[|cats| - 1];
      var prev := DistinctiveLines(a, cats[..|cats| - 1], found, m);
      match Distinctive(Cat(a, c), found, m)
      case None => prev
      case Some(w) => prev + [Insight(c, w, DistinctiveScan(Cat(a, c), found, m).ratio)]
  }

  /** `generateFinalSummary`. */
  function FinalSummary(a: Analysis, ks: seq<string>): Report {
    var m := Tallies(a, ks);
    var keys := Dedup(ks);
    if GrandTotal(keys, m) == 0 then NoMatches
    else
      var found := Found(keys, m);
      Report(MostFrequent(found, m), MostShared(found, m, |a.categories|),
             DistinctiveLines(a, a.categories, found, m))
  }

  // ---------------------------------------------------------------------------
  // Properties of the summary

  /** A keyword column is all zero exactly when its sum is zero. */
  lemma {:induction false} ColumnSumZero(a: Analysis, cats: seq<string>, k: string)
    ensures ColumnSum(a, cats, k) == 0 <==> forall i :: 0 <= i < |cats| ==> SummaryOf(Cat(a, cats[i]), k) == 0
    decreases |cats|
  {
    if cats != [] {
      var init := cats[..|cats| - 1];
      ColumnSumZero(a, init, k);
      assert forall i :: 0 <= i < |init| ==> init[i] == cats[i];
    }
  }

  /** For a duplicate-free keyword list, the summary is "no matches" exactly
      when every category's summary count of every keyword is zero. */
  lemma NoMatchesIff(a: Analysis, ks: seq<string>)
    requires Distinct(ks)
    ensures FinalSummary(a, ks) == NoMatches <==>
      forall c, k :: c in a.categories && k in ks ==> SummaryOf(Cat(a, c), k) == 0
  {
    var m := Tallies(a, ks);
    DedupOfDistinct(ks);
    GrandTotalPositive(ks, m);
    if FinalSummary(a, ks) == NoMatches {
      forall c, k | c in a.categories && k in ks
        ensures SummaryOf(Cat(a, c), k) == 0
      {
        TallyAllIsReference(a, a.categories, ks, k);
        ColumnSumZero(a, a.categories, k);
        assert k !in Found(ks, m);
      }
    } else {
      var k := Found(ks, m)[0];
      TallyAllIsReference(a, a.categories, ks, k);
      ColumnSumZero(a, a.categories, k);
    }
  }

  /** The most frequent keyword has the largest total among the found
      keywords, and every found keyword after it has a smaller total. */
  lemma MostFrequentSpec(found: seq<string>, m: map<string, Tally>)
    requires |found| > 0
    ensures MostFrequent(found, m).Some?
    ensures exists i :: (0 <= i < |found| && MostFrequent(found, m).value.word == found[i]
      && MostFrequent(found, m).value.total == TotalOf(m, found[i])
      && (forall j :: 0 <= j < |found| ==> TotalOf(m, found[j]) <= TotalOf(m, found[i]))
      && (forall j :: i < j < |found| ==> TotalOf(m, found[j]) < TotalOf(m, found[i])))
  {
    var i := LastMax(TotalsOf(found, m));
    assert MostFrequent(found, m).value.word == found[i];
  }

  /** The most shared keyword is present in the most categories among the found
      keywords, and every found keyword after it is present in fewer. */
  lemma MostSharedSpec(found: seq<string>, m: map<string, Tally>, numCategories: nat)
    requires |found| > 0 && forall j :: 0 <= j < |found| ==> found[j] in m
    ensures MostShared(found, m, numCategories).Some?
    ensures MostShared(found, m, numCategories).value.of == numCategories
    ensures exists i :: (0 <= i < |found| && MostShared(found, m, numCategories).value.word == found[i]
      && MostShared(found, m, numCategories).value.categories == m[found[i]].count
      && (forall j :: 0 <= j < |found| ==> m[found[j]].count <= m[found[i]].count)
      && (forall j :: i < j < |found| ==> m[found[j]].count < m[found[i]].count))
  {
    var i := LastMax(PresenceOf(found, m));
    assert MostShared(found, m, numCategories).value.word == found[i];
  }

  /** Whenever the summary is not "no matches", both the most frequent and the
      most shared keyword are reported, chosen among the found keywords as above. */
  lemma ReportShape(a: Analysis, ks: seq<string>)
    requires FinalSummary(a, ks).Report?
    ensures var m := Tallies(a, ks); var found := Found(Dedup(ks), m);
      && |found| > 0
      && (forall j :: 0 <= j < |found| ==> found[j] in m && TotalOf(m, found[j]) > 0)
      && FinalSummary(a, ks).mostFrequent == MostFrequent(found, m)
      && FinalSummary(a, ks).mostShared == MostShared(found, m, |a.categories|)
  {
    var m := Tallies(a, ks);
    GrandTotalPositive(Dedup(ks), m);
  }

  /** The presence count a reported most-shared keyword carries is the number of
      categories whose summary has a positive count for it (duplicate-free list). */
  lemma SharedCountsCategories(a: Analysis, ks: seq<string>)
    requires Distinct(ks) && FinalSummary(a, ks).Report?
    ensures var sh := FinalSummary(a, ks).mostShared;
      sh.Some? ==> sh.value.categories == |PresentIn(a, a.categories, sh.value.word)|
  {
    var m := Tallies(a, ks);
    var found := Found(Dedup(ks), m);
    var sh := FinalSummary(a, ks).mostShared;
    if sh.Some? {
      var i := LastMax(PresenceOf(found, m));
      assert found[i] in Dedup(ks);
      TallyAllIsReference(a, a.categories, ks, found[i]);
    }
  }

}
