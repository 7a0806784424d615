/** Worked examples of the counting rules on small texts, and of the tie
    rules of the final report. */
module Scenarios {
  import opened Wrappers
  import opened Text
  import opened SearchText
  import opened Matcher
  import opened Insights
  import Analyzer

  // ---------------------------------------------------------------------------
  // Whole-word counting

  const CatText: string := "Cats category cat-nap CAT."
  const CatLower: string := "cats category cat-nap cat."

  /** "cat" is counted in "cat-nap" and in "CAT." but not in "Cats" or
      "category": a hyphen
      and a full stop end a word, a letter does not, and case is ignored. */
  lemma CatScenario()
    ensures Count(Prepare(Plain, CatText), "cat") == 2
    ensures MatchesFrom(Prepare(Plain, CatText), "cat", 0) == [14, 22]
  {
    assert Prepare(Plain, CatText) == CatLower;
    CatStep0();
    CatStep1();
    CatStep2();
    CatStep3();
    CatStep4();
    CatStep5();
    CatStep6();
    CatStep7();
  }

  lemma CatStep0()
    ensures MatchesFrom(CatLower, "cat", 0) == [] + MatchesFrom(CatLower, "cat", 3)
  {
    assert !MatchAt(CatLower, "cat", 0);
    assert !MatchAt(CatLower, "cat", 1);
    assert !MatchAt(CatLower, "cat", 2);
  }
  lemma CatStep1()
    ensures MatchesFrom(CatLower, "cat", 3) == [] + MatchesFrom(CatLower, "cat", 6)
  {
    assert !MatchAt(CatLower, "cat", 3);
    assert !MatchAt(CatLower, "cat", 4);
    assert !MatchAt(CatLower, "cat", 5);
  }
  lemma CatStep2()
    ensures MatchesFrom(CatLower, "cat", 6) == [] + MatchesFrom(CatLower, "cat", 9)
  {
    assert !MatchAt(CatLower, "cat", 6);
    assert !MatchAt(CatLower, "cat", 7);
    assert !MatchAt(CatLower, "cat", 8);
  }
  lemma CatStep3()
    ensures MatchesFrom(CatLower, "cat", 9) == [] + MatchesFrom(CatLower, "cat", 12)
  {
    assert !MatchAt(CatLower, "cat", 9);
    assert !MatchAt(CatLower, "cat", 10);
    assert !MatchAt(CatLower, "cat", 11);
  }
  lemma CatStep4()
    ensures MatchesFrom(CatLower, "cat", 12) == [14] + MatchesFrom(CatLower, "cat", 17)
  {
    assert !MatchAt(CatLower, "cat", 12);
    assert !MatchAt(CatLower, "cat", 13);
    assert MatchAt(CatLower, "cat", 14);
  }
  lemma CatStep5()
    ensures MatchesFrom(CatLower, "cat", 17) == [] + MatchesFrom(CatLower, "cat", 20)
  {
    assert !MatchAt(CatLower, "cat", 17);
    assert !MatchAt(CatLower, "cat", 18);
    assert !MatchAt(CatLower, "cat", 19);
  }
  lemma CatStep6()
    ensures MatchesFrom(CatLower, "cat", 20) == [22] + MatchesFrom(CatLower, "cat", 25)
  {
    assert !MatchAt(CatLower, "cat", 20);
    assert !MatchAt(CatLower, "cat", 21);
    assert MatchAt(CatLower, "cat", 22);
  }
  lemma CatStep7()
    ensures MatchesFrom(CatLower, "cat", 25) == [] + MatchesFrom(CatLower, "cat", 27)
  {
    assert !MatchAt(CatLower, "cat", 25);
    assert !MatchAt(CatLower, "cat", 26);
  }

  /** Only ASCII letters, digits and `_` are word characters for `\b`, so an
      accented letter ends a word: "canci" is counted once inside "canción". */
  const Accented: string := "canci\U{F3}n"

  lemma AccentScenario()
    ensures Count(Prepare(Plain, Accented), "canci") == 1
  {
    assert Prepare(Plain, Accented) == Accented;
    AccentStep0();
    AccentStep1();
  }

  lemma AccentStep0()
    ensures MatchesFrom(Accented, "canci", 0) == [0] + MatchesFrom(Accented, "canci", 7)
  {
    assert MatchAt(Accented, "canci", 0);
    assert !MatchAt(Accented, "canci", 5);
    assert !MatchAt(Accented, "canci", 6);
  }
  lemma AccentStep1()
    ensures MatchesFrom(Accented, "canci", 7) == [] + MatchesFrom(Accented, "canci", 8)
  {
    assert !MatchAt(Accented, "canci", 7);
  }

  /** The variants disagree on keywords with punctuation: the plain variant
      finds "e.g" in "e.g. x", the enriched one, which pads the full stops,
      never finds it. */
  const Abbreviation: string := "e.g. x"

  lemma AbbreviationScenario()
    ensures Count(Prepare(Plain, Abbreviation), "e.g") == 1
    ensures Count(Prepare(Enriched, Abbreviation), "e.g") == 0
  {
    assert Prepare(Plain, Abbreviation) == Abbreviation;
    AbbrevStep0();
    AbbrevStep1();
    Analyzer.PunctuatedKeywordNeverFound(Abbreviation, "e.g", 1);
  }

  lemma AbbrevStep0()
    ensures MatchesFrom(Abbreviation, "e.g", 0) == [0] + MatchesFrom(Abbreviation, "e.g", 5)
  {
    assert MatchAt(Abbreviation, "e.g", 0);
    assert !MatchAt(Abbreviation, "e.g", 3);
    assert !MatchAt(Abbreviation, "e.g", 4);
  }
  lemma AbbrevStep1()
    ensures MatchesFrom(Abbreviation, "e.g", 5) == [] + MatchesFrom(Abbreviation, "e.g", 7)
  {
    assert !MatchAt(Abbreviation, "e.g", 5);
    assert !MatchAt(Abbreviation, "e.g", 6);
  }

  // ---------------------------------------------------------------------------
  // Ties in the final report

  /** Two found keywords with the same total and the same number of categories. */
  const TieTallies: map<string, Tally> := map["a" := Tally(2, 1, {"x"}), "b" := Tally(2, 1, {"y"})]

  /** On a tie the most frequent and the most shared keyword are the later one
      in keyword-list order: the reductions keep their accumulator only when it
      is strictly greater. */
  lemma TieGoesToLast()
    ensures MostFrequent(["a", "b"], TieTallies) == Some(Frequent("b", 2))
    ensures MostShared(["a", "b"], TieTallies, 2) == Some(Shared("b", 1, 2))
  {
    var totals := TotalsOf(["a", "b"], TieTallies);
    assert totals[0] == totals[1];
    var presence := PresenceOf(["a", "b"], TieTallies);
    assert presence[0] == presence[1];
  }

}
