/**
 * The worked example of the timeline's behaviour: a Bach group of 1685 and a
 * Beethoven group of 1827, filtered by an era name, by a year, and by nothing.
 */
module Scenarios {
  import opened Wrappers
  import opened Seqs
  import opened Text
  import opened Records
  import opened YearSort
  import opened Engine

  const BachBorn := EventRecord("Bach born", "...", None)
  const BeethovenDies := EventRecord("Beethoven dies", "...", None)
  const Bach := YearGroup(1685, [BachBorn])
  const Beethoven := YearGroup(1827, [BeethovenDies])
  const Loaded := [Bach, Beethoven]

  lemma YearStrings()
    ensures DecimalString(1685) == "1685" && DecimalString(1827) == "1827"
  {
    assert Digits(1) == "1" && Digits(16) == "16" && Digits(168) == "168";
    assert Digits(18) == "18" && Digits(182) == "182";
  }

  lemma SortSingle(g: YearGroup, ascending: bool)
    ensures SortByYear([g], ascending) == [g]
  {
    assert [g][..0] == [];
  }

  /** "baroque" shows the 1685 group only. */
  lemma BaroqueQuery(ascending: bool)
    ensures View(Loaded, "baroque", ascending) == [Bach]
  {
    EraNamesLowerCase();
    var era := Eras["baroque"];
    assert Filter([Beethoven], InEraOf(era)) == [];
    assert EraFilter(Loaded, era) == [Bach];
    assert WorkingSet(Loaded, "baroque") == [Bach];
    SortSingle(Bach, ascending);
  }

  lemma ShortNotEraName(q: string)
    requires |q| < 6
    ensures q !in Eras
  {
  }

  lemma QueryLower()
    ensures ToLower("1827") == "1827"
  {
    ToLowerOfLower("1827");
  }

  /** The Bach event mentions neither the year 1827 in its texts nor is it of that year. */
  lemma BachMissesQuery()
    ensures !EventMatches(BachBorn, 1685, "1827")
  {
    YearStrings();
    QueryLower();
    ToLowerKeepsDigit("Bach born", '1');
    MissingFirstChar(ToLower("Bach born"), "1827");
    ToLowerKeepsDigit("...", '1');
    MissingFirstChar(ToLower("..."), "1827");
    ContainsSameLength("1685", "1827");
  }

  lemma BeethovenMatchesQuery()
    ensures EventMatches(BeethovenDies, 1827, "1827")
  {
    YearStrings();
    assert IsPrefix("1827", "1827");
  }

  /** "1827" matches the year of the Beethoven group and nothing in the Bach group. */
  lemma YearQuery(ascending: bool)
    ensures View(Loaded, "1827", ascending) == [Beethoven]
  {
    YearQueryNarrows();
    QueryLower();
    ShortNotEraName("1827");
    assert WorkingSet(Loaded, "1827") == TextFilter(Loaded, "1827");
    SortSingle(Beethoven, ascending);
  }

  lemma NarrowBach()
    ensures Narrowed(Bach, "1827") == YearGroup(1685, [])
  {
    BachMissesQuery();
    assert Filter([BachBorn], MatchesIn(1685, "1827")) == [];
  }

  lemma NarrowBeethoven()
    ensures Narrowed(Beethoven, "1827") == Beethoven
  {
    BeethovenMatchesQuery();
    assert Filter([BeethovenDies], MatchesIn(1827, "1827")) == [BeethovenDies];
  }

  lemma YearQueryNarrows()
    ensures TextFilter(Loaded, "1827") == [Beethoven]
  {
    NarrowBach();
    NarrowBeethoven();
    var n := NarrowAll(Loaded, "1827");
    assert n == [YearGroup(1685, []), Beethoven];
    assert n[1..] == [Beethoven] && n[1..][1..] == [];
    assert Filter(n[1..], HasEvents) == [Beethoven];
  }

  /** An empty query in descending order shows both groups, 1827 first. */
  lemma EmptyQueryDescending()
    ensures View(Loaded, "", false) == [Beethoven, Bach]
  {
    assert Loaded[..1] == [Bach];
    SortSingle(Bach, false);
    assert Insert([Bach], Beethoven, false) == [Beethoven, Bach];
  }
}
