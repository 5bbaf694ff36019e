/**
 * The data the timeline works on: year groups of events, loaded once from the
 * static data file, and the fixed table of named musical eras.
 */
module Records {
  import opened Wrappers

  /** One entry of a year: a title, a text shown when expanded, and an optional picture path. */
  datatype EventRecord = EventRecord(title: string, info: string, image: Option<string>)

  /** All entries of one year, in file order. */
  datatype YearGroup = YearGroup(year: int, events: seq<EventRecord>)

  /** An inclusive range of years. */
  datatype Era = Era(start: int, end: int)

  /** The four named eras, keyed by their lower-case names; neighbours share an endpoint. */
  const Eras: map<string, Era> := map[
    "baroque" := Era(1600, 1750),
    "classical" := Era(1750, 1820),
    "romantic" := Era(1820, 1900),
    "modern" := Era(1900, 3000)
  ]

  predicate InEra(year: int, era: Era)
  {
    era.start <= year <= era.end
  }

  /** The names of the eras whose range holds `year`. */
  function ErasHolding(year: int): set<string>
  {
    set name | name in Eras && InEra(year, Eras[name])
  }

  /**
   * Both ends of each range are inside it, so the three boundary years belong
   * to two eras, every other year from 1600 to 3000 to exactly one, and no year
   * outside that span to any.
   */
  lemma EraBoundaries(year: int)
    ensures year in {1750, 1820, 1900} ==> |ErasHolding(year)| == 2
    ensures 1600 <= year <= 3000 && year !in {1750, 1820, 1900} ==> |ErasHolding(year)| == 1
    ensures (year < 1600 || year > 3000) ==> ErasHolding(year) == {}
  {
    if year == 1750 {
      assert ErasHolding(year) == {"baroque", "classical"};
    } else if year == 1820 {
      assert ErasHolding(year) == {"classical", "romantic"};
    } else if year == 1900 {
      assert ErasHolding(year) == {"romantic", "modern"};
    } else if 1600 <= year < 1750 {
      assert ErasHolding(year) == {"baroque"};
    } else if 1750 < year < 1820 {
      assert ErasHolding(year) == {"classical"};
    } else if 1820 < year < 1900 {
      assert ErasHolding(year) == {"romantic"};
    } else if 1900 < year <= 3000 {
      assert ErasHolding(year) == {"modern"};
    } else {
      assert ErasHolding(year) == {};
    }
  }
}
