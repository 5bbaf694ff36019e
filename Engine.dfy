/**
 * The filter/sort engine: from the loaded year groups, the query text and the
 * sort direction, the list of year groups the timeline displays.
 */
module Engine {
  import opened Seqs
  import opened Text
  import opened Records
  import opened YearSort

  /**
   * Free-text match of one event of a group of year `year`: the lower-cased
   * title or the lower-cased info contains the lower-cased query, or the year's
   * decimal rendering contains the query as typed.
   */
  predicate EventMatches(e: EventRecord, year: int, query: string)
  {
    Contains(ToLower(e.title), ToLower(query))
    || Contains(ToLower(e.info), ToLower(query))
    || Contains(DecimalString(year), query)
  }

  function MatchesIn(year: int, query: string): EventRecord -> bool
  {
    (e: EventRecord) => EventMatches(e, year, query)
  }

  /** The group with only its matching events kept, in their order. */
  function Narrowed(g: YearGroup, query: string): (r: YearGroup)
    ensures r.year == g.year
    ensures forall e :: e in r.events <==> e in g.events && EventMatches(e, g.year, query)
    ensures forall e :: multiset(r.events)[e]
                        == if EventMatches(e, g.year, query) then multiset(g.events)[e] else 0
  {
    FilterMembers(g.events, MatchesIn(g.year, query));
    FilterMultiset(g.events, MatchesIn(g.year, query));
    g.(events := Filter(g.events, MatchesIn(g.year, query)))
  }

  function InEraOf(era: Era): YearGroup -> bool
  {
    (g: YearGroup) => InEra(g.year, era)
  }

  /** Era mode: the groups whose year lies in `era`, each with all its events. */
  function EraFilter(groups: seq<YearGroup>, era: Era): (r: seq<YearGroup>)
    ensures forall g :: multiset(r)[g] == if InEra(g.year, era) then multiset(groups)[g] else 0
  {
    FilterMultiset(groups, InEraOf(era));
    Filter(groups, InEraOf(era))
  }

  function HasEvents(g: YearGroup): bool
  {
    |g.events| > 0
  }

  /** `events.map(...)`: every group narrowed, in order. */
  function NarrowAll(groups: seq<YearGroup>, query: string): (r: seq<YearGroup>)
    ensures |r| == |groups|
    ensures forall i :: 0 <= i < |groups| ==> r[i] == Narrowed(groups[i], query)
  {
    seq(|groups|, i requires 0 <= i < |groups| => Narrowed(groups[i], query))
  }

  lemma NarrowAllMembers(groups: seq<YearGroup>, query: string)
    ensures forall h :: h in NarrowAll(groups, query) <==> exists g :: g in groups && h == Narrowed(g, query)
  {
    var r := NarrowAll(groups, query);
    forall h | h in r
      ensures exists g :: g in groups && h == Narrowed(g, query)
    {
      var i :| 0 <= i < |r| && r[i] == h;
      assert groups[i] in groups;
    }
    forall h | exists g :: g in groups && h == Narrowed(g, query)
      ensures h in r
    {
      var g :| g in groups && h == Narrowed(g, query);
      var i :| 0 <= i < |groups| && groups[i] == g;
      assert r[i] == h;
    }
  }

  /** Free-text mode: every group narrowed to its matching events; groups left empty dropped. */
  function TextFilter(groups: seq<YearGroup>, query: string): (r: seq<YearGroup>)
    ensures forall h :: h in r <==> HasEvents(h) && exists g :: g in groups && h == Narrowed(g, query)
  {
    FilterMembers(NarrowAll(groups, query), HasEvents);
    NarrowAllMembers(groups, query);
    Filter(NarrowAll(groups, query), HasEvents)
  }

  /**
   * Text filtering keeps each narrowed group as many times as the mapped list
   * holds it, that is once per loaded group it comes from, unless it is empty.
   */
  lemma TextFilterMultiset(groups: seq<YearGroup>, query: string)
    ensures forall h :: multiset(TextFilter(groups, query))[h]
                == if HasEvents(h) then multiset(NarrowAll(groups, query))[h] else 0
  {
    FilterMultiset(NarrowAll(groups, query), HasEvents);
  }

  /** The groups before sorting: all of them, an era's, or the free-text matches. */
  function WorkingSet(groups: seq<YearGroup>, query: string): seq<YearGroup>
  {
    if query == "" then groups
    else if ToLower(query) in Eras then EraFilter(groups, Eras[ToLower(query)])
    else TextFilter(groups, query)
  }

  /** What the timeline displays: the working set, stably sorted by year. */
  function View(groups: seq<YearGroup>, query: string, ascending: bool): seq<YearGroup>
  {
    SortByYear(WorkingSet(groups, query), ascending)
  }

  /** The displayed list is a stable sort of the working set by year. */
  lemma ViewIsStableSort(groups: seq<YearGroup>, query: string, ascending: bool)
    ensures IsStableSortOf(View(groups, query, ascending), WorkingSet(groups, query), ascending)
    ensures multiset(View(groups, query, ascending)) == multiset(WorkingSet(groups, query))
  {
    SortByYearIsStableSort(WorkingSet(groups, query), ascending);
    SortByYearPermutation(WorkingSet(groups, query), ascending);
  }

  /** Years are non-decreasing when ascending and non-increasing otherwise. */
  lemma ViewOrdered(groups: seq<YearGroup>, query: string, ascending: bool)
    ensures var v := View(groups, query, ascending);
      forall i, j :: 0 <= i < j < |v| ==>
        if ascending then v[i].year <= v[j].year else v[i].year >= v[j].year
  {
    SortByYearSorted(WorkingSet(groups, query), ascending);
  }

  /** An empty query shows every loaded group, unchanged, only reordered. */
  lemma ViewEmptyQuery(groups: seq<YearGroup>, ascending: bool)
    ensures multiset(View(groups, "", ascending)) == multiset(groups)
  {
    SortByYearPermutation(groups, ascending);
  }

  /**
   * A query whose lower-cased form is an era name shows exactly the loaded
   * groups whose year lies in that era, each with all its events, however
   * the events' texts relate to the query.
   */
  lemma ViewEraMode(groups: seq<YearGroup>, query: string, ascending: bool)
    requires ToLower(query) in Eras
    ensures var era := Eras[ToLower(query)];
      forall g :: multiset(View(groups, query, ascending))[g]
                  == if InEra(g.year, era) then multiset(groups)[g] else 0
  {
    assert "" !in Eras;
    assert query != "";
    ViewIsStableSort(groups, query, ascending);
  }

  /**
   * Any other non-empty query shows each loaded group narrowed to its
   * matching events, and drops the groups left with none.
   */
  lemma ViewTextMode(groups: seq<YearGroup>, query: string, ascending: bool)
    requires query != "" && ToLower(query) !in Eras
    ensures forall h :: h in View(groups, query, ascending)
                <==> HasEvents(h) && exists g :: g in groups && h == Narrowed(g, query)
    ensures forall h, e :: h in View(groups, query, ascending) && e in h.events
                ==> EventMatches(e, h.year, query)
    ensures forall h :: multiset(View(groups, query, ascending))[h]
                == if HasEvents(h) then multiset(NarrowAll(groups, query))[h] else 0
  {
    var v := View(groups, query, ascending);
    var w := WorkingSet(groups, query);
    assert w == TextFilter(groups, query);
    ViewIsStableSort(groups, query, ascending);
    TextFilterMultiset(groups, query);
    forall h
      ensures h in v <==> h in w
    {
      assert h in v <==> multiset(v)[h] > 0;
    }
  }

  /**
   * Whatever the query, every group shown stands for a loaded group of the
   * same year, and every event shown is one of that group's events.
   */
  lemma ShownFromLoaded(groups: seq<YearGroup>, query: string, ascending: bool)
    ensures forall h :: h in View(groups, query, ascending) ==>
              exists g :: g in groups && g.year == h.year && forall e :: e in h.events ==> e in g.events
  {
    ViewIsStableSort(groups, query, ascending);
    var v := View(groups, query, ascending);
    var w := WorkingSet(groups, query);
    forall h | h in v
      ensures exists g :: g in groups && g.year == h.year && forall e :: e in h.events ==> e in g.events
    {
      assert multiset(v)[h] > 0;
      assert h in w;
      if query == "" || ToLower(query) in Eras {
        assert multiset(groups)[h] > 0;
        assert h in groups;
      } else {
        var g :| g in groups && h == Narrowed(g, query);
        assert g.year == h.year;
      }
    }
  }

  /** A group whose year's decimal form contains the query keeps all its events. */
  lemma YearMatchKeepsAll(g: YearGroup, query: string)
    requires Contains(DecimalString(g.year), query)
    ensures Narrowed(g, query) == g
  {
    FilterAll(g.events, MatchesIn(g.year, query));
  }

  /** Flipping the sort direction changes only the order of what is shown. */
  lemma ViewFlip(groups: seq<YearGroup>, query: string)
    ensures multiset(View(groups, query, true)) == multiset(View(groups, query, false))
  {
    ViewIsStableSort(groups, query, true);
    ViewIsStableSort(groups, query, false);
  }

  lemma ToLowerOfLower(s: string)
    requires forall i :: 0 <= i < |s| ==> !IsUpper(s[i])
    ensures ToLower(s) == s
  {
  }

  /** The era table is keyed by lower-case names. */
  lemma EraNamesLowerCase()
    ensures forall name :: name in Eras ==> ToLower(name) == name
  {
    ToLowerOfLower("baroque");
    ToLowerOfLower("classical");
    ToLowerOfLower("romantic");
    ToLowerOfLower("modern");
  }

  /** Typing an era's own name shows exactly the loaded groups in that era. */
  lemma EraNameView(groups: seq<YearGroup>, name: string, ascending: bool)
    requires name in Eras
    ensures forall g :: g in View(groups, name, ascending) <==> g in groups && InEra(g.year, Eras[name])
  {
    EraNamesLowerCase();
    ViewEraMode(groups, name, ascending);
    forall g
      ensures g in View(groups, name, ascending) <==> g in groups && InEra(g.year, Eras[name])
    {
      assert g in View(groups, name, ascending) <==> multiset(View(groups, name, ascending))[g] > 0;
    }
  }

  /** A loaded group whose year lies in two eras is shown for both era names. */
  lemma InTwoEras(groups: seq<YearGroup>, g: YearGroup, first: string, second: string, ascending: bool)
    requires g in groups && first in Eras && second in Eras
    requires InEra(g.year, Eras[first]) && InEra(g.year, Eras[second])
    ensures g in View(groups, first, ascending) && g in View(groups, second, ascending)
  {
    EraNameView(groups, first, ascending);
    EraNameView(groups, second, ascending);
  }

  /**
   * The era ranges share their endpoints: a group of 1750, 1820 or 1900 is
   * shown for both eras that meet at that year.
   */
  lemma SharedEndpoints(groups: seq<YearGroup>, g: YearGroup, ascending: bool)
    requires g in groups
    ensures g.year == 1750 ==> g in View(groups, "baroque", ascending) && g in View(groups, "classical", ascending)
    ensures g.year == 1820 ==> g in View(groups, "classical", ascending) && g in View(groups, "romantic", ascending)
    ensures g.year == 1900 ==> g in View(groups, "romantic", ascending) && g in View(groups, "modern", ascending)
  {
    if g.year == 1750 {
      InTwoEras(groups, g, "baroque", "classical", ascending);
    } else if g.year == 1820 {
      InTwoEras(groups, g, "classical", "romantic", ascending);
    } else if g.year == 1900 {
      InTwoEras(groups, g, "romantic", "modern", ascending);
    }
  }

  /** Era mode depends on the query only through its lower-cased form. */
  lemma EraModeIgnoresCase(groups: seq<YearGroup>, q1: string, q2: string, ascending: bool)
    requires ToLower(q1) == ToLower(q2) && ToLower(q1) in Eras
    ensures View(groups, q1, ascending) == View(groups, q2, ascending)
  {
    assert "" !in Eras;
    assert q1 != "" && q2 != "";
  }
}
