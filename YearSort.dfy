/**
 * Sorting year groups by year, as `Array.prototype.sort` does with the
 * comparators `(a, b) => a.year - b.year` (ascending) and
 * `(a, b) => b.year - a.year` (descending). The JavaScript sort is stable
 * (ECMAScript 2019, section 22.1.3.27), so groups with the same year keep
 * their relative order.
 */
module YearSort {
  import opened Records
  import opened Seqs

  /** The sort key: a descending sort by year is an ascending sort by the negated year. */
  function Key(g: YearGroup, ascending: bool): int
  {
    if ascending then g.year else -g.year
  }

  /** Years are non-decreasing (ascending) or non-increasing (descending). */
  predicate SortedBy(s: seq<YearGroup>, ascending: bool)
  {
    forall i, j :: 0 <= i < j < |s| ==> Key(s[i], ascending) <= Key(s[j], ascending)
  }

  function HasYear(year: int): YearGroup -> bool
  {
    (g: YearGroup) => g.year == year
  }

  /** The groups of `s` whose year is `year`, in their order in `s`. */
  function WithYear(s: seq<YearGroup>, year: int): seq<YearGroup>
  {
    Filter(s, HasYear(year))
  }

  /**
   * `r` is what a stable sort of `s` yields: ordered by the key, and for every
   * year the groups of that year appear in the same order as in `s`.
   */
  ghost predicate IsStableSortOf(r: seq<YearGroup>, s: seq<YearGroup>, ascending: bool)
  {
    SortedBy(r, ascending) && forall year :: WithYear(r, year) == WithYear(s, year)
  }

  /** Places `x` into sorted `s` after every group whose key is not greater than its own. */
  function Insert(s: seq<YearGroup>, x: YearGroup, ascending: bool): seq<YearGroup>
  {
    if s == [] then [x]
    else if Key(x, ascending) < Key(s[0], ascending) then [x] + s
    else [s[0]] + Insert(s[1..], x, ascending)
  }

  /** The stable sort of `s`: inserts each group, left to right, into the sorted prefix. */
  function SortByYear(s: seq<YearGroup>, ascending: bool): seq<YearGroup>
  {
    if s == [] then []
    else Insert(SortByYear(s[..|s| - 1], ascending), s[|s| - 1], ascending)
  }

  /** Inserting adds exactly one copy of `x`. */
  lemma {:induction false} InsertMultiset(s: seq<YearGroup>, x: YearGroup, ascending: bool)
    ensures multiset(Insert(s, x, ascending)) == multiset(s) + multiset{x}
  {
    if s != [] && Key(x, ascending) >= Key(s[0], ascending) {
      InsertMultiset(s[1..], x, ascending);
      assert s == [s[0]] + s[1..];
    }
  }

  /** `SortByYear` returns a permutation of its input. */
  lemma {:induction false} SortByYearPermutation(s: seq<YearGroup>, ascending: bool)
    ensures multiset(SortByYear(s, ascending)) == multiset(s)
  {
    if s != [] {
      SortByYearPermutation(s[..|s| - 1], ascending);
      InsertMultiset(SortByYear(s[..|s| - 1], ascending), s[|s| - 1], ascending);
      assert s == s[..|s| - 1] + [s[|s| - 1]];
    }
  }

  lemma {:induction false} InsertSorted(s: seq<YearGroup>, x: YearGroup, ascending: bool)
    requires SortedBy(s, ascending)
    ensures SortedBy(Insert(s, x, ascending), ascending)
  {
    if s != [] && Key(x, ascending) >= Key(s[0], ascending) {
      InsertSorted(s[1..], x, ascending);
      InsertMultiset(s[1..], x, ascending);
      var t := Insert(s[1..], x, ascending);
      forall k | 0 <= k < |t|
        ensures Key(s[0], ascending) <= Key(t[k], ascending)
      {
        assert t[k] in multiset(t);
        assert t[k] == x || t[k] in s[1..];
      }
    }
  }

  /** The result of `SortByYear` is ordered by the key. */
  lemma {:induction false} SortByYearSorted(s: seq<YearGroup>, ascending: bool)
    ensures SortedBy(SortByYear(s, ascending), ascending)
  {
    if s != [] {
      SortByYearSorted(s[..|s| - 1], ascending);
      InsertSorted(SortByYear(s[..|s| - 1], ascending), s[|s| - 1], ascending);
    }
  }

  lemma SortedTail(s: seq<YearGroup>, ascending: bool)
    requires s != [] && SortedBy(s, ascending)
    ensures SortedBy(s[1..], ascending)
  {
  }

  /** No group of a sorted sequence that starts above `x`'s key has `x`'s year. */
  lemma {:induction false} NoneWithYearAbove(s: seq<YearGroup>, x: YearGroup, ascending: bool)
    requires SortedBy(s, ascending)
    requires s != [] && Key(x, ascending) < Key(s[0], ascending)
    ensures WithYear(s, x.year) == []
  {
    if |s| > 1 {
      NoneWithYearAbove(s[1..], x, ascending);
    }
  }

  /** Inserting `x` appends it to the groups of its own year and leaves the other years alone. */
  lemma {:induction false} InsertStable(s: seq<YearGroup>, x: YearGroup, ascending: bool, year: int)
    requires SortedBy(s, ascending)
    ensures WithYear(Insert(s, x, ascending), year)
         == WithYear(s, year) + (if x.year == year then [x] else [])
  {
    if s == [] {
      assert Insert(s, x, ascending) == [x];
      WithYearCons([x], year);
    } else if Key(x, ascending) < Key(s[0], ascending) {
      var r := [x] + s;
      assert Insert(s, x, ascending) == r && r[0] == x && r[1..] == s;
      WithYearCons(r, year);
      if x.year == year {
        NoneWithYearAbove(s, x, ascending);
      }
    } else {
      var t := Insert(s[1..], x, ascending);
      var r := [s[0]] + t;
      assert Insert(s, x, ascending) == r && r[0] == s[0] && r[1..] == t;
      SortedTail(s, ascending);
      InsertStable(s[1..], x, ascending, year);
      WithYearCons(r, year);
      WithYearCons(s, year);
    }
  }

  /** `SortByYear` keeps the order of the groups of each year. */
  lemma {:induction false} SortByYearStable(s: seq<YearGroup>, ascending: bool, year: int)
    ensures WithYear(SortByYear(s, ascending), year) == WithYear(s, year)
  {
    if s != [] {
      var init, last := s[..|s| - 1], s[|s| - 1];
      assert s == init + [last];
      var tail := if last.year == year then [last] else [];
      SortByYearStable(init, ascending, year);
      SortByYearSorted(init, ascending);
      InsertStable(SortByYear(init, ascending), last, ascending, year);
      assert SortByYear(s, ascending) == Insert(SortByYear(init, ascending), last, ascending);
      assert WithYear(SortByYear(s, ascending), year) == WithYear(init, year) + tail;
      FilterConcat(init, [last], HasYear(year));
      assert WithYear([last], year) == tail;
    }
  }

  /** `SortByYear` is a stable sort. */
  lemma SortByYearIsStableSort(s: seq<YearGroup>, ascending: bool)
    ensures IsStableSortOf(SortByYear(s, ascending), s, ascending)
  {
    SortByYearSorted(s, ascending);
    forall year
      ensures WithYear(SortByYear(s, ascending), year) == WithYear(s, year)
    {
      SortByYearStable(s, ascending, year);
    }
  }

  /** Every copy of `g` in `s` sits among the groups of `g`'s year. */
  lemma MultisetWithYear(s: seq<YearGroup>, g: YearGroup)
    ensures multiset(s)[g] == multiset(WithYear(s, g.year))[g]
  {
    FilterMultiset(s, HasYear(g.year));
  }

  /** Sequences that agree on every year's groups hold the same groups. */
  lemma SameGroups(a: seq<YearGroup>, b: seq<YearGroup>)
    requires forall year :: WithYear(a, year) == WithYear(b, year)
    ensures multiset(a) == multiset(b)
  {
    forall g
      ensures multiset(a)[g] == multiset(b)[g]
    {
      MultisetWithYear(a, g);
      MultisetWithYear(b, g);
    }
  }

  /** The first group of `a` comes first among its year's groups. */
  /** The groups of one year in `a`: its first group if of that year, then those of the rest. */
  lemma WithYearCons(a: seq<YearGroup>, year: int)
    requires a != []
    ensures WithYear(a, year) == (if a[0].year == year then [a[0]] else []) + WithYear(a[1..], year)
  {
  }

  lemma WithYearHead(a: seq<YearGroup>)
    requires a != []
    ensures forall year ::
              WithYear(a, year) == (if a[0].year == year then [a[0]] else []) + WithYear(a[1..], year)
  {
  }

  /** Two sorted sequences that agree on every year's groups start with the same group. */
  lemma SameFirst(a: seq<YearGroup>, b: seq<YearGroup>, ascending: bool)
    requires SortedBy(a, ascending) && SortedBy(b, ascending)
    requires a != [] && b != []
    requires forall year :: WithYear(a, year) == WithYear(b, year)
    ensures a[0] == b[0]
  {
    var y, z := a[0].year, b[0].year;
    FilterMembers(b, HasYear(y));
    FilterMembers(a, HasYear(z));
    WithYearHead(a);
    WithYearHead(b);
    assert a[0] in WithYear(b, y);
    var k :| 0 <= k < |b| && b[k] == a[0];
    assert b[0] in WithYear(a, z);
    var m :| 0 <= m < |a| && a[m] == b[0];
    assert Key(b[0], ascending) <= Key(a[0], ascending) <= Key(b[0], ascending);
    assert WithYear(a, y)[0] == a[0] && WithYear(b, y)[0] == b[0];
  }

  /**
   * A stable sort has only one possible outcome: two sequences that are both
   * ordered by the key and agree on the order of every year's groups are equal.
   * So the insertion sort above yields what any stable sort yields.
   */
  lemma {:induction false} StableSortUnique(a: seq<YearGroup>, b: seq<YearGroup>, ascending: bool)
    requires SortedBy(a, ascending) && SortedBy(b, ascending)
    requires forall year :: WithYear(a, year) == WithYear(b, year)
    ensures a == b
    decreases |a|
  {
    SameGroups(a, b);
    assert |a| == |multiset(a)| == |multiset(b)| == |b|;
    if |a| > 0 {
      SameFirst(a, b, ascending);
      WithYearHead(a);
      WithYearHead(b);
      forall year
        ensures WithYear(a[1..], year) == WithYear(b[1..], year)
      {
        var head := if a[0].year == year then [a[0]] else [];
        assert WithYear(a[1..], year) == WithYear(a, year)[|head|..];
        assert WithYear(b[1..], year) == WithYear(b, year)[|head|..];
      }
      StableSortUnique(a[1..], b[1..], ascending);
      assert a == [a[0]] + a[1..] && b == [b[0]] + b[1..];
    }
  }

  /** Whatever stable sort the runtime uses, its result is `SortByYear`'s. */
  lemma StableSortIsSortByYear(r: seq<YearGroup>, s: seq<YearGroup>, ascending: bool)
    requires IsStableSortOf(r, s, ascending)
    ensures r == SortByYear(s, ascending)
  {
    SortByYearIsStableSort(s, ascending);
    StableSortUnique(r, SortByYear(s, ascending), ascending);
  }

  lemma ConsAppend(p: seq<YearGroup>, q: seq<YearGroup>)
    requires p != []
    ensures p + q == [p[0]] + (p[1..] + q)
  {
  }

  /**
   * Inserting `x` after a run of groups keyed at most its key and before a
   * group keyed above it.
   */
  lemma {:induction false} InsertAt(p: seq<YearGroup>, q: seq<YearGroup>, x: YearGroup, ascending: bool)
    requires forall k :: 0 <= k < |p| ==> Key(p[k], ascending) <= Key(x, ascending)
    requires q == [] || Key(x, ascending) < Key(q[0], ascending)
    ensures Insert(p + q, x, ascending) == p + [x] + q
  {
    if p == [] {
      assert p + q == q && p + [x] + q == [x] + q;
    } else {
      var t := p + q;
      assert t[0] == p[0] && t[1..] == p[1..] + q;
      InsertAt(p[1..], q, x, ascending);
      ConsAppend(p, [x] + q);
      assert p + [x] + q == p + ([x] + q);
    }
  }

  /** In a sorted sequence, everything before a group keyed at most `x`'s key is keyed at most that too. */
  lemma PrefixBelow(s: seq<YearGroup>, j: nat, x: YearGroup, ascending: bool)
    requires SortedBy(s, ascending) && j <= |s|
    requires j == 0 || Key(s[j - 1], ascending) <= Key(x, ascending)
    ensures forall k :: 0 <= k < j ==> Key(s[k], ascending) <= Key(x, ascending)
  {
  }

  /**
   * A sequence that agrees with `s` before `j` and after `i`, holds `s[i]` at
   * `j`, and holds `s[j..i]` shifted one place right in between.
   */
  lemma Spliced(t: seq<YearGroup>, s: seq<YearGroup>, i: nat, j: nat)
    requires j <= i < |s| == |t|
    requires forall k :: 0 <= k < j ==> t[k] == s[k]
    requires t[j] == s[i]
    requires forall k :: j < k <= i ==> t[k] == s[k - 1]
    requires forall k :: i < k < |t| ==> t[k] == s[k]
    ensures t[..i + 1] == s[..j] + [s[i]] + s[j..i]
    ensures t[i + 1..] == s[i + 1..]
  {
    var u := s[..j] + [s[i]] + s[j..i];
    assert |u| == i + 1;
    forall k | 0 <= k <= i
      ensures t[k] == u[k]
    {
      if k < j {
      } else if k == j {
      } else {
        assert u[k] == s[j..i][k - j - 1];
      }
    }
  }

  /** Where the in-place step stops in the sorted prefix is where `Insert` puts `x`. */
  lemma InsertAtStop(t: seq<YearGroup>, j: nat, x: YearGroup, ascending: bool)
    requires j <= |SortByYear(t, ascending)|
    requires j == 0 || Key(SortByYear(t, ascending)[j - 1], ascending) <= Key(x, ascending)
    requires j < |SortByYear(t, ascending)| ==> Key(x, ascending) < Key(SortByYear(t, ascending)[j], ascending)
    ensures var s := SortByYear(t, ascending); Insert(s, x, ascending) == s[..j] + [x] + s[j..]
  {
    var s := SortByYear(t, ascending);
    SortByYearSorted(t, ascending);
    PrefixBelow(s, j, x, ascending);
    InsertAt(s[..j], s[j..], x, ascending);
    assert s[..j] + s[j..] == s;
  }

  /**
   * One step of the in-place sort: shifts the groups of `a[..i]` keyed above
   * `a[i]`, from the right, one place right and drops `a[i]` into the gap at
   * `j`. The groups before `j` are keyed at most `a[i]`'s key.
   */
  method InsertInto(a: array<YearGroup>, i: nat, ascending: bool) returns (j: nat)
    requires i < a.Length
    modifies a
    ensures j <= i
    ensures a[..i + 1] == old(a[..j]) + [old(a[i])] + old(a[j..i])
    ensures a[i + 1..] == old(a[i + 1..])
    ensures j == 0 || Key(old(a[j - 1]), ascending) <= Key(old(a[i]), ascending)
    ensures j < i ==> Key(old(a[i]), ascending) < Key(old(a[j]), ascending)
  {
    var x := a[i];
    ghost var s := a[..];
    j := i;
    while j > 0 && Key(x, ascending) < Key(a[j - 1], ascending)
      invariant 0 <= j <= i
      invariant forall k :: 0 <= k < j ==> a[k] == s[k]
      invariant forall k :: j < k <= i ==> a[k] == s[k - 1]
      invariant forall k :: i < k < a.Length ==> a[k] == s[k]
      invariant j < i ==> Key(x, ascending) < Key(s[j], ascending)
    {
      a[j] := a[j - 1];
      j := j - 1;
    }
    a[j] := x;
    assert old(a[..j]) == s[..j] && old(a[j..i]) == s[j..i] && old(a[i + 1..]) == s[i + 1..];
    Spliced(a[..], s, i, j);
  }

  /** One pass of the outer loop extends the sorted prefix by one group. */
  lemma InsertionStep(s: seq<YearGroup>, i: nat, before: seq<YearGroup>, after: seq<YearGroup>, j: nat, ascending: bool)
    requires i < |s| == |before| == |after|
    requires before[..i] == SortByYear(s[..i], ascending) && before[i..] == s[i..]
    requires j <= i && after[..i + 1] == before[..j] + [before[i]] + before[j..i]
    requires after[i + 1..] == before[i + 1..]
    requires j == 0 || Key(before[j - 1], ascending) <= Key(before[i], ascending)
    requires j < i ==> Key(before[i], ascending) < Key(before[j], ascending)
    ensures after[..i + 1] == SortByYear(s[..i + 1], ascending)
    ensures after[i + 1..] == s[i + 1..]
  {
    var sorted := before[..i];
    assert before[i] == s[i];
    assert before[..j] == sorted[..j] && before[j..i] == sorted[j..];
    InsertAtStop(s[..i], j, s[i], ascending);
    assert s[..i + 1][..i] == s[..i];
    assert before[i + 1..] == s[i + 1..];
  }

  /**
   * The in-place sort `updatedEvents.sort(...)`: an insertion sort on the array
   * whose result is the stable sort of the array's old contents.
   */
  method SortInPlace(a: array<YearGroup>, ascending: bool)
    modifies a
    ensures a[..] == SortByYear(old(a[..]), ascending)
  {
    ghost var s := a[..];
    var i := 0;
    while i < a.Length
      invariant 0 <= i <= a.Length
      invariant a[..i] == SortByYear(s[..i], ascending)
      invariant a[i..] == s[i..]
    {
      ghost var before := a[..];
      var j := InsertInto(a, i, ascending);
      InsertionStep(s, i, before, a[..], j, ascending);
      i := i + 1;
    }
    assert s[..a.Length] == s;
  }
}
