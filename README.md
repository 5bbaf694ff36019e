# Composers timeline: the filter/sort engine and the view state

The timeline shows musical events grouped by year. The data is a list of
year groups: each has a `year` and a list of events, and each event has a
`title`, an `info` text and an optional `image`. The component keeps six
pieces of state:

- the loaded groups;
- the displayed groups;
- the expanded event;
- the enlarged picture;
- the query text;
- the sort direction.

Each time the query, the data or the direction changes, an effect rebuilds
the displayed list:

- An empty query keeps every group.
- A query whose lower-cased form is one of the four era names (`baroque`,
  `classical`, `romantic`, `modern`) keeps the groups whose year lies in
  that era's inclusive range, with all their events.
- Any other query keeps, in each group, only the events that match. An event
  matches when its lower-cased title or info contains the lower-cased query,
  or when the year's decimal form contains the query as typed. Groups left
  with no events are dropped.
- The result is sorted in place by year, ascending or descending.

The project has these modules:

- `Wrappers`: `Option`.
- `Seqs`: an order-keeping `Filter` and its multiset and membership laws.
- `Text`: ASCII `toLowerCase`, `includes` as a left-to-right scan (`Contains`)
  proved equivalent to "occurs at some index", and the decimal rendering of
  integers with its round trip.
- `Records`: the data and the era table.
- `YearSort`: three parts.
  - A stable insertion sort by year as a function (`SortByYear`). It is proved
    to be ordered, a permutation and stable.
  - A proof that a stable sort has only one possible result, so any stable
    `Array.prototype.sort` gives `SortByYear`'s result.
  - An in-place insertion sort on an array (`SortInPlace`), proved to produce
    `SortByYear` of the array's old contents.
- `Engine`: the era and text filters, the working set and the displayed list
  (`View`), with the properties of each query mode.
- `App`: the component as a class `Timeline` with its six state slots.
  - `Recompute` is the effect. It copies the working set into a fresh array,
    sorts it in place and shows it.
  - Each handler changes only its own slot.
- `Scenarios`: worked examples on a two-group data set.

## Model

| member | source | states |
|---|---|---|
| Records.Eras | src/App.js:43-48 | the four eras keyed by lower-case name with inclusive ranges; `Records.EraBoundaries`, `Engine.EraNamesLowerCase` and `Engine.SharedEndpoints` state its properties |
| Records.EraBoundaries | src/App.js:44-47 | 1750, 1820 and 1900 each lie in two eras; every other year from 1600 to 3000 lies in exactly one; years outside that span lie in none |
| Seqs.Filter | src/App.js:56-58 | `Array.prototype.filter` never lengthens a list |
| Seqs.FilterMultiset | src/App.js:56-58 | filtering keeps every copy of each passing element and drops every copy of each failing one |
| Seqs.FilterMembers | src/App.js:63-70 | an element is in the filtered list exactly when it is in the list and passes |
| Seqs.FilterConcat | src/App.js:56-58 | filtering a concatenation is concatenating the filtered parts |
| Seqs.FilterAll | src/App.js:63-68 | filtering a list whose elements all pass gives the list back |
| Text.ToLower | src/App.js:53 | `toLowerCase` keeps the length, lowers each upper-case ASCII letter, leaves every other character alone and leaves no upper-case letter |
| Text.ToLowerIdempotent | src/App.js:53 | lower-casing twice is lower-casing once |
| Text.Contains | src/App.js:65-67 | `includes` as a left-to-right scan for a prefix match; `Text.ContainsIff` ties it to "occurs at some index" in both directions |
| Text.ContainsIff | src/App.js:65-67 | `includes` holds exactly when the pattern occurs at some index of the text |
| Text.OccursContains | src/App.js:65-67 | an occurrence at any index is found by `includes` |
| Text.ContainsOccurs | src/App.js:65-67 | whatever `includes` finds is an occurrence at some index |
| Text.ContainsSlice | src/App.js:65-67 | a text includes each of its substrings, the empty string among them |
| Text.MissingFirstChar | src/App.js:65-67 | a text that lacks the pattern's first character does not include the pattern |
| Text.ContainsSameLength | src/App.js:67 | between strings of equal length, `includes` is equality |
| Text.ToLowerKeepsDigit | src/App.js:65-66 | lower-casing neither adds nor removes a digit |
| Text.Digits | src/App.js:67 | the digits of a natural number are non-empty, all decimal digits and have no leading zero; there is one digit exactly below 10 |
| Text.DecimalString | src/App.js:67 | `year.toString()` is non-empty and starts with `-` exactly for negative years |
| Text.DigitsRoundTrip | src/App.js:67 | reading the digits of `n` back gives `n` |
| Text.DecimalRoundTrip | src/App.js:67 | parsing `year.toString()` gives the year back |
| Text.DecimalStringInjective | src/App.js:67 | distinct years have distinct decimal forms |
| YearSort.Insert | src/App.js:74-78 | one step of the stable sort: the group goes after every group whose key is not above its own; `YearSort.InsertMultiset`, `YearSort.InsertSorted`, `YearSort.InsertStable` and `YearSort.InsertAt` state its properties |
| YearSort.SortByYear | src/App.js:74-78 | the stable sort by year; `YearSort.SortByYearPermutation`, `YearSort.SortByYearSorted`, `YearSort.SortByYearStable` and `YearSort.StableSortIsSortByYear` state its properties |
| YearSort.InsertMultiset | src/App.js:74-78 | one insertion step adds exactly one copy of the group |
| YearSort.SortByYearPermutation | src/App.js:74-78 | sorting by year yields a permutation of its input |
| YearSort.InsertSorted | src/App.js:74-78 | inserting into an ordered list keeps it ordered |
| YearSort.SortByYearSorted | src/App.js:74-78 | the sorted list's years are non-decreasing when ascending and non-increasing when descending |
| YearSort.NoneWithYearAbove | src/App.js:74-78 | an ordered list that starts above a group's key holds no group of that year |
| YearSort.InsertStable | src/App.js:74-78 | inserting a group appends it after the groups of its own year and leaves every other year's groups as they were |
| YearSort.SortByYearStable | src/App.js:74-78 | for every year, the sorted list holds that year's groups in their input order |
| YearSort.SortByYearIsStableSort | src/App.js:74-78 | sorting by year is a stable sort: ordered, and every year's groups keep their input order |
| YearSort.MultisetWithYear | src/App.js:74-78 | every copy of a group sits among the groups of its year |
| YearSort.SameGroups | src/App.js:74-78 | lists that agree on every year's groups hold the same groups |
| YearSort.SameFirst | src/App.js:74-78 | two ordered lists that agree on every year's groups start with the same group |
| YearSort.StableSortUnique | src/App.js:74-78 | two lists that are both ordered by year and agree on the order of each year's groups are equal |
| YearSort.StableSortIsSortByYear | src/App.js:74-78 | any result of a stable sort by year equals the insertion sort's result |
| YearSort.InsertAt | src/App.js:74-78 | inserting a group after a run keyed at most its key and before a group keyed above it places it exactly there |
| YearSort.InsertAtStop | src/App.js:74-78 | where the in-place step stops in the sorted prefix is where the sort function puts the group |
| YearSort.InsertInto | src/App.js:75-77 | one in-place step shifts the prefix groups keyed above the new group one place right and drops it into the gap, after every group keyed at most its key; the rest of the array is untouched |
| YearSort.InsertionStep | src/App.js:75-77 | one pass of the outer loop extends the sorted prefix by one group and leaves the unsorted rest as it was |
| YearSort.SortInPlace | src/App.js:74-78 | `updatedEvents.sort(...)` leaves in the array the stable sort by year of its old contents |
| Engine.EventMatches | src/App.js:64-67 | the free-text test: lower-cased title or info contains the lower-cased query, or the year's decimal form contains the raw query; `Engine.ViewTextMode` and `Engine.YearMatchKeepsAll` state its role |
| Engine.HasEvents | src/App.js:70 | a group is kept in text mode only when it still has an event; `Engine.TextFilter` and `Engine.ViewTextMode` state its role |
| Engine.Narrowed | src/App.js:61-68 | a narrowed group keeps its year and exactly the events that match, with their multiplicities, and drops those that do not |
| Engine.EraFilter | src/App.js:54-58 | era filtering keeps every copy of each group whose year is in the range, untouched, and no other group |
| Engine.NarrowAll | src/App.js:60-69 | mapping keeps the count of groups, and its i-th group is the i-th loaded group narrowed |
| Engine.NarrowAllMembers | src/App.js:60-69 | the mapped list holds exactly the narrowed forms of the loaded groups |
| Engine.TextFilter | src/App.js:60-70 | text filtering yields exactly the narrowed loaded groups that still have an event |
| Engine.TextFilterMultiset | src/App.js:60-70 | text filtering keeps each non-empty narrowed group as many times as the mapped list holds it (one copy per loaded group it comes from) and drops every empty one |
| Engine.WorkingSet | src/App.js:51-72 | the list before sorting: all groups, an era's groups, or the narrowed matches; `Engine.ViewEmptyQuery`, `Engine.ViewEraMode` and `Engine.ViewTextMode` state each mode |
| Engine.View | src/App.js:50-82 | the displayed list: the working set stably sorted by year; `Engine.ViewIsStableSort`, `Engine.ViewOrdered`, `Engine.ViewFlip` and `Engine.ShownFromLoaded` state its properties |
| Engine.ViewIsStableSort | src/App.js:50-82 | the displayed list is a stable sort by year of the working set, and a permutation of it |
| Engine.ViewOrdered | src/App.js:74-78 | displayed years are non-decreasing when ascending and non-increasing when descending |
| Engine.ViewEmptyQuery | src/App.js:51-52 | an empty query shows every loaded group unchanged, only reordered |
| Engine.ViewEraMode | src/App.js:53-58 | a query that lower-cases to an era name shows exactly the loaded groups in that era's inclusive range, each with all its events, whatever their texts |
| Engine.ViewTextMode | src/App.js:59-70 | any other non-empty query shows exactly the narrowed loaded groups that keep an event, each as many times as the mapped list holds it, and every event shown matches the query |
| Engine.ShownFromLoaded | src/App.js:51-70 | whatever the query, every shown group stands for a loaded group of the same year and shows only that group's events |
| Engine.YearMatchKeepsAll | src/App.js:67 | a group whose year's decimal form contains the query keeps all its events |
| Engine.ViewFlip | src/App.js:74-78 | flipping the direction changes only the order of what is shown |
| Engine.ToLowerOfLower | src/App.js:53 | lower-casing a text with no upper-case letter gives it back |
| Engine.EraNamesLowerCase | src/App.js:43-48 | the era names are their own lower-case forms |
| Engine.EraNameView | src/App.js:53-58 | typing an era's name shows exactly the loaded groups whose year lies in that era |
| Engine.InTwoEras | src/App.js:44-47 | a group in two eras' ranges is shown for both era names |
| Engine.SharedEndpoints | src/App.js:44-47 | a group of 1750, 1820 or 1900 is shown for both eras that meet at that year |
| Engine.EraModeIgnoresCase | src/App.js:53-55 | era mode depends on the query only through its lower-cased form |
| App.Toggled | src/App.js:84-86 | a click collapses the event when it is the expanded one and otherwise expands it |
| App.ClickTwice | src/App.js:84-86 | clicking an event twice returns the selection to none, unless that event was expanded before |
| App.ClickThenOther | src/App.js:84-86 | clicking one event and then a different one leaves only the second expanded |
| App.Timeline.constructor | src/App.js:27-32 | the initial state: no groups loaded or shown, nothing selected, empty query, ascending |
| App.InitialViewCurrent | src/App.js:27-32 | the initial empty display is what the engine computes for no groups, an empty query and ascending order |
| App.Timeline.Load | src/App.js:37-39 | the loaded data becomes both the source and the display |
| App.Timeline.Recompute | src/App.js:50-82 | the effect changes only the displayed list, making it the engine's view of the loaded groups, the query and the direction |
| App.Timeline.SetFilterText | src/App.js:120 | the search box's change sets the query and nothing else |
| App.Timeline.EventClick | src/App.js:84-86 | the expanded event becomes the toggle of the old one; nothing else changes, so the display stays current |
| App.Timeline.ClearFilter | src/App.js:88-90 | the query becomes empty and nothing else changes |
| App.Timeline.ToggleSortOrder | src/App.js:92-94 | the direction flips and nothing else changes |
| App.Timeline.ImageClick | src/App.js:96-98 | the picture becomes the enlarged one; the expanded event and the display are untouched |
| App.Timeline.CloseDialog | src/App.js:100-102 | the enlarged picture is cleared and nothing else changes |
| App.ClickSequence | src/App.js:84-102 | clicking an event twice gives no selection; clicking `a` then `b` selects `b`; opening a picture keeps `b` selected; closing it clears only the picture |
| App.Typed | src/App.js:37-82 | a fresh component that has loaded the data and been given a query shows the engine's view of them, ascending |
| App.FlippedViews | src/App.js:74-78 | the ascending and descending views of one query hold the same groups, in non-decreasing and non-increasing year order |
| App.FlipSequence | src/App.js:74-94 | on the component, the list before and after a direction flip holds the same groups, ascending before and descending after |
| Scenarios.YearStrings | src/App.js:67 | 1685 and 1827 render as `"1685"` and `"1827"` |
| Scenarios.SortSingle | src/App.js:74-78 | a single group sorts to itself |
| Scenarios.BaroqueQuery | src/App.js:53-58 | on the sample data, `baroque` shows only the 1685 group |
| Scenarios.ShortNotEraName | src/App.js:43-48 | a query shorter than six characters is no era name |
| Scenarios.QueryLower | src/App.js:53 | `"1827"` lower-cases to itself |
| Scenarios.BachMissesQuery | src/App.js:63-68 | the 1685 event does not match `1827` |
| Scenarios.BeethovenMatchesQuery | src/App.js:67 | the 1827 event matches `1827` through its year |
| Scenarios.NarrowBach | src/App.js:61-68 | narrowing the 1685 group by `1827` empties it |
| Scenarios.NarrowBeethoven | src/App.js:61-68 | narrowing the 1827 group by `1827` keeps it whole |
| Scenarios.YearQueryNarrows | src/App.js:60-70 | text filtering the sample by `1827` keeps only the 1827 group |
| Scenarios.YearQuery | src/App.js:50-82 | on the sample data, `1827` shows only the 1827 group in either direction |
| Scenarios.EmptyQueryDescending | src/App.js:74-75 | on the sample data, an empty query in descending order shows 1827 before 1685 |

## Left out

- The data load (`fetch("/data.json")` and JSON parsing, src/App.js:34-41) is network I/O. `App.Timeline.Load` takes the parsed groups as a parameter. The effect that follows a load is the separate step `App.Timeline.Recompute`.
- Rendering is presentation only and carries no state logic: JSX, MUI components, transitions, tooltips, the dialog and CSS (src/App.js:104 onward). The one exception is the avatar's `stopPropagation` (src/App.js:198-201). It is modelled by `App.Timeline.ImageClick` leaving the expanded event untouched.
- `src/theme.js` is not part of this model. It only configures a font family.
- `eras[filterInput]` (src/App.js:54) is a plain-object lookup. In JavaScript, queries such as `constructor` or `__proto__` hit inherited properties and so produce an empty list. The model uses a four-entry map, so such queries go to free-text mode.
- Text.ToLower: lowers only the ASCII letters `A`-`Z`. JavaScript's `toLowerCase` also applies Unicode case mappings.
- App.Toggled and App.Timeline.EventClick: compare events by value. The source compares object references (`===`). The two differ only when two distinct event objects have equal fields.
- React applies `setState` asynchronously and batches it. Each handler and each run of the effect is modelled as one atomic step, and the effect is run by an explicit call to `App.Timeline.Recompute`.
- YearSort.SortInPlace: is an insertion sort, not the engine's own sort algorithm. Any stable sort gives the same result (`YearSort.StableSortIsSortByYear`), so only the algorithm differs, not the outcome.
- Text.DecimalString: writes the exact decimal form of every integer. JavaScript numbers are doubles: `toString` switches to exponent form from 1e21 and integers above 2^53 are not exact. Years are unbounded integers in the model, and the comparator `a.year - b.year` is floating-point arithmetic in JavaScript. Both agree with the model for the year values a timeline holds.
