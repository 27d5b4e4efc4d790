# bugzilla-burndown, modelled in Dafny

The repository draws a bug burndown chart from a Bugzilla search, and a
table of add-on compatibility from a Google spreadsheet. This project models
its data logic and proves what that logic promises.

- `burndown.js`: the burndown chart.
  - The query string is parsed (`parseQueryString`). It gives the Bugzilla
    search terms and the optional `since` date.
  - The bugs found are grouped into per-day buckets. A bug counts as opened
    on the day it was reported. A bug that is not open also counts as closed
    on its last-modified day.
  - The buckets are walked in date order, keeping running counts of open and
    closed bugs and of their points.
  - A point is emitted for every bucket dated on or after the chart start.
  - The series is padded with a point at the start date and one at today.
- `gdata.js`: a Google Sheets list feed becomes one row object per entry.
- `addons.js`: each row becomes an add-on record. The positive bug numbers
  are looked up in Bugzilla, and each bug's resolution makes its add-on
  compatible or incompatible.
- `index.js`: the add-ons are filtered by tier and split into compatible,
  untested and incompatible lists. The first and last lists are sorted by
  name, the untested list is shuffled, and every add-on becomes a table row
  with its decoded name, a status and a bug cell. A name that does not
  decode ends the table at the list that holds it.

Modules:

- `Js` (`js.dfy`): the JavaScript behaviour the scripts rely on, written out:
  - `undefined` as `Option`, and numbers as `NaN | Num(real)`;
  - truthiness, and `split` with its inverse `join`;
  - ASCII `toLowerCase` and string `<`;
  - `_.sumBy`, and property assignment in which a later key wins;
  - a filter on sequences, a specification helper that states what the
    scripts' loops keep.
- `BurndownQuery` (`query.dfy`): `parseQueryString` and the search terms.
- `Burndown` (`burndown.dfy`): the bucket, running-total and padding loops.
- `GData` (`gdata.dfy`): the feed parser.
- `Addons` (`addons.dfy`): the add-on records and the resolution loop.
- `Index` (`index.dfy`): the partition, the sort, the shuffle and the table rows.

The loops of the scripts are methods with loop invariants. Each method is
proved equal to a specification function, and the properties are lemmas
about those functions. The add-on list that the resolution loop updates is
an `array` changed in place. `sortByName` and `shuffleArray` work in place
on arrays.

Dates are whole days, as `int`. "Today" is an input, and the `since` entry
of the query string is read as a day by a date-parsing parameter. The chart
starts on the `since` date. When `since` is missing, has no value or is
empty, it starts 3 * 4 * 7 = 84 days before today (`CHART_START_PERIOD`).

The calls into code outside these files are function parameters of the
model:

- `encodeURIComponent` and `decodeURIComponent`; a failed decode is `None`,
  which stands for the exception. In the query string it makes the parse
  throw. In the table it ends the list being appended and the callback;
- unary `+` on a string, `Date.parse`, `$bugz.makeURL` and the reading of
  the `since` date;
- the two Bugzilla searches, whose results are inputs;
- `Math.random`, replaced by a pick function `pick(i) <= i`;
- `navigator.userAgent`.

The code has no forecasting and no clamping, and the model has none.
Buckets dated before the chart start still feed the running totals,
although no point is emitted for them.

A comment in `index.js` (line 94) says that untested add-ons of tier 2 are
hidden too. The code hides only those whose tier is above 2, and the model
follows the code.

## Model

| member | source | states |
|---|---|---|
| BurndownQuery.ParseQueryString | burndown/js/burndown.js:30-53 | the loop over the `&`-separated parameters computes `QueryOf`, the object or the exception of a failed decode |
| BurndownQuery.ShortSearch | burndown/js/burndown.js:33-35 | a search text of length 0 or 1 gives `{}` |
| BurndownQuery.TrailingSlash | burndown/js/burndown.js:37-38 | the leading "?" and one trailing "/" are stripped |
| BurndownQuery.KeyValue | burndown/js/burndown.js:44 | `split("=", 2)` gives one or two pieces |
| BurndownQuery.QueryThrows | burndown/js/burndown.js:43-51 | parsing throws exactly when a parameter with a non-empty key has a value that does not decode |
| BurndownQuery.QueryKeys | burndown/js/burndown.js:45-50 | a key is set exactly when some parameter sets it; keys are non-empty and lower-case; empty keys are skipped |
| BurndownQuery.LastParamWins | burndown/js/burndown.js:50 | a later duplicate key overwrites an earlier one |
| BurndownQuery.KeyWithoutValue | burndown/js/burndown.js:49 | a parameter without "=" sets its lower-cased key to `null` |
| BurndownQuery.KeyWithValue | burndown/js/burndown.js:44-49 | "k=v" sets k to the decoded v, and so does "k=v=rest": text after a second "=" is dropped |
| BurndownQuery.BuildSearchTerms | burndown/js/burndown.js:300-321 | the statements that fill `searchTerms` compute `SearchTermsOf` |
| BurndownQuery.SearchTermsRoundTrip | burndown/js/burndown.js:302-321 | the component terms joined with "," give back `component`, and the blocks terms give back `bug \|\| blocks`; there is one whiteboard term exactly when `whiteboard` is truthy |
| BurndownQuery.BugWinsOverBlocks | burndown/js/burndown.js:315 | a truthy `bug` parameter takes precedence over `blocks` |
| Burndown.Changes | burndown/js/burndown.js:146-156 | every bucket is stored under its own date |
| Burndown.GroupByDay | burndown/js/burndown.js:161-178 | the `forEach` with `getChange` builds exactly `Changes(bugs)` |
| Burndown.ChangesSnoc | burndown/js/burndown.js:172-177 | handling one more bug adds it to its reported day's `bugsOpened`, and to its last-modified day's `bugsClosed` when not open |
| Burndown.BugPlacement | burndown/js/burndown.js:148-177 | each copy of a bug is in `bugsOpened` of exactly the bucket of its `reportedAt` day; a non-open bug is in `bugsClosed` of exactly its `lastModifiedAt` bucket; an open bug is in no `bugsClosed` |
| Burndown.EveryEventHasABucket | burndown/js/burndown.js:150-153 | a reported day, and a closing day, always has a bucket |
| Burndown.SortByDate | burndown/js/burndown.js:197 | `_.sortBy(changes, "date")` lists every bucket once, in strictly increasing date order, so no day has two buckets |
| Burndown.ChartStartDate | burndown/js/burndown.js:199-200 | a missing, valueless or empty `since` starts the chart 84 days before today; any other `since` text is the start date |
| Burndown.SinceOfQuery | burndown/js/burndown.js:199-200 | for query strings: no `since`, `?since` and `?since=` give the 84-day default, and `?since=t` starts at the day `t` names |
| Burndown.Points | burndown/js/burndown.js:204 | `bug.points \|\| 3` is never 0, and is the bug's own points whenever those are not 0 |
| Burndown.SumPointsCounts | burndown/js/burndown.js:202-205 | `sumPoints` is the sum of the points the bugs state plus 3 for each bug with no points or 0 points |
| Burndown.DefaultPoints | burndown/js/burndown.js:202-205 | bugs without points, or with 0 points, count 3 points each |
| Burndown.OpenPlusClosed | burndown/js/burndown.js:207-220 | after any number of buckets, open plus closed equals the `bugsOpened` entries seen so far, for counts and for points |
| Burndown.ClosedGrows | burndown/js/burndown.js:217 | the running closed count never decreases |
| Burndown.RunningTotals | burndown/js/burndown.js:207-220 | after the k-th bucket the totals are the counts and points of the bugs reported, and closed, on or before its date |
| Burndown.FinalTotals | burndown/js/burndown.js:207-220 | after the last bucket, the open count and points are those of the open bugs, and the closed ones those of the other bugs |
| Burndown.EmittedExactly | burndown/js/burndown.js:222-228 | the emitted points are exactly the points of the buckets dated on or after the chart start |
| Burndown.WalkBuckets | burndown/js/burndown.js:207-229 | the loop's five arrays are the series of the emitted points, with running totals counting every bucket |
| Burndown.SeriesOf | burndown/js/burndown.js:223-227 | the five arrays have equal length; entry i of each is a field of point i |
| Burndown.PadSeries | burndown/js/burndown.js:231-252 | the `unshift` and `push` steps give the series of the padded points |
| Burndown.PaddedShape | burndown/js/burndown.js:231-251 | an empty series stays empty; otherwise the first point is at the start date with the first counts, and a last point before today is followed by exactly one point dated today with the same counts |
| Burndown.BuildSeries | burndown/js/burndown.js:207-252 | the walk followed by the padding computes `Burndown` |
| Burndown.ChartOrdered | burndown/js/burndown.js:197-252 | the chart's dates increase strictly and its closed counts never decrease |
| Burndown.ChartEnds | burndown/js/burndown.js:222-251 | the series is empty when every bucket is before the start; otherwise it begins at the start date, and ends at today or the last bucket date with the final totals |
| Burndown.BurndownChart | burndown/js/burndown.js:146-252 | the chart ends with the numbers of open and of closed bugs and their points |
| Burndown.OnSearchResult | burndown/js/burndown.js:131-252 | the search callback computes `PlotOf`: nothing on an error, "Zarro boogs" for no bugs, otherwise the chart |
| Burndown.PlotCases | burndown/js/burndown.js:134-260 | each outcome happens exactly in its case, and the five arrays handed to the chart are of equal length |
| GData.ParseSpreadsheet | burndown/js/gdata.js:5-19 | one row per entry, in entry order; a missing `entry` counts as an empty list |
| GData.BuildRow | burndown/js/gdata.js:9-18 | the inner `forEach` builds the row of the title and the columns, assigned in order |
| GData.NoEntryNoRows | burndown/js/gdata.js:6 | a feed without `entry` has no entries |
| GData.RowKeys | burndown/js/gdata.js:10-16 | a row's keys are "title" and the key of each column |
| GData.RowTitle | burndown/js/gdata.js:9-10 | the title is the raw text of an html title and the encoded text otherwise |
| GData.LastColumnWins | burndown/js/gdata.js:13-16 | the last column with a key decides its value, and may overwrite the title |
| GData.ColumnWithoutValue | burndown/js/gdata.js:14-15 | a column without ": " sets its whole text, as a key, to undefined |
| GData.ColumnWithValue | burndown/js/gdata.js:14-15 | "k: v" sets k to v |
| GData.ColumnDropsRest | burndown/js/gdata.js:14-15 | text after a second ": " is dropped |
| GData.ColumnsOfJoinedContent | burndown/js/gdata.js:11 | content joined with ", " from columns without ", " splits back into those columns |
| Addons.ReadRow | burndown/js/addons.js:14-42 | the `_.map` callback's statements build `AddonOf(row)` |
| Addons.CollectAddons | burndown/js/addons.js:12-48 | one add-on per row in row order; `bugIDs` are the positive bug numbers in row order; `bugToAddonMap` holds the truthy bug numbers |
| Addons.RowWithoutBug | burndown/js/addons.js:18-21 | a row without a `bug` value has an undefined bug, a null `bugURL` and a null `compatible`, and is neither queried nor mapped |
| Addons.RowWithBug | burndown/js/addons.js:20-29 | a bug greater than 0 is queried and stays untested; any other bug value makes the add-on compatible |
| Addons.AmoFallback | burndown/js/addons.js:36-40 | a missing or empty `amourl` becomes the site search URL followed by the name |
| Addons.QueriedIdsAre | burndown/js/addons.js:24-25 | the ids searched for are those of the add-ons whose bug is a number greater than 0 |
| Addons.BugMapEntries | burndown/js/addons.js:43-45 | `bugToAddonMap` has an entry exactly for each truthy bug, naming the last add-on with that bug |
| Addons.CompatOf | burndown/js/addons.js:62-76 | FIXED and WORKSFORME give `true`; every other resolution, listed or not, gives `false` |
| Addons.ApplyResolutions | burndown/js/addons.js:60-77 | the loop updates the add-ons in place as `Applied` says; a bug with no add-on throws, and the loop stops there |
| Addons.AppliedKeepsFields | burndown/js/addons.js:60-74 | resolutions only ever change `compatible` |
| Addons.AppliedUntouched | burndown/js/addons.js:60-77 | an add-on that no bug maps to keeps its `compatible` |
| Addons.AppliedLast | burndown/js/addons.js:60-77 | the add-on a bug maps to ends with the compatibility of the last bug that maps to it |
| Addons.SharedBugUpdatesLastRow | burndown/js/addons.js:43-61 | when rows share a bug, only the last of them gets the resolution |
| Addons.ParseSpreadsheet | burndown/js/addons.js:5-80 | searches for `bugIDs` and calls back with the add-ons as `CallbackOf` says |
| Addons.CallbackKeepsAddons | burndown/js/addons.js:55-79 | on a search error the callback receives the add-ons unchanged; in any case each keeps every field but `compatible` |
| Index.Partition | burndown/js/index.js:93-108 | the loop pushes each shown add-on onto the list of its compatibility, in order |
| Index.PartitionCovers | burndown/js/index.js:93-108 | the three lists hold every shown add-on exactly once per occurrence |
| Index.TierFilter | burndown/js/index.js:95-97 | an untested add-on with tier above 2 is in no list; an untested one whose tier is not above 2 is in the untested list |
| Index.SortByName | burndown/js/index.js:33-37 | the array ends as a permutation of itself, sorted by name |
| Index.Compare | burndown/js/index.js:33-37 | the comparator returns -1, 0 or 1; 0 exactly for equal names; for defined names a negative result exactly when the first name is less |
| Index.CompareSymmetry | burndown/js/index.js:34-36 | for defined names swapping the arguments negates the result; an undefined name and a defined one each compare greater than the other |
| Index.CompareAgrees | burndown/js/index.js:34-36 | for defined names, the sorted order is the comparator's order |
| Index.Shuffle | burndown/js/index.js:23-31 | the in-place swaps leave the array as `Shuffled` says, for any picks within 0..i |
| Index.ShuffledIsPermutation | burndown/js/index.js:23-31 | a shuffle is a permutation of its input |
| Index.ShuffleSteps | burndown/js/index.js:24-29 | the last position receives the element the first pick names, and picks that never move leave the array unchanged |
| Index.StatusOf | burndown/js/index.js:66-76 | `true` gives "compatible"/"success", `null` gives "not tested"/"warning", `false` gives "bug reported"/"danger" |
| Index.StatusDistinguishes | burndown/js/index.js:66-76 | the three states have distinct texts and distinct classes |
| Index.BugCellOf | burndown/js/index.js:39-61 | a bug link goes to `bugURL` and shows the bug number; the two other links are the Bugzilla form and the mail for the add-on's name and the user agent |
| Index.BugCellCases | burndown/js/index.js:39-61 | a truthy bug gives a link, struck through exactly when compatible; bug 0 gives "no bug"; otherwise the two links |
| Index.ZeroBugIsCompatible | burndown/js/addons.js:23-77 | a spreadsheet row whose bug is 0 reaches the table as "compatible" with "no bug", whatever the search returns |
| Index.TableRowOf | burndown/js/index.js:66-83 | a row exists exactly when the name decodes; it shows the decoded name linked to the add-on's page, the status text and class of its compatibility, and its bug cell |
| Index.TableRows | burndown/js/index.js:63-86 | the rows exist exactly when every name decodes, and then there is one per add-on, in order |
| Index.AppendAddonRows | burndown/js/index.js:63-86 | the loop appends exactly those rows to the table body when every name decodes; a name that throws leaves the body unchanged |
| Index.OnAddons | burndown/js/index.js:88-117 | the lists are the sorted compatible add-ons, the shuffled untested ones and the sorted incompatible ones; their rows are appended in that order, up to the first list with a name that does not decode, and the callback completes exactly when none does |
| Index.AppendLists | burndown/js/index.js:114-117 | the three calls append the lists' rows in order and stop at the first list that throws |
| Index.TableContents | burndown/js/index.js:93-117 | the three lists hold every shown add-on once per occurrence, and nothing else; the table is complete exactly when every shown add-on's name decodes |
| Index.TableStyles | burndown/js/index.js:115-117 | in a complete table the rows run from "success" through "warning" to "danger" |
| Index.DisplayedLists | burndown/js/index.js:99-112 | after sorting and shuffling, each list still holds only add-ons of its own compatibility |

## Left out

- DOM and rendering are not modelled: `createElement`, `createLink`, the bug list, the "Open bug list in Bugzilla" link, the c3 chart (`drawOpenClosed`), `document.title` and the zarro-boogs text. The model returns what would be drawn.
- Network calls are not modelled: `$bugzilla.searchBugs` and `$bugz.searchBugs` are inputs, and their callbacks are ordinary continuations.
- The clock is not modelled: `Date.now()`, `new Date()`, `toISOString` and `yyyy_mm_dd`. Dates are given as day numbers, and "today" is a parameter. The `since` text is read as a day by a parameter. The code compares date strings; the model compares days, which agree for well-formed `YYYY-MM-DD` dates.
- `Math.random` is replaced by the pick parameter of `Index.Shuffle`.
- `encodeURIComponent`, `decodeURIComponent`, unary `+` on strings, `Date.parse` and `makeURL` are left unspecified, as function parameters.
- Logging (`console.*`, `debug`) and `alert` are left out.
- The commented-out login block of `burndown.js` is left out.
- `Lower` handles ASCII letters only. Unicode case mapping is not modelled.
- String `<` compares characters by code point, not by UTF-16 code unit.
- Bug numbers are real numbers. The model does not capture that object keys are their string form.
- Bug points are taken to be integers.
- Keys inherited from `Object.prototype` are not modelled.
- Index.SortByName: it is an insertion sort. It does not promise the stability of `Array.prototype.sort`, and it puts undefined names last. The source's comparator is inconsistent for undefined names.
- Addons.ApplyResolutions: the map holds the add-on's position in the list, not a reference to the record. The two agree because the list is not reordered before the resolutions are applied.
