# hrms-explorer core, modelled in Dafny

This project models the data logic of hrms-explorer. hrms-explorer is a web front end for the Greek public-sector
registry of organisations and their organisational units. The model covers:

- the search filter of the unit-tree outline (`filterTree`);
- the conversion of a unit tree into positioned graph nodes and parent-to-child edges (`treeToFlow`);
- the unit-type label lookup and the text of the CSV export;
- the breadcrumb flattening of a root-to-unit chain (`getPathArray`);
- the favourites and recent-searches store of `useFavorites`;
- the comparison view: a bounded, duplicate-free set of at most three organisations, their per-type unit counts, and
  the 0..100 normalisation of the radar chart;
- the unit-type histogram and top-five ranking of the statistics card;
- the query-string builder of the API client.

The model is split into modules that follow the program. Each module is one file:

| module | models |
|---|---|
| `OrgTree` | the tree and chain shapes of `types/api.ts`, with size, pre-order and depth |
| `TreeFilter` | `components/TreeView.tsx` |
| `FlowLayout` | `treeToFlow` in `lib/utils.ts` |
| `UnitTypes` | `getUnitTypeLabel` in `lib/utils.ts` |
| `CsvExport` | the CSV text in `lib/utils.ts` |
| `Breadcrumbs` | `app/page.tsx` |
| `Favorites` | `lib/useFavorites.ts` |
| `Comparison` | `components/ComparisonView.tsx` |
| `Statistics` | `components/StatisticsCard.tsx` |
| `QueryString` | `lib/api.ts` |
| `Wrappers`, `Sequences`, `Strings` | `undefined`/`null`, `Array.prototype.filter`, subsequences, and the string operations the source takes from the JavaScript runtime |

Where the source mutates state, the model does too:

- `treeToFlow` pushes into two shared arrays. It is the class `FlowBuilder`, with a recursive `Traverse` method and a
  `for` loop over the children.
- `getPathArray` is a `while` loop.
- The `forEach` loops that fill the type histograms are a `for` loop over a `map`.
- The favourites hook is the class `FavoritesStore`, with two `seq` fields.
- The comparison view is the class `ComparisonState`.

Each of these methods is proved against the function that specifies it (`LayoutNodes`/`LayoutEdges`, `Crumbs`,
`IsHistogram`, `WithoutCode`, `PushRecent`, `Filter`). The properties are proved as lemmas about those functions.

## Model

| member | source | states |
|---|---|---|
| TreeFilter.FilterNode | components/TreeView.tsx:23-43 | a matching unit is returned as it is, with all of its children; every kept unit keeps its code, label and type |
| TreeFilter.FilteredTree | components/TreeView.tsx:45 | an empty search term returns the input tree; filtering with the empty term gives the same answer, because every unit matches it |
| TreeFilter.EmptyTermMatches | components/TreeView.tsx:24-26 | every unit matches the empty term (`includes("")` is true) |
| TreeFilter.FilterListIsMapFilter | components/TreeView.tsx:31-33 | the pruned children are exactly the non-null results of filtering each child, in the original order |
| TreeFilter.NonMatchingKeptIff | components/TreeView.tsx:28-42 | a non-matching unit is kept iff it has a `children` array and some child survives; it then carries exactly the surviving children |
| TreeFilter.FilterNoneIff | components/TreeView.tsx:23-43 | the result is null iff no unit anywhere in the tree matches |
| TreeFilter.FilterListEmptyIff | components/TreeView.tsx:31-35 | the filtered children list is empty iff no unit in any child's subtree matches |
| TreeFilter.FilterPreOrderSubseq | components/TreeView.tsx:29-39 | the pre-order of the result is a subsequence of the input's, with each unit's code, label and type intact |
| TreeFilter.FilterSizeBound | components/TreeView.tsx:29-39 | the result never has more units than the input |
| TreeFilter.FilterKeepsLive | components/TreeView.tsx:31-36 | a unit whose subtree holds a match appears in the filtered tree |
| TreeFilter.FilterPreservesAncestry | components/TreeView.tsx:23-43 | every matching unit and every ancestor of a matching unit appears in the result |
| TreeFilter.MatchesIff | components/TreeView.tsx:24-26 | a unit matches iff the lowered term occurs at some offset of the lowered label or of the lowered code |
| TreeFilter.MatchMonotone | components/TreeView.tsx:24-26 | a unit that matches a term also matches every substring of the term that holds no capital sigma |
| TreeFilter.FilterMonotone | components/TreeView.tsx:23-43 | if a longer term finds something, every substring of it without a capital sigma finds something too |
| TreeFilter.SearchNotMonotone | components/TreeView.tsx:24-26 | with a capital sigma the search is not monotone: the label "ΑΣΒ" is found by "ΑΣΒ" but not by its prefix "ΑΣ" |
| TreeFilter.FoldedMatchMonotone | components/TreeView.tsx:24-26 | under case folding that reads both small sigmas as one, a unit that matches a term matches every substring of it |
| TreeFilter.FoldedMatchesMore | components/TreeView.tsx:24-26 | the folded rule finds every unit that the source's rule finds |
| Strings.Lower | components/TreeView.tsx:25-26 | `toLowerCase` keeps the length and lowers each character on its own, except that a capital sigma becomes the final sigma exactly where it ends a word and the small sigma elsewhere |
| Strings.LowerIdempotent | components/TreeView.tsx:25-26 | lowering a lowered string changes nothing |
| Strings.ContainsIff | components/TreeView.tsx:25-26 | `includes` holds iff the term occurs at some offset |
| Strings.LowerPreservesContains | components/TreeView.tsx:25-26 | lower-casing both strings preserves an occurrence of a term without a capital sigma |
| Strings.FoldedPreservesContains | components/TreeView.tsx:25-26 | case folding preserves every occurrence |
| FlowLayout.FlowBuilder.Traverse | lib/utils.ts:22-67 | appends exactly the nodes and edges of the unit's subtree to the shared lists |
| FlowLayout.FlowBuilder.TraverseChildren | lib/utils.ts:64-66 | the `forEach` appends the children's subtrees in array order, child `i` with sibling index `i` |
| FlowLayout.TreeToFlow | lib/utils.ts:11-73 | the result is the layout of the tree from `parentPosition`; the root sits exactly at `parentPosition` |
| FlowLayout.LayoutFollowsPreOrder | lib/utils.ts:38-47 | one node per unit in depth-first pre-order; each node carries its unit's code, label and type, and its id is the code |
| FlowLayout.LayoutSize | lib/utils.ts:38 | exactly one node per unit |
| FlowLayout.LayoutDepth | lib/utils.ts:32-65 | the node of a unit at depth d has y = parentPosition.y + 100·d |
| FlowLayout.LayoutRows | lib/utils.ts:32-65 | node by node, the y coordinates are the rows of the units' depths |
| FlowLayout.ChildPlacement | lib/utils.ts:32-65 | for anchor x and n children, child j is drawn at x − 125·n + 250·j, one row lower |
| FlowLayout.SiblingSpacing | lib/utils.ts:32-65 | adjacent siblings are exactly 250 apart |
| FlowLayout.CousinsShareAnchor | lib/utils.ts:60-65 | children are centred on the anchor passed in, not on their parent's drawn position, so the only children of two siblings land on the same point |
| FlowLayout.EdgeTargets | lib/utils.ts:49-57 | when every unit with children has a non-empty code, one edge is pushed per non-root unit, in pre-order |
| FlowLayout.EdgeCountBound | lib/utils.ts:49-57 | with no assumption, there are never more edges than non-root units |
| FlowLayout.EdgesFollowNodes | lib/utils.ts:38-57 | when every unit with children has a non-empty code: edges = nodes − 1, and edge k ends at node k + 1 |
| FlowLayout.EdgesInTree | lib/utils.ts:49-57 | every edge joins a unit to one of its own children, with id `source-target` and type `smoothstep` |
| FlowLayout.EdgesReferenceNodes | lib/utils.ts:49-57 | every edge is well formed, and both of its ends are ids of nodes of the layout |
| UnitTypes.UnitTypeLabel | lib/utils.ts:130-140 | types 1..4 get their fixed labels; any other value, or undefined, gets "Άγνωστος Τύπος" |
| UnitTypes.UnitTypeLabelInjective | lib/utils.ts:133-138 | a known label names exactly one unit type |
| CsvExport.Lookup | lib/utils.ts:121 | `row[header]` is defined iff the row has that key, and then it is that key's value |
| CsvExport.Fields | lib/utils.ts:121 | one field per header, in header order: the quoted value of the row under that header, with "" for a missing or null value |
| CsvExport.CsvLineCount | lib/utils.ts:114-123 | when no header holds a newline, the text splits at newlines into exactly data.length + 1 lines: first the first row's keys joined with ",", then, for each row in order, its fields under those keys joined with "," |
| CsvExport.CsvFieldsSplit | lib/utils.ts:120-121 | when no cell holds a comma, a data line splits at "," into one quoted cell per header, in header order |
| Strings.SplitJoin | lib/utils.ts:117-123 | splitting a join gives the parts back when no part holds the separator |
| Breadcrumbs.GetPathArray | app/page.tsx:85-99 | a null path gives []; the `while` loop returns one entry per chain element, in chain order, each holding only the code and the label |
| Breadcrumbs.ChainLinks | app/page.tsx:90-97 | the chain starts at the root, each element links to the next, and the last one has no `child` |
| Breadcrumbs.LinkUnitsRoundTrip | app/page.tsx:90-97 | a chain built from a list of units flattens back to that list's codes and labels |
| Favorites.FavoritesStore.AddFavorite | lib/useFavorites.ts:48-61 | appends one entry stamped `now`, without deduplicating; afterwards `isFavorite` holds for its code; the recent list is unchanged |
| Favorites.FavoritesStore.RemoveFavorite | lib/useFavorites.ts:64-71 | drops every favourite with the code and keeps the others in order; afterwards the code is not a favourite |
| Favorites.FavoritesStore.ToggleFavorite | lib/useFavorites.ts:40-83 | removes when the code is a favourite and appends otherwise; membership flips |
| Favorites.FavoritesStore.AddToRecent | lib/useFavorites.ts:86-104 | the new entry comes first, no other entry has its code, older entries keep their order, and there are at most 10 |
| Favorites.FavoritesStore.ClearFavorites | lib/useFavorites.ts:107-110 | empties the favourites and leaves the recent list untouched |
| Favorites.FavoritesStore.ClearRecent | lib/useFavorites.ts:112-116 | empties the recent list and leaves the favourites untouched |
| Favorites.WithoutCode | lib/useFavorites.ts:66 | the filtered list has no entry with the code and is no longer than before |
| Favorites.WithoutCodeExact | lib/useFavorites.ts:66 | an entry survives iff it was there and has another code; the survivors keep their relative order |
| Favorites.Toggled | lib/useFavorites.ts:74-83 | after a toggle the code is a favourite iff it was not one before |
| Favorites.ToggleTwiceRestores | lib/useFavorites.ts:48-83 | toggling a non-favourite twice restores the original list |
| Favorites.ToggleTwiceRebookmarks | lib/useFavorites.ts:48-83 | toggling a favourite twice drops all its entries and appends one fresh entry stamped with the second time |
| Favorites.ToggleKeepsDistinct | lib/useFavorites.ts:74-83 | toggling keeps the favourites' codes pairwise distinct |
| Favorites.PushRecent | lib/useFavorites.ts:95-98 | the new list has from 1 to 10 entries and starts with the new entry |
| Favorites.PushRecentShape | lib/useFavorites.ts:95-98 | after the first entry no code equals the new one; the rest is a prefix of the filtered old list, hence ordered like the old list; it is cut only at 10 |
| Favorites.PushRecentKeepsDistinct | lib/useFavorites.ts:95-98 | pushing keeps the recent list's codes pairwise distinct |
| Favorites.PushRecentAgain | lib/useFavorites.ts:95-98 | pushing the same organisation twice equals one push with the later time stamp |
| Comparison.ComparisonState.constructor | components/ComparisonView.tsx:44-50 | the list starts as the initial organisation, if any; the state starts valid (at most 3 organisations, distinct codes) |
| Comparison.ComparisonState.AddOrganization | components/ComparisonView.tsx:111-123 | refused with nothing changed when 3 organisations are present or one with the same code is; otherwise appends and clears the search; validity is preserved |
| Comparison.ComparisonState.RemoveOrganization | components/ComparisonView.tsx:125-128 | drops every organisation and every stats entry with the code, changes nothing else, and preserves validity |
| Comparison.RemoveKeepsOthers | components/ComparisonView.tsx:126 | an organisation survives the removal iff it was present with another code; the order is kept |
| Comparison.FilterKeepsDistinct | components/ComparisonView.tsx:126 | filtering keeps the codes pairwise distinct |
| Comparison.ComputeStats | components/ComparisonView.tsx:67-78 | `totalUnits` = units.length and `unitsByType` is the histogram of the units' truthy types; code and name are the organisation's |
| Comparison.NormalizeValue | components/ComparisonView.tsx:344-346 | 0 when max ≤ 0; otherwise the integer nearest to 100·value/max, with halves rounded up |
| Comparison.NormalizeValueEnds | components/ComparisonView.tsx:345 | the maximum normalises to exactly 100 and 0 to exactly 0 |
| Comparison.NormalizeValueBounds | components/ComparisonView.tsx:345 | a value in 0..max normalises into 0..100 |
| Comparison.NormalizeValueMonotone | components/ComparisonView.tsx:345 | a larger value never normalises to a smaller result |
| Comparison.MaxTotal | components/ComparisonView.tsx:149 | `Math.max` over the totals: an upper bound that one organisation attains |
| Comparison.RadarValues | components/ComparisonView.tsx:139-155 | one value per organisation, bearing its name, drawn at its total normalised against the largest total |
| Comparison.RadarValuesOrdered | components/ComparisonView.tsx:139-155 | an organisation with at least as many units is never drawn smaller |
| Comparison.RadarValuesScale | components/ComparisonView.tsx:139-155 | every radar value is in 0..100, and when some total is positive the largest is drawn at 100 |
| Statistics.CountByType | components/StatisticsCard.tsx:42-47 | the `forEach` builds the histogram: a key for each type other than 0 that some unit carries, whose value is the number of units of that type |
| Statistics.UnitStatistics | components/StatisticsCard.tsx:40-53 | `totalUnits` = units.length, and the counts are the histogram of the units' types |
| Statistics.CountOf | components/StatisticsCard.tsx:43-46 | no type is counted more often than there are units |
| Statistics.HistogramPositive | components/StatisticsCard.tsx:43-46 | every stored count is between 1 and totalUnits |
| Statistics.HistogramTotal | components/StatisticsCard.tsx:43-46 | all the counts add up to at most totalUnits |
| Statistics.InsertSorted | components/StatisticsCard.tsx:61 | inserting into an ordered list keeps it ordered by non-increasing count |
| Statistics.SortPermutes | components/StatisticsCard.tsx:61 | sorting is a permutation of the entries |
| Statistics.SortSorted | components/StatisticsCard.tsx:61 | sorting yields non-increasing counts |
| Statistics.UnitTypeData | components/StatisticsCard.tsx:56-62 | at most 5 entries, and exactly min(5, number of types) |
| Statistics.UnitTypeDataLength | components/StatisticsCard.tsx:62 | the chart has five bars, or one per type when there are fewer |
| Statistics.UnitTypeDataSorted | components/StatisticsCard.tsx:61 | the bars are in non-increasing order of count |
| Statistics.UnitTypeDataEntries | components/StatisticsCard.tsx:57-60 | each bar is the label and count of one type of the histogram |
| Statistics.UnitTypeDataTop | components/StatisticsCard.tsx:61-62 | no entry cut off has a larger count than a bar shown: the bars are a top five |
| Statistics.RankedCoversHistogram | components/StatisticsCard.tsx:56-61 | every type of the histogram has its entry among the ranked entries |
| Statistics.KeyListLength | components/StatisticsCard.tsx:56 | a duplicate-free listing of the keys has as many entries as the histogram has types |
| QueryString.DefinedEntries | lib/api.ts:45 | only entries with a defined value remain |
| QueryString.DefinedEntriesExact | lib/api.ts:45 | an entry remains iff its value is defined; the input order is kept |
| QueryString.BuildQueryStringEmpty | lib/api.ts:41-50 | the result is "" iff the record is absent or none of its values is defined |
| QueryString.BuildQueryStringShape | lib/api.ts:47-49 | otherwise the result is "?" followed by the pieces joined with "&" |
| QueryString.QueryStringSplits | lib/api.ts:41-50 | when no key or encoded value holds "&", the text is "?" followed by one `key=encoded value` piece per defined entry, in input order, separated by "&" |
| QueryString.EmptyValueKept | lib/api.ts:45 | an empty-string value is kept as "key=" followed by its encoding |

## Findings

| source | as written | input that shows it | evidently intended | confidence | as-written member | corrected member |
|---|---|---|---|---|---|---|
| components/TreeView.tsx:24-26 | label, code and term are each lowered with `toLowerCase`, which turns a word-final Σ into ς and any other Σ into σ, so a term and its substrings can lower differently | label "ΑΣΒ": the term "ΑΣΒ" lowers to "ασβ" and finds it; its prefix "ΑΣ" lowers to "ας" and finds nothing, so typing one more letter brings the unit back | a case-insensitive search in which every piece of a matching term also matches, e.g. by folding ς to σ after lowering | medium; not executed | TreeFilter.SearchNotMonotone | TreeFilter.FoldedMatchMonotone |

`FilterNode` keeps the source's rule, because it is the behaviour of the program. The folded rule `FoldedMatches` is defined beside it, and two lemmas are proved about it. `FoldedMatchMonotone` shows the folded rule is monotone for every term. `FoldedMatchesMore` shows it finds everything the source's rule finds.

## Left out

- Persistence: the local-storage reads and writes of the favourites hook, and `JSON.parse`, are not modelled. The store starts empty and keeps its lists in memory.
- `alert` calls: `AddOrganization` reports which alert would be shown through its `AddOutcome` result.
- Async and timers are not modelled: the `Promise.all` loading of the comparison view, the search handler, `debounce`, and the stale-closure behaviour of hook callbacks. The hooks are modelled as sequential state.
- `Date.now()` is the parameter `now`.
- The dagre layout and the graph rendering are not modelled. They are a foreign library that repositions the nodes at render time; the model takes `treeToFlow` on its own terms.
- `parentPosition` is passed in explicitly. The source's default (0, 0) is one choice of it.
- The `level` parameter of `treeToFlow` is not modelled, because the source never reads it.
- `downloadFile`, Blob creation, `formatDate`, `exportTreeToCSV` and JSX rendering are not modelled: they are I/O or presentation, and `exportTreeToCSV` has no definition in `lib/utils.ts`.
- Strings.Lower: `toLowerCase` is modelled on three ranges only: the ASCII capitals, the Latin-1 capitals U+00C0..U+00DE (except U+00D7), and the basic and accented Greek capitals U+0386..U+03AB. Every other capital is left as it is, including the rest of the Greek and Coptic block (U+0370, U+0372, U+0376, U+037F, U+03CF, U+03D8..U+03EE, U+03F4, U+03F7, U+03F9, U+03FA, U+03FD..U+03FF). Characters that lower to two characters (such as U+0130) are not modelled either. The final-sigma rule is modelled, but its `Cased` set covers only the ASCII letters, the Latin-1 letters and the Greek letters U+0386..U+03CE. Its `CaseIgnorable` set covers only a few ASCII and Latin-1 marks, the combining diacritics U+0300..U+036F and the Greek tonos marks.
- CsvExport.CsvFieldsSplit: a quoted cell may hold a comma, and the fields are then recovered only by a reader that honours the quotes. The contract is stated for cells without commas.
- CsvExport.Keys: `Object.keys` lists integer-like keys first, in ascending order, and then the other keys in insertion order. The model takes the row as the list that `Object.keys` returns and does not model the reordering.
- QueryString.BuildQueryString: `Object.entries` orders the keys as `Object.keys` does, with integer-like keys first. The model takes the record as the list of entries in that order.
- `encodeURIComponent` and `JSON.stringify` are function parameters. Two facts about them are used, each as a hypothesis of the lemma that needs it. `CsvLineCount` assumes that stringified values hold no raw newline. `QueryStringSplits` assumes that encoded values hold no "&", which `encodeURIComponent` guarantees by writing "&" as %26.
- Statistics.UnitTypeData: the key order of `Object.entries` is given as the parameter `keys`. `keys` is any duplicate-free listing of the histogram's types, so a contract that holds for every order holds for the runtime's order.
- Statistics.SortByCount: the sort is stable, as the JavaScript sort is, but stability is not stated as a contract. The contracts state sortedness and permutation.
- Statistics.UnitTypeData: the unit type of an entry comes from the map key directly; `parseInt` of the key's string form, and non-integer unit types, are not modelled.
- Comparison.NormalizeValue: the floating-point rounding of `Math.round` is not modelled. The value is the exactly rounded integer nearest to 100·value/max, with halves up.
- Comparison.RadarValues: the values are kept as a list of (name, value) pairs. `Object.fromEntries`, which keeps only the last of two organisations with the same name, is not modelled.
- FlowLayout.EdgesFollowNodes: the count of one edge per non-root unit holds only when every unit with children has a non-empty code. `if (parent)` skips the edges of children under an empty code. `EdgeCountBound` states the bound that holds without this assumption.
- Breadcrumbs.GetPathArray: chains are finite values, so there is no cycle in them (the source has no cycle guard either).
- The network layer of `lib/api.ts` (`fetchAPI` and the endpoint objects) and the route handlers are not modelled: they are HTTP proxying.
