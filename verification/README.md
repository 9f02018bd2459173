# Game catalog filter, modelled in Dafny

A model of the catalog provider of a small video-game browser. The provider
holds the unfiltered catalog `games`, the filtered view `filteredGames` and the
stored criteria `filters`. Its one operation with logic, `filterGames`, merges
a partial criteria update into the stored criteria with an object spread. It
then recomputes the view from the unfiltered catalog with up to six
conjunctive `Array.filter` steps: search text, release year, genre, platform,
tag and developer. A step is skipped when its criterion is empty.

Modules:

- `JsText` (`js_text.dfy`): `toLowerCase` (ASCII only), `startsWith` and
  `includes` on strings.
- `Selection` (`selection.dfy`): `Array.filter` on sequences, the sub-sequence
  relation, and the algebra of chained filters (fusion, commutation,
  idempotence).
- `Catalog` (`catalog.dfy`): the `Game` record with its association lists.
  Platform names sit one level deeper, under `platform.name`.
- `Criteria` (`criteria.dfy`): the stored `Filters`, the partial `Update`
  passed to the filter operation, the six `Dimension`s, the initial criteria and the spread
  `Merge`.
- `GameFilter` (`game_filter.dfy`): the six-step chain `FilterGames` and
  what it computes.
- `Provider` (`provider.dfy`): the provider state, the catalog load and the
  filter request.
- `Scenario` (`scenario.dfy`): a two-game catalog run through
  single-dimension requests.

Three behaviours of the code worth noting:

- **Search is not case-insensitive.** At src/context/GameContext.tsx line
  122, `updatedFilters.searchQuery ?? "".toLowerCase()` lowercases only the
  `""` fallback. The query itself stays as typed, so the rule is "the
  lower-cased name contains the query". A query with an ASCII capital (A–Z)
  matches no game (`GameFilter.UpperCaseQueryMatchesNothing`,
  `Scenario.CapitalisedSearchRequest`).
- **Empty means no constraint.** A criterion constrains only when it is a
  non-empty string. This is JavaScript truthiness: `Criteria.Active`.
- **An explicit `undefined` is copied.** The spread copies a key that an
  update writes as `undefined`. That clears the stored criterion, so an update
  key is either `Absent` or `Given(value)`, and the value may be `None`.

## Model

| member | source | states |
|---|---|---|
| JsText.Lower | src/context/GameContext.tsx:122 | the lower-cased name has the same length, lowers each ASCII capital to its partner, keeps every other character, and contains no ASCII capital (A–Z) |
| JsText.Includes | src/context/GameContext.tsx:122 | `includes` holds exactly when the query occurs at some position of the string |
| JsText.StartsWith | src/context/GameContext.tsx:128 | `startsWith` holds exactly when the string is at least as long as the prefix and agrees with it at every position of the prefix |
| JsText.UpperNeverIncludedInLower | src/context/GameContext.tsx:122 | a query containing an ASCII capital (A–Z) is never included in a lower-cased string |
| Catalog.HasName | src/context/GameContext.tsx:133-148 | the `some(e => e.name === v)` test holds exactly when `v` is among the list's names |
| Catalog.HasPlatform | src/context/GameContext.tsx:138 | the `some(p => p.platform.name === v)` test holds exactly when `v` is among the nested platform names |
| Criteria.Active | src/context/GameContext.tsx:120-147 | a criterion guard is false exactly for the two falsy values, `undefined` and `""` |
| Criteria.Initial | src/context/GameContext.tsx:62-69 | the initial criteria hold `""` in every dimension, so none is active |
| Criteria.Merge | src/context/GameContext.tsx:116 | after the spread, a dimension the update omits keeps its previous value; a dimension the update writes takes the written value, `undefined` included |
| Criteria.MergeNoChange | src/context/GameContext.tsx:116 | merging an update that writes no key leaves the criteria unchanged |
| Criteria.MergeIdempotent | src/context/GameContext.tsx:116 | merging the same update twice gives the criteria one merge gives |
| Criteria.MergeThen | src/context/GameContext.tsx:116 | two successive merges equal one merge of the spread of the two updates |
| Criteria.Single | src/components/SearchBar.tsx:27 | the update that writes one dimension, as the search box's `{ searchQuery }` does, omits the other five |
| Criteria.MergeSingle | src/components/SearchBar.tsx:27 | merging a one-dimension update, such as the search box's, sets that dimension and leaves the other five as stored |
| Selection.Filter | src/context/GameContext.tsx:121-148 | `Array.filter` never lengthens the array, and an element is in the result exactly when it is in the input and passes the predicate |
| Selection.FilterCounts | src/context/GameContext.tsx:121-148 | `Array.filter` keeps every copy of a passing element and no copy of a failing one |
| Selection.Kept | src/context/GameContext.tsx:117-149 | the filter's result is embedded in its input at strictly increasing positions |
| Selection.FilterIsSubsequence | src/context/GameContext.tsx:117-149 | a filter's result is a sub-sequence of its input |
| Selection.FilterUnchangedIff | src/context/GameContext.tsx:117-149 | filtering leaves an array unchanged exactly when every element already passes |
| Selection.FilterFuse | src/context/GameContext.tsx:117-149 | two chained filters equal one filter by the conjunction of their predicates |
| Selection.FilterExt | src/context/GameContext.tsx:117-149 | two predicates that agree on the array's elements filter it alike |
| Selection.FilterIdempotent | src/context/GameContext.tsx:117-149 | filtering twice by one predicate equals filtering once |
| Selection.FilterCommute | src/context/GameContext.tsx:117-149 | the order of two chained filters does not change the result |
| GameFilter.Test | src/context/GameContext.tsx:121-148 | each dimension's test: the lower-cased name contains the query as typed at some position; `released` agrees with the year on its first characters; the genre, tag or developer names, or the nested platform names, include the value |
| GameFilter.Step | src/context/GameContext.tsx:120-149 | a guarded step never lengthens the list, keeps exactly the games that pass its dimension, and returns the list unchanged when the criterion is empty |
| GameFilter.FilterGames | src/context/GameContext.tsx:117-149 | the view is no longer than the catalog, and a game is in it exactly when it is in the catalog and satisfies every active criterion |
| GameFilter.StepIsFilter | src/context/GameContext.tsx:120-149 | each guarded step keeps exactly the games that pass its dimension; an empty criterion keeps all |
| GameFilter.ChainIsFilter | src/context/GameContext.tsx:117-149 | a chain of steps over any list of dimensions keeps exactly the games passing all of them, in catalog order |
| GameFilter.FilterGamesIsChain | src/context/GameContext.tsx:117-149 | the six steps are the chain in the order search, year, genre, platform, tag, developer |
| GameFilter.FilterGamesIsConjunction | src/context/GameContext.tsx:117-149 | the view is the catalog filtered once by the conjunction of all active criteria |
| GameFilter.ChainOrderIrrelevant | src/context/GameContext.tsx:117-149 | running the steps in any order that covers every dimension gives the same view |
| GameFilter.FilterGamesSubsequence | src/context/GameContext.tsx:117-149 | the view is a sub-sequence of the catalog: nothing is added and catalog order is kept |
| GameFilter.FilterGamesSound | src/context/GameContext.tsx:120-149 | every game in the view comes from the catalog. With search active, its lower-cased name includes the query. With year active, `released` starts with the year. With genre, platform, tag or developer active, its list has an entry with exactly that name |
| GameFilter.FilterGamesNoCriteria | src/context/GameContext.tsx:62-81 | with no active criterion, including the initial criteria, the view is the whole catalog in order, as the initial view is |
| GameFilter.FilterGamesIdempotent | src/context/GameContext.tsx:117-152 | filtering the view again by the same criteria returns the view unchanged |
| GameFilter.UpperCaseQueryMatchesNothing | src/context/GameContext.tsx:120-124 | an active query containing an ASCII capital (A–Z) empties the view |
| Provider.Mount | src/context/GameContext.tsx:55-69 | on mount the catalog and view are empty and no criterion is active, which is consistent |
| Provider.Request | src/context/GameContext.tsx:114-154 | a request keeps the catalog and merges the update into the criteria. Omitted dimensions are kept and written ones replaced. The new view is the catalog filtered by the merged criteria, a sub-sequence of the catalog |
| Provider.Loaded | src/context/GameContext.tsx:79-81 | a load sets catalog and view to the fetched games and keeps the criteria; the result is consistent exactly when every fetched game satisfies the stored criteria, which holds whenever none is active |
| Provider.RequestIgnoresPreviousView | src/context/GameContext.tsx:117 | the state after a request does not depend on the view it replaces |
| Provider.RequestIdempotent | src/context/GameContext.tsx:116-152 | sending the same update twice leaves the same criteria and view as sending it once |
| Provider.RequestViewIsStable | src/context/GameContext.tsx:116-152 | re-applying the stored criteria to the view a request produced returns that view unchanged |
| Provider.RequestThen | src/context/GameContext.tsx:116-152 | two requests in a row leave the state one request with the spread of both updates leaves |
| Scenario.GenreRequest | src/context/GameContext.tsx:132-134 | over the catalog [Halo, Stardew Valley], genre "shooter" keeps only Halo |
| Scenario.YearRequest | src/context/GameContext.tsx:127-129 | year "2016" keeps only Stardew Valley |
| Scenario.LowerCaseSearchRequest | src/context/GameContext.tsx:120-124 | search "sta" keeps only Stardew Valley |
| Scenario.CapitalisedSearchRequest | src/context/GameContext.tsx:120-124 | search "Sta" keeps nothing |

## Left out

- Network loading (src/context/GameContext.tsx:74-107): the fetches of the
  catalog and taxonomy lists, the HTTP client and the API key are I/O. A
  successful catalog fetch is modelled as `Provider.Loaded`. A failed fetch
  only logs, so the state stays as it was. The taxonomy lists feed only the
  UI. The developer request whose result is never read is not modelled.
- React mechanics: `useState`, the functional `setFilters` updater, the
  context object, and the closure over `games` captured at render time. The
  provider is a pure state record, and a request reads the current catalog.
- JsText.Lower: lower-cases ASCII letters only. Full Unicode `toLowerCase`
  (for example accented capitals) is not modelled.
- JsText.UpperNeverIncludedInLower, GameFilter.UpperCaseQueryMatchesNothing:
  cover ASCII capitals (A–Z) only. Because `Lower` lowers only ASCII, a
  non-ASCII capital such as `É` survives lower-casing in the model, so a
  query `É` keeps a game named `Éclair` that the source would drop.
- Catalog records are assumed to hold every field the `Game` interface
  declares. A record whose `released` or a list is `null` would make the source
  throw inside the filter; the model has no such records.
- src/pages/GameDetail.tsx: the fetch by identifier, the loading and error
  rendering and the page reload after navigation are I/O and UI.
- src/components/SearchBar.tsx: the input box and its state. Its one call
  into the core, `filterGames({ searchQuery })` at line 27, is the update
  `Criteria.Single(SearchQuery, Some(q))`.
- src/components/Filters.tsx, src/pages/Home.tsx, src/App.tsx, src/main.tsx:
  rendering, routing and event wiring. None of them calls the filter
  operation. Filters.tsx passes its `onChange` events to a
  `handleFilterChange` prop that no shown file supplies, and Home.tsx only
  reads the view.
