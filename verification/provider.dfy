/** The catalog provider's state and its two transitions: a successful
    catalog load and a filter request. */
module Provider {
  import opened Catalog
  import opened Criteria
  import opened Selection
  import opened GameFilter

  /** `games` is the unfiltered catalog, `filteredGames` the view consumers
      read, `filters` the stored criteria. */
  datatype State = State(games: seq<Game>, filteredGames: seq<Game>, filters: Filters)

  /** The view is exactly the catalog filtered by the stored criteria. */
  predicate Consistent(s: State) {
    s.filteredGames == FilterGames(s.games, s.filters)
  }

  /** The state when the provider mounts: empty catalog and view, and the
      initial criteria, which constrain nothing. */
  function Mount(): (s: State)
    ensures s.games == [] && s.filteredGames == []
    ensures forall d :: !Active(Get(s.filters, d))
    ensures Consistent(s)
  {
    State([], [], Initial())
  }

  /** A successful catalog fetch: `setGames(results)` and
      `setFilteredGames(results)`. The stored criteria are kept but not
      applied, so the state is consistent exactly when every fetched game
      already satisfies them, which it does whenever none is active, as on
      first mount. A failed fetch only logs and leaves the state as it was. */
  function Loaded(s: State, results: seq<Game>): (r: State)
    ensures r.games == results && r.filteredGames == results && r.filters == s.filters
    ensures Consistent(r) <==> forall g :: g in results ==> Matches(s.filters, g)
    ensures (forall d :: !Active(Get(s.filters, d))) ==> Consistent(r)
  {
    FilterGamesIsConjunction(results, s.filters);
    FilterUnchangedIff(results, g => Matches(s.filters, g));
    s.(games := results, filteredGames := results)
  }

  /** `filterGames(u)`: the criteria become `{ ...filters, ...u }` and the
      view is recomputed from the unfiltered catalog. */
  function Request(s: State, u: Update): (r: State)
    ensures r.games == s.games
    ensures forall d :: At(u, d).Absent? ==> Get(r.filters, d) == Get(s.filters, d)
    ensures forall d :: At(u, d).Given? ==> Get(r.filters, d) == At(u, d).value
    ensures Consistent(r)
    ensures IsSubsequence(r.filteredGames, s.games)
  {
    var merged := Merge(s.filters, u);
    FilterGamesSubsequence(s.games, merged);
    State(s.games, FilterGames(s.games, merged), merged)
  }

  /** The view a request produces depends on the catalog and the criteria,
      never on the view it replaces. */
  lemma RequestIgnoresPreviousView(s: State, view: seq<Game>, u: Update)
    ensures Request(s.(filteredGames := view), u) == Request(s, u)
  {
  }

  /** Sending the same request twice leaves the same criteria and the same
      view as sending it once. */
  lemma RequestIdempotent(s: State, u: Update)
    ensures Request(Request(s, u), u) == Request(s, u)
  {
    MergeIdempotent(s.filters, u);
  }

  /** Re-applying the stored criteria to the view a request produced returns
      that view unchanged. */
  lemma RequestViewIsStable(s: State, u: Update)
    ensures FilterGames(Request(s, u).filteredGames, Request(s, u).filters) == Request(s, u).filteredGames
  {
    FilterGamesIdempotent(s.games, Merge(s.filters, u));
  }

  /** Two requests in a row leave the state one combined request would. */
  lemma RequestThen(s: State, u1: Update, u2: Update)
    ensures Request(Request(s, u1), u2) == Request(s, Then(u1, u2))
  {
    MergeThen(s.filters, u1, u2);
  }
}
