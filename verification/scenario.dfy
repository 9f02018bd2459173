/** A two-game catalog run through single-dimension requests after the
    first load. */
module Scenario {
  import opened Catalog
  import opened Criteria
  import opened GameFilter
  import opened Provider
  import JsText

  function Halo(): Game {
    Game(1, "Halo", "", 97, "2001-11-15", [Named("shooter")], [PlatformEntry(Named("Xbox"))], [], [])
  }

  function Stardew(): Game {
    Game(2, "Stardew Valley", "", 89, "2016-02-26", [Named("rpg")], [PlatformEntry(Named("PC"))], [], [])
  }

  /** The provider right after the catalog `[Halo, Stardew]` loads. */
  function Start(): State {
    Loaded(Mount(), [Halo(), Stardew()])
  }

  /** Selecting the genre "shooter" keeps only Halo. */
  lemma GenreRequest()
    ensures Request(Start(), Single(Genre, Some("shooter"))).filteredGames == [Halo()]
  {
    var r := Request(Start(), Single(Genre, Some("shooter")));
    assert Halo().genres[0].name == "shooter";
    assert !Passes(r.filters, Genre, Stardew());
    ViewIsTheOnlyMatch(Start().games, r.filters, Halo(), Stardew());
  }

  /** Selecting the year "2016" keeps only Stardew Valley. */
  lemma YearRequest()
    ensures Request(Start(), Single(Year, Some("2016"))).filteredGames == [Stardew()]
  {
    var r := Request(Start(), Single(Year, Some("2016")));
    assert "2016-02-26"[..4] == "2016";
    assert "2001-11-15"[..4] != "2016" by { assert "2001-11-15"[..4][2] != "2016"[2]; }
    assert !Passes(r.filters, Year, Halo());
    ViewIsTheOnlyMatch(Start().games, r.filters, Stardew(), Halo());
  }

  /** Searching "sta" keeps only Stardew Valley. */
  lemma LowerCaseSearchRequest()
    ensures Request(Start(), Single(SearchQuery, Some("sta"))).filteredGames == [Stardew()]
  {
    var r := Request(Start(), Single(SearchQuery, Some("sta")));
    JsTextFacts();
    assert !Passes(r.filters, SearchQuery, Halo());
    ViewIsTheOnlyMatch(Start().games, r.filters, Stardew(), Halo());
  }

  /** Searching "Sta" keeps nothing: the query is not lower-cased. */
  lemma CapitalisedSearchRequest()
    ensures Request(Start(), Single(SearchQuery, Some("Sta"))).filteredGames == []
  {
    var r := Request(Start(), Single(SearchQuery, Some("Sta")));
    assert JsText.IsUpper("Sta"[0]);
    UpperCaseQueryMatchesNothing(Start().games, r.filters, 0);
  }

  /** The string facts the search request depends on. */
  lemma JsTextFacts()
    ensures JsText.Includes(JsText.Lower("Stardew Valley"), "sta")
    ensures !JsText.Includes(JsText.Lower("Halo"), "sta")
  {
    var l := JsText.Lower("Stardew Valley");
    assert l[0] == 's' && l[1] == 't' && l[2] == 'a';
    assert JsText.OccursAt(l, "sta", 0);
    var h := JsText.Lower("Halo");
    assert h == "halo";
  }

  /** In a two-game catalog where only `keep` matches, the view is `[keep]`. */
  lemma ViewIsTheOnlyMatch(games: seq<Game>, f: Filters, keep: Game, drop: Game)
    requires (games == [keep, drop] || games == [drop, keep]) && keep != drop
    requires Matches(f, keep) && !Matches(f, drop)
    ensures FilterGames(games, f) == [keep]
  {
    FilterGamesIsConjunction(games, f);
    assert games[1..][1..] == [];
  }
}
