/** The catalog filter: six conjunctive steps over the unfiltered catalog,
    each skipped when its criterion is empty, and what they compute. */
module GameFilter {
  import opened JsText
  import opened Catalog
  import opened Criteria
  import opened Selection

  /** The test an active criterion with value `v` applies to a game. The
      search test lower-cases the name but compares it with the query as
      typed. */
  function Test(d: Dimension, v: string, g: Game): (r: bool)
    ensures d == SearchQuery ==> (r <==> exists k :: OccursAt(Lower(g.name), v, k))
    ensures d == Year ==> (r <==> |v| <= |g.released| && forall i :: 0 <= i < |v| ==> g.released[i] == v[i])
    ensures d == Genre ==> (r <==> v in Names(g.genres))
    ensures d == Platform ==> (r <==> v in PlatformNames(g.platforms))
    ensures d == Tag ==> (r <==> v in Names(g.tags))
    ensures d == Developer ==> (r <==> v in Names(g.developers))
  {
    match d
    case SearchQuery => Includes(Lower(g.name), v)
    case Year => StartsWith(g.released, v)
    case Genre => HasName(g.genres, v)
    case Platform => HasPlatform(g.platforms, v)
    case Tag => HasName(g.tags, v)
    case Developer => HasName(g.developers, v)
  }

  /** `if (f[d]) filtered = filtered.filter(...)`: one step of the chain. It
      keeps, in order, the games that pass dimension `d`, and all of them when
      the criterion is empty. */
  function Step(s: seq<Game>, f: Filters, d: Dimension): (r: seq<Game>)
    ensures |r| <= |s|
    ensures forall g :: g in r <==> g in s && Passes(f, d, g)
    ensures !Active(Get(f, d)) ==> r == s
  {
    if Active(Get(f, d)) then
      var v := Get(f, d).value;
      Filter(s, g => Test(d, v, g))
    else
      s
  }

  /** The filtered view: starting from the whole catalog `games`, the search,
      year, genre, platform, tag and developer steps, in that order. A game
      is in the view exactly when it is in the catalog and satisfies every
      active criterion. */
  function FilterGames(games: seq<Game>, f: Filters): (r: seq<Game>)
    ensures |r| <= |games|
    ensures forall g :: g in r <==> g in games && Matches(f, g)
  {
    var bySearch := Step(games, f, SearchQuery);
    var byYear := Step(bySearch, f, Year);
    var byGenre := Step(byYear, f, Genre);
    var byPlatform := Step(byGenre, f, Platform);
    var byTag := Step(byPlatform, f, Tag);
    var byDeveloper := Step(byTag, f, Developer);
    MatchesIsSixPasses(f);
    byDeveloper
  }

  /** Game `g` satisfies the criterion of dimension `d`, or that criterion
      is empty. */
  predicate Passes(f: Filters, d: Dimension, g: Game) {
    !Active(Get(f, d)) || Test(d, Get(f, d).value, g)
  }

  /** Game `g` satisfies every active criterion. */
  predicate Matches(f: Filters, g: Game) {
    forall d :: Passes(f, d, g)
  }

  /** Matching is passing each of the six dimensions. */
  lemma MatchesIsSixPasses(f: Filters)
    ensures forall g :: Matches(f, g) <==>
      Passes(f, SearchQuery, g) && Passes(f, Year, g) && Passes(f, Genre, g) &&
      Passes(f, Platform, g) && Passes(f, Tag, g) && Passes(f, Developer, g)
  {
    forall g, d | Passes(f, SearchQuery, g) && Passes(f, Year, g) && Passes(f, Genre, g) &&
        Passes(f, Platform, g) && Passes(f, Tag, g) && Passes(f, Developer, g)
      ensures Passes(f, d, g)
    {
      match d
      case SearchQuery =>
      case Year =>
      case Genre =>
      case Platform =>
      case Tag =>
      case Developer =>
    }
  }

  /** Game `g` satisfies the criteria of every dimension listed in `ds`. */
  predicate PassesAll(f: Filters, ds: seq<Dimension>, g: Game) {
    forall i :: 0 <= i < |ds| ==> Passes(f, ds[i], g)
  }

  /** The steps for the dimensions `ds`, applied in the order listed. */
  function Chain(s: seq<Game>, f: Filters, ds: seq<Dimension>): seq<Game>
    decreases |ds|
  {
    if |ds| == 0 then s else Chain(Step(s, f, ds[0]), f, ds[1..])
  }

  /** The order the source applies the steps in. */
  const SourceOrder: seq<Dimension> := [SearchQuery, Year, Genre, Platform, Tag, Developer]

  /** One step keeps exactly the games that pass its dimension. */
  lemma StepIsFilter(s: seq<Game>, f: Filters, d: Dimension)
    ensures Step(s, f, d) == Filter(s, g => Passes(f, d, g))
  {
    if Active(Get(f, d)) {
      var v := Get(f, d).value;
      FilterExt(s, g => Test(d, v, g), g => Passes(f, d, g));
    } else {
      FilterUnchangedIff(s, g => Passes(f, d, g));
    }
  }

  /** Chaining the steps for `ds`, in any order, keeps exactly the games that
      pass every listed dimension, in catalog order. */
  lemma {:induction false} ChainIsFilter(s: seq<Game>, f: Filters, ds: seq<Dimension>)
    ensures Chain(s, f, ds) == Filter(s, g => PassesAll(f, ds, g))
    decreases |ds|
  {
    if |ds| == 0 {
      FilterUnchangedIff(s, g => PassesAll(f, ds, g));
    } else {
      var d := ds[0];
      var p := g => Passes(f, d, g);
      var q := g => PassesAll(f, ds[1..], g);
      StepIsFilter(s, f, d);
      assert Step(s, f, d) == Filter(s, p);
      ChainIsFilter(Step(s, f, d), f, ds[1..]);
      assert Chain(s, f, ds) == Filter(Filter(s, p), q);
      forall g | g in s
        ensures (p(g) && q(g)) == PassesAll(f, ds, g)
      {
        if p(g) && q(g) {
          forall i | 0 <= i < |ds|
            ensures Passes(f, ds[i], g)
          {
            if i > 0 {
              assert ds[i] == ds[1..][i - 1];
            }
          }
        }
        if PassesAll(f, ds, g) {
          assert Passes(f, ds[0], g);
          forall i | 0 <= i < |ds[1..]|
            ensures Passes(f, ds[1..][i], g)
          {
            assert ds[1..][i] == ds[i + 1];
          }
        }
      }
      FilterFuse(s, p, q, g => PassesAll(f, ds, g));
    }
  }

  /** The six steps as the source writes them are the chain in source
      order. */
  lemma FilterGamesIsChain(games: seq<Game>, f: Filters)
    ensures FilterGames(games, f) == Chain(games, f, SourceOrder)
  {
    var s := SourceOrder;
    assert s[1..][1..][1..][1..][1..][1..] == [];
  }

  /** Exact characterisation: the filtered view is the catalog filtered once
      by the conjunction of all active criteria. */
  lemma FilterGamesIsConjunction(games: seq<Game>, f: Filters)
    ensures FilterGames(games, f) == Filter(games, g => Matches(f, g))
  {
    FilterGamesIsChain(games, f);
    ChainIsFilter(games, f, SourceOrder);
    forall g | g in games
      ensures PassesAll(f, SourceOrder, g) == Matches(f, g)
    {
      if PassesAll(f, SourceOrder, g) {
        forall d
          ensures Passes(f, d, g)
        {
          match d
          case SearchQuery => assert SourceOrder[0] == d;
          case Year => assert SourceOrder[1] == d;
          case Genre => assert SourceOrder[2] == d;
          case Platform => assert SourceOrder[3] == d;
          case Tag => assert SourceOrder[4] == d;
          case Developer => assert SourceOrder[5] == d;
        }
      }
    }
    FilterExt(games, g => PassesAll(f, SourceOrder, g), g => Matches(f, g));
  }

  /** The steps may run in any order that lists every dimension: the view is
      the same as the source's order gives. */
  lemma ChainOrderIrrelevant(games: seq<Game>, f: Filters, ds: seq<Dimension>)
    requires forall d :: d in ds
    ensures Chain(games, f, ds) == FilterGames(games, f)
  {
    ChainIsFilter(games, f, ds);
    FilterGamesIsConjunction(games, f);
    forall g | g in games
      ensures PassesAll(f, ds, g) == Matches(f, g)
    {
      if PassesAll(f, ds, g) {
        forall d
          ensures Passes(f, d, g)
        {
          assert d in ds;
          var i :| 0 <= i < |ds| && ds[i] == d;
          assert Passes(f, ds[i], g);
        }
      }
    }
    FilterExt(games, g => PassesAll(f, ds, g), g => Matches(f, g));
  }

  /** The view is a sub-sequence of the catalog: nothing is added and the
      catalog's order is kept. */
  lemma FilterGamesSubsequence(games: seq<Game>, f: Filters)
    ensures IsSubsequence(FilterGames(games, f), games)
  {
    FilterGamesIsConjunction(games, f);
    FilterIsSubsequence(games, g => Matches(f, g));
  }

  /** What each active criterion guarantees of every game in the view. */
  lemma FilterGamesSound(games: seq<Game>, f: Filters, g: Game)
    requires g in FilterGames(games, f)
    ensures g in games
    ensures Active(f.searchQuery) ==> Includes(Lower(g.name), f.searchQuery.value)
    ensures Active(f.year) ==> StartsWith(g.released, f.year.value)
    ensures Active(f.genre) ==> HasName(g.genres, f.genre.value)
    ensures Active(f.platform) ==> HasPlatform(g.platforms, f.platform.value)
    ensures Active(f.tag) ==> HasName(g.tags, f.tag.value)
    ensures Active(f.developer) ==> HasName(g.developers, f.developer.value)
  {
    assert Passes(f, SearchQuery, g) && Passes(f, Year, g) && Passes(f, Genre, g);
    assert Passes(f, Platform, g) && Passes(f, Tag, g) && Passes(f, Developer, g);
  }

  /** With no active criterion the view is the whole catalog, in order; in
      particular the initial criteria give the initial view. */
  lemma FilterGamesNoCriteria(games: seq<Game>, f: Filters)
    requires forall d :: !Active(Get(f, d))
    ensures FilterGames(games, f) == games
    ensures FilterGames(games, Initial()) == games
  {
    FilterGamesIsConjunction(games, f);
    FilterUnchangedIff(games, g => Matches(f, g));
    FilterGamesIsConjunction(games, Initial());
    FilterUnchangedIff(games, g => Matches(Initial(), g));
  }

  /** Filtering an already filtered view by the same criteria returns it
      unchanged. */
  lemma FilterGamesIdempotent(games: seq<Game>, f: Filters)
    ensures FilterGames(FilterGames(games, f), f) == FilterGames(games, f)
  {
    FilterGamesIsConjunction(games, f);
    FilterGamesIsConjunction(FilterGames(games, f), f);
    FilterIdempotent(games, g => Matches(f, g));
  }

  /** The search compares the lower-cased name with the query as typed, so
      an active query holding an ASCII capital (A-Z) empties the view. */
  lemma UpperCaseQueryMatchesNothing(games: seq<Game>, f: Filters, i: int)
    requires f.searchQuery.Some? && 0 <= i < |f.searchQuery.value|
    requires IsUpper(f.searchQuery.value[i])
    ensures FilterGames(games, f) == []
  {
    if FilterGames(games, f) != [] {
      var g := FilterGames(games, f)[0];
      FilterGamesSound(games, f, g);
      UpperNeverIncludedInLower(g.name, f.searchQuery.value, i);
    }
  }
}
