/** The filter criteria: the stored `Filters` object, the partial update
    passed to the filter operation, and the object-spread merge of the two. */
module Criteria {

  datatype Option<T> = None | Some(value: T)

  /** The six criteria dimensions, in the order the filter applies them. */
  datatype Dimension = SearchQuery | Year | Genre | Platform | Tag | Developer

  /** The stored criteria. Every key is optional; `None` stands for a key
      that is missing or holds `undefined` (reading either gives
      `undefined`). */
  datatype Filters = Filters(
    searchQuery: Option<string>,
    year: Option<string>,
    genre: Option<string>,
    platform: Option<string>,
    tag: Option<string>,
    developer: Option<string>)

  /** One key of an update object literal: left out of it, or written into
      it, possibly as `undefined`, which the spread copies like any value. */
  datatype Patch = Absent | Given(value: Option<string>)

  /** The partial criteria object passed to the filter operation. */
  datatype Update = Update(
    searchQuery: Patch,
    year: Patch,
    genre: Patch,
    platform: Patch,
    tag: Patch,
    developer: Patch)

  /** The criterion stored for dimension `d`. */
  function Get(f: Filters, d: Dimension): Option<string> {
    match d
    case SearchQuery => f.searchQuery
    case Year => f.year
    case Genre => f.genre
    case Platform => f.platform
    case Tag => f.tag
    case Developer => f.developer
  }

  /** The key of the update for dimension `d`. */
  function At(u: Update, d: Dimension): Patch {
    match d
    case SearchQuery => u.searchQuery
    case Year => u.year
    case Genre => u.genre
    case Platform => u.platform
    case Tag => u.tag
    case Developer => u.developer
  }

  /** JavaScript truthiness of a `string | undefined` criterion: the two
      falsy values, `undefined` and `""`, leave the catalog unconstrained. */
  function Active(o: Option<string>): (r: bool)
    ensures !r <==> o == None || o == Some("")
  {
    o.Some? && o.value != ""
  }

  /** Two criteria objects that agree on every dimension are the same. */
  lemma FiltersExt(a: Filters, b: Filters)
    requires forall d :: Get(a, d) == Get(b, d)
    ensures a == b
  {
    assert Get(a, SearchQuery) == Get(b, SearchQuery);
    assert Get(a, Year) == Get(b, Year);
    assert Get(a, Genre) == Get(b, Genre);
    assert Get(a, Platform) == Get(b, Platform);
    assert Get(a, Tag) == Get(b, Tag);
    assert Get(a, Developer) == Get(b, Developer);
  }

  /** The criteria the provider starts with: every key holds `""`, so no
      dimension constrains. */
  function Initial(): (f: Filters)
    ensures forall d :: Get(f, d) == Some("")
    ensures forall d :: !Active(Get(f, d))
  {
    Filters(Some(""), Some(""), Some(""), Some(""), Some(""), Some(""))
  }

  /** The spread of one key: a key written in the update wins. */
  function Override(prev: Option<string>, p: Patch): Option<string> {
    match p
    case Absent => prev
    case Given(v) => v
  }

  /** `{ ...prev, ...u }`: every dimension the update leaves out keeps its
      previous value, every dimension the update writes takes the written
      value, `undefined` included. */
  function Merge(prev: Filters, u: Update): (r: Filters)
    ensures forall d :: At(u, d).Absent? ==> Get(r, d) == Get(prev, d)
    ensures forall d :: At(u, d).Given? ==> Get(r, d) == At(u, d).value
  {
    Filters(
      Override(prev.searchQuery, u.searchQuery),
      Override(prev.year, u.year),
      Override(prev.genre, u.genre),
      Override(prev.platform, u.platform),
      Override(prev.tag, u.tag),
      Override(prev.developer, u.developer))
  }

  /** The update that writes only dimension `d`, with value `v`. The search
      box sends `{ searchQuery }`, which is `Single(SearchQuery, Some(q))`;
      no other caller of the filter operation exists. */
  function Single(d: Dimension, v: Option<string>): (u: Update)
    ensures At(u, d) == Given(v)
    ensures forall e :: e != d ==> At(u, e) == Absent
  {
    match d
    case SearchQuery => Update(Given(v), Absent, Absent, Absent, Absent, Absent)
    case Year => Update(Absent, Given(v), Absent, Absent, Absent, Absent)
    case Genre => Update(Absent, Absent, Given(v), Absent, Absent, Absent)
    case Platform => Update(Absent, Absent, Absent, Given(v), Absent, Absent)
    case Tag => Update(Absent, Absent, Absent, Absent, Given(v), Absent)
    case Developer => Update(Absent, Absent, Absent, Absent, Absent, Given(v))
  }

  /** The object literal `{}`: it writes no key. */
  function NoChange(): (u: Update)
    ensures forall d :: At(u, d) == Absent
  {
    Update(Absent, Absent, Absent, Absent, Absent, Absent)
  }

  /** `{ ...u1, ...u2 }` for two update literals. */
  function Then(u1: Update, u2: Update): (u: Update)
    ensures forall d :: At(u, d) == (if At(u2, d).Given? then At(u2, d) else At(u1, d))
  {
    Update(
      if u2.searchQuery.Given? then u2.searchQuery else u1.searchQuery,
      if u2.year.Given? then u2.year else u1.year,
      if u2.genre.Given? then u2.genre else u1.genre,
      if u2.platform.Given? then u2.platform else u1.platform,
      if u2.tag.Given? then u2.tag else u1.tag,
      if u2.developer.Given? then u2.developer else u1.developer)
  }

  /** Merging the empty update changes nothing. */
  lemma MergeNoChange(prev: Filters)
    ensures Merge(prev, NoChange()) == prev
  {
    FiltersExt(Merge(prev, NoChange()), prev);
  }

  /** Merging the same update a second time changes nothing more. */
  lemma MergeIdempotent(prev: Filters, u: Update)
    ensures Merge(Merge(prev, u), u) == Merge(prev, u)
  {
    FiltersExt(Merge(Merge(prev, u), u), Merge(prev, u));
  }

  /** Two successive merges are one merge of the combined update. */
  lemma MergeThen(prev: Filters, u1: Update, u2: Update)
    ensures Merge(Merge(prev, u1), u2) == Merge(prev, Then(u1, u2))
  {
    FiltersExt(Merge(Merge(prev, u1), u2), Merge(prev, Then(u1, u2)));
  }

  /** A single-dimension update sets that dimension and leaves every other
      dimension as it was. */
  lemma MergeSingle(prev: Filters, d: Dimension, v: Option<string>)
    ensures Get(Merge(prev, Single(d, v)), d) == v
    ensures forall e :: e != d ==> Get(Merge(prev, Single(d, v)), e) == Get(prev, e)
  {
  }
}
