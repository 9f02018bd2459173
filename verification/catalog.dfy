/** The game record as the catalog holds it, and the name-membership tests
    the filter runs on its association lists. */
module Catalog {

  /** An entry of a name-bearing association list (`{ name: string }`). */
  datatype Named = Named(name: string)

  /** An entry of the platform list, whose name sits one level deeper
      (`{ platform: { name: string } }`). */
  datatype PlatformEntry = PlatformEntry(platform: Named)

  /** One game of the catalog. */
  datatype Game = Game(
    id: int,
    name: string,
    backgroundImage: string,
    metacritic: int,
    released: string,
    genres: seq<Named>,
    platforms: seq<PlatformEntry>,
    tags: seq<Named>,
    developers: seq<Named>)

  /** The names of a name-bearing association list, in order. */
  function Names(list: seq<Named>): (r: seq<string>)
    ensures |r| == |list|
    ensures forall i :: 0 <= i < |list| ==> r[i] == list[i].name
  {
    seq(|list|, i requires 0 <= i < |list| => list[i].name)
  }

  /** The platform names of a platform list, in order. */
  function PlatformNames(list: seq<PlatformEntry>): (r: seq<string>)
    ensures |r| == |list|
    ensures forall i :: 0 <= i < |list| ==> r[i] == list[i].platform.name
  {
    seq(|list|, i requires 0 <= i < |list| => list[i].platform.name)
  }

  /** `list.some(e => e.name === v)`: `v` is one of the list's names. */
  function HasName(list: seq<Named>, v: string): (r: bool)
    ensures r <==> v in Names(list)
  {
    exists i :: 0 <= i < |list| && list[i].name == v
  }

  /** `list.some(p => p.platform.name === v)`: `v` is one of the nested
      platform names. */
  function HasPlatform(list: seq<PlatformEntry>, v: string): (r: bool)
    ensures r <==> v in PlatformNames(list)
  {
    exists i :: 0 <= i < |list| && list[i].platform.name == v
  }
}
