/** The game record of the catalog (`GameResource`), restricted to the fields
    the filtering, sorting and ranking code reads. */
module Games {

  /** `featured` and `new` are optional in the record; an absent flag is falsy
      wherever the pages test it, so both are plain booleans here. `new` is a
      Dafny keyword and is called `isNew`. Ratings are real numbers. */
  datatype GameResource = GameResource(
    id: string,
    title: string,
    category: string,
    description: string,
    rating: real,
    unlocks: int,
    featured: bool,
    isNew: bool,
    developer: string,
    platforms: seq<string>)

  /** The ids of a list of games, in order (`games.map(game => game.id)`). */
  function Ids(games: seq<GameResource>): (ids: seq<string>)
    ensures |ids| == |games|
    ensures forall i :: 0 <= i < |games| ==> ids[i] == games[i].id
  {
    seq(|games|, i requires 0 <= i < |games| => games[i].id)
  }

  /** An id is listed exactly when some game of the list has it. */
  lemma IdsMembers(games: seq<GameResource>, id: string)
    ensures id in Ids(games) <==> exists g :: g in games && g.id == id
  {
    if id in Ids(games) {
      var k :| 0 <= k < |games| && Ids(games)[k] == id;
      assert games[k] in games;
    }
    if exists g :: g in games && g.id == id {
      var g :| g in games && g.id == id;
      var k :| 0 <= k < |games| && games[k] == g;
      assert Ids(games)[k] == id;
    }
  }

  /** The categories of a list of games, in order (`games.map(game => game.category)`). */
  function Categories(games: seq<GameResource>): (cats: seq<string>)
    ensures |cats| == |games|
    ensures forall i :: 0 <= i < |games| ==> cats[i] == games[i].category
  {
    seq(|games|, i requires 0 <= i < |games| => games[i].category)
  }

  /** The games of one category, as a filter predicate. */
  function HasCategory(c: string): GameResource -> bool
  {
    (g: GameResource) => g.category == c
  }
}
