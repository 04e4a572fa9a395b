/** The resource library of the second site: the category list with counts,
    built from the categories present in the catalog, and the category plus
    search filter. */
module ResourceLibrary {
  import opened Seqs
  import opened Text
  import opened Games
  import GameCategories

  // ---------------------------------------------------------------------
  // Categories and their counts
  // ---------------------------------------------------------------------

  /** `uniqueCategories`: each catalog category once, in order of first
      appearance. */
  function UniqueCategories(catalog: seq<GameResource>): (u: seq<string>)
    ensures NoDup(u)
    ensures forall c :: c in u ==> c in Categories(catalog)
    ensures forall c :: c in Categories(catalog) ==> c in u
  {
    Distinct(Categories(catalog))
  }

  /** The order of `uniqueCategories` is the order in which the categories
      first appear in the catalog. */
  lemma UniqueCategoriesInOrder(catalog: seq<GameResource>, i: int, j: int)
    requires 0 <= i < j < |UniqueCategories(catalog)|
    ensures IndexOf(Categories(catalog), UniqueCategories(catalog)[i])
          < IndexOf(Categories(catalog), UniqueCategories(catalog)[j])
  {
    DistinctFirstAppearance(Categories(catalog), i, j);
  }

  datatype CategoryEntry = CategoryEntry(id: string, name: string, count: nat)

  /** The entry of one category: its id, the id capitalised, and the number
      of catalog games in it. */
  function EntryFor(c: string, catalog: seq<GameResource>): CategoryEntry
  {
    CategoryEntry(c, Capitalize(c), Count(catalog, HasCategory(c)))
  }

  function EntriesFor(cats: seq<string>, catalog: seq<GameResource>): (es: seq<CategoryEntry>)
    ensures |es| == |cats|
    ensures forall k :: 0 <= k < |cats| ==> es[k] == EntryFor(cats[k], catalog)
  {
    if cats == [] then [] else [EntryFor(cats[0], catalog)] + EntriesFor(cats[1..], catalog)
  }

  /** `CATEGORIES`: "all" with the catalog length, then one entry per unique
      category with its capitalised name and its number of games. */
  function CategoryEntries(catalog: seq<GameResource>): (es: seq<CategoryEntry>)
    ensures |es| == 1 + |UniqueCategories(catalog)|
    ensures es[0] == CategoryEntry("all", "All Games", |catalog|)
    ensures forall k :: 1 <= k < |es| ==>
      var c := UniqueCategories(catalog)[k - 1];
      es[k].id == c && es[k].name == Capitalize(c) && es[k].count == Count(catalog, HasCategory(c))
  {
    [CategoryEntry("all", "All Games", |catalog|)] + EntriesFor(UniqueCategories(catalog), catalog)
  }

  /** The sum of the counts of a list of entries. */
  function TotalCount(es: seq<CategoryEntry>): int
  {
    if es == [] then 0 else es[0].count + TotalCount(es[1..])
  }

  /** A game appended to the catalog adds one to the total over a list of
      distinct categories when its category is listed, nothing otherwise. */
  lemma {:induction false} TotalCountAppendGame(cats: seq<string>, t: seq<GameResource>, y: GameResource)
    requires NoDup(cats)
    ensures TotalCount(EntriesFor(cats, t + [y])) ==
            TotalCount(EntriesFor(cats, t)) + (if y.category in cats then 1 else 0)
  {
    if cats != [] {
      assert NoDup(cats[1..]) by {
        forall i, j | 0 <= i < j < |cats[1..]|
          ensures cats[1..][i] != cats[1..][j]
        {
          assert cats[1..][i] == cats[i + 1] && cats[1..][j] == cats[j + 1];
        }
      }
      TotalCountAppendGame(cats[1..], t, y);
      FilterConcat(t, [y], HasCategory(cats[0]));
      assert y.category in cats <==> y.category == cats[0] || y.category in cats[1..];
      assert y.category == cats[0] ==> y.category !in cats[1..];
    }
  }

  /** A category appended to the list adds its count to the total. */
  lemma {:induction false} TotalCountAppendCategory(cats: seq<string>, c: string, s: seq<GameResource>)
    ensures TotalCount(EntriesFor(cats + [c], s)) == TotalCount(EntriesFor(cats, s)) + Count(s, HasCategory(c))
  {
    if cats == [] {
      assert EntriesFor([c], s) == [EntryFor(c, s)];
    } else {
      assert (cats + [c])[1..] == cats[1..] + [c];
      TotalCountAppendCategory(cats[1..], c, s);
    }
  }

  /** No game of a category absent from the catalog. */
  lemma CountAbsentCategory(s: seq<GameResource>, c: string)
    requires c !in Categories(s)
    ensures Count(s, HasCategory(c)) == 0
  {
    forall g | g in s
      ensures !HasCategory(c)(g)
    {
      var k :| 0 <= k < |s| && s[k] == g;
      assert Categories(s)[k] == g.category;
    }
    FilterNone(s, HasCategory(c));
  }

  /** A game appended to the catalog appends its category to the unique
      categories when it is new there. */
  lemma UniqueCategoriesAppend(t: seq<GameResource>, y: GameResource)
    ensures UniqueCategories(t + [y]) ==
      if y.category in UniqueCategories(t) then UniqueCategories(t) else UniqueCategories(t) + [y.category]
  {
    var cats := Categories(t + [y]);
    assert (t + [y])[..|t|] == t;
    assert cats[..|cats| - 1] == Categories(t);
    assert cats[|cats| - 1] == y.category;
  }

  /** Appending a game of a category new to the catalog keeps the total
      equal to the catalog length. */
  lemma TotalCountNewCategory(t: seq<GameResource>, y: GameResource)
    requires y.category !in UniqueCategories(t)
    requires TotalCount(EntriesFor(UniqueCategories(t), t)) == |t|
    ensures TotalCount(EntriesFor(UniqueCategories(t) + [y.category], t + [y])) == |t| + 1
  {
    var d := UniqueCategories(t);
    TotalCountAppendCategory(d, y.category, t + [y]);
    TotalCountAppendGame(d, t, y);
    CountAbsentCategory(t, y.category);
    FilterConcat(t, [y], HasCategory(y.category));
  }

  /** Over the unique categories, the per-category counts add up to the
      catalog length. */
  lemma {:induction false} UniqueCountsSum(catalog: seq<GameResource>)
    ensures TotalCount(EntriesFor(UniqueCategories(catalog), catalog)) == |catalog|
    decreases |catalog|
  {
    if catalog != [] {
      var t := catalog[..|catalog| - 1];
      var y := catalog[|catalog| - 1];
      assert catalog == t + [y];
      UniqueCountsSum(t);
      UniqueCategoriesAppend(t, y);
      if y.category !in UniqueCategories(t) {
        TotalCountNewCategory(t, y);
      } else {
        TotalCountAppendGame(UniqueCategories(t), t, y);
      }
    }
  }

  /** The counts after "all" add up to the "all" count. */
  lemma CategoryCountsSum(catalog: seq<GameResource>)
    ensures TotalCount(CategoryEntries(catalog)[1..]) == CategoryEntries(catalog)[0].count
  {
    assert CategoryEntries(catalog)[1..] == EntriesFor(UniqueCategories(catalog), catalog);
    UniqueCountsSum(catalog);
  }

  // ---------------------------------------------------------------------
  // The filter
  // ---------------------------------------------------------------------

  /** The library's search: a lowercased query in the lowercased title,
      description or category; the developer is not searched. */
  function LibraryHit(query: string): GameResource -> bool
  {
    (g: GameResource) => Contains(Lower(g.title), query) || Contains(Lower(g.description), query) ||
                         Contains(Lower(g.category), query)
  }

  predicate LibrarySearchOk(query: string, g: GameResource)
  {
    Trim(query) == "" || LibraryHit(Lower(query))(g)
  }

  /** A resource is listed when it passes the tab rule and the search. */
  function LibraryKeep(category: string, query: string): GameResource -> bool
  {
    g => GameCategories.CategoryOk(category, g) && LibrarySearchOk(query, g)
  }

  /** The tab step of the effect. */
  function ByTab(catalog: seq<GameResource>, category: string): (r: seq<GameResource>)
    ensures r == Filter(catalog, GameCategories.TabRule(category))
  {
    if category != "all" then
      if category == "featured" then
        FilterAgree(catalog, GameCategories.IsFeatured, GameCategories.TabRule(category));
        Filter(catalog, GameCategories.IsFeatured)
      else if category == "new" then
        FilterAgree(catalog, GameCategories.IsNew, GameCategories.TabRule(category));
        Filter(catalog, GameCategories.IsNew)
      else
        FilterAgree(catalog, HasCategory(category), GameCategories.TabRule(category));
        Filter(catalog, HasCategory(category))
    else
      FilterAll(catalog, GameCategories.TabRule(category));
      catalog
  }

  /** The filter effect: the tab step, then the search step when the query
      is not blank. The list is the catalog filtered by both rules, in
      catalog order. */
  function FilterResources(catalog: seq<GameResource>, category: string, query: string): (result: seq<GameResource>)
    ensures result == Filter(catalog, LibraryKeep(category, query))
    ensures IsSubsequence(result, catalog)
    ensures forall g :: g in result <==>
      g in catalog && GameCategories.CategoryOk(category, g) && LibrarySearchOk(query, g)
  {
    FilterIsSubsequence(catalog, LibraryKeep(category, query));
    FilterMembers(catalog, LibraryKeep(category, query));
    var byTab := ByTab(catalog, category);
    if Trim(query) != "" then
      FilterFilterAgree(catalog, GameCategories.TabRule(category), LibraryHit(Lower(query)), LibraryKeep(category, query));
      Filter(byTab, LibraryHit(Lower(query)))
    else
      FilterAgree(catalog, GameCategories.TabRule(category), LibraryKeep(category, query));
      byTab
  }

  /** Whether a game matches the library's search does not depend on its
      developer. */
  lemma SearchIgnoresDeveloper(query: string, g: GameResource, developer: string)
    ensures LibrarySearchOk(query, g) == LibrarySearchOk(query, g.(developer := developer))
  {
  }

  /** `clearFilters`: back to the "all" tab with an empty query. */
  function ClearFilters(): (r: (string, string))
    ensures r == ("all", "")
  {
    ("all", "")
  }

  /** After `clearFilters` the whole catalog is listed, in order. */
  lemma ClearFiltersShowsAll(catalog: seq<GameResource>)
    ensures FilterResources(catalog, ClearFilters().0, ClearFilters().1) == catalog
  {
    TrimBlank("");
    FilterAll(catalog, LibraryKeep("all", ""));
  }
}
