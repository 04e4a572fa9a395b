/** The recommendations page's mount effect: which games the visitor has
    downloaded, how often each category occurs among the downloaded and
    wishlisted games, and the visitor's top three categories. */
module Recommendations {
  import opened Seqs
  import opened Games

  // ---------------------------------------------------------------------
  // Downloaded and favourite games
  // ---------------------------------------------------------------------

  /** `localStorage.getItem(key) === 'true'`, over the store as a map. */
  predicate StoreSaysTrue(store: map<string, string>, key: string)
  {
    key in store && store[key] == "true"
  }

  /** The download flag of a game id: `unlocked_<id>` is `'true'`. */
  predicate Downloaded(store: map<string, string>, id: string)
  {
    StoreSaysTrue(store, "unlocked_" + id)
  }

  function IsUnlocked(store: map<string, string>): GameResource -> bool
  {
    (g: GameResource) => Downloaded(store, g.id)
  }

  /** `downloadedGameIds`: the ids of the catalog games whose `unlocked_<id>`
      entry is `'true'`, in catalog order. */
  function DownloadedIds(catalog: seq<GameResource>, store: map<string, string>): (ids: seq<string>)
    ensures forall id :: id in ids <==>
      exists k :: 0 <= k < |catalog| && catalog[k].id == id && Downloaded(store, id)
    ensures IsSubsequence(Filter(catalog, IsUnlocked(store)), catalog)
    ensures ids == Ids(Filter(catalog, IsUnlocked(store)))
  {
    var unlocked := Filter(catalog, IsUnlocked(store));
    FilterIsSubsequence(catalog, IsUnlocked(store));
    forall id
      ensures id in Ids(unlocked) <==>
        exists k :: 0 <= k < |catalog| && catalog[k].id == id && Downloaded(store, id)
    {
      DownloadedIdMember(catalog, store, id);
    }
    Ids(unlocked)
  }

  /** An id is downloaded exactly when a catalog game with that id has its
      `unlocked_<id>` entry set. */
  lemma DownloadedIdMember(catalog: seq<GameResource>, store: map<string, string>, id: string)
    ensures id in Ids(Filter(catalog, IsUnlocked(store))) <==>
      exists k :: 0 <= k < |catalog| && catalog[k].id == id && Downloaded(store, id)
  {
    var unlocked := Filter(catalog, IsUnlocked(store));
    FilterMembers(catalog, IsUnlocked(store));
    IdsMembers(unlocked, id);
    if id in Ids(unlocked) {
      var g :| g in unlocked && g.id == id;
      assert g in catalog && IsUnlocked(store)(g);
      var k :| 0 <= k < |catalog| && catalog[k] == g;
      assert catalog[k].id == id && Downloaded(store, id);
    } else {
      forall k | 0 <= k < |catalog| && catalog[k].id == id
        ensures !Downloaded(store, id)
      {
        assert catalog[k] in catalog;
        assert catalog[k] !in unlocked;
      }
    }
  }

  /** A catalog game counts when its id is downloaded or wishlisted. */
  function IsFavourite(downloaded: seq<string>, wishlist: seq<string>): GameResource -> bool
  {
    (g: GameResource) => g.id in downloaded || g.id in wishlist
  }

  /** The games the categories are counted over, each once, in catalog order. */
  function Favourites(catalog: seq<GameResource>, downloaded: seq<string>, wishlist: seq<string>): seq<GameResource>
  {
    Filter(catalog, IsFavourite(downloaded, wishlist))
  }

  /** Wishlist ids that name no catalog game change nothing. */
  lemma ForeignWishlistIdsIgnored(catalog: seq<GameResource>, downloaded: seq<string>, wishlist: seq<string>)
    ensures Favourites(catalog, downloaded, wishlist) ==
            Favourites(catalog, downloaded, Filter(wishlist, (id: string) => id in Ids(catalog)))
  {
    var known := Filter(wishlist, (id: string) => id in Ids(catalog));
    FilterMembers(wishlist, (id: string) => id in Ids(catalog));
    forall g | g in catalog
      ensures IsFavourite(downloaded, wishlist)(g) == IsFavourite(downloaded, known)(g)
    {
      var k :| 0 <= k < |catalog| && catalog[k] == g;
      assert Ids(catalog)[k] == g.id;
    }
    FilterAgree(catalog, IsFavourite(downloaded, wishlist), IsFavourite(downloaded, known));
  }

  // ---------------------------------------------------------------------
  // Counting categories
  // ---------------------------------------------------------------------

  /** `keys` and `counts` describe the `favoriteCategories` map after the
      games of `s`: the keys are the distinct categories of `s` in order of
      first appearance, and each key maps to its (positive) number of games. */
  ghost predicate Tallied(s: seq<GameResource>, keys: seq<string>, counts: map<string, int>)
  {
    && keys == Distinct(Categories(s))
    && (forall c :: c in counts <==> c in keys)
    && (forall c :: c in counts ==> counts[c] == Count(s, HasCategory(c)) >= 1)
  }

  /** The `favoriteCategories` map filled by the `forEach`: its keys in
      insertion order, and for each key the number of favourite games of that
      category. */
  method CountFavoriteCategories(favourites: seq<GameResource>) returns (keys: seq<string>, counts: map<string, int>)
    ensures keys == Distinct(Categories(favourites))
    ensures forall c :: c in counts <==> c in keys
    ensures forall c :: c in counts ==> counts[c] == Count(favourites, HasCategory(c))
  {
    keys, counts := [], map[];
    var i := 0;
    ghost var done: seq<GameResource> := [];
    while i < |favourites|
      invariant 0 <= i <= |favourites|
      invariant done == favourites[..i]
      invariant Tallied(done, keys, counts)
    {
      var game := favourites[i];
      assert done + [game] == favourites[..i + 1];
      ghost var keys0, counts0 := keys, counts;
      var count := if game.category in counts && counts[game.category] != 0 then counts[game.category] else 0;
      if game.category !in counts {
        keys := keys + [game.category];
      }
      counts := counts[game.category := count + 1];
      TallyStep(done, game, keys0, counts0, keys, counts);
      done := done + [game];
      i := i + 1;
    }
    assert done == favourites;
  }

  /** A category not among the distinct categories has no game. */
  lemma CountAbsent(s: seq<GameResource>, c: string)
    requires c !in Distinct(Categories(s))
    ensures Count(s, HasCategory(c)) == 0
  {
    forall g | g in s
      ensures !HasCategory(c)(g)
    {
      var k :| 0 <= k < |s| && s[k] == g;
      assert Categories(s)[k] == g.category;
    }
    FilterNone(s, HasCategory(c));
  }

  /** A game's category joins the distinct categories when it is new. */
  lemma DistinctStep(s: seq<GameResource>, g: GameResource)
    ensures var d := Distinct(Categories(s));
      Distinct(Categories(s + [g])) == if g.category in d then d else d + [g.category]
  {
    var cats := Categories(s + [g]);
    assert (s + [g])[..|s|] == s;
    assert cats[..|cats| - 1] == Categories(s);
  }

  /** A game adds one to the count of its own category and nothing to the
      others. */
  lemma CountStep(s: seq<GameResource>, g: GameResource, c: string)
    ensures Count(s + [g], HasCategory(c)) == Count(s, HasCategory(c)) + if g.category == c then 1 else 0
  {
    FilterConcat(s, [g], HasCategory(c));
  }

  /** One step of the `forEach`: the game's category joins the keys when new
      and its count becomes one more than before (`|| 0` for a new key). */
  lemma TallyStep(s: seq<GameResource>, g: GameResource, keys: seq<string>, counts: map<string, int>,
                  keys': seq<string>, counts': map<string, int>)
    requires Tallied(s, keys, counts)
    requires keys' == if g.category in counts then keys else keys + [g.category]
    requires counts' == counts[g.category :=
      (if g.category in counts && counts[g.category] != 0 then counts[g.category] else 0) + 1]
    ensures Tallied(s + [g], keys', counts')
  {
    var count := if g.category in counts && counts[g.category] != 0 then counts[g.category] else 0;
    DistinctStep(s, g);
    assert keys' == Distinct(Categories(s + [g]));
    assert forall c :: c in counts' <==> c in keys';
    forall c | c in counts'
      ensures counts'[c] == Count(s + [g], HasCategory(c)) >= 1
    {
      CountStep(s, g, c);
      if c == g.category {
        if g.category !in counts {
          CountAbsent(s, g.category);
        }
        assert counts'[c] == count + 1;
      } else {
        assert counts'[c] == counts[c];
      }
    }
  }

  // ---------------------------------------------------------------------
  // Ranking
  // ---------------------------------------------------------------------

  /** `Array.from(favoriteCategories.entries())`. */
  function Entries(keys: seq<string>, counts: map<string, int>): (es: seq<(string, int)>)
    requires forall c :: c in keys ==> c in counts
    ensures |es| == |keys|
    ensures forall k :: 0 <= k < |keys| ==> es[k] == (keys[k], counts[keys[k]])
  {
    seq(|keys|, k requires 0 <= k < |keys| => (keys[k], counts[keys[k]]))
  }

  predicate SortedDesc(s: seq<(string, int)>)
  {
    forall i, j :: 0 <= i < j < |s| ==> s[i].1 >= s[j].1
  }

  function HasCount(v: int): ((string, int)) -> bool
  {
    (e: (string, int)) => e.1 == v
  }

  /** Places `e` before the first entry whose count is not above its own. */
  function Insert(e: (string, int), t: seq<(string, int)>): (r: seq<(string, int)>)
    ensures multiset(r) == multiset([e] + t)
  {
    if t == [] || e.1 >= t[0].1 then [e] + t
    else
      assert t == [t[0]] + t[1..];
      [t[0]] + Insert(e, t[1..])
  }

  /** `.sort((a, b) => b[1] - a[1])`: by count, largest first; the sort is
      stable, so entries with equal counts keep their order. */
  function SortByCount(s: seq<(string, int)>): (r: seq<(string, int)>)
    ensures multiset(r) == multiset(s)
  {
    if s == [] then []
    else
      assert s == [s[0]] + s[1..];
      Insert(s[0], SortByCount(s[1..]))
  }

  /** Inserting adds `e` and loses nothing. */
  lemma {:induction false} InsertMembers(e: (string, int), t: seq<(string, int)>)
    ensures forall x :: x in Insert(e, t) <==> x == e || x in t
    decreases |t|
  {
    if !(t == [] || e.1 >= t[0].1) {
      InsertMembers(e, t[1..]);
      assert t == [t[0]] + t[1..];
    }
  }

  /** An entry whose count is at least every count of a ranked list can go
      in front of it. */
  lemma PrependSorted(x: (string, int), t: seq<(string, int)>)
    requires SortedDesc(t)
    requires forall j :: 0 <= j < |t| ==> t[j].1 <= x.1
    ensures SortedDesc([x] + t)
  {
    var r := [x] + t;
    forall i, j | 0 <= i < j < |r|
      ensures r[i].1 >= r[j].1
    {
      assert r[j] == t[j - 1];
      if i > 0 {
        assert r[i] == t[i - 1];
      }
    }
  }

  lemma {:induction false} InsertSorted(e: (string, int), t: seq<(string, int)>)
    requires SortedDesc(t)
    ensures SortedDesc(Insert(e, t))
    decreases |t|
  {
    if t == [] || e.1 >= t[0].1 {
      PrependSorted(e, t);
    } else {
      var rest := Insert(e, t[1..]);
      assert SortedDesc(t[1..]) by {
        forall i, j | 0 <= i < j < |t[1..]|
          ensures t[1..][i].1 >= t[1..][j].1
        {
          assert t[1..][i] == t[i + 1] && t[1..][j] == t[j + 1];
        }
      }
      InsertSorted(e, t[1..]);
      InsertMembers(e, t[1..]);
      forall j | 0 <= j < |rest|
        ensures rest[j].1 <= t[0].1
      {
        assert rest[j] in rest;
        if rest[j] != e {
          var k :| 0 <= k < |t[1..]| && t[1..][k] == rest[j];
          assert t[1..][k] == t[k + 1];
        }
      }
      PrependSorted(t[0], rest);
    }
  }

  /** The ranking puts larger counts first. */
  lemma {:induction false} SortByCountSorted(s: seq<(string, int)>)
    ensures SortedDesc(SortByCount(s))
    decreases |s|
  {
    if s != [] {
      SortByCountSorted(s[1..]);
      InsertSorted(s[0], SortByCount(s[1..]));
    }
  }

  /** Inserting keeps the relative order of the entries of each count. */
  lemma {:induction false} InsertStable(e: (string, int), t: seq<(string, int)>, v: int)
    requires SortedDesc(t)
    ensures Filter(Insert(e, t), HasCount(v)) == Filter([e] + t, HasCount(v))
    decreases |t|
  {
    if !(t == [] || e.1 >= t[0].1) {
      InsertStable(e, t[1..], v);
      FilterConcat([t[0]], Insert(e, t[1..]), HasCount(v));
      FilterConcat([e], t[1..], HasCount(v));
      assert [e] + t == [e] + [t[0]] + t[1..];
      FilterConcat([e] + [t[0]], t[1..], HasCount(v));
      FilterConcat([e], [t[0]], HasCount(v));
      assert !(e.1 == v && t[0].1 == v);
    }
  }

  /** The ranking is stable: for every count, the entries with that count
      appear in the ranking in the order they had before. */
  lemma {:induction false} SortByCountStable(s: seq<(string, int)>, v: int)
    ensures Filter(SortByCount(s), HasCount(v)) == Filter(s, HasCount(v))
    decreases |s|
  {
    if s != [] {
      SortByCountStable(s[1..], v);
      SortByCountSorted(s[1..]);
      InsertStable(s[0], SortByCount(s[1..]), v);
      assert s == [s[0]] + s[1..];
      FilterConcat([s[0]], SortByCount(s[1..]), HasCount(v));
      FilterConcat([s[0]], s[1..], HasCount(v));
    }
  }

  /** `.map(([category]) => category)`. */
  function Keys(es: seq<(string, int)>): (ks: seq<string>)
    ensures |ks| == |es|
    ensures forall k :: 0 <= k < |es| ==> ks[k] == es[k].0
  {
    seq(|es|, k requires 0 <= k < |es| => es[k].0)
  }

  /** `sortedCategories.slice(0, 3)`. */
  function TopThree(ks: seq<string>): (top: seq<string>)
    ensures |top| <= 3 && top <= ks
    ensures |ks| >= 3 ==> |top| == 3
    ensures |ks| < 3 ==> top == ks
  {
    if |ks| <= 3 then ks else ks[..3]
  }

  /** Every favourite category, in order of first appearance, with its count. */
  function Tally(favourites: seq<GameResource>): (es: seq<(string, int)>)
    ensures |es| == |Distinct(Categories(favourites))|
    ensures forall k :: 0 <= k < |es| ==>
      es[k] == (Distinct(Categories(favourites))[k], Count(favourites, HasCategory(Distinct(Categories(favourites))[k])))
  {
    var keys := Distinct(Categories(favourites));
    seq(|keys|, k requires 0 <= k < |keys| => (keys[k], Count(favourites, HasCategory(keys[k]))))
  }

  /** The ranked entries: the tally sorted by count. */
  function RankedEntries(favourites: seq<GameResource>): seq<(string, int)>
  {
    SortByCount(Tally(favourites))
  }

  /** `userCategories` as a function of the favourite games. */
  function UserCategories(favourites: seq<GameResource>): seq<string>
  {
    TopThree(Keys(RankedEntries(favourites)))
  }

  /** The mount effect: downloaded ids, favourite games, category counts,
      ranking and the top three. */
  method LoadUserCategories(catalog: seq<GameResource>, store: map<string, string>, wishlistIds: seq<string>)
    returns (userCategories: seq<string>)
    ensures userCategories == UserCategories(Favourites(catalog, DownloadedIds(catalog, store), wishlistIds))
  {
    var downloadedGameIds := DownloadedIds(catalog, store);
    var favourites := Filter(catalog, IsFavourite(downloadedGameIds, wishlistIds));
    var keys, counts := CountFavoriteCategories(favourites);
    var entries := Entries(keys, counts);
    assert entries == Tally(favourites);
    var sortedCategories := Keys(SortByCount(entries));
    userCategories := TopThree(sortedCategories);
  }

  // ---------------------------------------------------------------------
  // Properties of the top three
  // ---------------------------------------------------------------------

  /** Every ranked entry is a favourite category with its own count. */
  lemma RankedEntriesAreCounts(favourites: seq<GameResource>)
    ensures forall e :: e in RankedEntries(favourites) ==>
      e.0 in Categories(favourites) && e.1 == Count(favourites, HasCategory(e.0))
    ensures |RankedEntries(favourites)| == |Distinct(Categories(favourites))|
  {
    var es := Tally(favourites);
    forall e | e in RankedEntries(favourites)
      ensures e.0 in Categories(favourites) && e.1 == Count(favourites, HasCategory(e.0))
    {
      assert e in multiset(RankedEntries(favourites));
      assert e in multiset(es);
      var k :| 0 <= k < |es| && es[k] == e;
    }
    assert |multiset(RankedEntries(favourites))| == |multiset(es)|;
  }

  lemma NoDupTail<T>(s: seq<T>)
    requires NoDup(s) && s != []
    ensures NoDup(s[1..]) && s[0] !in s[1..]
  {
    forall i, j | 0 <= i < j < |s[1..]|
      ensures s[1..][i] != s[1..][j]
    {
      assert s[1..][i] == s[i + 1] && s[1..][j] == s[j + 1];
    }
    forall k | 0 <= k < |s[1..]|
      ensures s[1..][k] != s[0]
    {
      assert s[1..][k] == s[k + 1];
    }
  }

  lemma NoDupCons<T>(x: T, t: seq<T>)
    requires NoDup(t) && x !in t
    ensures NoDup([x] + t)
  {
    var r := [x] + t;
    forall i, j | 0 <= i < j < |r|
      ensures r[i] != r[j]
    {
      assert r[j] == t[j - 1];
      if i > 0 {
        assert r[i] == t[i - 1];
      }
    }
  }

  /** Inserting an absent entry into a list without repeats gives a list
      without repeats. */
  lemma {:induction false} InsertNoDup(e: (string, int), t: seq<(string, int)>)
    requires NoDup(t) && e !in t
    ensures NoDup(Insert(e, t))
    decreases |t|
  {
    if t == [] || e.1 >= t[0].1 {
      NoDupCons(e, t);
    } else {
      NoDupTail(t);
      assert e !in t[1..];
      InsertNoDup(e, t[1..]);
      InsertMembers(e, t[1..]);
      assert t[0] != e by {
        assert t[0] in t;
      }
      NoDupCons(t[0], Insert(e, t[1..]));
    }
  }

  lemma {:induction false} SortByCountNoDup(s: seq<(string, int)>)
    requires NoDup(s)
    ensures NoDup(SortByCount(s))
    decreases |s|
  {
    if s != [] {
      NoDupTail(s);
      SortByCountNoDup(s[1..]);
      assert s[0] !in multiset(s[1..]);
      assert multiset(SortByCount(s[1..])) == multiset(s[1..]);
      assert s[0] !in SortByCount(s[1..]);
      InsertNoDup(s[0], SortByCount(s[1..]));
    }
  }

  /** No category is ranked twice. */
  lemma RankedKeysNoDup(favourites: seq<GameResource>)
    ensures NoDup(Keys(RankedEntries(favourites)))
  {
    var es := Tally(favourites);
    var keys := Distinct(Categories(favourites));
    assert NoDup(es) by {
      forall i, j | 0 <= i < j < |es|
        ensures es[i] != es[j]
      {
        assert es[i].0 == keys[i] && es[j].0 == keys[j];
      }
    }
    SortByCountNoDup(es);
    var ranked := RankedEntries(favourites);
    var ks := Keys(ranked);
    RankedEntriesAreCounts(favourites);
    forall i, j | 0 <= i < j < |ks|
      ensures ks[i] != ks[j]
    {
      assert ranked[i] in ranked && ranked[j] in ranked;
      assert ranked[i] != ranked[j];
    }
  }

  /** `userCategories` holds at most three distinct categories, each the
      category of a downloaded or wishlisted game, and the counts of the
      categories kept are at least those of the categories left out. */
  lemma UserCategoriesProperties(favourites: seq<GameResource>)
    ensures |UserCategories(favourites)| <= 3
    ensures NoDup(UserCategories(favourites))
    ensures forall c :: c in UserCategories(favourites) ==> exists g :: g in favourites && g.category == c
    ensures forall i, j :: 0 <= i < |UserCategories(favourites)| <= j < |RankedEntries(favourites)| ==>
      RankedEntries(favourites)[i].1 >= RankedEntries(favourites)[j].1
    ensures |UserCategories(favourites)| == if |Distinct(Categories(favourites))| < 3 then |Distinct(Categories(favourites))| else 3
  {
    RankedEntriesAreCounts(favourites);
    SortByCountSorted(Tally(favourites));
    RankedKeysNoDup(favourites);
    var top := UserCategories(favourites);
    var ks := Keys(RankedEntries(favourites));
    forall i, j | 0 <= i < j < |top|
      ensures top[i] != top[j]
    {
      assert top[i] == ks[i] && top[j] == ks[j];
    }
    forall c | c in top
      ensures exists g :: g in favourites && g.category == c
    {
      UserCategoryIsFavoured(favourites, c);
    }
  }

  /** A user category is the category of a favourite game. */
  lemma UserCategoryIsFavoured(favourites: seq<GameResource>, c: string)
    requires c in UserCategories(favourites)
    ensures exists g :: g in favourites && g.category == c
  {
    var ranked := RankedEntries(favourites);
    var top := UserCategories(favourites);
    RankedEntriesAreCounts(favourites);
    var k :| 0 <= k < |top| && top[k] == c;
    assert ranked[k] in ranked;
    var m :| 0 <= m < |favourites| && Categories(favourites)[m] == c;
    assert favourites[m] in favourites;
  }

  /** With nothing downloaded or wishlisted there are no user categories. */
  lemma NothingFavouredNoCategories(catalog: seq<GameResource>, store: map<string, string>)
    requires forall g :: g in catalog ==> !Downloaded(store, g.id)
    ensures UserCategories(Favourites(catalog, DownloadedIds(catalog, store), [])) == []
  {
    var downloaded := DownloadedIds(catalog, store);
    forall k | 0 <= k < |catalog|
      ensures !Downloaded(store, catalog[k].id)
    {
      assert catalog[k] in catalog;
    }
    assert forall g :: g in catalog ==> !IsFavourite(downloaded, [])(g);
    FilterNone(catalog, IsFavourite(downloaded, []));
    assert Categories([]) == [];
  }
}
