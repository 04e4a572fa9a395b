/** The game-categories page: the category tabs with their counts, the
    filter-and-sort pipeline run whenever a filter changes, the platform
    toggle and the filter reset. */
module GameCategories {
  import opened Options
  import opened Seqs
  import opened Text
  import opened Games

  // ---------------------------------------------------------------------
  // Filter state
  // ---------------------------------------------------------------------

  /** The page's filter state: the selected tab, the search box, the rating
      slider `[low, high]`, the ticked platforms, the sort key and the two
      checkboxes. */
  datatype Filters = Filters(
    category: string,
    query: string,
    ratingLow: real,
    ratingHigh: real,
    platforms: seq<string>,
    sortBy: string,
    featuredOnly: bool,
    newOnly: bool)

  /** The initial state of the filters, which `resetFilters` restores. */
  function DefaultFilters(): (f: Filters)
    ensures f.category == "all" && f.query == "" && f.platforms == []
    ensures f.ratingLow == 0.0 && f.ratingHigh == 5.0
    ensures f.sortBy == "popular" && !f.featuredOnly && !f.newOnly
  {
    Filters("all", "", 0.0, 5.0, [], "popular", false, false)
  }

  // ---------------------------------------------------------------------
  // The criteria, one per step of the filter effect
  // ---------------------------------------------------------------------

  /** The tab rule: "all" keeps everything, "featured" and "new" keep the
      flagged games, any other id keeps the games of that category. */
  predicate CategoryOk(category: string, g: GameResource)
  {
    if category == "all" then true
    else if category == "featured" then g.featured
    else if category == "new" then g.isNew
    else g.category == category
  }

  function TabRule(category: string): GameResource -> bool
  {
    g => CategoryOk(category, g)
  }

  predicate IsFeatured(g: GameResource) { g.featured }
  predicate IsNew(g: GameResource) { g.isNew }

  /** The two checkboxes, applied on top of the tab. */
  predicate FlagsOk(f: Filters, g: GameResource)
  {
    (!f.featuredOnly || g.featured) && (!f.newOnly || g.isNew)
  }

  /** A lowercased query occurs in the lowercased title, description,
      category or developer. */
  function SearchHit(query: string): GameResource -> bool
  {
    (g: GameResource) => Contains(Lower(g.title), query) || Contains(Lower(g.description), query) ||
                         Contains(Lower(g.category), query) || Contains(Lower(g.developer), query)
  }

  /** The search box: a blank query keeps everything; otherwise the lowercased
      (untrimmed) query must occur in one of the four text fields. */
  predicate SearchOk(query: string, g: GameResource)
  {
    Trim(query) == "" || SearchHit(Lower(query))(g)
  }

  /** The rating slider, both ends inclusive. */
  function InRatingRange(low: real, high: real): GameResource -> bool
  {
    (g: GameResource) => low <= g.rating && g.rating <= high
  }

  predicate RatingOk(f: Filters, g: GameResource)
  {
    InRatingRange(f.ratingLow, f.ratingHigh)(g)
  }

  /** The game runs on at least one of the platforms. */
  function RunsOnAny(platforms: seq<string>): GameResource -> bool
  {
    (g: GameResource) => exists p :: p in g.platforms && p in platforms
  }

  /** The platform boxes: none ticked keeps everything. */
  predicate PlatformOk(platforms: seq<string>, g: GameResource)
  {
    |platforms| == 0 || RunsOnAny(platforms)(g)
  }

  /** A game is shown when it passes every criterion. */
  predicate Matches(f: Filters, g: GameResource)
  {
    CategoryOk(f.category, g) && FlagsOk(f, g) && SearchOk(f.query, g) &&
    RatingOk(f, g) && PlatformOk(f.platforms, g)
  }

  function Keep(f: Filters): GameResource -> bool
  {
    g => Matches(f, g)
  }

  /** The games shown, before sorting: the catalog filtered by `Matches`. */
  function Shown(catalog: seq<GameResource>, f: Filters): (r: seq<GameResource>)
    ensures IsSubsequence(r, catalog)
    ensures multiset(r) <= multiset(catalog)
    ensures forall g :: g in r <==> g in catalog && Matches(f, g)
  {
    FilterIsSubsequence(catalog, Keep(f));
    FilterSubMultiset(catalog, Keep(f));
    FilterMembers(catalog, Keep(f));
    Filter(catalog, Keep(f))
  }

  /** The criteria in the order the effect applies them; `Upto(f, k, g)` is
      the conjunction of the first `k`. */
  predicate Criterion(f: Filters, k: nat, g: GameResource)
  {
    if k == 1 then CategoryOk(f.category, g)
    else if k == 2 then !f.featuredOnly || g.featured
    else if k == 3 then !f.newOnly || g.isNew
    else if k == 4 then SearchOk(f.query, g)
    else if k == 5 then RatingOk(f, g)
    else PlatformOk(f.platforms, g)
  }

  predicate Upto(f: Filters, k: nat, g: GameResource)
  {
    && (k >= 1 ==> Criterion(f, 1, g))
    && (k >= 2 ==> Criterion(f, 2, g))
    && (k >= 3 ==> Criterion(f, 3, g))
    && (k >= 4 ==> Criterion(f, 4, g))
    && (k >= 5 ==> Criterion(f, 5, g))
    && (k >= 6 ==> Criterion(f, 6, g))
  }

  /** The games kept after the first `k` steps. */
  function Stage(f: Filters, k: nat): GameResource -> bool
  {
    g => Upto(f, k, g)
  }

  /** One filtering step by a predicate that decides criterion `k`. */
  lemma Narrow(catalog: seq<GameResource>, result: seq<GameResource>, f: Filters, k: nat, p: GameResource -> bool)
    requires 1 <= k <= 6
    requires result == Filter(catalog, Stage(f, k - 1))
    requires forall g :: p(g) == Criterion(f, k, g)
    ensures Filter(result, p) == Filter(catalog, Stage(f, k))
  {
    FilterFilterAgree(catalog, Stage(f, k - 1), p, Stage(f, k));
  }

  /** A skipped step: criterion `k` holds of every game. */
  lemma Skip(catalog: seq<GameResource>, result: seq<GameResource>, f: Filters, k: nat)
    requires 1 <= k <= 6
    requires result == Filter(catalog, Stage(f, k - 1))
    requires forall g :: Criterion(f, k, g)
    ensures result == Filter(catalog, Stage(f, k))
  {
    FilterAgree(catalog, Stage(f, k - 1), Stage(f, k));
  }

  // ---------------------------------------------------------------------
  // Sorting
  // ---------------------------------------------------------------------

  datatype SortOrder = Popular | Rating | Newest | Name

  /** The sort keys of the select box; any other value leaves the order alone. */
  function SortOrderOf(sortBy: string): (o: Option<SortOrder>)
    ensures o == Some(Popular) <==> sortBy == "popular"
    ensures o == Some(Rating) <==> sortBy == "rating"
    ensures o == Some(Newest) <==> sortBy == "newest"
    ensures o == Some(Name) <==> sortBy == "name"
  {
    if sortBy == "popular" then Some(Popular)
    else if sortBy == "rating" then Some(Rating)
    else if sortBy == "newest" then Some(Newest)
    else if sortBy == "name" then Some(Name)
    else None
  }

  /** `a` may precede `b`: the comparator of the order is not positive.
      Popular: more unlocks first. Rating: higher rating first. Newest: new
      games first. Name: titles in lexicographic order. */
  predicate InOrder(order: SortOrder, a: GameResource, b: GameResource)
  {
    match order
    case Popular => a.unlocks >= b.unlocks
    case Rating => a.rating >= b.rating
    case Newest => a.isNew || !b.isNew
    case Name => LexLeq(a.title, b.title)
  }

  lemma InOrderTotal(order: SortOrder, a: GameResource, b: GameResource)
    ensures InOrder(order, a, b) || InOrder(order, b, a)
  {
    if order == Name {
      LexLeqTotal(a.title, b.title);
    }
  }

  lemma InOrderTransitive(order: SortOrder, a: GameResource, b: GameResource, c: GameResource)
    requires InOrder(order, a, b) && InOrder(order, b, c)
    ensures InOrder(order, a, c)
  {
    if order == Name {
      LexLeqTransitive(a.title, b.title, c.title);
    }
  }

  predicate SortedBy(s: seq<GameResource>, order: SortOrder)
  {
    forall p, q :: 0 <= p < q < |s| ==> InOrder(order, s[p], s[q])
  }

  /** What each sorted order means for the list shown. */
  lemma SortedMeaning(s: seq<GameResource>, order: SortOrder, p: int, q: int)
    requires SortedBy(s, order) && 0 <= p < q < |s|
    ensures order == Popular ==> s[p].unlocks >= s[q].unlocks
    ensures order == Rating ==> s[p].rating >= s[q].rating
    ensures order == Newest && s[q].isNew ==> s[p].isNew
    ensures order == Name ==> LexLeq(s[p].title, s[q].title)
  {
  }

  /** Two games the comparator ties: neither must precede the other. */
  function SameKey(order: SortOrder, g: GameResource): GameResource -> bool
  {
    (y: GameResource) => InOrder(order, g, y) && InOrder(order, y, g)
  }

  /** A sort is stable when, for every key, the games with that key keep
      their relative order. */
  ghost predicate StableFor(r: seq<GameResource>, s: seq<GameResource>, order: SortOrder)
  {
    forall g :: Filter(r, SameKey(order, g)) == Filter(s, SameKey(order, g))
  }

  /** The insertion of `x` into a list from its right end: `x` moves left
      past every element it must precede and stops behind the first one
      it may follow. */
  function InsertLast(t: seq<GameResource>, x: GameResource, order: SortOrder): seq<GameResource>
    decreases |t|
  {
    if t == [] || InOrder(order, t[|t| - 1], x) then t + [x]
    else InsertLast(t[..|t| - 1], x, order) + [t[|t| - 1]]
  }

  /** Insertion sort: each element in turn inserted into the sorted prefix. */
  function InsertionSorted(s: seq<GameResource>, order: SortOrder): seq<GameResource>
    decreases |s|
  {
    if s == [] then []
    else InsertLast(InsertionSorted(s[..|s| - 1], order), s[|s| - 1], order)
  }

  lemma {:induction false} InsertLastPermutation(t: seq<GameResource>, x: GameResource, order: SortOrder)
    ensures multiset(InsertLast(t, x, order)) == multiset(t) + multiset{x}
    decreases |t|
  {
    if t != [] && !InOrder(order, t[|t| - 1], x) {
      InsertLastPermutation(t[..|t| - 1], x, order);
      assert t == t[..|t| - 1] + [t[|t| - 1]];
    }
  }

  lemma {:induction false} InsertionSortedPermutation(s: seq<GameResource>, order: SortOrder)
    ensures multiset(InsertionSorted(s, order)) == multiset(s)
    decreases |s|
  {
    if s != [] {
      InsertionSortedPermutation(s[..|s| - 1], order);
      InsertLastPermutation(InsertionSorted(s[..|s| - 1], order), s[|s| - 1], order);
      assert s == s[..|s| - 1] + [s[|s| - 1]];
    }
  }

  /** An element every element of a sorted list may precede extends it. */
  lemma SortedAppend(t: seq<GameResource>, x: GameResource, order: SortOrder)
    requires SortedBy(t, order)
    requires forall k :: 0 <= k < |t| ==> InOrder(order, t[k], x)
    ensures SortedBy(t + [x], order)
  {
  }

  lemma {:induction false} InsertLastSorted(t: seq<GameResource>, x: GameResource, order: SortOrder)
    requires SortedBy(t, order)
    ensures SortedBy(InsertLast(t, x, order), order)
    decreases |t|
  {
    if t == [] {
      SortedAppend(t, x, order);
    } else if InOrder(order, t[|t| - 1], x) {
      forall k | 0 <= k < |t|
        ensures InOrder(order, t[k], x)
      {
        if k < |t| - 1 {
          InOrderTransitive(order, t[k], t[|t| - 1], x);
        }
      }
      SortedAppend(t, x, order);
    } else {
      var u, last := t[..|t| - 1], t[|t| - 1];
      var r' := InsertLast(u, x, order);
      InsertLastSorted(u, x, order);
      InsertLastPermutation(u, x, order);
      InOrderTotal(order, x, last);
      forall p | 0 <= p < |r'|
        ensures InOrder(order, r'[p], last)
      {
        assert r'[p] in multiset(r');
        if r'[p] != x {
          assert r'[p] in multiset(u);
          var k :| 0 <= k < |u| && u[k] == r'[p];
          assert t[k] == u[k];
        }
      }
      SortedAppend(r', last, order);
    }
  }

  /** Two last elements that a filter does not both keep may trade places. */
  lemma FilterLastTwo<T>(r: seq<T>, u: seq<T>, x: T, last: T, e: T -> bool)
    requires Filter(r, e) == Filter(u + [x], e)
    requires !(e(x) && e(last))
    ensures Filter(r + [last], e) == Filter(u + [last] + [x], e)
  {
    FilterConcat(r, [last], e);
    FilterConcat(u, [x], e);
    FilterConcat(u + [last], [x], e);
    FilterConcat(u, [last], e);
  }

  lemma {:induction false} InsertLastStable(t: seq<GameResource>, x: GameResource, order: SortOrder, g: GameResource)
    requires SortedBy(t, order)
    ensures Filter(InsertLast(t, x, order), SameKey(order, g)) == Filter(t + [x], SameKey(order, g))
    decreases |t|
  {
    if t != [] && !InOrder(order, t[|t| - 1], x) {
      var u, last := t[..|t| - 1], t[|t| - 1];
      var e := SameKey(order, g);
      InsertLastStable(u, x, order, g);
      if e(last) && e(x) {
        InOrderTransitive(order, last, g, x);
      }
      FilterLastTwo(InsertLast(u, x, order), u, x, last, e);
      assert t + [x] == u + [last] + [x];
    }
  }

  /** Insertion sort yields the sorted, stable permutation. */
  lemma {:induction false} InsertionSortedSortedStable(s: seq<GameResource>, order: SortOrder)
    ensures SortedBy(InsertionSorted(s, order), order)
    ensures StableFor(InsertionSorted(s, order), s, order)
    decreases |s|
  {
    if s != [] {
      var u, x := s[..|s| - 1], s[|s| - 1];
      InsertionSortedSortedStable(u, order);
      InsertLastSorted(InsertionSorted(u, order), x, order);
      forall g
        ensures Filter(InsertionSorted(s, order), SameKey(order, g)) == Filter(s, SameKey(order, g))
      {
        InsertLastStable(InsertionSorted(u, order), x, order, g);
        FilterConcat(InsertionSorted(u, order), [x], SameKey(order, g));
        FilterConcat(u, [x], SameKey(order, g));
        assert s == u + [x];
      }
    }
  }

  /** The insertion of `x` lands at `j` when `x` must precede every element
      from `j` on and may follow the element before `j`. */
  lemma {:induction false} InsertLastAt(t: seq<GameResource>, x: GameResource, order: SortOrder, j: int)
    requires 0 <= j <= |t|
    requires j == 0 || InOrder(order, t[j - 1], x)
    requires forall k :: j <= k < |t| ==> !InOrder(order, t[k], x)
    ensures InsertLast(t, x, order) == t[..j] + [x] + t[j..]
    decreases |t|
  {
    if j == |t| {
      assert t[..j] == t && t[j..] == [];
    } else {
      var u, last := t[..|t| - 1], t[|t| - 1];
      assert !InOrder(order, last, x);
      assert InsertLast(t, x, order) == InsertLast(u, x, order) + [last];
      assert j == 0 || u[j - 1] == t[j - 1];
      assert forall k :: j <= k < |u| ==> u[k] == t[k];
      InsertLastAt(u, x, order, j);
      assert u[..j] == t[..j];
      assert t[j..] == u[j..] + [last];
    }
  }

  /** One step of the in-place insertion: `a[i]` moves left past the
      elements it must precede and lands at `j`, behind the first element it
      may follow; the elements it passed shift one place right. */
  method InsertAt(a: array<GameResource>, order: SortOrder, i: int) returns (j: int)
    requires 0 <= i < a.Length
    modifies a
    ensures 0 <= j <= i
    ensures a[..i + 1] == old(a[..i])[..j] + [old(a[i])] + old(a[..i])[j..]
    ensures j == 0 || InOrder(order, old(a[..i])[j - 1], old(a[i]))
    ensures forall k :: j <= k < i ==> !InOrder(order, old(a[..i])[k], old(a[i]))
    ensures forall k :: i < k < a.Length ==> a[k] == old(a[k])
  {
    ghost var t := a[..i];
    var x := a[i];
    j := i;
    while j > 0 && !InOrder(order, a[j - 1], x)
      invariant 0 <= j <= i
      invariant forall k :: 0 <= k < j ==> a[k] == t[k]
      invariant a[j] == x
      invariant forall k :: j < k <= i ==> a[k] == t[k - 1]
      invariant forall k :: i < k < a.Length ==> a[k] == old(a[k])
      invariant forall k :: j <= k < i ==> !InOrder(order, t[k], x)
    {
      a[j] := a[j - 1];
      a[j - 1] := x;
      j := j - 1;
    }
    ghost var r := t[..j] + [x] + t[j..];
    assert forall k :: 0 <= k <= i ==> a[k] == r[k];
    assert a[..i + 1] == r;
  }

  /** Where `InsertAt` puts the next game is where insertion sort puts it. */
  lemma InsertionSortedStep(s: seq<GameResource>, i: int, order: SortOrder, t: seq<GameResource>, j: int, r: seq<GameResource>)
    requires 0 <= j <= i < |s| && |t| == i
    requires t == InsertionSorted(s[..i], order)
    requires r == t[..j] + [s[i]] + t[j..]
    requires j == 0 || InOrder(order, t[j - 1], s[i])
    requires forall k :: j <= k < i ==> !InOrder(order, t[k], s[i])
    ensures r == InsertionSorted(s[..i + 1], order)
  {
    var u := s[..i + 1];
    assert u[..|u| - 1] == s[..i] && u[|u| - 1] == s[i];
    assert InsertionSorted(u, order) == InsertLast(t, s[i], order);
    InsertLastAt(t, s[i], order, j);
  }

  /** `result.sort(comparator)` in place, by insertion. The array ends
      sorted by the order, as a permutation of its old contents, and
      stable: games the comparator ties keep their relative order, as
      `Array.prototype.sort` guarantees. */
  method SortGames(a: array<GameResource>, order: SortOrder)
    modifies a
    ensures a[..] == InsertionSorted(old(a[..]), order)
    ensures SortedBy(a[..], order)
    ensures multiset(a[..]) == multiset(old(a[..]))
    ensures StableFor(a[..], old(a[..]), order)
  {
    ghost var s := a[..];
    var i := 0;
    while i < a.Length
      invariant 0 <= i <= a.Length
      invariant a[..i] == InsertionSorted(s[..i], order)
      invariant forall k :: i <= k < a.Length ==> a[k] == s[k]
    {
      ghost var t := a[..i];
      var j := InsertAt(a, order, i);
      InsertionSortedStep(s, i, order, t, j, a[..i + 1]);
      i := i + 1;
    }
    assert s[..a.Length] == s && a[..a.Length] == a[..];
    InsertionSortedSortedStable(s, order);
    InsertionSortedPermutation(s, order);
  }

  // ---------------------------------------------------------------------
  // The filter effect
  // ---------------------------------------------------------------------

  /** The predicates the effect filters by decide the criteria they stand for. */
  lemma SearchStep(f: Filters, g: GameResource)
    requires Trim(f.query) != ""
    ensures SearchHit(Lower(f.query))(g) == Criterion(f, 4, g)
  {
    SearchCriterion(f, g);
    SearchNotBlank(f.query, g);
  }

  lemma SearchCriterion(f: Filters, g: GameResource)
    ensures Criterion(f, 4, g) == SearchOk(f.query, g)
  {
  }

  /** With a non-blank query the search box asks for a hit. */
  lemma SearchNotBlank(query: string, g: GameResource)
    requires Trim(query) != ""
    ensures SearchOk(query, g) == SearchHit(Lower(query))(g)
  {
  }

  lemma NarrowSearch(catalog: seq<GameResource>, result: seq<GameResource>, f: Filters)
    requires Trim(f.query) != ""
    requires result == Filter(catalog, Stage(f, 3))
    ensures Filter(result, SearchHit(Lower(f.query))) == Filter(catalog, Stage(f, 4))
  {
    forall g
      ensures SearchHit(Lower(f.query))(g) == Criterion(f, 4, g)
    {
      SearchStep(f, g);
    }
    Narrow(catalog, result, f, 4, SearchHit(Lower(f.query)));
  }

  lemma RatingStep(f: Filters)
    ensures forall g :: InRatingRange(f.ratingLow, f.ratingHigh)(g) == Criterion(f, 5, g)
  {
  }

  lemma PlatformStep(f: Filters)
    requires |f.platforms| > 0
    ensures forall g :: RunsOnAny(f.platforms)(g) == Criterion(f, 6, g)
  {
  }

  /** After all six steps the kept games are those shown. */
  lemma StagesMatch(catalog: seq<GameResource>, f: Filters)
    ensures Filter(catalog, Stage(f, 6)) == Shown(catalog, f)
  {
    FilterAgree(catalog, Stage(f, 6), Keep(f));
  }

  /** The first step of the effect: the selected tab, unless it is "all". */
  method FilterByTab(catalog: seq<GameResource>, f: Filters) returns (result: seq<GameResource>)
    ensures result == Filter(catalog, Stage(f, 1))
  {
    result := catalog;
    FilterAll(catalog, Stage(f, 0));
    if f.category != "all" {
      if f.category == "featured" {
        Narrow(catalog, result, f, 1, IsFeatured);
        result := Filter(result, IsFeatured);
      } else if f.category == "new" {
        Narrow(catalog, result, f, 1, IsNew);
        result := Filter(result, IsNew);
      } else {
        Narrow(catalog, result, f, 1, HasCategory(f.category));
        result := Filter(result, HasCategory(f.category));
      }
    } else {
      Skip(catalog, result, f, 1);
    }
  }

  /** The two checkbox steps. */
  method FilterByFlags(catalog: seq<GameResource>, f: Filters, tabbed: seq<GameResource>) returns (result: seq<GameResource>)
    requires tabbed == Filter(catalog, Stage(f, 1))
    ensures result == Filter(catalog, Stage(f, 3))
  {
    result := tabbed;
    if f.featuredOnly {
      Narrow(catalog, result, f, 2, IsFeatured);
      result := Filter(result, IsFeatured);
    } else {
      Skip(catalog, result, f, 2);
    }
    if f.newOnly {
      Narrow(catalog, result, f, 3, IsNew);
      result := Filter(result, IsNew);
    } else {
      Skip(catalog, result, f, 3);
    }
  }

  /** The search step, skipped for a blank query. */
  method FilterBySearch(catalog: seq<GameResource>, f: Filters, flagged: seq<GameResource>) returns (result: seq<GameResource>)
    requires flagged == Filter(catalog, Stage(f, 3))
    ensures result == Filter(catalog, Stage(f, 4))
  {
    result := flagged;
    if Trim(f.query) != "" {
      var query := Lower(f.query);
      NarrowSearch(catalog, result, f);
      result := Filter(result, SearchHit(query));
    } else {
      Skip(catalog, result, f, 4);
    }
  }

  /** The rating step, always applied, then the platform step, skipped when
      no platform is ticked. */
  method FilterByRatingAndPlatform(catalog: seq<GameResource>, f: Filters, searched: seq<GameResource>) returns (result: seq<GameResource>)
    requires searched == Filter(catalog, Stage(f, 4))
    ensures result == Filter(catalog, Stage(f, 6))
  {
    result := searched;
    RatingStep(f);
    Narrow(catalog, result, f, 5, InRatingRange(f.ratingLow, f.ratingHigh));
    result := Filter(result, InRatingRange(f.ratingLow, f.ratingHigh));
    if |f.platforms| > 0 {
      PlatformStep(f);
      Narrow(catalog, result, f, 6, RunsOnAny(f.platforms));
      result := Filter(result, RunsOnAny(f.platforms));
    } else {
      Skip(catalog, result, f, 6);
    }
  }

  /** The filtering steps of the effect: `result` starts as a copy of the
      catalog and each active criterion narrows it. */
  method FilterGames(catalog: seq<GameResource>, f: Filters) returns (result: seq<GameResource>)
    ensures result == Shown(catalog, f)
  {
    result := FilterByTab(catalog, f);
    result := FilterByFlags(catalog, f, result);
    result := FilterBySearch(catalog, f, result);
    result := FilterByRatingAndPlatform(catalog, f, result);
    StagesMatch(catalog, f);
  }

  /** The effect run on every filter change: the filtering steps, then an
      in-place sort by the chosen key. The result is a permutation of the
      games that pass every criterion, sorted by the key; with an unknown key
      it is those games in catalog order. Games the sort key ties stay in
      catalog order. */
  method ApplyFilters(catalog: seq<GameResource>, f: Filters) returns (shown: seq<GameResource>)
    ensures multiset(shown) == multiset(Shown(catalog, f))
    ensures multiset(shown) <= multiset(catalog)
    ensures forall g :: g in shown <==> g in catalog && Matches(f, g)
    ensures SortOrderOf(f.sortBy).Some? ==> SortedBy(shown, SortOrderOf(f.sortBy).value)
    ensures SortOrderOf(f.sortBy).Some? ==> StableFor(shown, Shown(catalog, f), SortOrderOf(f.sortBy).value)
    ensures SortOrderOf(f.sortBy).None? ==> shown == Shown(catalog, f)
  {
    var result := FilterGames(catalog, f);
    match SortOrderOf(f.sortBy)
    case Some(order) =>
      var a := new GameResource[|result|](k requires 0 <= k < |result| => result[k]);
      assert a[..] == result;
      SortGames(a, order);
      shown := a[..];
      assert forall g :: g in shown <==> g in multiset(shown);
      assert forall g :: g in result <==> g in multiset(result);
    case None =>
      shown := result;
  }

  // ---------------------------------------------------------------------
  // Properties of the pipeline
  // ---------------------------------------------------------------------

  /** A whitespace-only search box filters nothing. */
  lemma BlankQueryKeepsAll(catalog: seq<GameResource>, f: Filters)
    requires forall k :: 0 <= k < |f.query| ==> IsJsWhitespace(f.query[k])
    ensures Shown(catalog, f) == Shown(catalog, f.(query := ""))
  {
    var blank := f.(query := "");
    TrimBlank(f.query);
    TrimBlank("");
    assert Trim(f.query) == [] && Trim(blank.query) == [];
    forall g | g in catalog
      ensures Keep(f)(g) == Keep(blank)(g)
    {
      assert SearchOk(f.query, g) && SearchOk(blank.query, g);
    }
    FilterAgree(catalog, Keep(f), Keep(blank));
  }

  /** Ticking "featured only" narrows what the tab shows to its featured games,
      in the same order. */
  lemma FeaturedCheckboxNarrows(catalog: seq<GameResource>, f: Filters)
    ensures Shown(catalog, f.(featuredOnly := true)) == Filter(Shown(catalog, f), IsFeatured)
  {
    FilterFilterAgree(catalog, Keep(f), IsFeatured, Keep(f.(featuredOnly := true)));
  }

  /** With the default filters every game rated within 0 to 5 is shown, in
      catalog order before sorting. */
  lemma ResetShowsWholeCatalog(catalog: seq<GameResource>)
    requires forall g :: g in catalog ==> 0.0 <= g.rating <= 5.0
    ensures Shown(catalog, DefaultFilters()) == catalog
  {
    TrimBlank("");
    FilterAll(catalog, Keep(DefaultFilters()));
  }

  /** What the page shows after `resetFilters`, which also selects
      "popular": the whole catalog (ratings within 0 to 5), most unlocks
      first, games with equal unlocks in catalog order. */
  method ShowAfterReset(catalog: seq<GameResource>) returns (shown: seq<GameResource>)
    requires forall g :: g in catalog ==> 0.0 <= g.rating <= 5.0
    ensures multiset(shown) == multiset(catalog)
    ensures forall p, q :: 0 <= p < q < |shown| ==> shown[p].unlocks >= shown[q].unlocks
    ensures StableFor(shown, catalog, Popular)
  {
    shown := ApplyFilters(catalog, DefaultFilters());
    ResetShowsWholeCatalog(catalog);
  }

  // ---------------------------------------------------------------------
  // Platform toggle
  // ---------------------------------------------------------------------

  /** `togglePlatform`: drop every occurrence of a ticked platform, append an
      unticked one. */
  function TogglePlatform(selected: seq<string>, platform: string): (r: seq<string>)
    ensures platform in r <==> platform !in selected
    ensures forall p :: p != platform ==> (p in r <==> p in selected)
    ensures platform !in selected ==> r == selected + [platform]
  {
    if platform in selected then
      FilterMembers(selected, p => p != platform);
      Filter(selected, p => p != platform)
    else selected + [platform]
  }

  /** Ticking a platform and unticking it again restores the selection. */
  lemma ToggleTwice(selected: seq<string>, platform: string)
    requires platform !in selected
    ensures TogglePlatform(TogglePlatform(selected, platform), platform) == selected
  {
    FilterConcat(selected, [platform], p => p != platform);
    FilterAll(selected, p => p != platform);
  }

  // ---------------------------------------------------------------------
  // Category tabs
  // ---------------------------------------------------------------------

  datatype Tab = Tab(id: string, name: string, count: nat)

  /** The number of tabs of `GAME_CATEGORIES`. */
  const TabTotal := 15

  /** The id of tab `k` of `GAME_CATEGORIES`, in display order. */
  function TabId(k: int): string
  {
    match k
    case 0 => "all"
    case 1 => "featured"
    case 2 => "new"
    case 3 => "action"
    case 4 => "adventure"
    case 5 => "puzzle"
    case 6 => "racing"
    case 7 => "rpg"
    case 8 => "shooter"
    case 9 => "simulation"
    case 10 => "sports"
    case 11 => "strategy"
    case 12 => "sandbox"
    case 13 => "runner"
    case _ => "social"
  }

  /** The label of tab `k`. */
  function TabName(k: int): string
  {
    match k
    case 0 => "All Games"
    case 1 => "Featured"
    case 2 => "New Releases"
    case 3 => "Action"
    case 4 => "Adventure"
    case 5 => "Puzzle"
    case 6 => "Racing"
    case 7 => "RPG"
    case 8 => "Shooter"
    case 9 => "Simulation"
    case 10 => "Sports"
    case 11 => "Strategy"
    case 12 => "Sandbox"
    case 13 => "Runner"
    case _ => "Social"
  }

  /** The count shown on a tab: the catalog length for "all", the flagged
      games for "featured" and "new", the games of the category otherwise. */
  function TabCount(catalog: seq<GameResource>, id: string): (n: nat)
    ensures n == Count(catalog, TabRule(id))
  {
    if id == "all" then
      FilterAll(catalog, TabRule(id));
      |catalog|
    else if id == "featured" then
      FilterAgree(catalog, IsFeatured, TabRule(id));
      Count(catalog, IsFeatured)
    else if id == "new" then
      FilterAgree(catalog, IsNew, TabRule(id));
      Count(catalog, IsNew)
    else
      FilterAgree(catalog, HasCategory(id), TabRule(id));
      Count(catalog, HasCategory(id))
  }

  /** `GAME_CATEGORIES`: every tab counts the games its own filter keeps, and
      the "all" tab counts the whole catalog. */
  function CategoryTabs(catalog: seq<GameResource>): (tabs: seq<Tab>)
    ensures |tabs| == TabTotal
    ensures forall k :: 0 <= k < |tabs| ==> tabs[k].id == TabId(k) && tabs[k].name == TabName(k)
    ensures forall k :: 0 <= k < |tabs| ==> tabs[k].count == Count(catalog, TabRule(tabs[k].id))
    ensures tabs[0].id == "all" && tabs[0].count == |catalog|
  {
    FilterAll(catalog, TabRule("all"));
    seq(TabTotal, k requires 0 <= k < TabTotal => Tab(TabId(k), TabName(k), TabCount(catalog, TabId(k))))
  }

  /** A tab's badge equals the number of games the page shows when that tab
      is selected and every other filter is at its default, provided all
      ratings lie within the default 0 to 5 range. */
  lemma TabCountIsShownCount(catalog: seq<GameResource>, k: int)
    requires 0 <= k < TabTotal
    requires forall g :: g in catalog ==> 0.0 <= g.rating <= 5.0
    ensures |Shown(catalog, DefaultFilters().(category := TabId(k)))| == CategoryTabs(catalog)[k].count
  {
    var f := DefaultFilters().(category := TabId(k));
    TrimBlank("");
    FilterAgree(catalog, Keep(f), TabRule(f.category));
  }
}
