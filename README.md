# Gaming content-locker sites, modelled in Dafny

The `gaming` repository holds three small React sites built around
"content lockers": visitors unlock downloads or content by playing a
mini-game or passing an offer wall. This project models the parts of
those sites that hold logic, as opposed to markup:

- **Download-locker configuration** (`lockerConfig.ts`) — module `LockerConfig`, file `locker_config.dfy`:
  - the table from game id to APK URL and its lookup;
  - the redirect URL that the locker sends the visitor back to, on the production and development hosts;
  - the per-game locker configuration.
- **Download-handler page** (`DownloadHandlerPage.tsx`) — module `DownloadHandler`, file `download_handler.dfy`:
  - reading the game id from the query string (`gameId`, falling back to `game`);
  - the validity rule;
  - the missing-URL error;
  - the countdown from 5 that ends in the redirect to the download.
  - `window.location.href` is the page's `location` field. An assignment to it that throws is an input.
- **Game-categories page** (`GameCategoriesPage.tsx`) — module `GameCategories`, file `game_categories.dfy`:
  - the fifteen category tabs with their counts;
  - the filter effect: tab, featured/new checkboxes, search, rating range and platforms;
  - the four sort orders, as a stable in-place insertion sort on an array;
  - `togglePlatform` and `resetFilters`.
- **Resource library** (`ResourceLibrary.tsx`) — module `ResourceLibrary`, file `resource_library.dfy`:
  - the unique categories and their counts;
  - the category and search filter;
  - `clearFilters`.
- **Recommendations page** (`RecommendationsPage.tsx`) — module `Recommendations`, file `recommendations.dfy`:
  - the mount effect: downloaded ids from browser storage;
  - the favourite games;
  - the category tally as a loop over a map;
  - the stable ranking by count and the top three.
- **Content locker** (`gaming-content-locker/src/App.tsx`) — module `ContentLocker`, file `content_locker.dfy`:
  - the three content items and which game unlocks which;
  - the modal title;
  - the unlocked-content list with its load and save effects;
  - the congratulation banner.
- **The three mini-games and the verification dialog**:
  - `MemoryMatch` (`memory_match.dfy`): the card array is an `array<Card>` updated in place.
  - `QuickQuiz` (`quick_quiz.dfy`).
  - `ReactionTest` (`reaction_test.dfy`).
  - `VerificationDialog` (`verification_dialog.dfy`).
  - Each is a class with the component's state as fields, one method per handler, effect or timer callback, and a `Valid()` invariant.

Shared definitions are in `common.dfy` (modules `Options`, `Seqs`, `Text`) and `games.dfy` (module `Games`, the `GameResource` record).

Conventions of the model:

- **Game data.** The catalog `GAME_RESOURCES` is not part of this model, so every operation on it takes the catalog as a `seq<GameResource>`. Ratings are `real`. The record's `new` field is called `isNew`.
- **Browser storage** is a `map<string, string>`.
- **String functions.**
  - `toLowerCase` is ASCII lower-casing, and `toUpperCase` is ASCII upper-casing.
  - `includes` is substring search.
  - `trim` strips JavaScript whitespace.
  - `localeCompare` is lexicographic order.
- **Library functions passed as parameters.**
  - `encodeURIComponent` and the query decoding of `URLSearchParams` are a function pair. It decodes back, and its encodings use only unreserved characters and `%`.
  - `JSON.parse` and `JSON.stringify` are also parameters.
- **Randomness.** A `Math.random` shuffle is an arbitrary permutation of its input, given by the caller.
- **Clock and timers.**
  - `Date.now` is an integer input.
  - Each timer or interval callback is a method the caller invokes.

Where a comment in the source disagrees with its code, the model follows the code:

- The memory game succeeds with at most 15 moves (`moves <= 15`), although the comment says "less than 15".
- The reaction test ends after four recorded attempts (see the findings below), although its comment and its instructions say five.

## Model

| member | source | states |
|---|---|---|
| Games.Ids | gaming-content-locker-react/src/pages/RecommendationsPage.tsx:36 | one id per game, in the order of the games |
| Games.IdsMembers | gaming-content-locker-react/src/pages/RecommendationsPage.tsx:34-36 | an id is listed exactly when some game of the list has it |
| Games.Categories | temp-gamevault-clone/src/components/resources/ResourceLibrary.tsx:15 | one category per game, in the order of the games |
| LockerConfig.ListedIds | gaming-content-locker-react/src/data/lockerConfig.ts:18-31 | the twelve keys of `DOWNLOAD_URLS`, in table order |
| LockerConfig.ListedIdsDistinct | gaming-content-locker-react/src/data/lockerConfig.ts:18-31 | no id has two rows in the table |
| LockerConfig.DownloadUrlsKeys | gaming-content-locker-react/src/data/lockerConfig.ts:18-31 | the table's keys are exactly the twelve listed ids, each mapped to the URL of its own row |
| LockerConfig.DownloadUrlsShape | gaming-content-locker-react/src/data/lockerConfig.ts:18-31 | every URL in the table is `https://dl.example.com/games/` + id + `.apk` |
| LockerConfig.GetDownloadUrl | gaming-content-locker-react/src/data/lockerConfig.ts:34-36 | the URL is non-empty exactly for a listed id, and is then that id's `.apk` URL; any other id gets "" |
| LockerConfig.PropertyLookup | gaming-content-locker-react/src/data/lockerConfig.ts:35 | `DOWNLOAD_URLS[gameId]` yields: the own string exactly for a key; an inherited `Object.prototype` member exactly for a prototype member name that is not a key; `undefined` otherwise |
| LockerConfig.GetDownloadUrlAsWritten | gaming-content-locker-react/src/data/lockerConfig.ts:35 | the `||` expression agrees with `GetDownloadUrl` on strings, and yields a non-string exactly for the prototype member names that are not keys |
| LockerConfig.GetRedirectUrl | gaming-content-locker-react/src/data/lockerConfig.ts:41-52 | on any host but `localhost`: the production page with the encoded id as its `game` parameter; on `localhost`: `/download-handler` with the encoded id as its `gameId` parameter |
| LockerConfig.RedirectUrlInjective | gaming-content-locker-react/src/data/lockerConfig.ts:41-52 | on one host, two ids with the same redirect URL are the same id, given an encoder that decodes back |
| LockerConfig.GetLockerConfigForGame | gaming-content-locker-react/src/data/lockerConfig.ts:55-59 | the configuration carries the redirect URL of the game's id and nothing else |
| DownloadHandler.Get | gaming-content-locker-react/src/pages/DownloadHandlerPage.tsx:19 | `searchParams.get(key)` is present exactly when some pair has the key, and is then the value of the first pair with that key |
| DownloadHandler.GameIdFrom | gaming-content-locker-react/src/pages/DownloadHandlerPage.tsx:19 | the id is the `gameId` parameter if it is non-empty, else the `game` parameter if that is non-empty; it is "" exactly when neither is |
| DownloadHandler.GameIdComesFromParams | gaming-content-locker-react/src/pages/DownloadHandlerPage.tsx:19 | a non-empty id is the value of a `gameId` or a `game` pair of the query |
| DownloadHandler.IsValidRedirect | gaming-content-locker-react/src/pages/DownloadHandlerPage.tsx:22-25 | under an own-property lookup, a request is valid exactly for the twelve listed ids |
| DownloadHandler.IsValidRedirectAsWritten | gaming-content-locker-react/src/pages/DownloadHandlerPage.tsx:22-25 | as written, a request is valid for the listed ids and also for every `Object.prototype` member name that is not a key |
| DownloadHandler.InheritedMemberPassesAsWritten | gaming-content-locker-react/src/pages/DownloadHandlerPage.tsx:25 | the id `toString` passes the validity test as written, and fails it under the own-property lookup |
| DownloadHandler.QueryRoundTrip | gaming-content-locker-react/src/pages/DownloadHandlerPage.tsx:12-19 | a URL `path?name=enc(v)`, with an unreserved name, parses back to the single pair (name, v) |
| DownloadHandler.DevelopmentPrefixSplits | gaming-content-locker-react/src/data/lockerConfig.ts:50 | the development path has no `?` or `#`, and `gameId` is a non-empty unreserved name |
| DownloadHandler.ProductionPrefixSplits | gaming-content-locker-react/src/data/lockerConfig.ts:47 | the production page has no `?` or `#`, and `game` is a non-empty unreserved name |
| DownloadHandler.DevelopmentRoundTrip | gaming-content-locker-react/src/data/lockerConfig.ts:48-51 | the query of the development redirect URL parses to exactly the pair (`gameId`, id) |
| DownloadHandler.ProductionRoundTrip | gaming-content-locker-react/src/data/lockerConfig.ts:45-47 | the query of the production redirect URL parses to exactly the pair (`game`, id) |
| DownloadHandler.GameIdOfSingleParam | gaming-content-locker-react/src/pages/DownloadHandlerPage.tsx:19 | a lone non-empty `gameId` or `game` parameter is the game id |
| DownloadHandler.RedirectRoundTrip | gaming-content-locker-react/src/pages/DownloadHandlerPage.tsx:19-25 | on `localhost`, the redirect URL built for a listed id leads to `/download-handler`, which reads that same id back from `gameId` and finds the request valid |
| DownloadHandler.CountdownStep | gaming-content-locker-react/src/pages/DownloadHandlerPage.tsx:44-57 | a tick fires the redirect exactly when the previous value is at most 1, and the countdown becomes 0; otherwise it goes down by exactly one and stays at least 1 |
| DownloadHandler.CountdownValues | gaming-content-locker-react/src/pages/DownloadHandlerPage.tsx:43-58 | from 5 the countdown reads 5, 4, 3, 2, 1 and then 0; it is never negative |
| DownloadHandler.FifthTickFires | gaming-content-locker-react/src/pages/DownloadHandlerPage.tsx:43-58 | of the ticks of a running countdown, exactly the fifth fires the redirect |
| DownloadHandler.DownloadHandlerPage.Mount | gaming-content-locker-react/src/pages/DownloadHandlerPage.tsx:39-69 | the page reads the id with its fallback and starts at 5. The interval runs exactly for a valid request. A non-empty id without a URL shows "No download URL found for game: " + id, and there is no error otherwise |
| DownloadHandler.DownloadHandlerPage.Tick | gaming-content-locker-react/src/pages/DownloadHandlerPage.tsx:43-59 | the countdown takes one step. When the step fires, the interval stops and the page either is redirected to the download URL or, if the navigation throws, shows the manual-download error |
| DownloadHandler.RunToRedirect | gaming-content-locker-react/src/pages/DownloadHandlerPage.tsx:39-69 | a valid request left alone ends redirected to its download URL, the countdown at 0 and the interval stopped |
| GameCategories.DefaultFilters | gaming-content-locker-react/src/pages/GameCategoriesPage.tsx:60-71 | the initial filters: the "all" tab, an empty query, ratings 0 to 5, no platforms, "popular", and both checkboxes off |
| GameCategories.Shown | gaming-content-locker-react/src/pages/GameCategoriesPage.tsx:74-119 | the games kept are a subsequence of the catalog, and a sub-multiset of it. They are exactly the catalog games that pass every criterion |
| GameCategories.StagesMatch | gaming-content-locker-react/src/pages/GameCategoriesPage.tsx:74-119 | the six filtering steps, applied in the effect's order, keep exactly the games shown |
| GameCategories.FilterByTab | gaming-content-locker-react/src/pages/GameCategoriesPage.tsx:78-86 | the tab step keeps exactly the catalog games the tab rule accepts. "all" keeps every game; "featured" and "new" keep the flagged games; any other tab keeps the games of that category |
| GameCategories.FilterByFlags | gaming-content-locker-react/src/pages/GameCategoriesPage.tsx:89-95 | the checkbox steps narrow the tab's games to the featured ones, the new ones, or both |
| GameCategories.FilterBySearch | gaming-content-locker-react/src/pages/GameCategoriesPage.tsx:98-107 | a blank query keeps every game. Otherwise a game is kept exactly when the lowercased, untrimmed query occurs in its lowercased title, description, category or developer |
| GameCategories.FilterByRatingAndPlatform | gaming-content-locker-react/src/pages/GameCategoriesPage.tsx:110-119 | a game is kept when its rating lies in the inclusive range and, if any platforms are ticked, it shares one of them |
| GameCategories.FilterGames | gaming-content-locker-react/src/pages/GameCategoriesPage.tsx:74-119 | the steps of the effect, in order, produce exactly the games shown |
| GameCategories.SortOrderOf | gaming-content-locker-react/src/pages/GameCategoriesPage.tsx:122-135 | "popular", "rating", "newest" and "name" select their orders, and any other value leaves the list unsorted |
| GameCategories.InOrderTotal | gaming-content-locker-react/src/pages/GameCategoriesPage.tsx:122-135 | each comparator orders any two games one way or the other |
| GameCategories.InOrderTransitive | gaming-content-locker-react/src/pages/GameCategoriesPage.tsx:122-135 | each comparator's order is transitive |
| GameCategories.SortedMeaning | gaming-content-locker-react/src/pages/GameCategoriesPage.tsx:122-135 | in a sorted list: "popular" has non-increasing unlocks; "rating" has non-increasing ratings; under "newest" every new game precedes every game that is not new; "name" has titles in lexicographic order |
| GameCategories.InsertLastSorted | gaming-content-locker-react/src/pages/GameCategoriesPage.tsx:122-135 | inserting a game into a sorted list after every game that may precede it keeps the list sorted |
| GameCategories.InsertLastStable | gaming-content-locker-react/src/pages/GameCategoriesPage.tsx:122-135 | that insertion keeps the relative order of the games tied with any given game, the new game last among them |
| GameCategories.InsertionSortedPermutation | gaming-content-locker-react/src/pages/GameCategoriesPage.tsx:122-135 | insertion sort returns a permutation of its input |
| GameCategories.InsertionSortedSortedStable | gaming-content-locker-react/src/pages/GameCategoriesPage.tsx:122-135 | insertion sort returns a list that is sorted by the order and stable with respect to its input |
| GameCategories.InsertLastAt | gaming-content-locker-react/src/pages/GameCategoriesPage.tsx:122-135 | inserting at the position after the last game that may precede the new one, with none after it that may, is the insertion step of the sort |
| GameCategories.InsertAt | gaming-content-locker-react/src/pages/GameCategoriesPage.tsx:122-135 | one pass of the in-place insertion: the prefix before the game is shifted right up to its place, the game sits after the last earlier game that may precede it, and the rest of the array is unchanged |
| GameCategories.SortGames | gaming-content-locker-react/src/pages/GameCategoriesPage.tsx:122-135 | the array is sorted in place by the chosen order, ends as a permutation of its old contents, and is stable: games the comparator ties keep their relative order |
| GameCategories.ApplyFilters | gaming-content-locker-react/src/pages/GameCategoriesPage.tsx:74-137 | the list shown is a permutation of the filtered games: exactly the matching catalog games, none added or duplicated. It is sorted by the selected order with ties left in catalog order, and is left in catalog order for an unknown key |
| GameCategories.BlankQueryKeepsAll | gaming-content-locker-react/src/pages/GameCategoriesPage.tsx:98 | a whitespace-only query shows the same games as an empty one |
| GameCategories.FeaturedCheckboxNarrows | gaming-content-locker-react/src/pages/GameCategoriesPage.tsx:89-91 | ticking "featured only" shows the featured games of the current result, in the same order |
| GameCategories.ResetShowsWholeCatalog | gaming-content-locker-react/src/pages/GameCategoriesPage.tsx:158-166 | with the default filters, the filtering steps keep a catalog whose ratings lie within 0 to 5 whole and in catalog order, before the sort |
| GameCategories.ShowAfterReset | gaming-content-locker-react/src/pages/GameCategoriesPage.tsx:122-166 | after `resetFilters`, which also selects "popular", the page shows a permutation of the whole catalog (ratings within 0 to 5) with non-increasing unlocks, games with equal unlocks in catalog order |
| GameCategories.TogglePlatform | gaming-content-locker-react/src/pages/GameCategoriesPage.tsx:149-155 | the toggled platform is selected afterwards exactly when it was not before, and no other platform's membership changes. An absent platform is appended at the end |
| GameCategories.ToggleTwice | gaming-content-locker-react/src/pages/GameCategoriesPage.tsx:149-155 | toggling an unselected platform twice restores the selection |
| GameCategories.TabCount | gaming-content-locker-react/src/pages/GameCategoriesPage.tsx:17-31 | a tab's count is the number of catalog games its rule accepts |
| GameCategories.CategoryTabs | gaming-content-locker-react/src/pages/GameCategoriesPage.tsx:16-32 | fifteen tabs with their fixed ids and names, each counting the games its own rule accepts; the "all" tab counts the whole catalog |
| GameCategories.TabCountIsShownCount | gaming-content-locker-react/src/pages/GameCategoriesPage.tsx:16-32 | a tab's count equals the number of games shown when that tab is selected and every other filter is at its default, for ratings within 0 to 5 |
| ResourceLibrary.UniqueCategories | temp-gamevault-clone/src/components/resources/ResourceLibrary.tsx:15 | each catalog category appears exactly once, and nothing else appears |
| ResourceLibrary.UniqueCategoriesInOrder | temp-gamevault-clone/src/components/resources/ResourceLibrary.tsx:15 | the unique categories come in order of first appearance in the catalog |
| ResourceLibrary.EntriesFor | temp-gamevault-clone/src/components/resources/ResourceLibrary.tsx:20-24 | one entry per category, in order: the id, the id capitalised, and the number of games of that category |
| ResourceLibrary.CategoryEntries | temp-gamevault-clone/src/components/resources/ResourceLibrary.tsx:18-25 | "all" comes first with the catalog length. Then each unique category follows with its capitalised name and its number of games |
| ResourceLibrary.UniqueCategoriesAppend | temp-gamevault-clone/src/components/resources/ResourceLibrary.tsx:15 | a new game adds its category at the end of the unique categories exactly when that category is new |
| ResourceLibrary.UniqueCountsSum | temp-gamevault-clone/src/components/resources/ResourceLibrary.tsx:20-24 | the counts of the unique categories add up to the catalog length |
| ResourceLibrary.CategoryCountsSum | temp-gamevault-clone/src/components/resources/ResourceLibrary.tsx:18-25 | the per-category counts add up to the "all" count |
| ResourceLibrary.ByTab | temp-gamevault-clone/src/components/resources/ResourceLibrary.tsx:41-49 | the tab step keeps exactly the catalog games the tab rule accepts, in order |
| ResourceLibrary.FilterResources | temp-gamevault-clone/src/components/resources/ResourceLibrary.tsx:37-63 | the list is an order-preserving subsequence of the catalog, with no sort. It holds exactly the games that pass the tab rule and the search |
| ResourceLibrary.SearchIgnoresDeveloper | temp-gamevault-clone/src/components/resources/ResourceLibrary.tsx:52-60 | the library's search does not look at the developer |
| ResourceLibrary.ClearFilters | temp-gamevault-clone/src/components/resources/ResourceLibrary.tsx:74-77 | clearing selects the "all" tab and an empty query |
| ResourceLibrary.ClearFiltersShowsAll | temp-gamevault-clone/src/components/resources/ResourceLibrary.tsx:74-77 | after clearing, the whole catalog is listed in order |
| Recommendations.DownloadedIds | gaming-content-locker-react/src/pages/RecommendationsPage.tsx:34-36 | the ids of exactly the catalog games whose `unlocked_<id>` entry is `'true'`, in catalog order |
| Recommendations.DownloadedIdMember | gaming-content-locker-react/src/pages/RecommendationsPage.tsx:34-36 | an id is downloaded exactly when a catalog game has it and its store entry says `'true'` |
| Recommendations.ForeignWishlistIdsIgnored | gaming-content-locker-react/src/pages/RecommendationsPage.tsx:45-46 | wishlist ids that name no catalog game change nothing |
| Recommendations.CountFavoriteCategories | gaming-content-locker-react/src/pages/RecommendationsPage.tsx:42-50 | the map gets one key per distinct favourite category, in order of first appearance. Each key maps to the number of favourite games of that category |
| Recommendations.TallyStep | gaming-content-locker-react/src/pages/RecommendationsPage.tsx:47-49 | one `forEach` step keeps the tally exact: the keys stay the distinct categories so far, in order of first appearance, each mapped to its number of games so far |
| Recommendations.Entries | gaming-content-locker-react/src/pages/RecommendationsPage.tsx:53 | the map's entries, in key order, each paired with its count |
| Recommendations.SortByCount | gaming-content-locker-react/src/pages/RecommendationsPage.tsx:53-54 | the ranking is a permutation of the entries |
| Recommendations.SortByCountSorted | gaming-content-locker-react/src/pages/RecommendationsPage.tsx:53-54 | the ranking has non-increasing counts |
| Recommendations.SortByCountStable | gaming-content-locker-react/src/pages/RecommendationsPage.tsx:53-54 | for every count, the entries with that count keep their relative order, as the stable sort of ECMAScript 2019 (section 23.1.3.30) requires |
| Recommendations.Keys | gaming-content-locker-react/src/pages/RecommendationsPage.tsx:55 | one category per entry, in order |
| Recommendations.TopThree | gaming-content-locker-react/src/pages/RecommendationsPage.tsx:58 | a prefix of at most three. It is exactly three long when three exist, and the whole list otherwise |
| Recommendations.Tally | gaming-content-locker-react/src/pages/RecommendationsPage.tsx:42-53 | one entry per distinct favourite category, in order of first appearance, with its number of favourite games |
| Recommendations.LoadUserCategories | gaming-content-locker-react/src/pages/RecommendationsPage.tsx:32-58 | the mount effect sets `userCategories` to the top three ranked categories of the downloaded or wishlisted catalog games |
| Recommendations.RankedEntriesAreCounts | gaming-content-locker-react/src/pages/RecommendationsPage.tsx:42-54 | each ranked entry is a favourite category with its own count, and every distinct category is ranked |
| Recommendations.RankedKeysNoDup | gaming-content-locker-react/src/pages/RecommendationsPage.tsx:53-55 | no category is ranked twice |
| Recommendations.UserCategoriesProperties | gaming-content-locker-react/src/pages/RecommendationsPage.tsx:58 | at most three categories, no repeats, each the category of a favourite game. None is outranked by a category left out. There are three whenever three distinct categories exist |
| Recommendations.UserCategoryIsFavoured | gaming-content-locker-react/src/pages/RecommendationsPage.tsx:58 | every user category is the category of some downloaded or wishlisted game |
| Recommendations.NothingFavouredNoCategories | gaming-content-locker-react/src/pages/RecommendationsPage.tsx:42-58 | with nothing downloaded and an empty wishlist there are no user categories |
| ContentLocker.ContentItems | gaming-content-locker/src/App.tsx:18-37 | three items, with the ids `premium-wallpapers`, `exclusive-guides` and `character-skins` |
| ContentLocker.ContentIds | gaming-content-locker/src/App.tsx:18-37 | the three item ids, in order |
| ContentLocker.ContentIdsDistinct | gaming-content-locker/src/App.tsx:18-37 | no two items share an id |
| ContentLocker.ContentFor | gaming-content-locker/src/App.tsx:167-196 | each game card unlocks one of the three items |
| ContentLocker.GameFor | gaming-content-locker/src/App.tsx:167-196 | an id has a game exactly when it is one of the items |
| ContentLocker.ContentMappingBijective | gaming-content-locker/src/App.tsx:167-196 | memory unlocks wallpapers, quiz unlocks guides, reaction unlocks skins. Each item is unlocked by exactly one game |
| ContentLocker.GameTitle | gaming-content-locker/src/App.tsx:109-122 | "" exactly when no game is active; otherwise the fixed title of the active game's type |
| ContentLocker.GameTitleInjective | gaming-content-locker/src/App.tsx:109-122 | games of different types have different titles |
| ContentLocker.AddUnlocked | gaming-content-locker/src/App.tsx:80-82 | the list only grows, by at most one item: the new item, when it is absent. No repeat is ever introduced |
| ContentLocker.AddUnlockedIdempotent | gaming-content-locker/src/App.tsx:80-82 | adding the same item twice adds it once |
| ContentLocker.BannerIffAllUnlocked | gaming-content-locker/src/App.tsx:210 | for a list of known items without repeats, the banner shows exactly when every item is unlocked |
| ContentLocker.Adopted | gaming-content-locker/src/App.tsx:56-68 | the stored text is adopted exactly when it is present, non-empty, and parses to an array; the array is then adopted |
| ContentLocker.Saved | gaming-content-locker/src/App.tsx:71-75 | a non-empty list is written under `unlockedContent`; an empty list writes nothing; other keys are untouched |
| ContentLocker.SaveLoadRoundTrip | gaming-content-locker/src/App.tsx:56-75 | a saved non-empty list is loaded back unchanged |
| ContentLocker.EmptyListKeepsSaved | gaming-content-locker/src/App.tsx:71-75 | saving an empty list cannot erase a saved one |
| ContentLocker.ContentLockerApp.Mount | gaming-content-locker/src/App.tsx:44-68 | the first render starts with no active game and the adopted list, or an empty one |
| ContentLocker.ContentLockerApp.SaveEffect | gaming-content-locker/src/App.tsx:71-75 | the storage becomes `Saved` of the current list; nothing else changes |
| ContentLocker.ContentLockerApp.Play | gaming-content-locker/src/App.tsx:167-196 | a card's play button activates its game with the item it unlocks |
| ContentLocker.ContentLockerApp.HandleGameComplete | gaming-content-locker/src/App.tsx:78-90 | a success with an active game adds its item if absent and schedules the close. A failure changes neither the list nor the active game. The list only grows and stays free of repeats |
| ContentLocker.ContentLockerApp.CloseTimerFires | gaming-content-locker/src/App.tsx:84-86 | the modal closes; the list is unchanged |
| ContentLocker.Win | gaming-content-locker/src/App.tsx:78-90 | playing a game to a win and letting the modal close adds its item to the list |
| ContentLocker.UnlockInCardOrder | gaming-content-locker/src/App.tsx:167-196 | unlocking the three games' items in card order gives the item list |
| ContentLocker.WinAll | gaming-content-locker/src/App.tsx:210 | from a fresh start, winning all three games unlocks every item, and the banner shows |
| MemoryMatch.CardIconsDistinct | gaming-content-locker/src/components/games/MemoryMatch.tsx:4-6 | the eight icons are pairwise different |
| MemoryMatch.OrderedDeck | gaming-content-locker/src/components/games/MemoryMatch.tsx:23-29 | sixteen cards; card `i` has id `i` and icon `i % 8`, face down and unmatched |
| MemoryMatch.OrderedDeckPairs | gaming-content-locker/src/components/games/MemoryMatch.tsx:23-29 | every icon is on exactly two cards |
| MemoryMatch.ShuffledDeck | gaming-content-locker/src/components/games/MemoryMatch.tsx:23-30 | any shuffle has sixteen cards with each icon exactly twice, all face down and unmatched, with ids 0 to 15 |
| MemoryMatch.MemoryMatch.constructor | gaming-content-locker/src/components/games/MemoryMatch.tsx:13-18 | no cards, nothing pending, 0 moves and 0 pairs, not over and not started |
| MemoryMatch.MemoryMatch.InitializeGame | gaming-content-locker/src/components/games/MemoryMatch.tsx:21-38 | the shuffled deck is dealt, with no pending cards, 0 moves and 0 pairs; the game is started and not over |
| MemoryMatch.MemoryMatch.HandleCardClick | gaming-content-locker/src/components/games/MemoryMatch.tsx:41-55 | a click is ignored when the game is over, the indexed card is face up or matched, or two cards are pending. Otherwise exactly that card turns face up and its index joins the pending cards, which never exceed two. Moves and pairs are untouched |
| MemoryMatch.MemoryMatch.ClickCard | gaming-content-locker/src/components/games/MemoryMatch.tsx:125 | as rendered, clicking the card at a position acts on the position given by that card's pre-shuffle id |
| MemoryMatch.MemoryMatch.ClickCardAt | gaming-content-locker/src/components/games/MemoryMatch.tsx:41-55 | indexing by position, an accepted click turns over the clicked card and leaves every other card as it was |
| MemoryMatch.MemoryMatch.MatchCheckEffect | gaming-content-locker/src/components/games/MemoryMatch.tsx:58-82 | with two cards pending, one move is counted. Equal icons: both cards are matched, the pairs go up by one and nothing is pending. Different icons: the cards are unchanged, the turn-back timer is set, and the effect stays due because `moves` changed. With fewer than two pending, nothing changes and the effect is no longer due |
| MemoryMatch.MemoryMatch.MatchCheckEffectOnce | gaming-content-locker/src/components/games/MemoryMatch.tsx:58-82 | with two cards pending, one move is counted. Equal icons: both cards are matched, the pairs go up by one and nothing is pending. Different icons: the cards are unchanged, the turn-back timer is set and the effect is not due again. With fewer than two pending, nothing changes. It keeps `moves` equal to the number of pairs turned over |
| MemoryMatch.MemoryMatch.ResolvePair | gaming-content-locker/src/components/games/MemoryMatch.tsx:61-80 | equal icons: both pending cards are matched and the pairs go up by one. Different icons: the cards stay as they are and the turn-back timer is set |
| MemoryMatch.MemoryMatch.FlipBackTimer | gaming-content-locker/src/components/games/MemoryMatch.tsx:73-79 | both pending cards turn face down again, nothing is pending, and moves and pairs are unchanged |
| MemoryMatch.MemoryMatch.GameOverEffect | gaming-content-locker/src/components/games/MemoryMatch.tsx:85-92 | the game ends exactly when it is started and all eight pairs are matched; it succeeds exactly when there were at most 15 moves |
| MemoryMatch.PairsBounded | gaming-content-locker/src/components/games/MemoryMatch.tsx:60-69 | never more than eight pairs, and never more pairs than moves |
| MemoryMatch.AllMatchedAtGameOver | gaming-content-locker/src/components/games/MemoryMatch.tsx:85-90 | with eight pairs every card is matched, and at least eight moves were made |
| MemoryMatch.ClickedCardStaysDown | gaming-content-locker/src/components/games/MemoryMatch.tsx:125 | on a deck whose first two cards are swapped, clicking the first card turns over the second and leaves the clicked one face down |
| MemoryMatch.ClickedCardTurnsUp | gaming-content-locker/src/components/games/MemoryMatch.tsx:43-54 | on the same deck, clicking by position turns over the clicked card only |
| MemoryMatch.MismatchCountedTwice | gaming-content-locker/src/components/games/MemoryMatch.tsx:58-82 | one mismatched pair, with the effect run as scheduled, counts two moves, and the effect is still due |
| MemoryMatch.MismatchCountedOnce | gaming-content-locker/src/components/games/MemoryMatch.tsx:58-82 | the same play, run once per pair, counts one move, and the effect is no longer due |
| QuickQuiz.QuizQuestion | gaming-content-locker/src/components/games/QuickQuiz.tsx:14-45 | question `k` has id `k + 1`, with its own options and correct index |
| QuickQuiz.QuestionAnswerable | gaming-content-locker/src/components/games/QuickQuiz.tsx:14-45 | every question has four options, and its correct index is one of them |
| QuickQuiz.QuizQuestions | gaming-content-locker/src/components/games/QuickQuiz.tsx:14-45 | five answerable questions with distinct ids |
| QuickQuiz.CorrectCount | gaming-content-locker/src/components/games/QuickQuiz.tsx:77-79 | the correct answers never outnumber the answers |
| QuickQuiz.AllCorrectCount | gaming-content-locker/src/components/games/QuickQuiz.tsx:77-79 | answering every question correctly scores every answer |
| QuickQuiz.Quiz.constructor | gaming-content-locker/src/components/games/QuickQuiz.tsx:48-54 | no questions, index 0, no selection, score 0, answer hidden, not complete, not started |
| QuickQuiz.Quiz.StartQuiz | gaming-content-locker/src/components/games/QuickQuiz.tsx:57-67 | the shuffled questions, index 0, score 0, no selection, answer hidden, not complete |
| QuickQuiz.Quiz.HandleOptionSelect | gaming-content-locker/src/components/games/QuickQuiz.tsx:70-80 | once the answer is shown, selecting does nothing. Otherwise the answer is shown and the score rises by one exactly for the correct option, so each question scores at most once |
| QuickQuiz.Quiz.HandleNextQuestion | gaming-content-locker/src/components/games/QuickQuiz.tsx:83-91 | the next question with the selection cleared, or completion after the last one; the score is unchanged |
| QuickQuiz.Quiz.Outcome | gaming-content-locker/src/components/games/QuickQuiz.tsx:94-100 | an outcome is reported exactly when the quiz is complete; it is success exactly with a score of at least 4 |
| QuickQuiz.ScoreBounded | gaming-content-locker/src/components/games/QuickQuiz.tsx:70-91 | the score never exceeds the questions answered, which never exceed five |
| QuickQuiz.OutcomeMeansFourCorrect | gaming-content-locker/src/components/games/QuickQuiz.tsx:94-100 | a finished quiz has all five answered, and it reports success exactly when at least four were correct |
| QuickQuiz.ShuffledQuestions | gaming-content-locker/src/components/games/QuickQuiz.tsx:59 | any shuffle keeps five answerable questions |
| QuickQuiz.PlayPerfectly | gaming-content-locker/src/components/games/QuickQuiz.tsx:57-100 | whatever the shuffle, answering every question correctly reports success |
| ReactionTest.FastTimesSucceed | gaming-content-locker/src/components/games/ReactionTest.tsx:169-171 | times all below 500 ms, with at least one positive, average below 500 ms |
| ReactionTest.SlowTimesFail | gaming-content-locker/src/components/games/ReactionTest.tsx:169-171 | positive times all of at least 500 ms never average below 500 ms |
| ReactionTest.ReactionTest.constructor | gaming-content-locker/src/components/games/ReactionTest.tsx:8-12 | ready, start and reaction times 0, no attempts, countdown at 3 |
| ReactionTest.ReactionTest.StartGame | gaming-content-locker/src/components/games/ReactionTest.tsx:16-20 | the game waits with the countdown at 3 and no attempts |
| ReactionTest.ReactionTest.CountdownTick | gaming-content-locker/src/components/games/ReactionTest.tsx:24-30 | while waiting, a tick lowers a positive countdown by exactly one |
| ReactionTest.ReactionTest.TargetAppears | gaming-content-locker/src/components/games/ReactionTest.tsx:31-37 | once the countdown is at 0, the delay timer records the start time and moves the game to the click state |
| ReactionTest.ReactionTest.HandleEarlyClick | gaming-content-locker/src/components/games/ReactionTest.tsx:46-50 | an early click shows the result with reaction time -1 and leaves the attempts unchanged |
| ReactionTest.ReactionTest.HandleClick | gaming-content-locker/src/components/games/ReactionTest.tsx:53-63 | only in the click state: the elapsed time becomes the reaction time, is appended to the attempts, and the result is shown. In any other state nothing changes |
| ReactionTest.ReactionTest.HandleNextAttempt | gaming-content-locker/src/components/games/ReactionTest.tsx:66-79 | the game completes exactly when at least four attempts exist and the reaction time is positive. It then reports the average of the attempts with the reaction time appended once more. Otherwise it waits again with the countdown at 3 |
| ReactionTest.ReactionTest.HandleNextAttemptOnce | gaming-content-locker/src/components/games/ReactionTest.tsx:66-79 | the game completes after five attempts and reports the average the complete screen shows |
| ReactionTest.ReactionTest.ResetGame | gaming-content-locker/src/components/games/ReactionTest.tsx:82-85 | ready again, with no attempts |
| ReactionTest.ReportedCountsLastTwice | gaming-content-locker/src/components/games/ReactionTest.tsx:58-70 | on a result with a positive time, that time is already the last attempt, so the reported average counts it twice |
| ReactionTest.PlayRound | gaming-content-locker/src/components/games/ReactionTest.tsx:23-63 | a full countdown, the target and a click append exactly that time to the attempts |
| ReactionTest.FourAttemptsReportFailure | gaming-content-locker/src/components/games/ReactionTest.tsx:66-79 | attempts of 400, 400, 400 and 700 ms complete the game and report failure, though their own average is below 500 ms |
| ReactionTest.ReportedAndShown | gaming-content-locker/src/components/games/ReactionTest.tsx:69-74 | for those attempts the reported average fails the 500 ms bound, while the average over the attempts alone passes it |
| ReactionTest.FourAttemptsContinue | gaming-content-locker/src/components/games/ReactionTest.tsx:66-79 | under the five-attempt rule the same four attempts lead to a fifth instead of completing |
| VerificationDialog.ProgressStep | temp-gamevault-clone/src/components/shared/VerificationDialog.tsx:29-38 | below 100 a tick adds exactly 4. At 100 or more the progress stays at 100, the interval stops, and `onComplete` is scheduled |
| VerificationDialog.ProgressValues | temp-gamevault-clone/src/components/shared/VerificationDialog.tsx:27-38 | the progress from 0 runs 0, 4, ..., 100 over 25 ticks and then stays at 100 |
| VerificationDialog.StopsOnTick26 | temp-gamevault-clone/src/components/shared/VerificationDialog.tsx:27-38 | the interval stops on the 26th tick and no earlier |
| VerificationDialog.Dialog.constructor | temp-gamevault-clone/src/components/shared/VerificationDialog.tsx:19 | closed, progress 0, no interval, no `onComplete` pending and none called |
| VerificationDialog.Dialog.SetOpen | temp-gamevault-clone/src/components/shared/VerificationDialog.tsx:21-41 | the effect run for the current `isOpen` resets the progress to 0, and the interval runs exactly while the dialog is open. The cleanup clears only the interval, so an `onComplete` already scheduled stays pending |
| VerificationDialog.Dialog.Tick | temp-gamevault-clone/src/components/shared/VerificationDialog.tsx:29-38 | one progress step, with the dialog still open; one more `onComplete` is pending exactly when the interval stops |
| VerificationDialog.Dialog.CompleteTimerFires | temp-gamevault-clone/src/components/shared/VerificationDialog.tsx:32-34 | the 400 ms timer calls `onComplete` once and changes nothing else |
| VerificationDialog.RunToCompletion | temp-gamevault-clone/src/components/shared/VerificationDialog.tsx:21-41 | an opened dialog left alone schedules `onComplete` after exactly 26 ticks, with the progress at 100 |
| VerificationDialog.CompletesAfterClose | temp-gamevault-clone/src/components/shared/VerificationDialog.tsx:21-41 | a dialog closed after it scheduled `onComplete` and before the 400 ms timer fires still calls `onComplete` once, and is then closed with progress 0 |

## Left out

- Rendering, routing and styling are not modelled:
  - all JSX;
  - `GameModal`, `Homepage`, `ContentDisplay` and `ContentVault`;
  - the FAQ and not-found pages, and the router table;
  - the modal and dropdown visibility flags;
  - the manual download button.
- The offer-wall lockers (`CustomLocker`, `AdBlueMediaDirectLocker`, `AdBlueMediaLockerDialog`) and the script loader `adblueMediaHelper.ts` are not part of this model. They are DOM, iframe and message plumbing around a third-party service.
- The catalog `GAME_RESOURCES` is not part of this model. Every operation takes the catalog as a parameter.
- The recommendation lists (`loadRecommendations` and the `RecommendationEngine` behind it) and the wishlist context are not part of this model. The wishlist enters only as a list of ids.
- Library and environment calls are parameters. This covers `encodeURIComponent`, query decoding, `JSON.parse`, `JSON.stringify`, `Date.now`, the `window.location.hostname` test, and `Math.random` shuffles and delays. The shuffle's bias and the 2–5 s random delay of the reaction test are not modelled.
- Logging (`console.log`, `console.error`) and the download page's logging effect, which reads `unlocked_<id>` only to print it, are left out.
- Timer delays (60 ms, 400 ms, 1 s, 3 s) are not modelled. Each callback is a method that the caller invokes when the timer fires.
- LockerConfig.GetRedirectUrl: the encoder is abstract. It is specified only as decodable, with unreserved output. No concrete percent-encoding is modelled.
- DownloadHandler.RedirectRoundTrip: stated for `localhost` only. The production URL has the path `/`, which the router (gaming-content-locker-react/src/App.tsx:62) gives to the home page; the download handler is routed only at `/download-handler` (App.tsx:67). The home page is not part of this model, so for production only the query round trip is proved (DownloadHandler.ProductionRoundTrip): if the handler read that query, it would find the id through its `game` fallback.
- DownloadHandler.ParseQuery: fragments, repeated parameters and percent-decoding failures are modelled only as far as the redirect URLs need.
- GameCategories.ResetShowsWholeCatalog: holds for catalogs whose ratings lie within 0 to 5. A game rated outside that range is hidden even after a reset.
- GameCategories.TabCountIsShownCount: holds under the same rating assumption.
- GameCategories.ShowAfterReset: holds under the same rating assumption.
- GameCategories.ToggleTwice: stated for a platform that is not selected. Toggling a selected platform twice moves it to the end of the list.
- MemoryMatch.MemoryMatch.FlipBackTimer: models one pending turn-back timer. As written, each repeated run of the match check schedules another timer, each holding a copy of the cards from its own render. These extra timers are not modelled.
- MemoryMatch.MemoryMatch.GameOverEffect: reports the outcome each time it runs with eight pairs. The re-runs caused by a new `onGameComplete` identity on each parent render are not modelled.
- ContentLocker.ContentItems: the preview image of each item is left out.
- The card click in the memory game keeps the array update in place. The object shared by the shallow copy `[...cards]` is the same array element here, so aliasing between renders is not modelled.

## Findings

| source | as written | input that shows it | evidently intended | confidence | as-written member | corrected member |
|---|---|---|---|---|---|---|
| gaming-content-locker-react/src/data/lockerConfig.ts:35 | `DOWNLOAD_URLS[gameId] \|\| ""` reads inherited `Object.prototype` members, which are truthy. The download page therefore treats names like `toString` as valid and counts down to a redirect to a function value | the query `?gameId=toString` | only the twelve ids of the table have a download URL | high (not executed) | DownloadHandler.InheritedMemberPassesAsWritten | LockerConfig.GetDownloadUrl |
| gaming-content-locker/src/components/games/MemoryMatch.tsx:58-82 | the match check lists `moves` among its dependencies and sets it. After a mismatch the two cards stay pending for a second, so every run changes `moves` and schedules another run, which counts the same pair again, until the turn-back timer empties `flippedCards` | turn over the first two cards of an unshuffled deck, whose icons differ | exactly one move per pair turned over | high (not executed) | MemoryMatch.MismatchCountedTwice | MemoryMatch.MemoryMatch.MatchCheckEffectOnce |
| gaming-content-locker/src/components/games/MemoryMatch.tsx:125 | the click passes `card.id`, the card's place before the shuffle, and `handleCardClick` uses it as a place in the shuffled array | a deck whose first two cards are swapped: clicking the first card turns over the second | the clicked card turns over | high (not executed) | MemoryMatch.ClickedCardStaysDown | MemoryMatch.MemoryMatch.ClickCardAt |
| gaming-content-locker/src/components/games/ReactionTest.tsx:68-74 | the game completes once four attempts are recorded. It then averages `[...attempts, reactionTime]`, where the reaction time is already the last attempt | attempts of 400, 400, 400 and 700 ms: 520 ms reported (failure), while the complete screen shows 475 ms (success) | five attempts, each counted once, as the instructions (lines 95-96) and the complete screen (lines 169-171) say | high (not executed) | ReactionTest.FourAttemptsReportFailure | ReactionTest.ReactionTest.HandleNextAttemptOnce |
