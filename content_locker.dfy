/** The first site's content locker: three mini-games, each unlocking one
    content item, and the list of unlocked items kept in browser storage. */
module ContentLocker {
  import opened Options
  import opened Seqs

  // ---------------------------------------------------------------------
  // Content items and the game that unlocks each
  // ---------------------------------------------------------------------

  datatype ContentItem = ContentItem(id: string, name: string, description: string)

  /** The id of entry `k` of `CONTENT_ITEMS`. */
  function ContentId(k: int): string
  {
    match k
    case 0 => "premium-wallpapers"
    case 1 => "exclusive-guides"
    case _ => "character-skins"
  }

  function ContentName(k: int): string
  {
    match k
    case 0 => "Premium Wallpapers"
    case 1 => "Exclusive Strategy Guides"
    case _ => "Character Skins"
  }

  function ContentDescription(k: int): string
  {
    match k
    case 0 => "High-quality gaming wallpapers for your desktop"
    case 1 => "In-depth guides for popular games"
    case _ => "Exclusive character appearances and customizations"
  }

  /** `CONTENT_ITEMS` (preview images left out). */
  function ContentItems(): (items: seq<ContentItem>)
    ensures |items| == 3
    ensures forall k :: 0 <= k < 3 ==> items[k].id == ContentId(k)
  {
    seq(3, k requires 0 <= k < 3 => ContentItem(ContentId(k), ContentName(k), ContentDescription(k)))
  }

  /** The ids of the content items, in order. */
  function ContentIds(): (ids: seq<string>)
    ensures |ids| == 3
    ensures forall k :: 0 <= k < 3 ==> ids[k] == ContentId(k)
  {
    seq(3, k requires 0 <= k < 3 => ContentId(k))
  }

  /** No two content items share an id. */
  lemma ContentIdsDistinct()
    ensures NoDup(ContentIds())
  {
    var ids := ContentIds();
    assert ids[0][0] == 'p' && ids[1][0] == 'e' && ids[2][0] == 'c';
  }

  datatype GameType = Memory | Quiz | Reaction

  /** The position of the item a game's card unlocks. */
  function CardIndex(kind: GameType): (k: int)
    ensures 0 <= k < 3
  {
    match kind
    case Memory => 0
    case Quiz => 1
    case Reaction => 2
  }

  /** The item each game card unlocks when played. */
  function ContentFor(kind: GameType): (c: string)
    ensures c in ContentIds()
  {
    ContentIds()[CardIndex(kind)]
  }

  /** The game that unlocks a content id, if any. */
  function GameFor(c: string): (kind: Option<GameType>)
    ensures kind.Some? <==> c in ContentIds()
  {
    if c == ContentId(0) then Some(Memory)
    else if c == ContentId(1) then Some(Quiz)
    else if c == ContentId(2) then Some(Reaction)
    else None
  }

  /** Each item is unlocked by exactly one game: `GameFor` inverts
      `ContentFor`, in both directions. */
  lemma ContentMappingBijective(kind: GameType, c: string)
    ensures GameFor(ContentFor(kind)) == Some(kind)
    ensures c in ContentIds() ==> ContentFor(GameFor(c).value) == c
  {
    ContentIdsDistinct();
    assert ContentFor(kind) == ContentId(CardIndex(kind));
  }

  datatype ActiveGame = ActiveGame(kind: GameType, contentToUnlock: string)

  /** `getGameTitle`: the modal title of the active game, `""` without one. */
  function GameTitle(active: Option<ActiveGame>): (title: string)
    ensures title == "" <==> active.None?
    ensures active.Some? && active.value.kind == Memory ==> title == "Memory Match Challenge"
    ensures active.Some? && active.value.kind == Quiz ==> title == "Gaming Knowledge Quiz"
    ensures active.Some? && active.value.kind == Reaction ==> title == "Reaction Speed Test"
  {
    match active
    case None => ""
    case Some(game) =>
      match game.kind
      case Memory => "Memory Match Challenge"
      case Quiz => "Gaming Knowledge Quiz"
      case Reaction => "Reaction Speed Test"
  }

  /** Different games have different titles. */
  lemma GameTitleInjective(a: ActiveGame, b: ActiveGame)
    requires a.kind != b.kind
    ensures GameTitle(Some(a)) != GameTitle(Some(b))
  {
  }

  // ---------------------------------------------------------------------
  // The unlocked list
  // ---------------------------------------------------------------------

  /** `[...unlockedContent, c]` when `c` is absent, the list itself otherwise. */
  function AddUnlocked(u: seq<string>, c: string): (r: seq<string>)
    ensures u <= r && |r| <= |u| + 1
    ensures forall x :: x in r <==> x in u || x == c
    ensures NoDup(u) ==> NoDup(r)
  {
    if c in u then u
    else
      assert NoDup(u) ==> NoDup(u + [c]) by {
        if NoDup(u) {
          forall i, j | 0 <= i < j < |u + [c]|
            ensures (u + [c])[i] != (u + [c])[j]
          {
            if j == |u| {
              assert (u + [c])[i] == u[i];
            }
          }
        }
      }
      u + [c]
  }

  /** Adding an item twice adds it once. */
  lemma AddUnlockedIdempotent(u: seq<string>, c: string)
    ensures AddUnlocked(AddUnlocked(u, c), c) == AddUnlocked(u, c)
  {
  }

  /** A list without repeats holds at most as many items as a set it stays in. */
  lemma {:induction false} NoDupCardinality(u: seq<string>)
    requires NoDup(u)
    ensures |set x | x in u| == |u|
    decreases |u|
  {
    if u != [] {
      var t := u[..|u| - 1];
      var y := u[|u| - 1];
      assert u == t + [y];
      assert NoDup(t) by {
        forall i, j | 0 <= i < j < |t|
          ensures t[i] != t[j]
        {
          assert t[i] == u[i] && t[j] == u[j];
        }
      }
      NoDupCardinality(t);
      assert y !in t by {
        forall k | 0 <= k < |t|
          ensures t[k] != y
        {
          assert t[k] == u[k];
        }
      }
      assert (set x | x in u) == (set x | x in t) + {y};
    }
  }

  /** The congratulation banner: as many unlocked entries as content items. */
  predicate ShowsBanner(u: seq<string>)
  {
    |u| == |ContentItems()|
  }

  /** For a list of known items without repeats, the banner shows exactly when
      every item is unlocked. */
  lemma BannerIffAllUnlocked(u: seq<string>)
    requires NoDup(u)
    requires forall x :: x in u ==> x in ContentIds()
    ensures ShowsBanner(u) <==> forall c :: c in ContentIds() ==> c in u
  {
    var all := set c | c in ContentIds();
    var have := set x | x in u;
    ContentIdsDistinct();
    NoDupCardinality(ContentIds());
    NoDupCardinality(u);
    assert have <= all;
    assert all == (all - have) + have;
    assert |all| == |all - have| + |have|;
    if ShowsBanner(u) {
      assert all - have == {};
      forall c | c in ContentIds()
        ensures c in u
      {
        assert c in all;
      }
    }
    if forall c :: c in ContentIds() ==> c in u {
      assert all <= have;
      assert all - have == {};
    }
  }

  // ---------------------------------------------------------------------
  // Storage
  // ---------------------------------------------------------------------

  const StorageKey := "unlockedContent"

  /** What `JSON.parse` makes of the stored text. */
  datatype Parsed = JsonArray(items: seq<string>) | JsonOther | JsonError

  /** The load effect: the stored text is used only when it is present, not
      empty, and parses to an array. */
  function Adopted(storage: map<string, string>, parse: string -> Parsed): (r: Option<seq<string>>)
    ensures r.Some? <==>
      StorageKey in storage && storage[StorageKey] != "" && parse(storage[StorageKey]).JsonArray?
    ensures r.Some? ==> r.value == parse(storage[StorageKey]).items
  {
    if StorageKey in storage && storage[StorageKey] != "" then
      match parse(storage[StorageKey])
      case JsonArray(items) => Some(items)
      case _ => None
    else None
  }

  /** The save effect: the list is written only when it is not empty. */
  function Saved(storage: map<string, string>, u: seq<string>, stringify: seq<string> -> string): (r: map<string, string>)
    ensures |u| == 0 ==> r == storage
    ensures |u| > 0 ==> StorageKey in r && r[StorageKey] == stringify(u)
    ensures forall k :: k != StorageKey ==> (k in r <==> k in storage) && (k in r ==> r[k] == storage[k])
  {
    if |u| > 0 then storage[StorageKey := stringify(u)] else storage
  }

  /** With a `JSON.stringify` that `JSON.parse` reads back, a saved list is
      the list adopted on the next load. */
  lemma SaveLoadRoundTrip(storage: map<string, string>, u: seq<string>,
                          stringify: seq<string> -> string, parse: string -> Parsed)
    requires |u| > 0
    requires stringify(u) != "" && parse(stringify(u)) == JsonArray(u)
    ensures Adopted(Saved(storage, u, stringify), parse) == Some(u)
  {
  }

  /** An empty list is never written, so it cannot erase a saved one. */
  lemma EmptyListKeepsSaved(storage: map<string, string>, stringify: seq<string> -> string, parse: string -> Parsed)
    ensures Adopted(Saved(storage, [], stringify), parse) == Adopted(storage, parse)
  {
  }

  // ---------------------------------------------------------------------
  // The application state
  // ---------------------------------------------------------------------

  class ContentLockerApp {
    var unlockedContent: seq<string>
    var activeGame: Option<ActiveGame>
    var storage: map<string, string>
    /** The three-second timer that closes the modal after a success. */
    var closePending: bool

    ghost predicate Valid()
      reads this
    {
      && (activeGame.Some? ==> activeGame.value.contentToUnlock == ContentFor(activeGame.value.kind))
      && (closePending ==> activeGame.Some?)
    }

    /** Unlocked items are known items, each listed once. */
    ghost predicate Clean()
      reads this
    {
      NoDup(unlockedContent) && forall x :: x in unlockedContent ==> x in ContentIds()
    }

    /** First render: an empty list, then the load effect. */
    constructor Mount(stored: map<string, string>, parse: string -> Parsed)
      ensures Valid()
      ensures storage == stored && activeGame == None && !closePending
      ensures unlockedContent == match Adopted(stored, parse) case Some(items) => items case None => []
    {
      storage := stored;
      activeGame := None;
      closePending := false;
      unlockedContent := [];
      new;
      var adopted := Adopted(stored, parse);
      if adopted.Some? {
        unlockedContent := adopted.value;
      }
    }

    /** The save effect, run whenever the list changes. */
    method SaveEffect(stringify: seq<string> -> string)
      requires Valid()
      modifies this
      ensures Valid()
      ensures storage == Saved(old(storage), unlockedContent, stringify)
      ensures unchanged(this`unlockedContent, this`activeGame, this`closePending)
    {
      if |unlockedContent| > 0 {
        storage := storage[StorageKey := stringify(unlockedContent)];
      }
    }

    /** The "Play" button of a game card. */
    method Play(kind: GameType)
      requires Valid()
      modifies this
      ensures Valid()
      ensures activeGame == Some(ActiveGame(kind, ContentFor(kind)))
      ensures GameTitle(activeGame) != ""
      ensures unchanged(this`unlockedContent, this`storage, this`closePending)
    {
      activeGame := Some(ActiveGame(kind, ContentFor(kind)));
    }

    /** `handleGameComplete`: a success with an active game adds its item
        when absent and schedules the modal to close; anything else changes
        nothing. */
    method HandleGameComplete(success: bool)
      requires Valid()
      modifies this
      ensures Valid()
      ensures success && old(activeGame).Some? ==>
        unlockedContent == AddUnlocked(old(unlockedContent), old(activeGame).value.contentToUnlock) && closePending
      ensures !(success && old(activeGame).Some?) ==>
        unlockedContent == old(unlockedContent) && closePending == old(closePending)
      ensures old(unlockedContent) <= unlockedContent
      ensures old(Clean()) ==> Clean()
      ensures unchanged(this`activeGame, this`storage)
    {
      if success && activeGame.Some? {
        if activeGame.value.contentToUnlock !in unlockedContent {
          unlockedContent := unlockedContent + [activeGame.value.contentToUnlock];
        }
        closePending := true;
      }
    }

    /** The close timer fires: the modal closes. */
    method CloseTimerFires()
      requires Valid() && closePending
      modifies this
      ensures Valid()
      ensures activeGame == None && !closePending && GameTitle(activeGame) == ""
      ensures unchanged(this`unlockedContent, this`storage)
    {
      activeGame := None;
      closePending := false;
    }
  }

  /** Playing a game to a win and letting the modal close adds its item. */
  method Win(app: ContentLockerApp, kind: GameType)
    requires app.Valid()
    modifies app
    ensures app.Valid() && app.activeGame == None && !app.closePending
    ensures app.unlockedContent == AddUnlocked(old(app.unlockedContent), ContentFor(kind))
  {
    app.Play(kind);
    app.HandleGameComplete(true);
    app.CloseTimerFires();
  }

  /** Unlocking the three games' items in card order gives the item list. */
  lemma UnlockInCardOrder()
    ensures AddUnlocked(AddUnlocked(AddUnlocked([], ContentFor(Memory)), ContentFor(Quiz)), ContentFor(Reaction)) == ContentIds()
  {
    var ids := ContentIds();
    ContentIdsDistinct();
    assert ContentFor(Memory) == ids[0] && ContentFor(Quiz) == ids[1] && ContentFor(Reaction) == ids[2];
    assert AddUnlocked([], ids[0]) == [ids[0]];
    assert AddUnlocked([ids[0]], ids[1]) == [ids[0], ids[1]];
    assert AddUnlocked([ids[0], ids[1]], ids[2]) == [ids[0], ids[1], ids[2]];
  }

  /** Winning the three games from a fresh start unlocks every item and
      shows the banner. */
  method WinAll(stored: map<string, string>, parse: string -> Parsed) returns (app: ContentLockerApp)
    requires Adopted(stored, parse).None?
    ensures app.unlockedContent == ContentIds()
    ensures ShowsBanner(app.unlockedContent)
  {
    app := new ContentLockerApp.Mount(stored, parse);
    Win(app, Memory);
    Win(app, Quiz);
    Win(app, Reaction);
    UnlockInCardOrder();
  }
}
