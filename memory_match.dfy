/** The memory-match game of the first site: sixteen cards, eight icons twice
    each, shuffled; two cards turned over at a time; a pair of equal icons
    stays matched, any other pair turns back after a second; the game ends
    with all eight pairs matched and succeeds within fifteen moves. */
module MemoryMatch {
  import opened Options
  import opened Seqs

  // ---------------------------------------------------------------------
  // The deck
  // ---------------------------------------------------------------------

  datatype Card = Card(id: int, icon: string, flipped: bool, matched: bool)

  const IconTotal := 8
  const DeckSize := 16
  /** The success bound on moves: at most fifteen. */
  const MoveLimit := 15

  /** The character of entry `k` of `CARD_ICONS`. */
  function IconChar(k: int): char
  {
    match k
    case 0 => '\U{1F3AE}'
    case 1 => '\U{1F3AF}'
    case 2 => '\U{1F3C6}'
    case 3 => '\U{1F3B2}'
    case 4 => '\U{1F3A7}'
    case 5 => '\U{1F3A8}'
    case 6 => '\U{1F3AD}'
    case _ => '\U{1F3AA}'
  }

  /** Entry `k` of `CARD_ICONS`. */
  function CardIcon(k: int): string
  {
    [IconChar(k)]
  }

  /** The eight icons are pairwise different. */
  lemma CardIconsDistinct(i: int, j: int)
    requires 0 <= i < IconTotal && 0 <= j < IconTotal
    ensures CardIcon(i) == CardIcon(j) <==> i == j
  {
    if CardIcon(i) == CardIcon(j) {
      assert CardIcon(i)[0] == CardIcon(j)[0];
    }
  }

  /** `[...CARD_ICONS, ...CARD_ICONS].map((icon, index) => ...)`: card `i`
      has id `i` and the icon `i % 8`, face down and unmatched. */
  function OrderedDeck(): (deck: seq<Card>)
    ensures |deck| == DeckSize
    ensures forall i :: 0 <= i < DeckSize ==> deck[i] == Card(i, CardIcon(i % IconTotal), false, false)
  {
    seq(DeckSize, i requires 0 <= i < DeckSize => Card(i, CardIcon(i % IconTotal), false, false))
  }

  predicate Matched(c: Card) { c.matched }

  function HasIcon(icon: string): Card -> bool
  {
    (c: Card) => c.icon == icon
  }

  /** A predicate that exactly one position satisfies is counted once. */
  lemma {:induction false} CountUnique<T>(s: seq<T>, p: T -> bool, a: int)
    requires 0 <= a < |s|
    requires forall i :: 0 <= i < |s| ==> (p(s[i]) <==> i == a)
    ensures Count(s, p) == 1
    decreases |s|
  {
    if a == 0 {
      forall x | x in s[1..]
        ensures !p(x)
      {
        var i :| 0 <= i < |s[1..]| && s[1..][i] == x;
        assert s[i + 1] == x;
      }
      FilterNone(s[1..], p);
    } else {
      assert !p(s[0]);
      forall i | 0 <= i < |s[1..]|
        ensures p(s[1..][i]) <==> i == a - 1
      {
        assert s[1..][i] == s[i + 1];
      }
      CountUnique(s[1..], p, a - 1);
    }
  }

  /** Each half of the ordered deck holds every icon once, at its own
      index. */
  lemma HalfDeckHasIconOnce(j: int, base: int)
    requires 0 <= j < IconTotal && (base == 0 || base == IconTotal)
    ensures Count(OrderedDeck()[base..base + IconTotal], HasIcon(CardIcon(j))) == 1
  {
    var half := OrderedDeck()[base..base + IconTotal];
    forall i | 0 <= i < IconTotal
      ensures HasIcon(CardIcon(j))(half[i]) <==> i == j
    {
      assert half[i] == OrderedDeck()[base + i];
      assert (base + i) % IconTotal == i;
      CardIconsDistinct(i, j);
    }
    CountUnique(half, HasIcon(CardIcon(j)), j);
  }

  /** Every icon is on exactly two cards of the ordered deck. */
  lemma OrderedDeckPairs(j: int)
    requires 0 <= j < IconTotal
    ensures Count(OrderedDeck(), HasIcon(CardIcon(j))) == 2
  {
    var deck := OrderedDeck();
    assert deck == deck[0..IconTotal] + deck[IconTotal..IconTotal + IconTotal];
    HalfDeckHasIconOnce(j, 0);
    HalfDeckHasIconOnce(j, IconTotal);
    FilterConcat(deck[0..IconTotal], deck[IconTotal..IconTotal + IconTotal], HasIcon(CardIcon(j)));
  }

  /** Any shuffle of the deck has sixteen cards, each icon on exactly two of
      them, every card face down and unmatched, and ids within the deck. */
  lemma ShuffledDeck(shuffled: seq<Card>)
    requires multiset(shuffled) == multiset(OrderedDeck())
    ensures |shuffled| == DeckSize
    ensures forall j :: 0 <= j < IconTotal ==> Count(shuffled, HasIcon(CardIcon(j))) == 2
    ensures forall i :: 0 <= i < |shuffled| ==>
      !shuffled[i].flipped && !shuffled[i].matched && 0 <= shuffled[i].id < DeckSize
    ensures Count(shuffled, Matched) == 0
  {
    assert |shuffled| == |multiset(shuffled)| == |multiset(OrderedDeck())| == DeckSize;
    forall j | 0 <= j < IconTotal
      ensures Count(shuffled, HasIcon(CardIcon(j))) == 2
    {
      FilterPermutation(shuffled, OrderedDeck(), HasIcon(CardIcon(j)));
      OrderedDeckPairs(j);
    }
    forall i | 0 <= i < |shuffled|
      ensures !shuffled[i].flipped && !shuffled[i].matched && 0 <= shuffled[i].id < DeckSize
    {
      assert shuffled[i] in multiset(OrderedDeck());
      var k :| 0 <= k < DeckSize && OrderedDeck()[k] == shuffled[i];
    }
    forall x | x in shuffled
      ensures !Matched(x)
    {
      var i :| 0 <= i < |shuffled| && shuffled[i] == x;
    }
    FilterNone(shuffled, Matched);
  }

  /** Replacing one element changes a count by what the old and the new
      element contribute. */
  lemma CountUpdate<T>(s: seq<T>, i: int, v: T, p: T -> bool)
    requires 0 <= i < |s|
    ensures Count(s[i := v], p) == Count(s, p) - (if p(s[i]) then 1 else 0) + (if p(v) then 1 else 0)
  {
    var pre, post := s[..i], s[i + 1..];
    assert s == pre + [s[i]] + post;
    assert s[i := v] == pre + [v] + post;
    FilterConcat(pre + [s[i]], post, p);
    FilterConcat(pre, [s[i]], p);
    FilterConcat(pre + [v], post, p);
    FilterConcat(pre, [v], p);
    assert Filter([s[i]], p) == (if p(s[i]) then [s[i]] else []) + Filter([], p);
    assert Filter([v], p) == (if p(v) then [v] else []) + Filter([], p);
  }

  /** A predicate that counts every element holds of every element. */
  lemma {:induction false} CountFull<T>(s: seq<T>, p: T -> bool)
    requires Count(s, p) == |s|
    ensures forall i :: 0 <= i < |s| ==> p(s[i])
    decreases |s|
  {
    if s != [] {
      assert Filter(s, p) == (if p(s[0]) then [s[0]] else []) + Filter(s[1..], p);
      assert |Filter(s[1..], p)| <= |s[1..]|;
      CountFull(s[1..], p);
      forall i | 0 < i < |s|
        ensures p(s[i])
      {
        assert s[i] == s[1..][i - 1];
      }
    }
  }

  // ---------------------------------------------------------------------
  // The component state
  // ---------------------------------------------------------------------

  class MemoryMatch {
    var cards: array<Card>
    /** The positions turned over and not yet resolved. */
    var flippedCards: seq<int>
    var moves: int
    var matchedPairs: int
    var gameOver: bool
    var gameStarted: bool
    /** The one-second timer that turns a mismatched pair back. */
    var flipBackPending: bool
    /** A dependency of the match-check effect changed since it last ran. */
    var checkDue: bool
    /** The pairs turned over since the game started. */
    ghost var pairsTurned: int

    ghost predicate Valid()
      reads this, cards
    {
      && cards.Length == (if gameStarted then DeckSize else 0)
      && (forall i :: 0 <= i < cards.Length ==> 0 <= cards[i].id < cards.Length)
      && |flippedCards| <= 2
      && (forall k :: 0 <= k < |flippedCards| ==>
            0 <= flippedCards[k] < cards.Length && cards[flippedCards[k]].flipped && !cards[flippedCards[k]].matched)
      && (|flippedCards| == 2 ==> flippedCards[0] != flippedCards[1])
      && (flipBackPending ==> |flippedCards| == 2 && cards[flippedCards[0]].icon != cards[flippedCards[1]].icon)
      && 0 <= matchedPairs <= moves
      && Count(cards[..], Matched) == 2 * matchedPairs
    }

    /** `moves` counts the pairs turned over, the pair awaiting its check
        aside, and a mismatched pair waiting to turn back is not checked
        again. */
    ghost predicate CountsPairs()
      reads this
    {
      && moves == pairsTurned - (if |flippedCards| == 2 && !flipBackPending then 1 else 0)
      && (flipBackPending ==> !checkDue)
    }

    constructor ()
      ensures Valid() && CountsPairs() && !gameStarted
      ensures cards.Length == 0 && flippedCards == [] && moves == 0 && matchedPairs == 0 && !gameOver
    {
      cards := new Card[0];
      flippedCards := [];
      moves := 0;
      matchedPairs := 0;
      gameOver := false;
      gameStarted := false;
      flipBackPending := false;
      checkDue := false;
      pairsTurned := 0;
    }

    /** `initializeGame`, with the shuffle as input: the shuffled deck, no
        pending cards, no moves, no pairs, not over. */
    method InitializeGame(shuffled: seq<Card>)
      requires multiset(shuffled) == multiset(OrderedDeck())
      modifies this
      ensures Valid() && CountsPairs()
      ensures fresh(cards) && cards[..] == shuffled
      ensures flippedCards == [] && moves == 0 && matchedPairs == 0
      ensures !gameOver && gameStarted && !flipBackPending
    {
      ShuffledDeck(shuffled);
      cards := new Card[DeckSize](i requires 0 <= i < DeckSize => shuffled[i]);
      assert cards[..] == shuffled;
      flippedCards := [];
      moves := 0;
      matchedPairs := 0;
      gameOver := false;
      gameStarted := true;
      flipBackPending := false;
      checkDue := true;
      pairsTurned := 0;
    }

    /** Whether `handleCardClick(id)` takes the click: the game is not over,
        the card at position `id` is face down and unmatched, and fewer than
        two cards are pending. */
    predicate Accepts(id: int)
      requires 0 <= id < cards.Length
      reads this, cards
    {
      !gameOver && !cards[id].flipped && !cards[id].matched && |flippedCards| != 2
    }

    /** `handleCardClick(id)`: an accepted click turns over the card at
        position `id` and adds `id` to the pending cards; any other click
        changes nothing. */
    method HandleCardClick(id: int)
      requires Valid() && gameStarted && 0 <= id < cards.Length
      modifies this, cards
      ensures Valid()
      ensures old(CountsPairs()) ==> CountsPairs()
      ensures cards == old(cards)
      ensures old(Accepts(id)) ==>
        && cards[..] == old(cards[..])[id := old(cards[id]).(flipped := true)]
        && flippedCards == old(flippedCards) + [id] && checkDue
      ensures !old(Accepts(id)) ==> cards[..] == old(cards[..]) && flippedCards == old(flippedCards)
      ensures |flippedCards| <= 2
      ensures moves == old(moves) && matchedPairs == old(matchedPairs)
      ensures gameOver == old(gameOver) && gameStarted && flipBackPending == old(flipBackPending)
    {
      if gameOver || cards[id].flipped || cards[id].matched {
        return;
      }
      if |flippedCards| == 2 {
        return;
      }
      ghost var before := cards[..];
      CountUpdate(before, id, cards[id].(flipped := true), Matched);
      cards[id] := cards[id].(flipped := true);
      assert cards[..] == before[id := before[id].(flipped := true)];
      flippedCards := flippedCards + [id];
      checkDue := true;
      if |flippedCards| == 2 {
        pairsTurned := pairsTurned + 1;
      }
    }

    /** The click handler as rendered: `onClick={() => handleCardClick(card.id)}`
        on the card at `position`, though `id` is the card's place in the
        deck before the shuffle while `handleCardClick` reads it as a place
        in the shuffled array. */
    method ClickCard(position: int)
      requires Valid() && gameStarted && 0 <= position < cards.Length
      modifies this, cards
      ensures Valid()
      ensures old(CountsPairs()) ==> CountsPairs()
      ensures var id := old(cards[position].id);
        && (old(Accepts(id)) ==> cards[..] == old(cards[..])[id := old(cards[id]).(flipped := true)])
        && (!old(Accepts(id)) ==> cards[..] == old(cards[..]))
    {
      HandleCardClick(cards[position].id);
    }

    /** The click handler indexing by position: the card clicked is the card
        turned over. */
    method ClickCardAt(position: int)
      requires Valid() && gameStarted && 0 <= position < cards.Length
      modifies this, cards
      ensures Valid()
      ensures old(CountsPairs()) ==> CountsPairs()
      ensures cards == old(cards)
      ensures old(Accepts(position)) ==>
        && cards[position] == old(cards[position]).(flipped := true)
        && flippedCards == old(flippedCards) + [position] && checkDue
        && forall i :: 0 <= i < cards.Length && i != position ==> cards[i] == old(cards[i])
      ensures !old(Accepts(position)) ==> cards[..] == old(cards[..])
      ensures moves == old(moves) && matchedPairs == old(matchedPairs)
      ensures gameOver == old(gameOver) && gameStarted && flipBackPending == old(flipBackPending)
    {
      HandleCardClick(position);
    }

    /** The match-check effect as written. With two cards pending it counts a
        move; equal icons are matched and cleared, different icons start the
        turn-back timer. Its dependencies include `moves`, which it has just
        changed, so it is due to run again. */
    method MatchCheckEffect()
      requires Valid() && gameStarted && checkDue
      modifies this, cards
      ensures Valid()
      ensures cards == old(cards)
      ensures old(|flippedCards|) == 2 ==> moves == old(moves) + 1 && checkDue
      ensures old(|flippedCards|) != 2 ==>
        && moves == old(moves) && !checkDue && cards[..] == old(cards[..]) && flippedCards == old(flippedCards)
        && matchedPairs == old(matchedPairs) && flipBackPending == old(flipBackPending)
      ensures gameOver == old(gameOver) && gameStarted
      ensures old(|flippedCards|) == 2 && old(cards[flippedCards[0]].icon == cards[flippedCards[1]].icon) ==>
        && matchedPairs == old(matchedPairs) + 1 && flippedCards == []
        && cards[..] == old(cards[..])[old(flippedCards[0]) := old(cards[flippedCards[0]]).(matched := true)]
                                      [old(flippedCards[1]) := old(cards[flippedCards[1]]).(matched := true)]
      ensures old(|flippedCards|) == 2 && old(cards[flippedCards[0]].icon != cards[flippedCards[1]].icon) ==>
        && matchedPairs == old(matchedPairs) && flippedCards == old(flippedCards)
        && cards[..] == old(cards[..]) && flipBackPending
    {
      if |flippedCards| == 2 {
        moves := moves + 1;
        ResolvePair();
        checkDue := true;
      } else {
        checkDue := false;
      }
    }

    /** The match-check effect run once per pair, with `moves` taken out of
        its dependencies: after a mismatch nothing it depends on changes
        until the pair turns back. */
    method MatchCheckEffectOnce()
      requires Valid() && gameStarted && checkDue
      modifies this, cards
      ensures Valid()
      ensures old(CountsPairs()) ==> CountsPairs()
      ensures cards == old(cards)
      ensures moves == old(moves) + (if old(|flippedCards|) == 2 then 1 else 0)
      ensures old(|flippedCards|) == 2 && old(cards[flippedCards[0]].icon == cards[flippedCards[1]].icon) ==>
        && matchedPairs == old(matchedPairs) + 1 && flippedCards == [] && checkDue
        && cards[..] == old(cards[..])[old(flippedCards[0]) := old(cards[flippedCards[0]]).(matched := true)]
                                      [old(flippedCards[1]) := old(cards[flippedCards[1]]).(matched := true)]
      ensures old(|flippedCards|) == 2 && old(cards[flippedCards[0]].icon != cards[flippedCards[1]].icon) ==>
        && matchedPairs == old(matchedPairs) && flippedCards == old(flippedCards) && flipBackPending && !checkDue
        && cards[..] == old(cards[..])
      ensures old(|flippedCards|) != 2 ==>
        && !checkDue && matchedPairs == old(matchedPairs) && cards[..] == old(cards[..])
        && flippedCards == old(flippedCards) && flipBackPending == old(flipBackPending)
      ensures gameOver == old(gameOver) && gameStarted
    {
      if |flippedCards| == 2 {
        moves := moves + 1;
        ResolvePair();
        checkDue := !flipBackPending;
      } else {
        checkDue := false;
      }
    }

    /** The part of the effect after the move is counted. */
    method ResolvePair()
      requires Valid() && gameStarted && |flippedCards| == 2 && matchedPairs < moves
      modifies this, cards
      ensures Valid()
      ensures cards == old(cards) && moves == old(moves) && pairsTurned == old(pairsTurned)
      ensures gameOver == old(gameOver) && gameStarted && checkDue == old(checkDue)
      ensures old(cards[flippedCards[0]].icon == cards[flippedCards[1]].icon) ==>
        && matchedPairs == old(matchedPairs) + 1 && flippedCards == [] && !flipBackPending
        && cards[..] == old(cards[..])[old(flippedCards[0]) := old(cards[flippedCards[0]]).(matched := true)]
                                      [old(flippedCards[1]) := old(cards[flippedCards[1]]).(matched := true)]
      ensures old(cards[flippedCards[0]].icon != cards[flippedCards[1]].icon) ==>
        && matchedPairs == old(matchedPairs) && flippedCards == old(flippedCards)
        && cards[..] == old(cards[..]) && flipBackPending
    {
      var first, second := flippedCards[0], flippedCards[1];
      if cards[first].icon == cards[second].icon {
        ghost var s0 := cards[..];
        var c1 := cards[first].(matched := true);
        CountUpdate(s0, first, c1, Matched);
        cards[first] := c1;
        ghost var s1 := cards[..];
        assert s1 == s0[first := c1];
        var c2 := cards[second].(matched := true);
        CountUpdate(s1, second, c2, Matched);
        cards[second] := c2;
        assert cards[..] == s1[second := c2];
        matchedPairs := matchedPairs + 1;
        flippedCards := [];
      } else {
        flipBackPending := true;
      }
    }

    /** The turn-back timer: both pending cards face down again, none pending. */
    method FlipBackTimer()
      requires Valid() && gameStarted && flipBackPending
      modifies this, cards
      ensures Valid()
      ensures old(CountsPairs()) ==> CountsPairs()
      ensures cards == old(cards)
      ensures cards[..] == old(cards[..])[old(flippedCards[0]) := old(cards[flippedCards[0]]).(flipped := false)]
                                         [old(flippedCards[1]) := old(cards[flippedCards[1]]).(flipped := false)]
      ensures flippedCards == [] && !flipBackPending
      ensures moves == old(moves) && matchedPairs == old(matchedPairs)
    {
      var first, second := flippedCards[0], flippedCards[1];
      ghost var s0 := cards[..];
      var c1 := cards[first].(flipped := false);
      CountUpdate(s0, first, c1, Matched);
      cards[first] := c1;
      ghost var s1 := cards[..];
      assert s1 == s0[first := c1];
      var c2 := cards[second].(flipped := false);
      CountUpdate(s1, second, c2, Matched);
      cards[second] := c2;
      assert cards[..] == s1[second := c2];
      flippedCards := [];
      flipBackPending := false;
      checkDue := true;
    }

    /** The game-over effect: with all eight pairs matched the game is over
        and `onGameComplete` is told whether it took at most fifteen moves. */
    method GameOverEffect() returns (outcome: Option<bool>)
      requires Valid()
      modifies this
      ensures Valid()
      ensures outcome.Some? <==> gameStarted && matchedPairs == IconTotal
      ensures outcome.Some? ==> gameOver && outcome.value == (moves <= MoveLimit)
      ensures outcome.None? ==> gameOver == old(gameOver)
      ensures cards == old(cards) && moves == old(moves) && matchedPairs == old(matchedPairs)
      ensures flippedCards == old(flippedCards) && gameStarted == old(gameStarted)
    {
      outcome := None;
      if gameStarted && matchedPairs == IconTotal {
        gameOver := true;
        outcome := Some(moves <= MoveLimit);
      }
    }
  }

  /** Never more than eight pairs, and never more pairs than moves. */
  lemma PairsBounded(game: MemoryMatch)
    requires game.Valid()
    ensures 0 <= game.matchedPairs <= IconTotal
    ensures game.matchedPairs <= game.moves
  {
    assert |game.cards[..]| == game.cards.Length <= DeckSize;
  }

  /** When the game is over with eight pairs, every card is matched and at
      least eight moves were made. */
  lemma AllMatchedAtGameOver(game: MemoryMatch)
    requires game.Valid() && game.gameStarted && game.matchedPairs == IconTotal
    ensures forall i :: 0 <= i < game.cards.Length ==> game.cards[i].matched
    ensures game.moves >= IconTotal
  {
    CountFull(game.cards[..], Matched);
    forall i | 0 <= i < game.cards.Length
      ensures game.cards[i].matched
    {
      assert game.cards[..][i] == game.cards[i];
    }
  }

  // ---------------------------------------------------------------------
  // Two plays that show what the code as written does
  // ---------------------------------------------------------------------

  /** The deck in order with its first two cards swapped. */
  function SwappedDeck(): (deck: seq<Card>)
    ensures multiset(deck) == multiset(OrderedDeck())
    ensures |deck| == DeckSize && deck[0].id == 1 && deck[1].id == 0
  {
    var d := OrderedDeck();
    assert d == [d[0], d[1]] + d[2..];
    assert multiset([d[1], d[0]]) == multiset([d[0], d[1]]);
    [d[1], d[0]] + d[2..]
  }

  /** A new game on the swapped deck. */
  method StartSwapped() returns (game: MemoryMatch)
    ensures fresh(game) && fresh(game.cards)
    ensures game.Valid() && game.gameStarted && !game.gameOver
    ensures game.flippedCards == [] && game.cards.Length == DeckSize
    ensures game.cards[0] == Card(1, CardIcon(1), false, false)
    ensures game.cards[1] == Card(0, CardIcon(0), false, false)
  {
    game := new MemoryMatch();
    game.InitializeGame(SwappedDeck());
    assert game.cards[0] == game.cards[..][0] == OrderedDeck()[1];
    assert game.cards[1] == game.cards[..][1] == OrderedDeck()[0];
  }

  /** Clicking the first card of the swapped deck turns over the second card
      and leaves the clicked one face down. */
  method ClickedCardStaysDown() returns (clickedUp: bool, otherUp: bool)
    ensures !clickedUp && otherUp
  {
    var game := StartSwapped();
    game.ClickCard(0);
    assert game.cards[0] == game.cards[..][0];
    assert game.cards[1] == game.cards[..][1];
    clickedUp, otherUp := game.cards[0].flipped, game.cards[1].flipped;
  }

  /** Clicking by position turns over the card clicked. */
  method ClickedCardTurnsUp() returns (clickedUp: bool, otherUp: bool)
    ensures clickedUp && !otherUp
  {
    var game := StartSwapped();
    game.ClickCardAt(0);
    clickedUp, otherUp := game.cards[0].flipped, game.cards[1].flipped;
  }

  /** A new game on the ordered deck. */
  method StartOrdered() returns (game: MemoryMatch)
    ensures fresh(game) && fresh(game.cards)
    ensures game.Valid() && game.CountsPairs() && game.gameStarted && !game.gameOver
    ensures game.flippedCards == [] && game.moves == 0 && !game.flipBackPending
    ensures game.cards.Length == DeckSize
    ensures game.cards[0] == Card(0, CardIcon(0), false, false)
    ensures game.cards[1] == Card(1, CardIcon(1), false, false)
  {
    game := new MemoryMatch();
    game.InitializeGame(OrderedDeck());
    assert game.cards[0] == game.cards[..][0] == OrderedDeck()[0];
    assert game.cards[1] == game.cards[..][1] == OrderedDeck()[1];
  }

  /** A new game on the ordered deck with its first two cards turned over. */
  method TurnFirstTwo() returns (game: MemoryMatch)
    ensures fresh(game) && fresh(game.cards)
    ensures game.Valid() && game.CountsPairs() && game.gameStarted && game.checkDue
    ensures game.flippedCards == [0, 1] && game.moves == 0 && !game.flipBackPending
    ensures game.cards[0].icon != game.cards[1].icon
  {
    game := StartOrdered();
    CardIconsDistinct(0, 1);
    game.ClickCardAt(0);
    game.ClickCardAt(1);
  }

  /** Turning over two different cards and letting the effect run as it is
      scheduled counts two moves for one pair, and counting goes on: every
      run changes `moves`, which schedules another run, until the one-second
      turn-back timer empties `flippedCards`. Two runs are shown here, and
      the effect is still due after them. */
  method MismatchCountedTwice() returns (moves: int, checkAgain: bool)
    ensures moves == 2 && checkAgain
  {
    var game := TurnFirstTwo();
    game.MatchCheckEffect();
    game.MatchCheckEffect();
    moves, checkAgain := game.moves, game.checkDue;
  }

  /** With the effect run once per pair, the same play counts one move and
      the effect is not due again until the pair turns back. */
  method MismatchCountedOnce() returns (moves: int, checkAgain: bool)
    ensures moves == 1 && !checkAgain
  {
    var game := TurnFirstTwo();
    game.MatchCheckEffectOnce();
    moves, checkAgain := game.moves, game.checkDue;
  }
}
