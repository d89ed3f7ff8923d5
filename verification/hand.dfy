/** The hand systems: drawing from the deck, the face rule for freshly drawn
    cards, focus selection under the pointer, greying out, turning a click
    into a play intent, and removing a played card from its hand. */
module Hand {
  import opened Wrappers
  import opened Types
  import opened Cards
  import opened GameState
  import opened Seqs

  /** `setup_cards_in_hand`: a card newly in a hand turns face up when it
      belongs to the human player and is otherwise left as it was. */
  function SetupCardInHand(c: CardEntity): (r: CardEntity)
    ensures r.showFront == (c.showFront || c.owner == Some(Player))
    ensures r.(showFront := c.showFront) == c
  {
    if c.owner == Some(Player) then c.(showFront := true) else c
  }

  /** A card as `draw_cards` leaves it: tagged `InHand` with its owner, then
      set up by `setup_cards_in_hand`. */
  function Drawn(c: CardEntity, p: PlayerRef): (r: CardEntity)
    ensures r.inHand && r.owner == Some(p)
    ensures r.showFront == (c.showFront || p == Player)
    ensures r == c.(inHand := true, owner := Some(p), showFront := r.showFront)
  {
    SetupCardInHand(c.(inHand := true, owner := Some(p)))
  }

  function TagDrawn(cards: seq<CardEntity>, id: CardId, p: PlayerRef): (r: seq<CardEntity>)
    ensures |r| == |cards|
    ensures forall i :: 0 <= i < |r| ==> r[i] == if i == id then Drawn(cards[i], p) else cards[i]
  {
    if id < |cards| then cards[id := Drawn(cards[id], p)] else cards
  }

  /** What one draw event works on: the player's deck and hand, and the card entities. */
  datatype Piles = Piles(deck: seq<CardId>, hand: seq<CardId>, cards: seq<CardEntity>)

  /** One iteration of the draw loop: pop the deck's last card, push it onto
      the hand and tag it. */
  function PopOne(s: Piles, p: PlayerRef): (r: Piles)
    requires |s.deck| > 0
  {
    var c := s.deck[|s.deck| - 1];
    Piles(s.deck[..|s.deck| - 1], s.hand + [c], TagDrawn(s.cards, c, p))
  }

  /** `for _ in 0..amount` of `draw_cards` for one event; once the deck is
      empty the remaining iterations find nothing to pop. */
  function DrawLoop(s: Piles, p: PlayerRef, n: nat): (r: Piles)
    ensures |r.cards| == |s.cards|
    decreases n
  {
    if n == 0 || |s.deck| == 0 then s else DrawLoop(PopOne(s, p), p, n - 1)
  }

  /** `draw_cards` for one event: nothing happens when the player's deck or
      hand is not found. */
  function ApplyDraw(w: World, e: DrawEvent): (r: World)
    ensures e.player !in w.decks || e.player !in w.hands ==> r == w
    ensures r == w.(decks := r.decks, hands := r.hands, cards := r.cards)
    ensures r.decks.Keys == w.decks.Keys && r.hands.Keys == w.hands.Keys
    ensures |r.cards| == |w.cards|
  {
    var p := e.player;
    if p in w.decks && p in w.hands then
      var s := DrawLoop(Piles(w.decks[p], w.hands[p], w.cards), p, e.amount);
      w.(decks := w.decks[p := s.deck], hands := w.hands[p := s.hand], cards := s.cards)
    else w
  }

  /** `draw_cards`: the events of one tick, in order. */
  function DrawCards(w: World, events: seq<DrawEvent>): (r: World)
    ensures r == w.(decks := r.decks, hands := r.hands, cards := r.cards)
    ensures r.decks.Keys == w.decks.Keys && r.hands.Keys == w.hands.Keys
    ensures |r.cards| == |w.cards|
    decreases |events|
  {
    if |events| == 0 then w else DrawCards(ApplyDraw(w, events[0]), events[1..])
  }

  /** Popping one card off a deck of length `L` before drawing `n - 1` more
      leaves the same deck prefix as drawing `n`, and the drawn suffix gains
      the popped card at its end. */
  lemma SuffixStep(deck: seq<CardId>, n: nat)
    requires n > 0 && |deck| > 0
    ensures var L := |deck|;
            var k := Min(n, L);
            var deck1 := deck[..L - 1];
            var k1 := Min(n - 1, L - 1);
            && deck[L - k..] == deck1[|deck1| - k1..] + [deck[L - 1]]
            && deck1[..|deck1| - k1] == deck[..L - k]
  {
    var L := |deck|;
    var k := Min(n, L);
    var deck1 := deck[..L - 1];
    var k1 := Min(n - 1, L - 1);
    assert |deck1| - k1 == L - k;
    assert deck1[|deck1| - k1..] == deck[L - k..L - 1];
  }

  /** A draw of `n` moves `k = min(n, |deck|)` cards: the deck loses its last
      `k` cards and the hand receives them last-first. */
  lemma DrawLoopMoves(s: Piles, p: PlayerRef, n: nat)
    ensures var r := DrawLoop(s, p, n);
            var k := Min(n, |s.deck|);
            && r.deck == s.deck[..|s.deck| - k]
            && r.hand == s.hand + Reverse(s.deck[|s.deck| - k..])
  {
    DrawLoopDeck(s, p, n);
    DrawLoopHand(s, p, n);
  }

  lemma {:induction false} DrawLoopDeck(s: Piles, p: PlayerRef, n: nat)
    ensures DrawLoop(s, p, n).deck == s.deck[..|s.deck| - Min(n, |s.deck|)]
    decreases n
  {
    if n > 0 && |s.deck| > 0 {
      DrawLoopDeck(PopOne(s, p), p, n - 1);
      SuffixStep(s.deck, n);
    }
  }

  lemma {:induction false} DrawLoopHand(s: Piles, p: PlayerRef, n: nat)
    ensures DrawLoop(s, p, n).hand == s.hand + Reverse(s.deck[|s.deck| - Min(n, |s.deck|)..])
    decreases n
  {
    var deck := s.deck;
    if n == 0 || |deck| == 0 {
      assert deck[|deck| - Min(n, |deck|)..] == [];
    } else {
      var s1 := PopOne(s, p);
      DrawLoopHand(s1, p, n - 1);
      SuffixStep(deck, n);
      HandStep(s.hand, deck[|deck| - 1], s1.deck[|s1.deck| - Min(n - 1, |s1.deck|)..], deck[|deck| - Min(n, |deck|)..]);
    }
  }

  /** Pushing `c` and then the rest of the drawn cards last-first is pushing
      all of them last-first. */
  lemma HandStep(hand: seq<CardId>, c: CardId, suffix1: seq<CardId>, suffix: seq<CardId>)
    requires suffix == suffix1 + [c]
    ensures (hand + [c]) + Reverse(suffix1) == hand + Reverse(suffix)
  {
    ReverseSnoc(suffix1, c);
    AppendAssoc(hand, [c], Reverse(suffix1));
  }

  /** The cards a draw of `n` moves are tagged as drawn for `p`; every other
      card entity is untouched. */
  lemma DrawLoopTags(s: Piles, p: PlayerRef, n: nat)
    ensures var r := DrawLoop(s, p, n);
            var k := Min(n, |s.deck|);
            forall i :: 0 <= i < |s.cards| ==>
              r.cards[i] == if i in s.deck[|s.deck| - k..] then Drawn(s.cards[i], p) else s.cards[i]
  {
    forall i | 0 <= i < |s.cards|
      ensures DrawLoop(s, p, n).cards[i] == if i in s.deck[|s.deck| - Min(n, |s.deck|)..] then Drawn(s.cards[i], p) else s.cards[i]
    {
      DrawLoopTagAt(s, p, n, i);
    }
  }

  lemma {:induction false} DrawLoopTagAt(s: Piles, p: PlayerRef, n: nat, i: nat)
    requires i < |s.cards|
    ensures DrawLoop(s, p, n).cards[i] == if i in s.deck[|s.deck| - Min(n, |s.deck|)..] then Drawn(s.cards[i], p) else s.cards[i]
    decreases n
  {
    var deck := s.deck;
    if n == 0 || |deck| == 0 {
      assert deck[|deck| - Min(n, |deck|)..] == [];
    } else {
      var s1 := PopOne(s, p);
      DrawLoopTagAt(s1, p, n - 1, i);
      SuffixStep(deck, n);
      var suffix1 := s1.deck[|s1.deck| - Min(n - 1, |s1.deck|)..];
      assert i in deck[|deck| - Min(n, |deck|)..] <==> i in suffix1 || i == deck[|deck| - 1];
    }
  }

  /** The deck split a draw of `n` cards makes: what stays and what moves. */
  function Kept(deck: seq<CardId>, n: nat): seq<CardId> {
    deck[..|deck| - Min(n, |deck|)]
  }

  function Moved(deck: seq<CardId>, n: nat): seq<CardId> {
    deck[|deck| - Min(n, |deck|)..]
  }

  /** `ApplyDraw` in closed form, for a player whose deck and hand exist:
      the zones. */
  lemma ApplyDrawZones(w: World, e: DrawEvent)
    requires e.player in w.decks && e.player in w.hands
    ensures var r := ApplyDraw(w, e);
            var p := e.player;
            && r.decks == w.decks[p := Kept(w.decks[p], e.amount)]
            && r.hands == w.hands[p := w.hands[p] + Reverse(Moved(w.decks[p], e.amount))]
  {
    DrawLoopMoves(Piles(w.decks[e.player], w.hands[e.player], w.cards), e.player, e.amount);
  }

  /** `ApplyDraw` in closed form, for a player whose deck and hand exist:
      the card entities. */
  lemma ApplyDrawCards(w: World, e: DrawEvent)
    requires e.player in w.decks && e.player in w.hands
    ensures var r := ApplyDraw(w, e);
            forall i :: 0 <= i < |w.cards| ==>
              r.cards[i] == if i in Moved(w.decks[e.player], e.amount) then Drawn(w.cards[i], e.player) else w.cards[i]
  {
    DrawLoopTags(Piles(w.decks[e.player], w.hands[e.player], w.cards), e.player, e.amount);
  }

  /** A draw moves exactly `min(amount, |deck|)` cards and keeps the number
      of cards the player holds in deck and hand together. */
  lemma DrawMovesMin(w: World, e: DrawEvent)
    requires e.player in w.decks && e.player in w.hands
    ensures var r := ApplyDraw(w, e);
            var p := e.player;
            && |r.hands[p]| == |w.hands[p]| + Min(e.amount, |w.decks[p]|)
            && |r.decks[p]| == |w.decks[p]| - Min(e.amount, |w.decks[p]|)
            && |r.decks[p]| + |r.hands[p]| == |w.decks[p]| + |w.hands[p]|
  {
    ApplyDrawZones(w, e);
  }

  /** A draw moves cards between zones without creating or losing any. */
  lemma ApplyDrawBag(w: World, e: DrawEvent)
    ensures ZoneBag(ApplyDraw(w, e)) == ZoneBag(w)
  {
    var p := e.player;
    if p in w.decks && p in w.hands {
      ApplyDrawZones(w, e);
      var r := ApplyDraw(w, e);
      SplitMultiset(w.decks[p], w.hands[p], e.amount);
      BagSwap(w, r, p);
    }
  }

  lemma SplitMultiset(deck: seq<CardId>, hand: seq<CardId>, n: nat)
    ensures multiset(Kept(deck, n)) + multiset(hand + Reverse(Moved(deck, n))) == multiset(deck) + multiset(hand)
  {
    var kept, moved := Kept(deck, n), Moved(deck, n);
    assert deck == kept + moved;
    ReversePreservesMultiset(moved);
  }

  /** Two worlds whose zones differ only in `p`'s deck and hand, with the
      same cards there in total, have the same zone bag. */
  lemma BagSwap(w: World, r: World, p: PlayerRef)
    requires p in w.decks && p in w.hands && p in r.decks && p in r.hands
    requires multiset(r.decks[p]) + multiset(r.hands[p]) == multiset(w.decks[p]) + multiset(w.hands[p])
    requires Zone(r.decks, Other(p)) == Zone(w.decks, Other(p))
    requires Zone(r.hands, Other(p)) == Zone(w.hands, Other(p))
    requires r.battlefields == w.battlefields
    ensures ZoneBag(r) == ZoneBag(w)
  {
    var q := Other(p);
    var rest := multiset(Zone(w.decks, q)) + multiset(Zone(w.hands, q))
      + multiset(Zone(w.battlefields, Player)) + multiset(Zone(w.battlefields, Ai));
    assert ZoneBag(w) == multiset(w.decks[p]) + multiset(w.hands[p]) + rest;
    assert ZoneBag(r) == multiset(r.decks[p]) + multiset(r.hands[p]) + rest;
  }

  /** A card counted once in the world's zones is absent from every zone
      but the one it was found in. */
  lemma OnceOnly(w: World, x: CardId)
    requires ZoneBag(w)[x] <= 1
    ensures x in Zone(w.decks, Player) ==> x !in Zone(w.decks, Ai) && x !in Zone(w.hands, Player) && x !in Zone(w.hands, Ai) && x !in Zone(w.battlefields, Player) && x !in Zone(w.battlefields, Ai)
    ensures x in Zone(w.decks, Ai) ==> x !in Zone(w.hands, Player) && x !in Zone(w.hands, Ai) && x !in Zone(w.battlefields, Player) && x !in Zone(w.battlefields, Ai)
    ensures x in Zone(w.hands, Player) ==> x !in Zone(w.hands, Ai) && x !in Zone(w.battlefields, Player) && x !in Zone(w.battlefields, Ai)
    ensures x in Zone(w.hands, Ai) ==> x !in Zone(w.battlefields, Player) && x !in Zone(w.battlefields, Ai)
    ensures x in Zone(w.battlefields, Player) ==> x !in Zone(w.battlefields, Ai)
  {
  }

  /** A card a draw moves was in no other zone, nor in the part of the deck
      that stays. */
  lemma MovedIsolated(w: World, p: PlayerRef, n: nat, x: CardId)
    requires AllEntitiesPresent(w) && EveryCardOnce(w)
    ensures x in Moved(w.decks[p], n) ==>
              && x !in Kept(w.decks[p], n) && x !in w.decks[Other(p)]
              && x !in w.hands[Player] && x !in w.hands[Ai]
              && x !in w.battlefields[Player] && x !in w.battlefields[Ai]
  {
    var deck := w.decks[p];
    if x !in Moved(deck, n) {
      return;
    }
    assert deck == Kept(deck, n) + Moved(deck, n);
    assert multiset(deck) == multiset(Kept(deck, n)) + multiset(Moved(deck, n));
    assert ZoneBag(w)[x] <= 1;
    assert x in multiset(Moved(deck, n));
    assert multiset(deck)[x] >= 1;
  }

  /** A draw keeps the zone invariant: the moved cards are now in the hand,
      tagged `InHand` for their owner and face up only for the human player. */
  lemma ApplyDrawValid(w: World, e: DrawEvent)
    requires ZonesValid(w)
    ensures ZonesValid(ApplyDraw(w, e))
  {
    ApplyDrawBag(w, e);
    ApplyDrawDeckFlags(w, e);
    ApplyDrawHandFlags(w, e);
    ApplyDrawFieldFlags(w, e);
  }

  lemma ApplyDrawDeckFlags(w: World, e: DrawEvent)
    requires ZonesValid(w)
    ensures DeckFlags(ApplyDraw(w, e))
  {
    var r := ApplyDraw(w, e);
    forall q: PlayerRef, c: CardId | q in r.decks && c in r.decks[q]
      ensures DeckCardIn(r, c)
    {
      DeckCardAfterDraw(w, e, q, c);
    }
  }

  /** A card still in a deck after a draw was in that deck before, untouched. */
  lemma DeckCardAfterDraw(w: World, e: DrawEvent, q: PlayerRef, c: CardId)
    requires ZonesValid(w)
    requires q in ApplyDraw(w, e).decks && c in ApplyDraw(w, e).decks[q]
    ensures DeckCardIn(ApplyDraw(w, e), c)
  {
    var p := e.player;
    EntitiesOf(w, p);
    var r := ApplyDraw(w, e);
    ApplyDrawZones(w, e);
    ApplyDrawCards(w, e);
    var deck := w.decks[p];
    if q == p {
      assert deck == Kept(deck, e.amount) + Moved(deck, e.amount);
    }
    DeckCardAt(w, q, c);
    MovedIsolated(w, p, e.amount, c);
    assert r.cards[c] == w.cards[c];
  }

  lemma ApplyDrawHandFlags(w: World, e: DrawEvent)
    requires ZonesValid(w)
    ensures HandFlags(ApplyDraw(w, e))
  {
    var r := ApplyDraw(w, e);
    forall q: PlayerRef, c: CardId | q in r.hands && c in r.hands[q]
      ensures HandCardIn(r, c, q)
    {
      HandCardAfterDraw(w, e, q, c);
    }
  }

  lemma HandCardAfterDraw(w: World, e: DrawEvent, q: PlayerRef, c: CardId)
    requires ZonesValid(w)
    requires q in ApplyDraw(w, e).hands && c in ApplyDraw(w, e).hands[q]
    ensures HandCardIn(ApplyDraw(w, e), c, q)
  {
    var p := e.player;
    EntitiesOf(w, p);
    ApplyDrawZones(w, e);
    var moved := Moved(w.decks[p], e.amount);
    if q == p && c in Reverse(moved) {
      DrawnCardInHand(w, e, c);
    } else {
      assert c in w.hands[q];
      KeptCardInHand(w, e, q, c);
    }
  }

  /** A card the draw moved lands in the hand face up only for the human player. */
  lemma DrawnCardInHand(w: World, e: DrawEvent, c: CardId)
    requires ZonesValid(w) && e.player in w.decks
    requires c in Reverse(Moved(w.decks[e.player], e.amount))
    ensures HandCardIn(ApplyDraw(w, e), c, e.player)
  {
    var p := e.player;
    EntitiesOf(w, p);
    var deck := w.decks[p];
    var moved := Moved(deck, e.amount);
    ReversePreservesMultiset(moved);
    assert c in multiset(moved);
    assert deck == Kept(deck, e.amount) + moved;
    DeckCardAt(w, p, c);
    ApplyDrawCards(w, e);
  }

  /** A card that was already in a hand keeps its components. */
  lemma KeptCardInHand(w: World, e: DrawEvent, q: PlayerRef, c: CardId)
    requires ZonesValid(w)
    requires q in w.hands && c in w.hands[q]
    ensures HandCardIn(ApplyDraw(w, e), c, q)
    ensures ApplyDraw(w, e).cards[c] == w.cards[c]
  {
    EntitiesOf(w, e.player);
    HandCardAt(w, q, c);
    MovedIsolated(w, e.player, e.amount, c);
    assert c !in Moved(w.decks[e.player], e.amount) by {
      assert q == Player || q == Ai;
    }
    ApplyDrawCards(w, e);
    assert ApplyDraw(w, e).cards[c] == w.cards[c];
  }

  lemma ApplyDrawFieldFlags(w: World, e: DrawEvent)
    requires ZonesValid(w)
    ensures FieldFlags(ApplyDraw(w, e))
  {
    var r := ApplyDraw(w, e);
    forall q: PlayerRef, c: CardId | q in r.battlefields && c in r.battlefields[q]
      ensures FieldCardIn(r, c)
    {
      FieldCardAfterDraw(w, e, q, c);
    }
  }

  /** A card on a battlefield after a draw was there before, untouched. */
  lemma FieldCardAfterDraw(w: World, e: DrawEvent, q: PlayerRef, c: CardId)
    requires ZonesValid(w)
    requires q in ApplyDraw(w, e).battlefields && c in ApplyDraw(w, e).battlefields[q]
    ensures FieldCardIn(ApplyDraw(w, e), c)
  {
    EntitiesOf(w, e.player);
    ApplyDrawZones(w, e);
    FieldCardAt(w, q, c);
    MovedIsolated(w, e.player, e.amount, c);
    assert c !in Moved(w.decks[e.player], e.amount) by {
      assert q == Player || q == Ai;
    }
    ApplyDrawCards(w, e);
    assert ApplyDraw(w, e).cards[c] == w.cards[c];
  }

  /** All draws of a tick keep the zone invariant and conserve the cards. */
  lemma {:induction false} DrawCardsValid(w: World, events: seq<DrawEvent>)
    requires ZonesValid(w)
    ensures ZonesValid(DrawCards(w, events))
    ensures ZoneBag(DrawCards(w, events)) == ZoneBag(w)
    decreases |events|
  {
    if |events| > 0 {
      ApplyDrawValid(w, events[0]);
      ApplyDrawBag(w, events[0]);
      DrawCardsValid(ApplyDraw(w, events[0]), events[1..]);
    }
  }

  /** Draws only append to hands: every card keeps its hand position. */
  lemma {:induction false} DrawCardsExtendHands(w: World, events: seq<DrawEvent>, p: PlayerRef)
    requires p in w.hands
    ensures w.hands[p] <= DrawCards(w, events).hands[p]
    decreases |events|
  {
    if |events| > 0 {
      var e := events[0];
      var w1 := ApplyDraw(w, e);
      if e.player in w.decks && e.player in w.hands {
        ApplyDrawZones(w, e);
      }
      assert w.hands[p] <= w1.hands[p];
      DrawCardsExtendHands(w1, events[1..], p);
    }
  }

  /** A card in a hand after a draw either was already in that hand,
      untouched, or was just drawn and so is not allowed to be played. */
  lemma ApplyDrawOrigin(w: World, e: DrawEvent, q: PlayerRef, c: CardId)
    requires ZonesValid(w)
    requires q in ApplyDraw(w, e).hands && c in ApplyDraw(w, e).hands[q]
    ensures c < |w.cards|
    ensures || (c in w.hands[q] && ApplyDraw(w, e).cards[c] == w.cards[c])
            || !ApplyDraw(w, e).cards[c].allowed
  {
    var p := e.player;
    EntitiesOf(w, p);
    ApplyDrawZones(w, e);
    if q == p && c in Reverse(Moved(w.decks[p], e.amount)) {
      DrawnCardNotAllowed(w, e, c);
    } else {
      assert c in w.hands[q];
      KeptCardInHand(w, e, q, c);
    }
  }

  /** A card the draw moved out of the deck is not allowed to be played. */
  lemma DrawnCardNotAllowed(w: World, e: DrawEvent, c: CardId)
    requires ZonesValid(w) && e.player in w.decks
    requires c in Reverse(Moved(w.decks[e.player], e.amount))
    ensures c < |w.cards| && !ApplyDraw(w, e).cards[c].allowed
  {
    var p := e.player;
    EntitiesOf(w, p);
    var deck := w.decks[p];
    var moved := Moved(deck, e.amount);
    ReversePreservesMultiset(moved);
    assert c in multiset(moved);
    assert deck == Kept(deck, e.amount) + moved;
    DeckCardAt(w, p, c);
    ApplyDrawCards(w, e);
  }

  /** A card in a hand after a frame's draws either was already in that
      hand, untouched, or was drawn during them and is not allowed to be
      played: a card cannot be played on the frame it is drawn. */
  lemma {:induction false} DrawCardsOrigin(w: World, events: seq<DrawEvent>, q: PlayerRef, c: CardId)
    requires ZonesValid(w)
    requires q in DrawCards(w, events).hands && c in DrawCards(w, events).hands[q]
    ensures c < |w.cards|
    ensures || (c in w.hands[q] && DrawCards(w, events).cards[c] == w.cards[c])
            || !DrawCards(w, events).cards[c].allowed
    decreases |events|
  {
    if |events| > 0 {
      var w1 := ApplyDraw(w, events[0]);
      ApplyDrawValid(w, events[0]);
      DrawCardsOrigin(w1, events[1..], q, c);
      if c in w1.hands[q] {
        ApplyDrawOrigin(w, events[0], q, c);
      }
    } else {
      HandCardAt(w, q, c);
    }
  }

  /** Index `j` of `hand` holds the last existing card of the hand that is
      under the pointer: the one `position_cards_in_hand` focuses. */
  predicate IsTopHovered(cards: seq<CardEntity>, hand: seq<CardId>, hovered: set<CardId>, j: nat) {
    && j < |hand| && hand[j] < |cards| && hand[j] in hovered
    && forall k :: j < k < |hand| && hand[k] < |cards| ==> hand[k] !in hovered
  }

  /** The focus pass of `position_cards_in_hand` over `hand[..i]`, visited
      from the highest index down; `already` records that a hovered card was
      focused at a higher index. Cards that do not exist are skipped. */
  function FocusFrom(cards: seq<CardEntity>, hand: seq<CardId>, hovered: set<CardId>, i: nat, already: bool): (r: seq<CardEntity>)
    requires i <= |hand|
    ensures |r| == |cards|
    ensures forall x :: 0 <= x < |cards| ==> r[x] == cards[x].(focused := r[x].focused)
    ensures forall x :: 0 <= x < |cards| && x !in hand[..i] ==> r[x] == cards[x]
    decreases i
  {
    if i == 0 then cards
    else
      var c := hand[i - 1];
      assert hand[..i] == hand[..i - 1] + [c];
      if c >= |cards| then FocusFrom(cards, hand, hovered, i - 1, already)
      else if c in hovered && !already then FocusFrom(cards[c := cards[c].(focused := true)], hand, hovered, i - 1, true)
      else FocusFrom(cards[c := cards[c].(focused := false)], hand, hovered, i - 1, already)
  }

  /** `position_cards_in_hand`, focus part, for one hand. */
  function FocusHand(cards: seq<CardEntity>, hand: seq<CardId>, hovered: set<CardId>): (r: seq<CardEntity>)
    ensures |r| == |cards|
    ensures forall x :: 0 <= x < |cards| ==> r[x] == cards[x].(focused := r[x].focused)
    ensures forall x :: 0 <= x < |cards| && x !in hand ==> r[x] == cards[x]
  {
    assert hand[..|hand|] == hand;
    FocusFrom(cards, hand, hovered, |hand|, false)
  }

  /** No existing card of `hand` strictly between indices `j` and `i` is hovered. */
  predicate NoneHoveredBetween(cards: seq<CardEntity>, hand: seq<CardId>, hovered: set<CardId>, j: int, i: int)
    requires i <= |hand|
  {
    forall k :: j < k < i && 0 <= k && hand[k] < |cards| ==> hand[k] !in hovered
  }

  /** One step of the focus pass: the card at `i - 1` is updated, then the
      pass continues below it. */
  lemma FocusFromUnfold(cards: seq<CardEntity>, hand: seq<CardId>, hovered: set<CardId>, i: nat, already: bool)
    requires 0 < i <= |hand|
    ensures var c := hand[i - 1];
            var hit := c < |cards| && c in hovered && !already;
            var next := if c >= |cards| then cards else cards[c := cards[c].(focused := hit)];
            FocusFrom(cards, hand, hovered, i, already)
              == FocusFrom(next, hand, hovered, i - 1, already || (c < |cards| && c in hovered))
  {
  }

  /** The first card the pass visits is focused exactly when it is hovered
      and no card above took the focus. */
  lemma FocusFromTop(cards: seq<CardEntity>, hand: seq<CardId>, hovered: set<CardId>, i: nat, already: bool)
    requires 0 < i <= |hand| && NoDup(hand) && hand[i - 1] < |cards|
    ensures FocusFrom(cards, hand, hovered, i, already)[hand[i - 1]].focused == (!already && hand[i - 1] in hovered)
  {
    var c := hand[i - 1];
    var next := cards[c := cards[c].(focused := !already && c in hovered)];
    FocusFromUnfold(cards, hand, hovered, i, already);
    assert c !in hand[..i - 1];
    assert FocusFrom(next, hand, hovered, i - 1, already || c in hovered)[c] == next[c];
  }

  lemma NoneHoveredBetweenStep(cards: seq<CardEntity>, hand: seq<CardId>, hovered: set<CardId>, j: int, i: int)
    requires j < i - 1 && 0 < i <= |hand|
    ensures NoneHoveredBetween(cards, hand, hovered, j, i) <==>
              NoneHoveredBetween(cards, hand, hovered, j, i - 1) && !(hand[i - 1] < |cards| && hand[i - 1] in hovered)
  {
  }

  /** In a hand without repeated cards, the pass over `hand[..i]` focuses the
      card at `j` exactly when it is hovered, no hovered card lies between it
      and `i`, and no card above `i` already took the focus. */
  lemma {:induction false} FocusFromSelects(cards: seq<CardEntity>, hand: seq<CardId>, hovered: set<CardId>, i: nat, already: bool, j: nat)
    requires i <= |hand| && NoDup(hand)
    requires j < i && hand[j] < |cards|
    ensures FocusFrom(cards, hand, hovered, i, already)[hand[j]].focused <==>
              !already && hand[j] in hovered && NoneHoveredBetween(cards, hand, hovered, j, i)
    decreases i
  {
    if j == i - 1 {
      FocusFromTop(cards, hand, hovered, i, already);
      assert NoneHoveredBetween(cards, hand, hovered, j, i);
    } else {
      var c := hand[i - 1];
      var hit := c < |cards| && c in hovered && !already;
      var next := if c >= |cards| then cards else cards[c := cards[c].(focused := hit)];
      var already' := already || (c < |cards| && c in hovered);
      FocusFromUnfold(cards, hand, hovered, i, already);
      FocusFromSelects(next, hand, hovered, i - 1, already', j);
      NoneHoveredBetweenStep(cards, hand, hovered, j, i);
    }
  }

  /** In a hand without repeated cards, a card is focused exactly when it is
      the top hovered one; so at most one card of the hand is focused. */
  lemma FocusHandSelects(cards: seq<CardEntity>, hand: seq<CardId>, hovered: set<CardId>)
    requires NoDup(hand)
    ensures var r := FocusHand(cards, hand, hovered);
            forall j :: 0 <= j < |hand| && hand[j] < |cards| ==>
              (r[hand[j]].focused <==> IsTopHovered(cards, hand, hovered, j))
    ensures var r := FocusHand(cards, hand, hovered);
            forall j1, j2 ::
              (0 <= j1 < |hand| && 0 <= j2 < |hand| && hand[j1] < |cards| && hand[j2] < |cards|
               && r[hand[j1]].focused && r[hand[j2]].focused) ==> j1 == j2
  {
    forall j | 0 <= j < |hand| && hand[j] < |cards|
      ensures FocusHand(cards, hand, hovered)[hand[j]].focused <==> IsTopHovered(cards, hand, hovered, j)
    {
      FocusFromSelects(cards, hand, hovered, |hand|, false, j);
    }
  }

  /** `position_cards_in_hand`, focus part: the human hand, then the computer's. */
  function FocusHands(w: World, hovered: set<CardId>): (r: World)
    ensures r == w.(cards := r.cards)
    ensures |r.cards| == |w.cards|
    ensures forall x :: 0 <= x < |w.cards| ==> r.cards[x] == w.cards[x].(focused := r.cards[x].focused)
  {
    var c1 := if Player in w.hands then FocusHand(w.cards, w.hands[Player], hovered) else w.cards;
    var c2 := if Ai in w.hands then FocusHand(c1, w.hands[Ai], hovered) else c1;
    w.(cards := c2)
  }

  /** Since every card sits in exactly one zone, neither hand holds a card
      twice and no card is in both hands. */
  lemma HandsSeparate(w: World)
    requires ZonesValid(w)
    ensures NoDup(w.hands[Player]) && NoDup(w.hands[Ai])
    ensures forall x :: x in w.hands[Player] ==> x !in w.hands[Ai]
  {
    forall x
      ensures multiset(w.hands[Player])[x] <= 1 && multiset(w.hands[Ai])[x] <= 1
      ensures x in w.hands[Player] ==> x !in w.hands[Ai]
    {
      assert ZoneBag(w)[x] <= 1;
    }
    NoDupFromMultiset(w.hands[Player]);
    NoDupFromMultiset(w.hands[Ai]);
  }

  /** With two disjoint duplicate-free hands, each hand's focus is its own top hovered card. */
  lemma FocusHandsSelect(w: World, hovered: set<CardId>, p: PlayerRef)
    requires Player in w.hands && Ai in w.hands
    requires NoDup(w.hands[Player]) && NoDup(w.hands[Ai])
    requires forall x :: x in w.hands[Player] ==> x !in w.hands[Ai]
    ensures var r := FocusHands(w, hovered);
            var hand := w.hands[p];
            forall j :: 0 <= j < |hand| && hand[j] < |w.cards| ==>
              (r.cards[hand[j]].focused <==> IsTopHovered(w.cards, hand, hovered, j))
  {
    var c1 := FocusHand(w.cards, w.hands[Player], hovered);
    FocusHandSelects(w.cards, w.hands[Player], hovered);
    FocusHandSelects(c1, w.hands[Ai], hovered);
    var hand := w.hands[p];
    var r := FocusHands(w, hovered);
    forall j | 0 <= j < |hand| && hand[j] < |w.cards|
      ensures r.cards[hand[j]].focused <==> IsTopHovered(w.cards, hand, hovered, j)
    {
      if p == Player {
        assert hand[j] !in w.hands[Ai];
      } else {
        assert IsTopHovered(w.cards, hand, hovered, j) == IsTopHovered(c1, hand, hovered, j);
      }
    }
  }

  /** `show_allowed_cards`: a card in a hand is grey exactly when it is not
      allowed to be played; other cards keep their tint. */
  function ShowAllowedCards(cards: seq<CardEntity>): (r: seq<CardEntity>)
    ensures |r| == |cards|
    ensures forall i :: 0 <= i < |cards| && cards[i].inHand ==> (r[i].gray <==> !cards[i].allowed)
    ensures forall i :: 0 <= i < |cards| ==> r[i] == cards[i].(gray := r[i].gray)
    ensures forall i :: 0 <= i < |cards| && !cards[i].inHand ==> r[i] == cards[i]
  {
    seq(|cards|, i requires 0 <= i < |cards| =>
      if cards[i].inHand then cards[i].(gray := !cards[i].allowed) else cards[i])
  }

  /** The card is both focused and allowed to be played: the filter of the
      `handle_play_input` query. */
  predicate Ready(c: CardEntity) {
    c.focused && c.allowed
  }

  /** The ids below `n` of the cards that are ready, in increasing order. */
  function ReadyCards(cards: seq<CardEntity>, n: nat): (r: seq<CardId>)
    requires n <= |cards|
    ensures forall id: CardId :: id in r <==> id < n && Ready(cards[id])
    ensures forall i, j :: 0 <= i < j < |r| ==> r[i] < r[j]
    ensures forall i :: 0 <= i < |r| ==> r[i] < n
  {
    if n == 0 then []
    else ReadyCards(cards, n - 1) + (if Ready(cards[n - 1]) then [n - 1] else [])
  }

  /** `id` is the one and only card that is ready: `get_single` succeeds with it. */
  predicate SoleReady(cards: seq<CardEntity>, id: CardId) {
    && id < |cards| && Ready(cards[id])
    && forall d :: 0 <= d < |cards| && Ready(cards[d]) ==> d == id
  }

  /** When `id` is the sole ready card, the ready list of any prefix holds
      `id` alone if the prefix reaches it, and nothing otherwise. */
  lemma {:induction false} ReadyCardsSole(cards: seq<CardEntity>, id: CardId, n: nat)
    requires n <= |cards| && SoleReady(cards, id)
    ensures ReadyCards(cards, n) == if id < n then [id] else []
  {
    if n > 0 {
      ReadyCardsSole(cards, id, n - 1);
    }
  }

  /** Exactly one ready card exists precisely when the ready list has one entry. */
  lemma ReadySingle(cards: seq<CardEntity>, id: CardId)
    ensures SoleReady(cards, id) <==> ReadyCards(cards, |cards|) == [id]
  {
    var ready := ReadyCards(cards, |cards|);
    if SoleReady(cards, id) {
      ReadyCardsSole(cards, id, |cards|);
    }
    if ready == [id] {
      assert id in ready;
    }
  }

  /** When the ready list does not have exactly one entry, no card is the sole ready one. */
  lemma NoSoleReady(cards: seq<CardEntity>)
    ensures |ReadyCards(cards, |cards|)| != 1 ==> forall id :: !SoleReady(cards, id)
  {
    forall id | SoleReady(cards, id)
      ensures |ReadyCards(cards, |cards|)| == 1
    {
      ReadySingle(cards, id);
    }
  }

  /** `handle_play_input`: on a left click, the single ready card is played by
      the human if it sits in the human's hand; its position there travels
      with the event. Anything else emits nothing. */
  function HandlePlayInput(w: World, clicked: bool): (r: Option<PlayEvent>)
    ensures !clicked ==> r.None?
    ensures r.Some? ==>
              && r.value.player == Player && Player in w.hands
              && r.value.handIndex < |w.hands[Player]|
              && w.hands[Player][r.value.handIndex] == r.value.card
              && (forall j :: 0 <= j < r.value.handIndex ==> w.hands[Player][j] != r.value.card)
              && SoleReady(w.cards, r.value.card)
    ensures clicked && Player in w.hands ==>
              forall id :: SoleReady(w.cards, id) && id in w.hands[Player] ==> r.Some? && r.value.card == id
  {
    if !clicked then None
    else
      var ready := ReadyCards(w.cards, |w.cards|);
      if |ready| != 1 || Player !in w.hands then
        NoSoleReady(w.cards);
        None
      else
        ReadySingle(w.cards, ready[0]);
        match IndexOf(w.hands[Player], ready[0])
        case None => None
        case Some(i) => Some(PlayEvent(Player, ready[0], i))
  }

  /** The flags `remove_played_card_from_hand` takes off a played card. */
  function Played(c: CardEntity): (r: CardEntity)
    ensures !r.inHand && !r.focused && !r.allowed
    ensures r.(inHand := c.inHand, focused := c.focused, allowed := c.allowed) == c
  {
    c.(inHand := false, focused := false, allowed := false)
  }

  /** The event's position exists in its player's hand, if that hand exists:
      otherwise `Vec::remove` would panic. */
  predicate InBounds(w: World, e: PlayEvent) {
    e.player in w.hands ==> e.handIndex < |w.hands[e.player]|
  }

  /** `remove_played_card_from_hand` for one event. */
  function RemovePlayedCard(w: World, e: PlayEvent): (r: World)
    requires InBounds(w, e)
    ensures e.player !in w.hands ==> r == w
    ensures r == w.(hands := r.hands, cards := r.cards)
    ensures r.hands.Keys == w.hands.Keys
    ensures e.player in w.hands ==>
              && |r.hands[e.player]| + 1 == |w.hands[e.player]|
              && (forall k :: 0 <= k < e.handIndex ==> r.hands[e.player][k] == w.hands[e.player][k])
              && (forall k :: e.handIndex <= k < |r.hands[e.player]| ==> r.hands[e.player][k] == w.hands[e.player][k + 1])
              && multiset(r.hands[e.player]) + multiset{w.hands[e.player][e.handIndex]} == multiset(w.hands[e.player])
    ensures forall q :: q in w.hands && q != e.player ==> r.hands[q] == w.hands[q]
    ensures |r.cards| == |w.cards|
    ensures forall x :: 0 <= x < |w.cards| ==>
              r.cards[x] == if e.player in w.hands && x == e.card then Played(w.cards[x]) else w.cards[x]
  {
    if e.player !in w.hands then w
    else
      var hand := RemoveAt(w.hands[e.player], e.handIndex);
      var cards := if e.card < |w.cards| then w.cards[e.card := Played(w.cards[e.card])] else w.cards;
      w.(hands := w.hands[e.player := hand], cards := cards)
  }

  /** Every event of the batch is in bounds when its turn comes. */
  predicate RemovalsInBounds(w: World, plays: seq<PlayEvent>)
    decreases |plays|
  {
    |plays| == 0 || (InBounds(w, plays[0]) && RemovalsInBounds(RemovePlayedCard(w, plays[0]), plays[1..]))
  }

  /** `remove_played_card_from_hand` over the whole batch of events. */
  function RemovePlayedCards(w: World, plays: seq<PlayEvent>): (r: World)
    requires RemovalsInBounds(w, plays)
    ensures r == w.(hands := r.hands, cards := r.cards)
    ensures r.hands.Keys == w.hands.Keys
    ensures |r.cards| == |w.cards|
    decreases |plays|
  {
    if |plays| == 0 then w else RemovePlayedCards(RemovePlayedCard(w, plays[0]), plays[1..])
  }
}
