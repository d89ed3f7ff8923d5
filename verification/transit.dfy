/** Played cards on their way from a hand to a battlefield. Within one tick
    `remove_played_card_from_hand` first takes every played card out of its
    hand, then `move_card_to_battlefield` pushes the same cards, in the same
    order, onto their players' battlefields; in between those cards belong to
    no zone. The zone invariant is carried across both passes by counting the
    cards in flight. */
module Transit {
  import opened Types
  import opened Cards
  import opened Seqs
  import opened GameState
  import opened Hand
  import opened Battlefield

  /** The event names the card found at its position in its player's hand. */
  predicate MatchesHand(w: World, e: PlayEvent) {
    e.player in w.hands && e.handIndex < |w.hands[e.player]| && w.hands[e.player][e.handIndex] == e.card
  }

  /** Each event, in turn, matches the hand left by the removals before it. */
  predicate MatchSequentially(w: World, plays: seq<PlayEvent>)
    decreases |plays|
  {
    |plays| == 0 || (MatchesHand(w, plays[0]) && MatchSequentially(RemovePlayedCard(w, plays[0]), plays[1..]))
  }

  /** The card is in none of the six zones. */
  predicate Unplaced(w: World, x: int) {
    && x !in Zone(w.decks, Player) && x !in Zone(w.decks, Ai)
    && x !in Zone(w.hands, Player) && x !in Zone(w.hands, Ai)
    && x !in Zone(w.battlefields, Player) && x !in Zone(w.battlefields, Ai)
  }

  /** The zones and the cards in flight together account for every card
      exactly once. */
  ghost predicate BagInFlight(w: World, inFlight: seq<PlayEvent>) {
    forall c: int :: ZoneBag(w)[c] + multiset(CardsOf(inFlight))[c] == if 0 <= c < |w.cards| then 1 else 0
  }

  /** Every card in flight exists and is out of every hand. */
  predicate OutOfHands(w: World, inFlight: seq<PlayEvent>) {
    forall i :: 0 <= i < |inFlight| ==> inFlight[i].card < |w.cards| && !w.cards[inFlight[i].card].inHand
  }

  /** The zone invariant while the cards of `inFlight` are in no zone. */
  ghost predicate InFlightValid(w: World, inFlight: seq<PlayEvent>) {
    && AllEntitiesPresent(w) && BagInFlight(w, inFlight)
    && DeckFlags(w) && HandFlags(w) && FieldFlags(w)
    && OutOfHands(w, inFlight)
  }

  /** With nothing in flight, the transit invariant is the zone invariant. */
  lemma NothingInFlight(w: World)
    ensures InFlightValid(w, []) <==> ZonesValid(w)
  {
    assert CardsOf([]) == [];
  }

  /** A card counted zero times in the zones is in none of them. */
  lemma UnplacedFromBag(w: World, x: int)
    requires ZoneBag(w)[x] == 0
    ensures Unplaced(w, x)
  {
  }

  /** Removing the card at a hand position takes exactly that card out of the zones. */
  lemma RemoveBag(w: World, e: PlayEvent)
    requires MatchesHand(w, e)
    ensures ZoneBag(RemovePlayedCard(w, e)) + multiset{e.card} == ZoneBag(w)
  {
    var r := RemovePlayedCard(w, e);
    var p := e.player;
    assert r.hands == w.hands[p := r.hands[p]];
    TakeFromHandBag(w, p, r.hands[p], e.card);
  }

  /** Replacing a hand by one holding one occurrence of `x` less takes
      exactly `x` out of the zones. */
  lemma TakeFromHandBag(w: World, p: PlayerRef, hand: seq<CardId>, x: CardId)
    requires p in w.hands && multiset(hand) + multiset{x} == multiset(w.hands[p])
    ensures ZoneBag(w.(hands := w.hands[p := hand])) + multiset{x} == ZoneBag(w)
  {
    var r := w.(hands := w.hands[p := hand]);
    var decks := multiset(Zone(w.decks, Player)) + multiset(Zone(w.decks, Ai));
    var fields := multiset(Zone(w.battlefields, Player)) + multiset(Zone(w.battlefields, Ai));
    if p == Player {
      assert Zone(r.hands, Player) == hand && Zone(r.hands, Ai) == Zone(w.hands, Ai);
      SwapOne(decks, multiset(hand), multiset(w.hands[Player]), multiset(Zone(w.hands, Ai)), fields, x);
    } else {
      assert Zone(r.hands, Ai) == hand && Zone(r.hands, Player) == Zone(w.hands, Player);
      SwapOne(decks + multiset(Zone(w.hands, Player)), multiset(hand), multiset(w.hands[Ai]), multiset{}, fields, x);
    }
  }

  /** Multiset arithmetic: one occurrence less in one part is one less in the sum. */
  lemma SwapOne(a: multiset<CardId>, h: multiset<CardId>, h': multiset<CardId>, b: multiset<CardId>, c: multiset<CardId>, x: CardId)
    requires h + multiset{x} == h'
    ensures a + h + b + c + multiset{x} == a + h' + b + c
  {
  }

  /** The count after removing one matching card: it leaves the zones and
      joins the cards in flight, where it was not before. */
  lemma RemoveBagStep(w: World, done: seq<PlayEvent>, e: PlayEvent)
    requires BagInFlight(w, done) && MatchesHand(w, e)
    ensures BagInFlight(RemovePlayedCard(w, e), done + [e])
    ensures ZoneBag(RemovePlayedCard(w, e))[e.card] == 0
    ensures multiset(CardsOf(done))[e.card] == 0
  {
    var r := RemovePlayedCard(w, e);
    RemoveBag(w, e);
    CardsOfSnoc(done, e);
    ShiftCounts(ZoneBag(w), ZoneBag(r), multiset(CardsOf(done)), multiset(CardsOf(done + [e])), e.card, |w.cards|);
  }

  lemma CardsOfSnoc(done: seq<PlayEvent>, e: PlayEvent)
    ensures multiset(CardsOf(done + [e])) == multiset(CardsOf(done)) + multiset{e.card}
  {
    CardsOfAppend(done, [e]);
    assert CardsOf([e]) == [e.card];
  }

  lemma CardsOfCons(e: PlayEvent, rest: seq<PlayEvent>)
    ensures multiset(CardsOf([e] + rest)) == multiset(CardsOf(rest)) + multiset{e.card}
  {
    CardsOfAppend([e], rest);
    assert CardsOf([e]) == [e.card];
  }

  /** Moving one occurrence of `x` from one bag to another keeps every
      combined count; the bag it left held it once and the other not at all. */
  lemma ShiftCounts(from: multiset<int>, from': multiset<int>, to: multiset<int>, to': multiset<int>, x: int, n: nat)
    requires forall c: int :: from[c] + to[c] == if 0 <= c < n then 1 else 0
    requires from' + multiset{x} == from && to' == to + multiset{x}
    ensures forall c: int :: from'[c] + to'[c] == if 0 <= c < n then 1 else 0
    ensures from'[x] == 0 && to[x] == 0
  {
    forall c: int
      ensures from'[c] + to'[c] == if 0 <= c < n then 1 else 0
    {
      assert from[c] + to[c] == if 0 <= c < n then 1 else 0;
    }
    assert from[x] + to[x] == if 0 <= x < n then 1 else 0;
  }

  /** After removal, a card still in some zone was in the same zone before
      and is not the removed card. */
  lemma RemoveKeepsOthers(w: World, e: PlayEvent, q: PlayerRef, x: CardId)
    requires MatchesHand(w, e) && Unplaced(RemovePlayedCard(w, e), e.card)
    ensures var r := RemovePlayedCard(w, e);
            (q in r.hands && x in r.hands[q] ==> q in w.hands && x in w.hands[q] && x != e.card)
            && (q in r.decks && x in r.decks[q] ==> x != e.card)
            && (q in r.battlefields && x in r.battlefields[q] ==> x != e.card)
  {
    var r := RemovePlayedCard(w, e);
    if q in r.hands && x in r.hands[q] && q == e.player {
      assert multiset(r.hands[q]) + multiset{e.card} == multiset(w.hands[q]);
      assert x in multiset(r.hands[q]);
    }
  }

  /** Removal keeps the components of every card still in a deck consistent. */
  lemma RemoveDeckFlags(w: World, e: PlayEvent)
    requires DeckFlags(w) && MatchesHand(w, e)
    requires Unplaced(RemovePlayedCard(w, e), e.card)
    ensures DeckFlags(RemovePlayedCard(w, e))
  {
    var r := RemovePlayedCard(w, e);
    forall p: PlayerRef, c: CardId | p in r.decks && c in r.decks[p]
      ensures DeckCardIn(r, c)
    {
      RemoveKeepsOthers(w, e, p, c);
      DeckCardAt(w, p, c);
      assert r.cards[c] == w.cards[c];
    }
    assert DeckFlags(r);
  }

  /** Removal keeps the components of every card still in a hand consistent. */
  lemma RemoveHandFlags(w: World, e: PlayEvent)
    requires HandFlags(w) && MatchesHand(w, e)
    requires Unplaced(RemovePlayedCard(w, e), e.card)
    ensures HandFlags(RemovePlayedCard(w, e))
  {
    var r := RemovePlayedCard(w, e);
    forall p: PlayerRef, c: CardId | p in r.hands && c in r.hands[p]
      ensures HandCardIn(r, c, p)
    {
      RemoveKeepsOthers(w, e, p, c);
      HandCardAt(w, p, c);
      assert r.cards[c] == w.cards[c];
    }
    assert HandFlags(r);
  }

  /** Removal keeps the components of every card on a battlefield consistent. */
  lemma RemoveFieldFlags(w: World, e: PlayEvent)
    requires FieldFlags(w) && MatchesHand(w, e)
    requires Unplaced(RemovePlayedCard(w, e), e.card)
    ensures FieldFlags(RemovePlayedCard(w, e))
  {
    var r := RemovePlayedCard(w, e);
    forall p: PlayerRef, c: CardId | p in r.battlefields && c in r.battlefields[p]
      ensures FieldCardIn(r, c)
    {
      RemoveKeepsOthers(w, e, p, c);
      FieldCardAt(w, p, c);
      assert r.cards[c] == w.cards[c];
    }
    assert FieldFlags(r);
  }

  /** The removed card joins the cards in flight out of every hand; the
      others, all different from it, are untouched. */
  lemma RemoveOutOfHandsStep(w: World, done: seq<PlayEvent>, e: PlayEvent)
    requires OutOfHands(w, done) && MatchesHand(w, e) && e.card < |w.cards|
    requires multiset(CardsOf(done))[e.card] == 0
    ensures OutOfHands(RemovePlayedCard(w, e), done + [e])
  {
    var r := RemovePlayedCard(w, e);
    forall i | 0 <= i < |done + [e]|
      ensures (done + [e])[i].card < |r.cards| && !r.cards[(done + [e])[i].card].inHand
    {
      if i < |done| {
        assert CardsOf(done)[i] == done[i].card;
        assert done[i].card in multiset(CardsOf(done));
      }
    }
  }

  /** `remove_played_card_from_hand` for one event keeps the transit
      invariant, with the event's card now in flight. */
  lemma RemoveInFlight(w: World, done: seq<PlayEvent>, e: PlayEvent)
    requires InFlightValid(w, done) && MatchesHand(w, e)
    ensures InFlightValid(RemovePlayedCard(w, e), done + [e])
  {
    var r := RemovePlayedCard(w, e);
    HandCardAt(w, e.player, e.card);
    RemoveBagStep(w, done, e);
    UnplacedFromBag(r, e.card);
    RemoveDeckFlags(w, e);
    RemoveHandFlags(w, e);
    RemoveFieldFlags(w, e);
    RemoveOutOfHandsStep(w, done, e);
  }

  /** `remove_played_card_from_hand` over a batch whose events match their
      hands in turn: every removal is in bounds and every card goes in flight. */
  lemma {:induction false} RemoveAllInFlight(w: World, done: seq<PlayEvent>, plays: seq<PlayEvent>)
    requires InFlightValid(w, done) && MatchSequentially(w, plays)
    ensures RemovalsInBounds(w, plays)
    ensures InFlightValid(RemovePlayedCards(w, plays), done + plays)
    decreases |plays|
  {
    if |plays| == 0 {
      assert done + plays == done;
    } else {
      var e := plays[0];
      var w1 := RemovePlayedCard(w, e);
      RemoveInFlight(w, done, e);
      RemoveAllInFlight(w1, done + [e], plays[1..]);
      assert InBounds(w, e);
      assert RemovalsInBounds(w, plays);
      var r := RemovePlayedCards(w1, plays[1..]);
      assert RemovePlayedCards(w, plays) == r;
      SnocRest(done, plays);
    }
  }

  lemma SnocRest(done: seq<PlayEvent>, plays: seq<PlayEvent>)
    requires |plays| > 0
    ensures (done + [plays[0]]) + plays[1..] == done + plays
  {
    assert plays == [plays[0]] + plays[1..];
  }

  /** Landing one card adds exactly that card to the zones. */
  lemma LandBag(w: World, e: PlayEvent)
    requires Lands(w, e)
    ensures ZoneBag(Land(w, e)) == ZoneBag(w) + multiset{e.card}
  {
    var r := Land(w, e);
    var p := e.player;
    assert multiset(r.battlefields[p]) == multiset(w.battlefields[p]) + multiset{e.card};
    assert Zone(r.battlefields, Other(p)) == Zone(w.battlefields, Other(p));
    assert p == Player || p == Ai;
  }

  /** The count after landing the first card in flight: it rejoins the zones. */
  lemma LandBagStep(w: World, e: PlayEvent, rest: seq<PlayEvent>)
    requires BagInFlight(w, [e] + rest) && Lands(w, e)
    ensures BagInFlight(Land(w, e), rest)
    ensures ZoneBag(w)[e.card] == 0 && multiset(CardsOf(rest))[e.card] == 0
  {
    var r := Land(w, e);
    LandBag(w, e);
    CardsOfCons(e, rest);
    ShiftCounts(multiset(CardsOf([e] + rest)), multiset(CardsOf(rest)), ZoneBag(w), ZoneBag(r), e.card, |w.cards|);
  }

  /** Landing a card that was in no zone keeps every deck consistent. */
  lemma LandDeckFlags(w: World, e: PlayEvent)
    requires DeckFlags(w) && Lands(w, e) && Unplaced(w, e.card)
    ensures DeckFlags(Land(w, e))
  {
    var r := Land(w, e);
    forall p: PlayerRef, c: CardId | p in r.decks && c in r.decks[p]
      ensures DeckCardIn(r, c)
    {
      LandDeckCard(w, e, p, c);
    }
  }

  lemma LandDeckCard(w: World, e: PlayEvent, p: PlayerRef, c: CardId)
    requires DeckFlags(w) && Lands(w, e) && Unplaced(w, e.card)
    requires p in w.decks && c in w.decks[p]
    ensures DeckCardIn(Land(w, e), c)
  {
    DeckCardAt(w, p, c);
    if p == Player {
      assert c in Zone(w.decks, Player);
    } else {
      assert c in Zone(w.decks, Ai);
    }
  }

  /** Landing a card that was in no zone keeps every hand consistent. */
  lemma LandHandFlags(w: World, e: PlayEvent)
    requires HandFlags(w) && Lands(w, e) && Unplaced(w, e.card)
    ensures HandFlags(Land(w, e))
  {
    var r := Land(w, e);
    forall p: PlayerRef, c: CardId | p in r.hands && c in r.hands[p]
      ensures HandCardIn(r, c, p)
    {
      HandCardAt(w, p, c);
      assert r.cards[c] == w.cards[c];
    }
    assert HandFlags(r);
  }

  /** The landed card is face up and out of every hand, so every
      battlefield stays consistent. */
  lemma LandFieldFlags(w: World, e: PlayEvent)
    requires FieldFlags(w) && Lands(w, e) && Unplaced(w, e.card) && !w.cards[e.card].inHand
    ensures FieldFlags(Land(w, e))
  {
    var r := Land(w, e);
    forall p: PlayerRef, c: CardId | p in r.battlefields && c in r.battlefields[p]
      ensures FieldCardIn(r, c)
    {
      if c != e.card {
        assert c in w.battlefields[p];
        FieldCardAt(w, p, c);
        assert r.cards[c] == w.cards[c];
      }
    }
    assert FieldFlags(r);
  }

  /** The cards still in flight after the first one lands are untouched by it. */
  lemma LandOutOfHandsStep(w: World, e: PlayEvent, rest: seq<PlayEvent>)
    requires OutOfHands(w, [e] + rest) && Lands(w, e)
    requires multiset(CardsOf(rest))[e.card] == 0
    ensures OutOfHands(Land(w, e), rest)
  {
    var r := Land(w, e);
    forall i | 0 <= i < |rest|
      ensures rest[i].card < |r.cards| && !r.cards[rest[i].card].inHand
    {
      assert ([e] + rest)[i + 1] == rest[i];
      assert CardsOf(rest)[i] == rest[i].card;
      assert rest[i].card in multiset(CardsOf(rest));
    }
  }

  /** `move_card_to_battlefield` for the first card in flight: it lands, and
      the transit invariant holds for the rest. */
  lemma LandInFlight(w: World, e: PlayEvent, rest: seq<PlayEvent>)
    requires InFlightValid(w, [e] + rest)
    ensures Lands(w, e)
    ensures InFlightValid(Land(w, e), rest)
  {
    var s := [e] + rest;
    assert s[0] == e;
    assert s[0].card < |w.cards| && !w.cards[s[0].card].inHand;
    EntitiesOf(w, e.player);
    LandBagStep(w, e, rest);
    UnplacedFromBag(w, e.card);
    LandDeckFlags(w, e);
    LandHandFlags(w, e);
    LandFieldFlags(w, e);
    LandOutOfHandsStep(w, e, rest);
  }

  /** `move_card_to_battlefield` over all the cards in flight: none ends the
      batch early and the zone invariant is restored. */
  lemma {:induction false} LandAllValid(w: World, plays: seq<PlayEvent>)
    requires InFlightValid(w, plays)
    ensures FirstMiss(w, plays) == |plays|
    ensures ZonesValid(MoveCardsToBattlefield(w, plays))
    decreases |plays|
  {
    if |plays| == 0 {
      NothingInFlight(w);
    } else {
      var e := plays[0];
      assert plays == [e] + plays[1..];
      LandInFlight(w, e, plays[1..]);
      var w1 := Land(w, e);
      LandAllValid(w1, plays[1..]);
      FirstMissFrame(w, w1, plays[1..]);
    }
  }

  /** A tick's plays, removed from the hands and then moved onto the
      battlefields, keep the zone invariant; every card played ends on its
      player's battlefield, after the cards already there. */
  lemma PlaysValid(w: World, plays: seq<PlayEvent>, p: PlayerRef)
    requires ZonesValid(w) && MatchSequentially(w, plays)
    ensures RemovalsInBounds(w, plays)
    ensures var r := MoveCardsToBattlefield(RemovePlayedCards(w, plays), plays);
            ZonesValid(r) && r.battlefields[p] == w.battlefields[p] + PlayedBy(plays, p)
  {
    NothingInFlight(w);
    RemoveAllInFlight(w, [], plays);
    var mid := RemovePlayedCards(w, plays);
    assert [] + plays == plays;
    LandAllValid(mid, plays);
    MoveCardsFields(mid, plays, p);
    assert plays[..|plays|] == plays;
  }

  /** Two plays by different players that each match the current hands can
      be removed one after the other. */
  lemma TwoPlaysMatch(w: World, a: PlayEvent, b: PlayEvent)
    requires MatchesHand(w, a) && MatchesHand(w, b) && a.player != b.player
    ensures MatchSequentially(w, [a, b])
  {
    var w1 := RemovePlayedCard(w, a);
    assert [a, b][1..] == [b];
    assert [b][1..] == [];
    assert MatchesHand(w1, b);
  }

  /** A single play that matches the current hands can be removed. */
  lemma OnePlayMatches(w: World, a: PlayEvent)
    requires MatchesHand(w, a)
    ensures MatchSequentially(w, [a])
  {
    assert [a][1..] == [];
  }
}
