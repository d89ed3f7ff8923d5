/** The combat world as one immutable record: every card entity, the
    player-scoped entities (deck, hand, battlefield, controller with its
    crowd and health), the two global states with their pending `NextState`
    values, the turn icon, and the events in flight between systems. */
module GameState {
  import opened Wrappers
  import opened Types
  import opened Cards

  /** `DrawCard` event: draw `amount` cards for `player`. */
  datatype DrawEvent = DrawEvent(player: PlayerRef, amount: nat)

  /** `PlayCard` event: `player` plays `card`, found at `handIndex` in that player's hand. */
  datatype PlayEvent = PlayEvent(player: PlayerRef, card: CardId, handIndex: nat)

  /** Player-scoped entities are found by their `PlayerReference`; a missing
      key is a failed lookup. Card entity ids index `cards`. */
  datatype World = World(
    cards: seq<CardEntity>,
    decks: map<PlayerRef, seq<CardId>>,
    hands: map<PlayerRef, seq<CardId>>,
    battlefields: map<PlayerRef, seq<CardId>>,
    crowds: map<PlayerRef, U8>,
    lives: map<PlayerRef, Hp>,
    turn: TurnState,
    active: PlayerRef,
    nextTurn: Option<TurnState>,
    nextActive: Option<PlayerRef>,
    turnIcon: nat,
    pendingDraws: seq<DrawEvent>,
    unreadPlays: seq<PlayEvent>)

  /** The cards of one player's zone, empty when the zone entity is missing. */
  function Zone(m: map<PlayerRef, seq<CardId>>, p: PlayerRef): seq<CardId> {
    if p in m then m[p] else []
  }

  /** Every zone membership in the world, counted with multiplicity. */
  function ZoneBag(w: World): multiset<CardId> {
    multiset(Zone(w.decks, Player)) + multiset(Zone(w.decks, Ai))
    + multiset(Zone(w.hands, Player)) + multiset(Zone(w.hands, Ai))
    + multiset(Zone(w.battlefields, Player)) + multiset(Zone(w.battlefields, Ai))
  }

  /** Every card entity sits in exactly one zone, and zones hold nothing else. */
  ghost predicate EveryCardOnce(w: World) {
    forall c: int :: ZoneBag(w)[c] == if 0 <= c < |w.cards| then 1 else 0
  }

  /** Both players have a deck, a hand, a battlefield and a controller. */
  predicate AllEntitiesPresent(w: World) {
    && Player in w.decks && Ai in w.decks
    && Player in w.hands && Ai in w.hands
    && Player in w.battlefields && Ai in w.battlefields
    && Player in w.crowds && Ai in w.crowds
  }

  lemma EntitiesOf(w: World, p: PlayerRef)
    requires AllEntitiesPresent(w)
    ensures p in w.decks && p in w.hands && p in w.battlefields && p in w.crowds
  {
  }

  /** The card `id` exists and carries `AllowedToPlay`. */
  predicate Allowed(cards: seq<CardEntity>, id: CardId) {
    id < |cards| && cards[id].allowed
  }

  /** The card's cast cost is covered by `crowd`. */
  predicate CanAfford(c: CardEntity, crowd: U8) {
    c.costs.cast <= crowd
  }

  /** Components of a card still in a deck: not `InHand`, face down, and
      never marked `AllowedToPlay`. */
  predicate DeckCard(c: CardEntity) {
    !c.inHand && !c.showFront && !c.allowed
  }

  /** Components of a card in `p`'s hand: `InHand`, owned by `p`, face up
      exactly when `p` is the human player. */
  predicate HandCard(c: CardEntity, p: PlayerRef) {
    c.inHand && c.owner == Some(p) && c.showFront == (p == Player)
  }

  /** Components of a card on a battlefield: not `InHand`, face up. */
  predicate FieldCard(c: CardEntity) {
    !c.inHand && c.showFront
  }

  /** Card `c` exists and is in the state a deck card is in. */
  predicate DeckCardIn(w: World, c: CardId) {
    c < |w.cards| && DeckCard(w.cards[c])
  }

  /** Card `c` exists and is in the state a card of `p`'s hand is in. */
  predicate HandCardIn(w: World, c: CardId, p: PlayerRef) {
    c < |w.cards| && HandCard(w.cards[c], p)
  }

  /** Card `c` exists and is in the state a battlefield card is in. */
  predicate FieldCardIn(w: World, c: CardId) {
    c < |w.cards| && FieldCard(w.cards[c])
  }

  ghost predicate DeckFlags(w: World) {
    forall p: PlayerRef, c: CardId | p in w.decks && c in w.decks[p] :: DeckCardIn(w, c)
  }

  ghost predicate HandFlags(w: World) {
    forall p: PlayerRef, c: CardId | p in w.hands && c in w.hands[p] :: HandCardIn(w, c, p)
  }

  ghost predicate FieldFlags(w: World) {
    forall p: PlayerRef, c: CardId | p in w.battlefields && c in w.battlefields[p] :: FieldCardIn(w, c)
  }

  /** The zone invariant: all player entities exist, every card is in exactly
      one zone, and each card's components agree with the zone it is in. */
  ghost predicate ZonesValid(w: World) {
    AllEntitiesPresent(w) && EveryCardOnce(w) && DeckFlags(w) && HandFlags(w) && FieldFlags(w)
  }

  lemma DeckCardAt(w: World, q: PlayerRef, c: CardId)
    requires DeckFlags(w) && q in w.decks && c in w.decks[q]
    ensures DeckCardIn(w, c)
  {
  }

  lemma HandCardAt(w: World, q: PlayerRef, c: CardId)
    requires HandFlags(w) && q in w.hands && c in w.hands[q]
    ensures HandCardIn(w, c, q)
  {
  }

  lemma FieldCardAt(w: World, q: PlayerRef, c: CardId)
    requires FieldFlags(w) && q in w.battlefields && c in w.battlefields[q]
    ensures FieldCardIn(w, c)
  {
  }
}
