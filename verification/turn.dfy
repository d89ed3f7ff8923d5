/** The combat plugin's own systems: combat setup, the `AllowedToPlay`
    rule, the turn-state hooks and the turn icon. */
module Turn {
  import opened Wrappers
  import opened Types
  import opened Cards
  import opened Seqs
  import opened Decks
  import opened GameState

  /** The `PlayerInfo` resource: the human's health and deck. */
  datatype PlayerInfo = PlayerInfo(maxHp: U8, currentHp: U8, deck: seq<CardInfo>)

  /** The `OpponentInfo` resource: the computer's health and deck. */
  datatype OpponentInfo = OpponentInfo(hp: U8, deck: seq<CardInfo>)

  /** Health of the opponent in the test combat. */
  const TestOpponentHp: U8 := 20

  /** Cards the first `DrawCard` event of each player draws. */
  const OpeningHand: nat := 7

  /** `create_test_combat`: both players fight with the global card list; the
      opponent has 20 health. */
  function CreateTestCombat(player: PlayerInfo): (r: (PlayerInfo, OpponentInfo))
    ensures r.0.deck == GlobalCards() && r.1.deck == GlobalCards()
    ensures r.0.maxHp == player.maxHp && r.0.currentHp == player.currentHp
    ensures r.1.hp == TestOpponentHp
  {
    (player.(deck := GlobalCards()), OpponentInfo(TestOpponentHp, GlobalCards()))
  }

  /** `spawn_deck`: one face-down card entity per definition, in deck order. */
  function SpawnDeck(deck: seq<CardInfo>): (r: seq<CardEntity>)
    ensures |r| == |deck|
    ensures forall i :: 0 <= i < |deck| ==> r[i] == SpawnCard(deck[i])
  {
    seq(|deck|, i requires 0 <= i < |deck| => SpawnCard(deck[i]))
  }

  /** `setup_combat` once its commands are applied. The human's deck entities
      are spawned first, then the computer's; both hands and battlefields are
      empty, both crowds are 0, and each player is owed an opening hand. The
      turn state is `DrawCard`, whose entry hooks have yet to run, the human
      moves first, the turn icon shows frame 0 and no play is in flight. */
  function SetupCombat(player: PlayerInfo, opponent: OpponentInfo): (w: World)
    ensures |w.cards| == |player.deck| + |opponent.deck|
    ensures forall i :: 0 <= i < |player.deck| ==> w.cards[i] == SpawnCard(player.deck[i])
    ensures forall j :: 0 <= j < |opponent.deck| ==> w.cards[|player.deck| + j] == SpawnCard(opponent.deck[j])
    ensures w.decks == map[Player := Range(0, |player.deck|),
                           Ai := Range(|player.deck|, |player.deck| + |opponent.deck|)]
    ensures w.hands == map[Player := [], Ai := []] && w.battlefields == map[Player := [], Ai := []]
    ensures w.crowds == map[Player := 0, Ai := 0]
    ensures w.lives == map[Player := Hp(player.maxHp, player.currentHp), Ai := Hp(opponent.hp, opponent.hp)]
    ensures w.pendingDraws == [DrawEvent(Player, OpeningHand), DrawEvent(Ai, OpeningHand)]
    ensures w.turn == DrawCard && w.nextTurn == Some(DrawCard) && w.active == Player && w.nextActive == None
    ensures w.turnIcon == 0 && w.unreadPlays == []
  {
    var n := |player.deck|;
    World(
      cards := SpawnDeck(player.deck) + SpawnDeck(opponent.deck),
      decks := map[Player := Range(0, n), Ai := Range(n, n + |opponent.deck|)],
      hands := map[Player := [], Ai := []],
      battlefields := map[Player := [], Ai := []],
      crowds := map[Player := 0, Ai := 0],
      lives := map[Player := Hp(player.maxHp, player.currentHp), Ai := Hp(opponent.hp, opponent.hp)],
      turn := DrawCard,
      active := Player,
      nextTurn := Some(DrawCard),
      nextActive := None,
      turnIcon := 0,
      pendingDraws := [DrawEvent(Player, OpeningHand), DrawEvent(Ai, OpeningHand)],
      unreadPlays := [])
  }

  /** The two spawned decks together hold every card id once. */
  lemma SetupBag(n: nat, m: nat, c: int)
    ensures multiset(Range(0, n))[c] + multiset(Range(n, n + m))[c] == if 0 <= c < n + m then 1 else 0
  {
    RangeMultiset(0, n, c);
    RangeMultiset(n, n + m, c);
  }

  /** Decks holding the ids `[0, n)` and `[n, n + m)` with empty hands and
      battlefields put each of `n + m` cards in exactly one zone. */
  lemma FreshZonesOnce(w: World, n: nat, m: nat)
    requires w.decks == map[Player := Range(0, n), Ai := Range(n, n + m)]
    requires w.hands == map[Player := [], Ai := []] && w.battlefields == map[Player := [], Ai := []]
    requires |w.cards| == n + m
    ensures EveryCardOnce(w)
  {
    assert ZoneBag(w) == multiset(Range(0, n)) + multiset(Range(n, n + m));
    forall c: int
      ensures ZoneBag(w)[c] == if 0 <= c < |w.cards| then 1 else 0
    {
      SetupBag(n, m, c);
    }
  }

  /** When every card is face down and out of every hand, any deck of
      existing ids has consistent components. */
  lemma FreshDeckFlags(w: World, n: nat, m: nat)
    requires w.decks == map[Player := Range(0, n), Ai := Range(n, n + m)]
    requires |w.cards| == n + m
    requires forall i :: 0 <= i < |w.cards| ==> DeckCard(w.cards[i])
    ensures DeckFlags(w)
  {
    forall p: PlayerRef, c: CardId | p in w.decks && c in w.decks[p]
      ensures DeckCardIn(w, c)
    {
    }
  }

  /** The freshly set up combat satisfies the zone invariant: every spawned
      card is in exactly one deck, face down and out of every hand. */
  lemma SetupCombatValid(player: PlayerInfo, opponent: OpponentInfo)
    ensures ZonesValid(SetupCombat(player, opponent))
  {
    var w := SetupCombat(player, opponent);
    var n, m := |player.deck|, |opponent.deck|;
    FreshZonesOnce(w, n, m);
    FreshDeckFlags(w, n, m);
  }

  /** The owner of a card in a hand, when that owner's controller exists:
      the pair `set_allowed_cards` finds. */
  predicate Priced(w: World, c: CardEntity) {
    c.inHand && c.owner.Some? && c.owner.value in w.crowds
  }

  /** `set_allowed_cards`: a card in a hand whose controller exists may be
      played exactly when its cast cost is at most its owner's crowd; every
      other card keeps its flag. */
  function SetAllowedCards(w: World): (r: World)
    ensures r == w.(cards := r.cards)
    ensures |r.cards| == |w.cards|
    ensures forall i :: 0 <= i < |w.cards| ==> r.cards[i] == w.cards[i].(allowed := r.cards[i].allowed)
    ensures forall i :: 0 <= i < |w.cards| && Priced(w, w.cards[i]) ==>
              (r.cards[i].allowed <==> CanAfford(w.cards[i], w.crowds[w.cards[i].owner.value]))
    ensures forall i :: 0 <= i < |w.cards| && !Priced(w, w.cards[i]) ==> r.cards[i] == w.cards[i]
  {
    var cards := seq(|w.cards|, i requires 0 <= i < |w.cards| =>
      var c := w.cards[i];
      if Priced(w, c) then c.(allowed := CanAfford(c, w.crowds[c.owner.value])) else c);
    w.(cards := cards)
  }

  /** Running `set_allowed_cards` a second time changes nothing. Kept as
      documentation of the rule; it follows by unfolding. */
  lemma SetAllowedIdempotent(w: World)
    ensures SetAllowedCards(SetAllowedCards(w)) == SetAllowedCards(w)
  {
    var r := SetAllowedCards(w);
    var rr := SetAllowedCards(r);
    assert forall i :: 0 <= i < |w.cards| ==> Priced(r, r.cards[i]) == Priced(w, w.cards[i]);
    assert rr.cards == r.cards;
  }

  /** Card `c`, in `p`'s hand, may be played exactly when `p`'s crowd
      covers its cast cost. */
  predicate LegalIn(w: World, p: PlayerRef, c: int) {
    0 <= c < |w.cards| && p in w.crowds && (w.cards[c].allowed <==> CanAfford(w.cards[c], w.crowds[p]))
  }

  /** Every card of a hand may be played exactly when its owner's crowd
      covers its cast cost. */
  ghost predicate HandsLegal(w: World) {
    forall p: PlayerRef, c: int | p in w.hands && c in w.hands[p] :: LegalIn(w, p, c)
  }

  lemma LegalAt(w: World, p: PlayerRef, c: int)
    requires HandsLegal(w) && p in w.hands && c in w.hands[p]
    ensures LegalIn(w, p, c)
  {
  }

  /** With every hand card tagged with its owner and both controllers
      present, `set_allowed_cards` makes every hand legal. */
  lemma SetAllowedMakesLegal(w: World)
    requires HandFlags(w) && Player in w.crowds && Ai in w.crowds
    ensures HandsLegal(SetAllowedCards(w))
  {
    var r := SetAllowedCards(w);
    forall p: PlayerRef, c: int | p in r.hands && c in r.hands[p]
      ensures LegalIn(r, p, c)
    {
      HandCardAt(w, p, c);
      assert Priced(w, w.cards[c]);
    }
  }

  /** `do_draw_card`, run on entering `DrawCard`: the player whose turn it is
      draws one card and the turn moves on to `PlayCreature`. */
  function DoDrawCard(w: World): (r: World)
    ensures r == w.(pendingDraws := r.pendingDraws, nextTurn := r.nextTurn)
    ensures r.pendingDraws == w.pendingDraws + [DrawEvent(w.active, 1)]
    ensures r.nextTurn == Some(PlayCreature)
  {
    w.(pendingDraws := w.pendingDraws + [DrawEvent(w.active, 1)], nextTurn := Some(PlayCreature))
  }

  /** `progress_turn_after_play`, run in `PlayCreature`: once any play event
      is readable, the turn moves on to `SelectAttackers`; everything read is
      consumed. */
  function ProgressTurnAfterPlay(w: World, plays: seq<PlayEvent>): (r: World)
    ensures r == w.(nextTurn := r.nextTurn, unreadPlays := [])
    ensures |w.unreadPlays| + |plays| > 0 ==> r.nextTurn == Some(SelectAttackers)
    ensures |w.unreadPlays| + |plays| == 0 ==> r.nextTurn == w.nextTurn
  {
    if |w.unreadPlays + plays| > 0 then w.(nextTurn := Some(SelectAttackers), unreadPlays := [])
    else w.(unreadPlays := [])
  }

  /** `do_end_of_turn`, run on entering `EndOfTurn`: a new turn starts at
      `DrawCard` and passes to the other player. */
  function DoEndOfTurn(w: World): (r: World)
    ensures r == w.(nextTurn := r.nextTurn, nextActive := r.nextActive)
    ensures r.nextTurn == Some(DrawCard)
    ensures r.nextActive.Some? && r.nextActive.value != w.active
  {
    w.(nextTurn := Some(DrawCard), nextActive := Some(Other(w.active)))
  }

  /** Two ends of turn hand the turn back to the player who had it. Kept as
      documentation of the hook; it follows by unfolding. */
  lemma EndOfTurnAlternates(w: World)
    ensures var w1 := DoEndOfTurn(w);
            var w2 := DoEndOfTurn(w1.(active := w1.nextActive.value));
            w2.nextActive == Some(w.active)
  {
  }

  /** `update_turn_icon_display`: the frame of the turn icon sheet. */
  function TurnIconIndex(t: TurnState, previous: nat): (r: nat)
    ensures t == PlayCreature ==> r == 0
    ensures t == SelectAttackers ==> r == 1
    ensures t == SelectDefenders ==> r == 2
    ensures t == ResolveCombat ==> r == 3
    ensures t in {DrawCard, Heal, EndOfTurn} ==> r == previous
  {
    match t
    case PlayCreature => 0
    case SelectAttackers => 1
    case SelectDefenders => 2
    case ResolveCombat => 3
    case _ => previous
  }

  /** The four combat phases with an icon get four different icon frames. */
  lemma TurnIconsDistinct(t1: TurnState, t2: TurnState, previous: nat)
    requires t1 in {PlayCreature, SelectAttackers, SelectDefenders, ResolveCombat}
    requires t2 in {PlayCreature, SelectAttackers, SelectDefenders, ResolveCombat}
    ensures TurnIconIndex(t1, previous) == TurnIconIndex(t2, previous) <==> t1 == t2
  {
  }
}
