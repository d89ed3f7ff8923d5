/** What one frame keeps: the invariant of the combat, the turn phases that
    can be reached, and which plays a frame can contain. */
module Invariants {
  import opened Wrappers
  import opened Types
  import opened Cards
  import opened Seqs
  import opened GameState
  import opened Hand
  import opened Battlefield
  import opened Decks
  import opened Turn
  import opened Transit
  import opened Frame

  /** Two worlds with the same cards, zones and crowds agree on the invariant. */
  lemma BoardFrame(w: World, r: World)
    requires r.cards == w.cards && r.decks == w.decks && r.hands == w.hands
    requires r.battlefields == w.battlefields && r.crowds == w.crowds
    ensures ZonesValid(w) ==> ZonesValid(r)
    ensures CrowdsMatch(w) ==> CrowdsMatch(r)
    ensures Consistent(w) ==> Consistent(r)
  {
    if ZonesValid(w) {
      FlagsFrame(w, r);
    }
    if HandsLegal(w) {
      forall p: PlayerRef, c: int | p in r.hands && c in r.hands[p]
        ensures LegalIn(r, p, c)
      {
        LegalAt(w, p, c);
      }
      assert HandsLegal(r);
    }
    if Tinted(w) {
      forall p: PlayerRef, c: int | p in r.hands && c in r.hands[p]
        ensures TintShown(r, c)
      {
        TintedAt(w, p, c);
      }
      assert Tinted(r);
    }
  }

  /** Changing card components that no zone constrains keeps the zones
      valid: `Focused`, the grey tint, and `AllowedToPlay` on cards in a hand. */
  lemma FlagsFrame(w: World, r: World)
    requires ZonesValid(w)
    requires r.decks == w.decks && r.hands == w.hands && r.battlefields == w.battlefields
    requires r.crowds.Keys == w.crowds.Keys && |r.cards| == |w.cards|
    requires SameZoneFlags(w, r)
    ensures ZonesValid(r)
  {
    assert ZoneBag(r) == ZoneBag(w);
    DecksKept(w, r);
    HandsKept(w, r);
    FieldsKept(w, r);
  }

  lemma DecksKept(w: World, r: World)
    requires DeckFlags(w) && r.decks == w.decks && |r.cards| == |w.cards| && SameZoneFlags(w, r)
    ensures DeckFlags(r)
  {
    forall p: PlayerRef, c: CardId | p in r.decks && c in r.decks[p]
      ensures DeckCardIn(r, c)
    {
      DeckCardKept(w, r, p, c);
    }
  }

  lemma HandsKept(w: World, r: World)
    requires HandFlags(w) && r.hands == w.hands && |r.cards| == |w.cards| && SameZoneFlags(w, r)
    ensures HandFlags(r)
  {
    forall p: PlayerRef, c: CardId | p in r.hands && c in r.hands[p]
      ensures HandCardIn(r, c, p)
    {
      HandCardKept(w, r, p, c);
    }
  }

  lemma FieldsKept(w: World, r: World)
    requires FieldFlags(w) && r.battlefields == w.battlefields && |r.cards| == |w.cards| && SameZoneFlags(w, r)
    ensures FieldFlags(r)
  {
    forall p: PlayerRef, c: CardId | p in r.battlefields && c in r.battlefields[p]
      ensures FieldCardIn(r, c)
    {
      FieldCardKept(w, r, p, c);
    }
  }

  /** Every card keeps the components the zones constrain; `AllowedToPlay`
      may change only on cards in a hand. */
  predicate SameZoneFlags(w: World, r: World)
    requires |r.cards| == |w.cards|
  {
    forall x :: 0 <= x < |w.cards| ==>
      && r.cards[x].inHand == w.cards[x].inHand && r.cards[x].showFront == w.cards[x].showFront
      && r.cards[x].owner == w.cards[x].owner
      && (!w.cards[x].inHand ==> r.cards[x].allowed == w.cards[x].allowed)
  }

  lemma DeckCardKept(w: World, r: World, p: PlayerRef, c: CardId)
    requires DeckFlags(w) && r.decks == w.decks && |r.cards| == |w.cards| && SameZoneFlags(w, r)
    requires p in w.decks && c in w.decks[p]
    ensures DeckCardIn(r, c)
  {
    DeckCardAt(w, p, c);
  }

  lemma HandCardKept(w: World, r: World, p: PlayerRef, c: CardId)
    requires HandFlags(w) && r.hands == w.hands && |r.cards| == |w.cards| && SameZoneFlags(w, r)
    requires p in w.hands && c in w.hands[p]
    ensures HandCardIn(r, c, p)
  {
    HandCardAt(w, p, c);
  }

  lemma FieldCardKept(w: World, r: World, p: PlayerRef, c: CardId)
    requires FieldFlags(w) && r.battlefields == w.battlefields && |r.cards| == |w.cards| && SameZoneFlags(w, r)
    requires p in w.battlefields && c in w.battlefields[p]
    ensures FieldCardIn(r, c)
  {
    FieldCardAt(w, p, c);
  }

  /** The entry hooks and the draws keep the zone invariant, leave crowds
      and battlefields alone, and only append to hands. */
  lemma DrawStage(w: World)
    requires ZonesValid(w) && CrowdsMatch(w)
    ensures var a := AfterDraws(w);
            && ZonesValid(a) && CrowdsMatch(a)
            && a.crowds == w.crowds && a.battlefields == w.battlefields && a.hands.Keys == w.hands.Keys
            && forall p :: p in w.hands ==> w.hands[p] <= a.hands[p]
  {
    var e := EnterStates(w);
    BoardFrame(w, e.world);
    var d := DrawCards(e.world, e.world.pendingDraws);
    DrawCardsValid(e.world, e.world.pendingDraws);
    BoardFrame(d, AfterDraws(w));
    forall p | p in w.hands
      ensures w.hands[p] <= AfterDraws(w).hands[p]
    {
      DrawCardsExtendHands(e.world, e.world.pendingDraws, p);
    }
  }

  /** Setting the focus keeps the zone invariant. */
  lemma FocusStage(w: World, input: Input)
    requires ZonesValid(w) && CrowdsMatch(w)
    ensures var f := AfterFocus(w, input);
            && ZonesValid(f) && CrowdsMatch(f)
            && f.crowds == w.crowds && f.battlefields == w.battlefields
  {
    DrawStage(w);
    FlagsFrame(AfterDraws(w), AfterFocus(w, input));
  }

  /** In a frame from a valid world, the focus of each hand is its own top
      hovered card, so each hand has at most one focused card. */
  lemma FrameFocusSelects(w: World, input: Input, p: PlayerRef)
    requires ZonesValid(w) && CrowdsMatch(w)
    ensures var a := AfterDraws(w);
            var hand := a.hands[p];
            forall j :: 0 <= j < |hand| && hand[j] < |a.cards| ==>
              (AfterFocus(w, input).cards[hand[j]].focused <==> IsTopHovered(a.cards, hand, input.hovered, j))
    ensures var a := AfterDraws(w);
            var hand := a.hands[p];
            forall j1, j2 ::
              (&& 0 <= j1 < |hand| && 0 <= j2 < |hand| && hand[j1] < |a.cards| && hand[j2] < |a.cards|
               && AfterFocus(w, input).cards[hand[j1]].focused && AfterFocus(w, input).cards[hand[j2]].focused)
              ==> j1 == j2
  {
    DrawStage(w);
    var a := AfterDraws(w);
    HandsSeparate(a);
    FocusHandsSelect(a, input.hovered, p);
  }

  /** The computer's play, chosen before the draws, still names its card's
      position after them, since draws only append. */
  lemma AiPlayStillMatches(w: World, input: Input)
    requires ZonesValid(w) && CrowdsMatch(w) && EnterStates(w).aiPlay.Some?
    ensures MatchesHand(AfterFocus(w, input), EnterStates(w).aiPlay.value)
  {
    DrawStage(w);
    var a := EnterStates(w).aiPlay.value;
    var f := AfterFocus(w, input);
    assert w.hands[a.player] <= f.hands[a.player];
  }

  /** The frame's plays can be removed from the hands one after the other. */
  lemma PlaysMatch(w: World, input: Input)
    requires ZonesValid(w) && CrowdsMatch(w)
    ensures MatchSequentially(AfterFocus(w, input), FramePlays(w, input))
  {
    var ai := EnterStates(w).aiPlay;
    var f := AfterFocus(w, input);
    if ai.Some? {
      AiPlayStillMatches(w, input);
    }
    OptPlaysMatch(f, ai, HandlePlayInput(f, input.clicked));
  }

  /** At most one play of each player, each matching the current hands,
      can be removed one after the other. */
  lemma OptPlaysMatch(w: World, a: Option<PlayEvent>, b: Option<PlayEvent>)
    requires a.Some? ==> MatchesHand(w, a.value)
    requires b.Some? ==> MatchesHand(w, b.value)
    requires a.Some? && b.Some? ==> a.value.player != b.value.player
    ensures MatchSequentially(w, OptSeq(a) + OptSeq(b))
  {
    if a.Some? && b.Some? {
      assert OptSeq(a) + OptSeq(b) == [a.value, b.value];
      TwoPlaysMatch(w, a.value, b.value);
    } else if a.Some? {
      assert OptSeq(a) + OptSeq(b) == [a.value];
      OnePlayMatches(w, a.value);
    } else if b.Some? {
      assert OptSeq(a) + OptSeq(b) == [b.value];
      OnePlayMatches(w, b.value);
    } else {
      assert OptSeq(a) + OptSeq(b) == [];
    }
  }

  /** Removing and landing the plays keeps the zones valid; every battlefield
      gains its player's played cards. */
  lemma MoveStage(w: World, plays: seq<PlayEvent>)
    requires ZonesValid(w) && MatchSequentially(w, plays)
    ensures RemovalsInBounds(w, plays)
    ensures var r := MoveCardsToBattlefield(RemovePlayedCards(w, plays), plays);
            && ZonesValid(r)
            && forall p: PlayerRef | p in w.battlefields ::
                 p in r.battlefields && r.battlefields[p] == w.battlefields[p] + PlayedBy(plays, p)
  {
    PlaysValid(w, plays, Player);
    PlaysValid(w, plays, Ai);
    var r := MoveCardsToBattlefield(RemovePlayedCards(w, plays), plays);
    forall p: PlayerRef | p in w.battlefields
      ensures p in r.battlefields && r.battlefields[p] == w.battlefields[p] + PlayedBy(plays, p)
    {
      if p == Player {
      } else {
      }
    }
  }

  /** `show_allowed_cards` keeps the hands legal and makes every hand card
      grey exactly when it may not be played. */
  lemma ShowStage(w: World)
    requires HandFlags(w) && HandsLegal(w)
    ensures var r := w.(cards := ShowAllowedCards(w.cards));
            HandsLegal(r) && Tinted(r)
  {
    var r := w.(cards := ShowAllowedCards(w.cards));
    forall p: PlayerRef, c: int | p in r.hands && c in r.hands[p]
      ensures LegalIn(r, p, c) && TintShown(r, c)
    {
      LegalAt(w, p, c);
      HandCardAt(w, p, c);
    }
    assert HandsLegal(r);
    assert Tinted(r);
  }

  /** The crowd update, `set_allowed_cards` and `show_allowed_cards` restore
      the invariant after a batch of plays. */
  lemma RederiveStage(w3: World, w4: World)
    requires ZonesValid(w4) && CrowdsMatch(w3)
    requires w4.crowds == w3.crowds && w4.battlefields.Keys == w3.battlefields.Keys
    requires forall p :: p in w3.battlefields ==> w3.battlefields[p] <= w4.battlefields[p]
    ensures var w5 := UpdateCrowdValue(w4, Grown(w3, w4));
            var w6 := SetAllowedCards(w5);
            var r := w6.(cards := ShowAllowedCards(w6.cards));
            Consistent(r) && r.battlefields == w4.battlefields
  {
    UpdateCrowdRestores(w3, w4);
    var w5 := UpdateCrowdValue(w4, Grown(w3, w4));
    FlagsFrame(w4, w5);
    var w6 := SetAllowedCards(w5);
    FlagsFrame(w5, w6);
    SetAllowedMakesLegal(w5);
    var r := w6.(cards := ShowAllowedCards(w6.cards));
    FlagsFrame(w6, r);
    ShowStage(w6);
    assert CrowdsMatch(r) by {
      assert r.crowds == w5.crowds && r.battlefields == w5.battlefields;
    }
  }

  /** The frame's plays, removed and landed, followed by the re-derived
      crowds and markers, leave a consistent world in which every
      battlefield gained exactly its player's played cards. */
  lemma ResolveStage(w: World, plays: seq<PlayEvent>)
    requires ZonesValid(w) && CrowdsMatch(w) && MatchSequentially(w, plays)
    ensures RemovalsInBounds(w, plays)
    ensures var r := Resolve(w, plays);
            && Consistent(r)
            && forall p: PlayerRef | p in w.battlefields ::
                 p in r.battlefields && r.battlefields[p] == w.battlefields[p] + PlayedBy(plays, p)
  {
    MoveStage(w, plays);
    var w3 := RemovePlayedCards(w, plays);
    var w4 := MoveCardsToBattlefield(w3, plays);
    assert CrowdsMatch(w3) by {
      assert w3.crowds == w.crowds && w3.battlefields == w.battlefields;
    }
    forall p | p in w3.battlefields
      ensures w3.battlefields[p] <= w4.battlefields[p]
    {
      BattlefieldsOnlyGrow(w3, plays, p);
    }
    RederiveStage(w3, w4);
  }

  /** A frame started from a consistent world never panics and ends in a
      consistent world; each battlefield gains, in order, the cards its
      player played during the frame. */
  lemma StepConsistent(w: World, input: Input)
    requires Consistent(w)
    ensures Step(w, input).Some?
    ensures Consistent(Step(w, input).value)
    ensures forall p: PlayerRef | p in w.battlefields ::
              && p in Step(w, input).value.battlefields
              && Step(w, input).value.battlefields[p] == w.battlefields[p] + PlayedBy(FramePlays(w, input), p)
  {
    FocusStage(w, input);
    PlaysMatch(w, input);
    var f := AfterFocus(w, input);
    var plays := FramePlays(w, input);
    ResolveStage(f, plays);
    var w7 := Resolve(f, plays);
    assert Step(w, input) == Some(Conclude(w7, plays, EnterStates(w).changed));
    BoardFrame(w7, Step(w, input).value);
  }

  /** A crowd never shrinks in a frame until its battlefield reaches 256
      cards, where the `u8` cast wraps it around. */
  lemma StepCrowdGrows(w: World, input: Input, p: PlayerRef)
    requires Consistent(w)
    ensures Step(w, input).Some?
    ensures p in w.crowds && p in Step(w, input).value.crowds
    ensures |Step(w, input).value.battlefields[p]| < 256 ==> w.crowds[p] <= Step(w, input).value.crowds[p]
  {
    StepConsistent(w, input);
    CrowdGrows(w, Step(w, input).value, p);
  }

  /** Between two consistent worlds where `p`'s battlefield only grew, `p`'s
      crowd only grew too, unless the battlefield passed 255 cards. */
  lemma CrowdGrows(w: World, r: World, p: PlayerRef)
    requires Consistent(w) && Consistent(r)
    requires p in w.battlefields && p in r.battlefields ==> w.battlefields[p] <= r.battlefields[p]
    ensures p in w.crowds && p in r.crowds
    ensures |r.battlefields[p]| < 256 ==> w.crowds[p] <= r.crowds[p]
  {
    EntitiesOf(w, p);
    EntitiesOf(r, p);
    assert w.crowds[p] == |w.battlefields[p]| % 256;
    assert r.crowds[p] == |r.battlefields[p]| % 256;
  }

  /** A card the computer plays sits in its hand at the start of the frame
      and is affordable there. */
  lemma AiPlayAffordable(w: World)
    requires Consistent(w) && EnterStates(w).aiPlay.Some?
    ensures var e := EnterStates(w).aiPlay.value;
            && e.player in w.hands && e.card in w.hands[e.player]
            && e.player in w.crowds && e.card < |w.cards|
            && CanAfford(w.cards[e.card], w.crowds[e.player])
  {
    var e := EnterStates(w).aiPlay.value;
    assert e.card in w.hands[e.player];
    LegalAt(w, e.player, e.card);
  }

  /** A card the human plays sits in their hand at the start of the frame
      and is affordable there: cards drawn during the frame are not yet
      allowed. */
  lemma HumanPlayAffordable(w: World, input: Input)
    requires Consistent(w) && HandlePlayInput(AfterFocus(w, input), input.clicked).Some?
    ensures var e := HandlePlayInput(AfterFocus(w, input), input.clicked).value;
            && e.player in w.hands && e.card in w.hands[e.player]
            && e.player in w.crowds && e.card < |w.cards|
            && CanAfford(w.cards[e.card], w.crowds[e.player])
  {
    var f := AfterFocus(w, input);
    var e := HandlePlayInput(f, input.clicked).value;
    var c := e.card;
    var ew := EnterStates(w).world;
    BoardFrame(w, ew);
    var d := DrawCards(ew, ew.pendingDraws);
    assert c in d.hands[Player];
    DrawCardsOrigin(ew, ew.pendingDraws, Player, c);
    assert d.cards[c].allowed by {
      assert f.cards[c].allowed;
      assert f.cards[c] == AfterDraws(w).cards[c].(focused := f.cards[c].focused);
    }
    LegalAt(w, Player, c);
  }

  /** Every card played during a frame was in its player's hand when the
      frame began, and that player's crowd covered its cast cost; a card
      cannot be played on the frame it is drawn. */
  lemma PlaysAffordable(w: World, input: Input)
    requires Consistent(w)
    ensures forall e :: e in FramePlays(w, input) ==>
              && e.player in w.hands && e.card in w.hands[e.player]
              && e.player in w.crowds && e.card < |w.cards|
              && CanAfford(w.cards[e.card], w.crowds[e.player])
  {
    var ai := EnterStates(w).aiPlay;
    var h := HandlePlayInput(AfterFocus(w, input), input.clicked);
    forall e | e in FramePlays(w, input)
      ensures && e.player in w.hands && e.card in w.hands[e.player]
              && e.player in w.crowds && e.card < |w.cards|
              && CanAfford(w.cards[e.card], w.crowds[e.player])
    {
      OptSeqMember(ai, h, e);
      if ai == Some(e) {
        AiPlayAffordable(w);
      } else {
        HumanPlayAffordable(w, input);
      }
    }
  }

  /** An element of two optional batches is the value of one of them. */
  lemma OptSeqMember<T>(a: Option<T>, b: Option<T>, x: T)
    requires x in OptSeq(a) + OptSeq(b)
    ensures a == Some(x) || b == Some(x)
  {
  }

  /** The turn phases a combat can be in between frames. Only
      `do_end_of_turn` hands the turn over or leads back to `DrawCard`, and
      no system ever asks for `EndOfTurn`. */
  predicate PhaseOk(w: World) {
    && w.nextActive.None?
    && (|| (w.turn == DrawCard && (w.nextTurn == Some(DrawCard) || w.nextTurn == Some(PlayCreature)))
        || (w.turn == PlayCreature && (w.nextTurn.None? || w.nextTurn == Some(SelectAttackers)))
        || (w.turn == SelectAttackers && w.nextTurn.None?))
  }

  /** The worlds a combat can be in between frames. */
  ghost predicate Reachable(w: World) {
    Consistent(w) && PhaseOk(w)
  }

  /** A frame in closed form once the removals are known to be in bounds. */
  lemma StepUnfold(w: World, input: Input)
    requires RemovalsInBounds(AfterFocus(w, input), FramePlays(w, input))
    ensures Step(w, input) == Some(Conclude(Resolve(AfterFocus(w, input), FramePlays(w, input)), FramePlays(w, input), EnterStates(w).changed))
    ensures Resolve(AfterFocus(w, input), FramePlays(w, input)).nextTurn == EnterStates(w).world.nextTurn
    ensures Resolve(AfterFocus(w, input), FramePlays(w, input)).turn == EnterStates(w).world.turn
    ensures Resolve(AfterFocus(w, input), FramePlays(w, input)).nextActive == EnterStates(w).world.nextActive
    ensures Resolve(AfterFocus(w, input), FramePlays(w, input)).unreadPlays == w.unreadPlays
  {
  }

  /** A frame keeps the combat reachable: it never panics, never hands the
      turn to the other player and never reaches `EndOfTurn`. */
  lemma StepReachable(w: World, input: Input)
    requires Reachable(w)
    ensures Step(w, input).Some?
    ensures Reachable(Step(w, input).value)
    ensures Step(w, input).value.active == w.active
    ensures Step(w, input).value.turn != EndOfTurn
  {
    StepConsistent(w, input);
    StepPhase(w, input);
  }

  /** The phase part of `StepReachable`, for a frame that does not panic. */
  lemma StepPhase(w: World, input: Input)
    requires PhaseOk(w) && Step(w, input).Some?
    ensures PhaseOk(Step(w, input).value)
    ensures Step(w, input).value.active == w.active
    ensures Step(w, input).value.turn != EndOfTurn
  {
    var f := AfterFocus(w, input);
    var plays := FramePlays(w, input);
    var e := EnterStates(w);
    StepUnfold(w, input);
    var r := Resolve(f, plays);
    assert Step(w, input).value == Conclude(r, plays, e.changed);
    assert r.turn == e.world.turn && r.nextTurn == e.world.nextTurn && r.nextActive == None;
  }

  /** In `PlayCreature` with nothing pending, the frame asks for
      `SelectAttackers` exactly when some play event is readable: one left
      over from the previous frame or one sent in this frame. */
  lemma PlayCreatureProgress(w: World, input: Input)
    requires Reachable(w) && w.turn == PlayCreature && w.nextTurn.None?
    ensures Step(w, input).Some?
    ensures Step(w, input).value.nextTurn == Some(SelectAttackers) <==> |w.unreadPlays| + |FramePlays(w, input)| > 0
    ensures Step(w, input).value.nextTurn.None? <==> |w.unreadPlays| + |FramePlays(w, input)| == 0
    ensures Step(w, input).value.unreadPlays == []
  {
    StepConsistent(w, input);
    StepUnfold(w, input);
  }

  /** `SelectAttackers` has no system that leaves it: once there, the combat
      stays there. */
  lemma SelectAttackersFinal(w: World, input: Input)
    requires Reachable(w) && w.turn == SelectAttackers
    ensures Step(w, input).Some?
    ensures Step(w, input).value.turn == SelectAttackers && Step(w, input).value.nextTurn.None?
  {
    StepConsistent(w, input);
    StepUnfold(w, input);
  }

  /** A player who plays nothing in a batch gains nothing from it. */
  lemma {:induction false} PlayedByNobody(plays: seq<PlayEvent>, p: PlayerRef)
    requires forall i :: 0 <= i < |plays| ==> plays[i].player != p
    ensures PlayedBy(plays, p) == []
    decreases |plays|
  {
    if |plays| > 0 {
      PlayedByNobody(plays[1..], p);
    }
  }

  /** While it is the human's turn the computer sends no play event, so its
      battlefield and its crowd stay as they are. */
  lemma AiIdleInHumanTurn(w: World, input: Input)
    requires Reachable(w) && w.active == Player
    ensures forall e :: e in FramePlays(w, input) ==> e.player == Player
    ensures Step(w, input).Some?
    ensures Step(w, input).value.battlefields[PlayerRef.Ai] == w.battlefields[PlayerRef.Ai]
    ensures Step(w, input).value.crowds[PlayerRef.Ai] == w.crowds[PlayerRef.Ai]
  {
    StepConsistent(w, input);
    var plays := FramePlays(w, input);
    PlayedByNobody(plays, PlayerRef.Ai);
    var r := Step(w, input).value;
    assert r.battlefields[PlayerRef.Ai] == w.battlefields[PlayerRef.Ai];
    assert r.crowds[PlayerRef.Ai] == |r.battlefields[PlayerRef.Ai]| % 256;
  }

  /** A freshly set up combat is reachable. */
  lemma SetupReachable(player: PlayerInfo, opponent: OpponentInfo)
    ensures Reachable(SetupCombat(player, opponent))
  {
    var w := SetupCombat(player, opponent);
    SetupCombatValid(player, opponent);
    assert CrowdsMatch(w);
    assert HandsLegal(w);
    assert Tinted(w);
  }

  /** Nothing can be played in the first frame of a combat: every card in
      a hand was drawn during it. */
  lemma FirstFramePlays(player: PlayerInfo, opponent: OpponentInfo, input: Input)
    ensures FramePlays(SetupCombat(player, opponent), input) == []
  {
    var w := SetupCombat(player, opponent);
    SetupReachable(player, opponent);
    PlaysAffordable(w, input);
  }

  /** A frame without plays leaves the hands as the draws left them. */
  lemma ResolveNothing(w: World)
    ensures RemovalsInBounds(w, [])
    ensures Resolve(w, []).hands == w.hands
  {
    assert RemovePlayedCards(w, []) == w;
  }

  /** The first frame of a combat: both opening hands and the human's first
      draw are dealt, nothing can be played yet, and the turn moves on to
      `PlayCreature`. With the 20-card test decks the human holds 8 cards
      and the computer 7. */
  lemma FirstFrame(player: PlayerInfo, opponent: OpponentInfo, input: Input)
    ensures var w := SetupCombat(player, opponent);
            var n, m := |player.deck|, |opponent.deck|;
            && Step(w, input).Some?
            && |Step(w, input).value.hands[Player]| == Min(OpeningHand, n) + Min(1, n - Min(OpeningHand, n))
            && |Step(w, input).value.hands[PlayerRef.Ai]| == Min(OpeningHand, m)
            && Step(w, input).value.turn == DrawCard && Step(w, input).value.nextTurn == Some(PlayCreature)
  {
    var w := SetupCombat(player, opponent);
    FirstFramePlays(player, opponent, input);
    var f := AfterFocus(w, input);
    ResolveNothing(f);
    StepUnfold(w, input);
    assert Step(w, input).value.hands == AfterDraws(w).hands;
    FirstFrameDraws(player, opponent);
  }

  lemma FirstFrameDraws(player: PlayerInfo, opponent: OpponentInfo)
    ensures var w := SetupCombat(player, opponent);
            var n, m := |player.deck|, |opponent.deck|;
            && |AfterDraws(w).hands[Player]| == Min(OpeningHand, n) + Min(1, n - Min(OpeningHand, n))
            && |AfterDraws(w).hands[PlayerRef.Ai]| == Min(OpeningHand, m)
  {
    var w := SetupCombat(player, opponent);
    var ew := EnterStates(w).world;
    assert ew.pendingDraws == [DrawEvent(Player, OpeningHand), DrawEvent(PlayerRef.Ai, OpeningHand), DrawEvent(Player, 1)];
    assert ew.decks == w.decks && ew.hands == w.hands;
    FirstDraws(ew);
  }

  /** The draws of the first frame: seven cards each, then one for the human. */
  lemma FirstDraws(w: World)
    requires w.decks.Keys == {Player, PlayerRef.Ai} && w.hands == map[Player := [], PlayerRef.Ai := []]
    ensures var n, m := |w.decks[Player]|, |w.decks[PlayerRef.Ai]|;
            var r := DrawCards(w, [DrawEvent(Player, OpeningHand), DrawEvent(PlayerRef.Ai, OpeningHand), DrawEvent(Player, 1)]);
            && |r.hands[Player]| == Min(OpeningHand, n) + Min(1, n - Min(OpeningHand, n))
            && |r.hands[PlayerRef.Ai]| == Min(OpeningHand, m)
  {
    var e0, e1, e2 := DrawEvent(Player, OpeningHand), DrawEvent(PlayerRef.Ai, OpeningHand), DrawEvent(Player, 1);
    var w1 := ApplyDraw(w, e0);
    ApplyDrawZones(w, e0);
    DrawMovesMin(w, e0);
    var w2 := ApplyDraw(w1, e1);
    ApplyDrawZones(w1, e1);
    DrawMovesMin(w1, e1);
    var w3 := ApplyDraw(w2, e2);
    ApplyDrawZones(w2, e2);
    DrawMovesMin(w2, e2);
    DrawThree(w, e0, e1, e2);
  }

  lemma DrawThree(w: World, e0: DrawEvent, e1: DrawEvent, e2: DrawEvent)
    ensures DrawCards(w, [e0, e1, e2]) == ApplyDraw(ApplyDraw(ApplyDraw(w, e0), e1), e2)
  {
    var w1 := ApplyDraw(w, e0);
    var w2 := ApplyDraw(w1, e1);
    assert [e0, e1, e2][1..] == [e1, e2];
    assert DrawCards(w, [e0, e1, e2]) == DrawCards(w1, [e1, e2]);
    assert [e1, e2][1..] == [e2];
    assert DrawCards(w1, [e1, e2]) == DrawCards(w2, [e2]);
    assert [e2][1..] == [];
    assert DrawCards(w2, [e2]) == DrawCards(ApplyDraw(w2, e2), []);
  }

  /** The test combat `create_test_combat` sets up: both players fight with
      the 20-card global list, the combat is reachable, and its first frame
      deals the human 8 cards and the computer 7 and moves on to
      `PlayCreature`. */
  lemma TestCombatStart(player: PlayerInfo, input: Input)
    ensures var (h, o) := CreateTestCombat(player);
            Reachable(SetupCombat(h, o))
    ensures var (h, o) := CreateTestCombat(player);
            var w := SetupCombat(h, o);
            && Step(w, input).Some?
            && |Step(w, input).value.hands[Player]| == 8
            && |Step(w, input).value.hands[PlayerRef.Ai]| == 7
            && Step(w, input).value.nextTurn == Some(PlayCreature)
  {
    var (h, o) := CreateTestCombat(player);
    SetupReachable(h, o);
    FirstFrame(h, o, input);
  }

  /** After any frame from a consistent world, `set_grayscale` paints a hand
      card grey exactly when its owner's crowd does not cover its cast
      cost. */
  lemma StepPaints(w: World, input: Input, p: PlayerRef, c: CardId)
    requires Consistent(w)
    ensures Step(w, input).Some?
    ensures var r := Step(w, input).value;
            p in r.hands && c in r.hands[p] ==>
              && c < |r.cards| && p in r.crowds
              && (TintOf(r.cards[c]) == Gray700 <==> !CanAfford(r.cards[c], r.crowds[p]))
  {
    StepConsistent(w, input);
    var r := Step(w, input).value;
    if p in r.hands && c in r.hands[p] {
      LegalAt(r, p, c);
      TintPainted(r, p, c);
    }
  }
}
