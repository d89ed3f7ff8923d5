/** One frame of the combat schedule. Pending state changes are applied
    first and the entry hooks of the entered turn state run (`do_draw_card`,
    the computer's move, `do_end_of_turn`); then the `Update` systems run
    once each, in a fixed order, with their commands applied at once:
    draws, focus, play input, removal from the hand, the move onto the
    battlefield, the crowds, `set_allowed_cards`, `show_allowed_cards`,
    `progress_turn_after_play` and the turn icon. */
module Frame {
  import opened Wrappers
  import opened Types
  import opened Cards
  import opened Seqs
  import opened GameState
  import opened Hand
  import opened Battlefield
  import Opponent = Ai
  import opened Turn
  import opened Transit

  /** What the player does during a frame: the cards under the pointer and
      whether the left button was just pressed. */
  datatype Input = Input(hovered: set<CardId>, clicked: bool)

  /** The world once the pending states are applied and their entry hooks
      have run, whether the turn state changed, and the computer's play. */
  datatype Entered = Entered(world: World, changed: bool, aiPlay: Option<PlayEvent>)

  /** The state transition at the start of a frame. A pending player takes
      the turn; a pending turn state is entered, and its entry hooks run on
      the world that has the new states: on `DrawCard` the player whose turn
      it is draws a card and, when that is the computer, it plays; on
      `EndOfTurn` the next turn is prepared. A pending state is entered even
      when it equals the current one: that is how the first `DrawCard` of a
      combat fires. */
  function EnterStates(w: World): (r: Entered)
    ensures r.world == w.(active := r.world.active, nextActive := r.world.nextActive, turn := r.world.turn,
                          nextTurn := r.world.nextTurn, pendingDraws := r.world.pendingDraws)
    ensures r.changed <==> w.nextTurn.Some?
    ensures r.world.active == w.nextActive.GetOr(w.active)
    ensures r.world.turn == w.nextTurn.GetOr(w.turn)
    ensures w.nextTurn == Some(DrawCard) ==>
              && r.world.nextTurn == Some(PlayCreature)
              && r.world.pendingDraws == w.pendingDraws + [DrawEvent(r.world.active, 1)]
    ensures w.nextTurn == Some(EndOfTurn) ==>
              && r.world.nextTurn == Some(DrawCard)
              && r.world.nextActive == Some(Other(r.world.active))
    ensures w.nextTurn != Some(DrawCard) ==> r.world.pendingDraws == w.pendingDraws
    ensures w.nextTurn != Some(EndOfTurn) ==> r.world.nextActive == None
    ensures w.nextTurn.Some? && w.nextTurn != Some(DrawCard) && w.nextTurn != Some(EndOfTurn) ==>
              r.world.nextTurn == None
    ensures w.nextTurn.None? ==> r.world.nextTurn == None
    ensures r.aiPlay.Some? ==>
              && w.nextTurn == Some(DrawCard) && r.world.active == PlayerRef.Ai
              && r.aiPlay.value.player == PlayerRef.Ai && MatchesHand(w, r.aiPlay.value)
              && Allowed(w.cards, r.aiPlay.value.card)
    ensures (&& w.nextTurn == Some(DrawCard) && r.world.active == PlayerRef.Ai && PlayerRef.Ai in w.hands
             && exists c :: c in w.hands[PlayerRef.Ai] && Allowed(w.cards, c)) ==> r.aiPlay.Some?
  {
    var w1 := if w.nextActive.Some? then w.(active := w.nextActive.value, nextActive := None) else w;
    match w.nextTurn
    case None => Entered(w1, false, None)
    case Some(t) =>
      var w2 := w1.(turn := t, nextTurn := None);
      var w3 := if t == DrawCard then DoDrawCard(w2) else if t == EndOfTurn then DoEndOfTurn(w2) else w2;
      Entered(w3, true, EntryPlay(w, t, w2.active))
  }

  /** The computer's move on entering turn state `t` with `active` to play.
      It reads only the hands and the cards, which entering a state leaves
      as they are. */
  function EntryPlay(w: World, t: TurnState, active: PlayerRef): (r: Option<PlayEvent>)
    ensures r.Some? ==>
              && t == DrawCard && active == PlayerRef.Ai
              && r.value.player == PlayerRef.Ai && MatchesHand(w, r.value)
              && Allowed(w.cards, r.value.card)
    ensures (&& t == DrawCard && active == PlayerRef.Ai && PlayerRef.Ai in w.hands
             && exists c :: c in w.hands[PlayerRef.Ai] && Allowed(w.cards, c)) ==> r.Some?
  {
    if t == DrawCard && active == PlayerRef.Ai then Opponent.DoVerySmartAiThing(w) else None
  }

  /** The event of an optional send, as a batch. */
  function OptSeq<T>(o: Option<T>): (r: seq<T>)
    ensures |r| <= 1
    ensures o.Some? <==> |r| == 1
    ensures o.Some? ==> r[0] == o.value
  {
    if o.Some? then [o.value] else []
  }

  /** The world after the entry hooks and this frame's `draw_cards`, which
      consumes every pending draw event. */
  function AfterDraws(w: World): (r: World)
    ensures r == EnterStates(w).world.(cards := r.cards, decks := r.decks, hands := r.hands, pendingDraws := [])
  {
    var e := EnterStates(w);
    DrawCards(e.world, e.world.pendingDraws).(pendingDraws := [])
  }

  /** The world after `position_cards_in_hand` has set the focus. */
  function AfterFocus(w: World, input: Input): (r: World)
    ensures r == AfterDraws(w).(cards := r.cards)
  {
    FocusHands(AfterDraws(w), input.hovered)
  }

  /** The play events of the frame: the computer's, sent on entering
      `DrawCard`, before the human's, sent by `handle_play_input`. */
  function FramePlays(w: World, input: Input): (r: seq<PlayEvent>)
    ensures |r| <= 2
    ensures forall i :: 0 <= i < |r| && r[i].player == PlayerRef.Ai ==>
              w.nextTurn == Some(DrawCard) && w.nextActive.GetOr(w.active) == PlayerRef.Ai
    ensures forall i :: 0 <= i < |r| && r[i].player == Player ==> input.clicked
    ensures forall i, j :: 0 <= i < j < |r| ==> r[i].player != r[j].player
  {
    OptSeq(EnterStates(w).aiPlay) + OptSeq(HandlePlayInput(AfterFocus(w, input), input.clicked))
  }

  /** The systems that act on the frame's play events and then re-derive the
      crowds, the `AllowedToPlay` markers and the grey tint. The tint is
      shown after the markers are set, so it never lags behind them. */
  function Resolve(w: World, plays: seq<PlayEvent>): (r: World)
    requires RemovalsInBounds(w, plays)
    ensures r == w.(cards := r.cards, hands := r.hands, battlefields := r.battlefields, crowds := r.crowds)
    ensures r.decks == w.decks && |r.cards| == |w.cards|
  {
    var w3 := RemovePlayedCards(w, plays);
    var w4 := MoveCardsToBattlefield(w3, plays);
    var w5 := UpdateCrowdValue(w4, Grown(w3, w4));
    var w6 := SetAllowedCards(w5);
    w6.(cards := ShowAllowedCards(w6.cards))
  }

  /** The systems that only look at the turn: `progress_turn_after_play`
      in `PlayCreature`, which consumes the play events it can read (those
      of the previous frame too), and the turn icon when the turn state
      changed. In any other state the frame's events stay readable for one
      more frame. */
  function Conclude(w: World, plays: seq<PlayEvent>, changed: bool): (r: World)
    ensures r == w.(nextTurn := r.nextTurn, unreadPlays := r.unreadPlays, turnIcon := r.turnIcon)
    ensures w.turn == PlayCreature ==> r.unreadPlays == [] && r.nextTurn == ProgressTurnAfterPlay(w, plays).nextTurn
    ensures w.turn != PlayCreature ==> r.unreadPlays == plays && r.nextTurn == w.nextTurn
    ensures r.turnIcon == if changed then TurnIconIndex(w.turn, w.turnIcon) else w.turnIcon
  {
    var w8 := if w.turn == PlayCreature then ProgressTurnAfterPlay(w, plays) else w.(unreadPlays := plays);
    if changed then w8.(turnIcon := TurnIconIndex(w8.turn, w8.turnIcon)) else w8
  }

  /** When a frame enters one of the four phases with an icon, the icon it
      shows tells that phase apart from the other three. */
  lemma IconShowsPhase(w: World, plays: seq<PlayEvent>, t: TurnState)
    requires w.turn in {PlayCreature, SelectAttackers, SelectDefenders, ResolveCombat}
    requires t in {PlayCreature, SelectAttackers, SelectDefenders, ResolveCombat}
    ensures Conclude(w, plays, true).turnIcon == TurnIconIndex(t, w.turnIcon) <==> t == w.turn
  {
    TurnIconsDistinct(w.turn, t, w.turnIcon);
  }

  /** One frame. `None` is the panic of `Vec::remove` when a play event's
      hand position is past the end of its hand. */
  function Step(w: World, input: Input): (r: Option<World>)
    ensures r.Some? ==>
              && r.value.lives == w.lives && r.value.pendingDraws == []
              && |r.value.cards| == |w.cards|
              && r.value.turn == w.nextTurn.GetOr(w.turn)
              && r.value.active == w.nextActive.GetOr(w.active)
  {
    var w2 := AfterFocus(w, input);
    var plays := FramePlays(w, input);
    if !RemovalsInBounds(w2, plays) then None
    else Some(Conclude(Resolve(w2, plays), plays, EnterStates(w).changed))
  }

  /** Card `c` exists and is grey exactly when it may not be played. */
  predicate TintShown(w: World, c: int) {
    0 <= c < |w.cards| && (w.cards[c].gray <==> !w.cards[c].allowed)
  }

  /** Every card of a hand is grey exactly when it may not be played. */
  ghost predicate Tinted(w: World) {
    forall p: PlayerRef, c: int | p in w.hands && c in w.hands[p] :: TintShown(w, c)
  }

  lemma TintedAt(w: World, p: PlayerRef, c: int)
    requires Tinted(w) && p in w.hands && c in w.hands[p]
    ensures TintShown(w, c)
  {
  }

  /** In a tinted world, `set_grayscale` paints a hand card grey exactly
      when it may not be played, and white exactly when it may. */
  lemma TintPainted(w: World, p: PlayerRef, c: int)
    requires Tinted(w) && p in w.hands && c in w.hands[p]
    ensures 0 <= c < |w.cards|
    ensures TintOf(w.cards[c]) == Gray700 <==> !w.cards[c].allowed
    ensures TintOf(w.cards[c]) == White <==> w.cards[c].allowed
  {
    TintedAt(w, p, c);
  }

  /** The invariant of the combat between frames: the zones are valid, every
      crowd is its battlefield's size, and every hand card is allowed, and
      shown, exactly as its owner's crowd permits. */
  ghost predicate Consistent(w: World) {
    ZonesValid(w) && CrowdsMatch(w) && HandsLegal(w) && Tinted(w)
  }
}
