/** The battlefield systems: each played card is turned face up and pushed
    onto its player's battlefield, and every battlefield that changed sets its
    player's crowd to its size. */
module Battlefield {
  import opened Types
  import opened Cards
  import opened GameState

  /** The cards a batch of play events names, in order. */
  function CardsOf(events: seq<PlayEvent>): (r: seq<CardId>)
    ensures |r| == |events|
    ensures forall i :: 0 <= i < |events| ==> r[i] == events[i].card
  {
    seq(|events|, i requires 0 <= i < |events| => events[i].card)
  }

  lemma CardsOfAppend(a: seq<PlayEvent>, b: seq<PlayEvent>)
    ensures CardsOf(a + b) == CardsOf(a) + CardsOf(b)
  {
  }

  /** The cards of `events` that `p` played, in order. */
  function PlayedBy(events: seq<PlayEvent>, p: PlayerRef): (r: seq<CardId>)
    ensures |r| <= |events|
    ensures forall c :: c in r ==> c in CardsOf(events)
    decreases |events|
  {
    if |events| == 0 then []
    else
      var rest := PlayedBy(events[1..], p);
      assert forall c :: c in CardsOf(events[1..]) ==> c in CardsOf(events) by {
        assert CardsOf(events) == [events[0].card] + CardsOf(events[1..]);
      }
      if events[0].player == p then [events[0].card] + rest else rest
  }

  /** `move_card_to_battlefield` completes the event: the card entity exists
      and its player has a battlefield. */
  predicate Lands(w: World, e: PlayEvent) {
    e.card < |w.cards| && e.player in w.battlefields
  }

  /** The index of the first event that ends the batch early, or the batch
      length when every event completes. */
  function FirstMiss(w: World, events: seq<PlayEvent>): (k: nat)
    ensures k <= |events|
    ensures forall i :: 0 <= i < k ==> Lands(w, events[i])
    ensures k < |events| ==> !Lands(w, events[k])
    decreases |events|
  {
    if |events| == 0 || !Lands(w, events[0]) then 0 else 1 + FirstMiss(w, events[1..])
  }

  /** The cards the batch turns face up: those of the completed events, plus
      the card of the event that ends the batch when only its battlefield is
      missing. */
  function Revealed(w: World, events: seq<PlayEvent>): seq<CardId> {
    var k := FirstMiss(w, events);
    if k < |events| && events[k].card < |w.cards| then CardsOf(events[..k + 1]) else CardsOf(events[..k])
  }

  /** One completed event: the card is turned face up and pushed onto its
      player's battlefield. */
  function Land(w: World, e: PlayEvent): (r: World)
    requires Lands(w, e)
    ensures r == w.(battlefields := r.battlefields, cards := r.cards)
    ensures r.battlefields == w.battlefields[e.player := w.battlefields[e.player] + [e.card]]
    ensures |r.cards| == |w.cards| && r.cards[e.card] == w.cards[e.card].(showFront := true)
    ensures forall x :: 0 <= x < |w.cards| && x != e.card ==> r.cards[x] == w.cards[x]
  {
    w.(battlefields := w.battlefields[e.player := w.battlefields[e.player] + [e.card]],
       cards := w.cards[e.card := w.cards[e.card].(showFront := true)])
  }

  /** `move_card_to_battlefield`. A card that does not exist ends the batch
      with nothing changed; a missing battlefield ends it after the card was
      turned face up. */
  function MoveCardsToBattlefield(w: World, events: seq<PlayEvent>): (r: World)
    ensures r == w.(battlefields := r.battlefields, cards := r.cards)
    ensures r.battlefields.Keys == w.battlefields.Keys
    ensures |r.cards| == |w.cards|
    decreases |events|
  {
    if |events| == 0 then w
    else
      var e := events[0];
      if e.card >= |w.cards| then w
      else if e.player !in w.battlefields then w.(cards := w.cards[e.card := w.cards[e.card].(showFront := true)])
      else MoveCardsToBattlefield(Land(w, e), events[1..])
  }

  /** Whether an event completes depends only on which entities exist. */
  lemma FirstMissFrame(w: World, w': World, events: seq<PlayEvent>)
    requires |w'.cards| == |w.cards| && w'.battlefields.Keys == w.battlefields.Keys
    ensures FirstMiss(w', events) == FirstMiss(w, events)
    decreases |events|
  {
    if |events| > 0 {
      FirstMissFrame(w, w', events[1..]);
    }
  }

  /** The batch in closed form: every battlefield gains, in order, the cards
      its player played before the first event that ends the batch. */
  lemma {:induction false} MoveCardsFields(w: World, events: seq<PlayEvent>, p: PlayerRef)
    requires p in w.battlefields
    ensures MoveCardsToBattlefield(w, events).battlefields[p]
              == w.battlefields[p] + PlayedBy(events[..FirstMiss(w, events)], p)
    decreases |events|
  {
    if |events| == 0 || !Lands(w, events[0]) {
      assert events[..FirstMiss(w, events)] == [];
    } else {
      var e := events[0];
      var w1 := Land(w, e);
      MoveCardsFields(w1, events[1..], p);
      var k1 := FirstMiss(w1, events[1..]);
      PrefixStep(w, w1, events);
      PlayedByCons(e, events[1..][..k1], p);
      AppendAssocIds(w.battlefields[p], if e.player == p then [e.card] else [], PlayedBy(events[1..][..k1], p));
    }
  }

  /** The completed prefix of a batch whose first event completes: that
      event, then the completed prefix of the rest. */
  lemma PrefixStep(w: World, w1: World, events: seq<PlayEvent>)
    requires |events| > 0 && Lands(w, events[0])
    requires |w1.cards| == |w.cards| && w1.battlefields.Keys == w.battlefields.Keys
    ensures events[..FirstMiss(w, events)] == [events[0]] + events[1..][..FirstMiss(w1, events[1..])]
  {
    FirstMissFrame(w, w1, events[1..]);
  }

  lemma PlayedByCons(e: PlayEvent, rest: seq<PlayEvent>, p: PlayerRef)
    ensures PlayedBy([e] + rest, p) == (if e.player == p then [e.card] else []) + PlayedBy(rest, p)
  {
    assert ([e] + rest)[1..] == rest;
  }

  /** The batch in closed form: the revealed cards are turned face up and
      every other card is untouched. */
  lemma {:induction false} MoveCardsReveals(w: World, events: seq<PlayEvent>, x: CardId)
    requires x < |w.cards|
    ensures MoveCardsToBattlefield(w, events).cards[x]
              == if x in Revealed(w, events) then w.cards[x].(showFront := true) else w.cards[x]
    decreases |events|
  {
    var k := FirstMiss(w, events);
    if |events| == 0 {
      assert events[..k] == [];
    } else if !Lands(w, events[0]) {
      assert events[..k] == [];
      assert events[..k + 1] == [events[0]];
    } else {
      var w1 := Land(w, events[0]);
      MoveCardsReveals(w1, events[1..], x);
      RevealedStep(w, w1, events);
    }
  }

  lemma AppendAssocIds(a: seq<CardId>, b: seq<CardId>, c: seq<CardId>)
    ensures (a + b) + c == a + (b + c)
  {
  }

  /** Revealing over a batch whose first event completes: the first card, then
      the rest of the batch. */
  lemma RevealedStep(w: World, w1: World, events: seq<PlayEvent>)
    requires |events| > 0 && Lands(w, events[0])
    requires |w1.cards| == |w.cards| && w1.battlefields.Keys == w.battlefields.Keys
    ensures forall x :: x in Revealed(w, events) <==> x == events[0].card || x in Revealed(w1, events[1..])
  {
    FirstMissFrame(w, w1, events[1..]);
    var k := FirstMiss(w, events);
    var k1 := FirstMiss(w1, events[1..]);
    assert k == k1 + 1;
    var tail := events[1..];
    if k1 < |tail| && tail[k1].card < |w.cards| {
      assert events[..k + 1] == [events[0]] + tail[..k1 + 1];
      CardsOfAppend([events[0]], tail[..k1 + 1]);
    } else {
      assert events[..k] == [events[0]] + tail[..k1];
      CardsOfAppend([events[0]], tail[..k1]);
    }
  }

  /** A battlefield never loses or reorders cards: the old one is a prefix of the new. */
  lemma BattlefieldsOnlyGrow(w: World, events: seq<PlayEvent>, p: PlayerRef)
    requires p in w.battlefields
    ensures w.battlefields[p] <= MoveCardsToBattlefield(w, events).battlefields[p]
  {
    MoveCardsFields(w, events, p);
  }

  /** The players whose battlefield grew between two worlds: what
      `Changed<BattleField>` reports, since only a push marks it changed. */
  function Grown(before: World, after: World): (r: set<PlayerRef>)
    ensures forall p :: p in r <==>
              p in before.battlefields && p in after.battlefields
              && |after.battlefields[p]| > |before.battlefields[p]|
  {
    set p: PlayerRef | p in before.battlefields && p in after.battlefields
                       && |after.battlefields[p]| > |before.battlefields[p]|
  }

  /** After `move_card_to_battlefield`, `Changed<BattleField>` reports a
      player's battlefield exactly when it exists and that player played a
      card before the batch ended. */
  lemma GrownByMove(w: World, events: seq<PlayEvent>, p: PlayerRef)
    ensures (p in Grown(w, MoveCardsToBattlefield(w, events)))
              <==> (p in w.battlefields && PlayedBy(events[..FirstMiss(w, events)], p) != [])
  {
    if p in w.battlefields {
      MoveCardsFields(w, events, p);
    }
  }

  /** `update_crowd_value`: for each changed battlefield whose controller
      exists, the crowd becomes the battlefield's size cast to `u8`. */
  function UpdateCrowdValue(w: World, changed: set<PlayerRef>): (r: World)
    ensures r == w.(crowds := r.crowds)
    ensures r.crowds.Keys == w.crowds.Keys
    ensures forall p :: p in w.crowds && p in changed && p in w.battlefields ==>
              r.crowds[p] == |w.battlefields[p]| % 256
    ensures forall p :: p in w.crowds && !(p in changed && p in w.battlefields) ==> r.crowds[p] == w.crowds[p]
  {
    w.(crowds := map p | p in w.crowds ::
                   if p in changed && p in w.battlefields then TruncateU8(|w.battlefields[p]|) else w.crowds[p])
  }

  /** Every crowd equals its battlefield's size modulo 256. */
  predicate CrowdsMatch(w: World) {
    forall p :: p in w.crowds && p in w.battlefields ==> w.crowds[p] == |w.battlefields[p]| % 256
  }

  /** Updating the crowds of the battlefields that grew restores the match
      after any batch of pushes. */
  lemma UpdateCrowdRestores(before: World, after: World)
    requires CrowdsMatch(before)
    requires after.crowds == before.crowds && after.battlefields.Keys == before.battlefields.Keys
    requires forall p :: p in before.battlefields ==> before.battlefields[p] <= after.battlefields[p]
    ensures CrowdsMatch(UpdateCrowdValue(after, Grown(before, after)))
  {
    var r := UpdateCrowdValue(after, Grown(before, after));
    forall p | p in r.crowds && p in r.battlefields
      ensures r.crowds[p] == |r.battlefields[p]| % 256
    {
      if p !in Grown(before, after) {
        assert before.battlefields[p] == after.battlefields[p];
      }
    }
  }
}
