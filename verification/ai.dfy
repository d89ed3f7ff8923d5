/** The computer opponent: on entering `DrawCard` in its own turn it plays
    the first card of its hand it is allowed to play. */
module Ai {
  import opened Wrappers
  import opened Types
  import opened Cards
  import opened GameState

  /** The lowest index at or after `from` whose card is allowed, if any. */
  function FirstAllowed(cards: seq<CardEntity>, hand: seq<CardId>, from: nat): (r: Option<nat>)
    requires from <= |hand|
    ensures r.Some? ==> from <= r.value < |hand| && Allowed(cards, hand[r.value])
    ensures r.Some? ==> forall j :: from <= j < r.value ==> !Allowed(cards, hand[j])
    ensures r.None? ==> forall j :: from <= j < |hand| ==> !Allowed(cards, hand[j])
    decreases |hand| - from
  {
    if from == |hand| then None
    else if Allowed(cards, hand[from]) then Some(from)
    else FirstAllowed(cards, hand, from + 1)
  }

  /** `do_very_smart_ai_thing`: the computer plays its leftmost allowed card,
      reporting where it sits in the hand; without a hand or an allowed card
      nothing is played. */
  function DoVerySmartAiThing(w: World): (r: Option<PlayEvent>)
    ensures r.Some? ==>
              && r.value.player == PlayerRef.Ai && PlayerRef.Ai in w.hands
              && r.value.handIndex < |w.hands[PlayerRef.Ai]|
              && w.hands[PlayerRef.Ai][r.value.handIndex] == r.value.card
              && Allowed(w.cards, r.value.card)
              && forall j :: 0 <= j < r.value.handIndex ==> !Allowed(w.cards, w.hands[PlayerRef.Ai][j])
    ensures r.None? <==>
              PlayerRef.Ai !in w.hands || forall c :: c in w.hands[PlayerRef.Ai] ==> !Allowed(w.cards, c)
  {
    if PlayerRef.Ai !in w.hands then None
    else
      var hand := w.hands[PlayerRef.Ai];
      match FirstAllowed(w.cards, hand, 0)
      case None => None
      case Some(i) => Some(PlayEvent(PlayerRef.Ai, hand[i], i))
  }
}
