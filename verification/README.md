# rally_riders combat rules in Dafny

This project models the combat core of *rally_riders*, a Bevy card game. The modelled code is the `src/combat` plugin:

- two players, the human (`Player`) and the computer (`Ai`), each own a deck, a hand, a battlefield and a controller that carries a crowd and health;
- `draw_cards` moves cards from the top of a deck into the hand;
- `position_cards_in_hand` focuses the top hovered card of each hand;
- `set_allowed_cards` marks a hand card `AllowedToPlay` when its owner's crowd covers its cast cost, and `show_allowed_cards` greys out every other hand card;
- a left click on the single focused, allowed card sends a `PlayCard` event. On entering `DrawCard` in its own turn, the computer sends one for its leftmost allowed card;
- `remove_played_card_from_hand` and `move_card_to_battlefield` take the played card out of the hand and put it face up on the battlefield;
- `update_crowd_value` sets a crowd to the size of its battlefield;
- the turn-state hooks `do_draw_card`, `progress_turn_after_play` and `do_end_of_turn` move the turn along, and the turn icon follows it.

The ECS world is one immutable record, `GameState.World`:

- cards are a sequence indexed by entity id;
- player-scoped entities are maps keyed by `PlayerRef`, so a missing key is a failed `find`;
- markers (`InHand`, `Focused`, `AllowedToPlay`, `CardGray`) are booleans on a card;
- the states `TurnState` and `WhosTurnIsIt` come with their pending `NextState`;
- events in flight are sequences.

Every system is a pure function. `Frame.Step` is one frame: pending states are applied and their entry hooks run, then the `Update` systems run once each in a fixed order: `draw_cards` (with `setup_cards_in_hand`), `position_cards_in_hand`, `handle_play_input`, `remove_played_card_from_hand`, `move_card_to_battlefield`, `update_crowd_value`, `set_allowed_cards`, `show_allowed_cards`, `progress_turn_after_play` and `update_turn_icon_display`. `Step` returns `None` exactly when `Vec::remove` would panic.

The main results are in `Invariants`:

- `Consistent` holds after setup and is kept by every frame, for the model's system order with commands applied at once. It says:
  - every card sits in exactly one zone, with the components that zone implies;
  - every crowd is its battlefield's size;
  - every hand card is allowed, and un-greyed, exactly when its owner's crowd covers its cost. For a card drawn in the same frame this, and the human's cards being face up, hold only because the model applies commands at once and runs `set_allowed_cards` and `show_allowed_cards` after the draws (see "## Left out").
- A frame from a consistent world never panics, and each battlefield gains exactly its player's played cards.
- A card is played only if it was in its owner's hand at the start of the frame and affordable there. A card drawn this frame cannot be played.
- The reachable turn phases are `DrawCard`, `PlayCreature` and `SelectAttackers`.
- The first frame deals the opening hands and plays nothing.

## Model

| member | source | states |
|---|---|---|
| Decks.Replicate | src/combat/deck.rs:35-38 | appending the base set `n` times gives `n` times its length, with element `i` equal to base element `i mod |base|` |
| Decks.ReplicateCount | src/combat/deck.rs:35-38 | every card occurs `n` times as often in the result as in the base set |
| Decks.GlobalCards | src/combat/deck.rs:8-40 | the global deck has 20 cards alternating "Test Unit" and "Ghost", starting with "Test Unit" |
| Decks.GlobalCardsComposition | src/combat/deck.rs:9-39 | the base set is exactly "Test Unit" then "Ghost"; the deck holds ten of each and nothing else |
| Decks.CatalogueCosts | src/combat/deck.rs:9-32 | "Test Unit" costs crowd 0 to cast and "Ghost" costs 1; both have minimum crowd 0 |
| Cards.SpawnCard | src/combat/card.rs:77-103 | a spawned card carries the definition's cast, minimum, hp and power, is at full health, face down, unowned, and out of every hand with no marker |
| Cards.SlashLabel | src/combat/card.rs:222 | the "left/right" label parses back, at its first '/', into the two numbers it was built from |
| Cards.StatsLabel | src/combat/card.rs:212-229 | the stats label reads back as the card's power and current hp |
| Cards.CostsLabel | src/combat/card.rs:231-248 | the costs label reads back as the card's minimum and cast crowd |
| Decimal.ParseNatToString | src/combat/card.rs:222 | printing a number in decimal and reading it back gives the number |
| Cards.FrontVisibility | src/combat/card.rs:258-266 | the front is visible exactly when the card shows its front |
| Cards.BackVisibility | src/combat/card.rs:267-273 | the back is visible exactly when the card does not show its front |
| Cards.ExactlyOneSideVisible | src/combat/card.rs:250-276 | exactly one of the two sides is visible, and it is the front exactly when `ShowFront` is set |
| Cards.TintOf | src/combat/card.rs:278-303 | a card is painted grey exactly when it carries `CardGray`, and white otherwise |
| Frame.TintPainted | src/combat/card.rs:284-285 | in a tinted world a hand card is painted grey exactly when it may not be played, and white exactly when it may |
| Types.TruncateU8 | src/combat/battlefield.rs:100 | `as u8` keeps values below 256 and otherwise differs by a multiple of 256 |
| Seqs.RemoveAt | src/combat/hand.rs:205 | `Vec::remove` shifts the later elements down by one and removes exactly one occurrence of the element at that index |
| Seqs.IndexOf | src/combat/hand.rs:180 | `position` finds the first occurrence, or none exactly when the element is absent |
| Hand.SetupCardInHand | src/combat/hand.rs:82-93 | a card newly in a hand turns face up exactly when it belongs to the human; nothing else changes |
| Hand.Drawn | src/combat/hand.rs:76-77 | a drawn card is `InHand` and owned by the drawing player, and it is face up if it was or the drawer is the human; nothing else changes |
| Hand.DrawLoopMoves | src/combat/hand.rs:70-78 | drawing `n` moves the last `min(n, |deck|)` deck cards onto the end of the hand in pop order (last card first); the deck keeps the rest |
| Hand.DrawLoopTags | src/combat/hand.rs:70-78 | exactly the moved cards are tagged as drawn for the player; every other card entity is unchanged |
| Hand.ApplyDraw | src/combat/hand.rs:56-68 | an event whose player has no deck or no hand changes nothing; a draw only touches decks, hands and cards |
| Hand.DrawMovesMin | src/combat/hand.rs:70-78 | the hand grows and the deck shrinks by `min(amount, |deck|)`, so deck plus hand keeps its size |
| Hand.ApplyDrawBag | src/combat/hand.rs:70-78 | a draw neither creates nor loses a card: the multiset of zone entries is unchanged |
| Hand.ApplyDrawValid | src/combat/hand.rs:50-80 | one draw event keeps the zone invariant |
| Hand.DrawCardsValid | src/combat/hand.rs:50-80 | a whole batch of draw events keeps the zone invariant and the zone multiset |
| Hand.DrawCardsExtendHands | src/combat/hand.rs:74 | draws only append: every old hand is a prefix of the new one |
| Hand.DrawCardsOrigin | src/combat/hand.rs:50-80 | a card in a hand after the draws was either already there, unchanged, or was just drawn and is not `AllowedToPlay` |
| Hand.FocusFromSelects | src/combat/hand.rs:117-134 | the top-down pass focuses a card exactly when it is hovered, nothing hovered lies above it, and no card above took the focus |
| Hand.FocusHandSelects | src/combat/hand.rs:117-134 | in a duplicate-free hand a card is focused exactly when it is the top hovered card, so at most one card is focused |
| Hand.FocusHands | src/combat/hand.rs:96-147 | the focus pass changes only the `Focused` marker |
| Hand.FocusHandsSelect | src/combat/hand.rs:101-134 | with two disjoint duplicate-free hands, each hand's focused card is its own top hovered card |
| Hand.HandsSeparate | src/combat/hand.rs:101-134 | when every card sits in exactly one zone, neither hand holds a card twice and the two hands share no card, as the per-hand focus pass assumes |
| Hand.ShowAllowedCards | src/combat/hand.rs:149-160 | a card in a hand is grey exactly when it is not allowed; only the tint changes, and cards outside hands keep it |
| Hand.ReadyCards | src/combat/hand.rs:163 | the listed ids are exactly the cards that are both focused and allowed, in increasing order |
| Hand.ReadySingle | src/combat/hand.rs:169-171 | `get_single` succeeds with a card exactly when it is the only focused, allowed card |
| Hand.HandlePlayInput | src/combat/hand.rs:162-190 | without a click nothing is sent. An event names the human, the sole focused allowed card, and that card's first position in the human hand. On a click, a sole ready card in the human hand is always sent |
| Hand.Played | src/combat/hand.rs:206-208 | a played card loses `InHand`, `Focused` and `AllowedToPlay` and keeps everything else |
| Hand.RemovePlayedCard | src/combat/hand.rs:192-210 | a player with no hand is skipped. Otherwise that hand loses exactly the entry at the event's position with the rest kept in order; other hands are unchanged, and only the played card's markers change |
| Ai.FirstAllowed | src/combat/ai.rs:28-38 | the scan returns the lowest position at or after its start whose card is allowed, or none if there is none |
| Ai.DoVerySmartAiThing | src/combat/ai.rs:16-39 | the computer plays its leftmost allowed card, reporting its position; it plays nothing exactly when it has no hand or no allowed card |
| Battlefield.FirstMiss | src/combat/battlefield.rs:31-42 | the batch is processed up to the first event whose card or battlefield does not exist |
| Battlefield.Land | src/combat/battlefield.rs:35-44 | a completed event turns its card face up and pushes it onto its player's battlefield, changing nothing else |
| Battlefield.MoveCardsFields | src/combat/battlefield.rs:26-46 | each battlefield gains, in order, the cards its player played before the first event that ends the batch |
| Battlefield.MoveCardsReveals | src/combat/battlefield.rs:26-46 | exactly the cards the batch reaches are turned face up, including the card of an event whose battlefield is missing |
| Battlefield.BattlefieldsOnlyGrow | src/combat/battlefield.rs:44 | a battlefield only gains cards at its end: the old one is a prefix of the new |
| Battlefield.GrownByMove | src/combat/battlefield.rs:26-46 | after `move_card_to_battlefield`, `Changed<BattleField>` (line 93) reports a player's battlefield exactly when it exists and that player played a card before the batch ended |
| Battlefield.UpdateCrowdValue | src/combat/battlefield.rs:91-102 | a changed battlefield with a controller sets that crowd to its size truncated to `u8`; every other crowd is unchanged |
| Battlefield.UpdateCrowdRestores | src/combat/battlefield.rs:91-102 | after pushes, updating the grown battlefields makes every crowd equal its battlefield's size again |
| Transit.RemoveBag | src/combat/hand.rs:205 | removing a matching hand entry takes exactly that card out of the zones |
| Transit.RemoveAllInFlight | src/combat/hand.rs:192-210 | when each event matches its hand in turn, every removal is in bounds and the played cards are out of every zone and every hand |
| Transit.LandBag | src/combat/battlefield.rs:44 | pushing onto a battlefield adds exactly that card to the zones |
| Transit.LandAllValid | src/combat/battlefield.rs:26-46 | landing the cards in flight never ends the batch early and restores the zone invariant |
| Transit.PlaysValid | src/combat/hand.rs:192-210 | removal then landing keeps the zone invariant, and each battlefield gains exactly its player's played cards in order |
| Transit.TwoPlaysMatch | src/combat/hand.rs:197-209 | two plays by different players that both match the current hands can be removed one after the other |
| Turn.CreateTestCombat | src/combat/mod.rs:115-125 | both players get the global deck, the human keeps their health and the computer gets 20 |
| Turn.SpawnDeck | src/combat/mod.rs:127-156 | a deck spawns one card per definition, in order |
| Turn.SetupCombat | src/combat/mod.rs:158-199 | setup spawns the human's deck as ids `0..n` and the computer's as `n..n+m`, id `i` (and `n+j`) holding the spawned card of definition `i` (and `j`) in deck order; hands and battlefields are empty, crowds 0, the players' health kept, two opening draws of 7 pending, no play in flight, the turn icon at frame 0, the human to move, and `DrawCard` about to be entered |
| Turn.SetupCombatValid | src/combat/mod.rs:158-187 | the freshly set up combat satisfies the zone invariant |
| Turn.SetAllowedCards | src/combat/mod.rs:339-355 | a hand card whose owner has a controller is allowed exactly when its cast cost is at most that crowd; every other card is unchanged, and only `AllowedToPlay` changes |
| Turn.SetAllowedIdempotent | src/combat/mod.rs:339-355 | running `set_allowed_cards` twice is the same as once |
| Turn.SetAllowedMakesLegal | src/combat/mod.rs:339-355 | with every hand card tagged by owner and both controllers present, every hand card ends up allowed exactly when affordable |
| Turn.DoDrawCard | src/combat/mod.rs:369-379 | entering `DrawCard` sends one draw of one card for the player whose turn it is and asks for `PlayCreature` |
| Turn.ProgressTurnAfterPlay | src/combat/mod.rs:381-389 | if any play event is readable, the turn asks for `SelectAttackers`; readable events are consumed either way |
| Turn.DoEndOfTurn | src/combat/mod.rs:391-404 | entering `EndOfTurn` asks for `DrawCard` and hands the turn to the other player |
| Turn.EndOfTurnAlternates | src/combat/mod.rs:397-403 | two ends of turn give the turn back to the player who had it |
| Turn.TurnIconIndex | src/combat/mod.rs:406-419 | the icon frame is 0, 1, 2 or 3 for the four combat phases and is left unchanged in the other states |
| Turn.TurnIconsDistinct | src/combat/mod.rs:411-417 | the four combat phases show four different icon frames |
| Frame.IconShowsPhase | src/combat/mod.rs:406-419 | when a frame enters one of the four phases with an icon, the icon it shows tells that phase apart from the other three |
| Frame.EnterStates | src/combat/mod.rs:110-111 | pending states are applied, the active player first. Entering `DrawCard` queues one draw for the active player and asks for `PlayCreature`; entering `EndOfTurn` asks for `DrawCard` and the other player; nothing else changes. The computer plays only on entering `DrawCard` in its own turn, and then a card of its hand that is allowed |
| Frame.EntryPlay | src/combat/ai.rs:9-12 | the computer moves only on entering `DrawCard` while it is the active player; then it plays a matching allowed card whenever it has one |
| Frame.FramePlays | src/combat/hand.rs:162-190 | a frame has at most two plays, at most one per player; the computer's only on entering `DrawCard` in its own turn, the human's only on a click |
| Frame.Resolve | src/combat/battlefield.rs:12-24 | the systems acting on plays touch only cards, hands, battlefields and crowds; decks are unchanged |
| Frame.Conclude | src/combat/mod.rs:104-105 | in `PlayCreature` readable plays are consumed and progress the turn; in any other state the frame's plays stay readable. The icon updates only when the state changed |
| Frame.Step | src/combat/mod.rs:99-111 | a frame keeps health and the number of cards, consumes every draw event, and ends in the pending turn state and player |
| Invariants.DrawStage | src/combat/hand.rs:50-80 | the entry hooks and draws keep the invariant parts they touch, leave crowds and battlefields alone, and only append to hands |
| Invariants.AiPlayStillMatches | src/combat/hand.rs:74 | the computer's play, chosen before the draws, still names its card's position after them |
| Invariants.PlaysMatch | src/combat/hand.rs:197-209 | a frame's plays can be removed from the hands one after the other |
| Invariants.ResolveStage | src/combat/battlefield.rs:26-46 | removing and landing the plays, then re-deriving crowds and markers, gives a consistent world in which every battlefield gained exactly its player's plays |
| Invariants.StepConsistent | src/combat/mod.rs:99-111 | a frame from a consistent world never panics, ends consistent, and each battlefield gains exactly its player's played cards, in order |
| Invariants.StepCrowdGrows | src/combat/battlefield.rs:91-101 | after any frame from a consistent world a crowd is at least what it was, as long as its battlefield holds fewer than 256 cards, where the `u8` cast wraps |
| Invariants.AiPlayAffordable | src/combat/ai.rs:28-37 | the computer's card was in its hand when the frame began and its crowd covered the cast cost |
| Invariants.HumanPlayAffordable | src/combat/hand.rs:162-190 | the human's card was in their hand when the frame began and their crowd covered it; a card drawn this frame cannot be clicked into play |
| Invariants.PlaysAffordable | src/combat/mod.rs:339-355 | every card played in a frame was in its owner's hand at the frame's start, with the cast cost covered |
| Invariants.SetupReachable | src/combat/mod.rs:158-187 | a freshly set up combat is consistent and in a reachable phase |
| Invariants.StepReachable | src/combat/mod.rs:369-404 | a frame from a reachable world never panics, stays reachable, never changes the active player and never reaches `EndOfTurn` |
| Invariants.StepPhase | src/combat/mod.rs:110-111 | the turn phase after a frame is again one of the reachable ones and the active player is the same |
| Invariants.PlayCreatureProgress | src/combat/mod.rs:381-389 | in `PlayCreature`, the frame asks for `SelectAttackers` exactly when a play is readable (left over or new); otherwise nothing is pending; readable plays are consumed |
| Invariants.SelectAttackersFinal | src/combat/mod.rs:99-111 | once in `SelectAttackers`, no system leaves it |
| Invariants.AiIdleInHumanTurn | src/combat/ai.rs:9-12 | during the human's turn the computer plays nothing, so its battlefield and crowd stay as they are |
| Invariants.FirstFramePlays | src/combat/mod.rs:227-242 | nothing can be played in the first frame of a combat |
| Invariants.FrameFocusSelects | src/combat/hand.rs:117-134 | in every frame from a valid world, each hand's focused card is its own top hovered card, so a hand has at most one focused card |
| Invariants.StepPaints | src/combat/card.rs:284-285 | after any frame from a consistent world a hand card is painted grey exactly when its owner's crowd does not cover its cast cost |
| Invariants.TestCombatStart | src/combat/mod.rs:115-125 | the test combat, both players with the 20-card global list, is reachable, and its first frame deals the human 8 cards and the computer 7 and moves on to `PlayCreature` |
| Invariants.FirstFrame | src/combat/mod.rs:227-242 | the first frame deals `min(7, n)` cards plus one more (if any is left) to the human and `min(7, m)` to the computer, and moves on to `PlayCreature` |

## Left out

- Layout and rendering: positions, scales and z-order set by `position_cards_in_hand`, `position_cards_in_battle` and `spawn_deck`; the sprites, fonts and textures; the health bars; `update_crowd_text`. They are floating-point presentation and do not feed back into the rules. For the tint, only the colour choice is modelled.
- Hovering: the pointer hit-test in `hovering.rs` is not part of this model. The set of hovered cards is an input of each frame.
- Mouse input is the `clicked` flag of each frame's input.
- System order: Bevy leaves the `Update` systems unordered. The model fixes the order given above, entry hooks first, and applies commands at once instead of at the end of the schedule. That is the order in which the plugins list the systems, except for `show_allowed_cards`: the hand plugin lists it before `handle_play_input`, and the model runs it last, after `set_allowed_cards`.
- Frame.Consistent: four of its parts hold between frames only because of the model's order and its immediate commands. Under Bevy's unordered systems and deferred commands, each can lag one frame:
  - The `Tinted` part, a hand card being grey exactly when it is not allowed, needs `show_allowed_cards` to run after `set_allowed_cards`. Otherwise the tint lags one frame behind `AllowedToPlay`. For example, the human plays a Test Unit at crowd 0 and the crowd becomes 1. A Ghost in hand then becomes allowed but stays grey until the next frame.
  - The `HandsLegal` part, for a card drawn this frame, needs `InHand` to be present when `set_allowed_cards` runs. In Bevy, `draw_cards` adds it through a deferred command, and `set_allowed_cards` only queries cards `With<InHand>`. A freshly drawn Test Unit (cast 0) then sits in the hand without `AllowedToPlay` until a later frame.
  - The `HandCard` part of the zone invariant, a human hand card being face up, needs `setup_cards_in_hand` to act in the frame of the draw. In Bevy, `Added<InHand>` fires only once the deferred insert is applied, so the card can stay face down until the next frame.
  - The `CrowdsMatch` part needs `update_crowd_value` to run after `move_card_to_battlefield`. Otherwise a crowd reflects its battlefield's growth only in the next frame.
- Invariants.StepConsistent, Invariants.StepReachable and Invariants.StepPaints promise these parts only under the model's order and immediate commands, not for every schedule Bevy may choose.
- `Changed<BattleField>` is modelled as "the battlefield got longer during this frame", which is the only way the core mutates one.
- `Added<InHand>` is folded into the draw: `setup_cards_in_hand` acts on exactly the cards drawn in the same frame.
- Frame.EnterStates: a pending turn state runs its entry hooks even when it equals the current state. This is how the first `DrawCard` of a combat fires when the sub-state is created. The pending player is applied before the turn hooks read it.
- Frame.EntryPlay: the computer reads the hands and cards before the frame's draws. Entering a state does not change them, but a card drawn in the same frame is not yet in the computer's hand when it chooses.
- Event buffering: Bevy keeps an event readable for two frames. The model keeps only what `progress_turn_after_play` can still read, because it is the only reader that skips frames.
- Battlefield.MoveCardsToBattlefield: on a missing card or battlefield the system returns, and Bevy would leave the rest of the batch unread for the next frame; the model drops it. From a consistent world this never happens (Invariants.StepConsistent).
- Hand.ApplyDraw: tagging a drawn card that does not exist is skipped, where Bevy's `commands.entity` would panic. Every id in a deck exists in a consistent world.
- Frame.Step: the `Vec::remove` panic is the `None` result. The crate's other panics (missing resources, invalid entities) are not modelled.
- `SelectDefenders`, `ResolveCombat` and `Heal` have no system in the core, and nothing leaves `SelectAttackers` (Invariants.SelectAttackersFinal). So `EndOfTurn` and the computer's own turn are never reached from setup; the model still states and proves their hooks.
- `PlayerInfo` is built in `main.rs` without a deck, while `data.rs` declares one; the model follows `data.rs`. Health is a parameter.
- `create_global_cards` and the asset handles: a card definition is kept without its image.
