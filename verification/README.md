# Hanabi agent bookkeeping, modelled in Dafny

This project models the bookkeeping of a rule-based agent for the
cooperative card game Hanabi. The agent connects to a game server, watches
the other players' moves, and keeps a belief about its own hidden hand.

The deck has five colours (white, red, blue, yellow, green) and five values
(1 to 5), 50 cards in all. Each colour has three ones, two each of 2, 3 and 4,
and one five. The agent can see every hand but its own.

The agent keeps the following state:

- **Deck domain.** The enumerations, the colour-name parser and the
  multiplicity tables (`CardInfo`).
- **Card beliefs.** The prior and hinted distributions of a hidden card, and
  the cards seen in teammates' hands (`PlayerHand`). A uniform set-based
  belief about one own card (`MyCardBelief`).
- **Bounded count store.** Per-card counters for the discard pile and the
  players' cards, plus the firework stacks (`ObservableCardStore`).
- **Agent state and belief update.** Everything visible is counted: the
  teammates' hands, the firework stacks (a stack of height h shows the
  values 1..h) and the discard pile (`Belief`). Each unhinted own card then
  gets, per colour c, the probability
  `(copies of c − seen of c) / (50 − all seen)`, and the same per value.
- **Moves.** How hints, plays and discards are serialised for the server and
  read back from it (`Actions`).
- **Strategies.** The ordered rule lists the agent consults
  (`RuleManager`). The rules themselves are opaque tags.
- **Client.** The lifecycle NOT CONNECTED → CONNECTED → LOBBY → PLAYING ⇄
  GAME OVER. It includes the multi-game restart counter and the reading of
  other players' moves, with the card each one drew (`Client`).

Probabilities are exact `real`s. The source only asserts that each
recomputed distribution sums to 1 within 10⁻³. The model proves the sums are
exactly 1 for every valid card whenever the update succeeds
(`Belief.UpdateCurrentBeliefNormalises`). A card is valid when its
distributions range over all five colours and values and are one-hot once
hinted. Every hand the model builds is valid: fresh cards are
(`Belief.NewAgentState`), hints keep them so (`PlayerHand.SetHintColor`,
`PlayerHand.SetHintValue`), and so does the update
(`Belief.UpdateCurrentBeliefKeepsValid`).

Errors the source raises are `Err` results, or `None` where the source
returns `None`. Sockets are left out: what the server sends is a parameter
of each operation.

One file per source file: `card_info.dfy`, `player_hand.dfy`, `my_card.dfy`,
`observable_cards.dfy`, `agent_state.dfy`, `actions.dfy`, `rule_manager.dfy`,
`my_client.dfy`.

Two files have no counterpart in the source:

- `wrappers.dfy` holds `Option` and `Result`.
- `game_data.dfy` holds the server's records, which belong to the game
  server's code.

## Model

| member | source | states |
|---|---|---|
| CardInfo.AllValues | client_state/card_info.py:24-26 | `getValues` holds every value, and there are exactly five |
| CardInfo.AllColors | client_state/card_info.py:48-50 | `getColors` holds every colour, and there are exactly five |
| CardInfo.EnumerationPayloads | client_state/card_info.py:5-34 | the value payloads are exactly 1..5 and the colour payloads exactly 0..4 |
| CardInfo.ValueOf | client_state/card_info.py:5-10 | `Value(n)` is defined exactly for n in 1..5 and yields the value whose payload is n |
| CardInfo.ColorOf | client_state/card_info.py:29-34 | `Color(n)` is defined exactly for n in 0..4 and yields the colour whose payload is n |
| CardInfo.PayloadRoundTrip | client_state/card_info.py:5-34 | looking up a value's or colour's own payload gives it back |
| CardInfo.FromStringColor | client_state/card_info.py:52-65 | only the five lower-case names parse; any other string raises; the parsed colour's name is the input |
| CardInfo.FromStringColorInjective | client_state/card_info.py:52-65 | two accepted names that parse to the same colour are equal |
| CardInfo.FromStringColorOfName | client_state/card_info.py:52-65 | every colour's lower-case name parses back to that colour |
| CardInfo.ValueString | client_state/card_info.py:12-22 | `str(value)` is the single decimal digit equal to the payload |
| CardInfo.DeckStructure | client_state/card_info.py:68-71 | both multiplicity tables sum to the deck size 50; each value's count is five times its per-colour count; one colour holds 10 cards |
| PlayerHand.IsHintableIgnoresValueFlag | client_state/player_hand.py:33-34 | as written, `is_hintable` is the negation of the colour flag, and the value flag never changes it |
| PlayerHand.IsHintableDiscrepancy | client_state/player_hand.py:33-34 | a red one hinted by colour only is refused as written and accepted as intended |
| PlayerHand.IsHintableIntendedBothFlags | client_state/player_hand.py:33-34 | as intended, a card is not hintable iff both flags are set; with no colour hint both readings agree |
| PlayerHand.HandOf | client_state/player_hand.py:7-9 | `Hand(player)` keeps the name and the length, the cards in order, and sets no hint flags |
| PlayerHand.NewHiddenCard | client_state/player_hand.py:39-44 | a fresh hidden card has no hints, value priors equal to the multiplicity over 50, colour priors of 1/5, and both distributions sum to exactly 1 |
| PlayerHand.SetHintColor | client_state/player_hand.py:46-53 | records the hint and makes the colour distribution one-hot on it over the same keys; the value side is untouched; validity is preserved and the colours still sum to 1 |
| PlayerHand.SetHintValue | client_state/player_hand.py:55-62 | the symmetric statement for a value hint |
| PlayerHand.SetHintIdempotent | client_state/player_hand.py:46-62 | applying the same colour or value hint twice equals applying it once |
| PlayerHand.OneHotColorMass | client_state/player_hand.py:46-53 | a one-hot distribution over all five colours sums to 1 |
| MyCardBelief.NewMyCard | client_state/my_card.py:8-11 | a missing set defaults to every value, or every colour; a given set is kept |
| MyCardBelief.SingleChoiceProbability | client_state/my_card.py:13-32 | raises iff both arguments are missing; one argument gives its share of the possible set; both give the product of the two shares |
| MyCardBelief.SingleValueTerm | client_state/my_card.py:20-21 | the value probability is 0 outside the possible set and 1/\|possible\| inside it |
| MyCardBelief.SingleValueProbabilitiesSumToOne | client_state/my_card.py:20-30 | over the five values, the single-value probabilities sum to exactly 1 whenever the possible set is non-empty |
| MyCardBelief.SubsetProbability | client_state/my_card.py:38-43 | the accumulation loop computes \|S ∩ possible\| / \|possible\|, and never divides by an empty set |
| MyCardBelief.ColorsProbability | client_state/my_card.py:34-43 | raises iff the set is missing; otherwise the share of possible colours in the set, which lies in [0, 1] |
| MyCardBelief.ValuesProbability | client_state/my_card.py:45-54 | the same for values |
| MyCardBelief.ShareBounds | client_state/my_card.py:38-43 | every share lies in [0, 1] |
| MyCardBelief.ShareMonotone | client_state/my_card.py:38-43 | a larger set never has a smaller share |
| MyCardBelief.AllColorsCertain | client_state/my_card.py:34-43 | the full colour set has share 1 for a card with some colour possible |
| ObservableCardStore.Init | client_state/observable_cards.py:7-15 | all 25 discard counters and all 25 player-card counters are 0; no firework is set |
| ObservableCardStore.UpdateFirework | client_state/observable_cards.py:17-18 | only the given colour's firework changes; the counters are untouched |
| ObservableCardStore.AtCapAsWrittenIsCap | client_state/observable_cards.py:23-28 | the guard chain refuses exactly the counts at or above 1 for fives and 2 for every other value, ones included |
| ObservableCardStore.DiscardCard | client_state/observable_cards.py:20-30 | raises iff the card is at that cap; otherwise increments exactly that counter and changes nothing else, so discard counters stay within the cap |
| ObservableCardStore.AddPlayersCard | client_state/observable_cards.py:40-50 | the same cap and frame for the player-card counters |
| ObservableCardStore.RemovePlayersCard | client_state/observable_cards.py:32-38 | raises iff the counter is 0; otherwise decrements exactly that counter |
| ObservableCardStore.AddRemoveRoundTrip | client_state/observable_cards.py:32-50 | a successful add followed by a remove of the same card restores the store |
| ObservableCardStore.RemainingCard | client_state/observable_cards.py:52-78 | the count is discarded + held + 1 if the firework reaches the value; for fives 1 − count and for ones 3 − count, raising when negative; for 2..4 only a count of exactly 2 gives a result, 0 |
| ObservableCardStore.TwoRedOnesLeaveOne | client_state/observable_cards.py:81-86 | after two red ones are added to a fresh store, one red one remains |
| ObservableCardStore.ThirdOneDiscrepancy | client_state/observable_cards.py:23-48 | as written, a third red one can be neither discarded nor added; as intended, it can |
| ObservableCardStore.DiscardCardIntended | client_state/observable_cards.py:20-30 | discarding raises iff the counter has reached the card's copies per colour (3, 2 or 1); same frame as the source |
| ObservableCardStore.AddPlayersCardIntended | client_state/observable_cards.py:40-50 | the same with the copies-per-colour cap for player cards |
| ObservableCardStore.RemainingCardIntended | client_state/observable_cards.py:63-78 | a result exists iff the count does not exceed the copies per colour, and result plus count equals the copies |
| ObservableCardStore.RemainingCardAgrees | client_state/observable_cards.py:52-78 | wherever the source returns a number, it is the intended one |
| ObservableCardStore.RemainingCardDiscrepancy | client_state/observable_cards.py:71-76 | in a fresh store, asking for a red two fails as written; as intended, 2 remain |
| Belief.TurnOf | client_state/agent_state.py:24-28 | `my_turn` is the first index holding the agent's name, or −1 iff no player has it |
| Belief.StackHeight | client_state/agent_state.py:83 | an empty stack has height 0; a non-empty stack's height is the value of its last card, so never more than 5 |
| Belief.UpdateFireworks | client_state/agent_state.py:81-83 | fails iff some table name is not a colour; otherwise each named colour gets its stack height and the other colours keep theirs |
| Belief.AddDiscards | client_state/agent_state.py:88-91 | each card's count grows by its number of occurrences in the snapshot's pile |
| Belief.StoreHands | client_state/agent_state.py:93-95 | every other player's hand is stored under their turn index, and other entries are kept |
| Belief.UpdateState | client_state/agent_state.py:73-97 | copies both token counts and the current player; sets the listed fireworks and keeps the others; adds the snapshot's pile to the stored one; stores the other hands and keeps every other stored hand; sets the updated flag; changes nothing else (own hand, name, turn, players list, hand size); fails iff a table name is not a colour |
| Belief.UpdateStateDoubleCounts | client_state/agent_state.py:88-91 | as written, reading the same snapshot twice counts its discard pile twice |
| Belief.DiscardPileDiscrepancy | client_state/agent_state.py:88-91 | one discarded red one read twice counts 2 as written, and 1 when the pile is rebuilt |
| Belief.UpdateStateResync | client_state/agent_state.py:73-97 | the update with the discard pile rebuilt from the snapshot: it agrees with the source on every other field |
| Belief.UpdateFireworksIdempotent | client_state/agent_state.py:81-83 | setting the fireworks twice from the same table gives the fireworks set once |
| Belief.StoreHandsIdempotent | client_state/agent_state.py:93-95 | storing the same players' hands twice gives the hands stored once |
| Belief.UpdateStateResyncIdempotent | client_state/agent_state.py:73-97 | with the pile rebuilt, reading the same snapshot twice gives exactly the state read once, every field included |
| Belief.NewAgentState | client_state/agent_state.py:10-30 | fails iff a table name is not a colour; holds 5 fresh hidden cards with at most 3 players and 4 otherwise; `my_turn` is the agent's index; tokens and the current player are copied; each listed firework holds its stack's height and no other colour has one; every teammate's hand is stored under their turn index and nothing else is; the discard pile counts the snapshot's pile; the updated flag is cleared; the fresh hand is valid |
| Belief.FreshStateRefusesBelief | client_state/agent_state.py:29-30 | right after construction, the belief update raises |
| Belief.FireworkContribution | client_state/agent_state.py:40-44 | a stack of height h contributes one card of each value 1..h of its colour |
| Belief.Observe | client_state/agent_state.py:32-51 | each card's count is its copies in the stored hands, plus 1 if its stack covers it, plus its discards; only positive counts are keys |
| Belief.GetObservableCards | client_state/agent_state.py:32-51 | the same count for the agent's state |
| Belief.RowsEqualColumns | client_state/agent_state.py:53-71 | summing the grid by colours and summing it by values give the same total |
| Belief.GetCardsOfColor | client_state/agent_state.py:53-61 | each colour's count is the sum of its row of observed cards; only positive counts are keys |
| Belief.GetCardsOfValue | client_state/agent_state.py:63-71 | each value's count is the sum of its column of observed cards |
| Belief.MarginalKeys | client_state/agent_state.py:53-71 | a colour or value is a key iff some observed card has it |
| Belief.MarginalsAgree | client_state/agent_state.py:117-121 | both marginals sum to the total number of observed cards |
| Belief.MarginalSums | client_state/agent_state.py:53-71 | any two tables holding the row and column totals of a grid sum to the grid's total |
| Belief.RecomputeColors | client_state/agent_state.py:101-104 | fails on a missing count, on a zero remainder or when the 10⁻³ assertion fails; otherwise each colour gets (copies − seen) / remaining over the same keys |
| Belief.RecomputeValues | client_state/agent_state.py:106-109 | the same for values, with the value multiplicities |
| Belief.ColorFormulaSumsToOne | client_state/agent_state.py:101-104 | when the remainder is 50 minus the colour total, the recomputed colour distribution sums to exactly 1 |
| Belief.ValueFormulaSumsToOne | client_state/agent_state.py:106-109 | the same for values, using that the value multiplicities sum to 50 |
| Belief.NewColorsFacts | client_state/agent_state.py:101-104 | for a valid card, the colour side succeeds iff it is hinted or every key is counted and the remainder is non-zero; it then sums to 1, one-hot if hinted |
| Belief.NewValuesFacts | client_state/agent_state.py:106-109 | the same for the value side |
| Belief.UpdateCardBelief | client_state/agent_state.py:99-109 | keeps the hints and the key sets; leaves a hinted side unchanged; gives each key of an unhinted side (copies − seen) / remaining |
| Belief.UpdateCardBeliefSound | client_state/agent_state.py:99-109 | for a valid card and consistent counts, the update succeeds iff every unhinted side can be recomputed; the result is valid and sums to 1 on both sides |
| Belief.CardUpdateIdempotent | client_state/agent_state.py:99-109 | updating an updated card with the same counts changes nothing |
| Belief.UpdateHandSound | client_state/agent_state.py:123-124 | for a valid hand, the update succeeds iff every card can be recomputed; valid cards come out valid and normalised |
| Belief.UpdateCurrentBelief | client_state/agent_state.py:112-124 | raises unless the state was updated; changes only the hand, keeping each card's hints and keys and every hinted side |
| Belief.UpdateCurrentBeliefSucceeds | client_state/agent_state.py:112-124 | for a valid hand, the update succeeds iff the state was updated and every card can be recomputed from the marginals |
| Belief.UpdateCurrentBeliefNormalises | client_state/agent_state.py:101-109 | after a successful update, every valid card's colour and value distributions sum to exactly 1 |
| Belief.UpdateCurrentBeliefKeepsValid | client_state/agent_state.py:112-124 | a valid hand is still valid after a successful update |
| Belief.UpdateCurrentBeliefIntended | client_state/agent_state.py:112-124 | the update with absent counts read as 0: raises unless the state was updated, and changes only the hand |
| Belief.UpdateCurrentBeliefIntendedSucceeds | client_state/agent_state.py:112-124 | with absent counts read as 0, a valid hand is recomputed iff the state was updated and some card is still unseen (or every card is fully hinted); every card comes out valid and sums to 1 |
| Belief.MissingCountDiscrepancy | client_state/agent_state.py:103-108 | as written, an unhinted card whose colour (or value) has no visible copy makes the update fail; with counts read as 0 the same updated valid state succeeds |
| Belief.BeliefFormula | client_state/agent_state.py:99-124 | the remainder is 50 minus all cards seen; an unhinted card's probability of c is (10 − seen of colour c) / remainder, and of v is (copies of v − seen of value v) / remainder |
| Belief.UpdateCurrentBeliefIdempotent | client_state/agent_state.py:112-124 | a second belief update without a new snapshot changes nothing |
| Actions.Observed | actions/actions.py:88 | a card rebuilt from a server card carries the same colour and value and no hint flags |
| Actions.HintRequest | actions/actions.py:25-34 | a colour hint is sent as type "color" and a value hint as "value"; the payload looks up to the hinted colour or value |
| Actions.ParseHintResult | actions/actions.py:42-53 | accepts exactly a hint message whose type is "color" with payload 0..4 or "value" with payload 1..5; copies the source, destination, positions and next player |
| Actions.HintRoundTrip | actions/actions.py:25-53 | reading back the server's echo of a serialised hint gives the same hint, positions and next player |
| Actions.HintResultSerialises | actions/actions.py:25-53 | conversely, every accepted hint message is the echo of the request its parsed hint serialises to |
| Actions.ParsePlayCardResult | actions/actions.py:76-91 | accepts exactly a successful play (nice move) or a thunder strike (bad move); takes the player and position from the message |
| Actions.ParseDiscardCardResult | actions/actions.py:111-119 | accepts exactly a valid-action message whose action is "discard" |
| Actions.PlayRoundTrip | actions/actions.py:65-91 | a play request answered by either verdict is read back as the same player and position, nice iff successful |
| Actions.DiscardRoundTrip | actions/actions.py:103-119 | a confirmed discard request is read back as the same player and position |
| Actions.PlayRequest | actions/actions.py:65-66 | a play is sent as a play request |
| Actions.DiscardRequest | actions/actions.py:103-104 | a discard is sent as a discard request |
| RuleManager.TwoPlayerStrategy1 | actions/rule_manager.py:9-27 | 15 rules, opening with play-safe then discard-useless, ending with discard-random; no hint targets the next player |
| RuleManager.TwoPlayerStrategy2 | actions/rule_manager.py:29-47 | the same shape |
| RuleManager.TwoPlayerStrategiesDiffer | actions/rule_manager.py:9-47 | apart from thresholds, the two lists differ only by swapping positions 12 and 13; their thresholds are 0.7/0.5 against 0.8/0.4 |
| RuleManager.JustHintedStrategy | actions/rule_manager.py:49-67 | 15 rules with the common opening and a final discard-random |
| RuleManager.HintBlock | actions/rule_manager.py:82-100 | the six-rule block is all hints to the next player |
| RuleManager.MyIfStrategy | actions/rule_manager.py:69-152 | length 13 plus 6 below six blue tokens, plus 1 at exactly seven, plus 1 with no red token used; the common opening; ends with discard-oldest-unhinted |
| RuleManager.MyIfStrategyHintsNext | actions/rule_manager.py:69-152 | every hint rule in the list targets the next player |
| RuleManager.MyIfStrategyCritical | actions/rule_manager.py:102-107 | the critical-card hint is present iff exactly seven blue tokens are used |
| RuleManager.MyIfStrategyRisky | actions/rule_manager.py:121-127 | the 0.5 play-useful rule is present iff no red token is used |
| RuleManager.MyIfStrategyPlayableHints | actions/rule_manager.py:82-135 | the playable full-knowledge hint occurs twice below six blue tokens and once otherwise |
| RuleManager.MyIfStrategyBlueCases | actions/rule_manager.py:82-107 | eight or more blue tokens give the same list as six; below six the hint block follows the opening; at seven the critical hint does |
| RuleManager.MyIfStrategyRedCase | actions/rule_manager.py:121-127 | with no red token used, the list is the one for any other count with the 0.5 play-useful rule inserted before the closing seven rules |
| RuleManager.MostInfoStrategy | actions/rule_manager.py:154-170 | 11 rules with the common opening and a final discard-random |
| RuleManager.MostInfoStrategy2 | actions/rule_manager.py:172-194 | 13 rules above four blue tokens and 11 otherwise, with the common opening and a final discard-random |
| RuleManager.MostInfoStrategiesAgree | actions/rule_manager.py:154-194 | up to four blue tokens it is the first most-info list; above, the same list with the playable and useless full-knowledge hints inserted after the fifth rule |
| Client.NewClient | my_client.py:34-43 | before `__connect_to_server` runs, a new client is not connected, is at game 0, has no hand size or current player, and satisfies the lifecycle invariant |
| Client.StartReachesPlaying | my_client.py:44-108 | a new client that is acknowledged, accepted and told the game starts is playing game 0 with the hand size and current player of the first snapshot, and satisfies the lifecycle invariant |
| Client.Connect | my_client.py:68-71 | connects iff the server acknowledges the connection; keeps the lifecycle invariant (the game counter stays at 0 or below the number of games, and a playing client knows its hand size and the current player) |
| Client.SendStart | my_client.py:76-88 | succeeds iff the client is connected and the request is accepted; the client is then in the lobby; keeps the lifecycle invariant |
| Client.InitGameState | my_client.py:254-256 | the snapshot's current player and hand size are recorded; nothing else changes, so the client may then play and keep the lifecycle invariant |
| Client.FirstGameState | my_client.py:194-198 | finds the first snapshot among the messages, none iff there is none |
| Client.GetGameStatus | my_client.py:186-198 | raises unless playing; otherwise answers the first snapshot sent |
| Client.WaitStart | my_client.py:93-108 | raises unless in the lobby; with no start message it stays in the lobby unchanged; after the start message it raises iff no snapshot follows, and otherwise plays from the first snapshot; keeps the lifecycle invariant |
| Client.Restart | my_client.py:110-121 | raises unless the game is over and a snapshot follows; then plays again from the first snapshot; keeps the lifecycle invariant |
| Client.Run | my_client.py:123-148 | does nothing unless playing; never lowers the game counter and raises it at most once per ended game; a client counting from below the number of games stays below it; a run that stops at a game over has played its last game; keeps the lifecycle invariant |
| Client.MinHandSize | my_client.py:233 | the effective hand size is at most the reported size and every other player's hand length, and equals one of them |
| Client.FindPlayer | my_client.py:243-251 | the first index holding the name, none iff no player has it (the agent's turn lookup, read as an option) |
| Client.DrawCard | my_client.py:229-251 | writes the effective hand size into the snapshot; a teammate's draw is their last card iff the size is back at the starting size; raises for an unknown sender; the agent's own draw at the starting size raises |
| Client.DrawCardIntended | my_client.py:237-239 | the agent's own draw is a fresh hidden card iff the size is back at the starting size, and never raises |
| Client.DrawCardDiscrepancy | my_client.py:237-239 | where the source succeeds the two agree; the agent's own draw at a starting size of 5 fails as written |
| Client.BuildAction | my_client.py:200-227 | a hint is read as a hint; a discard or a play also reads the card its player drew; any other message raises |
| Client.FetchActionResult | my_client.py:157-184 | an invalid action or invalid data raises; a game over moves to GAME OVER with no move; otherwise the move is rebuilt from the next snapshot; keeps the lifecycle invariant |
| Client.UpdateStateWithAction | my_client.py:259-266 | only the current player changes, to the snapshot's; keeps the lifecycle invariant |

## Left out

- Sockets, request serialisation, logging and output flushing. Each server
  answer is a parameter of the operation that reads it.
- Client.GetGameStatus: the source keeps reading until a snapshot arrives.
  Here a finite list of messages without one is an error.
- Client.WaitStart: the source keeps reading while in the lobby. Here the
  lobby messages are a finite list, and the client stays in the lobby when
  none of them starts the game. The snapshot read after the start comes
  from a second list, as in Client.GetGameStatus.
- Client.Run: the moves the agent plays and reads are abstracted into a
  finite list of turns. Choosing the agent's own action is not part of this
  model, because it belongs to the rule classes.
- The rule classes (`PlaySafeCard`, `HintFullKnowledge`, …) are not part of
  this model. They are not defined in the modelled code, so each strategy
  is a list of opaque tags with their parameters.
- actions/rules.py and rule_based_agent.py are not part of this model. The
  first is unfinished. The second only starts threads and always plays
  position 0.
- client_state/agent.py is a stub class whose constructor only stores the
  agent's name; it is not part of this model. clients/my_client.py is an
  older copy of the client and is not part of this model.
- The game server's message records and their wire format are not part of
  this model. The client reads only the fields that game_data.dfy keeps.
- Server cards carry an already parsed colour and value. In the source, a
  server card's colour is a lower-case name (client_state/player_hand.py:66-69).
  `ObservableCard` passes that name to `Color(...)`, which accepts only the
  numbers 0..4. The model does not reproduce that failure.
- Hint requests with a payload that is neither a colour nor a value cannot
  be represented. A hint here is one of the two, so the "Unknown hint type"
  error of actions/actions.py:30-31 cannot arise.
- `__str__` formatting, except `Value.__str__`.
- Floating-point arithmetic is replaced by exact rationals.
  Belief.RecomputeColors keeps the source's 10⁻³ assertion as a failure
  condition, and the model proves it never fires for a valid card, which
  every card the model builds is.
- Belief.NewAgentState models the evident intent, not the source. The
  source sets the fireworks, discard pile and hand table to `None`
  (client_state/agent_state.py:18-23). `update_state` then writes into the
  `None` fireworks (client_state/agent_state.py:83). So `AgentState(...)`
  raises `TypeError` on every call. The model starts the three tables as
  empty maps.
- Belief.GetObservableCards models the evident intent, not the source. The
  source stores an empty stack as the integer 0 and then reads `.value` of
  it (client_state/agent_state.py:41). So `get_observable_cards` raises
  `AttributeError` while any stack is empty. The model reads an empty stack
  as height 0.
- `ObservableCard` defines `__hash__` without `__eq__`, so distinct but
  equal cards would be separate dictionary keys. The model counts by
  (colour, value), which is what the marginals re-aggregate anyway.
- Belief.GetObservableCards, likewise: `update_state` keys the discard
  pile by `ObservableCard`, and `get_observable_cards` unpacks each key as
  a pair (client_state/agent_state.py:46). So it raises `TypeError` as soon
  as the discard pile is non-empty. The model keys the pile by
  (colour, value) and counts it.
- Belief.UpdateHand: its failure carries one generic message, not the
  per-card `KeyError` or `ZeroDivisionError`.
- Belief.UpdateState: the update is all or nothing. The source writes the
  tokens and the current player first (client_state/agent_state.py:74-76),
  then the fireworks one colour at a time (client_state/agent_state.py:81-83).
  An unknown colour name raises after those writes, leaving the state
  partly updated. The model returns an error and no partial state.
- Belief.UpdateCurrentBelief: the update is all or nothing. The source
  updates each card in place (client_state/agent_state.py:101-109,
  123-124). An error on card i leaves the earlier cards already
  recomputed, and also card i's colour side when the error is on its value
  side. The model returns an error and no partial state.
- ObservableCardStore models its module as if its import succeeded. The
  source's first line imports `DECK_STRUCTURE`, which card_info.py does not
  define (client_state/observable_cards.py:1). So importing the module
  raises `ImportError`, and as written no `ObservableCards` method can ever
  run. The model does not depend on `DECK_STRUCTURE`.
- Actions.PlayRequest: its own contract names only the request kind. That
  the player and position travel unchanged is stated by
  Actions.PlayRoundTrip.
- Actions.DiscardRequest: likewise, with Actions.DiscardRoundTrip.

## Findings

| source | as written | input that shows it | evidently intended | confidence | as-written member | corrected member |
|---|---|---|---|---|---|---|
| client_state/player_hand.py:33-34 | `is_hintable` tests the colour flag twice, so the value flag has no effect | a red one hinted by colour only is not hintable | a card stops being hintable only when both colour and value are known | not executed | PlayerHand.IsHintableDiscrepancy | PlayerHand.IsHintableIntendedBothFlags |
| client_state/observable_cards.py:23-28 | the last guard `count >= 2` also catches ones, so a third copy of a one cannot be discarded | discard a red one three times in a fresh store | ones are capped at 3, as the middle guard says | not executed | ObservableCardStore.ThirdOneDiscrepancy | ObservableCardStore.DiscardCardIntended |
| client_state/observable_cards.py:43-48 | the same guard order caps player-held ones at 2 | add a red one three times in a fresh store | ones are capped at 3 | not executed | ObservableCardStore.ThirdOneDiscrepancy | ObservableCardStore.AddPlayersCardIntended |
| client_state/observable_cards.py:71-76 | for values 2..4 with fewer than 2 copies accounted for, the result stays `None` and comparing it with 0 fails | `remainingCard(RED, TWO)` on a fresh store | 2 minus the copies accounted for | not executed | ObservableCardStore.RemainingCardDiscrepancy | ObservableCardStore.RemainingCardIntended |
| client_state/agent_state.py:88-91 | the discard pile is never cleared, so every snapshot adds its whole pile again | one red one in the pile, snapshot read twice | the pile counted once, as in the latest snapshot | not executed | Belief.DiscardPileDiscrepancy | Belief.UpdateStateResync |
| client_state/agent_state.py:103-108 | `played_color_cards[color]` and `played_value_cards[value]` index marginals that only hold colours and values with a visible copy, so they raise `KeyError` | an updated state in which no red card is visible, with an own card not hinted by colour | a colour or value with no visible copy counts as 0 seen (`.get(color, 0)`) | not executed | Belief.MissingCountDiscrepancy | Belief.UpdateCurrentBeliefIntended |
| my_client.py:237-239 | `HiddenCard(is_new=True)` passes an argument the constructor does not take | the agent's own play or discard when the hand is back at its starting size | a fresh hidden card for the new draw | not executed | Client.DrawCardDiscrepancy | Client.DrawCardIntended |
