/** The belief-state engine (client_state/agent_state.py): it aggregates
    what the agent can see (teammates' hands, fireworks, discard pile) and
    recomputes the colour and value distribution of each of its own cards
    that has not been confirmed by a hint. */
module Belief {
  import opened Wrappers
  import opened CardInfo
  import opened GameData
  import opened PlayerHand

  /** `AgentState`. Fireworks map a colour to its stack height (0 for an
      empty stack); teammates' hands are kept under their turn index. */
  datatype AgentState = AgentState(
    agentName: string,
    handCardNumber: nat,
    hand: seq<HiddenCard>,
    playersList: seq<Player>,
    fireworks: map<Color, nat>,
    usedBlueToken: int,
    usedRedToken: int,
    currentPlayer: string,
    discardPile: map<Key, nat>,
    playerHands: map<nat, Hand>,
    myTurn: int,
    isStateUpdated: bool)

  // ---------------------------------------------------------------------
  // Construction and re-synchronisation from a snapshot

  /** The turn index of the first player called `name`, or -1. */
  function TurnOf(players: seq<Player>, name: string): (t: int)
    ensures -1 <= t < |players|
    ensures t == -1 <==> forall i | 0 <= i < |players| :: players[i].name != name
    ensures t >= 0 ==> players[t].name == name && forall i | 0 <= i < t :: players[i].name != name
    decreases |players|
  {
    if |players| == 0 then -1
    else if players[0].name == name then 0
    else
      var t := TurnOf(players[1..], name);
      if t == -1 then -1 else t + 1
  }

  /** The height of a firework stack: the value of its last card, 0 when empty. */
  function StackHeight(cards: seq<Card>): (h: nat)
    ensures h <= 5
    ensures |cards| == 0 ==> h == 0
    ensures |cards| > 0 ==> h == cards[|cards| - 1].value.Num()
  {
    if |cards| == 0 then 0 else cards[|cards| - 1].value.Num()
  }

  /** The stacks of a snapshot come from a dictionary: no name twice. */
  predicate DistinctNames(table: seq<(string, seq<Card>)>)
  {
    forall i, j | 0 <= i < j < |table| :: table[i].0 != table[j].0
  }

  /** The firework part of `update_state`: each stack's colour name is
      parsed (an unknown name raises) and its height stored; colours the
      snapshot does not list keep their entry. */
  function UpdateFireworks(fireworks: map<Color, nat>, table: seq<(string, seq<Card>)>): (r: Result<map<Color, nat>>)
    requires DistinctNames(table)
    ensures r.Ok? <==> forall i | 0 <= i < |table| :: FromStringColor(table[i].0).Ok?
    ensures r.Ok? ==> forall i | 0 <= i < |table| ::
              FromStringColor(table[i].0).value in r.value
              && r.value[FromStringColor(table[i].0).value] == StackHeight(table[i].1)
    ensures r.Ok? ==> forall c | c in fireworks && (forall i | 0 <= i < |table| :: table[i].0 != LowerName(c)) ::
              c in r.value && r.value[c] == fireworks[c]
    ensures r.Ok? ==> forall c | c in r.value :: c in fireworks || exists i | 0 <= i < |table| :: table[i].0 == LowerName(c)
    decreases |table|
  {
    if |table| == 0 then
      Ok(fireworks)
    else
      var c :- FromStringColor(table[0].0);
      var rest := table[1..];
      assert forall i | 0 <= i < |rest| :: rest[i] == table[i + 1];
      assert forall i | 0 <= i < |rest| :: FromStringColor(rest[i].0).Ok? ==> FromStringColor(rest[i].0).value != c;
      UpdateFireworks(fireworks[c := StackHeight(table[0].1)], rest)
  }

  /** The card identities of a list of cards, in order. */
  function KeysOfCards(cards: seq<Card>): (keys: seq<Key>)
    ensures |keys| == |cards|
    ensures forall i | 0 <= i < |cards| :: keys[i] == (cards[i].color, cards[i].value)
  {
    seq(|cards|, i requires 0 <= i < |cards| => (cards[i].color, cards[i].value))
  }

  /** The discard part of `update_state`: every discarded card of the
      snapshot adds one to its identity's count in `pile`. */
  function AddDiscards(pile: map<Key, nat>, cards: seq<Card>): (r: map<Key, nat>)
    ensures forall k :: CountAt(r, k) == CountAt(pile, k) + multiset(KeysOfCards(cards))[k]
    ensures forall k | k in r :: k in pile || k in multiset(KeysOfCards(cards))
    decreases |cards|
  {
    if |cards| == 0 then
      pile
    else
      var k := (cards[0].color, cards[0].value);
      assert KeysOfCards(cards) == [k] + KeysOfCards(cards[1..]);
      AddDiscards(pile[k := CountAt(pile, k) + 1], cards[1..])
  }

  /** The hand part of `update_state`: every player from turn `from` on who
      is not the agent gets their `Hand` stored under their turn index;
      other entries are kept. */
  function StoreHands(hands: map<nat, Hand>, players: seq<Player>, me: string, from: nat): (r: map<nat, Hand>)
    requires from <= |players|
    ensures forall j | from <= j < |players| && players[j].name != me :: j in r && r[j] == HandOf(players[j])
    ensures forall k | k in hands && !(from <= k < |players| && players[k].name != me) :: k in r && r[k] == hands[k]
    ensures forall k | k in r :: k in hands || (from <= k < |players| && players[k].name != me)
    decreases |players| - from
  {
    if from == |players| then
      hands
    else
      var next := if players[from].name != me then hands[from := HandOf(players[from])] else hands;
      StoreHands(next, players, me, from + 1)
  }

  /** `update_state` with the discard pile rebuilt from `pile` plus the
      snapshot's discards; shared by the written and the corrected update. */
  function Resync(st: AgentState, gs: GameState, pile: map<Key, nat>): (r: Result<AgentState>)
    requires DistinctNames(gs.tableCards)
  {
    var fireworks :- UpdateFireworks(st.fireworks, gs.tableCards);
    Ok(st.(usedBlueToken := gs.usedNoteTokens,
           usedRedToken := gs.usedStormTokens,
           currentPlayer := gs.currentPlayer,
           fireworks := fireworks,
           discardPile := AddDiscards(pile, gs.discardPile),
           playerHands := StoreHands(st.playerHands, gs.players, st.agentName, 0),
           isStateUpdated := true))
  }

  /** `update_state` as written: tokens and current player are copied, each
      listed firework gets the height of its stack, every other player's
      hand is stored under their turn index, and the state is marked as
      updated. The discard pile is never cleared, so the snapshot's
      discards are added on top of those already counted. */
  function UpdateState(st: AgentState, gs: GameState): (r: Result<AgentState>)
    requires DistinctNames(gs.tableCards)
    ensures r.Ok? <==> forall i | 0 <= i < |gs.tableCards| :: FromStringColor(gs.tableCards[i].0).Ok?
    ensures r.Ok? ==> r.value.usedBlueToken == gs.usedNoteTokens && r.value.usedRedToken == gs.usedStormTokens
    ensures r.Ok? ==> r.value.currentPlayer == gs.currentPlayer && r.value.isStateUpdated
    ensures r.Ok? ==> forall i | 0 <= i < |gs.tableCards| ::
              && FromStringColor(gs.tableCards[i].0).value in r.value.fireworks
              && r.value.fireworks[FromStringColor(gs.tableCards[i].0).value] == StackHeight(gs.tableCards[i].1)
    ensures r.Ok? ==> forall k :: CountAt(r.value.discardPile, k)
                                 == CountAt(st.discardPile, k) + multiset(KeysOfCards(gs.discardPile))[k]
    ensures r.Ok? ==> forall j | 0 <= j < |gs.players| && gs.players[j].name != st.agentName ::
              j in r.value.playerHands && r.value.playerHands[j] == HandOf(gs.players[j])
    ensures r.Ok? ==> r.value == st.(usedBlueToken := gs.usedNoteTokens,
                                     usedRedToken := gs.usedStormTokens,
                                     currentPlayer := gs.currentPlayer,
                                     fireworks := r.value.fireworks,
                                     discardPile := r.value.discardPile,
                                     playerHands := r.value.playerHands,
                                     isStateUpdated := true)
    ensures r.Ok? ==> forall c | c in st.fireworks && (forall i | 0 <= i < |gs.tableCards| :: gs.tableCards[i].0 != LowerName(c)) ::
              c in r.value.fireworks && r.value.fireworks[c] == st.fireworks[c]
    ensures r.Ok? ==> forall k | k in st.playerHands && !(k < |gs.players| && gs.players[k].name != st.agentName) ::
              k in r.value.playerHands && r.value.playerHands[k] == st.playerHands[k]
  {
    Resync(st, gs, st.discardPile)
  }

  /** `update_state` as evidently meant: the discard pile is the snapshot's. */
  function UpdateStateResync(st: AgentState, gs: GameState): (r: Result<AgentState>)
    requires DistinctNames(gs.tableCards)
    ensures r.Ok? <==> UpdateState(st, gs).Ok?
    ensures r.Ok? ==> r.value == UpdateState(st, gs).value.(discardPile := r.value.discardPile)
    ensures r.Ok? ==> forall k :: CountAt(r.value.discardPile, k) == multiset(KeysOfCards(gs.discardPile))[k]
  {
    Resync(st, gs, map[])
  }

  /** Re-synchronising twice from the same snapshot counts every discard
      twice as written. */
  lemma UpdateStateDoubleCounts(st: AgentState, gs: GameState, k: Key)
    requires DistinctNames(gs.tableCards) && UpdateState(st, gs).Ok?
    ensures UpdateState(UpdateState(st, gs).value, gs).Ok?
    ensures CountAt(UpdateState(UpdateState(st, gs).value, gs).value.discardPile, k)
            == CountAt(st.discardPile, k) + 2 * multiset(KeysOfCards(gs.discardPile))[k]
  {
  }

  /** Setting the fireworks twice from the same table sets them once. */
  lemma UpdateFireworksIdempotent(fireworks: map<Color, nat>, table: seq<(string, seq<Card>)>)
    requires DistinctNames(table) && UpdateFireworks(fireworks, table).Ok?
    ensures UpdateFireworks(UpdateFireworks(fireworks, table).value, table) == UpdateFireworks(fireworks, table)
  {
    var once := UpdateFireworks(fireworks, table).value;
    var twice := UpdateFireworks(once, table).value;
    forall c | c in twice || c in once
      ensures c in twice && c in once && twice[c] == once[c]
    {
      if i :| 0 <= i < |table| && table[i].0 == LowerName(c) {
        FromStringColorOfName(c);
        assert FromStringColor(table[i].0).value == c;
      }
    }
    assert twice == once;
  }

  /** Storing the same players' hands twice stores them once. */
  lemma StoreHandsIdempotent(hands: map<nat, Hand>, players: seq<Player>, me: string)
    ensures StoreHands(StoreHands(hands, players, me, 0), players, me, 0) == StoreHands(hands, players, me, 0)
  {
  }

  /** With the pile rebuilt, re-synchronising from the same snapshot is
      idempotent: reading it twice gives the state read once. */
  lemma UpdateStateResyncIdempotent(st: AgentState, gs: GameState)
    requires DistinctNames(gs.tableCards) && UpdateStateResync(st, gs).Ok?
    ensures UpdateStateResync(UpdateStateResync(st, gs).value, gs).Ok?
    ensures UpdateStateResync(UpdateStateResync(st, gs).value, gs).value == UpdateStateResync(st, gs).value
  {
    var once := UpdateStateResync(st, gs).value;
    assert once.fireworks == UpdateFireworks(st.fireworks, gs.tableCards).value;
    assert once.playerHands == StoreHands(st.playerHands, gs.players, st.agentName, 0);
    UpdateFireworksIdempotent(st.fireworks, gs.tableCards);
    StoreHandsIdempotent(st.playerHands, gs.players, st.agentName);
  }

  /** One discarded red one, synchronised twice from the same snapshot, is
      counted twice as written and once when the pile is rebuilt. */
  lemma DiscardPileDiscrepancy(st: AgentState)
    requires st.discardPile == map[]
    ensures var gs := GameState([], "", 0, 0, [], [Card(One, Red)], 5);
            UpdateState(st, gs).Ok? && UpdateState(UpdateState(st, gs).value, gs).Ok?
            && CountAt(UpdateState(UpdateState(st, gs).value, gs).value.discardPile, (Red, One)) == 2
            && UpdateStateResync(UpdateStateResync(st, gs).value, gs).Ok?
            && CountAt(UpdateStateResync(UpdateStateResync(st, gs).value, gs).value.discardPile, (Red, One)) == 1
  {
    var gs := GameState([], "", 0, 0, [], [Card(One, Red)], 5);
    assert KeysOfCards(gs.discardPile) == [(Red, One)];
    UpdateStateDoubleCounts(st, gs, (Red, One));
  }

  /** `AgentState(game_state, agent_name)`: five fresh hidden cards with at
      most three players, else four; the agent's turn index (or -1); the
      snapshot applied once, after which the state is marked as not
      updated, so beliefs cannot be recomputed before the next update. */
  function NewAgentState(gs: GameState, agentName: string): (r: Result<AgentState>)
    requires DistinctNames(gs.tableCards)
    ensures r.Ok? <==> forall i | 0 <= i < |gs.tableCards| :: FromStringColor(gs.tableCards[i].0).Ok?
    ensures r.Ok? ==> r.value.handCardNumber == (if |gs.players| <= 3 then 5 else 4)
    ensures r.Ok? ==> |r.value.hand| == r.value.handCardNumber
    ensures r.Ok? ==> forall i | 0 <= i < |r.value.hand| :: r.value.hand[i] == NewHiddenCard()
    ensures r.Ok? ==> HandValid(r.value.hand)
    ensures r.Ok? ==> r.value.myTurn == TurnOf(gs.players, agentName)
    ensures r.Ok? ==> r.value.agentName == agentName && r.value.playersList == gs.players
    ensures r.Ok? ==> r.value.usedBlueToken == gs.usedNoteTokens && r.value.usedRedToken == gs.usedStormTokens
    ensures r.Ok? ==> r.value.currentPlayer == gs.currentPlayer
    ensures r.Ok? ==> forall i | 0 <= i < |gs.tableCards| ::
              && FromStringColor(gs.tableCards[i].0).value in r.value.fireworks
              && r.value.fireworks[FromStringColor(gs.tableCards[i].0).value] == StackHeight(gs.tableCards[i].1)
    ensures r.Ok? ==> forall c | c in r.value.fireworks :: exists i | 0 <= i < |gs.tableCards| :: gs.tableCards[i].0 == LowerName(c)
    ensures r.Ok? ==> forall j | 0 <= j < |gs.players| && gs.players[j].name != agentName ::
              j in r.value.playerHands && r.value.playerHands[j] == HandOf(gs.players[j])
    ensures r.Ok? ==> forall j | j in r.value.playerHands :: j < |gs.players| && gs.players[j].name != agentName
    ensures r.Ok? ==> forall k :: CountAt(r.value.discardPile, k) == multiset(KeysOfCards(gs.discardPile))[k]
    ensures r.Ok? ==> !r.value.isStateUpdated
  {
    var n := if |gs.players| <= 3 then 5 else 4;
    var initial := AgentState(agentName, n, seq(n, _ => NewHiddenCard()), gs.players, map[],
                              gs.usedNoteTokens, gs.usedStormTokens, gs.currentPlayer, map[], map[],
                              TurnOf(gs.players, agentName), false);
    var updated :- UpdateState(initial, gs);
    Ok(updated.(isStateUpdated := false))
  }

  // ---------------------------------------------------------------------
  // Observable cards and marginals

  /** Copies of `k` across every stored teammate hand: the (turn, position)
      pairs holding such a card. */
  function HandsCount(hands: map<nat, Hand>, k: Key): nat
  {
    |set t, j | t in hands && 0 <= j < |hands[t].cards| && hands[t].cards[j].Key() == k :: (t, j)|
  }

  /** A firework of height h shows one copy of each value 1..h. */
  function FireworkCount(fireworks: map<Color, nat>, k: Key): nat
  {
    if k.0 in fireworks && k.1.Num() <= fireworks[k.0] then 1 else 0
  }

  /** Copies of `k` the agent can see: in teammates' hands, on the
      firework of its colour, and in the discard pile. */
  function VisibleCount(hands: map<nat, Hand>, fireworks: map<Color, nat>, pile: map<Key, nat>, k: Key): nat
  {
    HandsCount(hands, k) + FireworkCount(fireworks, k) + CountAt(pile, k)
  }

  /** A firework contributes as many cards as its height, at most five. */
  lemma FireworkContribution(fireworks: map<Color, nat>, c: Color)
    requires c in fireworks
    ensures FireworkCount(fireworks, (c, One)) + FireworkCount(fireworks, (c, Two))
            + FireworkCount(fireworks, (c, Three)) + FireworkCount(fireworks, (c, Four))
            + FireworkCount(fireworks, (c, Five)) == (if fireworks[c] <= 5 then fireworks[c] else 5)
  {
  }

  /** The table of visible counts, holding only identities that are visible. */
  function Observe(hands: map<nat, Hand>, fireworks: map<Color, nat>, pile: map<Key, nat>): (r: map<Key, nat>)
    ensures forall k | k in r :: r[k] > 0
    ensures forall k :: CountAt(r, k) == VisibleCount(hands, fireworks, pile, k)
  {
    var r := map k | k in AllKeys() && VisibleCount(hands, fireworks, pile, k) > 0
                   :: VisibleCount(hands, fireworks, pile, k);
    assert forall k :: CountAt(r, k) == VisibleCount(hands, fireworks, pile, k) by {
      forall k ensures CountAt(r, k) == VisibleCount(hands, fireworks, pile, k) {
        assert k in AllKeys();
      }
    }
    r
  }

  /** `get_observable_cards`: the visible count of every card identity that
      is visible at all. */
  function GetObservableCards(st: AgentState): (r: map<Key, nat>)
    ensures forall k | k in r :: r[k] > 0
    ensures forall k :: CountAt(r, k) == HandsCount(st.playerHands, k) + FireworkCount(st.fireworks, k)
                                         + CountAt(st.discardPile, k)
  {
    Observe(st.playerHands, st.fireworks, st.discardPile)
  }

  /** The cards of one colour in a table of counts, over all values. */
  function RowTotal(counts: map<Key, nat>, c: Color): nat
  {
    CountAt(counts, (c, One)) + CountAt(counts, (c, Two)) + CountAt(counts, (c, Three))
    + CountAt(counts, (c, Four)) + CountAt(counts, (c, Five))
  }

  /** The cards of one value in a table of counts, over all colours. */
  function ColumnTotal(counts: map<Key, nat>, v: Value): nat
  {
    CountAt(counts, (White, v)) + CountAt(counts, (Red, v)) + CountAt(counts, (Blue, v))
    + CountAt(counts, (Yellow, v)) + CountAt(counts, (Green, v))
  }

  /** Every card of a table of counts, summed colour by colour. */
  function GridTotal(counts: map<Key, nat>): nat
  {
    RowTotal(counts, White) + RowTotal(counts, Red) + RowTotal(counts, Blue) + RowTotal(counts, Yellow)
    + RowTotal(counts, Green)
  }

  /** Every visible card, counted once. */
  function TotalObserved(st: AgentState): nat
  {
    GridTotal(GetObservableCards(st))
  }

  /** Summing a grid by rows or by columns gives the same total. */
  lemma RowsEqualColumns(grid: map<Key, nat>)
    ensures GridTotal(grid)
            == ColumnTotal(grid, One) + ColumnTotal(grid, Two) + ColumnTotal(grid, Three)
               + ColumnTotal(grid, Four) + ColumnTotal(grid, Five)
  {
  }

  /** A table of counts summed per colour, keeping positive totals only. */
  function ColorMarginal(grid: map<Key, nat>): (r: map<Color, nat>)
    ensures forall c | c in r :: r[c] > 0
    ensures forall c :: CountAt(r, c) == RowTotal(grid, c)
  {
    var r := map c | c in AllColors() && RowTotal(grid, c) > 0 :: RowTotal(grid, c);
    assert forall c :: CountAt(r, c) == RowTotal(grid, c) by {
      forall c ensures CountAt(r, c) == RowTotal(grid, c) {
        assert c in AllColors();
      }
    }
    r
  }

  /** A table of counts summed per value, keeping positive totals only. */
  function ValueMarginal(grid: map<Key, nat>): (r: map<Value, nat>)
    ensures forall v | v in r :: r[v] > 0
    ensures forall v :: CountAt(r, v) == ColumnTotal(grid, v)
  {
    var r := map v | v in AllValues() && ColumnTotal(grid, v) > 0 :: ColumnTotal(grid, v);
    assert forall v :: CountAt(r, v) == ColumnTotal(grid, v) by {
      forall v ensures CountAt(r, v) == ColumnTotal(grid, v) {
        assert v in AllValues();
      }
    }
    r
  }

  /** `get_cards_of_color`: the observable counts summed per colour; a
      colour with nothing visible has no entry. */
  function GetCardsOfColor(st: AgentState): (r: map<Color, nat>)
    ensures forall c | c in r :: r[c] > 0
    ensures forall c :: CountAt(r, c) == RowTotal(GetObservableCards(st), c)
  {
    ColorMarginal(GetObservableCards(st))
  }

  /** `get_cards_of_value`: the observable counts summed per value. */
  function GetCardsOfValue(st: AgentState): (r: map<Value, nat>)
    ensures forall v | v in r :: r[v] > 0
    ensures forall v :: CountAt(r, v) == ColumnTotal(GetObservableCards(st), v)
  {
    ValueMarginal(GetObservableCards(st))
  }

  /** A colour has a marginal entry exactly when some card of that colour
      is visible, and likewise for a value. */
  lemma MarginalKeys(st: AgentState, c: Color, v: Value)
    ensures c in GetCardsOfColor(st) <==> exists w: Value :: (c, w) in GetObservableCards(st)
    ensures v in GetCardsOfValue(st) <==> exists d: Color :: (d, v) in GetObservableCards(st)
  {
    var grid := GetObservableCards(st);
    RowKeys(grid, GetCardsOfColor(st), c);
    ColumnKeys(grid, GetCardsOfValue(st), v);
  }

  /** A positive row total needs a positive entry in that row. */
  lemma RowKeys(grid: map<Key, nat>, colors: map<Color, nat>, c: Color)
    requires forall k | k in grid :: grid[k] > 0
    requires forall d | d in colors :: colors[d] > 0
    requires CountAt(colors, c) == RowTotal(grid, c)
    ensures c in colors <==> exists w: Value :: (c, w) in grid
  {
    if exists w: Value :: (c, w) in grid {
      var w: Value :| (c, w) in grid;
      ValueCases(w);
    }
  }

  /** A positive column total needs a positive entry in that column. */
  lemma ColumnKeys(grid: map<Key, nat>, values: map<Value, nat>, v: Value)
    requires forall k | k in grid :: grid[k] > 0
    requires forall w | w in values :: values[w] > 0
    requires CountAt(values, v) == ColumnTotal(grid, v)
    ensures v in values <==> exists d: Color :: (d, v) in grid
  {
    if exists d: Color :: (d, v) in grid {
      var d: Color :| (d, v) in grid;
      ColorCases(d);
    }
  }

  /** Both marginals count every visible card exactly once, so they have
      the same total. */
  lemma MarginalsAgree(st: AgentState)
    ensures SumOverColors(GetCardsOfColor(st)) == TotalObserved(st)
    ensures SumOverValues(GetCardsOfValue(st)) == TotalObserved(st)
  {
    MarginalSums(GetObservableCards(st), GetCardsOfColor(st), GetCardsOfValue(st));
  }

  /** The marginals the belief update is handed are consistent. */
  lemma MarginalsConsistent(st: AgentState)
    ensures Consistent(Remaining(st), GetCardsOfColor(st), GetCardsOfValue(st))
  {
    MarginalSums(GetObservableCards(st), GetCardsOfColor(st), GetCardsOfValue(st));
  }

  /** Marginals taken from a table of counts sum to the table's total. */
  lemma MarginalSums(grid: map<Key, nat>, colors: map<Color, nat>, values: map<Value, nat>)
    requires forall c :: CountAt(colors, c) == RowTotal(grid, c)
    requires forall v :: CountAt(values, v) == ColumnTotal(grid, v)
    ensures SumOverColors(colors) == GridTotal(grid)
    ensures SumOverValues(values) == GridTotal(grid)
  {
    RowsEqualColumns(grid);
  }

  // ---------------------------------------------------------------------
  // Belief recomputation

  function Abs(x: real): real
  {
    if x < 0.0 then -x else x
  }

  /** The colour formula: unseen copies of each colour over the unseen cards. */
  function ColorFormula(colors: map<Color, real>, remaining: int, counts: map<Color, nat>): (r: map<Color, real>)
    requires forall c | c in colors :: c in counts
    requires colors.Keys != {} ==> remaining != 0
    ensures r.Keys == colors.Keys
  {
    map c | c in colors :: (ColorMultiplicity(c) - counts[c]) as real / remaining as real
  }

  /** The value formula: unseen copies of each value over the unseen cards. */
  function ValueFormula(values: map<Value, real>, remaining: int, counts: map<Value, nat>): (r: map<Value, real>)
    requires forall v | v in values :: v in counts
    requires values.Keys != {} ==> remaining != 0
    ensures r.Keys == values.Keys
  {
    map v | v in values :: (ValueMultiplicity(v) - counts[v]) as real / remaining as real
  }

  /** The colour half of the per-card update. A colour without a count
      raises, as does a zero denominator, and so does a result whose sum
      strays from 1 by 0.001 or more. */
  function RecomputeColors(colors: map<Color, real>, remaining: int, counts: map<Color, nat>): (r: Result<map<Color, real>>)
    ensures r.Ok? <==> && (forall c | c in colors :: c in counts)
                       && (colors.Keys != {} ==> remaining != 0)
                       && Abs(ColorMass(ColorFormula(colors, remaining, counts)) - 1.0) < 0.001
    ensures r.Ok? ==> r.value.Keys == colors.Keys
    ensures r.Ok? ==> forall c | c in colors ::
              r.value[c] == (ColorMultiplicity(c) - counts[c]) as real / remaining as real
  {
    if exists c | c in colors :: c !in counts then
      Err("KeyError: colour without an observed count")
    else if colors.Keys != {} && remaining == 0 then
      Err("ZeroDivisionError: no hidden card left")
    else
      var updated := ColorFormula(colors, remaining, counts);
      if Abs(ColorMass(updated) - 1.0) < 0.001 then Ok(updated)
      else Err("AssertionError: colour probabilities do not sum to 1")
  }

  /** The value half of the per-card update. */
  function RecomputeValues(values: map<Value, real>, remaining: int, counts: map<Value, nat>): (r: Result<map<Value, real>>)
    ensures r.Ok? <==> && (forall v | v in values :: v in counts)
                       && (values.Keys != {} ==> remaining != 0)
                       && Abs(ValueMass(ValueFormula(values, remaining, counts)) - 1.0) < 0.001
    ensures r.Ok? ==> r.value.Keys == values.Keys
    ensures r.Ok? ==> forall v | v in values ::
              r.value[v] == (ValueMultiplicity(v) - counts[v]) as real / remaining as real
  {
    if exists v | v in values :: v !in counts then
      Err("KeyError: value without an observed count")
    else if values.Keys != {} && remaining == 0 then
      Err("ZeroDivisionError: no hidden card left")
    else
      var updated := ValueFormula(values, remaining, counts);
      if Abs(ValueMass(updated) - 1.0) < 0.001 then Ok(updated)
      else Err("AssertionError: value probabilities do not sum to 1")
  }

  /** The marginals handed to the per-card update are consistent: they
      count the same cards, and `remaining` is what the deck leaves over. */
  predicate Consistent(remaining: int, colorCounts: map<Color, nat>, valueCounts: map<Value, nat>)
  {
    SumOverColors(colorCounts) == SumOverValues(valueCounts) && remaining == DeckSize - SumOverColors(colorCounts)
  }

  /** What a card needs for its recomputation to go through: a count for
      every attribute it recomputes, and some hidden card left. */
  predicate CanRecompute(card: HiddenCard, remaining: int, colorCounts: map<Color, nat>, valueCounts: map<Value, nat>)
  {
    && (card.hintColor.None? ==> remaining != 0 && forall c | c in card.possibleColors :: c in colorCounts)
    && (card.hintValue.None? ==> remaining != 0 && forall v | v in card.possibleValues :: v in valueCounts)
  }

  /** Over all five colours, the colour formula yields exactly one in total
      whenever the denominator is the deck less the counted cards. */
  lemma ColorFormulaSumsToOne(colors: map<Color, real>, remaining: int, counts: map<Color, nat>)
    requires colors.Keys == AllColors() && AllColors() <= counts.Keys
    requires remaining != 0 && remaining == DeckSize - SumOverColors(counts)
    ensures ColorMass(ColorFormula(colors, remaining, counts)) == 1.0
  {
    var m := ColorFormula(colors, remaining, counts);
    SharesOfWhole(m[White], m[Red], m[Blue], m[Yellow], m[Green],
                  (ColorMultiplicity(White) - counts[White]) as real, (ColorMultiplicity(Red) - counts[Red]) as real,
                  (ColorMultiplicity(Blue) - counts[Blue]) as real, (ColorMultiplicity(Yellow) - counts[Yellow]) as real,
                  (ColorMultiplicity(Green) - counts[Green]) as real, remaining as real);
  }

  /** Over all five values, the value formula yields exactly one in total
      whenever the denominator is the deck less the counted cards. */
  lemma ValueFormulaSumsToOne(values: map<Value, real>, remaining: int, counts: map<Value, nat>)
    requires values.Keys == AllValues() && AllValues() <= counts.Keys
    requires remaining != 0 && remaining == DeckSize - SumOverValues(counts)
    ensures ValueMass(ValueFormula(values, remaining, counts)) == 1.0
  {
    var m := ValueFormula(values, remaining, counts);
    SharesOfWhole(m[One], m[Two], m[Three], m[Four], m[Five],
                  (ValueMultiplicity(One) - counts[One]) as real, (ValueMultiplicity(Two) - counts[Two]) as real,
                  (ValueMultiplicity(Three) - counts[Three]) as real, (ValueMultiplicity(Four) - counts[Four]) as real,
                  (ValueMultiplicity(Five) - counts[Five]) as real, remaining as real);
  }

  /** The new colour distribution of a card: recomputed unless confirmed. */
  function NewColors(card: HiddenCard, remaining: int, colorCounts: map<Color, nat>): Result<map<Color, real>>
  {
    if card.hintColor.None? then RecomputeColors(card.possibleColors, remaining, colorCounts)
    else Ok(card.possibleColors)
  }

  /** The new value distribution of a card: recomputed unless confirmed. */
  function NewValues(card: HiddenCard, remaining: int, valueCounts: map<Value, nat>): Result<map<Value, real>>
  {
    if card.hintValue.None? then RecomputeValues(card.possibleValues, remaining, valueCounts)
    else Ok(card.possibleValues)
  }

  /** For a valid card and consistent marginals, the colour half fails only
      for lack of a count or of hidden cards, and yields a distribution of
      mass one. */
  lemma NewColorsFacts(card: HiddenCard, remaining: int, colorCounts: map<Color, nat>, valueCounts: map<Value, nat>)
    requires Valid(card) && Consistent(remaining, colorCounts, valueCounts)
    ensures NewColors(card, remaining, colorCounts).Ok?
            <==> (card.hintColor.None? ==> remaining != 0 && forall c | c in card.possibleColors :: c in colorCounts)
    ensures NewColors(card, remaining, colorCounts).Ok? ==>
              var m := NewColors(card, remaining, colorCounts).value;
              m.Keys == AllColors() && ColorMass(m) == 1.0
              && (card.hintColor.Some? ==> OneHot(m, card.hintColor.value))
  {
    if card.hintColor.Some? {
      OneHotColorMass(card.possibleColors, card.hintColor.value);
    } else if remaining != 0 && forall c | c in card.possibleColors :: c in colorCounts {
      ColorFormulaSumsToOne(card.possibleColors, remaining, colorCounts);
    } else {
      assert White in card.possibleColors;
    }
  }

  /** The value half of `NewColorsFacts`. */
  lemma NewValuesFacts(card: HiddenCard, remaining: int, colorCounts: map<Color, nat>, valueCounts: map<Value, nat>)
    requires Valid(card) && Consistent(remaining, colorCounts, valueCounts)
    ensures NewValues(card, remaining, valueCounts).Ok?
            <==> (card.hintValue.None? ==> remaining != 0 && forall v | v in card.possibleValues :: v in valueCounts)
    ensures NewValues(card, remaining, valueCounts).Ok? ==>
              var m := NewValues(card, remaining, valueCounts).value;
              m.Keys == AllValues() && ValueMass(m) == 1.0
              && (card.hintValue.Some? ==> OneHot(m, card.hintValue.value))
  {
    if card.hintValue.Some? {
      OneHotValueMass(card.possibleValues, card.hintValue.value);
    } else if remaining != 0 && forall v | v in card.possibleValues :: v in valueCounts {
      ValueFormulaSumsToOne(card.possibleValues, remaining, valueCounts);
    } else {
      assert One in card.possibleValues;
    }
  }

  /** The per-card update (`__update_card_current_belief`): an unconfirmed
      attribute is recomputed as unseen copies over unseen cards, a
      confirmed one is left alone. */
  function UpdateCardBelief(card: HiddenCard, remaining: int, colorCounts: map<Color, nat>,
                            valueCounts: map<Value, nat>): (r: Result<HiddenCard>)
    ensures r.Ok? ==> r.value.hintColor == card.hintColor && r.value.hintValue == card.hintValue
    ensures r.Ok? ==> r.value.possibleColors.Keys == card.possibleColors.Keys
    ensures r.Ok? ==> r.value.possibleValues.Keys == card.possibleValues.Keys
    ensures r.Ok? && card.hintColor.Some? ==> r.value.possibleColors == card.possibleColors
    ensures r.Ok? && card.hintValue.Some? ==> r.value.possibleValues == card.possibleValues
    ensures r.Ok? && card.hintColor.None? ==> forall c | c in card.possibleColors ::
              c in colorCounts && remaining != 0 && r.value.possibleColors[c] == (ColorMultiplicity(c) - colorCounts[c]) as real / remaining as real
    ensures r.Ok? && card.hintValue.None? ==> forall v | v in card.possibleValues ::
              v in valueCounts && remaining != 0 && r.value.possibleValues[v] == (ValueMultiplicity(v) - valueCounts[v]) as real / remaining as real
  {
    var colors :- NewColors(card, remaining, colorCounts);
    var values :- NewValues(card, remaining, valueCounts);
    Ok(card.(possibleColors := colors, possibleValues := values))
  }

  /** For a valid card and consistent marginals the per-card update fails
      only for lack of a count or of hidden cards, never on the sum check,
      and leaves a valid card whose distributions sum to exactly one. */
  lemma UpdateCardBeliefSound(card: HiddenCard, remaining: int, colorCounts: map<Color, nat>,
                              valueCounts: map<Value, nat>)
    requires Valid(card) && Consistent(remaining, colorCounts, valueCounts)
    ensures UpdateCardBelief(card, remaining, colorCounts, valueCounts).Ok?
            <==> CanRecompute(card, remaining, colorCounts, valueCounts)
    ensures UpdateCardBelief(card, remaining, colorCounts, valueCounts).Ok? ==>
              Valid(UpdateCardBelief(card, remaining, colorCounts, valueCounts).value)
              && Normalised(UpdateCardBelief(card, remaining, colorCounts, valueCounts).value)
  {
    NewColorsFacts(card, remaining, colorCounts, valueCounts);
    NewValuesFacts(card, remaining, colorCounts, valueCounts);
  }

  /** Every card of a hand, updated independently; the update fails as
      soon as one card cannot be updated. */
  function UpdateHand(cards: seq<HiddenCard>, remaining: int, colorCounts: map<Color, nat>,
                      valueCounts: map<Value, nat>): (r: Result<seq<HiddenCard>>)
    ensures r.Ok? <==> forall i | 0 <= i < |cards| :: UpdateCardBelief(cards[i], remaining, colorCounts, valueCounts).Ok?
    ensures r.Ok? ==> |r.value| == |cards|
    ensures r.Ok? ==> forall i | 0 <= i < |cards| ::
              r.value[i] == UpdateCardBelief(cards[i], remaining, colorCounts, valueCounts).value
  {
    if forall i | 0 <= i < |cards| :: UpdateCardBelief(cards[i], remaining, colorCounts, valueCounts).Ok? then
      Ok(seq(|cards|, i requires 0 <= i < |cards| =>
        var updated := UpdateCardBelief(cards[i], remaining, colorCounts, valueCounts);
        if updated.Ok? then updated.value else cards[i]))
    else
      Err("a card of the hand could not be updated")
  }

  /** Every card of the hand keeps the hidden-card invariant. */
  predicate HandValid(cards: seq<HiddenCard>)
  {
    forall i | 0 <= i < |cards| :: Valid(cards[i])
  }

  /** Every card of the hand can be recomputed from the given marginals. */
  predicate HandRecomputable(cards: seq<HiddenCard>, remaining: int, colorCounts: map<Color, nat>,
                             valueCounts: map<Value, nat>)
  {
    forall i | 0 <= i < |cards| :: CanRecompute(cards[i], remaining, colorCounts, valueCounts)
  }

  /** The per-card guarantee, for a whole hand. */
  lemma UpdateHandSound(cards: seq<HiddenCard>, remaining: int, colorCounts: map<Color, nat>,
                        valueCounts: map<Value, nat>)
    requires Consistent(remaining, colorCounts, valueCounts)
    ensures HandValid(cards) ==>
              (UpdateHand(cards, remaining, colorCounts, valueCounts).Ok?
               <==> HandRecomputable(cards, remaining, colorCounts, valueCounts))
    ensures UpdateHand(cards, remaining, colorCounts, valueCounts).Ok? ==>
              forall i | 0 <= i < |cards| && Valid(cards[i]) ::
                Valid(UpdateHand(cards, remaining, colorCounts, valueCounts).value[i])
                && Normalised(UpdateHand(cards, remaining, colorCounts, valueCounts).value[i])
  {
    forall i | 0 <= i < |cards| && Valid(cards[i])
      ensures UpdateCardBelief(cards[i], remaining, colorCounts, valueCounts).Ok?
              <==> CanRecompute(cards[i], remaining, colorCounts, valueCounts)
      ensures UpdateCardBelief(cards[i], remaining, colorCounts, valueCounts).Ok? ==>
                Valid(UpdateCardBelief(cards[i], remaining, colorCounts, valueCounts).value)
                && Normalised(UpdateCardBelief(cards[i], remaining, colorCounts, valueCounts).value)
    {
      UpdateCardBeliefSound(cards[i], remaining, colorCounts, valueCounts);
    }
  }

  /** Hidden cards still unseen: the deck less every visible card. */
  function Remaining(st: AgentState): int
  {
    DeckSize - SumOverColors(GetCardsOfColor(st))
  }

  /** Every own card recomputed from the given marginals and count of
      unseen cards; only the hand changes. */
  function ApplyBelief(st: AgentState, remaining: int, colorCounts: map<Color, nat>,
                       valueCounts: map<Value, nat>): (r: Result<AgentState>)
    ensures r.Ok? <==> UpdateHand(st.hand, remaining, colorCounts, valueCounts).Ok?
    ensures r.Ok? ==> r.value == st.(hand := UpdateHand(st.hand, remaining, colorCounts, valueCounts).value)
  {
    var hand :- UpdateHand(st.hand, remaining, colorCounts, valueCounts);
    Ok(st.(hand := hand))
  }

  /** `update_current_belief`: refuses until the state has been updated;
      otherwise recomputes every own card from the marginals and changes
      nothing but the hand, keeping every confirmed attribute. */
  function UpdateCurrentBelief(st: AgentState): (r: Result<AgentState>)
    ensures !st.isStateUpdated ==> r.Err?
    ensures r.Ok? ==> r.value == st.(hand := r.value.hand) && |r.value.hand| == |st.hand|
    ensures r.Ok? ==> forall i | 0 <= i < |st.hand| ::
              && r.value.hand[i].hintColor == st.hand[i].hintColor
              && r.value.hand[i].hintValue == st.hand[i].hintValue
              && r.value.hand[i].possibleColors.Keys == st.hand[i].possibleColors.Keys
              && r.value.hand[i].possibleValues.Keys == st.hand[i].possibleValues.Keys
              && (st.hand[i].hintColor.Some? ==> r.value.hand[i].possibleColors == st.hand[i].possibleColors)
              && (st.hand[i].hintValue.Some? ==> r.value.hand[i].possibleValues == st.hand[i].possibleValues)
  {
    if !st.isStateUpdated then
      Err("You have to call the updateState() method first")
    else
      ApplyBelief(st, Remaining(st), GetCardsOfColor(st), GetCardsOfValue(st))
  }

  /** Valid cards come out of the update valid, with both distributions
      summing to exactly one. */
  lemma UpdateCurrentBeliefNormalises(st: AgentState)
    requires UpdateCurrentBelief(st).Ok?
    ensures forall i | 0 <= i < |st.hand| && Valid(st.hand[i]) ::
              Valid(UpdateCurrentBelief(st).value.hand[i]) && Normalised(UpdateCurrentBelief(st).value.hand[i])
  {
    var colorCounts := GetCardsOfColor(st);
    var valueCounts := GetCardsOfValue(st);
    MarginalsConsistent(st);
    assert UpdateCurrentBelief(st) == ApplyBelief(st, Remaining(st), colorCounts, valueCounts);
    ApplyBeliefSound(st, Remaining(st), colorCounts, valueCounts);
  }

  /** A valid hand stays valid across the update. */
  lemma UpdateCurrentBeliefKeepsValid(st: AgentState)
    requires UpdateCurrentBelief(st).Ok? && HandValid(st.hand)
    ensures HandValid(UpdateCurrentBelief(st).value.hand)
  {
    UpdateCurrentBeliefNormalises(st);
  }

  /** For a hand of valid cards, recomputing fails exactly when the state
      has not been updated, or some card lacks a count or finds no hidden
      card left; the sum check never fires. */
  lemma UpdateCurrentBeliefSucceeds(st: AgentState)
    requires HandValid(st.hand)
    ensures UpdateCurrentBelief(st).Ok?
            <==> st.isStateUpdated && HandRecomputable(st.hand, Remaining(st), GetCardsOfColor(st), GetCardsOfValue(st))
  {
    if st.isStateUpdated {
      var colorCounts := GetCardsOfColor(st);
      var valueCounts := GetCardsOfValue(st);
      MarginalsConsistent(st);
      assert UpdateCurrentBelief(st) == ApplyBelief(st, Remaining(st), colorCounts, valueCounts);
      ApplyBeliefSound(st, Remaining(st), colorCounts, valueCounts);
    }
  }

  /** `UpdateHandSound` for the state-level update. */
  lemma ApplyBeliefSound(st: AgentState, remaining: int, colorCounts: map<Color, nat>, valueCounts: map<Value, nat>)
    requires Consistent(remaining, colorCounts, valueCounts)
    ensures HandValid(st.hand) ==>
              (ApplyBelief(st, remaining, colorCounts, valueCounts).Ok?
               <==> HandRecomputable(st.hand, remaining, colorCounts, valueCounts))
    ensures ApplyBelief(st, remaining, colorCounts, valueCounts).Ok? ==>
              forall i | 0 <= i < |st.hand| && Valid(st.hand[i]) ::
                Valid(ApplyBelief(st, remaining, colorCounts, valueCounts).value.hand[i])
                && Normalised(ApplyBelief(st, remaining, colorCounts, valueCounts).value.hand[i])
  {
    UpdateHandSound(st.hand, remaining, colorCounts, valueCounts);
  }

  /** The chance that a hidden card shows an attribute: its copies not yet
      seen over the cards not yet seen. */
  function UnseenShare(copies: int, seen: int, unseen: int): real
    requires unseen != 0
  {
    (copies - seen) as real / unseen as real
  }

  /** The recomputed probability of a colour is its unseen copies over the
      unseen cards, with both counted straight from what is visible; the
      same holds for values. */
  lemma BeliefFormula(st: AgentState, i: int, c: Color, v: Value)
    requires UpdateCurrentBelief(st).Ok? && 0 <= i < |st.hand|
    requires c in st.hand[i].possibleColors && v in st.hand[i].possibleValues
    ensures Remaining(st) == DeckSize - TotalObserved(st)
    ensures st.hand[i].hintColor.None? ==>
              && Remaining(st) != 0
              && UpdateCurrentBelief(st).value.hand[i].possibleColors[c]
                 == UnseenShare(ColorMultiplicity(c), RowTotal(GetObservableCards(st), c), Remaining(st))
    ensures st.hand[i].hintValue.None? ==>
              && Remaining(st) != 0
              && UpdateCurrentBelief(st).value.hand[i].possibleValues[v]
                 == UnseenShare(ValueMultiplicity(v), ColumnTotal(GetObservableCards(st), v), Remaining(st))
  {
    var colorCounts := GetCardsOfColor(st);
    var valueCounts := GetCardsOfValue(st);
    UpdatedCardAt(st, i);
    CardFormula(st.hand[i], Remaining(st), colorCounts, valueCounts, c, v);
    MarginalsAgree(st);
    assert CountAt(colorCounts, c) == RowTotal(GetObservableCards(st), c);
    assert CountAt(valueCounts, v) == ColumnTotal(GetObservableCards(st), v);
  }

  /** Each card of the updated hand is that card updated on its own. */
  lemma UpdatedCardAt(st: AgentState, i: int)
    requires UpdateCurrentBelief(st).Ok? && 0 <= i < |st.hand|
    ensures UpdateCardBelief(st.hand[i], Remaining(st), GetCardsOfColor(st), GetCardsOfValue(st)).Ok?
    ensures UpdateCurrentBelief(st).value.hand[i]
            == UpdateCardBelief(st.hand[i], Remaining(st), GetCardsOfColor(st), GetCardsOfValue(st)).value
  {
    assert UpdateCurrentBelief(st) == ApplyBelief(st, Remaining(st), GetCardsOfColor(st), GetCardsOfValue(st));
  }

  /** The per-card formula, stated against the marginals it reads. */
  lemma CardFormula(card: HiddenCard, remaining: int, colorCounts: map<Color, nat>, valueCounts: map<Value, nat>,
                    c: Color, v: Value)
    requires c in card.possibleColors && v in card.possibleValues
    requires UpdateCardBelief(card, remaining, colorCounts, valueCounts).Ok?
    ensures card.hintColor.None? ==>
              && remaining != 0
              && UpdateCardBelief(card, remaining, colorCounts, valueCounts).value.possibleColors[c]
                 == UnseenShare(ColorMultiplicity(c), CountAt(colorCounts, c), remaining)
    ensures card.hintValue.None? ==>
              && remaining != 0
              && UpdateCardBelief(card, remaining, colorCounts, valueCounts).value.possibleValues[v]
                 == UnseenShare(ValueMultiplicity(v), CountAt(valueCounts, v), remaining)
  {
  }

  /** A recomputed card recomputes to itself. */
  lemma CardUpdateIdempotent(card: HiddenCard, remaining: int, colorCounts: map<Color, nat>,
                             valueCounts: map<Value, nat>)
    requires UpdateCardBelief(card, remaining, colorCounts, valueCounts).Ok?
    ensures var once := UpdateCardBelief(card, remaining, colorCounts, valueCounts).value;
            UpdateCardBelief(once, remaining, colorCounts, valueCounts) == Ok(once)
  {
    var once := UpdateCardBelief(card, remaining, colorCounts, valueCounts).value;
    if card.hintColor.None? {
      assert ColorFormula(once.possibleColors, remaining, colorCounts) == once.possibleColors;
    }
    if card.hintValue.None? {
      assert ValueFormula(once.possibleValues, remaining, valueCounts) == once.possibleValues;
    }
  }

  /** Applying the same marginals twice changes nothing more. */
  lemma ApplyBeliefIdempotent(st: AgentState, remaining: int, colorCounts: map<Color, nat>, valueCounts: map<Value, nat>)
    requires ApplyBelief(st, remaining, colorCounts, valueCounts).Ok?
    ensures ApplyBelief(ApplyBelief(st, remaining, colorCounts, valueCounts).value, remaining, colorCounts, valueCounts)
            == ApplyBelief(st, remaining, colorCounts, valueCounts)
  {
    var s1 := ApplyBelief(st, remaining, colorCounts, valueCounts).value;
    forall i | 0 <= i < |s1.hand|
      ensures UpdateCardBelief(s1.hand[i], remaining, colorCounts, valueCounts) == Ok(s1.hand[i])
    {
      CardUpdateIdempotent(st.hand[i], remaining, colorCounts, valueCounts);
    }
    var again := UpdateHand(s1.hand, remaining, colorCounts, valueCounts);
    assert again.Ok? && again.value == s1.hand;
  }

  /** Recomputing twice without an intervening event changes nothing. */
  lemma UpdateCurrentBeliefIdempotent(st: AgentState)
    requires UpdateCurrentBelief(st).Ok?
    ensures UpdateCurrentBelief(UpdateCurrentBelief(st).value) == UpdateCurrentBelief(st)
  {
    var s1 := UpdateCurrentBelief(st).value;
    var colorCounts := GetCardsOfColor(st);
    var valueCounts := GetCardsOfValue(st);
    assert GetObservableCards(s1) == GetObservableCards(st);
    assert Remaining(s1) == Remaining(st);
    assert UpdateCurrentBelief(st) == ApplyBelief(st, Remaining(st), colorCounts, valueCounts);
    assert UpdateCurrentBelief(s1) == ApplyBelief(s1, Remaining(st), colorCounts, valueCounts);
    ApplyBeliefIdempotent(st, Remaining(st), colorCounts, valueCounts);
  }

  /** Colour counts with every colour present, an absent one read as 0. */
  function TotalColors(counts: map<Color, nat>): (r: map<Color, nat>)
    ensures forall c :: c in r && r[c] == CountAt(counts, c)
  {
    map c | c in AllColors() :: CountAt(counts, c)
  }

  /** Value counts with every value present, an absent one read as 0. */
  function TotalValues(counts: map<Value, nat>): (r: map<Value, nat>)
    ensures forall v :: v in r && r[v] == CountAt(counts, v)
  {
    map v | v in AllValues() :: CountAt(counts, v)
  }

  /** `update_current_belief` as evidently meant: a colour or value with no
      visible copy counts as none seen instead of having no entry. */
  function UpdateCurrentBeliefIntended(st: AgentState): (r: Result<AgentState>)
    ensures !st.isStateUpdated ==> r.Err?
    ensures r.Ok? ==> r.value == st.(hand := r.value.hand) && |r.value.hand| == |st.hand|
  {
    if !st.isStateUpdated then
      Err("You have to call the updateState() method first")
    else
      ApplyBelief(st, Remaining(st), TotalColors(GetCardsOfColor(st)), TotalValues(GetCardsOfValue(st)))
  }

  /** With missing counts read as 0, a hand of valid cards is recomputed
      whenever the state has been updated and some card is still hidden
      (or every card is fully hinted), and comes out valid and normalised. */
  lemma UpdateCurrentBeliefIntendedSucceeds(st: AgentState)
    requires HandValid(st.hand)
    ensures UpdateCurrentBeliefIntended(st).Ok?
            <==> st.isStateUpdated
                 && (Remaining(st) != 0
                     || forall i | 0 <= i < |st.hand| :: st.hand[i].hintColor.Some? && st.hand[i].hintValue.Some?)
    ensures UpdateCurrentBeliefIntended(st).Ok? ==>
              forall i | 0 <= i < |st.hand| ::
                Valid(UpdateCurrentBeliefIntended(st).value.hand[i])
                && Normalised(UpdateCurrentBeliefIntended(st).value.hand[i])
  {
    if st.isStateUpdated {
      MarginalsConsistent(st);
      TotalCountsSound(st, Remaining(st), GetCardsOfColor(st), GetCardsOfValue(st));
    }
  }

  /** `ApplyBeliefSound` once every count is present. */
  lemma TotalCountsSound(st: AgentState, remaining: int, colorCounts: map<Color, nat>, valueCounts: map<Value, nat>)
    requires HandValid(st.hand) && Consistent(remaining, colorCounts, valueCounts)
    ensures ApplyBelief(st, remaining, TotalColors(colorCounts), TotalValues(valueCounts)).Ok?
            <==> (remaining != 0
                  || forall i | 0 <= i < |st.hand| :: st.hand[i].hintColor.Some? && st.hand[i].hintValue.Some?)
    ensures ApplyBelief(st, remaining, TotalColors(colorCounts), TotalValues(valueCounts)).Ok? ==>
              forall i | 0 <= i < |st.hand| ::
                Valid(ApplyBelief(st, remaining, TotalColors(colorCounts), TotalValues(valueCounts)).value.hand[i])
                && Normalised(ApplyBelief(st, remaining, TotalColors(colorCounts), TotalValues(valueCounts)).value.hand[i])
  {
    var colors := TotalColors(colorCounts);
    var values := TotalValues(valueCounts);
    assert Consistent(remaining, colors, values);
    TotalCountsRecomputable(st.hand, remaining, colorCounts, valueCounts);
    ApplyBeliefSound(st, remaining, colors, values);
  }

  /** With every count present, a valid hand can be recomputed exactly
      when some card is still hidden or no attribute needs recomputing. */
  lemma TotalCountsRecomputable(cards: seq<HiddenCard>, remaining: int, colorCounts: map<Color, nat>,
                                valueCounts: map<Value, nat>)
    requires HandValid(cards)
    ensures HandRecomputable(cards, remaining, TotalColors(colorCounts), TotalValues(valueCounts))
            <==> (remaining != 0
                  || forall i | 0 <= i < |cards| :: cards[i].hintColor.Some? && cards[i].hintValue.Some?)
  {
  }

  /** As written, an unhinted attribute of a card whose colour (or value)
      has no visible copy finds no entry, and the whole update fails; the
      intended update goes through on the same state. */
  lemma MissingCountDiscrepancy(st: AgentState, i: int, c: Color, v: Value)
    requires 0 <= i < |st.hand| && Valid(st.hand[i])
    requires (st.hand[i].hintColor.None? && RowTotal(GetObservableCards(st), c) == 0)
             || (st.hand[i].hintValue.None? && ColumnTotal(GetObservableCards(st), v) == 0)
    ensures UpdateCurrentBelief(st).Err?
    ensures st.isStateUpdated && HandValid(st.hand) && Remaining(st) != 0 ==> UpdateCurrentBeliefIntended(st).Ok?
  {
    if st.isStateUpdated {
      var colorCounts := GetCardsOfColor(st);
      var valueCounts := GetCardsOfValue(st);
      if st.hand[i].hintColor.None? && RowTotal(GetObservableCards(st), c) == 0 {
        assert c in st.hand[i].possibleColors && c !in colorCounts;
      } else {
        assert v in st.hand[i].possibleValues && v !in valueCounts;
      }
      assert UpdateCardBelief(st.hand[i], Remaining(st), colorCounts, valueCounts).Err?;
      assert UpdateCurrentBelief(st) == ApplyBelief(st, Remaining(st), colorCounts, valueCounts);
    }
    if st.isStateUpdated && HandValid(st.hand) && Remaining(st) != 0 {
      UpdateCurrentBeliefIntendedSucceeds(st);
    }
  }

  /** Right after construction the belief cannot be recomputed; after an
      update it can be asked for again. */
  lemma FreshStateRefusesBelief(gs: GameState, agentName: string)
    requires DistinctNames(gs.tableCards) && NewAgentState(gs, agentName).Ok?
    ensures UpdateCurrentBelief(NewAgentState(gs, agentName).value).Err?
  {
  }
}
