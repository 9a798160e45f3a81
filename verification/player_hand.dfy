/** Card representations (client_state/player_hand.py): fully visible
    cards, belief objects for the agent's own cards, and teammates' hands. */
module PlayerHand {
  import opened Wrappers
  import opened CardInfo
  import opened GameData

  /** A card whose colour and value are known, with the hint flags its
      holder has received. */
  datatype ObservableCard = ObservableCard(value: Value, color: Color, isColorHinted: bool, isValueHinted: bool) {

    /** The hash key: cards are counted by (colour, value). */
    function Key(): Key
    {
      (color, value)
    }
  }

  /** The server card an observable card shows. */
  function CardOf(card: ObservableCard): Card
  {
    Card(card.value, card.color)
  }

  /** `is_hintable` as written: the conjunction tests the colour flag twice. */
  predicate IsHintable(card: ObservableCard)
  {
    !(card.isColorHinted && card.isColorHinted)
  }

  /** The test the method evidently means: hintable until both flags are set. */
  predicate IsHintableIntended(card: ObservableCard)
  {
    !(card.isColorHinted && card.isValueHinted)
  }

  /** As written, the value flag has no influence on hintability. */
  lemma IsHintableIgnoresValueFlag(card: ObservableCard, flag: bool)
    ensures IsHintable(card) <==> !card.isColorHinted
    ensures IsHintable(card.(isValueHinted := flag)) == IsHintable(card)
  {
  }

  /** A card with only its colour hinted still has a value to hint, yet the
      written test reports it as not hintable. */
  lemma IsHintableDiscrepancy()
    ensures var card := ObservableCard(One, Red, true, false);
            !IsHintable(card) && IsHintableIntended(card)
  {
  }

  /** The intended test: a card stops being hintable exactly when both of
      its attributes have been hinted. */
  lemma IsHintableIntendedBothFlags(card: ObservableCard)
    ensures !IsHintableIntended(card) <==> card.isColorHinted && card.isValueHinted
    ensures !card.isColorHinted ==> IsHintableIntended(card) == IsHintable(card)
  {
  }

  /** `Hand`: a teammate's cards in hand order. */
  datatype Hand = Hand(playerName: string, cards: seq<ObservableCard>)

  /** `Hand(player)`: wraps every card of the player's hand, in order, with
      no hint flags set. */
  function HandOf(player: Player): (h: Hand)
    ensures h.playerName == player.name
    ensures |h.cards| == |player.hand|
    ensures forall i | 0 <= i < |h.cards| :: CardOf(h.cards[i]) == player.hand[i]
    ensures forall i | 0 <= i < |h.cards| :: !h.cards[i].isColorHinted && !h.cards[i].isValueHinted
  {
    Hand(player.name, seq(|player.hand|, i requires 0 <= i < |player.hand| =>
      ObservableCard(player.hand[i].value, player.hand[i].color, false, false)))
  }

  /** A belief object for one of the agent's own cards. */
  datatype HiddenCard = HiddenCard(
    possibleValues: map<Value, real>,
    possibleColors: map<Color, real>,
    hintColor: Option<Color>,
    hintValue: Option<Value>)

  /** Every probability of `m` is 1 on `k` and 0 elsewhere. */
  predicate OneHot<K>(m: map<K, real>, k: K)
  {
    k in m && forall j | j in m :: m[j] == (if j == k then 1.0 else 0.0)
  }

  /** The invariant every hidden card keeps: both distributions are defined
      on every colour and value, and a confirmed attribute is one-hot. */
  predicate Valid(card: HiddenCard)
  {
    && card.possibleColors.Keys == AllColors()
    && card.possibleValues.Keys == AllValues()
    && (card.hintColor.Some? ==> OneHot(card.possibleColors, card.hintColor.value))
    && (card.hintValue.Some? ==> OneHot(card.possibleValues, card.hintValue.value))
  }

  /** Both distributions carry total probability one. */
  predicate Normalised(card: HiddenCard)
  {
    ColorMass(card.possibleColors) == 1.0 && ValueMass(card.possibleValues) == 1.0
  }

  lemma OneHotColorMass(m: map<Color, real>, c: Color)
    requires m.Keys == AllColors() && OneHot(m, c)
    ensures ColorMass(m) == 1.0
  {
    ColorCases(c);
  }

  lemma OneHotValueMass(m: map<Value, real>, v: Value)
    requires m.Keys == AllValues() && OneHot(m, v)
    ensures ValueMass(m) == 1.0
  {
    ValueCases(v);
  }

  /** `HiddenCard()`: the prior. Values follow the deck's value table over
      the 50 cards, colours are uniform over the five colours, and nothing
      is confirmed; both priors sum to exactly one. */
  function NewHiddenCard(): (card: HiddenCard)
    ensures Valid(card) && Normalised(card)
    ensures card.hintColor.None? && card.hintValue.None?
    ensures forall v: Value :: card.possibleValues[v] == ValueMultiplicity(v) as real / DeckSize as real
    ensures forall c: Color :: card.possibleColors[c] == 1.0 / 5.0
  {
    var values := map v | v in AllValues() :: ValueMultiplicity(v) as real / 50.0;
    var colors := map c | c in AllColors() :: 1.0 / |AllColors()| as real;
    assert ValueMass(values) == 1.0 by {
      DeckStructure();
    }
    HiddenCard(values, colors, None, None)
  }

  /** `set_hint_color`: records the confirmed colour and collapses the colour
      distribution onto it, touching nothing else. */
  function SetHintColor(card: HiddenCard, c: Color): (r: HiddenCard)
    ensures r.hintColor == Some(c)
    ensures r.possibleColors.Keys == card.possibleColors.Keys
    ensures c in card.possibleColors ==> OneHot(r.possibleColors, c)
    ensures r.possibleValues == card.possibleValues && r.hintValue == card.hintValue
    ensures Valid(card) ==> Valid(r) && ColorMass(r.possibleColors) == 1.0
  {
    var r := card.(hintColor := Some(c),
                   possibleColors := map k | k in card.possibleColors :: if k == c then 1.0 else 0.0);
    if Valid(card) then
      OneHotColorMass(r.possibleColors, c);
      r
    else
      r
  }

  /** `set_hint_value`: the symmetric operation on values. */
  function SetHintValue(card: HiddenCard, v: Value): (r: HiddenCard)
    ensures r.hintValue == Some(v)
    ensures r.possibleValues.Keys == card.possibleValues.Keys
    ensures v in card.possibleValues ==> OneHot(r.possibleValues, v)
    ensures r.possibleColors == card.possibleColors && r.hintColor == card.hintColor
    ensures Valid(card) ==> Valid(r) && ValueMass(r.possibleValues) == 1.0
  {
    var r := card.(hintValue := Some(v),
                   possibleValues := map k | k in card.possibleValues :: if k == v then 1.0 else 0.0);
    if Valid(card) then
      OneHotValueMass(r.possibleValues, v);
      r
    else
      r
  }

  /** Receiving the same hint twice is the same as receiving it once. */
  lemma SetHintIdempotent(card: HiddenCard, c: Color, v: Value)
    ensures SetHintColor(SetHintColor(card, c), c) == SetHintColor(card, c)
    ensures SetHintValue(SetHintValue(card, v), v) == SetHintValue(card, v)
  {
  }
}
