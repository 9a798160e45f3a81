/** A bounded store of per-(colour, value) counters for the discard pile
    and players' cards, plus the top of every firework
    (client_state/observable_cards.py). */
module ObservableCardStore {
  import opened Wrappers
  import opened CardInfo

  datatype Store = Store(
    fireworks: map<Color, Option<Value>>,
    discardPile: map<Key, nat>,
    playersCards: map<Key, nat>)

  /** Every colour has a firework entry and every card identity has both
      counters, as the constructor sets up. */
  predicate WellFormed(s: Store)
  {
    && (forall c: Color :: c in s.fireworks)
    && (forall c: Color, v: Value :: (c, v) in s.discardPile && (c, v) in s.playersCards)
  }

  /** `ObservableCards()`: every counter 0 and no firework started. */
  function Init(): (s: Store)
    ensures WellFormed(s)
    ensures forall c: Color, v: Value :: s.discardPile[(c, v)] == 0 && s.playersCards[(c, v)] == 0
    ensures forall c: Color :: s.fireworks[c] == None
  {
    var counters := map k | k in AllKeys() :: 0;
    Store(map c | c in AllColors() :: None, counters, counters)
  }

  /** `updateFirework`: only that colour's entry changes. */
  function UpdateFirework(s: Store, c: Color, v: Value): (r: Store)
    ensures r.fireworks.Keys == s.fireworks.Keys + {c}
    ensures r.fireworks[c] == Some(v)
    ensures forall d | d in s.fireworks && d != c :: r.fireworks[d] == s.fireworks[d]
    ensures r.discardPile == s.discardPile && r.playersCards == s.playersCards
    ensures WellFormed(s) ==> WellFormed(r)
  {
    s.(fireworks := s.fireworks[c := Some(v)])
  }

  /** The guard shared by `discardCard` and `addPlayersCard`, branch for
      branch: a five at 1, a one at 3, anything at 2. */
  predicate AtCapAsWritten(v: Value, count: nat)
  {
    if v == Five && count >= 1 then true
    else if v == One && count >= 3 then true
    else count >= 2
  }

  /** The cap the guard actually enforces: the `count >= 2` branch also
      catches ones, so a one is capped at 2 rather than 3. */
  function CapAsWritten(v: Value): nat
  {
    if v == Five then 1 else 2
  }

  lemma AtCapAsWrittenIsCap(v: Value, count: nat)
    ensures AtCapAsWritten(v, count) <==> count >= CapAsWritten(v)
  {
  }

  /** Raises the counter of (c, v) by one unless it has reached `cap`. */
  function Increment(counters: map<Key, nat>, c: Color, v: Value, atCap: bool, error: string): (r: Result<map<Key, nat>>)
    requires (c, v) in counters
    ensures r.Err? <==> atCap
    ensures r.Ok? ==> r.value.Keys == counters.Keys && r.value[(c, v)] == counters[(c, v)] + 1
    ensures r.Ok? ==> forall k | k in counters && k != (c, v) :: r.value[k] == counters[k]
  {
    if atCap then Err(error) else Ok(counters[(c, v) := counters[(c, v)] + 1])
  }

  /** Every counter of `m` is within the cap the guard enforces. */
  predicate WithinCapAsWritten(m: map<Key, nat>)
  {
    forall k | k in m :: m[k] <= CapAsWritten(k.1)
  }

  /** `discardCard`: raises when the card is at its cap, otherwise counts one
      more discard of exactly that card. */
  function DiscardCard(s: Store, c: Color, v: Value): (r: Result<Store>)
    requires WellFormed(s)
    ensures r.Err? <==> s.discardPile[(c, v)] >= CapAsWritten(v)
    ensures r.Ok? ==> WellFormed(r.value) && r.value.discardPile[(c, v)] == s.discardPile[(c, v)] + 1
    ensures r.Ok? ==> r.value.discardPile.Keys == s.discardPile.Keys
    ensures r.Ok? ==> forall k | k in s.discardPile && k != (c, v) :: r.value.discardPile[k] == s.discardPile[k]
    ensures r.Ok? ==> r.value.fireworks == s.fireworks && r.value.playersCards == s.playersCards
    ensures r.Ok? && WithinCapAsWritten(s.discardPile) ==> WithinCapAsWritten(r.value.discardPile)
  {
    var count := s.discardPile[(c, v)];
    AtCapAsWrittenIsCap(v, count);
    var pile :- Increment(s.discardPile, c, v, AtCapAsWritten(v, count), "DISCARD_PILE: cannot discard more");
    Ok(s.(discardPile := pile))
  }

  /** `addPlayersCard`: the same guard and frame on the players' counters. */
  function AddPlayersCard(s: Store, c: Color, v: Value): (r: Result<Store>)
    requires WellFormed(s)
    ensures r.Err? <==> s.playersCards[(c, v)] >= CapAsWritten(v)
    ensures r.Ok? ==> WellFormed(r.value) && r.value.playersCards[(c, v)] == s.playersCards[(c, v)] + 1
    ensures r.Ok? ==> r.value.playersCards.Keys == s.playersCards.Keys
    ensures r.Ok? ==> forall k | k in s.playersCards && k != (c, v) :: r.value.playersCards[k] == s.playersCards[k]
    ensures r.Ok? ==> r.value.fireworks == s.fireworks && r.value.discardPile == s.discardPile
    ensures r.Ok? && WithinCapAsWritten(s.playersCards) ==> WithinCapAsWritten(r.value.playersCards)
  {
    var count := s.playersCards[(c, v)];
    AtCapAsWrittenIsCap(v, count);
    var cards :- Increment(s.playersCards, c, v, AtCapAsWritten(v, count), "PLAYER_CARDS: cannot add more");
    Ok(s.(playersCards := cards))
  }

  /** `removePlayersCard`: raises for a card nobody holds, otherwise counts
      one fewer. */
  function RemovePlayersCard(s: Store, c: Color, v: Value): (r: Result<Store>)
    requires WellFormed(s)
    ensures r.Err? <==> s.playersCards[(c, v)] == 0
    ensures r.Ok? ==> WellFormed(r.value) && r.value.playersCards[(c, v)] + 1 == s.playersCards[(c, v)]
    ensures r.Ok? ==> r.value.playersCards.Keys == s.playersCards.Keys
    ensures r.Ok? ==> forall k | k in s.playersCards && k != (c, v) :: r.value.playersCards[k] == s.playersCards[k]
    ensures r.Ok? ==> r.value.fireworks == s.fireworks && r.value.discardPile == s.discardPile
  {
    var count := s.playersCards[(c, v)];
    if count <= 0 then
      Err("PLAYER_CARDS: You cannot remove a card the player doesn't own")
    else
      Ok(s.(playersCards := s.playersCards[(c, v) := count - 1]))
  }

  /** Adding a card and removing it again restores the store. */
  lemma AddRemoveRoundTrip(s: Store, c: Color, v: Value)
    requires WellFormed(s) && AddPlayersCard(s, c, v).Ok?
    ensures RemovePlayersCard(AddPlayersCard(s, c, v).value, c, v) == Ok(s)
  {
    var m := s.playersCards;
    var n := m[(c, v)];
    assert AddPlayersCard(s, c, v).value == s.(playersCards := m[(c, v) := n + 1]);
    assert m[(c, v) := n + 1][(c, v) := n] == m;
  }

  /** Copies of (c, v) accounted for: discarded, held, or (one copy) on the
      firework when it has reached v. */
  function AccountedFor(s: Store, c: Color, v: Value): nat
    requires WellFormed(s)
  {
    var onFirework := s.fireworks[c].Some? && s.fireworks[c].value.Num() >= v.Num();
    s.discardPile[(c, v)] + s.playersCards[(c, v)] + (if onFirework then 1 else 0)
  }

  /** `remainingCard` as written. Fives and ones are answered from 1 and 3;
      for values 2..4 the remaining count is only assigned when two or more
      copies are accounted for, and comparing the unassigned value with 0
      fails. A negative remaining count raises. */
  function RemainingCard(s: Store, c: Color, v: Value): (r: Result<int>)
    requires WellFormed(s)
    ensures v == Five ==> (r.Ok? <==> AccountedFor(s, c, v) <= 1)
    ensures v == One ==> (r.Ok? <==> AccountedFor(s, c, v) <= 3)
    ensures v in {Two, Three, Four} ==> (r.Ok? <==> AccountedFor(s, c, v) == 2)
    ensures r.Ok? ==> r.value == CopiesPerColor(v) - AccountedFor(s, c, v) && r.value >= 0
  {
    var total := AccountedFor(s, c, v);
    var remaining: Option<int> :=
      if v == Five then Some(1 - total)
      else if v == One then Some(3 - total)
      else if total >= 2 then Some(2 - total)
      else None;
    if remaining.None? then
      Err("TypeError: remaining count compared before assignment")
    else if remaining.value < 0 then
      Err("REMAINING_CARDS: Found more copies than the deck holds")
    else
      Ok(remaining.value)
  }

  /** A fresh store with two red ones in players' hands has one red one left. */
  lemma TwoRedOnesLeaveOne()
    ensures var s1 := AddPlayersCard(Init(), Red, One);
            s1.Ok? && var s2 := AddPlayersCard(s1.value, Red, One);
            s2.Ok? && RemainingCard(s2.value, Red, One) == Ok(1)
  {
    var s1 := AddPlayersCard(Init(), Red, One).value;
    var s2 := AddPlayersCard(s1, Red, One).value;
    assert AccountedFor(s2, Red, One) == 2;
  }

  // Corrected behaviour: caps and remaining counts follow the deck, which
  // holds CopiesPerColor(v) copies of every (colour, value).

  /** `discardCard` with the cap the deck implies. */
  function DiscardCardIntended(s: Store, c: Color, v: Value): (r: Result<Store>)
    requires WellFormed(s)
    ensures r.Err? <==> s.discardPile[(c, v)] >= CopiesPerColor(v)
    ensures r.Ok? ==> WellFormed(r.value) && r.value.discardPile[(c, v)] == s.discardPile[(c, v)] + 1
    ensures r.Ok? ==> r.value.discardPile.Keys == s.discardPile.Keys
    ensures r.Ok? ==> forall k | k in s.discardPile && k != (c, v) :: r.value.discardPile[k] == s.discardPile[k]
    ensures r.Ok? ==> r.value.fireworks == s.fireworks && r.value.playersCards == s.playersCards
  {
    var count := s.discardPile[(c, v)];
    var pile :- Increment(s.discardPile, c, v, count >= CopiesPerColor(v), "DISCARD_PILE: cannot discard more");
    Ok(s.(discardPile := pile))
  }

  /** `addPlayersCard` with the cap the deck implies. */
  function AddPlayersCardIntended(s: Store, c: Color, v: Value): (r: Result<Store>)
    requires WellFormed(s)
    ensures r.Err? <==> s.playersCards[(c, v)] >= CopiesPerColor(v)
    ensures r.Ok? ==> WellFormed(r.value) && r.value.playersCards[(c, v)] == s.playersCards[(c, v)] + 1
    ensures r.Ok? ==> r.value.playersCards.Keys == s.playersCards.Keys
    ensures r.Ok? ==> forall k | k in s.playersCards && k != (c, v) :: r.value.playersCards[k] == s.playersCards[k]
    ensures r.Ok? ==> r.value.fireworks == s.fireworks && r.value.discardPile == s.discardPile
  {
    var count := s.playersCards[(c, v)];
    var cards :- Increment(s.playersCards, c, v, count >= CopiesPerColor(v), "PLAYER_CARDS: cannot add more");
    Ok(s.(playersCards := cards))
  }

  /** The third copy of a one is refused as written and accepted by the
      corrected cap, for discards and for players' cards alike. */
  lemma ThirdOneDiscrepancy()
    ensures var d2 := DiscardCard(DiscardCard(Init(), Red, One).value, Red, One);
            d2.Ok? && DiscardCard(d2.value, Red, One).Err?
    ensures var d2 := DiscardCardIntended(DiscardCardIntended(Init(), Red, One).value, Red, One);
            d2.Ok? && DiscardCardIntended(d2.value, Red, One).Ok?
    ensures var a2 := AddPlayersCard(AddPlayersCard(Init(), Red, One).value, Red, One);
            a2.Ok? && AddPlayersCard(a2.value, Red, One).Err?
    ensures var a2 := AddPlayersCardIntended(AddPlayersCardIntended(Init(), Red, One).value, Red, One);
            a2.Ok? && AddPlayersCardIntended(a2.value, Red, One).Ok?
  {
  }

  /** `remainingCard` as evidently meant: the deck's copies minus those
      accounted for, raising only when more are accounted for than exist. */
  function RemainingCardIntended(s: Store, c: Color, v: Value): (r: Result<int>)
    requires WellFormed(s)
    ensures r.Ok? <==> AccountedFor(s, c, v) <= CopiesPerColor(v)
    ensures r.Ok? ==> r.value + AccountedFor(s, c, v) == CopiesPerColor(v)
  {
    var remaining := CopiesPerColor(v) - AccountedFor(s, c, v);
    if remaining < 0 then Err("REMAINING_CARDS: Found more copies than the deck holds") else Ok(remaining)
  }

  /** Whenever the written version answers, it agrees with the corrected
      one. */
  lemma RemainingCardAgrees(s: Store, c: Color, v: Value)
    requires WellFormed(s) && RemainingCard(s, c, v).Ok?
    ensures RemainingCard(s, c, v) == RemainingCardIntended(s, c, v)
  {
  }

  /** On a fresh store the written version cannot answer for a two, of
      which two copies are left. */
  lemma RemainingCardDiscrepancy()
    ensures RemainingCard(Init(), Red, Two).Err?
    ensures RemainingCardIntended(Init(), Red, Two) == Ok(2)
  {
    assert AccountedFor(Init(), Red, Two) == 0;
  }
}
