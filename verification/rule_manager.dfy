/** The strategies of the rule-based agent (actions/rule_manager.py): each is
    an ordered list of rule configurations. The rules themselves are not
    modelled; a rule is its kind and the parameters it is built with. */
module RuleManager {

  /** The `check` argument of `HintFullKnowledge`. */
  datatype Check = Playable | Useful | Dispensable | Useless

  /** One rule configuration. */
  datatype Rule =
    | PlaySafeCard
    | DiscardUselessCard
    | HintPlayableCard(nextPlayer: bool)
    | PlayUsefulCard(threshold: real)
    | DiscardDispensableCard(threshold: real)
    | HintFullKnowledge(check: Check, nextPlayer: bool)
    | HintMostInformation(nextPlayer: bool)
    | HintUnknown(nextPlayer: bool)
    | HintCritical(nextPlayer: bool)
    | HintUsefulCard(nextPlayer: bool)
    | PlayJustHintedIfSingle(threshold: real)
    | DiscardOldestUnhintedCard
    | DiscardRandomCard
  {
    /** The rules that give a hint, and so take a `next_player` flag. */
    predicate IsHint()
    {
      HintPlayableCard? || HintFullKnowledge? || HintMostInformation? || HintUnknown?
      || HintCritical? || HintUsefulCard?
    }

    /** The same rule with its threshold, if any, cleared. */
    function Untuned(): (r: Rule)
      ensures !(PlayUsefulCard? || DiscardDispensableCard? || PlayJustHintedIfSingle?) ==> r == this
    {
      match this
      case PlayUsefulCard(_) => PlayUsefulCard(0.0)
      case DiscardDispensableCard(_) => DiscardDispensableCard(0.0)
      case PlayJustHintedIfSingle(_) => PlayJustHintedIfSingle(0.0)
      case _ => this
    }
  }

  /** Every strategy opens by playing a safe card, else discarding a useless one. */
  function Opening(): seq<Rule>
  {
    [PlaySafeCard, DiscardUselessCard]
  }

  /** Every hint rule of the list targets the given player choice. */
  predicate HintsNextPlayer(rules: seq<Rule>, nextPlayer: bool)
  {
    forall i | 0 <= i < |rules| && rules[i].IsHint() :: rules[i].nextPlayer == nextPlayer
  }

  /** The rules with their thresholds cleared. */
  function Untuned(rules: seq<Rule>): (r: seq<Rule>)
    ensures |r| == |rules|
    ensures forall i | 0 <= i < |rules| :: r[i] == rules[i].Untuned()
  {
    seq(|rules|, i requires 0 <= i < |rules| => rules[i].Untuned())
  }

  /** `two_player_strategy1`. */
  function TwoPlayerStrategy1(): (s: seq<Rule>)
    ensures |s| == 15 && s[..2] == Opening() && s[14] == DiscardRandomCard
    ensures HintsNextPlayer(s, false)
  {
    [ PlaySafeCard,
      DiscardUselessCard,
      HintPlayableCard(false),
      PlayUsefulCard(0.7),
      DiscardDispensableCard(0.7),
      HintFullKnowledge(Playable, false),
      HintFullKnowledge(Useful, false),
      HintFullKnowledge(Dispensable, false),
      HintFullKnowledge(Useless, false),
      HintMostInformation(false),
      PlayUsefulCard(0.5),
      DiscardDispensableCard(0.5),
      HintUnknown(false),
      DiscardOldestUnhintedCard,
      DiscardRandomCard ]
  }

  /** `two_player_strategy2`. */
  function TwoPlayerStrategy2(): (s: seq<Rule>)
    ensures |s| == 15 && s[..2] == Opening() && s[14] == DiscardRandomCard
    ensures HintsNextPlayer(s, false)
  {
    [ PlaySafeCard,
      DiscardUselessCard,
      HintPlayableCard(false),
      PlayUsefulCard(0.8),
      DiscardDispensableCard(0.8),
      HintFullKnowledge(Playable, false),
      HintFullKnowledge(Useful, false),
      HintFullKnowledge(Dispensable, false),
      HintFullKnowledge(Useless, false),
      HintMostInformation(false),
      PlayUsefulCard(0.4),
      DiscardDispensableCard(0.4),
      DiscardOldestUnhintedCard,
      HintUnknown(false),
      DiscardRandomCard ]
  }

  /** The two two-player strategies differ only in their thresholds and in
      the order of `HintUnknown` and `DiscardOldestUnhintedCard`: with the
      thresholds cleared and those two rules swapped they coincide, and they
      hold the same rules. */
  lemma TwoPlayerStrategiesDiffer()
    ensures var s1 := Untuned(TwoPlayerStrategy1());
            var s2 := Untuned(TwoPlayerStrategy2());
            s1[..12] + [s1[13], s1[12]] + s1[14..] == s2
    ensures multiset(Untuned(TwoPlayerStrategy1())) == multiset(Untuned(TwoPlayerStrategy2()))
    ensures TwoPlayerStrategy1()[3].threshold == 0.7 && TwoPlayerStrategy2()[3].threshold == 0.8
    ensures TwoPlayerStrategy1()[10].threshold == 0.5 && TwoPlayerStrategy2()[10].threshold == 0.4
  {
    var s1 := Untuned(TwoPlayerStrategy1());
    var s2 := Untuned(TwoPlayerStrategy2());
    assert s1[..12] + [s1[13], s1[12]] + s1[14..] == s2;
    assert s1 == s1[..12] + [s1[12], s1[13]] + s1[14..];
  }

  /** `just_hinted_strategy`. */
  function JustHintedStrategy(): (s: seq<Rule>)
    ensures |s| == 15 && s[..2] == Opening() && s[14] == DiscardRandomCard
    ensures HintsNextPlayer(s, false)
  {
    [ PlaySafeCard,
      DiscardUselessCard,
      HintPlayableCard(false),
      PlayJustHintedIfSingle(0.6),
      DiscardDispensableCard(0.8),
      HintFullKnowledge(Playable, false),
      HintFullKnowledge(Useful, false),
      HintFullKnowledge(Dispensable, false),
      HintFullKnowledge(Useless, false),
      HintCritical(false),
      PlayUsefulCard(0.4),
      DiscardDispensableCard(0.4),
      DiscardOldestUnhintedCard,
      HintUnknown(false),
      DiscardRandomCard ]
  }

  /** The hints `my_if_strategy` tries, in order, when hints are plentiful,
      and again near the end of the list. */
  function HintBlock(): (s: seq<Rule>)
    ensures |s| == 6 && forall i | 0 <= i < 6 :: s[i].IsHint() && s[i].nextPlayer
  {
    [ HintFullKnowledge(Playable, true),
      HintFullKnowledge(Useless, true),
      HintPlayableCard(true),
      HintFullKnowledge(Useful, true),
      HintUsefulCard(true),
      HintMostInformation(true) ]
  }

  /** The block `my_if_strategy` puts after the opening: the hint block
      while fewer than six blue tokens are used, a last `HintCritical` at
      exactly seven, nothing otherwise. */
  function BlueBlock(usedBlueToken: int): seq<Rule>
  {
    if usedBlueToken < 6 then HintBlock()
    else if usedBlueToken == 7 then [HintCritical(true)]
    else []
  }

  /** The play and discard rules every `my_if_strategy` list holds. */
  function MiddleBlock(): seq<Rule>
  {
    [ PlayJustHintedIfSingle(0.6),
      PlayUsefulCard(0.6),
      DiscardDispensableCard(0.8),
      DiscardOldestUnhintedCard ]
  }

  /** The riskier play kept only while no red token is used. */
  function RedBlock(usedRedToken: int): seq<Rule>
  {
    if usedRedToken == 0 then [PlayUsefulCard(0.5)] else []
  }

  /** The closing hints and discard of every `my_if_strategy` list. */
  function ClosingBlock(): seq<Rule>
  {
    HintBlock() + [DiscardOldestUnhintedCard]
  }

  /** `my_if_strategy`, given the agent's used blue (hint) and red (error)
      tokens. */
  function MyIfStrategy(usedBlueToken: int, usedRedToken: int): (s: seq<Rule>)
    ensures |s| == 13 + (if usedBlueToken < 6 then 6 else if usedBlueToken == 7 then 1 else 0)
                      + (if usedRedToken == 0 then 1 else 0)
    ensures s[..2] == Opening() && s[|s| - 1] == DiscardOldestUnhintedCard
  {
    var s := Opening() + BlueBlock(usedBlueToken) + MiddleBlock() + RedBlock(usedRedToken) + ClosingBlock();
    assert s[..2] == Opening();
    s
  }

  /** Every hint of `my_if_strategy` goes to the next player. */
  lemma MyIfStrategyHintsNext(usedBlueToken: int, usedRedToken: int)
    ensures HintsNextPlayer(MyIfStrategy(usedBlueToken, usedRedToken), true)
  {
    var s := MyIfStrategy(usedBlueToken, usedRedToken);
    var k := |Opening() + BlueBlock(usedBlueToken) + MiddleBlock() + RedBlock(usedRedToken)|;
    forall i | 0 <= i < |s| && s[i].IsHint() ensures s[i].nextPlayer {
      if 2 <= i < 2 + |BlueBlock(usedBlueToken)| && usedBlueToken < 6 {
        assert s[i] == HintBlock()[i - 2];
      } else if k <= i < k + 6 {
        assert s[i] == HintBlock()[i - k];
      }
    }
  }

  /** `HintCritical` is in `my_if_strategy` exactly at seven used blue tokens. */
  lemma MyIfStrategyCritical(usedBlueToken: int, usedRedToken: int)
    ensures HintCritical(true) in MyIfStrategy(usedBlueToken, usedRedToken) <==> usedBlueToken == 7
  {
    var head := Opening() + BlueBlock(usedBlueToken);
    var tail := MiddleBlock() + RedBlock(usedRedToken) + ClosingBlock();
    assert MyIfStrategy(usedBlueToken, usedRedToken) == head + tail;
    var critical := HintCritical(true);
    assert critical !in HintBlock() && critical !in Opening() && critical !in tail;
    assert critical in head <==> usedBlueToken == 7;
  }

  /** The riskier `PlayUsefulCard(0.5)` is in `my_if_strategy` exactly when
      no red token is used. */
  lemma MyIfStrategyRisky(usedBlueToken: int, usedRedToken: int)
    ensures PlayUsefulCard(0.5) in MyIfStrategy(usedBlueToken, usedRedToken) <==> usedRedToken == 0
  {
    var head := Opening() + BlueBlock(usedBlueToken) + MiddleBlock();
    var red := RedBlock(usedRedToken);
    assert MyIfStrategy(usedBlueToken, usedRedToken) == head + red + ClosingBlock();
    var risky := PlayUsefulCard(0.5);
    assert risky !in HintBlock() && risky !in head && risky !in ClosingBlock();
    assert risky in red <==> usedRedToken == 0;
  }

  /** The playable full-knowledge hint appears twice in `my_if_strategy`
      exactly when fewer than six blue tokens are used, once otherwise. */
  lemma MyIfStrategyPlayableHints(usedBlueToken: int, usedRedToken: int)
    ensures multiset(MyIfStrategy(usedBlueToken, usedRedToken))[HintFullKnowledge(Playable, true)]
            == (if usedBlueToken < 6 then 2 else 1)
  {
    var playable := HintFullKnowledge(Playable, true);
    BlocksHoldPlayable(usedBlueToken, usedRedToken);
    CountOfConcatenation(Opening(), BlueBlock(usedBlueToken), MiddleBlock(), RedBlock(usedRedToken),
                         ClosingBlock(), playable);
  }

  /** How often each block of `my_if_strategy` holds the playable
      full-knowledge hint. */
  lemma BlocksHoldPlayable(usedBlueToken: int, usedRedToken: int)
    ensures var playable := HintFullKnowledge(Playable, true);
            && multiset(Opening())[playable] == 0
            && multiset(BlueBlock(usedBlueToken))[playable] == (if usedBlueToken < 6 then 1 else 0)
            && multiset(MiddleBlock())[playable] == 0
            && multiset(RedBlock(usedRedToken))[playable] == 0
            && multiset(ClosingBlock())[playable] == 1
  {
    var playable := HintFullKnowledge(Playable, true);
    HintBlockHoldsPlayableOnce();
    Absent(Opening(), playable);
    Absent(MiddleBlock(), playable);
    Absent(RedBlock(usedRedToken), playable);
    Absent([DiscardOldestUnhintedCard], playable);
    if usedBlueToken >= 6 {
      Absent(BlueBlock(usedBlueToken), playable);
    }
    assert multiset(ClosingBlock()) == multiset(HintBlock()) + multiset([DiscardOldestUnhintedCard]);
  }

  lemma HintBlockHoldsPlayableOnce()
    ensures multiset(HintBlock())[HintFullKnowledge(Playable, true)] == 1
  {
    var playable := HintFullKnowledge(Playable, true);
    var rest := HintBlock()[1..];
    assert HintBlock() == [playable] + rest;
    Absent(rest, playable);
    assert multiset(HintBlock()) == multiset([playable]) + multiset(rest);
  }

  lemma Absent(s: seq<Rule>, x: Rule)
    requires x !in s
    ensures multiset(s)[x] == 0
  {
  }

  /** Occurrences in a concatenation of five lists add up. */
  lemma CountOfConcatenation<T>(a: seq<T>, b: seq<T>, c: seq<T>, d: seq<T>, e: seq<T>, x: T)
    ensures multiset(a + b + c + d + e)[x] == multiset(a)[x] + multiset(b)[x] + multiset(c)[x] + multiset(d)[x] + multiset(e)[x]
  {
    assert multiset(a + b + c + d + e) == multiset(a) + multiset(b) + multiset(c) + multiset(d) + multiset(e);
  }

  /** Blue tokens only matter through the three cases: six and eight or more
      give the same list, and below six the hint block is inserted right
      after the opening of that list. */
  lemma MyIfStrategyBlueCases(usedBlueToken: int, usedRedToken: int)
    ensures usedBlueToken >= 8 ==> MyIfStrategy(usedBlueToken, usedRedToken) == MyIfStrategy(6, usedRedToken)
    ensures usedBlueToken < 6 ==>
              MyIfStrategy(usedBlueToken, usedRedToken)
              == Opening() + HintBlock() + MyIfStrategy(6, usedRedToken)[2..]
    ensures usedBlueToken == 7 ==>
              MyIfStrategy(usedBlueToken, usedRedToken)
              == Opening() + [HintCritical(true)] + MyIfStrategy(6, usedRedToken)[2..]
  {
    var rest := MiddleBlock() + RedBlock(usedRedToken) + ClosingBlock();
    assert MyIfStrategy(6, usedRedToken) == Opening() + rest;
    assert MyIfStrategy(6, usedRedToken)[2..] == rest;
    assert MyIfStrategy(usedBlueToken, usedRedToken) == Opening() + BlueBlock(usedBlueToken) + rest;
  }

  /** With no red token used, the list is the one for a used red token with
      `PlayUsefulCard(0.5)` inserted before the closing seven rules. */
  lemma MyIfStrategyRedCase(usedBlueToken: int, usedRedToken: int)
    requires usedRedToken != 0
    ensures var s := MyIfStrategy(usedBlueToken, usedRedToken);
            MyIfStrategy(usedBlueToken, 0) == s[..|s| - 7] + [PlayUsefulCard(0.5)] + s[|s| - 7..]
  {
    var head := Opening() + BlueBlock(usedBlueToken) + MiddleBlock();
    var s := MyIfStrategy(usedBlueToken, usedRedToken);
    assert s == head + ClosingBlock();
    assert s[..|s| - 7] == head && s[|s| - 7..] == ClosingBlock();
    assert MyIfStrategy(usedBlueToken, 0) == head + [PlayUsefulCard(0.5)] + ClosingBlock();
  }

  /** `most_info_strategy`. */
  function MostInfoStrategy(): (s: seq<Rule>)
    ensures |s| == 11 && s[..2] == Opening() && s[10] == DiscardRandomCard
    ensures HintsNextPlayer(s, false)
  {
    [ PlaySafeCard,
      DiscardUselessCard,
      HintPlayableCard(false),
      PlayUsefulCard(0.7),
      DiscardDispensableCard(0.7),
      HintMostInformation(false),
      PlayUsefulCard(0.4),
      DiscardDispensableCard(0.5),
      DiscardOldestUnhintedCard,
      HintUnknown(false),
      DiscardRandomCard ]
  }

  /** `most_info_strategy2`: more than four used blue tokens insert the
      playable and useless full-knowledge hints after the fifth rule. */
  function MostInfoStrategy2(usedBlueToken: int): (s: seq<Rule>)
    ensures |s| == (if usedBlueToken > 4 then 13 else 11)
    ensures s[..2] == Opening() && s[|s| - 1] == DiscardRandomCard
    ensures HintsNextPlayer(s, false)
  {
    var head := [ PlaySafeCard,
                  DiscardUselessCard,
                  HintPlayableCard(false),
                  PlayUsefulCard(0.7),
                  DiscardDispensableCard(0.7) ];
    var extra := if usedBlueToken > 4 then [HintFullKnowledge(Playable, false), HintFullKnowledge(Useless, false)]
                 else [];
    var tail := [ HintMostInformation(false),
                  PlayUsefulCard(0.4),
                  DiscardDispensableCard(0.5),
                  DiscardOldestUnhintedCard,
                  HintUnknown(false),
                  DiscardRandomCard ];
    var s := head + extra + tail;
    assert s[..2] == Opening();
    s
  }

  /** With at most four blue tokens used the second most-information
      strategy is the first one; above four it is the first one with the
      two full-knowledge hints inserted after the fifth rule. */
  lemma MostInfoStrategiesAgree(usedBlueToken: int)
    ensures usedBlueToken <= 4 ==> MostInfoStrategy2(usedBlueToken) == MostInfoStrategy()
    ensures usedBlueToken > 4 ==>
              MostInfoStrategy2(usedBlueToken)
              == MostInfoStrategy()[..5] + [HintFullKnowledge(Playable, false), HintFullKnowledge(Useless, false)]
                 + MostInfoStrategy()[5..]
  {
  }
}
