/** A uniform belief over the still-possible colours and values of a card
    (client_state/my_card.py). */
module MyCardBelief {
  import opened Wrappers
  import opened CardInfo

  datatype MyCard = MyCard(possibleValues: set<Value>, possibleColors: set<Color>)

  /** `MyCard(...)`: an absent argument stands for the full set. */
  function NewMyCard(values: Option<set<Value>>, colors: Option<set<Color>>): (card: MyCard)
    ensures values.None? ==> forall v: Value :: v in card.possibleValues
    ensures colors.None? ==> forall c: Color :: c in card.possibleColors
    ensures values.Some? ==> card.possibleValues == values.value
    ensures colors.Some? ==> card.possibleColors == colors.value
  {
    MyCard(if values.Some? then values.value else AllValues(),
           if colors.Some? then colors.value else AllColors())
  }

  /** The reference probability of landing in `s` when drawing uniformly
      from `possible`: the share of `possible` that `s` covers, and 0 when
      nothing is possible. */
  function Share<T>(s: set<T>, possible: set<T>): real
  {
    if |possible| == 0 then 0.0 else |s * possible| as real / |possible| as real
  }

  lemma SubsetCardinality<T>(a: set<T>, b: set<T>)
    requires a <= b
    ensures |a| <= |b|
  {
    assert b == a + (b - a);
  }

  /** A share is a probability. */
  lemma ShareBounds<T>(s: set<T>, possible: set<T>)
    ensures 0.0 <= Share(s, possible) <= 1.0
  {
    SubsetCardinality(s * possible, possible);
  }

  /** Enlarging the queried set never lowers its probability. */
  lemma ShareMonotone<T>(s: set<T>, t: set<T>, possible: set<T>)
    requires s <= t
    ensures Share(s, possible) <= Share(t, possible)
  {
    SubsetCardinality(s * possible, t * possible);
    if |possible| != 0 {
      DivideMonotone(|s * possible| as real, |t * possible| as real, |possible| as real);
    }
  }

  lemma DivideMonotone(a: real, b: real, n: real)
    requires a <= b && 0.0 < n
    ensures a / n <= b / n
  {
    assert b / n - a / n == (b - a) / n;
  }

  /** A query covering every possibility is certain. */
  lemma ShareFull<T>(s: set<T>, possible: set<T>)
    requires possible != {} && possible <= s
    ensures Share(s, possible) == 1.0
  {
    assert s * possible == possible;
  }

  /** The chance of one element under a uniform draw from `possible`:
      zero when it is impossible, and the division happens only once the
      element is known to be possible, so `possible` is not empty. */
  function ElementProbability<T>(x: T, possible: set<T>): (p: real)
    ensures p == Share({x}, possible)
  {
    if x !in possible then
      assert {x} * possible == {};
      0.0
    else
      assert {x} * possible == {x};
      1.0 / |possible| as real
  }

  /** `single_choice_probability`: fails when neither attribute is given;
      otherwise the chance of the given value, of the given colour, or the
      product of both. */
  function SingleChoiceProbability(card: MyCard, value: Option<Value>, color: Option<Color>): (r: Result<real>)
    ensures r.Err? <==> value.None? && color.None?
    ensures value.Some? && color.None? ==> r.Ok? && r.value == Share({value.value}, card.possibleValues)
    ensures value.None? && color.Some? ==> r.Ok? && r.value == Share({color.value}, card.possibleColors)
    ensures value.Some? && color.Some? ==>
              r.Ok? && r.value == Share({value.value}, card.possibleValues) * Share({color.value}, card.possibleColors)
  {
    if value.None? && color.None? then
      Err("A value or a color must be provided")
    else if value.Some? then
      var valueProbability := ElementProbability(value.value, card.possibleValues);
      if color.Some? then
        var colorProbability := ElementProbability(color.value, card.possibleColors);
        Ok(valueProbability * colorProbability)
      else
        Ok(valueProbability)
    else
      Ok(ElementProbability(color.value, card.possibleColors))
  }

  /** Removing an element splits a set's cardinality into that element's
      membership and the rest. */
  lemma CardinalitySplit<T>(s: set<T>, x: T)
    ensures |s| == |s - {x}| + (if x in s then 1 else 0)
  {
    if x in s {
      assert s == (s - {x}) + {x};
    } else {
      assert s - {x} == s;
    }
  }

  /** A set of values has as many elements as there are values in it. */
  lemma {:induction false} ValueSetSize(s: set<Value>)
    ensures |s| == (if One in s then 1 else 0) + (if Two in s then 1 else 0) + (if Three in s then 1 else 0)
                   + (if Four in s then 1 else 0) + (if Five in s then 1 else 0)
  {
    var s1 := s - {One};
    var s2 := s1 - {Two};
    var s3 := s2 - {Three};
    var s4 := s3 - {Four};
    var s5 := s4 - {Five};
    CardinalitySplit(s, One);
    CardinalitySplit(s1, Two);
    CardinalitySplit(s2, Three);
    CardinalitySplit(s3, Four);
    CardinalitySplit(s4, Five);
    assert s5 == {} by {
      forall v | v in s5 ensures false {
        ValueCases(v);
      }
    }
  }

  function Indicator(b: bool): real
  {
    if b then 1.0 else 0.0
  }

  lemma SingleValueTerm(card: MyCard, v: Value)
    requires card.possibleValues != {}
    ensures SingleChoiceProbability(card, Some(v), None).value
            == Indicator(v in card.possibleValues) / |card.possibleValues| as real
  {
    var p := card.possibleValues;
    if v in p {
      assert {v} * p == {v};
    } else {
      assert {v} * p == {};
    }
  }

  /** The per-value probabilities of a card with at least one possible value
      add up to exactly one. */
  lemma SingleValueProbabilitiesSumToOne(card: MyCard)
    requires card.possibleValues != {}
    ensures SingleChoiceProbability(card, Some(One), None).value
            + SingleChoiceProbability(card, Some(Two), None).value
            + SingleChoiceProbability(card, Some(Three), None).value
            + SingleChoiceProbability(card, Some(Four), None).value
            + SingleChoiceProbability(card, Some(Five), None).value == 1.0
  {
    var p := card.possibleValues;
    ValueSetSize(p);
    SingleValueTerm(card, One);
    SingleValueTerm(card, Two);
    SingleValueTerm(card, Three);
    SingleValueTerm(card, Four);
    SingleValueTerm(card, Five);
    SharesOfWhole(SingleChoiceProbability(card, Some(One), None).value,
                  SingleChoiceProbability(card, Some(Two), None).value,
                  SingleChoiceProbability(card, Some(Three), None).value,
                  SingleChoiceProbability(card, Some(Four), None).value,
                  SingleChoiceProbability(card, Some(Five), None).value,
                  Indicator(One in p), Indicator(Two in p), Indicator(Three in p),
                  Indicator(Four in p), Indicator(Five in p), |p| as real);
  }

  /** The loop behind `colors_probability` and `values_probability`: adds
      `1 / |possible|` for every queried element that is still possible.
      The division happens only after membership in `possible` has been
      established, so `possible` is never empty there. */
  method SubsetProbability<T(==)>(s: set<T>, possible: set<T>) returns (probability: real)
    ensures probability == Share(s, possible)
  {
    probability := 0.0;
    var rest := s;
    ghost var seen: set<T> := {};
    while rest != {}
      invariant seen + rest == s && seen !! rest
      invariant probability == (if |possible| == 0 then 0.0 else |seen * possible| as real / |possible| as real)
      decreases |rest|
    {
      var x :| x in rest;
      if x in possible {
        assert (seen + {x}) * possible == (seen * possible) + {x};
        probability := probability + 1.0 / |possible| as real;
      } else {
        assert (seen + {x}) * possible == seen * possible;
      }
      seen := seen + {x};
      rest := rest - {x};
    }
    assert seen == s;
  }

  /** `colors_probability`: fails on a missing set, else the share of the
      possible colours the set covers. */
  method ColorsProbability(card: MyCard, colors: Option<set<Color>>) returns (r: Result<real>)
    ensures r.Err? <==> colors.None?
    ensures colors.Some? ==> r == Ok(Share(colors.value, card.possibleColors))
    ensures colors.Some? ==> 0.0 <= r.value <= 1.0
  {
    if colors.None? {
      return Err("Set of colors cannot be None");
    }
    var p := SubsetProbability(colors.value, card.possibleColors);
    ShareBounds(colors.value, card.possibleColors);
    return Ok(p);
  }

  /** `values_probability`: the same computation over values. */
  method ValuesProbability(card: MyCard, values: Option<set<Value>>) returns (r: Result<real>)
    ensures r.Err? <==> values.None?
    ensures values.Some? ==> r == Ok(Share(values.value, card.possibleValues))
    ensures values.Some? ==> 0.0 <= r.value <= 1.0
  {
    if values.None? {
      return Err("Set of colors cannot be None");
    }
    var p := SubsetProbability(values.value, card.possibleValues);
    ShareBounds(values.value, card.possibleValues);
    return Ok(p);
  }

  /** Querying every colour of a card that still has a possible colour
      gives certainty. */
  lemma AllColorsCertain(card: MyCard)
    requires card.possibleColors != {}
    ensures Share(AllColors(), card.possibleColors) == 1.0
  {
    ShareFull(AllColors(), card.possibleColors);
  }
}
