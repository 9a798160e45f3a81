/** The deck domain: five colours, five values, and the fixed deck
    composition (client_state/card_info.py). */
module CardInfo {
  import opened Wrappers

  /** Card values; `Num` is the enumeration's numeric payload. */
  datatype Value = One | Two | Three | Four | Five {

    function Num(): (n: int)
      ensures 1 <= n <= 5
    {
      match this
      case One => 1
      case Two => 2
      case Three => 3
      case Four => 4
      case Five => 5
    }
  }

  /** Card colours; `Code` is the enumeration's numeric payload. */
  datatype Color = White | Red | Blue | Yellow | Green {

    function Code(): (n: int)
      ensures 0 <= n <= 4
    {
      match this
      case White => 0
      case Red => 1
      case Blue => 2
      case Yellow => 3
      case Green => 4
    }
  }

  lemma ValueCases(v: Value)
    ensures v == One || v == Two || v == Three || v == Four || v == Five
  {
  }

  lemma ColorCases(c: Color)
    ensures c == White || c == Red || c == Blue || c == Yellow || c == Green
  {
  }

  /** A card identity: the key under which cards are counted. */
  type Key = (Color, Value)

  const DeckSize: int := 50

  /** `Value.getValues()`: every value. */
  function AllValues(): (s: set<Value>)
    ensures forall v: Value :: v in s
    ensures |s| == 5
  {
    var s := {One, Two, Three, Four, Five};
    assert forall v: Value :: v in s by {
      forall v: Value ensures v in s {
        ValueCases(v);
      }
    }
    s
  }

  /** `Color.getColors()`: every colour. */
  function AllColors(): (s: set<Color>)
    ensures forall c: Color :: c in s
    ensures |s| == 5
  {
    var s := {White, Red, Blue, Yellow, Green};
    assert forall c: Color :: c in s by {
      forall c: Color ensures c in s {
        ColorCases(c);
      }
    }
    s
  }

  /** The enumerations' payloads: values are exactly 1..5, colours 0..4. */
  lemma EnumerationPayloads()
    ensures (set v | v in AllValues() :: v.Num()) == {1, 2, 3, 4, 5}
    ensures (set c | c in AllColors() :: c.Code()) == {0, 1, 2, 3, 4}
  {
    assert One.Num() == 1 && Two.Num() == 2 && Three.Num() == 3 && Four.Num() == 4 && Five.Num() == 5;
    assert White.Code() == 0 && Red.Code() == 1 && Blue.Code() == 2 && Yellow.Code() == 3 && Green.Code() == 4;
  }

  /** Every card identity. */
  function AllKeys(): (s: set<Key>)
    ensures forall k: Key :: k in s
  {
    var s := set c, v | c in AllColors() && v in AllValues() :: (c, v);
    assert forall k: Key :: k in s by {
      forall k: Key ensures k in s {
        assert k.0 in AllColors() && k.1 in AllValues();
      }
    }
    s
  }

  /** `Value(n)`: the enumeration lookup by payload, failing outside 1..5. */
  function ValueOf(n: int): (r: Option<Value>)
    ensures r.Some? <==> 1 <= n <= 5
    ensures r.Some? ==> r.value.Num() == n
  {
    if n == 1 then Some(One)
    else if n == 2 then Some(Two)
    else if n == 3 then Some(Three)
    else if n == 4 then Some(Four)
    else if n == 5 then Some(Five)
    else None
  }

  /** `Color(n)`: the enumeration lookup by payload, failing outside 0..4. */
  function ColorOf(n: int): (r: Option<Color>)
    ensures r.Some? <==> 0 <= n <= 4
    ensures r.Some? ==> r.value.Code() == n
  {
    if n == 0 then Some(White)
    else if n == 1 then Some(Red)
    else if n == 2 then Some(Blue)
    else if n == 3 then Some(Yellow)
    else if n == 4 then Some(Green)
    else None
  }

  lemma PayloadRoundTrip(v: Value, c: Color)
    ensures ValueOf(v.Num()) == Some(v)
    ensures ColorOf(c.Code()) == Some(c)
  {
  }

  /** The lower-case name the server uses for a colour. */
  function LowerName(c: Color): string
  {
    match c
    case White => "white"
    case Red => "red"
    case Blue => "blue"
    case Yellow => "yellow"
    case Green => "green"
  }

  /** `Color.fromStringColor`: parses one of the five lower-case names and
      fails on any other string. */
  function FromStringColor(name: string): (r: Result<Color>)
    ensures r.Ok? <==> name in {"white", "red", "green", "blue", "yellow"}
    ensures r.Ok? ==> LowerName(r.value) == name
  {
    if name == "white" then Ok(White)
    else if name == "red" then Ok(Red)
    else if name == "green" then Ok(Green)
    else if name == "blue" then Ok(Blue)
    else if name == "yellow" then Ok(Yellow)
    else Err("Unknown card color")
  }

  /** Parsing inverts naming, so the parser is injective on the names it accepts. */
  lemma FromStringColorInjective(a: string, b: string)
    requires FromStringColor(a).Ok? && FromStringColor(b).Ok?
    requires FromStringColor(a).value == FromStringColor(b).value
    ensures a == b
  {
  }

  lemma FromStringColorOfName(c: Color)
    ensures FromStringColor(LowerName(c)) == Ok(c)
  {
  }

  /** `Value.__str__`: the decimal digit of the payload. */
  function ValueString(v: Value): (s: string)
    ensures |s| == 1 && '1' <= s[0] <= '5'
    ensures (s[0] as int) - ('0' as int) == v.Num()
  {
    match v
    case One => "1"
    case Two => "2"
    case Three => "3"
    case Four => "4"
    case Five => "5"
  }

  /** `DECK_VALUE_STRUCTURE`: copies of each value in the whole deck. */
  function ValueMultiplicity(v: Value): nat
  {
    match v
    case One => 15
    case Two => 10
    case Three => 10
    case Four => 10
    case Five => 5
  }

  /** `DECK_COLOR_STRUCTURE`: copies of each colour in the whole deck. */
  function ColorMultiplicity(c: Color): nat
  {
    10
  }

  /** Copies of one (colour, value) card: three ones, two of 2..4, one five. */
  function CopiesPerColor(v: Value): nat
  {
    match v
    case One => 3
    case Five => 1
    case _ => 2
  }

  /** The two tables describe the same 50-card deck: each sums to the deck
      size, and each value's count is its per-colour count times five. */
  lemma DeckStructure()
    ensures ValueMultiplicity(One) + ValueMultiplicity(Two) + ValueMultiplicity(Three)
            + ValueMultiplicity(Four) + ValueMultiplicity(Five) == DeckSize
    ensures ColorMultiplicity(White) + ColorMultiplicity(Red) + ColorMultiplicity(Blue)
            + ColorMultiplicity(Yellow) + ColorMultiplicity(Green) == DeckSize
    ensures forall v: Value :: ValueMultiplicity(v) == |AllColors()| * CopiesPerColor(v)
    ensures CopiesPerColor(One) + CopiesPerColor(Two) + CopiesPerColor(Three) + CopiesPerColor(Four)
            + CopiesPerColor(Five) == ColorMultiplicity(White)
  {
  }

  /** Total of a per-colour count table; absent colours count 0. */
  function CountAt<K>(m: map<K, nat>, k: K): nat
  {
    if k in m then m[k] else 0
  }

  function SumOverColors(m: map<Color, nat>): nat
  {
    CountAt(m, White) + CountAt(m, Red) + CountAt(m, Blue) + CountAt(m, Yellow) + CountAt(m, Green)
  }

  function SumOverValues(m: map<Value, nat>): nat
  {
    CountAt(m, One) + CountAt(m, Two) + CountAt(m, Three) + CountAt(m, Four) + CountAt(m, Five)
  }

  /** Probability mass of a distribution; absent keys carry no mass. */
  function MassAt<K>(m: map<K, real>, k: K): real
  {
    if k in m then m[k] else 0.0
  }

  function ColorMass(m: map<Color, real>): real
  {
    MassAt(m, White) + MassAt(m, Red) + MassAt(m, Blue) + MassAt(m, Yellow) + MassAt(m, Green)
  }

  function ValueMass(m: map<Value, real>): real
  {
    MassAt(m, One) + MassAt(m, Two) + MassAt(m, Three) + MassAt(m, Four) + MassAt(m, Five)
  }

  /** Five shares of one whole, each over the same denominator, add up to
      the whole. */
  lemma SharesOfWhole(q1: real, q2: real, q3: real, q4: real, q5: real,
                      k1: real, k2: real, k3: real, k4: real, k5: real, n: real)
    requires n != 0.0 && k1 + k2 + k3 + k4 + k5 == n
    requires q1 == k1 / n && q2 == k2 / n && q3 == k3 / n && q4 == k4 / n && q5 == k5 / n
    ensures q1 + q2 + q3 + q4 + q5 == 1.0
  {
    assert k1 / n + k2 / n + k3 / n + k4 / n + k5 / n == (k1 + k2 + k3 + k4 + k5) / n;
  }
}
