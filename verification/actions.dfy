/** The moves a player makes and how the client reads them back from the
    server (actions/actions.py). */
module Actions {
  import opened Wrappers
  import opened CardInfo
  import opened GameData
  import opened PlayerHand

  /** What a hint names: one colour or one value. */
  datatype HintAttribute = ColorHint(color: Color) | ValueHint(value: Value)

  /** `Hint`: a hint from one player to another. */
  datatype Hint = Hint(sourcePlayer: string, destinationPlayer: string, hint: HintAttribute)

  /** `PlayCard` and `DiscardCard`: the player and the hand position. */
  datatype PlayCard = PlayCard(sourcePlayer: string, cardIndex: int)
  datatype DiscardCard = DiscardCard(sourcePlayer: string, cardIndex: int)

  /** The card a move made its player draw: a card a teammate can see, a new
      belief object for one of the agent's own cards, or nothing. */
  datatype DrawnCard = NoCard | SeenCard(seen: ObservableCard) | OwnCard(own: HiddenCard)

  /** `HintResult`: a hint as reported by the server, with the positions it
      touched and the player whose turn follows. */
  datatype HintResult = HintResult(played: Hint, positions: seq<int>, currentPlayer: string)

  /** The two verdicts on a played card. */
  datatype MoveOutcome = NiceMove | BadMove

  /** `PlayCardResult`. */
  datatype PlayCardResult = PlayCardResult(played: PlayCard, result: MoveOutcome, currentPlayer: string,
                                           playedCard: ObservableCard, handSize: int, cardDrawn: DrawnCard)

  /** `DiscardCardResult`. */
  datatype DiscardCardResult = DiscardCardResult(played: DiscardCard, currentPlayer: string,
                                                 discardedCard: ObservableCard, handSize: int, cardDrawn: DrawnCard)

  /** An observable card freshly built from a server card: no hint flags. */
  function Observed(card: Card): (r: ObservableCard)
    ensures CardOf(r) == card && !r.isColorHinted && !r.isValueHinted
  {
    ObservableCard(card.value, card.color, false, false)
  }

  /** `Hint.client_to_server_data`: a colour hint travels as type "color", a
      value hint as type "value", each with the enumeration's payload. */
  function HintRequest(h: Hint): (r: ClientRequest)
    ensures r.ClientHintData? && r.sender == h.sourcePlayer && r.destination == h.destinationPlayer
    ensures r.hintType == "color" <==> h.hint.ColorHint?
    ensures r.hintType == "value" <==> h.hint.ValueHint?
    ensures h.hint.ColorHint? ==> ColorOf(r.hintValue) == Some(h.hint.color)
    ensures h.hint.ValueHint? ==> ValueOf(r.hintValue) == Some(h.hint.value)
  {
    match h.hint
    case ColorHint(c) => ClientHintData(h.sourcePlayer, h.destinationPlayer, "color", c.Code())
    case ValueHint(v) => ClientHintData(h.sourcePlayer, h.destinationPlayer, "value", v.Num())
  }

  /** `HintResult(server_hint)`: fails on any message but a hint, on a type
      other than "color" or "value", and on a payload outside the named
      enumeration. */
  function ParseHintResult(msg: ServerMessage): (r: Result<HintResult>)
    ensures r.Ok? <==> (msg.ServerHintData? &&
                        ((msg.hintType == "color" && 0 <= msg.hintValue <= 4) ||
                         (msg.hintType == "value" && 1 <= msg.hintValue <= 5)))
    ensures r.Ok? ==> r.value.played.sourcePlayer == msg.source
                      && r.value.played.destinationPlayer == msg.destination
                      && r.value.positions == msg.positions
                      && r.value.currentPlayer == msg.player
    ensures r.Ok? ==> (r.value.played.hint.ColorHint? <==> msg.hintType == "color")
    ensures r.Ok? && r.value.played.hint.ColorHint? ==> r.value.played.hint.color.Code() == msg.hintValue
    ensures r.Ok? && r.value.played.hint.ValueHint? ==> r.value.played.hint.value.Num() == msg.hintValue
  {
    if !msg.ServerHintData? then
      Err("not a hint message")
    else
      var hint :-
        if msg.hintType == "color" then
          match ColorOf(msg.hintValue)
          case Some(c) => Ok(ColorHint(c))
          case None => Err("not a valid Color")
        else if msg.hintType == "value" then
          match ValueOf(msg.hintValue)
          case Some(v) => Ok(ValueHint(v))
          case None => Err("not a valid Value")
        else
          Err("Unknown type");
      Ok(HintResult(Hint(msg.source, msg.destination, hint), msg.positions, msg.player))
  }

  /** The server's echo of a hint request, as delivered to every player. */
  function EchoHint(req: ClientRequest, positions: seq<int>, player: string): ServerMessage
    requires req.ClientHintData?
  {
    ServerHintData(req.sender, req.destination, req.hintType, req.hintValue, positions, player)
  }

  /** Reading back the serialised form of a hint recovers the hint. */
  lemma HintRoundTrip(h: Hint, positions: seq<int>, player: string)
    ensures ParseHintResult(EchoHint(HintRequest(h), positions, player)) == Ok(HintResult(h, positions, player))
  {
    PayloadRoundTrip(if h.hint.ValueHint? then h.hint.value else One,
                     if h.hint.ColorHint? then h.hint.color else White);
  }

  /** Conversely, a hint message the client accepts is exactly the echo of
      the request its parsed hint serialises to. */
  lemma HintResultSerialises(msg: ServerMessage)
    requires ParseHintResult(msg).Ok?
    ensures var parsed := ParseHintResult(msg).value;
            EchoHint(HintRequest(parsed.played), parsed.positions, parsed.currentPlayer) == msg
  {
  }

  /** `PlayCard.client_to_server_data`. */
  function PlayRequest(p: PlayCard): (r: ClientRequest)
    ensures r.ClientPlayerPlayCardRequest?
  {
    ClientPlayerPlayCardRequest(p.sourcePlayer, p.cardIndex)
  }

  /** `DiscardCard.client_to_server_data`. */
  function DiscardRequest(d: DiscardCard): (r: ClientRequest)
    ensures r.ClientPlayerDiscardCardRequest?
  {
    ClientPlayerDiscardCardRequest(d.sourcePlayer, d.cardIndex)
  }

  /** `PlayCardResult(...)`: a successful play is a nice move, a thunder
      strike a bad one, anything else an error; the move is attributed to
      the message's last player and hand position. */
  function ParsePlayCardResult(msg: ServerMessage, drawn: DrawnCard): (r: Result<PlayCardResult>)
    ensures r.Ok? <==> msg.ServerPlayerMoveOk? || msg.ServerPlayerThunderStrike?
    ensures r.Ok? ==> (r.value.result == NiceMove <==> msg.ServerPlayerMoveOk?)
    ensures r.Ok? ==> r.value.played == PlayCard(msg.lastPlayer, msg.cardHandIndex)
                      && r.value.currentPlayer == msg.player
                      && CardOf(r.value.playedCard) == msg.card
                      && r.value.handSize == msg.handLength
                      && r.value.cardDrawn == drawn
  {
    if msg.ServerPlayerMoveOk? then
      Ok(PlayCardResult(PlayCard(msg.lastPlayer, msg.cardHandIndex), NiceMove, msg.player,
                        Observed(msg.card), msg.handLength, drawn))
    else if msg.ServerPlayerThunderStrike? then
      Ok(PlayCardResult(PlayCard(msg.lastPlayer, msg.cardHandIndex), BadMove, msg.player,
                        Observed(msg.card), msg.handLength, drawn))
    else
      Err("Unknown server response")
  }

  /** `DiscardCardResult(...)`: only a valid-action message for a discard is
      accepted. */
  function ParseDiscardCardResult(msg: ServerMessage, drawn: DrawnCard): (r: Result<DiscardCardResult>)
    ensures r.Ok? <==> msg.ServerActionValid? && msg.action == "discard"
    ensures r.Ok? ==> r.value.played == DiscardCard(msg.lastPlayer, msg.cardHandIndex)
                      && r.value.currentPlayer == msg.player
                      && CardOf(r.value.discardedCard) == msg.card
                      && r.value.handSize == msg.handLength
                      && r.value.cardDrawn == drawn
  {
    if !msg.ServerActionValid? || msg.action != "discard" then
      Err("Unknown action")
    else
      Ok(DiscardCardResult(DiscardCard(msg.lastPlayer, msg.cardHandIndex), msg.player,
                           Observed(msg.card), msg.handLength, drawn))
  }

  /** A play request answered by either verdict on the same player and
      position is read back as the move that was requested. */
  lemma PlayRoundTrip(p: PlayCard, card: Card, handLength: int, next: string, success: bool, drawn: DrawnCard)
    ensures var req := PlayRequest(p);
            var msg := if success then ServerPlayerMoveOk(req.sender, req.handCardOrdered, card, handLength, next)
                       else ServerPlayerThunderStrike(req.sender, req.handCardOrdered, card, handLength, next);
            ParsePlayCardResult(msg, drawn).Ok?
            && ParsePlayCardResult(msg, drawn).value.played == p
            && (ParsePlayCardResult(msg, drawn).value.result == NiceMove <==> success)
  {
  }

  /** A discard request confirmed by the server is read back as the discard
      that was requested. */
  lemma DiscardRoundTrip(d: DiscardCard, card: Card, handLength: int, next: string, drawn: DrawnCard)
    ensures var req := DiscardRequest(d);
            var msg := ServerActionValid("discard", req.sender, req.handCardOrdered, card, handLength, next);
            ParseDiscardCardResult(msg, drawn).Ok? && ParseDiscardCardResult(msg, drawn).value.played == d
  {
  }
}
