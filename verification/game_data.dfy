/** The server's records as the client sees them. The wire format and its
    (de)serialisation belong to the game server and are not modelled; only
    the fields the client reads are kept. */
module GameData {
  import opened CardInfo

  /** A card as reported by the server. */
  datatype Card = Card(value: Value, color: Color)

  /** A player of the snapshot; the agent's own hand is reported empty. */
  datatype Player = Player(name: string, hand: seq<Card>)

  /** `ServerGameStateData`. `tableCards` lists the firework stacks under the
      server's lower-case colour names, in dictionary order. */
  datatype GameState = GameState(
    players: seq<Player>,
    currentPlayer: string,
    usedNoteTokens: int,
    usedStormTokens: int,
    tableCards: seq<(string, seq<Card>)>,
    discardPile: seq<Card>,
    handSize: int)

  /** The kinds of message the server sends to a client. */
  datatype ServerMessage =
    | ServerPlayerConnectionOk
    | ServerPlayerStartRequestAccepted(acceptedStartRequests: int, connectedPlayers: int)
    | ServerStartGameData
    | ServerGameStateData(state: GameState)
    | ServerActionInvalid(message: string)
    | ServerInvalidDataReceived(data: string)
    | ServerGameOver(score: int)
    | ServerHintData(source: string, destination: string, hintType: string, hintValue: int,
                     positions: seq<int>, player: string)
    | ServerActionValid(action: string, lastPlayer: string, cardHandIndex: int, card: Card,
                        handLength: int, player: string)
    | ServerPlayerMoveOk(lastPlayer: string, cardHandIndex: int, card: Card, handLength: int, player: string)
    | ServerPlayerThunderStrike(lastPlayer: string, cardHandIndex: int, card: Card, handLength: int,
                                player: string)

  /** The requests a client sends. */
  datatype ClientRequest =
    | ClientHintData(sender: string, destination: string, hintType: string, hintValue: int)
    | ClientPlayerPlayCardRequest(sender: string, handCardOrdered: int)
    | ClientPlayerDiscardCardRequest(sender: string, handCardOrdered: int)
}
