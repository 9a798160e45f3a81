/** The client's lifecycle and its reading of other players' moves
    (my_client.py). Sockets are abstracted away: what the server sends is a
    parameter, as a message or a sequence of messages. */
module Client {
  import opened Wrappers
  import opened CardInfo
  import opened GameData
  import opened PlayerHand
  import opened Actions
  import Belief

  /** `ClientState`. */
  datatype ClientState = NotConnected | Connected | Lobby | Playing | GameOver

  /** The client's own bookkeeping. `startingHandSize` and `currentPlayer`
      are unset until a game snapshot has been read. */
  datatype ClientData = ClientData(
    playerName: string,
    startingHandSize: Option<int>,
    state: ClientState,
    currentPlayer: Option<string>,
    gameNumber: int,
    currentGame: int)

  /** A move read back from the server. */
  datatype PlayedAction = HintPlayed(hint: HintResult) | PlayPlayed(play: PlayCardResult)
                        | DiscardPlayed(discard: DiscardCardResult)

  /** What holds of every client the lifecycle can produce: the game
      counter starts at 0 and only moves on while below the number of
      games, and a playing client has read a snapshot, so it knows its
      starting hand size and whose turn it is. */
  predicate Reachable(c: ClientData)
  {
    && 0 <= c.currentGame
    && (c.currentGame == 0 || c.currentGame < c.gameNumber)
    && (c.state == Playing ==> c.startingHandSize.Some? && c.currentPlayer.Some?)
  }

  /** `Client(...)` before it connects. */
  function NewClient(playerName: string, gameNumber: int): (c: ClientData)
    ensures c.state == NotConnected && c.currentGame == 0 && c.gameNumber == gameNumber
    ensures c.startingHandSize.None? && c.currentPlayer.None?
    ensures Reachable(c)
  {
    ClientData(playerName, None, NotConnected, None, gameNumber, 0)
  }

  /** The answer check of `__connect_to_server`: only a connection
      acknowledgement connects. */
  function Connect(c: ClientData, response: ServerMessage): (r: Result<ClientData>)
    ensures r.Ok? <==> response.ServerPlayerConnectionOk?
    ensures r.Ok? ==> r.value == c.(state := Connected)
    ensures r.Ok? && Reachable(c) ==> Reachable(r.value)
  {
    if !response.ServerPlayerConnectionOk? then Err("There was an error while connecting to the server.")
    else Ok(c.(state := Connected))
  }

  /** `send_start`: only a connected client may ask to start, and only an
      accepted request moves it to the lobby. */
  function SendStart(c: ClientData, response: ServerMessage): (r: Result<ClientData>)
    ensures r.Ok? <==> c.state == Connected && response.ServerPlayerStartRequestAccepted?
    ensures r.Ok? ==> r.value == c.(state := Lobby)
    ensures r.Ok? && Reachable(c) ==> Reachable(r.value)
  {
    if c.state != Connected then Err("You must be connected")
    else if !response.ServerPlayerStartRequestAccepted? then Err("Invalid response received on Start request.")
    else Ok(c.(state := Lobby))
  }

  /** `_init_game_state`: the snapshot names the current player and fixes
      the starting hand size. */
  function InitGameState(c: ClientData, status: GameState): (r: ClientData)
    ensures r.currentPlayer == Some(status.currentPlayer) && r.startingHandSize == Some(status.handSize)
    ensures r.state == c.state && r.currentGame == c.currentGame && r.gameNumber == c.gameNumber
    ensures r.playerName == c.playerName
    ensures Reachable(c.(state := NotConnected)) ==> Reachable(r)
  {
    c.(currentPlayer := Some(status.currentPlayer), startingHandSize := Some(status.handSize))
  }

  /** The first game snapshot among the server's messages, skipped to by
      `get_game_status`. */
  function FirstGameState(responses: seq<ServerMessage>): (r: Option<GameState>)
    ensures r.None? <==> forall i | 0 <= i < |responses| :: !responses[i].ServerGameStateData?
    ensures r.Some? ==> exists i | 0 <= i < |responses| ::
              responses[i] == ServerGameStateData(r.value)
              && forall j | 0 <= j < i :: !responses[j].ServerGameStateData?
  {
    if |responses| == 0 then None
    else if responses[0].ServerGameStateData? then Some(responses[0].state)
    else
      var rest := FirstGameState(responses[1..]);
      if rest.Some? then
        ghost var i :| 0 <= i < |responses[1..]| && responses[1..][i] == ServerGameStateData(rest.value)
                        && forall j | 0 <= j < i :: !responses[1..][j].ServerGameStateData?;
        assert responses[i + 1] == ServerGameStateData(rest.value);
        assert forall j | 0 <= j < i + 1 :: !responses[j].ServerGameStateData? by {
          forall j | 0 <= j < i + 1 ensures !responses[j].ServerGameStateData? {
            if j > 0 {
              assert responses[j] == responses[1..][j - 1];
            }
          }
        }
        rest
      else
        assert forall i | 0 <= i < |responses| :: !responses[i].ServerGameStateData? by {
          forall i | 0 <= i < |responses| ensures !responses[i].ServerGameStateData? {
            if i > 0 {
              assert responses[i] == responses[1..][i - 1];
            }
          }
        }
        None
  }

  /** `get_game_status`: only a playing client may ask; the answer is the
      first snapshot the server sends, other messages being skipped. With
      no snapshot among the messages the source keeps waiting; here that is
      an error. */
  function GetGameStatus(c: ClientData, responses: seq<ServerMessage>): (r: Result<GameState>)
    ensures c.state != Playing ==> r.Err?
    ensures c.state == Playing ==> (r.Ok? <==> exists i | 0 <= i < |responses| :: responses[i].ServerGameStateData?)
    ensures r.Ok? ==> FirstGameState(responses) == Some(r.value)
  {
    if c.state != Playing then Err("You must be in game")
    else
      match FirstGameState(responses)
      case Some(status) => Ok(status)
      case None => Err("no game state received")
  }

  /** `wait_start`: only a client in the lobby may wait; it leaves the lobby
      only for a game, once the server announces the start, and then reads
      the first snapshot of `statusMessages` through `get_game_status`.
      Lobby messages that do not start the game keep it in the lobby. */
  function WaitStart(c: ClientData, responses: seq<ServerMessage>, statusMessages: seq<ServerMessage>)
    : (r: Result<ClientData>)
    ensures c.state != Lobby ==> r.Err?
    ensures c.state == Lobby && ServerStartGameData !in responses ==> r == Ok(c)
    ensures c.state == Lobby && ServerStartGameData in responses ==>
              (r.Ok? <==> FirstGameState(statusMessages).Some?)
    ensures r.Ok? ==> (r.value.state == Playing <==> ServerStartGameData in responses)
    ensures r.Ok? && r.value.state == Playing ==>
              r.value == InitGameState(c.(state := Playing), FirstGameState(statusMessages).value)
    ensures r.Ok? && Reachable(c) ==> Reachable(r.value)
  {
    if c.state != Lobby then Err("You are not in lobby")
    else if ServerStartGameData in responses then
      var status :- GetGameStatus(c.(state := Playing), statusMessages);
      Ok(InitGameState(c.(state := Playing), status))
    else Ok(c)
  }

  /** `restart`: only a finished game may be restarted; the client plays
      again from the first snapshot of `statusMessages`. */
  function Restart(c: ClientData, statusMessages: seq<ServerMessage>): (r: Result<ClientData>)
    ensures r.Ok? <==> c.state == GameOver && FirstGameState(statusMessages).Some?
    ensures r.Ok? ==> r.value.state == Playing
                      && r.value == InitGameState(c.(state := Playing), FirstGameState(statusMessages).value)
    ensures r.Ok? && Reachable(c) ==> Reachable(r.value)
  {
    if c.state != GameOver then Err("Match is not over yet")
    else
      var status :- GetGameStatus(c.(state := Playing), statusMessages);
      Ok(InitGameState(c.(state := Playing), status))
  }

  /** The start of a client's life: a new client that is acknowledged,
      accepted and then told the game starts is playing its first game,
      with the hand size and current player of the first snapshot. */
  lemma StartReachesPlaying(playerName: string, gameNumber: int, accepted: int, connected: int,
                            lobby: seq<ServerMessage>, statusMessages: seq<ServerMessage>)
    requires ServerStartGameData in lobby
    requires exists i | 0 <= i < |statusMessages| :: statusMessages[i].ServerGameStateData?
    ensures var connectedClient := Connect(NewClient(playerName, gameNumber), ServerPlayerConnectionOk);
            && connectedClient.Ok?
            && var inLobby := SendStart(connectedClient.value, ServerPlayerStartRequestAccepted(accepted, connected));
            && inLobby.Ok?
            && var started := WaitStart(inLobby.value, lobby, statusMessages);
            && started.Ok?
            && started.value.state == Playing && started.value.currentGame == 0
            && started.value.startingHandSize == Some(FirstGameState(statusMessages).value.handSize)
            && started.value.currentPlayer == Some(FirstGameState(statusMessages).value.currentPlayer)
            && Reachable(started.value)
  {
    var newcomer := NewClient(playerName, gameNumber);
    var connectedClient := Connect(newcomer, ServerPlayerConnectionOk).value;
    var inLobby := SendStart(connectedClient, ServerPlayerStartRequestAccepted(accepted, connected)).value;
    assert inLobby.state == Lobby && Reachable(inLobby);
  }

  /** What one iteration of `run`'s loop reads: a move after which the
      given player is to act, or the end of the game followed by the
      snapshot a restart would read. */
  datatype Turn = Moved(nextPlayer: string) | Ended(restartStatus: GameState)

  /** The games that end among the turns. */
  function GamesEnded(turns: seq<Turn>): (n: nat)
    ensures n <= |turns|
  {
    if |turns| == 0 then 0 else (if turns[0].Ended? then 1 else 0) + GamesEnded(turns[1..])
  }

  /** `run`: nothing happens unless the client is playing. A move hands the
      turn on; the end of a game restarts only while `current_game + 1` is
      below the number of games, after counting the game just played; the
      turns run out or the last game ends. */
  function Run(c: ClientData, turns: seq<Turn>): (r: ClientData)
    ensures c.state != Playing ==> r == c
    ensures r.playerName == c.playerName && r.gameNumber == c.gameNumber
    ensures c.currentGame <= r.currentGame <= c.currentGame + GamesEnded(turns)
    ensures c.currentGame < c.gameNumber ==> r.currentGame < c.gameNumber
    ensures c.state == Playing ==> r.state == Playing || r.state == GameOver
    ensures c.state == Playing && r.state == GameOver ==> r.currentGame + 1 >= r.gameNumber
    ensures Reachable(c) ==> Reachable(r)
    decreases |turns|
  {
    if c.state != Playing || |turns| == 0 then c
    else
      match turns[0]
      case Moved(next) => Run(c.(currentPlayer := Some(next)), turns[1..])
      case Ended(status) =>
        var over := c.(state := GameOver);
        if over.currentGame + 1 < over.gameNumber then
          Run(Restart(over.(currentGame := over.currentGame + 1), [ServerGameStateData(status)]).value, turns[1..])
        else
          over
  }

  /** The smallest of the reported hand size and every other player's hand
      length. */
  function MinHandSize(reported: int, players: seq<Player>, me: string): (m: int)
    ensures m <= reported
    ensures forall i | 0 <= i < |players| && players[i].name != me :: m <= |players[i].hand|
    ensures m == reported || exists i | 0 <= i < |players| :: players[i].name != me && m == |players[i].hand|
    decreases |players|
  {
    if |players| == 0 then reported
    else
      var rest := MinHandSize(reported, players[1..], me);
      if players[0].name != me && |players[0].hand| < rest then
        |players[0].hand|
      else
        assert forall i | 1 <= i < |players| && players[i].name != me :: rest <= |players[i].hand| by {
          forall i | 1 <= i < |players| && players[i].name != me ensures rest <= |players[i].hand| {
            assert players[i] == players[1..][i - 1];
          }
        }
        assert rest != reported ==> exists i | 0 <= i < |players| :: players[i].name != me && rest == |players[i].hand| by {
          if rest != reported {
            var j :| 0 <= j < |players[1..]| && players[1..][j].name != me && rest == |players[1..][j].hand|;
            assert players[j + 1] == players[1..][j];
          }
        }
        rest
  }

  /** The position of the first player with the given name: the agent's
      turn lookup, with -1 read as absent. */
  function FindPlayer(players: seq<Player>, name: string): (r: Option<nat>)
    ensures r.None? <==> forall i | 0 <= i < |players| :: players[i].name != name
    ensures r.Some? ==> r.value < |players| && players[r.value].name == name
                        && forall i | 0 <= i < r.value :: players[i].name != name
  {
    var t := Belief.TurnOf(players, name);
    if t < 0 then None else Some(t as nat)
  }

  /** `draw_card` as written. The effective hand size, written back into
      the snapshot, is the smallest of the reported size and every other
      player's hand length. The agent's own draw builds a hidden card with
      an argument the constructor does not take, which fails; another
      player's draw is the last card of their hand when the size is back to
      the starting size, and nothing otherwise. */
  function DrawCard(c: ClientData, sender: string, gs: GameState): (r: Result<(DrawnCard, GameState)>)
    ensures r.Ok? ==> r.value.1 == gs.(handSize := MinHandSize(gs.handSize, gs.players, c.playerName))
    ensures sender == c.playerName ==>
              (r.Ok? <==> c.startingHandSize != Some(MinHandSize(gs.handSize, gs.players, c.playerName)))
    ensures sender == c.playerName && r.Ok? ==> r.value.0 == NoCard
    ensures sender != c.playerName ==>
              (r.Ok? <==> FindPlayer(gs.players, sender).Some?
                          && (c.startingHandSize == Some(MinHandSize(gs.handSize, gs.players, c.playerName))
                              ==> |gs.players[FindPlayer(gs.players, sender).value].hand| > 0))
    ensures sender != c.playerName && r.Ok? ==>
              var p := gs.players[FindPlayer(gs.players, sender).value];
              if c.startingHandSize == Some(MinHandSize(gs.handSize, gs.players, c.playerName))
              then r.value.0 == SeenCard(Observed(p.hand[|p.hand| - 1]))
              else r.value.0 == NoCard
  {
    var handSize := MinHandSize(gs.handSize, gs.players, c.playerName);
    var snapshot := gs.(handSize := handSize);
    if sender == c.playerName then
      if c.startingHandSize == Some(handSize) then Err("HiddenCard() takes no is_new argument")
      else Ok((NoCard, snapshot))
    else
      match FindPlayer(gs.players, sender)
      case None => Err("Player not found")
      case Some(k) =>
        if c.startingHandSize != Some(handSize) then Ok((NoCard, snapshot))
        else if |gs.players[k].hand| == 0 then Err("list index out of range")
        else Ok((SeenCard(Observed(gs.players[k].hand[|gs.players[k].hand| - 1])), snapshot))
  }

  /** `draw_card` as evidently intended: the agent's own draw back at the
      starting size is a fresh hidden card; otherwise as written. */
  function DrawCardIntended(c: ClientData, sender: string, gs: GameState): (r: Result<(DrawnCard, GameState)>)
    ensures sender == c.playerName ==> r.Ok?
    ensures sender == c.playerName ==>
              (r.value.0 == OwnCard(NewHiddenCard())
               <==> c.startingHandSize == Some(MinHandSize(gs.handSize, gs.players, c.playerName)))
    ensures sender != c.playerName ==> r == DrawCard(c, sender, gs)
  {
    var handSize := MinHandSize(gs.handSize, gs.players, c.playerName);
    if sender == c.playerName then
      if c.startingHandSize == Some(handSize) then Ok((OwnCard(NewHiddenCard()), gs.(handSize := handSize)))
      else Ok((NoCard, gs.(handSize := handSize)))
    else
      DrawCard(c, sender, gs)
  }

  /** Where the two agree, and the input that separates them: the agent's
      own draw at the starting hand size fails as written. */
  lemma DrawCardDiscrepancy(c: ClientData, sender: string, gs: GameState)
    ensures DrawCard(c, sender, gs).Ok? ==> DrawCardIntended(c, sender, gs) == DrawCard(c, sender, gs)
    ensures var me := ClientData("me", Some(5), Playing, None, 1, 0);
            var snapshot := GameState([], "me", 0, 0, [], [], 5);
            DrawCard(me, "me", snapshot).Err? && DrawCardIntended(me, "me", snapshot).Ok?
  {
    var me := ClientData("me", Some(5), Playing, None, 1, 0);
    var snapshot := GameState([], "me", 0, 0, [], [], 5);
    assert MinHandSize(5, [], "me") == 5;
  }

  /** `build_action_from_server_response`: a hint is read as a hint; a
      discard, a successful play and a failed play also look up the card
      their player drew; any other message is an error. The snapshot comes
      back with the effective hand size written into it. */
  function BuildAction(c: ClientData, data: ServerMessage, gs: GameState): (r: Result<(PlayedAction, GameState)>)
    ensures !(data.ServerHintData? || data.ServerActionValid? || data.ServerPlayerMoveOk?
              || data.ServerPlayerThunderStrike?)
            ==> r.Err?
    ensures data.ServerHintData? ==>
              (r.Ok? <==> ParseHintResult(data).Ok?)
              && (r.Ok? ==> r.value == (HintPlayed(ParseHintResult(data).value), gs))
    ensures data.ServerActionValid? ==>
              (r.Ok? <==> DrawCard(c, data.lastPlayer, gs).Ok? && data.action == "discard")
    ensures data.ServerPlayerMoveOk? || data.ServerPlayerThunderStrike? ==>
              (r.Ok? <==> DrawCard(c, data.lastPlayer, gs).Ok?)
    ensures data.ServerActionValid? && r.Ok? ==>
              var drawn := DrawCard(c, data.lastPlayer, gs).value;
              r.value == (DiscardPlayed(ParseDiscardCardResult(data, drawn.0).value), drawn.1)
    ensures (data.ServerPlayerMoveOk? || data.ServerPlayerThunderStrike?) && r.Ok? ==>
              var drawn := DrawCard(c, data.lastPlayer, gs).value;
              r.value == (PlayPlayed(ParsePlayCardResult(data, drawn.0).value), drawn.1)
  {
    if data.ServerHintData? then
      var hint :- ParseHintResult(data);
      Ok((HintPlayed(hint), gs))
    else if data.ServerActionValid? then
      var drawn :- DrawCard(c, data.lastPlayer, gs);
      var discard :- ParseDiscardCardResult(data, drawn.0);
      Ok((DiscardPlayed(discard), drawn.1))
    else if data.ServerPlayerMoveOk? || data.ServerPlayerThunderStrike? then
      var drawn :- DrawCard(c, data.lastPlayer, gs);
      Ok((PlayPlayed(ParsePlayCardResult(data, drawn.0).value), drawn.1))
    else
      Err("Invalid action response")
  }

  /** `fetch_action_result`: an invalid action or invalid data is an error;
      the end of the game moves the client to GAME_OVER with no move and
      no snapshot; anything else needs a playing client, reads the next
      snapshot and rebuilds the move from it. */
  function FetchActionResult(c: ClientData, response: ServerMessage, statusMessages: seq<ServerMessage>)
    : (r: Result<(ClientData, Option<(PlayedAction, GameState)>)>)
    ensures response.ServerActionInvalid? || response.ServerInvalidDataReceived? ==> r.Err?
    ensures response.ServerGameOver? ==> r.Ok? && r.value == (c.(state := GameOver), None)
    ensures r.Ok? && r.value.1.None? ==> response.ServerGameOver?
    ensures !response.ServerGameOver? && c.state != Playing ==> r.Err?
    ensures r.Ok? && r.value.1.Some? ==>
              r.value.0 == c
              && GetGameStatus(c, statusMessages).Ok?
              && BuildAction(c, response, GetGameStatus(c, statusMessages).value) == Ok(r.value.1.value)
    ensures r.Ok? && Reachable(c) ==> Reachable(r.value.0)
  {
    if response.ServerActionInvalid? then Err("ActionInvalid received")
    else if response.ServerInvalidDataReceived? then Err("InvalidData received")
    else if response.ServerGameOver? then Ok((c.(state := GameOver), None))
    else
      var status :- GetGameStatus(c, statusMessages);
      var played :- BuildAction(c, response, status);
      Ok((c, Some(played)))
  }

  /** `update_state_with_action`: after a move, the snapshot names the
      player to act; nothing else of the client changes. */
  function UpdateStateWithAction(c: ClientData, newState: GameState): (r: ClientData)
    ensures r.currentPlayer == Some(newState.currentPlayer)
    ensures r.(currentPlayer := c.currentPlayer) == c
    ensures Reachable(c) ==> Reachable(r)
  {
    c.(currentPlayer := Some(newState.currentPlayer))
  }
}
