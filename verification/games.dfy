/**
 The game engines as the server sees them. The scoring rules of the x01, Highest,
 CountUp and Cricket engines are not part of this model: an engine is reduced to
 the state the server inspects (players, whose turn it is, whether the game is
 over) and to three operations whose results are supplied by the caller.
 */
module Games {

  /** The option set a style code selects (the arguments of the engine constructors). */
  datatype Config =
    | X01(score: nat, doubleOut: bool)
    | Highest(rounds: nat)
    | CountUp(target: nat)
    | Cricket(cutThroat: bool, noScore: bool)

  /** A player sits at one board. */
  datatype Player = Player(board: string, name: string)

  /** The state snapshot of one engine: its players, the index of the player whose turn
      it is, and whether the engine reports the game as OVER. */
  datatype Game = Game(config: Config, players: seq<Player>, current: int, over: bool)

  /** A dart: the sector value and its multiplier/position. */
  datatype Sector = Sector(val: int, pos: int)

  /** What the engine answers to a dart: the new state, or a domain error. */
  datatype DartReply = Handled(state: Game) | Failed(reason: string)

  /** What the engine answers when a board leaves: whether the game can go on, and the new state. */
  datatype LeaveReply = LeaveReply(stillViable: bool, state: Game)

  /** The engine operations the server calls, as total functions of the engine state. */
  datatype Engine = Engine(
    addPlayer: (Game, string, string) -> Game,
    handleDart: (Game, Sector) -> DartReply,
    boardHasLeft: (Game, string) -> LeaveReply)

  /** A freshly constructed engine: no player yet, not over. */
  function NewGame(config: Config): Game
  {
    Game(config, [], 0, false)
  }

  /** The current-player index can be used to index the players. */
  predicate TurnInRange(g: Game)
  {
    0 <= g.current < |g.players|
  }

  /** It is the turn of the player sitting at `board`. */
  predicate OnTurn(g: Game, board: string)
  {
    TurnInRange(g) && g.players[g.current].board == board
  }
}
