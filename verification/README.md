# go-dart server registry, modelled in Dafny

The go-dart server has two kinds of clients. Dart boards send heartbeats and darts.
Viewers create games, add players and watch the games. The server keeps four
registries (`server/server.go:21-26`):

- `boards`: board name to the time the board was last seen;
- `games`: game id to the game engine;
- `hubs`: game id to the hub that pushes the game's state to its viewers;
- `activeGames`: board name to the id of the game the board plays in.

Every HTTP handler is a state transition on these four maps. Most handlers first run
the lazy clean-up `removeEndedGame`: every game whose engine reports OVER is removed,
with its board bindings, and its hub is closed. A watchdog evicts the boards that have
not sent a heartbeat since the deadline. Each evicted board is reported to every game,
and the ended games are cleaned up.

The model has one module per concern:

- `Games` (`games.dfy`): the engine as the server sees it. A `Game` value holds its
  players, the current-player index and the OVER flag. An `Engine` value holds the three
  engine operations the server calls, `AddPlayer`, `HandleDart` and `BoardHasLeft`, as
  functions the caller supplies.
- `Hubs` (`hubs.dfy`): a hub is an object with two counters, how many times it was
  refreshed and how many times it was closed. Because hubs are objects, the count
  "closed exactly once" can still be read after the hub has left the registry.
- `Styles` (`styles.dfy`): `gameFactory`, the table from style code to engine
  configuration.
- `Sweep` (`sweep.dfy`): what `removeEndedGame` does to `games` and `activeGames`,
  stated on values.
- `Liveness` (`liveness.dfy`): the watchdog's deadline rule and what telling every game
  that a board left does, stated on values.
- `GameServer` (`server.dfy`): the `Server` class. It has the four registries as `map`
  fields and one method per handler. Every `for ... range` loop over a Go map becomes a
  `while` loop that picks some remaining key, because Go leaves the order unspecified.
  `Valid()` is the invariant every handler keeps:
  - each board is filed under its own name;
  - each game has exactly one hub and no two games share a hub;
  - every binding points at a game that exists.
- `Scenarios` (`scenarios.dfy`): a run of the handlers from a new server in which a new
  game is filed under the key of a live game.

`isBoardRegistered` is the predicate `GameServer.Server.IsBoardRegistered`
(`server/server.go:341-344`).

Behaviour of the code that a reader might not expect, modelled as written:

- Session ids are not monotonic. A new game is filed under `len(games) + 1`
  (`server/server.go:177`). Once an earlier game has been swept away, that key can
  belong to a live game, which is then replaced, and its hub leaves the registry without
  being closed. `CreateGame` allows this overwrite. The run `Scenarios.ReusedId` reaches
  it with two creations, one player joining, and a third creation.
- When a board goes silent, the watchdog tells every game, not only the games the board
  plays in. It runs `removeEndedGame` after each evicted board for which some game
  answered "not viable", not once per tick (`server/server.go:155-165`).
- A dart goes to the last matching game in map order (`server/server.go:307-312`). Go
  leaves that order open, so the model promises only "some matching game".
- A board bound to a game may be added to that same game again: the busy check only
  refuses another game (`server/server.go:282-287`).

## Model

| member | source | states |
|---|---|---|
| Styles.GameFactory | server/server.go:194-235 | A success carries the configuration of a style whose code is the string. A failure means no style has that code, and its message is "game of type <style> is not yet supported". |
| Styles.FactoryDecodesEveryCode | server/server.go:195-231 | When the twelve codes are distinct, each style's code yields exactly that style's configuration. |
| Styles.FactoryAcceptsExactlyTheCodes | server/server.go:194-235 | The factory succeeds if and only if the string is one of the twelve style codes. |
| Styles.ConfigsAreDistinct | server/server.go:196-231 | No two styles construct the same configuration: x01 301/501 with and without double-out, Highest 3/5, CountUp 300/500/900, Cricket plain, cut-throat and no-score. |
| Sweep.SweepKeepsExactlyTheLiveGames | server/server.go:346-366 | After the clean-up no game is OVER, and a game is kept exactly when it was not OVER. |
| Sweep.UnbindOneMore | server/server.go:353-357 | Releasing the bindings of the ended games one game at a time releases exactly the bindings to any of them. |
| Sweep.SweepIsIdempotent | server/server.go:346-366 | A second clean-up right after the first leaves games and bindings unchanged. |
| Liveness.Survivors | server/server.go:147-154 | A board stays exactly when it was last seen at or after `deadline = now - timeout`. Boards that stay are unchanged. |
| Liveness.FreshHeartbeatSurvives | server/server.go:126-133 | A board that has just sent a heartbeat survives any tick whose deadline is not later than the heartbeat. |
| Liveness.CheckedStep | server/server.go:150-154 | One step of the board loop removes the board exactly when it was last seen before the deadline. |
| Liveness.NotifiedStep | server/server.go:156-160 | One step of the game loop replaces that game with the engine's new state. The game joins the abandoned ones exactly when the engine says it cannot go on. |
| GameServer.KeyList | server/server.go:105-108 | The listed keys are exactly the map's keys, each once, as many as there are entries. |
| GameServer.Server.constructor | server/server.go:34-42 | A new server has four empty registries and is `Valid`. |
| GameServer.Server.PublishUpdate | server/server.go:332-334 | The game's hub is refreshed once. No other hub is refreshed or closed. |
| GameServer.Server.ReleaseBindings | server/server.go:353-357 | Exactly the bindings to the game are dropped; the other bindings are unchanged. |
| GameServer.Server.RemoveGame | server/server.go:350-363 | One ended game, its bindings and its hub are removed. That hub is closed once; no other hub is touched. |
| GameServer.Server.RemoveEndedGames | server/server.go:346-366 | Exactly the OVER games and their hubs are removed. Exactly the bindings to them are released. No remaining game is OVER. Each removed hub is closed once; no other hub is refreshed or closed. Boards are unchanged. |
| GameServer.Server.RegisterBoard | server/server.go:122-135 | After the clean-up, an unknown name gets `lastSeen = now` (Accepted). A known name only has its `lastSeen` moved to `now` (Pong). No other board changes and no new key besides `name` appears. |
| GameServer.Server.RegisteredBoards | server/server.go:112-120 | The result lists every registered board name exactly once. |
| GameServer.Server.ListGames | server/server.go:103-110 | After the clean-up, the result lists exactly the games that were not OVER, each once. |
| GameServer.Server.FindGame | server/server.go:238-255 | After the clean-up, the game is found exactly when it existed and was not OVER, and it is returned unchanged. |
| GameServer.Server.StoreGame | server/server.go:177-186 | The new game and a fresh, untouched hub are stored under `len(games) + 1`, replacing what that key held. Every other hub stays. |
| GameServer.Server.CreateGame | server/server.go:173-192 | After the clean-up, an unknown style returns the factory's error and leaves games and hubs as the clean-up left them. A known style stores the new game and a fresh hub under `len(live games) + 1`, even when that key is taken. |
| GameServer.Server.Admit | server/server.go:268-292 | It fails with GameNotFound, BoardNotFound or BoardBusy exactly in the three cases, in that order, and then changes nothing. Otherwise the engine adds the player, the board is bound to the game and only that game's hub is refreshed. |
| GameServer.Server.AddPlayer | server/server.go:257-296 | The same as Admit, stated on the games and bindings that the clean-up leaves. |
| GameServer.Server.FindTurn | server/server.go:305-312 | OutOfRange exactly when some game's current index is out of range, where the Go code panics. NoTurn exactly when no game has its current player at the board. Otherwise the result is a game whose current player sits at the board. |
| GameServer.Server.Dart | server/server.go:298-330 | No matching game, or an index panic, changes nothing. An engine error is passed back; no game changes and no hub is refreshed. A handled dart replaces only the matching game's state and refreshes only its hub. |
| GameServer.Server.TellGame | server/server.go:156-160 | One game is told the board left. Its hub is refreshed exactly when the engine answers "not viable". |
| GameServer.Server.TellGames | server/server.go:155-161 | Every game is told the board left. Exactly the hubs of the games that cannot go on are refreshed, once each. `hasEndedGame` holds exactly when there is such a game. |
| GameServer.Server.NotifyBoardLeft | server/server.go:155-161 | Every game is replaced by the engine's state after the board left. Hubs are refreshed as in TellGames. |
| GameServer.Server.EvictBoard | server/server.go:152-165 | The board is removed and every game is told. If some game cannot go on, the OVER games are then cleaned up, their bindings released and their hubs closed once. Otherwise nothing more changes. |
| GameServer.Server.CheckBoard | server/server.go:150-166 | A board last seen before the deadline is evicted, with EvictBoard's whole effect on games, hubs, bindings and hub counters. Otherwise nothing changes. Either way, games only disappear, and exactly the bindings to the games that are gone are released. A hub is closed once exactly when it leaves the registry. |
| GameServer.Server.Tick | server/server.go:147-166 | After one tick exactly the boards last seen before `now - timeout` are gone. Games only disappear, and exactly the bindings to the games that are gone are released. Hubs only disappear, and each hub that disappears was closed exactly once. When no board is stale, nothing changes and no hub is refreshed. |
| Scenarios.CreateOverLiveGame | server/server.go:173-186 | With game 1 over and game 2 live, creating a game returns id 2. The hub of the live game 2 leaves the registry and is not closed. |
| Scenarios.ReusedId | server/server.go:173-186 | From a new server, two creations, a player joining game 1 and ending it, and a third creation: the third creation returns id 2 again. The hub of the replaced game is no longer registered and was never closed. |

## Left out

- HTTP routing, JSON binding, the failure of `BindJSON` and the status codes are left out. Each handler returns its outcome as a value instead (`Heartbeat`, `Binding`, `DartOutcome`, `Result`, `Option`).
- `Start`, `wsHandler`, `getStylesHandler`, static asset serving and logging are left out. They are transport plumbing, or they return a constant.
- The inside of `GameHub` (websocket fan-out in `handle`, `refresh`, `close`) is code that is not part of this model. A hub is reduced to its two counters.
- The watchdog's goroutine and `time.Ticker` are left out, because that code exists for concurrency. One tick is the method `Tick`, with the clock reading `now` and `HealthCheckTimeout` passed in as integers.
- Concurrency between handlers and the watchdog is left out. The Go code takes no locks, and the model runs every operation atomically.
- The scoring rules of the x01, Highest, CountUp and Cricket engines belong to another package. The engine's answers to `AddPlayer`, `HandleDart` and `BoardHasLeft` are functions the caller supplies. A new engine is assumed to start with no player, current index 0 and not OVER.
- The Go engines are pointers that `HandleDart` updates in place. The model stores the returned state instead. On an engine error it keeps the old state, because the model cannot see a partial update.
- The style code strings are defined in a package that is not part of this model. `gameFactory` takes them as the parameter `codeOf`.
- Go's map iteration order is left out. Every loop picks some remaining key, so `Dart` routes to some matching game, not to a particular one.
- The index panic in the dart scan (`server/server.go:308`) is the outcome `Crashed`. Under gin's recovery it changes nothing.
- The game/hub aliasing is left out. `NewGameHub(theGame)` keeps a reference to the engine so that `refresh` can send its state; the model does not link a hub to its game.
- GameServer.Server.Tick: when some board is evicted, it does not state the new game states or the refresh counters. Those are stated board by board by `CheckBoard` and `EvictBoard`. Over a whole tick they depend on the order in which Go's map iteration visits the boards.
