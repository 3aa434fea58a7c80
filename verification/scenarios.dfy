/**
 A run of the server that files a new game under the key of a game that is still live.
 `createNewGameHandler` picks the key `len(games) + 1`; once an earlier game has been
 swept away, that key can belong to a game that is still running.
 */
module Scenarios {
  import opened Games
  import opened Hubs
  import opened Outcomes
  import opened Styles
  import opened Sweep
  import opened Liveness
  import opened GameServer

  /** `createNewGameHandler` for a known style on a server where no game is over: the
      clean-up has nothing to do and the new game is filed under `len(games) + 1`. */
  method CreateWhileNoneEnded(server: Server, codeOf: Style -> string, style: string) returns (id: int)
    requires server.Valid() && exists s :: codeOf(s) == style
    requires forall id :: id in server.games ==> !server.games[id].over
    modifies server, server.hubs.Values
    ensures server.Valid()
    ensures id == |old(server.games)| + 1
    ensures server.games == old(server.games)[id := NewGame(GameFactory(codeOf, style).value)]
    ensures server.boards == old(server.boards) && server.activeGames == old(server.activeGames)
    ensures forall k :: k in server.hubs ==>
              if k == id then fresh(server.hubs[k]) else k in old(server.hubs) && server.hubs[k] == old(server.hubs)[k]
    ensures id in server.hubs && server.hubs[id].closes == 0
    ensures forall k :: k in old(server.hubs) && k in server.hubs && k != id ==> server.hubs[k].closes == old(server.hubs[k].closes)
  {
    NoneEnded(server.games);
    NothingToSweep(server.games, server.hubs, server.activeGames);
    var r := server.CreateGame(codeOf, style);
    id := r.value;
  }

  /** A new server on which games 1 and 2 are created with the same style. */
  method TwoNewGames(codeOf: Style -> string, style: string) returns (server: Server)
    requires exists s :: codeOf(s) == style
    ensures fresh(server) && server.Valid()
    ensures server.boards == map[] && server.activeGames == map[]
    ensures server.games.Keys == {1, 2}
    ensures forall id :: id in server.games ==> !server.games[id].over
    ensures forall id :: id in server.hubs ==> fresh(server.hubs[id]) && server.hubs[id].closes == 0
  {
    server := new Server();
    var first := CreateWhileNoneEnded(server, codeOf, style);
    var second := CreateWhileNoneEnded(server, codeOf, style);
  }

  /** A board registers and its player joins game 1, and the engine ends game 1 on that. */
  method EndFirstGame(server: Server)
    requires server.Valid() && server.games.Keys == {1, 2}
    requires forall id :: id in server.games ==> !server.games[id].over
    requires server.activeGames == map[]
    modifies server, server.hubs.Values
    ensures server.Valid() && server.games.Keys == {1, 2}
    ensures server.games[1].over && !server.games[2].over
    ensures server.hubs == old(server.hubs)
    ensures forall id :: id in server.hubs ==> server.hubs[id].closes == old(server.hubs[id].closes)
  {
    var ending := Engine((g: Game, b: string, n: string) => g.(over := true),
                         (g: Game, d: Sector) => Failed("not used"),
                         (g: Game, b: string) => LeaveReply(true, g));
    NoneEnded(server.games);
    NothingToSweep(server.games, server.hubs, server.activeGames);
    var heartbeat := server.RegisterBoard("board", 0);
    NothingToSweep(server.games, server.hubs, server.activeGames);
    var joined := server.AddPlayer(1, "board", "player", ending);
  }

  /** `createNewGameHandler` after game 1 ended while game 2 runs: the clean-up removes
      game 1, and the new game is filed under `len(games) + 1 = 2`, over the live game 2,
      whose hub is dropped from the registry without being closed. */
  method CreateOverLiveGame(server: Server, codeOf: Style -> string, style: string) returns (r: Result<int>)
    requires server.Valid() && exists s :: codeOf(s) == style
    requires server.games.Keys == {1, 2} && server.games[1].over && !server.games[2].over
    modifies server, server.hubs.Values
    ensures r == Ok(2)
    ensures old(server.hubs)[2] !in server.hubs.Values
    ensures old(server.hubs)[2].closes == old(server.hubs[2].closes)
  {
    assert EndedIds(server.games) == {1};
    r := server.CreateGame(codeOf, style);
  }

  /** The whole run: games 1 and 2 are created, game 1 ends, and the next game created is
      filed under 2 again, replacing game 2 while it was live. The hub `orphan` of the
      replaced game is no longer registered and was never closed. */
  method ReusedId(codeOf: Style -> string, style: string)
    returns (server: Server, third: Result<int>, orphan: Hub)
    requires exists s :: codeOf(s) == style
    ensures third == Ok(2)
    ensures orphan !in server.hubs.Values && orphan.closes == 0
  {
    server := TwoNewGames(codeOf, style);
    orphan := server.hubs[2];
    EndFirstGame(server);
    third := CreateOverLiveGame(server, codeOf, style);
  }
}
