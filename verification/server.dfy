/**
 The session/board registry of the dart server: which boards are alive, which games
 run, which hub serves each game's viewers, and which game each board belongs to.
 Every HTTP handler is modelled by the state transition it performs; decoding the
 request and writing the HTTP response are not part of this model, and the outcome
 of each operation is returned as a value instead.
 */
module GameServer {
  import opened Games
  import opened Hubs
  import opened Outcomes
  import opened Styles
  import opened Sweep
  import opened Liveness

  /** Answer to a heartbeat: a new board (202 Accepted) or a known one (200 "Pong"). */
  datatype Heartbeat = Accepted | Pong

  /** Outcome of adding a player to a game. */
  datatype Binding = Added | GameNotFound | BoardNotFound | BoardBusy

  /** Outcome of the scan for the game whose current player sits at a board. */
  datatype Turn = OutOfRange | NoTurn | TurnOf(id: int)

  /** Outcome of routing a dart. `Crashed` is the index panic of the scan, which aborts
      the request before anything is changed. */
  datatype DartOutcome = Scored(state: Game) | Refused(reason: string) | NoGame | Crashed

  /** The keys of a map, each once, in some order (the order of Go's map iteration is
      unspecified). */
  method KeyList<K, V>(m: map<K, V>) returns (ks: seq<K>)
    ensures |ks| == |m|
    ensures forall k :: k in ks <==> k in m
    ensures forall i, j :: 0 <= i < j < |ks| ==> ks[i] != ks[j]
  {
    ks := [];
    var todo := m.Keys;
    while todo != {}
      invariant todo <= m.Keys
      invariant forall k :: k in ks <==> k in m && k !in todo
      invariant forall i, j :: 0 <= i < j < |ks| ==> ks[i] != ks[j]
      invariant |ks| + |todo| == |m|
      decreases |todo|
    {
      var k := Pick(todo);
      ks := ks + [k];
      todo := todo - {k};
    }
  }

  /** Some element of a non-empty set: one step of a `for ... range` loop over a Go map. */
  method Pick<T>(s: set<T>) returns (x: T)
    requires s != {}
    ensures x in s
  {
    x :| x in s;
  }

  /** Removing the keys of `s` and then `k` is removing the keys of `s + {k}`. */
  lemma MinusOneMore<K, V>(m: map<K, V>, s: set<K>, k: K)
    ensures m - (s + {k}) == m - s - {k}
  {
    assert forall x :: x in m - (s + {k}) <==> x in m - s - {k};
  }

  class Server {
    var boards: map<string, Board>
    var games: map<int, Game>
    var hubs: map<int, Hub>
    var activeGames: map<string, int>

    /** Every board is filed under its own name; each game has its hub and no other game
        shares it; every binding points at a game that exists. */
    ghost predicate Valid()
      reads this
    {
      && (forall n :: n in boards ==> boards[n].name == n)
      && hubs.Keys == games.Keys
      && Distinct(hubs)
      && (forall b :: b in activeGames ==> activeGames[b] in games)
    }

    /** `NewServer`: four empty registries. */
    constructor ()
      ensures Valid()
      ensures boards == map[] && games == map[] && hubs == map[] && activeGames == map[]
    {
      boards, games, hubs, activeGames := map[], map[], map[], map[];
    }

    /** `isBoardRegistered`. */
    predicate IsBoardRegistered(board: string)
      reads this
    {
      board in boards
    }

    /** `publishUpdate`: refresh the viewers of one game. `entry` is any registry of hubs,
        without shared hubs, that files this game's hub under the same id; within it, only
        that hub was refreshed and nothing was closed. */
    method PublishUpdate(id: int, ghost entry: map<int, Hub>)
      requires id in hubs && id in entry && entry[id] == hubs[id] && Distinct(entry)
      modifies hubs[id]
      ensures Tallied(entry, {id}, {})
    {
      hubs[id].Refresh();
    }

    /** The inner loop of `removeEndedGame`: drop every binding to game `id`. */
    method ReleaseBindings(id: int)
      modifies this`activeGames
      ensures activeGames == Unbind(old(activeGames), {id})
    {
      var todo := activeGames.Keys;
      while todo != {}
        invariant todo <= old(activeGames).Keys
        invariant forall b :: b in activeGames <==> b in old(activeGames) && (b in todo || old(activeGames)[b] != id)
        invariant forall b :: b in activeGames ==> activeGames[b] == old(activeGames)[b]
        decreases |todo|
      {
        var b := Pick(todo);
        if activeGames[b] == id {
          activeGames := activeGames - {b};
        }
        todo := todo - {b};
      }
      assert activeGames == Unbind(old(activeGames), {id});
    }

    /** The body of `removeEndedGame` for one ended game: its bindings are dropped, its
        hub is closed and removed, and the game is removed. */
    method RemoveGame(id: int, ghost entry: map<int, Hub>)
      requires Valid() && id in games
      requires Distinct(entry) && id in entry && entry[id] == hubs[id]
      modifies this, hubs[id]
      ensures Valid()
      ensures boards == old(boards)
      ensures games == old(games) - {id}
      ensures hubs == old(hubs) - {id}
      ensures activeGames == Unbind(old(activeGames), {id})
      ensures Tallied(entry, {}, {id})
    {
      ReleaseBindings(id);
      if id in hubs {
        var hub := hubs[id];
        hub.Close();
        hubs := hubs - {id};
      }
      games := games - {id};
    }

    /** `removeEndedGame`: every game that is OVER is removed, with its bindings, and its
        hub is closed once and removed; everything else stays as it was. */
    method RemoveEndedGames()
      requires Valid()
      modifies this, hubs.Values
      ensures Valid()
      ensures boards == old(boards)
      ensures games == old(games) - EndedIds(old(games))
      ensures hubs == old(hubs) - EndedIds(old(games))
      ensures activeGames == Unbind(old(activeGames), EndedIds(old(games)))
      ensures forall id :: id in games ==> !games[id].over
      ensures Tallied(old(hubs), {}, EndedIds(old(games)))
    {
      ghost var entry := hubs;
      ghost var done: set<int> := {};
      var todo := games.Keys;
      while todo != {}
        invariant Valid()
        invariant entry == old(hubs) && Distinct(entry)
        invariant todo <= old(games).Keys
        invariant forall i :: i in done ==> i in old(games) && old(games)[i].over && i !in todo
        invariant forall i :: i in old(games) && old(games)[i].over && i !in todo ==> i in done
        invariant boards == old(boards)
        invariant games == old(games) - done
        invariant hubs == entry - done
        invariant activeGames == Unbind(old(activeGames), done)
        invariant Tallied(entry, {}, done)
        decreases |todo|
      {
        var id := Pick(todo);
        if games[id].over {
          RemoveGame(id, entry);
          MinusOneMore(old(games), done, id);
          MinusOneMore(entry, done, id);
          UnbindOneMore(old(activeGames), done, id);
          done := done + {id};
        }
        todo := todo - {id};
      }
      EndedIdsAre(old(games), done);
    }

    /** `registerBoardHandler`: after the clean-up, an unknown board is registered with
        `lastSeen = now` and a known one only has its `lastSeen` moved to `now`. */
    method RegisterBoard(name: string, now: int) returns (r: Heartbeat)
      requires Valid()
      modifies this, hubs.Values
      ensures Valid()
      ensures r == Pong <==> name in old(boards)
      ensures boards.Keys == old(boards).Keys + {name}
      ensures boards[name] == Board(name, now)
      ensures name in old(boards) ==> boards[name] == old(boards)[name].(lastSeen := now)
      ensures forall n :: n in old(boards) && n != name ==> boards[n] == old(boards)[n]
      ensures games == old(games) - EndedIds(old(games))
      ensures hubs == old(hubs) - EndedIds(old(games))
      ensures activeGames == Unbind(old(activeGames), EndedIds(old(games)))
      ensures Tallied(old(hubs), {}, EndedIds(old(games)))
    {
      RemoveEndedGames();
      if name in boards {
        boards := boards[name := boards[name].(lastSeen := now)];
        r := Pong;
      } else {
        boards := boards[name := Board(name, now)];
        r := Accepted;
      }
    }

    /** `registeredBoardsListHandler`: the names of the registered boards. */
    method RegisteredBoards() returns (names: seq<string>)
      ensures |names| == |boards|
      ensures forall n :: n in names <==> n in boards
      ensures forall i, j :: 0 <= i < j < |names| ==> names[i] != names[j]
    {
      names := KeyList(boards);
    }

    /** `listeGamesHandler`: after the clean-up, the ids of the games. */
    method ListGames() returns (ids: seq<int>)
      requires Valid()
      modifies this, hubs.Values
      ensures Valid()
      ensures boards == old(boards)
      ensures games == old(games) - EndedIds(old(games))
      ensures hubs == old(hubs) - EndedIds(old(games))
      ensures activeGames == Unbind(old(activeGames), EndedIds(old(games)))
      ensures Tallied(old(hubs), {}, EndedIds(old(games)))
      ensures |ids| == |games|
      ensures forall id :: id in ids <==> id in old(games) && !old(games)[id].over
      ensures forall i, j :: 0 <= i < j < |ids| ==> ids[i] != ids[j]
    {
      RemoveEndedGames();
      ids := KeyList(games);
    }

    /** `findGameByIDHandler`: after the clean-up, the game stored under `id`, if any. */
    method FindGame(id: int) returns (r: Option<Game>)
      requires Valid()
      modifies this, hubs.Values
      ensures Valid()
      ensures boards == old(boards)
      ensures games == old(games) - EndedIds(old(games))
      ensures hubs == old(hubs) - EndedIds(old(games))
      ensures activeGames == Unbind(old(activeGames), EndedIds(old(games)))
      ensures Tallied(old(hubs), {}, EndedIds(old(games)))
      ensures r.Some? <==> id in old(games) && !old(games)[id].over
      ensures r.Some? ==> r.value == old(games)[id]
    {
      RemoveEndedGames();
      if id in games {
        r := Some(games[id]);
      } else {
        r := None;
      }
    }

    /** The store step of `createNewGameHandler`: a new game and a fresh hub under
        `len(games) + 1`, replacing whatever that key held. */
    method StoreGame(config: Config) returns (id: int)
      requires Valid()
      modifies this`games, this`hubs
      ensures Valid()
      ensures id == |old(games)| + 1
      ensures games == old(games)[id := NewGame(config)]
      ensures hubs.Keys == old(hubs).Keys + {id}
      ensures fresh(hubs[id]) && hubs[id].refreshes == 0 && hubs[id].closes == 0
      ensures forall k :: k in old(hubs) && k != id ==> hubs[k] == old(hubs)[k]
    {
      id := |games| + 1;
      var hub := new Hub();
      games := games[id := NewGame(config)];
      hubs := hubs[id := hub];
    }

    /** `createNewGameHandler`: after the clean-up, the style code is looked up; an unknown
        code changes nothing more, a known one stores a new game and a fresh hub under
        `len(games) + 1`. That key can be the key of a live game, which is then replaced
        (its hub is dropped without being closed). */
    method CreateGame(codeOf: Style -> string, style: string) returns (r: Result<int>)
      requires Valid()
      modifies this, hubs.Values
      ensures Valid()
      ensures boards == old(boards)
      ensures activeGames == Unbind(old(activeGames), EndedIds(old(games)))
      ensures Tallied(old(hubs), {}, EndedIds(old(games)))
      ensures GameFactory(codeOf, style).Err? ==>
                && r == Err(GameFactory(codeOf, style).error)
                && games == old(games) - EndedIds(old(games))
                && hubs == old(hubs) - EndedIds(old(games))
      ensures var live := old(games) - EndedIds(old(games));
              GameFactory(codeOf, style).Ok? ==>
                && r == Ok(|live| + 1)
                && games == live[|live| + 1 := NewGame(GameFactory(codeOf, style).value)]
      ensures var live, liveHubs := old(games) - EndedIds(old(games)), old(hubs) - EndedIds(old(games));
              GameFactory(codeOf, style).Ok? ==>
                && hubs.Keys == liveHubs.Keys + {|live| + 1}
                && fresh(hubs[|live| + 1])
                && hubs[|live| + 1].refreshes == 0 && hubs[|live| + 1].closes == 0
                && (forall id :: id in liveHubs && id != |live| + 1 ==> hubs[id] == liveHubs[id])
    {
      RemoveEndedGames();
      var made := GameFactory(codeOf, style);
      if made.Err? {
        return Err(made.error);
      }
      var id := StoreGame(made.value);
      r := Ok(id);
    }

    /** The checks and the binding of `addPlayerToGameHandler`, on the registries as the
        clean-up left them. */
    method Admit(gameId: int, board: string, playerName: string, engine: Engine, ghost entry: map<int, Hub>)
      returns (r: Binding)
      requires Valid() && Distinct(entry)
      requires forall id :: id in hubs ==> id in entry && entry[id] == hubs[id]
      modifies this`games, this`activeGames, hubs.Values
      ensures Valid()
      ensures hubs == old(hubs)
      ensures r == GameNotFound <==> gameId !in old(games)
      ensures r == BoardNotFound <==> gameId in old(games) && board !in boards
      ensures r == BoardBusy <==>
        gameId in old(games) && board in boards && board in old(activeGames) && old(activeGames)[board] != gameId
      ensures r != Added ==> games == old(games) && activeGames == old(activeGames)
      ensures r == Added ==>
        && games == old(games)[gameId := engine.addPlayer(old(games)[gameId], board, playerName)]
        && activeGames == old(activeGames)[board := gameId]
      ensures Tallied(entry, if r == Added then {gameId} else {}, {})
    {
      if gameId !in games {
        return GameNotFound;
      }
      if !IsBoardRegistered(board) {
        return BoardNotFound;
      }
      if board in activeGames && activeGames[board] != gameId {
        return BoardBusy;
      }
      games := games[gameId := engine.addPlayer(games[gameId], board, playerName)];
      activeGames := activeGames[board := gameId];
      PublishUpdate(gameId, entry);
      r := Added;
    }

    /** `addPlayerToGameHandler`: after the clean-up, fails with GameNotFound for an unknown
        game, BoardNotFound for a board that is not registered and BoardBusy for a board
        bound to another game, changing nothing more; otherwise the engine adds the player,
        the board is bound to the game and the game's viewers are refreshed. */
    method AddPlayer(gameId: int, board: string, playerName: string, engine: Engine) returns (r: Binding)
      requires Valid()
      modifies this, hubs.Values
      ensures Valid()
      ensures boards == old(boards)
      ensures hubs == old(hubs) - EndedIds(old(games))
      ensures var live := old(games) - EndedIds(old(games));
              r == GameNotFound <==> gameId !in live
      ensures var live := old(games) - EndedIds(old(games));
              r == BoardNotFound <==> gameId in live && board !in old(boards)
      ensures var live := old(games) - EndedIds(old(games));
              var bound := Unbind(old(activeGames), EndedIds(old(games)));
              r == BoardBusy <==> gameId in live && board in old(boards) && board in bound && bound[board] != gameId
      ensures r != Added ==>
                && games == old(games) - EndedIds(old(games))
                && activeGames == Unbind(old(activeGames), EndedIds(old(games)))
      ensures var live := old(games) - EndedIds(old(games));
              r == Added ==>
                && games == live[gameId := engine.addPlayer(live[gameId], board, playerName)]
                && activeGames == Unbind(old(activeGames), EndedIds(old(games)))[board := gameId]
      ensures Tallied(old(hubs), if r == Added then {gameId} else {}, EndedIds(old(games)))
    {
      ghost var entry := hubs;
      RemoveEndedGames();
      r := Admit(gameId, board, playerName, engine, entry);
    }

    /** The scan of `dartHandler`: a game whose current index is out of range makes it
        panic; otherwise it finds some game whose current player sits at `board`, if any. */
    method FindTurn(board: string) returns (t: Turn)
      ensures t == OutOfRange <==> exists id :: id in games && !TurnInRange(games[id])
      ensures t == NoTurn <==> forall id :: id in games ==> TurnInRange(games[id]) && !OnTurn(games[id], board)
      ensures t.TurnOf? ==> t.id in games && OnTurn(games[t.id], board)
    {
      var found := NoTurn;
      var todo := games.Keys;
      while todo != {}
        invariant todo <= games.Keys
        invariant forall id :: id in games && id !in todo ==> TurnInRange(games[id])
        invariant found.TurnOf? ==> found.id in games && OnTurn(games[found.id], board)
        invariant found == NoTurn <==> forall id :: id in games && id !in todo ==> !OnTurn(games[id], board)
        invariant found != OutOfRange
        decreases |todo|
      {
        var id := Pick(todo);
        var g := games[id];
        if !(0 <= g.current < |g.players|) {
          return OutOfRange;
        }
        if g.players[g.current].board == board {
          found := TurnOf(id);
        }
        todo := todo - {id};
      }
      t := found;
    }

    /** `dartHandler`: the dart goes to some game whose current player sits at the dart's
        board; the engine's new state is stored and the viewers refreshed, or the engine's
        error is returned and nothing changes. No matching game, or an index panic in the
        scan, changes nothing. There is no clean-up here. */
    method Dart(board: string, sector: Sector, engine: Engine) returns (r: DartOutcome)
      requires Valid()
      modifies this`games, hubs.Values
      ensures Valid()
      ensures hubs == old(hubs)
      ensures r == Crashed <==> exists id :: id in old(games) && !TurnInRange(old(games)[id])
      ensures r == NoGame <==>
        forall id :: id in old(games) ==> TurnInRange(old(games)[id]) && !OnTurn(old(games)[id], board)
      ensures !r.Scored? ==> games == old(games) && Tallied(hubs, {}, {})
      ensures r.Refused? ==>
        exists id :: id in old(games) && OnTurn(old(games)[id], board)
                     && engine.handleDart(old(games)[id], sector) == Failed(r.reason)
      ensures r.Scored? ==>
        exists id :: id in old(games) && OnTurn(old(games)[id], board)
                     && engine.handleDart(old(games)[id], sector) == Handled(r.state)
                     && games == old(games)[id := r.state]
                     && Tallied(hubs, {id}, {})
    {
      var t := FindTurn(board);
      match t
      case OutOfRange =>
        r := Crashed;
      case NoTurn =>
        r := NoGame;
      case TurnOf(id) =>
        var reply := engine.handleDart(games[id], sector);
        match reply
        case Failed(reason) =>
          r := Refused(reason);
        case Handled(state) =>
          games := games[id := state];
          PublishUpdate(id, hubs);
          r := Scored(state);
    }

    /** One step of the watchdog's inner loop: game `id` is told that board `name` left, and
        its viewers are refreshed when it cannot go on. Before and after the step, the games
        in `todo` have not been told, `left` holds every game's state so far, `dropped` the
        games told so far that cannot go on, and exactly their hubs were refreshed since
        the counters `counts` were read. */
    method TellGame(name: string, engine: Engine, id: int, todo: set<int>, left: map<int, Game>,
                    ghost dropped: set<int>, hasEndedGame: bool, ghost counts: map<int, Counts>)
      returns (left': map<int, Game>, ghost dropped': set<int>, hasEndedGame': bool)
      requires games.Keys <= hubs.Keys && Distinct(hubs) && id in todo
      requires todo <= games.Keys
      requires left == Notified(games, todo, name, engine)
      requires dropped == Abandoned(games - todo, name, engine)
      requires hasEndedGame <==> dropped != {}
      requires Counted(hubs, counts, dropped, {})
      modifies hubs[id]
      ensures left' == Notified(games, todo - {id}, name, engine)
      ensures dropped' == Abandoned(games - (todo - {id}), name, engine)
      ensures hasEndedGame' <==> dropped' != {}
      ensures Counted(hubs, counts, dropped', {})
    {
      NotifiedStep(games, todo, id, name, engine);
      var reply := engine.boardHasLeft(left[id], name);
      left' := left[id := reply.state];
      dropped', hasEndedGame' := dropped, hasEndedGame;
      if !reply.stillViable {
        PublishUpdate(id, hubs);
        hasEndedGame' := true;
        dropped' := dropped + {id};
      }
    }

    /** The inner loop of the watchdog: every game is told that board `name` left, and the
        viewers of each game that cannot go on are refreshed. The games' new states are
        returned in `left`. */
    method TellGames(name: string, engine: Engine) returns (left: map<int, Game>, hasEndedGame: bool)
      requires games.Keys <= hubs.Keys && Distinct(hubs)
      modifies hubs.Values
      ensures left == AfterLeave(games, name, engine)
      ensures hasEndedGame <==> Abandoned(games, name, engine) != {}
      ensures Tallied(hubs, Abandoned(games, name, engine), {})
    {
      hasEndedGame := false;
      left := games;
      ghost var dropped: set<int> := {};
      ghost var counts := Snapshot(hubs);
      var todo := games.Keys;
      NotifiedEnds(games, name, engine);
      while todo != {}
        invariant todo <= games.Keys
        invariant left == Notified(games, todo, name, engine)
        invariant dropped == Abandoned(games - todo, name, engine)
        invariant hasEndedGame <==> dropped != {}
        invariant Counted(hubs, counts, dropped, {})
        decreases |todo|
      {
        var id := Pick(todo);
        left, dropped, hasEndedGame := TellGame(name, engine, id, todo, left, dropped, hasEndedGame, counts);
        todo := todo - {id};
      }
    }

    /** The watchdog telling every game that board `name` left, and storing their new
        states. */
    method NotifyBoardLeft(name: string, engine: Engine) returns (hasEndedGame: bool)
      requires Valid()
      modifies this`games, hubs.Values
      ensures Valid()
      ensures games == AfterLeave(old(games), name, engine)
      ensures hasEndedGame <==> Abandoned(old(games), name, engine) != {}
      ensures Tallied(hubs, Abandoned(old(games), name, engine), {})
    {
      var left;
      left, hasEndedGame := TellGames(name, engine);
      games := left;
    }

    /** The body of the watchdog for one stale board: the board is removed, every game is
        told it left, and if some game cannot go on the ended games are cleaned up. */
    method EvictBoard(name: string, engine: Engine)
      requires Valid() && name in boards
      modifies this, hubs.Values
      ensures Valid()
      ensures boards == old(boards) - {name}
      ensures var ended := if Abandoned(old(games), name, engine) == {} then {}
                           else EndedIds(AfterLeave(old(games), name, engine));
              && games == AfterLeave(old(games), name, engine) - ended
              && hubs == old(hubs) - ended
              && activeGames == Unbind(old(activeGames), ended)
              && Tallied(old(hubs), Abandoned(old(games), name, engine), ended)
    {
      var evicted := boards[name];
      boards := boards - {name};
      var hasEndedGame := NotifyBoardLeft(evicted.name, engine);
      if hasEndedGame {
        RemoveEndedGames();
      } else {
        NothingToSweep(games, hubs, activeGames);
      }
    }

    /** One iteration of the watchdog's board loop: board `name` is evicted when it was
        last seen strictly before `deadline`, and left alone otherwise. `entry` and `counts`
        are the hubs and their counters when the tick began: every hub still registered is
        filed as it was then, and every hub no longer registered was closed exactly once. */
    method CheckBoard(name: string, deadline: int, engine: Engine,
                      ghost entry: map<int, Hub>, ghost counts: map<int, Counts>)
      requires Valid() && name in boards && Distinct(entry)
      requires forall id :: id in hubs ==> id in entry && hubs[id] == entry[id]
      requires forall id :: id in entry ==>
        id in counts && entry[id].closes == counts[id].closes + (if id in hubs then 0 else 1)
      modifies this, hubs.Values
      ensures Valid()
      ensures boards == if old(boards)[name].lastSeen < deadline then old(boards) - {name} else old(boards)
      ensures old(boards)[name].lastSeen < deadline ==>
                var ended := if Abandoned(old(games), name, engine) == {} then {}
                             else EndedIds(AfterLeave(old(games), name, engine));
                && games == AfterLeave(old(games), name, engine) - ended
                && hubs == old(hubs) - ended
                && activeGames == Unbind(old(activeGames), ended)
                && Tallied(old(hubs), Abandoned(old(games), name, engine), ended)
      ensures deadline <= old(boards)[name].lastSeen ==>
                && games == old(games) && hubs == old(hubs) && activeGames == old(activeGames)
                && Tallied(old(hubs), {}, {})
      ensures games.Keys <= old(games).Keys
      ensures activeGames == Unbind(old(activeGames), old(games).Keys - games.Keys)
      ensures forall id :: id in hubs ==> id in entry && hubs[id] == entry[id]
      ensures forall id :: id in entry ==>
        entry[id].closes == counts[id].closes + (if id in hubs then 0 else 1)
    {
      FiledWithin(hubs, entry);
      if boards[name].lastSeen < deadline {
        ghost var before := games;
        EvictBoard(name, engine);
        LeaveKeepsEveryGame(before, name, engine);
        assert before.Keys - games.Keys == if Abandoned(before, name, engine) == {} then {}
                                           else EndedIds(AfterLeave(before, name, engine));
      } else {
        NothingToSweep(games, hubs, activeGames);
        assert games.Keys - games.Keys == {};
      }
    }

    /** One tick of the watchdog with `deadline = now - timeout`: exactly the boards last
        seen strictly before the deadline are removed. Hubs can only disappear, and a hub
        disappears exactly when it is closed, once. */
    method Tick(now: int, timeout: int, engine: Engine)
      requires Valid()
      modifies this, hubs.Values
      ensures Valid()
      ensures boards == Survivors(old(boards), now - timeout)
      ensures forall id :: id in hubs ==> id in old(hubs) && hubs[id] == old(hubs)[id]
      ensures forall id :: id in old(hubs) ==>
        old(hubs)[id].closes == old(hubs[id].closes) + (if id in hubs then 0 else 1)
      ensures games.Keys <= old(games).Keys
      ensures activeGames == Unbind(old(activeGames), old(games).Keys - games.Keys)
      ensures Survivors(old(boards), now - timeout) == old(boards) ==>
                && games == old(games) && hubs == old(hubs) && activeGames == old(activeGames)
                && Tallied(hubs, {}, {})
    {
      var deadline := now - timeout;
      ghost var entry := hubs;
      ghost var counts := Snapshot(hubs);
      var todo := boards.Keys;
      CheckedEnds(boards, deadline);
      while todo != {}
        invariant Valid()
        invariant todo <= old(boards).Keys
        invariant boards == Checked(old(boards), todo, deadline)
        invariant forall id :: id in hubs ==> id in entry && hubs[id] == entry[id]
        invariant forall id :: id in entry ==>
          entry[id].closes == counts[id].closes + (if id in hubs then 0 else 1)
        invariant games.Keys <= old(games).Keys
        invariant activeGames == Unbind(old(activeGames), old(games).Keys - games.Keys)
        invariant Survivors(old(boards), deadline) == old(boards) ==>
          && games == old(games) && hubs == entry && activeGames == old(activeGames)
          && Counted(entry, counts, {}, {})
        decreases |todo|
      {
        var name := Pick(todo);
        CheckedStep(old(boards), todo, name, deadline);
        FiledWithin(hubs, entry);
        ghost var before := games;
        CheckBoard(name, deadline, engine, entry, counts);
        UnbindGone(old(activeGames), old(games).Keys, before.Keys, games.Keys);
        todo := todo - {name};
      }
    }
  }
}
