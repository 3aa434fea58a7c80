/**
 The board registry and what the watchdog does with it, stated on values: a board is
 evicted when it was last seen strictly before the deadline, and every game is told
 that the board has left.
 */
module Liveness {
  import opened Games

  /** A registered board and the time of its last heartbeat. */
  datatype Board = Board(name: string, lastSeen: int)

  /** The boards that survive a watchdog tick with this deadline: those seen at or after it. */
  function Survivors(boards: map<string, Board>, deadline: int): (kept: map<string, Board>)
    ensures forall n :: n in kept <==> n in boards && deadline <= boards[n].lastSeen
    ensures forall n :: n in kept ==> kept[n] == boards[n]
  {
    map n | n in boards && !(boards[n].lastSeen < deadline) :: boards[n]
  }

  /** A board whose heartbeat was taken at `now` survives every tick whose deadline is not
      after `now`, whatever the other boards did. */
  lemma FreshHeartbeatSurvives(boards: map<string, Board>, name: string, now: int, deadline: int)
    requires deadline <= now
    ensures name in Survivors(boards[name := Board(name, now)], deadline)
    ensures Survivors(boards[name := Board(name, now)], deadline)[name].lastSeen == now
  {
  }

  /** The boards while the watchdog's board loop runs: those in `todo` have not been
      checked yet and are all still there; of the others, only those seen at or after the
      deadline are. */
  function Checked(boards: map<string, Board>, todo: set<string>, deadline: int): map<string, Board>
  {
    map n | n in boards && (n in todo || deadline <= boards[n].lastSeen) :: boards[n]
  }

  /** Before the loop every board is there; after it, exactly the survivors are. */
  lemma CheckedEnds(boards: map<string, Board>, deadline: int)
    ensures Checked(boards, boards.Keys, deadline) == boards
    ensures Checked(boards, {}, deadline) == Survivors(boards, deadline)
  {
    assert Checked(boards, boards.Keys, deadline) == boards;
  }

  /** Checking one more board removes it exactly when it was last seen before the deadline. */
  lemma CheckedStep(boards: map<string, Board>, todo: set<string>, name: string, deadline: int)
    requires name in todo && todo <= boards.Keys
    ensures name in Checked(boards, todo, deadline)
    ensures Checked(boards, todo, deadline)[name] == boards[name]
    ensures (if boards[name].lastSeen < deadline then Checked(boards, todo, deadline) - {name}
             else Checked(boards, todo, deadline))
            == Checked(boards, todo - {name}, deadline)
  {
    var before, after := Checked(boards, todo, deadline), Checked(boards, todo - {name}, deadline);
    var kept := if boards[name].lastSeen < deadline then before - {name} else before;
    assert forall n :: n in kept <==> n in after;
  }

  /** Every game after the engine has been told that board `name` left. */
  function AfterLeave(games: map<int, Game>, name: string, engine: Engine): map<int, Game>
  {
    map id | id in games :: engine.boardHasLeft(games[id], name).state
  }

  /** Telling the games that a board left removes none of them and adds none. */
  lemma LeaveKeepsEveryGame(games: map<int, Game>, name: string, engine: Engine)
    ensures AfterLeave(games, name, engine).Keys == games.Keys
  {
  }

  /** The games whose engine reports that they cannot go on without board `name`. */
  function Abandoned(games: map<int, Game>, name: string, engine: Engine): set<int>
  {
    set id | id in games && !engine.boardHasLeft(games[id], name).stillViable
  }

  /** The games while the watchdog's inner loop runs: those in `todo` have not been told
      yet, the others have. */
  function Notified(games: map<int, Game>, todo: set<int>, name: string, engine: Engine): map<int, Game>
  {
    games + AfterLeave(games - todo, name, engine)
  }

  /** Before the loop nothing has been told; after it, every game has. */
  lemma NotifiedEnds(games: map<int, Game>, name: string, engine: Engine)
    ensures Notified(games, games.Keys, name, engine) == games
    ensures Notified(games, {}, name, engine) == AfterLeave(games, name, engine)
    ensures Abandoned(games - games.Keys, name, engine) == {}
    ensures Abandoned(games - {}, name, engine) == Abandoned(games, name, engine)
  {
    assert games - games.Keys == map[];
    assert AfterLeave(map[], name, engine) == map[];
    assert games - {} == games;
  }

  /** Telling one more game `id` that the board left updates exactly that game, and adds
      it to the abandoned ones when its engine says it cannot go on. */
  lemma NotifiedStep(games: map<int, Game>, todo: set<int>, id: int, name: string, engine: Engine)
    requires id in todo && todo <= games.Keys
    ensures id in Notified(games, todo, name, engine)
    ensures Notified(games, todo, name, engine)[id] == games[id]
    ensures Notified(games, todo, name, engine)[id := engine.boardHasLeft(games[id], name).state]
            == Notified(games, todo - {id}, name, engine)
    ensures Abandoned(games - (todo - {id}), name, engine)
            == Abandoned(games - todo, name, engine)
               + (if engine.boardHasLeft(games[id], name).stillViable then {} else {id})
  {
    var before, after := Notified(games, todo, name, engine), Notified(games, todo - {id}, name, engine);
    var updated := before[id := engine.boardHasLeft(games[id], name).state];
    assert forall k :: k in updated <==> k in after;
    assert forall k :: k in updated ==> updated[k] == after[k];
  }
}
