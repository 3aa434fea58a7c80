/**
 What the lazy clean-up (`removeEndedGame`) does to the registries, stated on values:
 ended games go, and so do the board bindings that point at them.
 */
module Sweep {
  import opened Games

  /** The ids of the games the engine reports as OVER. */
  function EndedIds(games: map<int, Game>): set<int>
  {
    set id | id in games && games[id].over
  }

  /** The board bindings that do not point at one of `ids`. */
  function Unbind(active: map<string, int>, ids: set<int>): map<string, int>
  {
    map b | b in active && active[b] !in ids :: active[b]
  }

  /** After a sweep no game is over, and every game that was not over is still there,
      unchanged. */
  lemma SweepKeepsExactlyTheLiveGames(games: map<int, Game>)
    ensures EndedIds(games - EndedIds(games)) == {}
    ensures forall id :: id in games && !games[id].over <==> id in games - EndedIds(games)
  {
  }

  /** A set that holds exactly the ended games' ids is `EndedIds`. */
  lemma EndedIdsAre(games: map<int, Game>, done: set<int>)
    requires forall i :: i in done ==> i in games && games[i].over
    requires forall i :: i in games && games[i].over ==> i in done
    ensures done == EndedIds(games)
  {
    assert forall i :: i in done <==> i in EndedIds(games);
  }

  /** When no game is over there is nothing to sweep. */
  lemma NoneEnded(games: map<int, Game>)
    requires forall id :: id in games ==> !games[id].over
    ensures EndedIds(games) == {}
  {
    assert forall i :: i !in EndedIds(games);
  }

  /** Sweeping no id changes nothing. */
  lemma NothingToSweep<H>(games: map<int, Game>, hubs: map<int, H>, active: map<string, int>)
    ensures games - {} == games && hubs - {} == hubs && Unbind(active, {}) == active
  {
    assert Unbind(active, {}) == active;
  }

  /** Releasing the bindings of one more id is releasing the bindings of the larger set. */
  lemma {:induction false} UnbindOneMore(active: map<string, int>, ids: set<int>, id: int)
    ensures Unbind(Unbind(active, ids), {id}) == Unbind(active, ids + {id})
  {
    var lhs, rhs := Unbind(Unbind(active, ids), {id}), Unbind(active, ids + {id});
    assert forall b :: b in lhs <==> b in rhs;
  }

  /** Releasing the bindings of `ids` and then of `more` is releasing those of both. */
  lemma UnbindTwice(active: map<string, int>, ids: set<int>, more: set<int>)
    ensures Unbind(Unbind(active, ids), more) == Unbind(active, ids + more)
  {
    var lhs, rhs := Unbind(Unbind(active, ids), more), Unbind(active, ids + more);
    assert forall b :: b in lhs <==> b in rhs;
  }

  /** Sweeps that shrink the games from `all` to `before` and then to `after` release,
      together, the bindings to every game that is gone. */
  lemma UnbindGone(active: map<string, int>, all: set<int>, before: set<int>, after: set<int>)
    requires after <= before <= all
    ensures Unbind(Unbind(active, all - before), before - after) == Unbind(active, all - after)
  {
    UnbindTwice(active, all - before, before - after);
    assert (all - before) + (before - after) == all - after;
  }

  /** A second sweep right after the first changes nothing: there is no ended game left,
      and no binding left that points at one. */
  lemma SweepIsIdempotent(games: map<int, Game>, active: map<string, int>)
    ensures var ended := EndedIds(games);
            var live := games - ended;
            && live - EndedIds(live) == live
            && Unbind(Unbind(active, ended), EndedIds(live)) == Unbind(active, ended)
  {
    var ended := EndedIds(games);
    var live := games - ended;
    SweepKeepsExactlyTheLiveGames(games);
    assert EndedIds(live) == {};
    assert live - {} == live;
    var bound := Unbind(active, ended);
    assert Unbind(bound, {}) == bound;
  }
}
