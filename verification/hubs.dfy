/**
 The viewer hub of one game. Its websocket fan-out is not part of this model; a hub
 is reduced to how many times it was asked to refresh its viewers and how many times
 it was closed.
 */
module Hubs {

  class Hub {
    var refreshes: nat
    var closes: nat

    /** A new hub has pushed nothing and is open. */
    constructor ()
      ensures refreshes == 0 && closes == 0
    {
      refreshes, closes := 0, 0;
    }

    /** Push the game's current state to every viewer. */
    method Refresh()
      modifies this
      ensures refreshes == old(refreshes) + 1 && closes == old(closes)
    {
      refreshes := refreshes + 1;
    }

    /** Disconnect every viewer. */
    method Close()
      modifies this
      ensures closes == old(closes) + 1 && refreshes == old(refreshes)
    {
      closes := closes + 1;
    }
  }

  /** No two keys share a hub. */
  predicate Distinct(hs: map<int, Hub>)
  {
    forall i, j :: i in hs && j in hs && i != j ==> hs[i] != hs[j]
  }

  /** The hubs of a registry `hs` filed as in a registry `entry` without shared hubs are
      hubs of `entry`, and no other hub of `entry` is one of them. */
  lemma FiledWithin(hs: map<int, Hub>, entry: map<int, Hub>)
    requires Distinct(entry)
    requires forall id :: id in hs ==> id in entry && hs[id] == entry[id]
    ensures hs.Values <= entry.Values
    ensures forall id :: id in entry && id !in hs ==> entry[id] !in hs.Values
  {
    forall k | k in hs
      ensures hs[k] in entry.Values
    {
      assert k in entry.Keys;
    }
    forall id | id in entry && id !in hs
      ensures entry[id] !in hs.Values
    {
      forall k | k in hs
        ensures hs[k] != entry[id]
      {
        assert hs[k] == entry[k] && k != id;
      }
    }
  }

  /** Between the old and the current state, every hub of `hs` was refreshed once if its
      key is in `refreshed` and not otherwise, and closed once if its key is in `closed`
      and not otherwise. */
  twostate predicate Tallied(hs: map<int, Hub>, refreshed: set<int>, closed: set<int>)
    reads hs.Values
  {
    forall id :: id in hs ==>
      && hs[id].refreshes == old(hs[id].refreshes) + (if id in refreshed then 1 else 0)
      && hs[id].closes == old(hs[id].closes) + (if id in closed then 1 else 0)
  }

  /** The counters of one hub at some moment. */
  datatype Counts = Counts(refreshes: nat, closes: nat)

  /** The counters of every hub of `hs`, as a value that outlives the state it was read in. */
  ghost function Snapshot(hs: map<int, Hub>): (counts: map<int, Counts>)
    reads hs.Values
    ensures counts.Keys == hs.Keys
  {
    map id | id in hs :: Counts(hs[id].refreshes, hs[id].closes)
  }

  /** `Tallied` measured against counters read earlier: every hub of `hs` was refreshed
      once more than in `before` exactly when its key is in `refreshed`, and closed once
      more exactly when its key is in `closed`. */
  ghost predicate Counted(hs: map<int, Hub>, before: map<int, Counts>, refreshed: set<int>, closed: set<int>)
    reads hs.Values
  {
    forall id :: id in hs ==>
      && id in before
      && hs[id].refreshes == before[id].refreshes + (if id in refreshed then 1 else 0)
      && hs[id].closes == before[id].closes + (if id in closed then 1 else 0)
  }
}
