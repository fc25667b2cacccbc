/**
 The registry invariant and its preservation by every operation.

 A store is well formed when the games and the connection table have the
 same keys, every game is filed under its own id, holds at most two seats
 with distinct player ids, and its connection set is exactly the ids of its
 connected seats.
 */
module StoreInvariant {
  import opened GameTypes
  import opened Seats
  import opened GameStore
  import opened Sweeps

  /** One game filed under `id` is well formed. */
  predicate ValidGame(id: string, g: Game)
  {
    g.gameId == id && |g.players| <= MAX_PLAYERS && DistinctIds(g.players)
  }

  /** The registry invariant. */
  predicate Valid(s: Store)
  {
    && s.games.Keys == s.connections.Keys
    && forall k :: k in s.games ==> ValidGame(k, s.games[k]) && s.connections[k] == ConnectedIds(s.games[k].players)
  }

  /** Marking one seat of a list with distinct ids moves exactly that id in or out of the connected ids. */
  lemma {:induction false} SetPresenceConnected(ps: seq<Player>, k: nat, c: bool, now: int)
    requires k < |ps| && DistinctIds(ps)
    ensures DistinctIds(SetPresence(ps, k, c, now))
    ensures ConnectedIds(SetPresence(ps, k, c, now)) ==
      if c then ConnectedIds(ps) + {ps[k].id} else ConnectedIds(ps) - {ps[k].id}
  {
    var ps' := SetPresence(ps, k, c, now);
    var want := if c then ConnectedIds(ps) + {ps[k].id} else ConnectedIds(ps) - {ps[k].id};
    forall x | x in ConnectedIds(ps') ensures x in want {
      var i :| 0 <= i < |ps'| && ps'[i].connected && ps'[i].id == x;
      if i != k { assert ps[i] == ps'[i]; assert ps[i].id != ps[k].id; }
    }
    forall x | x in want ensures x in ConnectedIds(ps') {
      if c && x == ps[k].id {
        assert ps'[k].connected && ps'[k].id == x;
      } else {
        var i :| 0 <= i < |ps| && ps[i].connected && ps[i].id == x;
        assert i != k;
        assert ps'[i] == ps[i];
      }
    }
  }

  /** A join on a seat list with distinct ids keeps them distinct and adds the id to the connected ids. */
  lemma {:induction false} JoinSeatsConnected(ps: seq<Player>, pid: string, name: string, now: int)
    requires DistinctIds(ps) && JoinSeats(ps, pid, name, now).Some?
    ensures DistinctIds(JoinSeats(ps, pid, name, now).value)
    ensures ConnectedIds(JoinSeats(ps, pid, name, now).value) == ConnectedIds(ps) + {pid}
  {
    var k := FindIndex(ps, pid);
    if k >= 0 {
      SetPresenceConnected(ps, k, true, now);
    } else {
      var ps' := ps + [Player(pid, name, true, now)];
      assert ps' == JoinSeats(ps, pid, name, now).value;
      forall x | x in ConnectedIds(ps') ensures x in ConnectedIds(ps) + {pid} {
        var i :| 0 <= i < |ps'| && ps'[i].connected && ps'[i].id == x;
        if i < |ps| { assert ps[i] == ps'[i]; }
      }
      forall x | x in ConnectedIds(ps) ensures x in ConnectedIds(ps') {
        var i :| 0 <= i < |ps| && ps[i].connected && ps[i].id == x;
        assert ps'[i] == ps[i];
      }
      assert ps'[|ps|].connected && ps'[|ps|].id == pid;
    }
  }

  /** A leave on a seat list with distinct ids keeps them distinct and removes the id from the connected ids. */
  lemma {:induction false} LeaveSeatsConnected(ps: seq<Player>, pid: string, now: int)
    requires DistinctIds(ps)
    ensures DistinctIds(LeaveSeats(ps, pid, now))
    ensures ConnectedIds(LeaveSeats(ps, pid, now)) == ConnectedIds(ps) - {pid}
  {
    var k := FindIndex(ps, pid);
    if k >= 0 {
      SetPresenceConnected(ps, k, false, now);
    } else {
      forall x | x in ConnectedIds(ps) ensures x != pid {
        var i :| 0 <= i < |ps| && ps[i].connected && ps[i].id == x;
      }
    }
  }

  /** Demoting the stale seats of a list with distinct ids removes exactly their ids from the connected ids. */
  lemma {:induction false} DemoteStaleConnected(ps: seq<Player>, now: int)
    requires DistinctIds(ps)
    ensures DistinctIds(DemoteStale(ps, now))
    ensures ConnectedIds(DemoteStale(ps, now)) == ConnectedIds(ps) - StaleIds(ps, now)
  {
    var ps' := DemoteStale(ps, now);
    forall x | x in ConnectedIds(ps') ensures x in ConnectedIds(ps) - StaleIds(ps, now) {
      var i :| 0 <= i < |ps'| && ps'[i].connected && ps'[i].id == x;
      assert ps[i].connected && !Stale(ps[i], now);
      forall j | 0 <= j < |ps| && ps[j].id == x ensures !Stale(ps[j], now) {
        assert j == i;
      }
    }
    forall x | x in ConnectedIds(ps) - StaleIds(ps, now) ensures x in ConnectedIds(ps') {
      var i :| 0 <= i < |ps| && ps[i].connected && ps[i].id == x;
      assert !Stale(ps[i], now);
      assert ps'[i].connected && ps'[i].id == x;
    }
  }

  /** A store with no games is well formed. */
  lemma EmptyIsValid()
    ensures Valid(EmptyStore)
  {
  }

  /** `createGame` keeps the registry well formed, even when it replaces a game. */
  lemma {:induction false} CreatePreservesValid(s: Store, id: string, now: int)
    requires Valid(s)
    ensures Valid(CreateGame(s, id, now).store)
  {
    var s' := CreateGame(s, id, now).store;
    assert ConnectedIds(s'.games[id].players) == {};
  }

  /** `updateGame` keeps the registry well formed when the patch leaves the id and the seats alone. */
  lemma {:induction false} UpdatePreservesValid(s: Store, id: string, p: Patch, now: int)
    requires Valid(s) && p.KeepsSeats()
    ensures Valid(UpdateGame(s, id, p, now).store)
  {
  }

  /** `joinGame` keeps the registry well formed: at most two seats, distinct ids, connections in step. */
  lemma {:induction false} JoinPreservesValid(s: Store, id: string, pid: string, name: string, now: int)
    requires Valid(s)
    ensures Valid(JoinGame(s, id, pid, name, now).store)
  {
    var r := JoinGame(s, id, pid, name, now);
    if r.result.Some? {
      JoinSeatsConnected(s.games[id].players, pid, name, now);
    }
  }

  /** `leaveGame` keeps the registry well formed. */
  lemma {:induction false} LeavePreservesValid(s: Store, id: string, pid: string, now: int)
    requires Valid(s)
    ensures Valid(LeaveGame(s, id, pid, now).store)
  {
    if id in s.games {
      LeaveSeatsConnected(s.games[id].players, pid, now);
    }
  }

  /** `updatePlayerHeartbeat` keeps the registry well formed. */
  lemma {:induction false} HeartbeatPreservesValid(s: Store, id: string, pid: string, now: int)
    requires Valid(s)
    ensures Valid(UpdatePlayerHeartbeat(s, id, pid, now).store)
  {
    if id in s.games && pid in PlayerIds(s.games[id].players) {
      var ps := s.games[id].players;
      SetPresenceConnected(ps, FindIndex(ps, pid), true, now);
    }
  }

  /** `checkPlayerConnections` keeps the registry well formed. */
  lemma {:induction false} CheckPreservesValid(s: Store, now: int)
    requires Valid(s)
    ensures Valid(CheckPlayerConnections(s, now))
  {
    var s' := CheckPlayerConnections(s, now);
    forall k | k in s'.games
      ensures ValidGame(k, s'.games[k]) && s'.connections[k] == ConnectedIds(s'.games[k].players)
    {
      var g, g' := s.games[k], s'.games[k];
      assert g' == SweepGame(g, now);
      assert s'.connections[k] == s.connections[k] - StaleIds(g.players, now);
      DemoteStaleConnected(g.players, now);
      if AnyStale(g.players, now) {
        assert g'.players == DemoteStale(g.players, now);
      } else {
        assert g' == g;
      }
    }
  }

  /** `cleanupInactiveGames` keeps the registry well formed. */
  lemma {:induction false} CleanupPreservesValid(s: Store, now: int)
    requires Valid(s)
    ensures Valid(CleanupInactiveGames(s, now))
  {
    var s' := CleanupInactiveGames(s, now);
    assert s'.games.Keys == s'.connections.Keys by {
      forall k | k in s'.connections ensures k in s'.games {
        assert k in s.connections && k in s.games;
      }
    }
  }
}
