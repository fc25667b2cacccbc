/**
 Properties that relate several operations of the registry: idempotence of
 join and of both sweeps, rejoin undoing a leave, the two-seat cap seen
 from a sequence of joins, presence timing after a join, eviction of games
 nobody joined, seat preservation by each single operation, and the
 registry invariant over whole runs of operations.
 */
module StoreProperties {
  import opened GameTypes
  import opened Seats
  import opened GameStore
  import opened Sweeps
  import opened StoreInvariant

  /** At the seat level, a second identical join changes no seat. */
  lemma {:induction false} JoinSeatsIdempotent(ps: seq<Player>, pid: string, name: string, now: int)
    requires JoinSeats(ps, pid, name, now).Some?
    ensures var ps' := JoinSeats(ps, pid, name, now).value; JoinSeats(ps', pid, name, now) == Some(ps')
  {
    var ps' := JoinSeats(ps, pid, name, now).value;
    var k := FindIndex(ps, pid);
    var k' := FindIndex(ps', pid);
    if k >= 0 {
      assert k' == k by {
        assert ps'[k].id == pid;
        assert forall i :: 0 <= i < k ==> ps'[i].id == ps[i].id;
      }
    } else {
      assert k' == |ps| by {
        assert ps'[|ps|].id == pid;
        assert forall i :: 0 <= i < |ps| ==> ps'[i].id == ps[i].id;
      }
    }
    assert SetPresence(ps', k', true, now) == ps';
  }

  /** A join on the store a successful identical join produced leaves that store as it is. */
  lemma {:induction false} JoinOnJoinedStore(s: Store, id: string, pid: string, name: string, now: int)
    requires id in s.games && JoinSeats(s.games[id].players, pid, name, now).Some?
    ensures var g := s.games[id];
      var g' := g.(players := JoinSeats(g.players, pid, name, now).value, lastActivity := now);
      var s1 := Store(s.games[id := g'], AddConnection(s.connections, id, pid));
      JoinGame(s1, id, pid, name, now) == Step(s1, Some(g'))
  {
    var g := s.games[id];
    JoinSeatsIdempotent(g.players, pid, name, now);
    var g' := g.(players := JoinSeats(g.players, pid, name, now).value, lastActivity := now);
    var s1 := Store(s.games[id := g'], AddConnection(s.connections, id, pid));
    assert s1.games[id] == g';
    JoinOutcome(s1, id, pid, name, now);
    assert g'.(players := g'.players, lastActivity := now) == g';
    AddIsIdempotent(s.connections, id, pid);
    assert s1.games[id := g'] == s1.games;
  }

  /** Repeating a successful join at the same instant changes nothing further. */
  lemma {:induction false} JoinIsIdempotent(s: Store, id: string, pid: string, name: string, now: int)
    requires JoinGame(s, id, pid, name, now).result.Some?
    ensures JoinGame(JoinGame(s, id, pid, name, now).store, id, pid, name, now) == JoinGame(s, id, pid, name, now)
  {
    JoinOutcome(s, id, pid, name, now);
    JoinOnJoinedStore(s, id, pid, name, now);
  }

  /** At the seat level, a rejoin after a leave at the same instant gives what a plain join gives. */
  lemma {:induction false} RejoinSeatsUndoLeave(ps: seq<Player>, pid: string, name: string, now: int)
    ensures JoinSeats(LeaveSeats(ps, pid, now), pid, name, now) == JoinSeats(ps, pid, name, now)
  {
    var ls := LeaveSeats(ps, pid, now);
    var k := FindIndex(ps, pid);
    if k >= 0 {
      assert FindIndex(ls, pid) == k by {
        assert ls[k].id == pid;
        assert forall i :: 0 <= i < k ==> ls[i].id == ps[i].id;
      }
      assert SetPresence(ls, k, true, now) == SetPresence(ps, k, true, now);
    } else {
      assert ls == ps;
    }
  }

  /** The whole outcome of a successful join, in closed form. */
  lemma {:induction false} JoinOutcome(s: Store, id: string, pid: string, name: string, now: int)
    requires JoinGame(s, id, pid, name, now).result.Some?
    ensures var g := s.games[id];
      var g' := g.(players := JoinSeats(g.players, pid, name, now).value, lastActivity := now);
      JoinGame(s, id, pid, name, now) == Step(Store(s.games[id := g'], AddConnection(s.connections, id, pid)), Some(g'))
  {
    var r := JoinGame(s, id, pid, name, now);
    var g := s.games[id];
    var g' := g.(players := JoinSeats(g.players, pid, name, now).value, lastActivity := now);
    assert r.result.value == g';
    assert r.store.games == s.games[id := g'];
  }

  /** Adding the same connection twice is adding it once. */
  lemma {:induction false} AddIsIdempotent(conns: map<string, set<string>>, id: string, pid: string)
    ensures AddConnection(AddConnection(conns, id, pid), id, pid) == AddConnection(conns, id, pid)
  {
    assert ConnectionsOf(conns, id) + {pid} + {pid} == ConnectionsOf(conns, id) + {pid};
  }

  /** Re-adding a connection just dropped gives what adding it alone gives. */
  lemma {:induction false} DropThenAdd(conns: map<string, set<string>>, id: string, pid: string)
    ensures AddConnection(DropConnection(conns, id, pid), id, pid) == AddConnection(conns, id, pid)
  {
    if id in conns {
      assert (conns[id] - {pid}) + {pid} == conns[id] + {pid};
    }
  }

  /** The store after a leave from a present game, in closed form. */
  lemma {:induction false} LeaveOutcome(s: Store, id: string, pid: string, now: int)
    requires id in s.games
    ensures var g := s.games[id];
      LeaveGame(s, id, pid, now).store ==
        Store(s.games[id := g.(players := LeaveSeats(g.players, pid, now), lastActivity := now)],
              DropConnection(s.connections, id, pid))
  {
  }

  /** A join on the store a leave produces, in the closed form of a plain join. */
  lemma {:induction false} JoinOnLeftStore(s: Store, id: string, pid: string, name: string, now: int)
    requires id in s.games && JoinSeats(s.games[id].players, pid, name, now).Some?
    ensures var g := s.games[id];
      var lg := g.(players := LeaveSeats(g.players, pid, now), lastActivity := now);
      var g' := g.(players := JoinSeats(g.players, pid, name, now).value, lastActivity := now);
      JoinGame(Store(s.games[id := lg], DropConnection(s.connections, id, pid)), id, pid, name, now) ==
        Step(Store(s.games[id := g'], AddConnection(s.connections, id, pid)), Some(g'))
  {
    var g := s.games[id];
    var lg := g.(players := LeaveSeats(g.players, pid, now), lastActivity := now);
    var left := Store(s.games[id := lg], DropConnection(s.connections, id, pid));
    RejoinSeatsUndoLeave(g.players, pid, name, now);
    DropThenAdd(s.connections, id, pid);
    assert left.games[id] == lg;
    JoinOutcome(left, id, pid, name, now);
  }

  /** A join after a leave, in the closed form of a plain join. */
  lemma {:induction false} JoinAfterLeaveOutcome(s: Store, id: string, pid: string, name: string, now: int)
    requires JoinGame(s, id, pid, name, now).result.Some?
    ensures var g := s.games[id];
      var g' := g.(players := JoinSeats(g.players, pid, name, now).value, lastActivity := now);
      JoinGame(LeaveGame(s, id, pid, now).store, id, pid, name, now) ==
        Step(Store(s.games[id := g'], AddConnection(s.connections, id, pid)), Some(g'))
  {
    LeaveOutcome(s, id, pid, now);
    JoinOnLeftStore(s, id, pid, name, now);
  }

  /** When the join succeeds, rejoining right after leaving restores exactly the state a plain successful join would have produced. */
  lemma {:induction false} RejoinUndoesLeave(s: Store, id: string, pid: string, name: string, now: int)
    requires JoinGame(s, id, pid, name, now).result.Some?
    ensures JoinGame(LeaveGame(s, id, pid, now).store, id, pid, name, now) == JoinGame(s, id, pid, name, now)
  {
    JoinAfterLeaveOutcome(s, id, pid, name, now);
    JoinOutcome(s, id, pid, name, now);
  }

  /**
   Two different players join a new game and take the seats in arrival
   order; a third, different player is then refused and nothing changes.
   */
  lemma {:induction false} ThirdPlayerRefused(s: Store, id: string, a: string, b: string, c: string,
                                              na: string, nb: string, nc: string, t0: int, t1: int, t2: int, t3: int)
    requires a != b && c != a && c != b
    ensures var s1 := CreateGame(s, id, t0).store;
      var r2 := JoinGame(s1, id, a, na, t1);
      var r3 := JoinGame(r2.store, id, b, nb, t2);
      var r4 := JoinGame(r3.store, id, c, nc, t3);
      && r2.result.Some? && r3.result.Some?
      && |r3.result.value.players| == 2
      && r3.result.value.players[0].id == a && r3.result.value.players[1].id == b
      && r4.result.None? && r4.store == r3.store
  {
    var s1 := CreateGame(s, id, t0).store;
    assert PlayerIds(s1.games[id].players) == {};
    var r2 := JoinGame(s1, id, a, na, t1);
    assert PlayerIds(r2.store.games[id].players) == {a};
    var r3 := JoinGame(r2.store, id, b, nb, t2);
    assert PlayerIds(r3.store.games[id].players) == {a, b};
  }

  /**
   After a join at `t` on a seat list with distinct ids, with no heartbeat
   since, a presence sweep at `t'` leaves the player's seat connected iff at most 15 s have passed.
   */
  lemma {:induction false} SweepAfterJoin(s: Store, id: string, pid: string, name: string, t: int, t': int)
    requires JoinGame(s, id, pid, name, t).result.Some? && DistinctIds(s.games[id].players)
    ensures var s1 := JoinGame(s, id, pid, name, t).store;
      var g := CheckPlayerConnections(s1, t').games[id];
      forall i :: 0 <= i < |g.players| && g.players[i].id == pid ==>
        (g.players[i].connected <==> t' - t <= HEARTBEAT_TIMEOUT)
  {
    var s1 := JoinGame(s, id, pid, name, t).store;
    var ps := s1.games[id].players;
    assert forall i :: 0 <= i < |ps| && ps[i].id == pid ==> ps[i].connected && ps[i].lastSeen == t;
    assert CheckPlayerConnections(s1, t').games[id] == SweepGame(s1.games[id], t');
  }

  /** Running the presence sweep twice at the same instant is the same as running it once. */
  lemma {:induction false} PresenceSweepIsIdempotent(s: Store, now: int)
    ensures CheckPlayerConnections(CheckPlayerConnections(s, now), now) == CheckPlayerConnections(s, now)
  {
    var s1 := CheckPlayerConnections(s, now);
    var s2 := CheckPlayerConnections(s1, now);
    forall k | k in s1.games ensures !AnyStale(s1.games[k].players, now) && s2.games[k] == s1.games[k] {
      var ps := s1.games[k].players;
      assert forall i :: 0 <= i < |ps| ==> !Stale(ps[i], now);
    }
    assert s2.games == s1.games;
    forall k | k in s1.connections ensures s2.connections[k] == s1.connections[k] {
      if k in s1.games {
        assert StaleIds(s1.games[k].players, now) == {};
      }
    }
    assert s2.connections == s1.connections;
  }

  /** Running the eviction sweep twice at the same instant is the same as running it once. */
  lemma {:induction false} CleanupIsIdempotent(s: Store, now: int)
    ensures CleanupInactiveGames(CleanupInactiveGames(s, now), now) == CleanupInactiveGames(s, now)
  {
    var s1 := CleanupInactiveGames(s, now);
    var s2 := CleanupInactiveGames(s1, now);
    assert s2.games == s1.games;
    forall k | k in s1.connections ensures k in s2.connections {
      if k in s1.games { assert !Evictable(s1.games[k], now); }
    }
    assert s2.connections == s1.connections;
  }

  /** A game that nobody has joined yet is evicted by the next eviction sweep, however soon it runs. */
  lemma {:induction false} UnjoinedGameIsEvicted(s: Store, id: string, created: int, now: int)
    ensures var s' := CleanupInactiveGames(CreateGame(s, id, created).store, now);
      id !in s'.games && id !in s'.connections
  {
    var s1 := CreateGame(s, id, created).store;
    assert !AnyConnected(s1.games[id].players);
  }

  /**
   A game with a connected player survives at exactly 29 minutes without
   activity and is evicted at exactly 31, connected players notwithstanding.
   */
  lemma InactivityBoundary(s: Store, id: string, now: int)
    requires id in s.games && AnyConnected(s.games[id].players)
    ensures s.games[id].lastActivity == now - 29 * 60 * 1000 ==> id in CleanupInactiveGames(s, now).games
    ensures s.games[id].lastActivity == now - 31 * 60 * 1000 ==> id !in CleanupInactiveGames(s, now).games
  {
  }

  /** `createGame` on an id already in use drops that game's seats (the source does not check for collisions). */
  lemma CreateOnUsedIdDropsSeats(s: Store, id: string, now: int)
    requires id in s.games && |s.games[id].players| > 0
    ensures |CreateGame(s, id, now).store.games[id].players| < |s.games[id].players|
  {
  }

  /** One call into the registry, with its arguments and the time it runs at. */
  datatype Event =
    | Create(id: string, now: int)
    | Update(id: string, patch: Patch, now: int)
    | Join(id: string, pid: string, name: string, now: int)
    | Leave(id: string, pid: string, now: int)
    | Heartbeat(id: string, pid: string, now: int)
    | PresenceSweep(now: int)
    | EvictionSweep(now: int)

  /** The store after one event. */
  function Apply(s: Store, e: Event): Store
  {
    match e
    case Create(id, now) => CreateGame(s, id, now).store
    case Update(id, p, now) => UpdateGame(s, id, p, now).store
    case Join(id, pid, name, now) => JoinGame(s, id, pid, name, now).store
    case Leave(id, pid, now) => LeaveGame(s, id, pid, now).store
    case Heartbeat(id, pid, now) => UpdatePlayerHeartbeat(s, id, pid, now).store
    case PresenceSweep(now) => CheckPlayerConnections(s, now)
    case EvictionSweep(now) => CleanupInactiveGames(s, now)
  }

  /** The store after a run of events, applied left to right. */
  function Run(s: Store, es: seq<Event>): Store
    decreases |es|
  {
    if |es| == 0 then s else Run(Apply(s, es[0]), es[1..])
  }

  /** An event that cannot rewrite a game's seats wholesale. */
  predicate SeatSafe(s: Store, e: Event)
  {
    && (e.Create? ==> e.id !in s.games)
    && (e.Update? ==> e.patch.players.None?)
  }

  /** Every game present before and after keeps its seats: none removed, none reordered, none renamed. */
  predicate SeatsKept(s: Store, s': Store)
  {
    forall k :: k in s.games && k in s'.games ==>
      && |s.games[k].players| <= |s'.games[k].players|
      && forall i :: 0 <= i < |s.games[k].players| ==>
           s'.games[k].players[i].id == s.games[k].players[i].id
           && s'.games[k].players[i].name == s.games[k].players[i].name
  }

  /** No seat-safe event removes, reorders or renames a seat of a game that survives it. */
  lemma {:induction false} SeatsNeverRemoved(s: Store, e: Event)
    requires SeatSafe(s, e)
    ensures SeatsKept(s, Apply(s, e))
  {
    match e
    case Create(id, now) =>
    case Update(id, p, now) =>
    case Join(id, pid, name, now) =>
    case Leave(id, pid, now) =>
    case Heartbeat(id, pid, now) =>
    case PresenceSweep(now) =>
    case EvictionSweep(now) =>
  }

  /** An event that keeps the registry invariant: a generic update must leave the id and the seats alone. */
  predicate InvariantSafe(e: Event)
  {
    e.Update? ==> e.patch.KeepsSeats()
  }

  /** Every invariant-safe event keeps the registry well formed. */
  lemma {:induction false} ApplyPreservesValid(s: Store, e: Event)
    requires Valid(s) && InvariantSafe(e)
    ensures Valid(Apply(s, e))
  {
    match e
    case Create(id, now) => CreatePreservesValid(s, id, now);
    case Update(id, p, now) => UpdatePreservesValid(s, id, p, now);
    case Join(id, pid, name, now) => JoinPreservesValid(s, id, pid, name, now);
    case Leave(id, pid, now) => LeavePreservesValid(s, id, pid, now);
    case Heartbeat(id, pid, now) => HeartbeatPreservesValid(s, id, pid, now);
    case PresenceSweep(now) => CheckPreservesValid(s, now);
    case EvictionSweep(now) => CleanupPreservesValid(s, now);
  }

  /**
   Starting from the empty registry, any run of invariant-safe events
   leaves every game with at most two seats, distinct player ids, and a
   connection set equal to the ids of its connected seats.
   */
  lemma {:induction false} RunPreservesValid(s: Store, es: seq<Event>)
    requires Valid(s)
    requires forall i :: 0 <= i < |es| ==> InvariantSafe(es[i])
    ensures Valid(Run(s, es))
    decreases |es|
  {
    if |es| > 0 {
      ApplyPreservesValid(s, es[0]);
      RunPreservesValid(Apply(s, es[0]), es[1..]);
    }
  }
}
