/**
 The two periodic sweeps of the registry: presence (`checkPlayerConnections`,
 every 5 s in the source) and eviction (`cleanupInactiveGames`, every 10 min).
 The timers are not modelled; each sweep is a transition taking the time
 `now` at which it runs.
 */
module Sweeps {
  import opened GameTypes
  import opened Seats
  import opened GameStore

  /**
   The presence sweep of one game: every stale seat is demoted, and the
   game is stamped at `now` only if some seat was demoted.
   */
  function SweepGame(g: Game, now: int): (r: Game)
    ensures SameSeats(g.players, r.players)
    ensures forall i :: 0 <= i < |g.players| ==> r.players[i].lastSeen == g.players[i].lastSeen
    ensures forall i :: 0 <= i < |g.players| ==>
      (!r.players[i].connected <==> !g.players[i].connected || now - g.players[i].lastSeen > HEARTBEAT_TIMEOUT)
    ensures AnyStale(g.players, now) ==> r == g.(players := r.players, lastActivity := now)
    ensures !AnyStale(g.players, now) ==> r == g
  {
    if AnyStale(g.players, now) then Merge(g, PlayersPatch(DemoteStale(g.players, now)), now) else g
  }

  /** The connection set of a game after its stale seats are demoted. */
  function SweepConnections(conns: set<string>, g: Game, now: int): set<string>
  {
    conns - StaleIds(g.players, now)
  }

  /**
   `checkPlayerConnections`: every game keeps its id and seats; a seat ends
   disconnected iff it was disconnected or its last heartbeat is more than
   15 s old; the ids of demoted seats leave their game's connection set.
   */
  function CheckPlayerConnections(s: Store, now: int): (r: Store)
    ensures r.games.Keys == s.games.Keys
    ensures r.connections.Keys == s.connections.Keys
    ensures forall k :: k in s.games ==> r.games[k] == SweepGame(s.games[k], now)
    ensures forall k :: k in s.connections && k in s.games ==>
      r.connections[k] == s.connections[k] - StaleIds(s.games[k].players, now)
    ensures forall k :: k in s.connections && k !in s.games ==> r.connections[k] == s.connections[k]
  {
    Store(
      map k | k in s.games :: SweepGame(s.games[k], now),
      map k | k in s.connections :: if k in s.games then SweepConnections(s.connections[k], s.games[k], now) else s.connections[k])
  }

  /** One step of `StaleIds` over a growing prefix. */
  lemma {:induction false} StaleIdsSnoc(ps: seq<Player>, i: nat, now: int)
    requires i < |ps|
    ensures StaleIds(ps[..i + 1], now) == StaleIds(ps[..i], now) + (if Stale(ps[i], now) then {ps[i].id} else {})
  {
    var a, b := ps[..i + 1], ps[..i];
    forall x | x in StaleIds(a, now) ensures x in StaleIds(b, now) + (if Stale(ps[i], now) then {ps[i].id} else {}) {
      var j :| 0 <= j < |a| && Stale(a[j], now) && a[j].id == x;
      if j < i { assert b[j] == a[j]; }
    }
    forall x | x in StaleIds(b, now) ensures x in StaleIds(a, now) {
      var j :| 0 <= j < |b| && Stale(b[j], now) && b[j].id == x;
      assert a[j] == b[j];
    }
    if Stale(ps[i], now) {
      assert a[i] == ps[i];
    }
  }

  /**
   The presence sweep of one game as the source writes it: a single pass
   over the seats that demotes each stale seat, drops its id from the
   game's connection set when the game has one, and records whether
   anything was demoted; the game is re-stamped through `Merge` only then.
   */
  method SweepGameLoop(g: Game, conns: Option<set<string>>, now: int) returns (g': Game, conns': Option<set<string>>)
    ensures g' == SweepGame(g, now)
    ensures conns'.Some? <==> conns.Some?
    ensures conns.Some? ==> conns'.value == conns.value - StaleIds(g.players, now)
  {
    var players := g.players;
    var hasDisconnections := false;
    var c := conns;
    var i := 0;
    while i < |players|
      invariant 0 <= i <= |players| == |g.players|
      invariant players[..i] == DemoteStale(g.players, now)[..i]
      invariant players[i..] == g.players[i..]
      invariant hasDisconnections <==> AnyStale(g.players[..i], now)
      invariant c.Some? <==> conns.Some?
      invariant conns.Some? ==> c.value == conns.value - StaleIds(g.players[..i], now)
    {
      var p := players[i];
      assert p == g.players[i] by { assert players[i..][0] == g.players[i..][0]; }
      StaleIdsSnoc(g.players, i, now);
      assert g.players[..i + 1] == g.players[..i] + [p];
      if p.connected && now - p.lastSeen > HEARTBEAT_TIMEOUT {
        players := players[i := p.(connected := false)];
        hasDisconnections := true;
        if c.Some? {
          c := Some(c.value - {p.id});
        }
      }
      assert AnyStale(g.players[..i + 1], now) <==> AnyStale(g.players[..i], now) || Stale(p, now) by {
        if AnyStale(g.players[..i + 1], now) {
          var j :| 0 <= j < i + 1 && Stale(g.players[..i + 1][j], now);
          if j < i { assert g.players[..i][j] == g.players[..i + 1][j]; }
        }
        if AnyStale(g.players[..i], now) {
          var j :| 0 <= j < i && Stale(g.players[..i][j], now);
          assert g.players[..i + 1][j] == g.players[..i][j];
        }
      }
      i := i + 1;
    }
    assert g.players[..i] == g.players;
    assert players == players[..i];
    assert DemoteStale(g.players, now) == DemoteStale(g.players, now)[..i];
    if hasDisconnections {
      g' := Merge(g, PlayersPatch(players), now);
    } else {
      g' := g;
    }
    conns' := c;
  }

  /** A game the eviction sweep removes: nobody is connected, or it has been idle for over 30 min. */
  predicate Evictable(g: Game, now: int)
  {
    !AnyConnected(g.players) || now - g.lastActivity > INACTIVE_THRESHOLD
  }

  /**
   `cleanupInactiveGames`: a game survives iff some seat is connected and
   it has been active within the last 30 min; survivors are unchanged, and
   an evicted game's connection entry goes with it.
   */
  function CleanupInactiveGames(s: Store, now: int): (r: Store)
    ensures forall k :: k in r.games <==>
      k in s.games && AnyConnected(s.games[k].players) && now - s.games[k].lastActivity <= INACTIVE_THRESHOLD
    ensures forall k :: k in r.games ==> r.games[k] == s.games[k]
    ensures forall k :: k in s.games && k !in r.games ==> k !in r.connections
    ensures forall k :: k in r.connections ==> k in s.connections && r.connections[k] == s.connections[k]
    ensures forall k :: k in s.connections && (k in s.games ==> k in r.games) ==> k in r.connections
  {
    Store(
      map k | k in s.games && !Evictable(s.games[k], now) :: s.games[k],
      map k | k in s.connections && !(k in s.games && Evictable(s.games[k], now)) :: s.connections[k])
  }
}
