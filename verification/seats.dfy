/**
 Operations on the ordered seat list of one game. Seats are never removed
 or reordered: joining either refreshes an existing seat or appends one,
 leaving and demotion only flip `connected`.
 */
module Seats {
  import opened GameTypes

  /** The ids of all seats. */
  function PlayerIds(ps: seq<Player>): set<string>
  {
    set i | 0 <= i < |ps| :: ps[i].id
  }

  /** The ids of the seats currently marked connected. */
  function ConnectedIds(ps: seq<Player>): set<string>
  {
    set i | 0 <= i < |ps| && ps[i].connected :: ps[i].id
  }

  /** No two seats share a player id. */
  predicate DistinctIds(ps: seq<Player>)
  {
    forall i, j :: 0 <= i < j < |ps| ==> ps[i].id != ps[j].id
  }

  /** Some seat is marked connected (the source's `players.some(p => p.connected)`). */
  predicate AnyConnected(ps: seq<Player>)
  {
    exists i :: 0 <= i < |ps| && ps[i].connected
  }

  /** `ps'` has the same seats as `ps`, in the same order, with the same ids and names. */
  predicate SameSeats(ps: seq<Player>, ps': seq<Player>)
  {
    && |ps'| == |ps|
    && forall i :: 0 <= i < |ps| ==> ps'[i].id == ps[i].id && ps'[i].name == ps[i].name
  }

  /** Index of the first seat with player id `id`, or -1 (the source's `findIndex`). */
  function FindIndex(ps: seq<Player>, id: string): (r: int)
    ensures -1 <= r < |ps|
    ensures r == -1 <==> id !in PlayerIds(ps)
    ensures 0 <= r ==> ps[r].id == id && forall i :: 0 <= i < r ==> ps[i].id != id
  {
    if |ps| == 0 then -1
    else if ps[0].id == id then 0
    else
      var k := FindIndex(ps[1..], id);
      assert PlayerIds(ps) == {ps[0].id} + PlayerIds(ps[1..]) by {
        forall x | x in PlayerIds(ps) ensures x in {ps[0].id} + PlayerIds(ps[1..]) {
          var i :| 0 <= i < |ps| && ps[i].id == x;
          if 0 < i { assert ps[1..][i - 1].id == x; }
        }
        forall x | x in PlayerIds(ps[1..]) ensures x in PlayerIds(ps) {
          var i :| 0 <= i < |ps[1..]| && ps[1..][i].id == x;
          assert ps[i + 1].id == x;
        }
      }
      if k < 0 then -1 else k + 1
  }

  /** Marks seat `k` with the given presence and stamps it as seen at `now`. */
  function SetPresence(ps: seq<Player>, k: nat, connected: bool, now: int): seq<Player>
    requires k < |ps|
  {
    ps[k := ps[k].(connected := connected, lastSeen := now)]
  }

  /**
   The seat refresh shared by rejoin and heartbeat: the seat of `id`
   becomes connected and seen at `now`; None when `id` has no seat.
   */
  function TouchSeat(ps: seq<Player>, id: string, now: int): (r: Option<seq<Player>>)
    ensures r.Some? <==> id in PlayerIds(ps)
    ensures r.Some? ==> SameSeats(ps, r.value)
    ensures r.Some? ==> forall i :: 0 <= i < |ps| && ps[i].id != id ==> r.value[i] == ps[i]
    ensures r.Some? ==> forall i :: 0 <= i < |ps| && i != FindIndex(ps, id) ==> r.value[i] == ps[i]
    ensures r.Some? ==> var k := FindIndex(ps, id); r.value[k] == ps[k].(connected := true, lastSeen := now)
    ensures r.Some? && DistinctIds(ps) ==>
      forall i :: 0 <= i < |ps| && ps[i].id == id ==> r.value[i].connected && r.value[i].lastSeen == now
  {
    var k := FindIndex(ps, id);
    if k < 0 then None else Some(SetPresence(ps, k, true, now))
  }

  /**
   Seat allocation for `joinGame`: an id that already has a seat gets it
   refreshed, a new id is appended while there is room, and a new id at a
   full game is refused with None.
   */
  function JoinSeats(ps: seq<Player>, id: string, name: string, now: int): (r: Option<seq<Player>>)
    ensures r.None? <==> id !in PlayerIds(ps) && |ps| >= MAX_PLAYERS
    ensures r.Some? ==> |ps| <= |r.value| && PlayerIds(r.value) == PlayerIds(ps) + {id}
    ensures r.Some? ==> forall i :: 0 <= i < |ps| ==> r.value[i].id == ps[i].id && r.value[i].name == ps[i].name
    ensures r.Some? ==> forall i :: 0 <= i < |ps| && ps[i].id != id ==> r.value[i] == ps[i]
    ensures r.Some? ==> forall i :: 0 <= i < |ps| && i != FindIndex(ps, id) ==> r.value[i] == ps[i]
    ensures r.Some? && id in PlayerIds(ps) ==> |r.value| == |ps|
    ensures r.Some? && id in PlayerIds(ps) ==>
      var k := FindIndex(ps, id); r.value[k] == ps[k].(connected := true, lastSeen := now)
    ensures r.Some? && id !in PlayerIds(ps) ==>
      |r.value| == |ps| + 1 && r.value[|ps|] == Player(id, name, true, now)
    ensures r.Some? && |ps| <= MAX_PLAYERS ==> |r.value| <= MAX_PLAYERS
  {
    match TouchSeat(ps, id, now)
    case Some(ps') => Some(ps')
    case None =>
      if |ps| < MAX_PLAYERS then
        var ps' := ps + [Player(id, name, true, now)];
        assert PlayerIds(ps') == PlayerIds(ps) + {id} by {
          forall x | x in PlayerIds(ps') ensures x in PlayerIds(ps) + {id} {
            var i :| 0 <= i < |ps'| && ps'[i].id == x;
            if i < |ps| { assert ps[i].id == x; }
          }
          forall x | x in PlayerIds(ps) ensures x in PlayerIds(ps') {
            var i :| 0 <= i < |ps| && ps[i].id == x;
            assert ps'[i].id == x;
          }
          assert ps'[|ps|].id == id;
        }
        Some(ps')
      else None
  }

  /**
   The seat update of `leaveGame`: the seat of `id`, if any, is marked
   disconnected and seen at `now`; no seat is freed.
   */
  function LeaveSeats(ps: seq<Player>, id: string, now: int): (r: seq<Player>)
    ensures SameSeats(ps, r)
    ensures forall i :: 0 <= i < |ps| && ps[i].id != id ==> r[i] == ps[i]
    ensures forall i :: 0 <= i < |ps| && i != FindIndex(ps, id) ==> r[i] == ps[i]
    ensures var k := FindIndex(ps, id); 0 <= k ==> r[k] == ps[k].(connected := false, lastSeen := now)
    ensures DistinctIds(ps) ==>
      forall i :: 0 <= i < |ps| && ps[i].id == id ==> !r[i].connected && r[i].lastSeen == now
  {
    var k := FindIndex(ps, id);
    if k < 0 then ps else SetPresence(ps, k, false, now)
  }

  /** A connected seat whose last heartbeat is older than the timeout. */
  predicate Stale(p: Player, now: int)
  {
    p.connected && now - p.lastSeen > HEARTBEAT_TIMEOUT
  }

  /** Some seat is stale at `now`. */
  predicate AnyStale(ps: seq<Player>, now: int)
  {
    exists i :: 0 <= i < |ps| && Stale(ps[i], now)
  }

  /** The ids of the seats that are stale at `now`. */
  function StaleIds(ps: seq<Player>, now: int): (r: set<string>)
    ensures r <= ConnectedIds(ps)
    ensures r == {} <==> !AnyStale(ps, now)
  {
    var r := set i | 0 <= i < |ps| && Stale(ps[i], now) :: ps[i].id;
    assert AnyStale(ps, now) ==> r != {} by {
      if AnyStale(ps, now) {
        var i :| 0 <= i < |ps| && Stale(ps[i], now);
        assert ps[i].id in r;
      }
    }
    r
  }

  /** Demotion of every stale seat to disconnected; `lastSeen` is kept. */
  function DemoteStale(ps: seq<Player>, now: int): (r: seq<Player>)
    ensures SameSeats(ps, r)
    ensures forall i :: 0 <= i < |ps| ==> r[i].lastSeen == ps[i].lastSeen
    ensures forall i :: 0 <= i < |ps| ==>
      (!r[i].connected <==> !ps[i].connected || now - ps[i].lastSeen > HEARTBEAT_TIMEOUT)
    ensures r == ps <==> !AnyStale(ps, now)
  {
    var r := seq(|ps|, i requires 0 <= i < |ps| => if Stale(ps[i], now) then ps[i].(connected := false) else ps[i]);
    assert AnyStale(ps, now) ==> r != ps by {
      if AnyStale(ps, now) {
        var i :| 0 <= i < |ps| && Stale(ps[i], now);
        assert !r[i].connected;
      }
    }
    r
  }
}
