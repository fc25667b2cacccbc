/**
 The request-driven operations of the game registry (lib/game-store.ts):
 create, read, generic merge, join, leave and heartbeat. Each is a pure
 transition from a store to a `Step` holding the new store and the value
 the source returns; the current time `now` and the generated game id are
 parameters.
 */
module GameStore {
  import opened GameTypes
  import opened Seats

  /**
   The fields a caller supplies to `updateGame` (the source's
   `Partial<GameState>`); None means the field is not supplied.
   */
  datatype Patch = Patch(
    gameId: Option<string>,
    players: Option<seq<Player>>,
    currentPlayer: Option<int>,
    isSpinning: Option<bool>,
    currentResult: Option<Option<Choice>>,
    gameHistory: Option<seq<HistoryEntry>>,
    createdAt: Option<int>,
    lastActivity: Option<int>)
  {
    /** The patch leaves the game's identity and its seats alone. */
    predicate KeepsSeats()
    {
      gameId.None? && players.None?
    }
  }

  /** The patch that supplies no field. */
  const NoFields: Patch := Patch(None, None, None, None, None, None, None, None)

  /** The patch `{ players: ps }` that join, leave, heartbeat and the presence sweep send. */
  function PlayersPatch(ps: seq<Player>): Patch
  {
    NoFields.(players := Some(ps))
  }

  /** The supplied value of a field, or the current one when it is not supplied. */
  function Pick<T>(supplied: Option<T>, current: T): T
  {
    match supplied
    case Some(v) => v
    case None => current
  }

  /** `{ ...game, ...updates, lastActivity: now }`: a supplied `lastActivity` is overridden. */
  function Merge(g: Game, p: Patch, now: int): Game
  {
    Game(
      Pick(p.gameId, g.gameId),
      Pick(p.players, g.players),
      Pick(p.currentPlayer, g.currentPlayer),
      Pick(p.isSpinning, g.isSpinning),
      Pick(p.currentResult, g.currentResult),
      Pick(p.gameHistory, g.gameHistory),
      Pick(p.createdAt, g.createdAt),
      now)
  }

  /** The connection set of game `id`, empty when it has no entry (`get(id) || new Set()`). */
  function ConnectionsOf(conns: map<string, set<string>>, id: string): set<string>
  {
    if id in conns then conns[id] else {}
  }

  /** Adds `pid` to the connections of game `id`, creating the entry if needed. */
  function AddConnection(conns: map<string, set<string>>, id: string, pid: string): map<string, set<string>>
  {
    conns[id := ConnectionsOf(conns, id) + {pid}]
  }

  /** Removes `pid` from the connections of game `id` when that entry exists; never creates one. */
  function DropConnection(conns: map<string, set<string>>, id: string, pid: string): map<string, set<string>>
  {
    if id in conns then conns[id := conns[id] - {pid}] else conns
  }

  /** The state `createGame` stores for a new game. */
  function NewGame(id: string, now: int): Game
  {
    Game(id, [], 0, false, None, [], now, now)
  }

  /**
   `createGame`, with the generated id passed in. The source draws the id
   at random and does not check it is unused: an existing game under the
   same id is replaced, and so is its connection set.
   */
  function CreateGame(s: Store, id: string, now: int): (r: Step<string>)
    ensures r.result == id
    ensures r.store.games.Keys == s.games.Keys + {id}
    ensures r.store.connections.Keys == s.connections.Keys + {id}
    ensures var g := r.store.games[id];
      && g.gameId == id && g.players == [] && g.currentPlayer == 0 && !g.isSpinning
      && g.currentResult == None && g.gameHistory == [] && g.createdAt == now && g.lastActivity == now
    ensures r.store.connections[id] == {}
    ensures forall k :: k in s.games && k != id ==> r.store.games[k] == s.games[k]
    ensures forall k :: k in s.connections && k != id ==> r.store.connections[k] == s.connections[k]
  {
    Step(Store(s.games[id := NewGame(id, now)], s.connections[id := {}]), id)
  }

  /** `getGame`: the stored game, or None. */
  function GetGame(s: Store, id: string): (r: Option<Game>)
    ensures r.Some? <==> id in s.games
    ensures r.Some? ==> r.value == s.games[id]
  {
    if id in s.games then Some(s.games[id]) else None
  }

  /**
   `updateGame`: on an absent id nothing changes and None is returned; on a
   present id exactly the supplied fields are overwritten, `lastActivity`
   becomes `now`, and no other game and no connection set changes.
   */
  function UpdateGame(s: Store, id: string, p: Patch, now: int): (r: Step<Option<Game>>)
    ensures id !in s.games ==> r == Step(s, None)
    ensures id in s.games ==> r.result.Some?
    ensures r.result.Some? ==> var g, g' := s.games[id], r.result.value;
      && g'.gameId == Pick(p.gameId, g.gameId)
      && g'.players == Pick(p.players, g.players)
      && g'.currentPlayer == Pick(p.currentPlayer, g.currentPlayer)
      && g'.isSpinning == Pick(p.isSpinning, g.isSpinning)
      && g'.currentResult == Pick(p.currentResult, g.currentResult)
      && g'.gameHistory == Pick(p.gameHistory, g.gameHistory)
      && g'.createdAt == Pick(p.createdAt, g.createdAt)
      && g'.lastActivity == now
    ensures r.result.Some? ==> r.store.games.Keys == s.games.Keys && r.store.games[id] == r.result.value
    ensures forall k :: k in s.games && k != id ==> r.store.games[k] == s.games[k]
    ensures r.store.connections == s.connections
  {
    if id !in s.games then Step(s, None)
    else
      var g' := Merge(s.games[id], p, now);
      Step(Store(s.games[id := g'], s.connections), Some(g'))
  }

  /**
   `joinGame`. None, with nothing changed, both when the game is absent and
   when a new player arrives at a full game. Otherwise the player's seat is
   refreshed or appended (see `JoinSeats`), the player id is added to the
   game's connections, and the game is stamped through `UpdateGame`.
   */
  function JoinGame(s: Store, id: string, pid: string, name: string, now: int): (r: Step<Option<Game>>)
    ensures r.result.None? <==>
      id !in s.games || (pid !in PlayerIds(s.games[id].players) && |s.games[id].players| >= MAX_PLAYERS)
    ensures r.result.None? ==> r.store == s
    ensures r.result.Some? ==> var g, g' := s.games[id], r.result.value;
      && r.store.games.Keys == s.games.Keys
      && r.store.games[id] == g'
      && Some(g'.players) == JoinSeats(g.players, pid, name, now)
      && g' == g.(players := g'.players, lastActivity := now)
      && r.store.connections == s.connections[id := ConnectionsOf(s.connections, id) + {pid}]
    ensures r.result.Some? && DistinctIds(s.games[id].players) ==>
      forall i :: 0 <= i < |r.result.value.players| && r.result.value.players[i].id == pid ==>
        r.result.value.players[i].connected && r.result.value.players[i].lastSeen == now
    ensures forall k :: k in s.games && k != id ==> k in r.store.games && r.store.games[k] == s.games[k]
  {
    if id !in s.games then Step(s, None)
    else
      var g := s.games[id];
      match JoinSeats(g.players, pid, name, now)
      case None => Step(s, None)
      case Some(ps) =>
        assert DistinctIds(g.players) && pid !in PlayerIds(g.players) ==> ps[|g.players|].id == pid;
        UpdateGame(Store(s.games, AddConnection(s.connections, id, pid)), id, PlayersPatch(ps), now)
  }

  /**
   `leaveGame`. None, with nothing changed, when the game is absent.
   Otherwise the player's seat (if any) is marked disconnected but kept,
   the id leaves the game's connection set, and the game is stamped.
   */
  function LeaveGame(s: Store, id: string, pid: string, now: int): (r: Step<Option<Game>>)
    ensures r.result.None? <==> id !in s.games
    ensures r.result.None? ==> r.store == s
    ensures r.result.Some? ==> var g, g' := s.games[id], r.result.value;
      && r.store.games.Keys == s.games.Keys
      && r.store.games[id] == g'
      && g'.players == LeaveSeats(g.players, pid, now)
      && g' == g.(players := g'.players, lastActivity := now)
      && r.store.connections.Keys == s.connections.Keys
      && (id in s.connections ==> r.store.connections[id] == s.connections[id] - {pid})
    ensures forall k :: k in s.games && k != id ==> k in r.store.games && r.store.games[k] == s.games[k]
    ensures forall k :: k in s.connections && k != id ==> r.store.connections[k] == s.connections[k]
  {
    if id !in s.games then Step(s, None)
    else
      var ps := LeaveSeats(s.games[id].players, pid, now);
      UpdateGame(Store(s.games, DropConnection(s.connections, id, pid)), id, PlayersPatch(ps), now)
  }

  /**
   `updatePlayerHeartbeat`: true iff the game exists and the player has a
   seat in it. On false nothing changes; on true the seat is connected and
   seen at `now`, the id is in the game's connections, and the game is
   stamped.
   */
  function UpdatePlayerHeartbeat(s: Store, id: string, pid: string, now: int): (r: Step<bool>)
    ensures r.result <==> id in s.games && pid in PlayerIds(s.games[id].players)
    ensures !r.result ==> r.store == s
    ensures r.result ==> r.store.games.Keys == s.games.Keys
    ensures r.result ==> var g, g' := s.games[id], r.store.games[id];
      && Some(g'.players) == TouchSeat(g.players, pid, now)
      && g' == g.(players := g'.players, lastActivity := now)
      && r.store.connections == s.connections[id := ConnectionsOf(s.connections, id) + {pid}]
    ensures r.result && DistinctIds(s.games[id].players) ==>
      forall i :: 0 <= i < |r.store.games[id].players| && r.store.games[id].players[i].id == pid ==>
        r.store.games[id].players[i].connected && r.store.games[id].players[i].lastSeen == now
    ensures forall k :: k in s.games && k != id ==> k in r.store.games && r.store.games[k] == s.games[k]
  {
    if id !in s.games then Step(s, false)
    else
      match TouchSeat(s.games[id].players, pid, now)
      case None => Step(s, false)
      case Some(ps) =>
        var u := UpdateGame(Store(s.games, AddConnection(s.connections, id, pid)), id, PlayersPatch(ps), now);
        Step(u.store, true)
  }
}
