/**
 The data model of the in-memory game-session registry: one game per id,
 at most two seats per game, and a side table of the player ids currently
 counted as connected. Times are milliseconds since the epoch, as returned
 by `Date.getTime()`.
 */
module GameTypes {

  /** Absent-or-present value; stands for the source's `T | null`. */
  datatype Option<+T> = None | Some(value: T)

  /** The result of a spin. */
  datatype Choice = Truth | Dare

  /** One seat of a game. */
  datatype Player = Player(id: string, name: string, connected: bool, lastSeen: int)

  /** One resolved spin, as kept in a game's history. */
  datatype HistoryEntry = HistoryEntry(player: string, choice: Choice, timestamp: int)

  /** The state of one game session. */
  datatype Game = Game(
    gameId: string,
    players: seq<Player>,
    currentPlayer: int,
    isSpinning: bool,
    currentResult: Option<Choice>,
    gameHistory: seq<HistoryEntry>,
    createdAt: int,
    lastActivity: int)

  /** The registry: games by id, and the ids of the active connections of each game. */
  datatype Store = Store(games: map<string, Game>, connections: map<string, set<string>>)

  /** A store transition's new state together with what the operation returns. */
  datatype Step<T> = Step(store: Store, result: T)

  /** Seat capacity of a game. */
  const MAX_PLAYERS: nat := 2

  /** A connected player not seen for longer than this is demoted. */
  const HEARTBEAT_TIMEOUT: int := 15 * 1000

  /** A game idle for longer than this is evicted regardless of its players. */
  const INACTIVE_THRESHOLD: int := 30 * 60 * 1000

  /** The registry before any game is created. */
  const EmptyStore: Store := Store(map[], map[])
}
