# Game-session registry: a Dafny model

This project models the server-side session registry of a two-player
"truth or dare" game (`lib/game-store.ts`). The registry keeps two maps in
memory. The first maps a game id to the game's state: its seats (players),
whose turn it is, whether a spin is in flight, the last result, the spin
history and two timestamps. The second maps a game id to the set of player
ids counted as connected. Callers create games, read them, merge partial
updates into them, join and leave them, and send heartbeats. Two periodic
sweeps demote players whose heartbeat is older than 15 s and evict games
that have no connected player or have been idle for more than 30 min.

The model is functional. The registry is an immutable `Store` of two
`map`s. Every operation is a pure transition that takes the current time
`now` (milliseconds) and returns a `Step`: the new store together with the
value the source returns. A `null` return becomes `None`.

Files and modules:

- `types.dfy` (`GameTypes`): the entities (`Player`, `HistoryEntry`, `Game`, `Store`), `Option`, `Step` and the constants (2 seats, 15 000 ms heartbeat timeout, 1 800 000 ms inactivity threshold).
- `seats.dfy` (`Seats`): operations on one game's ordered seat list: `findIndex`, the rejoin/heartbeat refresh, seat allocation on join, leave, and demotion of stale seats.
- `store.dfy` (`GameStore`): `createGame`, `getGame`, `updateGame`, `joinGame`, `leaveGame`, `updatePlayerHeartbeat`.
- `sweeps.dfy` (`Sweeps`): `checkPlayerConnections` (as a map transition and as the source's single loop over the seats) and `cleanupInactiveGames`.
- `invariant.dfy` (`StoreInvariant`): the registry invariant and its preservation by every operation. The invariant says both maps have the same keys. It says each game is filed under its own id, has at most 2 seats and has distinct player ids. It also says each game's connection set is exactly the ids of its connected seats.
- `properties.dfy` (`StoreProperties`): properties that span several operations: idempotence, rejoin undoing a leave, the third-player refusal, presence timing, eviction of unjoined games, seat preservation by each single operation, and the invariant over whole runs.

Behaviours of `lib/game-store.ts` the model keeps:

- `joinGame` returns `null` both for a missing game and for a full game (lines 65 and 82). There is no separate "full" outcome, so `JoinGame` returns `None` in both cases.
- `updatePlayerHeartbeat` also fails (returns `false`) when the game exists but the player has no seat in it (line 127), not only when the game is missing.
- `createGame` does not make ids unique. The id comes from `Math.random` and is not checked, so a colliding id replaces the existing game and its connection set (`CreateOnUsedIdDropsSeats`). The model takes the id as a parameter.
- `leaveGame` also sets the seat's `lastSeen` to `now` (line 99).
- The presence sweep stamps `lastActivity` whenever it demotes a seat (line 153). A demotion therefore delays eviction for inactivity.
- The eviction sweep also removes a game that nobody has joined yet, because it has no connected player (`UnjoinedGameIsEvicted`).
- The store has no guard against overlapping spins. The `isSpinning` check lives in the request handler, which is not modelled.

The source calls `new Date()` several times inside one operation, for example at lines 72 and 56 in one join. The model uses a single `now` for all of them.

## Model

| member | source | states |
|---|---|---|
| Seats.FindIndex | lib/game-store.ts:68 | Returns -1 exactly when no seat has the id. Otherwise it returns the first seat carrying the id. |
| Seats.TouchSeat | lib/game-store.ts:114-117 | Succeeds iff the id has a seat. The first seat carrying the id becomes connected with `lastSeen = now`, and every other seat is unchanged, including later seats with the same id. Seats keep their order, ids and names. With distinct ids, the player's seat becomes connected with `lastSeen = now`. |
| Seats.JoinSeats | lib/game-store.ts:68-83 | Refused iff the id is new and the game already has 2 seats. A present id adds no seat: its first seat becomes connected with `lastSeen = now`, and every other seat is unchanged. A new id is appended last as a connected seat seen at `now`. Existing seats keep their order, and the id set grows by exactly the joining id. The 2-seat cap is preserved. |
| Seats.LeaveSeats | lib/game-store.ts:96-100 | Keeps every seat in order, with the same ids and names. The first seat carrying the id, if any, is disconnected with `lastSeen = now`, and every other seat is unchanged, including later seats with the same id. With distinct ids, the leaving player's seat is disconnected with `lastSeen = now`. |
| Seats.StaleIds | lib/game-store.ts:139-148 | The ids the presence sweep drops are all ids of connected seats. The set is empty iff no seat is stale. |
| Seats.DemoteStale | lib/game-store.ts:137-143 | Keeps the seats and their `lastSeen`. A seat ends disconnected iff it was disconnected or was last seen more than 15 s ago. Nothing changes iff no seat is stale. |
| GameStore.CreateGame | lib/game-store.ts:26-43 | Stores under the given id a game with no seats, turn 0, no spin, no result, empty history and both timestamps at `now`. Its connection set is empty. Every other game is untouched. |
| GameStore.GetGame | lib/game-store.ts:45-47 | Returns a game iff the id is stored, and that game is the stored one. |
| GameStore.UpdateGame | lib/game-store.ts:49-61 | On an absent id: `None`, and the store is unchanged. On a present id: every supplied field is overwritten and every other field kept. `lastActivity` becomes `now` even when a value was supplied for it. No other game and no connection set changes. |
| GameStore.JoinGame | lib/game-store.ts:63-90 | `None` iff the game is absent or the id is new at a full game, and then nothing changes. Otherwise the seats follow `JoinSeats`, the id is added to the game's connections (creating the set if needed), only `players` and `lastActivity = now` change, and other games are untouched. |
| GameStore.LeaveGame | lib/game-store.ts:92-108 | `None` iff the game is absent, and then nothing changes. Otherwise the seats follow `LeaveSeats`, so no seat is freed. The id leaves an existing connection set and none is created. Only `players` and `lastActivity` change. |
| GameStore.UpdatePlayerHeartbeat | lib/game-store.ts:110-128 | True iff the game exists and the player has a seat. On false the store is unchanged. On true the player's seat is connected and seen at `now`, the id is in the game's connections, and the game is stamped. |
| Sweeps.SweepGame | lib/game-store.ts:134-155 | For one game: seats are kept, and a seat ends disconnected iff it was disconnected or its heartbeat is over 15 s old. `lastActivity` becomes `now` iff some seat was demoted. Otherwise the game is unchanged. |
| Sweeps.CheckPlayerConnections | lib/game-store.ts:130-156 | Every game and connection entry stays. Each game is swept as in `SweepGame`, and the ids of demoted seats leave their game's connection set. |
| Sweeps.SweepGameLoop | lib/game-store.ts:137-154 | The source's single pass over the seats computes the same game as `SweepGame`. It also removes exactly the stale ids from the connection set, when there is one. |
| Sweeps.CleanupInactiveGames | lib/game-store.ts:158-171 | A game survives iff some seat is connected and it has been active within 30 min. Survivors are unchanged. An evicted game loses its connection entry too. |
| StoreInvariant.JoinSeatsConnected | lib/game-store.ts:68-87 | With distinct ids, a join keeps ids distinct and adds exactly the joining id to the connected ids. |
| StoreInvariant.LeaveSeatsConnected | lib/game-store.ts:96-105 | With distinct ids, a leave keeps ids distinct and removes exactly the leaving id from the connected ids. |
| StoreInvariant.DemoteStaleConnected | lib/game-store.ts:137-149 | With distinct ids, demotion removes exactly the stale ids from the connected ids. |
| StoreInvariant.CreatePreservesValid | lib/game-store.ts:26-43 | `createGame` keeps the registry invariant, even when it replaces a game. |
| StoreInvariant.UpdatePreservesValid | lib/game-store.ts:49-61 | `updateGame` keeps the invariant when the patch supplies neither `gameId` nor `players`. |
| StoreInvariant.JoinPreservesValid | lib/game-store.ts:63-90 | `joinGame` keeps at most 2 seats and distinct ids, and keeps the connection set equal to the connected seats' ids. |
| StoreInvariant.LeavePreservesValid | lib/game-store.ts:92-108 | `leaveGame` keeps the registry invariant. |
| StoreInvariant.HeartbeatPreservesValid | lib/game-store.ts:110-128 | `updatePlayerHeartbeat` keeps the registry invariant. |
| StoreInvariant.CheckPreservesValid | lib/game-store.ts:130-156 | The presence sweep keeps the registry invariant. |
| StoreInvariant.CleanupPreservesValid | lib/game-store.ts:158-171 | The eviction sweep keeps the registry invariant. |
| StoreProperties.JoinSeatsIdempotent | lib/game-store.ts:68-83 | A second identical join on the seats a join produced changes no seat. |
| StoreProperties.JoinIsIdempotent | lib/game-store.ts:63-90 | Repeating a successful join at the same instant returns the same game and leaves the store as the first join left it. |
| StoreProperties.RejoinSeatsUndoLeave | lib/game-store.ts:68-100 | At seat level, joining right after leaving gives what joining alone gives. |
| StoreProperties.RejoinUndoesLeave | lib/game-store.ts:63-107 | When the join succeeds, joining right after leaving at the same instant gives, at store level, what joining alone gives, including the connection set. A refused join is not covered, because the leave still stamps `lastActivity`. |
| StoreProperties.ThirdPlayerRefused | lib/game-store.ts:26-90 | On a new game, two different players get seats 0 and 1 in arrival order. A third, different player is then refused, and the store is unchanged. |
| StoreProperties.SweepAfterJoin | lib/game-store.ts:137-143 | With distinct ids, after a join at `t` with no heartbeat since, a sweep at `t'` leaves the player connected iff `t' - t <= 15000`. |
| StoreProperties.PresenceSweepIsIdempotent | lib/game-store.ts:130-156 | Two presence sweeps at the same instant give the same store as one sweep. |
| StoreProperties.CleanupIsIdempotent | lib/game-store.ts:158-171 | Two eviction sweeps at the same instant give the same store as one sweep. |
| StoreProperties.UnjoinedGameIsEvicted | lib/game-store.ts:163-168 | A freshly created game that nobody joined is evicted, with its connection entry, by any later sweep. |
| StoreProperties.InactivityBoundary | lib/game-store.ts:160-166 | A game with a connected player survives at exactly 29 min of inactivity and is evicted at exactly 31 min. The general threshold rule is the contract of `CleanupInactiveGames`. |
| StoreProperties.CreateOnUsedIdDropsSeats | lib/game-store.ts:27-41 | Creating a game under an id already in use discards that game's seats. |
| StoreProperties.SeatsNeverRemoved | lib/game-store.ts:63-171 | No operation removes, reorders or renames a seat of a game that survives it. Two cases are excluded: a create on a used id and an update that supplies `players`. |
| StoreProperties.ApplyPreservesValid | lib/game-store.ts:26-171 | Every operation keeps the registry invariant, provided that a generic update leaves `gameId` and `players` alone. |
| StoreProperties.RunPreservesValid | lib/game-store.ts:26-171 | Any run of such operations from a well-formed store (for example the empty one) ends in a well-formed store. In particular every game has at most 2 seats. |

## Left out

- The `setInterval` schedules (lines 173 and 176, every 5 s and every 10 min) are not modelled. Each sweep is a transition taking the time it runs at.
- Random id generation (`Math.random().toString(36)`, line 27) is not modelled. The id is a parameter, and its uniqueness is not guaranteed (see `CreateOnUsedIdDropsSeats`).
- Clock reads (`new Date()`) become the `now` parameter, one per operation.
- Aliasing is not modelled. The source mutates seat objects in place and shares the `players` array between old and new game objects. A snapshot a caller already holds can therefore change under it. The model works on values.
- Partial updates that carry a field explicitly set to `undefined` are not modelled. `Patch` can only supply a value or omit the field.
- The HTTP handlers under `app/api/` are not part of this model. That includes the spin and reset actions and their `isSpinning` guard, which are callers of `updateGame`.
- The server-sent event feed (`app/api/game/[gameId]/events/route.ts`), the client reconnection hook and the UI components are not part of this model.
- StoreProperties.SeatsNeverRemoved: excludes `createGame` on an id already in use and an `updateGame` that supplies `players`. The source lets both rewrite a game's seats wholesale. It covers one event at a time. Over a run it does not hold, because an evicted game's id can be created again with no seats.
- StoreProperties.ApplyPreservesValid: excludes an `updateGame` that supplies `gameId` or `players`. The source accepts any value there, so such an update can break the invariant.
