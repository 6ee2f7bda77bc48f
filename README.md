# Lobby directory of the card-game server

The game server keeps every active lobby in one in-memory dictionary,
`lobbies`, keyed by a four-digit code. Each entry records the host's
socket id and name, the roster in join order as (socket id, name) pairs, and
a game-mode label. Six socket handlers change the dictionary:
`create_party`, `join_party`, `change_game_mode`, `leave_lobby`,
`delete_party` and `disconnect`.

This project models that directory in Dafny:

- `codes.dfy` (module `LobbyCodes`): how a random draw becomes a code, the
  decimal text of 1000..9999. It proves that the text reads back as the
  number, that distinct draws give distinct codes, and that a free code
  exists exactly when fewer than 9000 codes are in use.
- `lobbies.dfy` (module `Lobbies`): the records as datatypes, and one pure
  transition function per handler on `map<string, Lobby>`. It also holds
  the array operations the handlers use (`findIndex`, `splice(i, 1)`,
  `map(p => p.name)`) and the directory invariant `WellFormed`: every key
  is a code, no stored lobby has an empty roster, and every mode label is
  truthy.
- `lemmas.dfy` (module `LobbyLemmas`): every handler keeps the invariant.
  It also proves how the handlers relate: join-then-leave and
  create-then-delete restore the directory, and delete and mode change are
  idempotent. It proves that joining keeps duplicate names, that `disconnect`
  removes at most one entry per lobby, and that, for every lobby, the host
  field survives the host's leaving or disconnecting and alone decides who may
  change the mode.
- `directory.dfy` (module `Server`): the class `Directory`, whose
  `lobbies` field the handler methods update step by step, as the server
  does. Each handler method is proved to produce the state given by its
  transition function and to keep the invariant. Each handler that
  broadcasts `lobby_updated` returns that payload: `CreateParty` always, and
  `JoinParty`, `ChangeGameMode` and `LeaveLobby` as an `Option` that is
  `None` when they broadcast nothing. `DeleteParty` and `Disconnect`
  broadcast nothing and return nothing. `DrawCode` is the retry loop of
  `create_party`.

The calling connection's socket id is a parameter of the handler methods
that read it (`CreateParty`, `JoinParty`, `ChangeGameMode`, `Disconnect`).
`leave_lobby` and `delete_party` never read it, so `LeaveLobby` and
`DeleteParty` take none.
The random draws of `create_party` are also a parameter: a sequence of
values of `floor(random * 9000)`, tried in order.

Where the larger game protocol described for the project differs from
`backend/server.js`, the model follows the code:

- `join_party` does not replace an entry with the same name. It appends
  again.
- `join_party` sends nothing back for an unknown code.
- `leave_lobby` has no in-game guard.
- `delete_party` has no host check and broadcasts nothing.
- The initial game mode is `"Unknown"`.
- This version of the server has no deck, turn order, card distribution or
  in-game flag.

## Model

| member | source | states |
|---|---|---|
| LobbyCodes.ParseDecimalString | backend/server.js:31 | the decimal text that `toString` gives a number reads back as that number |
| LobbyCodes.CodeOf | backend/server.js:31 | a code is four decimal digits with no leading zero |
| LobbyCodes.CodeOfInjective | backend/server.js:31 | two draws give the same code exactly when they are the same draw |
| LobbyCodes.FreeCodeIff | backend/server.js:30-32 | when every key is a code, some draw gives an unused code exactly when fewer than 9000 codes are in use |
| Lobbies.OrUnknown | backend/server.js:27 | the defaulted player name: a truthy name is kept, a missing or empty one becomes "Unknown", and the result is never empty |
| Lobbies.FirstIndex | backend/server.js:116 | `findIndex`: -1 exactly when no element matches; otherwise a matching position with no match before it |
| Lobbies.RemoveAt | backend/server.js:118 | `splice(i, 1)`: one element shorter, the elements before `i` in place, those after shifted down by one, the same multiset less the removed element |
| Lobbies.WithoutFirst | backend/server.js:116-120 | with no match the roster is unchanged; otherwise exactly the first match is removed and the others keep their order |
| Lobbies.Names | backend/server.js:53 | `players.map(p => p.name)`: same length, the name of each entry at its position |
| Lobbies.Created | backend/server.js:26-40 | `create_party`: exactly the new code is added, all other lobbies are unchanged, and the new lobby has the creator as host and sole player, the defaulted name and mode "Unknown" |
| Lobbies.Joined | backend/server.js:59-68 | `join_party`: an unknown code changes nothing; otherwise exactly one entry (socket id, name) is appended at the tail, and no other field or lobby changes |
| Lobbies.ModeChanged | backend/server.js:82-95 | `change_game_mode`: nothing changes unless the lobby exists, the caller is its host and the mode is truthy; then only that lobby's mode changes, to the given mode |
| Lobbies.Left | backend/server.js:107-127 | `leave_lobby`: only the named lobby changes; it loses the first entry with the name, and it is deleted exactly when its roster is then empty |
| Lobbies.Deleted | backend/server.js:137-143 | `delete_party`: the code is no longer a key, and every remaining lobby is unchanged, whoever asked |
| Lobbies.Disconnected | backend/server.js:146-163 | `disconnect`: lobbies without the socket are untouched; a lobby with it loses the first matching entry and is deleted exactly when that was its only player |
| LobbyLemmas.CreatedWellFormed | backend/server.js:35-40 | a new lobby under a generated code keeps the invariant |
| LobbyLemmas.JoinedWellFormed | backend/server.js:68 | joining keeps the invariant |
| LobbyLemmas.ModeChangedWellFormed | backend/server.js:90-95 | changing the mode keeps the invariant (a falsy mode is never stored) |
| LobbyLemmas.LeftWellFormed | backend/server.js:116-127 | leaving keeps the invariant: an emptied lobby is deleted |
| LobbyLemmas.DeletedWellFormed | backend/server.js:139-142 | deleting keeps the invariant |
| LobbyLemmas.DisconnectedWellFormed | backend/server.js:150-163 | disconnecting keeps the invariant: every lobby it empties is deleted |
| LobbyLemmas.DisconnectedInStep | backend/server.js:151-161 | one visit of the disconnect loop changes only the visited lobby |
| LobbyLemmas.CreatePossible | backend/server.js:29-32 | in a well-formed directory a free code exists exactly when fewer than 9000 lobbies are active |
| LobbyLemmas.FullDirectoryNoFreeDraw | backend/server.js:29-32 | with 9000 lobbies active every draw gives a code in use, so the retry loop cannot end |
| LobbyLemmas.CreateThenDelete | backend/server.js:35-40 | creating a lobby under a fresh code and deleting that code restores the directory |
| LobbyLemmas.CreateThenDisconnect | backend/server.js:146-163 | a socket in no lobby that creates one and disconnects leaves the directory as it was |
| LobbyLemmas.DisconnectIdle | backend/server.js:150-152 | the disconnect of a socket that is in no lobby changes nothing |
| LobbyLemmas.DeleteIdempotent | backend/server.js:139-142 | deleting twice equals deleting once |
| LobbyLemmas.ModeChangeIdempotent | backend/server.js:85-95 | setting the same mode twice equals setting it once |
| LobbyLemmas.FirstIndexAppend | backend/server.js:116 | the first match in a roster with no earlier match is the appended entry |
| LobbyLemmas.JoinThenLeave | backend/server.js:68 | joining under a name not yet in a non-empty lobby and leaving under it restores the directory |
| LobbyLemmas.JoinAddsDuplicate | backend/server.js:68 | joining under a name already present still adds one more occurrence of it |
| LobbyLemmas.NamesRemoveAt | backend/server.js:118 | the names after a removal are the names with the same position removed |
| LobbyLemmas.LeaveRemovesOneName | backend/server.js:116-131 | the broadcast names lose exactly the first occurrence of the leaving name, or nothing if it is absent, and keep their order |
| LobbyLemmas.DisconnectRemovesAtMostOne | backend/server.js:151-154 | every surviving lobby loses at most one entry to a disconnect and gains none |
| LobbyLemmas.HostLeaves | backend/server.js:107-127 | in any lobby of two or more, when the first player leaves by name the lobby stays, the others remain in order, and `host` is unchanged, whether or not the first player was the host |
| LobbyLemmas.HostDisconnects | backend/server.js:146-163 | in any lobby of two or more, when the first player's socket disconnects the lobby stays, the others remain in order, and `host` is unchanged |
| LobbyLemmas.ModeRightFollowsHost | backend/server.js:85-95 | for any lobby and truthy mode, a caller other than `host` changes nothing and the `host` socket always sets the mode, whether or not it is still in the roster |
| Server.DrawCode | backend/server.js:29-32 | the retry loop returns the code of the first draw not in use; every earlier draw was in use |
| Server.Directory.constructor | backend/server.js:15 | the directory starts empty |
| Server.Directory.CreateParty | backend/server.js:26-55 | the code is that of the first supplied draw not in use, so it is fresh and a valid code; the new state is `Created`, and the broadcast is the creator's name with mode "Unknown" |
| Server.Directory.JoinParty | backend/server.js:59-80 | the new state is `Joined`; the broadcast is the lobby's names and mode, or nothing for an unknown code |
| Server.Directory.ChangeGameMode | backend/server.js:82-104 | the new state is `ModeChanged`; a broadcast happens exactly when the change is accepted (the lobby exists, the caller is its host, the mode is truthy), even when the new mode equals the old one |
| Server.Directory.LeaveLobby | backend/server.js:107-134 | the new state is `Left`; the broadcast is the remaining names and mode, or nothing when the lobby is absent or deleted |
| Server.Directory.DeleteParty | backend/server.js:137-143 | the new state is `Deleted` |
| Server.Directory.DropFromLobby | backend/server.js:151-161 | one lobby loses its first entry with the socket id and is deleted if that empties it |
| Server.Directory.Disconnect | backend/server.js:146-164 | the loop over all lobbies ends in the state `Disconnected` |

## Left out

- Express, HTTP and socket.io setup, CORS and `server.listen` are left out. They are transport and process start-up.
- `console.log` and `logActiveLobbies` are left out. They only print diagnostics.
- `socket.join` and the delivery of events are left out. The model returns the `lobby_updated` payload and the `party_created` code as values, and does not say who receives them.
- `Math.random` is left out. The draws are a parameter. `DrawCode` and `CreateParty` require that one of the supplied draws gives a free code. With fewer than 9000 lobbies active the retry loop ends with probability one. With all 9000 codes in use it never ends, and since handlers run one at a time the whole server stops; the precondition excludes exactly that state, so the model does not describe it. `CreatePossible` shows that a free draw exists exactly when fewer than 9000 lobbies are active, and `FullDirectoryNoFreeDraw` that with 9000 active no draw sequence meets the precondition.
- Concurrency is left out. Handlers run one at a time to completion, so each is one method call.
- Payload fields are strings. The model does not cover other JavaScript values: a number as lobby code, a missing name in `join_party`, or a missing `data` object, which makes the handler throw. Only the player name of `create_party` and the mode of `change_game_mode` are optional, because the code tests whether they are truthy. Non-string falsy values (`0`, `false`) are not modelled.
- Keys inherited from the object prototype are not modelled. The model treats `lobbies` as a plain dictionary, so a code such as `"toString"`, which the plain object would find, is unknown.
- The iteration order of `Object.entries` in `disconnect` is not modelled. The loop visits the lobbies in an arbitrary order. Each visit changes only its own lobby, so the final state is the same for every order.
- The `hostName` field is stored and never read. It is modelled only as data.
