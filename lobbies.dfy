/**
 The lobby directory as values: a map from lobby code to lobby record, and one
 pure transition function per socket handler that changes it. The class in
 directory.dfy performs the same changes step by step and is proved to agree
 with these functions.
 */
module Lobbies {
  import opened LobbyCodes

  /** A payload field that the client may leave out. */
  datatype Option<T> = None | Some(value: T)

  /** One roster entry: the socket that joined and the name it gave. */
  datatype Player = Player(id: string, name: string)

  /** A lobby record: creator's socket and name, roster in join order, mode label. */
  datatype Lobby = Lobby(host: string, hostName: string, players: seq<Player>, gameMode: string)

  /** The `lobby_updated` payload: the roster's names in order and the mode. */
  datatype LobbyUpdate = LobbyUpdate(players: seq<string>, gameMode: string)

  /** The directory: lobby code to lobby. */
  type Table = map<string, Lobby>

  /** Default for a missing player name and the initial game mode. */
  const Unknown: string := "Unknown"

  /** JavaScript truthiness of a string-valued payload field. */
  predicate Truthy(v: Option<string>) {
    v.Some? && v.value != ""
  }

  /** `v || "Unknown"` */
  function OrUnknown(v: Option<string>): (s: string)
    ensures s != ""
    ensures Truthy(v) ==> s == v.value
    ensures !Truthy(v) ==> s == Unknown
  {
    if Truthy(v) then v.value else Unknown
  }

  /// Sequence helpers: `findIndex`, `splice(i, 1)` and `map(p => p.name)`.

  /** The two `findIndex` callbacks: match by player name or by socket id. */
  datatype Match = ByName(name: string) | ById(id: string)

  predicate Matches(p: Player, key: Match) {
    match key
    case ByName(name) => p.name == name
    case ById(id) => p.id == id
  }

  /** `findIndex`: the first position whose player matches `key`, or -1. */
  function FirstIndex(s: seq<Player>, key: Match): (r: int)
    ensures -1 <= r < |s|
    ensures r == -1 <==> forall j :: 0 <= j < |s| ==> !Matches(s[j], key)
    ensures 0 <= r ==> Matches(s[r], key) && forall j :: 0 <= j < r ==> !Matches(s[j], key)
  {
    if s == [] then -1
    else if Matches(s[0], key) then 0
    else
      var r := FirstIndex(s[1..], key);
      if r == -1 then -1 else r + 1
  }

  /** `splice(i, 1)`: the sequence without its element at `i`. */
  function RemoveAt<T>(s: seq<T>, i: int): (r: seq<T>)
    requires 0 <= i < |s|
    ensures |r| == |s| - 1
    ensures forall j :: 0 <= j < i ==> r[j] == s[j]
    ensures forall j :: i <= j < |r| ==> r[j] == s[j + 1]
    ensures multiset(r) + multiset{s[i]} == multiset(s)
  {
    assert s == s[..i] + [s[i]] + s[i + 1..];
    s[..i] + s[i + 1..]
  }

  /** The roster without its first player matching `key`, if there is one. */
  function WithoutFirst(s: seq<Player>, key: Match): (r: seq<Player>)
    ensures FirstIndex(s, key) == -1 ==> r == s
    ensures FirstIndex(s, key) != -1 ==>
      var i := FirstIndex(s, key);
      && |r| == |s| - 1
      && (forall j :: 0 <= j < i ==> r[j] == s[j])
      && (forall j :: i <= j < |r| ==> r[j] == s[j + 1])
      && multiset(r) + multiset{s[i]} == multiset(s)
  {
    var i := FirstIndex(s, key);
    if i == -1 then s else RemoveAt(s, i)
  }

  function Names(ps: seq<Player>): (r: seq<string>)
    ensures |r| == |ps|
    ensures forall i :: 0 <= i < |ps| ==> r[i] == ps[i].name
  {
    seq(|ps|, i requires 0 <= i < |ps| => ps[i].name)
  }

  /** The payload broadcast after a change to `l`. */
  function UpdateOf(l: Lobby): LobbyUpdate {
    LobbyUpdate(Names(l.players), l.gameMode)
  }

  /// The invariant kept by every handler.

  /**
   Every key is a code the generator can produce, every stored lobby has at
   least one player, and every mode label is truthy.
   */
  ghost predicate WellFormed(m: Table) {
    forall k :: k in m ==> k in AllCodes() && m[k].players != [] && m[k].gameMode != ""
  }

  /// The handlers as transitions of the directory.

  /** `create_party` under the fresh `code`. */
  function Created(m: Table, code: string, id: string, name: Option<string>): (r: Table)
    ensures r.Keys == m.Keys + {code}
    ensures forall k :: k in m && k != code ==> r[k] == m[k]
    ensures r[code].host == id && r[code].gameMode == Unknown
    ensures r[code].hostName == OrUnknown(name)
    ensures r[code].players == [Player(id, r[code].hostName)]
  {
    var playerName := OrUnknown(name);
    m[code := Lobby(id, playerName, [Player(id, playerName)], Unknown)]
  }

  /** `join_party`: append the caller to the lobby, if it exists. */
  function Joined(m: Table, code: string, id: string, name: string): (r: Table)
    ensures r.Keys == m.Keys
    ensures forall k :: k in m && k != code ==> r[k] == m[k]
    ensures code in m ==>
      && r[code].host == m[code].host
      && r[code].hostName == m[code].hostName
      && r[code].gameMode == m[code].gameMode
      && |r[code].players| == |m[code].players| + 1
      && r[code].players[..|m[code].players|] == m[code].players
      && r[code].players[|m[code].players|] == Player(id, name)
    ensures code !in m ==> r == m
  {
    if code in m then
      var lobby := m[code];
      m[code := lobby.(players := lobby.players + [Player(id, name)])]
    else m
  }

  /** The three conditions under which `change_game_mode` does anything. */
  predicate MayChangeMode(m: Table, code: string, caller: string, mode: Option<string>) {
    code in m && m[code].host == caller && Truthy(mode)
  }

  /** `change_game_mode`: only the host, only with a truthy mode. */
  function ModeChanged(m: Table, code: string, caller: string, mode: Option<string>): (r: Table)
    ensures !MayChangeMode(m, code, caller, mode) ==> r == m
    ensures r.Keys == m.Keys
    ensures forall k :: k in m && k != code ==> r[k] == m[k]
    ensures code in m ==>
      && r[code].host == m[code].host
      && r[code].hostName == m[code].hostName
      && r[code].players == m[code].players
    ensures MayChangeMode(m, code, caller, mode) ==> r[code].gameMode == mode.value
  {
    if MayChangeMode(m, code, caller, mode) then
      m[code := m[code].(gameMode := mode.value)]
    else m
  }

  /** `leave_lobby`: drop the first player with that name; delete the lobby if emptied. */
  function Left(m: Table, code: string, name: string): (r: Table)
    ensures r.Keys <= m.Keys && m.Keys - r.Keys <= {code}
    ensures forall k :: k in r && k != code ==> r[k] == m[k]
    ensures code in m ==> (code !in r <==> WithoutFirst(m[code].players, ByName(name)) == [])
    ensures code in r ==>
      && r[code].players == WithoutFirst(m[code].players, ByName(name))
      && r[code].host == m[code].host
      && r[code].hostName == m[code].hostName
      && r[code].gameMode == m[code].gameMode
  {
    if code !in m then m
    else
      var players := WithoutFirst(m[code].players, ByName(name));
      if players == [] then m - {code}
      else m[code := m[code].(players := players)]
  }

  /** `delete_party`: remove the lobby, whoever asks. */
  function Deleted(m: Table, code: string): (r: Table)
    ensures r.Keys == m.Keys - {code}
    ensures forall k :: k in r ==> r[k] == m[k]
  {
    if code in m then m - {code} else m
  }

  /** A lobby after `disconnect` of socket `id` has passed over it. */
  function Dropped(l: Lobby, id: string): Lobby {
    l.(players := WithoutFirst(l.players, ById(id)))
  }

  /** `disconnect` deletes a lobby when it removed a player and none is left. */
  predicate EmptiedBy(l: Lobby, id: string) {
    FirstIndex(l.players, ById(id)) != -1 && Dropped(l, id).players == []
  }

  /** The directory once the `disconnect` loop has visited the codes in `done`. */
  function DisconnectedIn(m: Table, id: string, done: set<string>): Table {
    map k | k in m && !(k in done && EmptiedBy(m[k], id)) ::
      if k in done then Dropped(m[k], id) else m[k]
  }

  /** `disconnect`: every lobby visited once. */
  function Disconnected(m: Table, id: string): (r: Table)
    ensures r.Keys <= m.Keys
    ensures forall k :: k in m && FirstIndex(m[k].players, ById(id)) == -1 ==> k in r && r[k] == m[k]
    ensures forall k :: k in m && FirstIndex(m[k].players, ById(id)) != -1 ==>
      (k in r <==> |m[k].players| > 1)
    ensures forall k :: k in r ==>
      && r[k].host == m[k].host
      && r[k].hostName == m[k].hostName
      && r[k].gameMode == m[k].gameMode
      && r[k].players == WithoutFirst(m[k].players, ById(id))
  {
    DisconnectedIn(m, id, m.Keys)
  }
}
