/**
 The process-wide lobby directory of the game server and its six socket
 handlers. Handlers run one at a time to completion, so each is a method call
 on one `Directory` object. The socket id of the calling connection is passed
 in; the broadcasts a handler makes are returned as values.
 */
module Server {
  import opened LobbyCodes
  import opened Lobbies
  import opened LobbyLemmas

  /**
   The retry loop of `create_party`: take draws one after another until one
   gives a code that is not in use. The random draws are supplied by the caller.
   */
  method DrawCode(taken: set<string>, draws: seq<int>) returns (code: string, tries: nat)
    requires forall i :: 0 <= i < |draws| ==> 0 <= draws[i] < CodeCount
    requires exists i :: 0 <= i < |draws| && CodeOf(draws[i]) !in taken
    ensures tries < |draws| && code == CodeOf(draws[tries])
    ensures code !in taken
    ensures forall j :: 0 <= j < tries ==> CodeOf(draws[j]) in taken
  {
    tries := 0;
    code := CodeOf(draws[0]);
    while code in taken
      invariant tries < |draws| && code == CodeOf(draws[tries])
      invariant forall j :: 0 <= j < tries ==> CodeOf(draws[j]) in taken
      decreases |draws| - tries
    {
      tries := tries + 1;
      code := CodeOf(draws[tries]);
    }
  }

  class Directory {
    /** Active lobbies by code. */
    var lobbies: Table

    ghost predicate Valid()
      reads this
    {
      WellFormed(lobbies)
    }

    constructor ()
      ensures Valid() && lobbies == map[]
    {
      lobbies := map[];
    }

    /**
     `create_party`: the caller becomes host and sole player of a lobby under
     a fresh code. Returns the code (`party_created`) and the first
     `lobby_updated` payload.
     */
    method CreateParty(socketId: string, playerName: Option<string>, draws: seq<int>)
      returns (code: string, update: LobbyUpdate)
      requires Valid()
      requires forall i :: 0 <= i < |draws| ==> 0 <= draws[i] < CodeCount
      requires exists i :: 0 <= i < |draws| && CodeOf(draws[i]) !in lobbies
      modifies this
      ensures Valid()
      ensures code in AllCodes() && code !in old(lobbies)
      ensures exists t ::
        && 0 <= t < |draws| && code == CodeOf(draws[t])
        && forall j :: 0 <= j < t ==> CodeOf(draws[j]) in old(lobbies)
      ensures lobbies == Created(old(lobbies), code, socketId, playerName)
      ensures update == LobbyUpdate([OrUnknown(playerName)], Unknown)
    {
      var name := OrUnknown(playerName);
      var tries;
      code, tries := DrawCode(lobbies.Keys, draws);
      lobbies := lobbies[code := Lobby(socketId, name, [Player(socketId, name)], Unknown)];
      update := UpdateOf(lobbies[code]);
      CreatedWellFormed(old(lobbies), code, socketId, playerName);
    }

    /**
     `join_party`: append the caller to an existing lobby. An unknown code
     changes nothing and broadcasts nothing.
     */
    method JoinParty(socketId: string, code: string, playerName: string)
      returns (update: Option<LobbyUpdate>)
      requires Valid()
      modifies this
      ensures Valid()
      ensures lobbies == Joined(old(lobbies), code, socketId, playerName)
      ensures update == if code in lobbies then Some(UpdateOf(lobbies[code])) else None
    {
      if code !in lobbies {
        return None;
      }
      var lobby := lobbies[code];
      lobby := lobby.(players := lobby.players + [Player(socketId, playerName)]);
      lobbies := lobbies[code := lobby];
      var mode := if lobby.gameMode != "" then lobby.gameMode else Unknown;
      update := Some(LobbyUpdate(Names(lobby.players), mode));
      JoinedWellFormed(old(lobbies), code, socketId, playerName);
    }

    /**
     `change_game_mode`: the host sets the mode label. A missing lobby, a
     caller other than the host, or a falsy mode changes nothing.
     */
    method ChangeGameMode(socketId: string, code: string, gameMode: Option<string>)
      returns (update: Option<LobbyUpdate>)
      requires Valid()
      modifies this
      ensures Valid()
      ensures lobbies == ModeChanged(old(lobbies), code, socketId, gameMode)
      ensures update == if MayChangeMode(old(lobbies), code, socketId, gameMode)
        then Some(UpdateOf(lobbies[code])) else None
    {
      if code !in lobbies || lobbies[code].host != socketId {
        return None;
      }
      if !Truthy(gameMode) {
        return None;
      }
      lobbies := lobbies[code := lobbies[code].(gameMode := gameMode.value)];
      update := Some(LobbyUpdate(Names(lobbies[code].players), gameMode.value));
      ModeChangedWellFormed(old(lobbies), code, socketId, gameMode);
    }

    /**
     `leave_lobby`: remove the first player with the given name. The lobby is
     deleted, with no broadcast, when nobody is left.
     */
    method LeaveLobby(code: string, playerName: string) returns (update: Option<LobbyUpdate>)
      requires Valid()
      modifies this
      ensures Valid()
      ensures lobbies == Left(old(lobbies), code, playerName)
      ensures update == if code in lobbies then Some(UpdateOf(lobbies[code])) else None
    {
      if code !in lobbies {
        return None;
      }
      ghost var before := lobbies;
      var lobby := lobbies[code];
      var playerIndex := FirstIndex(lobby.players, ByName(playerName));
      if playerIndex != -1 {
        lobby := lobby.(players := RemoveAt(lobby.players, playerIndex));
        lobbies := lobbies[code := lobby];
      }
      assert lobby.players == WithoutFirst(before[code].players, ByName(playerName));
      if |lobby.players| == 0 {
        lobbies := lobbies - {code};
        update := None;
      } else {
        assert lobbies == before[code := lobby];
        update := Some(UpdateOf(lobby));
      }
      LeftWellFormed(before, code, playerName);
    }

    /** `delete_party`: remove the lobby if it exists; any caller may. */
    method DeleteParty(code: string)
      requires Valid()
      modifies this
      ensures Valid()
      ensures lobbies == Deleted(old(lobbies), code)
    {
      if code in lobbies {
        lobbies := lobbies - {code};
      }
    }

    /**
     One step of the `disconnect` loop: remove from the lobby under `code`
     the first player with the socket's id, and delete the lobby if that
     leaves it empty.
     */
    method DropFromLobby(code: string, socketId: string)
      requires code in lobbies
      modifies this
      ensures lobbies == if EmptiedBy(old(lobbies)[code], socketId) then old(lobbies) - {code}
        else old(lobbies)[code := Dropped(old(lobbies)[code], socketId)]
    {
      var lobby := lobbies[code];
      var playerIndex := FirstIndex(lobby.players, ById(socketId));
      if playerIndex != -1 {
        lobby := lobby.(players := RemoveAt(lobby.players, playerIndex));
        lobbies := lobbies[code := lobby];
        if |lobby.players| == 0 {
          lobbies := lobbies - {code};
        }
      }
    }

    /**
     `disconnect`: in every lobby, remove the first player with the closed
     socket's id, and delete each lobby that this leaves empty. The lobbies
     are visited in any order; each visit touches only its own lobby.
     */
    method Disconnect(socketId: string)
      requires Valid()
      modifies this
      ensures Valid()
      ensures lobbies == Disconnected(old(lobbies), socketId)
    {
      ghost var start := lobbies;
      ghost var done: set<string> := {};
      var pending := lobbies.Keys;
      DisconnectedInNone(start, socketId);
      while pending != {}
        invariant done !! pending && done + pending == start.Keys
        invariant lobbies == DisconnectedIn(start, socketId, done)
        decreases pending
      {
        var code :| code in pending;
        assert code in lobbies && lobbies[code] == start[code];
        DisconnectedInStep(start, socketId, done, code);
        DropFromLobby(code, socketId);
        pending := pending - {code};
        done := done + {code};
      }
      assert done == start.Keys;
      DisconnectedWellFormed(start, socketId);
    }
  }
}
