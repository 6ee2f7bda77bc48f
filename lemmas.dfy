/**
 Properties of the lobby transitions: the directory invariant is kept by every
 handler, and the handlers relate to each other as the server promises.
 */
module LobbyLemmas {
  import opened LobbyCodes
  import opened Lobbies

  /// Every handler keeps the directory invariant.

  lemma CreatedWellFormed(m: Table, code: string, id: string, name: Option<string>)
    requires WellFormed(m) && code in AllCodes()
    ensures WellFormed(Created(m, code, id, name))
  {
  }

  lemma JoinedWellFormed(m: Table, code: string, id: string, name: string)
    requires WellFormed(m)
    ensures WellFormed(Joined(m, code, id, name))
  {
  }

  lemma ModeChangedWellFormed(m: Table, code: string, caller: string, mode: Option<string>)
    requires WellFormed(m)
    ensures WellFormed(ModeChanged(m, code, caller, mode))
  {
  }

  lemma LeftWellFormed(m: Table, code: string, name: string)
    requires WellFormed(m)
    ensures WellFormed(Left(m, code, name))
  {
  }

  lemma DeletedWellFormed(m: Table, code: string)
    requires WellFormed(m)
    ensures WellFormed(Deleted(m, code))
  {
  }

  lemma DisconnectedWellFormed(m: Table, id: string)
    requires WellFormed(m)
    ensures WellFormed(Disconnected(m, id))
  {
  }

  /// The `disconnect` loop, one lobby at a time.

  /** Before the loop has visited any lobby, the directory is as it was. */
  lemma DisconnectedInNone(m: Table, id: string)
    ensures DisconnectedIn(m, id, {}) == m
  {
  }

  /** Visiting one more lobby changes only that lobby's entry. */
  lemma DisconnectedInStep(m: Table, id: string, done: set<string>, code: string)
    requires code in m && code !in done
    ensures DisconnectedIn(m, id, done + {code}) ==
      if EmptiedBy(m[code], id) then DisconnectedIn(m, id, done) - {code}
      else DisconnectedIn(m, id, done)[code := Dropped(m[code], id)]
  {
  }

  /// Relations between handlers.

  /** With every key a code, a fresh code exists exactly when fewer than 9000 lobbies are active. */
  lemma CreatePossible(m: Table)
    requires WellFormed(m)
    ensures (exists d :: 0 <= d < CodeCount && CodeOf(d) !in m) <==> |m| < CodeCount
  {
    assert m.Keys <= AllCodes();
    FreeCodeIff(m.Keys);
  }

  /**
   With all 9000 codes in use, every draw gives a code that is taken, so the
   retry loop of `create_party` never ends.
   */
  lemma FullDirectoryNoFreeDraw(m: Table, draws: seq<int>)
    requires WellFormed(m) && |m| == CodeCount
    requires forall i :: 0 <= i < |draws| ==> 0 <= draws[i] < CodeCount
    ensures forall i :: 0 <= i < |draws| ==> CodeOf(draws[i]) in m
  {
    CreatePossible(m);
  }

  /** Creating a lobby and deleting it again restores the directory. */
  lemma CreateThenDelete(m: Table, code: string, id: string, name: Option<string>)
    requires code !in m
    ensures Deleted(Created(m, code, id, name), code) == m
  {
    assert Deleted(Created(m, code, id, name), code).Keys == m.Keys;
  }

  /** A socket that is in no lobby and creates one, then disconnects, leaves the directory as it was. */
  lemma CreateThenDisconnect(m: Table, code: string, id: string, name: Option<string>)
    requires code !in m
    requires forall k :: k in m ==> FirstIndex(m[k].players, ById(id)) == -1
    ensures Disconnected(Created(m, code, id, name), id) == m
  {
    var c := Created(m, code, id, name);
    assert FirstIndex(c[code].players, ById(id)) == 0;
    assert Disconnected(c, id).Keys == m.Keys;
  }

  /** A socket that is in no lobby disconnects without effect. */
  lemma DisconnectIdle(m: Table, id: string)
    requires forall k :: k in m ==> FirstIndex(m[k].players, ById(id)) == -1
    ensures Disconnected(m, id) == m
  {
    assert Disconnected(m, id).Keys == m.Keys;
  }

  /** `delete_party` twice is `delete_party` once. */
  lemma DeleteIdempotent(m: Table, code: string)
    ensures Deleted(Deleted(m, code), code) == Deleted(m, code)
  {
  }

  /** Setting the same mode twice is setting it once. */
  lemma ModeChangeIdempotent(m: Table, code: string, caller: string, mode: Option<string>)
    ensures ModeChanged(ModeChanged(m, code, caller, mode), code, caller, mode)
      == ModeChanged(m, code, caller, mode)
  {
  }

  lemma {:induction false} FirstIndexAppend(s: seq<Player>, x: Player, key: Match)
    requires forall j :: 0 <= j < |s| ==> !Matches(s[j], key)
    requires Matches(x, key)
    ensures FirstIndex(s + [x], key) == |s|
  {
    if s != [] {
      assert (s + [x])[1..] == s[1..] + [x];
      FirstIndexAppend(s[1..], x, key);
    }
  }

  /**
   A player who joins under a name not yet in the lobby and then leaves under
   that name restores the directory.
   */
  lemma JoinThenLeave(m: Table, code: string, id: string, name: string)
    requires code in m && m[code].players != []
    requires forall j :: 0 <= j < |m[code].players| ==> m[code].players[j].name != name
    ensures Left(Joined(m, code, id, name), code, name) == m
  {
    var ps := m[code].players;
    var joined := Joined(m, code, id, name);
    assert joined[code].players == ps + [Player(id, name)];
    FirstIndexAppend(ps, Player(id, name), ByName(name));
    assert WithoutFirst(joined[code].players, ByName(name)) == ps;
    assert Left(joined, code, name).Keys == m.Keys;
  }

  /** Joining does not de-duplicate: the name occurs once more than before. */
  lemma JoinAddsDuplicate(m: Table, code: string, id: string, name: string)
    requires code in m
    ensures multiset(Names(Joined(m, code, id, name)[code].players))[name]
      == multiset(Names(m[code].players))[name] + 1
  {
    var ps := m[code].players;
    var qs := Joined(m, code, id, name)[code].players;
    assert qs == ps + [Player(id, name)];
    assert Names(qs) == Names(ps) + [name];
  }

  lemma NamesRemoveAt(ps: seq<Player>, i: int)
    requires 0 <= i < |ps|
    ensures Names(RemoveAt(ps, i)) == RemoveAt(Names(ps), i)
  {
  }

  /**
   Leaving removes from the broadcast names the first occurrence of the name
   when it is present, and nothing otherwise; the other names keep their order.
   */
  lemma LeaveRemovesOneName(ps: seq<Player>, name: string)
    ensures var i := FirstIndex(ps, ByName(name));
      && (i == -1 ==> Names(WithoutFirst(ps, ByName(name))) == Names(ps) && name !in Names(ps))
      && (i != -1 ==> Names(WithoutFirst(ps, ByName(name))) == RemoveAt(Names(ps), i))
      && (i != -1 ==> multiset(Names(WithoutFirst(ps, ByName(name)))) + multiset{name} == multiset(Names(ps)))
  {
    var i := FirstIndex(ps, ByName(name));
    if i != -1 {
      NamesRemoveAt(ps, i);
    } else {
      assert forall j :: 0 <= j < |ps| ==> Names(ps)[j] != name;
    }
  }

  /** `disconnect` takes at most one entry out of each lobby and adds none. */
  lemma DisconnectRemovesAtMostOne(m: Table, id: string)
    ensures var r := Disconnected(m, id);
      forall k :: k in r ==>
        && |m[k].players| - 1 <= |r[k].players| <= |m[k].players|
        && multiset(r[k].players) <= multiset(m[k].players)
  {
  }

  /**
   The first player of a lobby of two or more leaves: the others remain in
   order and `host` is unchanged, because no handler reassigns it. The first
   player need not be the host: the creator may have left before, or a joiner
   may share the first player's name and leave under it.
   */
  lemma HostLeaves(m: Table, code: string)
    requires code in m && |m[code].players| >= 2
    ensures var r := Left(m, code, m[code].players[0].name);
      && code in r
      && r[code].host == m[code].host
      && r[code].players == m[code].players[1..]
  {
    var ps := m[code].players;
    assert FirstIndex(ps, ByName(ps[0].name)) == 0;
  }

  /** The same when the first player's socket disconnects instead. */
  lemma HostDisconnects(m: Table, code: string)
    requires code in m && |m[code].players| >= 2
    ensures var r := Disconnected(m, m[code].players[0].id);
      && code in r
      && r[code].host == m[code].host
      && r[code].players == m[code].players[1..]
  {
    var ps := m[code].players;
    assert FirstIndex(ps, ById(ps[0].id)) == 0;
  }

  /**
   The right to change the mode follows `host`, whether or not the host is
   still in the roster: every other caller is ignored, and the host's socket
   always succeeds with a truthy mode.
   */
  lemma ModeRightFollowsHost(m: Table, code: string, caller: string, mode: Option<string>)
    requires code in m && Truthy(mode)
    ensures caller != m[code].host ==> ModeChanged(m, code, caller, mode) == m
    ensures caller == m[code].host ==> ModeChanged(m, code, caller, mode)[code].gameMode == mode.value
  {
  }
}
