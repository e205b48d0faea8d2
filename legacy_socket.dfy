/**
 * The oldest room server, server/index.js: the creator is made host when
 * the room is created over REST, `room:join` always creates a new non-host
 * record (no pseudo reuse), `room:reconnect` names a player id and a room
 * code, a disconnected player is removed after 10 s, and the timer maps
 * are module-level and never cleared, so no pending removal or room
 * deletion is ever cancelled.
 */
module LegacySocket {
  import opened Wrappers
  import opened Membership
  import RoomCodes
  import JsArrays

  type ConnId = nat
  type TimerId = nat

  const NotFound: string := "room:not-found"
  const RoomFull: string := "room:full"
  const RemovalDelayMs: nat := 10000
  const DeletionDelayMs: nat := 60000

  /** A room record of this version: its code and its players (no game state). */
  datatype LegacyRoom = LegacyRoom(code: string, members: Members)

  datatype Msg =
    | Error(code: string)
    | RoomUpdate(players: seq<Player>)
    | Joined(room: LegacyRoom, players: seq<Player>, self: Player)
    | Reconnected
    | HostChanged(playerId: PlayerId)

  datatype Target = ToChannel(name: string) | ToSocket(conn: ConnId)

  datatype Emit = Emit(to: Target, msg: Msg)

  /** `removePlayer` reads the connection's variables when it runs; the deletion captured its code. */
  datatype Pending = RemovePlayerLater(conn: ConnId, delayMs: nat) | DeleteRoomLater(code: string, delayMs: nat)

  /** The closure variables `currentRoom` and `currentPlayer` of one connection. */
  datatype Conn = Conn(currentRoom: Option<string>, currentPlayer: Option<PlayerId>)

  // ------------------------------------------------------------- store

  function PlayersOf(rooms: map<string, LegacyRoom>, k: string): set<PlayerId>
    requires k in rooms
  {
    Ids(rooms[k].members.players)
  }

  predicate PlayerExists(rooms: map<string, LegacyRoom>, id: PlayerId) {
    exists k :: k in rooms && id in PlayersOf(rooms, k)
  }

  /**
   * The invariant this version keeps: at most two players per room and one
   * record per id, ids allocated and each in one room. (Pseudos may repeat
   * and a room may have no host.)
   */
  predicate StoreOk(rooms: map<string, LegacyRoom>, bound: nat) {
    && (forall k :: k in rooms ==>
          rooms[k].code == k && |rooms[k].members.players| <= MaxPlayers && DistinctIds(rooms[k].members.players))
    && (forall k, id :: k in rooms && id in PlayersOf(rooms, k) ==> id < bound)
    && (forall k1, k2 :: k1 in rooms && k2 in rooms && k1 != k2 ==> PlayersOf(rooms, k1) !! PlayersOf(rooms, k2))
  }

  /** The room holding player `id`. */
  ghost function Home(rooms: map<string, LegacyRoom>, id: PlayerId): (k: string)
    requires PlayerExists(rooms, id)
    ensures k in rooms && id in PlayersOf(rooms, k)
  {
    var k :| k in rooms && id in PlayersOf(rooms, k); k
  }

  /** With ids in one room each, that room is the only one holding the id. */
  lemma HomeIsUnique(rooms: map<string, LegacyRoom>, bound: nat, id: PlayerId, k: string)
    requires StoreOk(rooms, bound) && k in rooms && id in PlayersOf(rooms, k)
    ensures Home(rooms, id) == k
  {
  }

  function Record(rooms: map<string, LegacyRoom>, k: string, id: PlayerId): (p: Player)
    requires k in rooms && id in PlayersOf(rooms, k)
    ensures p in rooms[k].members.players && p.id == id
  {
    rooms[k].members.players[FindById(rooms[k].members.players, id).value]
  }

  // ------------------------------------------------------------- rules

  /**
   * `room:join` on an existing room: refused at two players or more;
   * otherwise a new record, never host, whatever its pseudo; `hostPlayerId`
   * is left as it was.
   */
  function Admit(m: Members, pseudo: string, freshId: PlayerId, now: int): (r: Option<Members>)
    ensures r.None? <==> |m.players| >= MaxPlayers
    ensures r.Some? ==> r.value == Members(m.hostPlayerId, m.players + [Player(freshId, pseudo, false, true, DefaultScene, now)])
  {
    if |m.players| >= MaxPlayers then None
    else Some(Members(m.hostPlayerId, m.players + [Player(freshId, pseudo, false, true, DefaultScene, now)]))
  }

  /** The new record is never host: the number of hosts does not change. */
  lemma AdmitAddsNoHost(m: Members, pseudo: string, freshId: PlayerId, now: int)
    requires Admit(m, pseudo, freshId, now).Some?
    ensures HostCount(Admit(m, pseudo, freshId, now).value.players) == HostCount(m.players)
  {
    HostCountAppend(m.players, Player(freshId, pseudo, false, true, DefaultScene, now));
  }

  /** A room emptied by removals takes its next player without a host. */
  lemma AdmitIntoEmptyRoomHasNoHost(hostPlayerId: Option<PlayerId>, pseudo: string, freshId: PlayerId, now: int)
    ensures var r := Admit(Members(hostPlayerId, []), pseudo, freshId, now);
            r.Some? && |r.value.players| == 1 && HostCount(r.value.players) == 0
  {
    AdmitAddsNoHost(Members(hostPlayerId, []), pseudo, freshId, now);
  }

  /** Joining twice with one pseudo gives two records: pseudos are not reused. */
  lemma PseudoIsNotReused(m: Members, pseudo: string, id1: PlayerId, id2: PlayerId, now: int)
    requires |m.players| == 0 && id1 != id2
    ensures var r1 := Admit(m, pseudo, id1, now);
            r1.Some? && Admit(r1.value, pseudo, id2, now).Some?
            && var ps := Admit(r1.value, pseudo, id2, now).value.players;
               |ps| == 2 && ps[0].pseudo == ps[1].pseudo && ps[0].id != ps[1].id
  {
  }

  /**
   * `removePlayer`'s transfer acts on the room named by `roomCode`: when it
   * holds two players and the departing record is host, its first player
   * other than the departing one is made host.
   */
  function Promoted(rooms: map<string, LegacyRoom>, roomCode: string, leaving: Player): (r: map<string, LegacyRoom>)
    ensures r.Keys == rooms.Keys
  {
    if roomCode in rooms && |rooms[roomCode].members.players| == MaxPlayers && leaving.isHost then
      match JsArrays.FindIndex(rooms[roomCode].members.players, (p: Player) => p.id != leaving.id)
      case Some(j) => rooms[roomCode := rooms[roomCode].(members := PromoteHost(rooms[roomCode].members, j))]
      case None => rooms
    else rooms
  }

  function PromotionEmits(rooms: map<string, LegacyRoom>, roomCode: string, leaving: Player): (r: seq<Emit>)
    ensures |r| <= 1
    ensures |r| == 1 ==>
              var promoted := Promoted(rooms, roomCode, leaving);
              roomCode in promoted && promoted[roomCode].members.hostPlayerId.Some? &&
              r[0] == Emit(ToChannel(roomCode), HostChanged(promoted[roomCode].members.hostPlayerId.value))
  {
    if roomCode in rooms && |rooms[roomCode].members.players| == MaxPlayers && leaving.isHost then
      match JsArrays.FindIndex(rooms[roomCode].members.players, (p: Player) => p.id != leaving.id)
      case Some(j) => [Emit(ToChannel(roomCode), HostChanged(rooms[roomCode].members.players[j].id))]
      case None => []
    else []
  }

  /** The whole removal of player `leaving` (of room `home`) requested with code `roomCode`. */
  function Removed(rooms: map<string, LegacyRoom>, home: string, roomCode: string, leaving: Player): (r: map<string, LegacyRoom>)
    requires home in rooms
    ensures r.Keys == rooms.Keys
  {
    var r1 := Promoted(rooms, roomCode, leaving);
    r1[home := r1[home].(members := Without(r1[home].members, leaving.id))]
  }

  /**
   * When the code names the player's own room, the removal is the shared
   * membership removal: transfer to the other player, then delete. So the
   * host properties proved for `Membership.Remove` hold here too.
   */
  lemma RemovedInOwnRoom(rooms: map<string, LegacyRoom>, k: string, leaving: Player)
    requires k in rooms && leaving in rooms[k].members.players
    ensures Removed(rooms, k, k, leaving) == rooms[k := rooms[k].(members := Remove(rooms[k].members, leaving))]
    ensures PromotionEmits(rooms, k, leaving) ==
              match TransferTarget(rooms[k].members, leaving)
              case Some(i) => [Emit(ToChannel(k), HostChanged(rooms[k].members.players[i].id))]
              case None => []
  {
  }

  /**
   * When the code names another two-player room, that room's first other
   * player is made host although the room may already have one.
   */
  lemma ForeignCodePromotesInOtherRoom(host: Player, other: Player, guest: Player, now: int)
    requires host.isHost && other.isHost && !guest.isHost
    requires host.id != guest.id && other.id != guest.id && host.id != other.id
    ensures var rooms := map["X" := LegacyRoom("X", Members(Some(host.id), [host])),
                             "Y" := LegacyRoom("Y", Members(Some(other.id), [guest, other]))];
            var r := Removed(rooms, "X", "Y", host);
            HostCount(r["Y"].members.players) == 2 && r["X"].members.players == []
  {
    var rooms := map["X" := LegacyRoom("X", Members(Some(host.id), [host])),
                     "Y" := LegacyRoom("Y", Members(Some(other.id), [guest, other]))];
    var ys := rooms["Y"].members.players;
    assert JsArrays.FindIndex(ys, (p: Player) => p.id != host.id) == Some(0);
    var r := Removed(rooms, "X", "Y", host);
    HostCountTwo(r["Y"].members.players);
    assert [host][1..] == [];
  }

  lemma PromoteKeepsShape(m: Members, j: nat)
    requires j < |m.players|
    ensures |PromoteHost(m, j).players| == |m.players|
    ensures Ids(PromoteHost(m, j).players) == Ids(m.players)
    ensures DistinctIds(m.players) ==> DistinctIds(PromoteHost(m, j).players)
  {
    UpdateKeepsIds(m.players, j, m.players[j].(isHost := true));
  }

  /** The transfer changes flags only: every room keeps its ids. */
  lemma PromotedKeepsStoreOk(rooms: map<string, LegacyRoom>, bound: nat, roomCode: string, leaving: Player)
    requires StoreOk(rooms, bound)
    ensures StoreOk(Promoted(rooms, roomCode, leaving), bound)
    ensures forall k :: k in rooms ==> PlayersOf(Promoted(rooms, roomCode, leaving), k) == PlayersOf(rooms, k)
  {
    var r1 := Promoted(rooms, roomCode, leaving);
    if roomCode in rooms && |rooms[roomCode].members.players| == MaxPlayers && leaving.isHost {
      match JsArrays.FindIndex(rooms[roomCode].members.players, (p: Player) => p.id != leaving.id)
      case Some(j) =>
        PromoteKeepsShape(rooms[roomCode].members, j);
        assert forall k :: k in rooms ==> PlayersOf(r1, k) == PlayersOf(rooms, k);
      case None =>
    }
  }

  /** Deleting one record from room `home` keeps the invariant and only shrinks id sets. */
  lemma DropKeepsStoreOk(rooms: map<string, LegacyRoom>, bound: nat, home: string, id: PlayerId)
    requires StoreOk(rooms, bound) && home in rooms
    ensures var r := rooms[home := rooms[home].(members := Without(rooms[home].members, id))];
            && StoreOk(r, bound)
            && forall k :: k in rooms ==> PlayersOf(r, k) <= PlayersOf(rooms, k)
  {
    WithoutKeepsDistinctIds(rooms[home].members.players, id);
    var r := rooms[home := rooms[home].(members := Without(rooms[home].members, id))];
    assert forall k :: k in rooms && k != home ==> PlayersOf(r, k) == PlayersOf(rooms, k);
    assert PlayersOf(r, home) <= PlayersOf(rooms, home);
  }

  lemma RemovedKeepsStoreOk(rooms: map<string, LegacyRoom>, bound: nat, home: string, roomCode: string, leaving: Player)
    requires StoreOk(rooms, bound) && home in rooms
    ensures StoreOk(Removed(rooms, home, roomCode, leaving), bound)
  {
    PromotedKeepsStoreOk(rooms, bound, roomCode, leaving);
    DropKeepsStoreOk(Promoted(rooms, roomCode, leaving), bound, home, leaving.id);
  }

  /** A fresh id appended to room `k` (at most two players afterwards) keeps the invariant. */
  lemma AppendKeepsStoreOk(rooms: map<string, LegacyRoom>, bound: nat, k: string, r: LegacyRoom, p: Player)
    requires StoreOk(rooms, bound) && k in rooms && p.id == bound
    requires r.code == k && r.members.players == rooms[k].members.players + [p] && |r.members.players| <= MaxPlayers
    ensures StoreOk(rooms[k := r], bound + 1)
  {
    var ps := rooms[k].members.players;
    forall j | 0 <= j < |ps| ensures ps[j].id != bound {
      assert ps[j] in ps;
      assert ps[j].id in PlayersOf(rooms, k);
    }
    var rooms' := rooms[k := r];
    assert PlayersOf(rooms', k) == PlayersOf(rooms, k) + {bound} by {
      assert r.members.players[|ps|] == p;
      forall q | q in r.members.players ensures q.id in PlayersOf(rooms, k) + {bound} {
        var j :| 0 <= j < |r.members.players| && r.members.players[j] == q;
        if j < |ps| { assert ps[j] in ps; }
      }
    }
    assert forall j :: j in rooms' && j != k ==> PlayersOf(rooms', j) == PlayersOf(rooms, j);
  }

  /** Rewriting a record's flags keeps the invariant. */
  lemma RetouchKeepsStoreOk(rooms: map<string, LegacyRoom>, bound: nat, k: string, i: nat, p: Player)
    requires StoreOk(rooms, bound) && k in rooms && i < |rooms[k].members.players|
    requires p.id == rooms[k].members.players[i].id
    ensures var m := rooms[k].members;
            StoreOk(rooms[k := rooms[k].(members := m.(players := m.players[i := p]))], bound)
  {
    var m := rooms[k].members;
    UpdateKeepsIds(m.players, i, p);
    var rooms' := rooms[k := rooms[k].(members := m.(players := m.players[i := p]))];
    assert forall j :: j in rooms' ==> PlayersOf(rooms', j) == PlayersOf(rooms, j);
  }

  // ------------------------------------------------------------- server

  /**
   * The server's invariant: the store invariant, a connection names a room
   * exactly when it names a player, and connection and handle ids are below
   * their counters, removals naming live connections.
   */
  ghost predicate LegacyOk(rooms: map<string, LegacyRoom>, bound: nat, conns: map<ConnId, Conn>, nextConn: nat,
                           timers: map<TimerId, Pending>, nextTimer: nat) {
    && StoreOk(rooms, bound)
    && (forall c :: c in conns ==> c < nextConn && (conns[c].currentRoom.Some? <==> conns[c].currentPlayer.Some?))
    && (forall t :: t in timers ==> t < nextTimer)
    && (forall t :: t in timers && timers[t].RemovePlayerLater? ==> timers[t].conn in conns)
  }

  /** Rejoining a record and renaming a connection's room keeps the invariant. */
  lemma ReconnectKeepsOk(rooms: map<string, LegacyRoom>, bound: nat, conns: map<ConnId, Conn>, nextConn: nat,
                         timers: map<TimerId, Pending>, nextTimer: nat, c: ConnId, k: string, i: nat, p: Player, conn': Conn)
    requires LegacyOk(rooms, bound, conns, nextConn, timers, nextTimer) && c in conns
    requires k in rooms && i < |rooms[k].members.players| && p.id == rooms[k].members.players[i].id
    requires conn'.currentRoom.Some? && conn'.currentPlayer.Some?
    ensures var m := rooms[k].members;
            LegacyOk(rooms[k := rooms[k].(members := m.(players := m.players[i := p]))], bound, conns[c := conn'], nextConn, timers, nextTimer)
  {
    RetouchKeepsStoreOk(rooms, bound, k, i, p);
  }

  /** Marking a record disconnected and scheduling its connection's removal keeps the invariant. */
  lemma DisconnectKeepsOk(rooms: map<string, LegacyRoom>, bound: nat, conns: map<ConnId, Conn>, nextConn: nat,
                          timers: map<TimerId, Pending>, nextTimer: nat, c: ConnId, k: string, i: nat, p: Player)
    requires LegacyOk(rooms, bound, conns, nextConn, timers, nextTimer) && c in conns
    requires k in rooms && i < |rooms[k].members.players| && p.id == rooms[k].members.players[i].id
    ensures var m := rooms[k].members;
            LegacyOk(rooms[k := rooms[k].(members := m.(players := m.players[i := p]))], bound, conns, nextConn,
                     timers[nextTimer := RemovePlayerLater(c, RemovalDelayMs)], nextTimer + 1)
  {
    RetouchKeepsStoreOk(rooms, bound, k, i, p);
  }

  class LegacyServer {
    var rooms: map<string, LegacyRoom>
    var nextPlayerId: nat
    var conns: map<ConnId, Conn>
    var nextConn: nat
    var timers: map<TimerId, Pending>
    var nextTimer: nat
    /** The module-level `roomTimers` and `playerTimers`: written, never read or cleared. */
    var roomTimers: map<string, TimerId>
    var playerTimers: map<PlayerId, TimerId>
    var log: seq<Emit>

    ghost predicate Valid()
      reads this
    {
      LegacyOk(rooms, nextPlayerId, conns, nextConn, timers, nextTimer)
    }

    constructor ()
      ensures Valid()
      ensures rooms == map[] && conns == map[] && timers == map[] && log == [] && nextPlayerId == 1
    {
      rooms := map[];
      nextPlayerId := 1;
      conns := map[];
      nextConn := 0;
      timers := map[];
      nextTimer := 0;
      roomTimers := map[];
      playerTimers := map[];
      log := [];
    }

    method Connect() returns (c: ConnId)
      requires Valid()
      modifies this
      ensures Valid()
      ensures c !in old(conns) && conns == old(conns)[c := Conn(None, None)]
      ensures rooms == old(rooms) && timers == old(timers) && log == old(log)
    {
      c := nextConn;
      conns := conns[c := Conn(None, None)];
      nextConn := nextConn + 1;
    }

    /**
     * `POST /api/rooms` with a pseudo: the room and its creator, who is
     * host and `hostPlayerId`. A code already in use makes the create fail.
     */
    method CreateRoom(picks: seq<nat>, pseudo: string, now: int) returns (code: string, host: Option<PlayerId>)
      requires Valid() && RoomCodes.ValidPicks(picks)
      modifies this
      ensures Valid()
      ensures RoomCodes.IsRoomCode(code)
      ensures forall i :: 0 <= i < |code| ==> code[i] == RoomCodes.Alphabet[picks[i]]
      ensures host.Some? <==> code !in old(rooms)
      ensures host.Some? ==>
                && host.value == old(nextPlayerId)
                && rooms == old(rooms)[code := LegacyRoom(code, Members(host, [Player(host.value, pseudo, true, true, DefaultScene, now)]))]
      ensures host.None? ==> rooms == old(rooms)
      ensures conns == old(conns) && timers == old(timers) && log == old(log)
    {
      code := RoomCodes.GenerateRoomCode(picks);
      if code in rooms {
        host := None;
        return;
      }
      var id := nextPlayerId;
      host := Some(id);
      var r := LegacyRoom(code, Members(host, [Player(id, pseudo, true, true, DefaultScene, now)]));
      var rooms' := rooms[code := r];
      assert forall j :: j in rooms && j != code ==> PlayersOf(rooms', j) == PlayersOf(rooms, j);
      assert PlayersOf(rooms', code) == {id};
      rooms := rooms';
      nextPlayerId := nextPlayerId + 1;
    }

    /** `GET /api/rooms/:code`: whether a room has that code. */
    method RoomExists(code: string) returns (found: bool)
      ensures found <==> code in rooms
    {
      found := code in rooms;
    }

    /**
     * `room:join`: `room:not-found` or `room:full` (two players or more);
     * otherwise a new non-host record, the connection now names it, the
     * room gets the player list and the joiner the room.
     */
    method Join(c: ConnId, code: string, pseudo: string, now: int)
      requires Valid() && c in conns
      modifies this
      ensures Valid()
      ensures timers == old(timers) && roomTimers == old(roomTimers) && playerTimers == old(playerTimers)
      ensures code !in old(rooms) ==>
                rooms == old(rooms) && conns == old(conns) && log == old(log) + [Emit(ToSocket(c), Error(NotFound))]
      ensures code in old(rooms) && Admit(old(rooms)[code].members, pseudo, old(nextPlayerId), now).None? ==>
                rooms == old(rooms) && conns == old(conns) && log == old(log) + [Emit(ToSocket(c), Error(RoomFull))]
      ensures code in old(rooms) && Admit(old(rooms)[code].members, pseudo, old(nextPlayerId), now).Some? ==>
                var m' := Admit(old(rooms)[code].members, pseudo, old(nextPlayerId), now).value;
                var r' := old(rooms)[code].(members := m');
                var p := m'.players[|m'.players| - 1];
                && rooms == old(rooms)[code := r'] && nextPlayerId == old(nextPlayerId) + 1
                && conns == old(conns)[c := Conn(Some(code), Some(p.id))]
                && log == old(log) + [Emit(ToChannel(code), RoomUpdate(m'.players)), Emit(ToSocket(c), Joined(r', m'.players, p))]
    {
      if code !in rooms {
        log := log + [Emit(ToSocket(c), Error(NotFound))];
        return;
      }
      var admitted := Admit(rooms[code].members, pseudo, nextPlayerId, now);
      if admitted.None? {
        log := log + [Emit(ToSocket(c), Error(RoomFull))];
        return;
      }
      var m' := admitted.value;
      var p := m'.players[|m'.players| - 1];
      var r' := rooms[code].(members := m');
      AppendKeepsStoreOk(rooms, nextPlayerId, code, r', p);
      conns := conns[c := Conn(Some(code), Some(p.id))];
      rooms := rooms[code := r'];
      nextPlayerId := nextPlayerId + 1;
      log := log + [Emit(ToChannel(code), RoomUpdate(m'.players)), Emit(ToSocket(c), Joined(r', m'.players, p))];
    }

    /**
     * `room:reconnect`: `room:not-found` when the player or the room is
     * unknown; otherwise the connection names them, the record is marked
     * connected, the named room gets its player list and the connection a
     * confirmation. No pending timer is cancelled.
     */
    method Reconnect(c: ConnId, playerId: PlayerId, roomCode: string, now: int)
      requires Valid() && c in conns
      modifies this
      ensures Valid()
      ensures timers == old(timers) && roomTimers == old(roomTimers) && playerTimers == old(playerTimers)
      ensures nextPlayerId == old(nextPlayerId)
      ensures !PlayerExists(old(rooms), playerId) || roomCode !in old(rooms) ==>
                rooms == old(rooms) && conns == old(conns) && log == old(log) + [Emit(ToSocket(c), Error(NotFound))]
      ensures PlayerExists(old(rooms), playerId) && roomCode in old(rooms) ==>
                var k := Home(old(rooms), playerId);
                var m := old(rooms)[k].members;
                var i := FindById(m.players, playerId).value;
                var rooms' := old(rooms)[k := old(rooms)[k].(members := m.(players := m.players[i := m.players[i].(connected := true, lastSeenAt := now)]))];
                && rooms == rooms'
                && conns == old(conns)[c := Conn(Some(roomCode), Some(playerId))]
                && log == old(log) + [Emit(ToChannel(roomCode), RoomUpdate(rooms'[roomCode].members.players)), Emit(ToSocket(c), Reconnected)]
    {
      if !PlayerExists(rooms, playerId) {
        log := log + [Emit(ToSocket(c), Error(NotFound))];
        return;
      }
      var k :| k in rooms && playerId in PlayersOf(rooms, k);
      HomeIsUnique(rooms, nextPlayerId, playerId, k);
      if roomCode !in rooms {
        log := log + [Emit(ToSocket(c), Error(NotFound))];
        return;
      }
      var m := rooms[k].members;
      var i := FindById(m.players, playerId).value;
      var p := m.players[i].(connected := true, lastSeenAt := now);
      ReconnectKeepsOk(rooms, nextPlayerId, conns, nextConn, timers, nextTimer, c, k, i, p, Conn(Some(roomCode), Some(playerId)));
      rooms, conns := rooms[k := rooms[k].(members := m.(players := m.players[i := p]))], conns[c := Conn(Some(roomCode), Some(playerId))];
      log := log + [Emit(ToChannel(roomCode), RoomUpdate(rooms[roomCode].members.players)), Emit(ToSocket(c), Reconnected)];
    }

    /** The state `removePlayer(playerId, roomCode)` leaves behind, given the timers it started from:
      * nothing changes for an id no room holds; otherwise the record leaves its home room (the host
      * role passing on in the room under `roomCode`), the promotion emits and the room update are
      * logged, and a room left empty gets its 60 s deletion timer. */
    twostate predicate PlayerRemoved(playerId: PlayerId, roomCode: string, timers0: map<TimerId, Pending>, nextTimer0: nat)
      reads this
    {
      && conns == old(conns) && nextPlayerId == old(nextPlayerId) && playerTimers == old(playerTimers)
      && if !PlayerExists(old(rooms), playerId) then
           && rooms == old(rooms) && log == old(log)
           && timers == timers0 && nextTimer == nextTimer0 && roomTimers == old(roomTimers)
         else
           var k := Home(old(rooms), playerId);
           var leaving := Record(old(rooms), k, playerId);
           var rooms' := Removed(old(rooms), k, roomCode, leaving);
           && rooms == rooms'
           && log == old(log) + PromotionEmits(old(rooms), roomCode, leaving)
                              + [Emit(ToChannel(roomCode), RoomUpdate(if roomCode in rooms' then rooms'[roomCode].members.players else []))]
           && if roomCode in rooms' && |rooms'[roomCode].members.players| == 0 then
                && timers == timers0[nextTimer0 := DeleteRoomLater(roomCode, DeletionDelayMs)]
                && nextTimer == nextTimer0 + 1
                && roomTimers == old(roomTimers)[roomCode := nextTimer0]
              else
                timers == timers0 && nextTimer == nextTimer0 && roomTimers == old(roomTimers)
    }

    /**
     * `removePlayer(playerId, roomCode)`: nothing when the record is gone;
     * otherwise the transfer in the room the code names, the deletion, the
     * code's room told its players (`[]` when it is gone), and its deletion
     * scheduled in 60 s when it is left empty.
     */
    method RemovePlayer(playerId: PlayerId, roomCode: string)
      requires Valid()
      modifies this
      ensures Valid()
      ensures PlayerRemoved(playerId, roomCode, old(timers), old(nextTimer))
    {
      if !PlayerExists(rooms, playerId) {
        return;
      }
      var k :| k in rooms && playerId in PlayersOf(rooms, k);
      HomeIsUnique(rooms, nextPlayerId, playerId, k);
      var leaving := Record(rooms, k, playerId);
      RemoveRecord(k, roomCode, leaving);
      if roomCode in rooms && |rooms[roomCode].members.players| == 0 {
        ScheduleDeletion(roomCode);
      }
    }

    /** The transfer, the deletion and the update sent to the code's room. */
    method RemoveRecord(home: string, roomCode: string, leaving: Player)
      requires Valid() && home in rooms
      modifies this
      ensures Valid()
      ensures rooms == Removed(old(rooms), home, roomCode, leaving)
      ensures log == old(log) + PromotionEmits(old(rooms), roomCode, leaving)
                              + [Emit(ToChannel(roomCode), RoomUpdate(if roomCode in rooms then rooms[roomCode].members.players else []))]
      ensures conns == old(conns) && nextPlayerId == old(nextPlayerId)
      ensures timers == old(timers) && nextTimer == old(nextTimer)
      ensures roomTimers == old(roomTimers) && playerTimers == old(playerTimers)
    {
      RemovedKeepsStoreOk(rooms, nextPlayerId, home, roomCode, leaving);
      log := log + PromotionEmits(rooms, roomCode, leaving);
      rooms := Removed(rooms, home, roomCode, leaving);
      var remaining := if roomCode in rooms then rooms[roomCode].members.players else [];
      log := log + [Emit(ToChannel(roomCode), RoomUpdate(remaining))];
    }

    /** The 60 s deletion of an emptied room, recorded in `roomTimers`. */
    method ScheduleDeletion(roomCode: string)
      requires Valid()
      modifies this
      ensures Valid()
      ensures timers == old(timers)[old(nextTimer) := DeleteRoomLater(roomCode, DeletionDelayMs)]
      ensures nextTimer == old(nextTimer) + 1
      ensures roomTimers == old(roomTimers)[roomCode := old(nextTimer)]
      ensures rooms == old(rooms) && log == old(log) && conns == old(conns)
      ensures nextPlayerId == old(nextPlayerId) && playerTimers == old(playerTimers)
    {
      var t := nextTimer;
      timers := timers[t := DeleteRoomLater(roomCode, DeletionDelayMs)];
      nextTimer := nextTimer + 1;
      roomTimers := roomTimers[roomCode := t];
    }

    /** `room:leave`: remove the connection's player now. */
    method Leave(c: ConnId)
      requires Valid() && c in conns
      modifies this
      ensures Valid()
      ensures conns == old(conns) && nextPlayerId == old(nextPlayerId)
      ensures old(timers).Keys <= timers.Keys
      ensures old(conns[c]).currentPlayer.None? ==> rooms == old(rooms) && timers == old(timers) && log == old(log)
      ensures old(conns[c]).currentPlayer.Some? ==>
                PlayerRemoved(old(conns[c]).currentPlayer.value, old(conns[c]).currentRoom.value, old(timers), old(nextTimer))
    {
      var s := conns[c];
      if s.currentPlayer.None? {
        return;
      }
      RemovePlayer(s.currentPlayer.value, s.currentRoom.value);
    }

    /**
     * `disconnect`: the record is marked disconnected (no broadcast) and its
     * removal scheduled in 10 s; without a record the update throws.
     */
    method Disconnect(c: ConnId)
      requires Valid() && c in conns
      modifies this
      ensures Valid()
      ensures conns == old(conns) && log == old(log) && nextPlayerId == old(nextPlayerId) && roomTimers == old(roomTimers)
      ensures var s := old(conns[c]);
              s.currentPlayer.None? || !PlayerExists(old(rooms), s.currentPlayer.value) ==>
                rooms == old(rooms) && timers == old(timers) && playerTimers == old(playerTimers)
      ensures var s := old(conns[c]);
              s.currentPlayer.Some? && PlayerExists(old(rooms), s.currentPlayer.value) ==>
                var id := s.currentPlayer.value;
                var k := Home(old(rooms), id);
                var m := old(rooms)[k].members;
                var i := FindById(m.players, id).value;
                && rooms == old(rooms)[k := old(rooms)[k].(members := m.(players := m.players[i := m.players[i].(connected := false)]))]
                && timers == old(timers)[old(nextTimer) := RemovePlayerLater(c, RemovalDelayMs)]
                && nextTimer == old(nextTimer) + 1
                && playerTimers == old(playerTimers)[id := old(nextTimer)]
    {
      var s := conns[c];
      if s.currentPlayer.None? {
        return;
      }
      var id := s.currentPlayer.value;
      if !PlayerExists(rooms, id) {
        return;
      }
      var k :| k in rooms && id in PlayersOf(rooms, k);
      HomeIsUnique(rooms, nextPlayerId, id, k);
      var m := rooms[k].members;
      var i := FindById(m.players, id).value;
      var p := m.players[i].(connected := false);
      DisconnectKeepsOk(rooms, nextPlayerId, conns, nextConn, timers, nextTimer, c, k, i, p);
      var t := nextTimer;
      rooms := rooms[k := rooms[k].(members := m.(players := m.players[i := p]))];
      timers, nextTimer, playerTimers := timers[t := RemovePlayerLater(c, RemovalDelayMs)], t + 1, playerTimers[id := t];
    }

    /** The 10 s removal timer runs `removePlayer` with the connection's variables at that moment. */
    method FireRemoval(t: TimerId)
      requires Valid() && t in timers && timers[t].RemovePlayerLater?
      modifies this
      ensures Valid()
      ensures conns == old(conns) && nextPlayerId == old(nextPlayerId)
      ensures old(timers).Keys - {t} <= timers.Keys && t !in timers
      ensures old(conns)[old(timers)[t].conn].currentPlayer.None? ==>
                rooms == old(rooms) && timers == old(timers) - {t} && log == old(log)
      ensures var s := old(conns)[old(timers)[t].conn];
              s.currentPlayer.Some? ==>
                PlayerRemoved(s.currentPlayer.value, s.currentRoom.value, old(timers) - {t}, old(nextTimer))
    {
      var c := timers[t].conn;
      timers := timers - {t};
      var s := conns[c];
      if s.currentPlayer.None? {
        return;  // the lookup by a null id throws
      }
      RemovePlayer(s.currentPlayer.value, s.currentRoom.value);
    }

    /** The 60 s deletion removes the room (and its players) whatever joined since; a missing room makes it throw. */
    method FireDeletion(t: TimerId)
      requires Valid() && t in timers && timers[t].DeleteRoomLater?
      modifies this
      ensures Valid()
      ensures timers == old(timers) - {t}
      ensures rooms == old(rooms) - {old(timers)[t].code}
      ensures conns == old(conns) && log == old(log) && roomTimers == old(roomTimers) && playerTimers == old(playerTimers)
    {
      var code := timers[t].code;
      timers := timers - {t};
      var rooms' := rooms - {code};
      assert forall j :: j in rooms' ==> PlayersOf(rooms', j) == PlayersOf(rooms, j);
      rooms := rooms';
    }
  }
}
