/**
 * The earlier room server of server/RoomManager.js: the same join, leave,
 * disconnect and removal flow as server/room.js, with `room:*` error names,
 * no chat and no game, the timer handles kept in closure maps of each
 * connection, and a teardown that deletes the enigma rows by their own id.
 */
module RoomManagerSocket {
  import opened Wrappers
  import opened Membership
  import opened Protocol
  import RoomCodes

  const NotFound: string := "room:not-found"
  const RoomFull: string := "room:full"

  /**
   * The server's invariant over its state: the store and the connections
   * agree, ids are below their counters, and the only pending handles are
   * removals and teardowns.
   */
  ghost predicate ManagerOk(rooms: map<string, Room>, bound: nat, conns: map<ConnId, SocketState>, nextConn: nat,
                            timers: map<TimerId, Pending>, nextTimer: nat) {
    && StoreOk(rooms, bound)
    && SocketsOk(conns, rooms, bound)
    && (forall c :: c in conns ==> c < nextConn)
    && TimersOk(timers, nextTimer, conns)
    && (forall t :: t in timers ==> timers[t].RemovePlayerLater? || timers[t].TeardownLater?)
  }

  /** A successful join keeps the invariant. */
  lemma EnterKeepsOk(rooms: map<string, Room>, bound: nat, conns: map<ConnId, SocketState>, nextConn: nat,
                     timers: map<TimerId, Pending>, nextTimer: nat, c: ConnId, k: string, pseudo: string, now: int)
    requires ManagerOk(rooms, bound, conns, nextConn, timers, nextTimer) && c in conns && k in rooms
    requires !Membership.Join(rooms[k].members, pseudo, bound, now).Full?
    ensures var out := Membership.Join(rooms[k].members, pseudo, bound, now);
            var rooms' := rooms[k := rooms[k].(members := out.members)];
            var bound' := if out.Created? then bound + 1 else bound;
            ManagerOk(rooms', bound', conns[c := JoinedSocket(conns[c], k, out.player.id)], nextConn,
                     timers - CancelledBy(conns[c], k, out.player.id), nextTimer)
  {
    var out := Membership.Join(rooms[k].members, pseudo, bound, now);
    var s' := JoinedSocket(conns[c], k, out.player.id);
    JoinKeepsOk(conns, rooms, bound, k, pseudo, now, c, s');
    CancelKeepsTimersOk(timers, nextTimer, conns, conns[c := s'], CancelledBy(conns[c], k, out.player.id));
  }

  /** Marking a record disconnected and scheduling its removal keeps the invariant. */
  lemma MarkKeepsOk(rooms: map<string, Room>, bound: nat, conns: map<ConnId, SocketState>, nextConn: nat,
                    timers: map<TimerId, Pending>, nextTimer: nat, c: ConnId, k: string, i: nat, p: Player, s': SocketState)
    requires ManagerOk(rooms, bound, conns, nextConn, timers, nextTimer) && c in conns && k in rooms
    requires i < |rooms[k].members.players|
    requires var q := rooms[k].members.players[i]; p.id == q.id && p.pseudo == q.pseudo && p.isHost == q.isHost
    requires s'.room == conns[c].room && s'.player == conns[c].player
    ensures var m := rooms[k].members;
            var rooms' := rooms[k := rooms[k].(members := m.(players := m.players[i := p]))];
            ManagerOk(rooms', bound, conns[c := s'], nextConn, timers[nextTimer := RemovePlayerLater(c, GracePeriodMs)], nextTimer + 1)
  {
    var m := rooms[k].members;
    var rooms' := rooms[k := rooms[k].(members := m.(players := m.players[i := p]))];
    RetouchKeepsOk(conns, rooms, bound, k, i, p);
    RetimeKeepsSocketsOk(conns, rooms', bound, c, s');
    ScheduleKeepsTimersOk(timers, nextTimer, conns, conns[c := s'], RemovePlayerLater(c, GracePeriodMs));
  }

  class Manager {
    var rooms: map<string, Room>
    var nextPlayerId: nat
    /** Per connection: `currentRoom`, `currentPlayer`, `playerTimers`, `roomTimers`. */
    var conns: map<ConnId, SocketState>
    var nextConn: nat
    var timers: map<TimerId, Pending>
    var nextTimer: nat
    var log: seq<Emit>
    const initialTimer: int

    ghost predicate Valid()
      reads this
    {
      ManagerOk(rooms, nextPlayerId, conns, nextConn, timers, nextTimer)
    }

    constructor (initialTimer: int)
      ensures Valid()
      ensures this.initialTimer == initialTimer
      ensures rooms == map[] && conns == map[] && timers == map[] && log == [] && nextPlayerId == 1
    {
      this.initialTimer := initialTimer;
      rooms := map[];
      nextPlayerId := 1;
      conns := map[];
      nextConn := 0;
      timers := map[];
      nextTimer := 0;
      log := [];
    }

    /** `GET /api/rooms/:code`: whether a room has that code. */
    method RoomExists(code: string) returns (found: bool)
      ensures found <==> code in rooms
    {
      found := code in rooms;
    }

    method Connect() returns (c: ConnId)
      requires Valid()
      modifies this
      ensures Valid()
      ensures c !in old(conns) && conns == old(conns)[c := FreshSocket]
      ensures rooms == old(rooms) && timers == old(timers) && log == old(log) && nextPlayerId == old(nextPlayerId)
    {
      c := nextConn;
      conns := conns[c := FreshSocket];
      nextConn := nextConn + 1;
    }

    /** `POST /api/rooms`, as in server/room.js. */
    method CreateRoom(picks: seq<nat>) returns (code: string, created: bool)
      requires Valid() && RoomCodes.ValidPicks(picks)
      modifies this
      ensures Valid()
      ensures RoomCodes.IsRoomCode(code)
      ensures forall i :: 0 <= i < |code| ==> code[i] == RoomCodes.Alphabet[picks[i]]
      ensures created <==> code !in old(rooms)
      ensures rooms == if created then old(rooms)[code := NewRoom(code, initialTimer)] else old(rooms)
      ensures conns == old(conns) && timers == old(timers) && log == old(log) && nextPlayerId == old(nextPlayerId)
    {
      code := RoomCodes.GenerateRoomCode(picks);
      created := code !in rooms;
      if created {
        var r := NewRoom(code, initialTimer);
        AddRoomKeepsOk(conns, rooms, nextPlayerId, r);
        rooms := rooms[code := r];
      }
    }

    /**
     * `room:join`: `room:not-found` for an unknown code, `room:full` for a
     * new pseudo in a full room; otherwise the membership join, the
     * broadcast, and the clearing of this connection's handles.
     */
    method Join(c: ConnId, code: string, pseudo: string, now: int)
      requires Valid() && c in conns
      modifies this
      ensures Valid()
      ensures nextTimer == old(nextTimer) && nextConn == old(nextConn)
      ensures code !in old(rooms) ==>
                && rooms == old(rooms) && conns == old(conns) && timers == old(timers)
                && nextPlayerId == old(nextPlayerId)
                && log == old(log) + [Emit(ToSocket(c), Error(NotFound))]
      ensures code in old(rooms) && Membership.Join(old(rooms)[code].members, pseudo, old(nextPlayerId), now).Full? ==>
                && rooms == old(rooms) && conns == old(conns) && timers == old(timers)
                && nextPlayerId == old(nextPlayerId)
                && log == old(log) + [Emit(ToSocket(c), Error(RoomFull))]
      ensures code in old(rooms) && !Membership.Join(old(rooms)[code].members, pseudo, old(nextPlayerId), now).Full? ==>
                var out := Membership.Join(old(rooms)[code].members, pseudo, old(nextPlayerId), now);
                var room' := old(rooms)[code].(members := out.members);
                && rooms == old(rooms)[code := room']
                && nextPlayerId == (if out.Created? then old(nextPlayerId) + 1 else old(nextPlayerId))
                && conns == old(conns)[c := JoinedSocket(old(conns)[c], code, out.player.id)]
                && timers == old(timers) - CancelledBy(old(conns)[c], code, out.player.id)
                && log == old(log) + [Emit(ToChannel(code), if out.Rejoined? then Reconnected(out.player) else NewPlayer(out.player)),
                                      Emit(ToSocket(c), Joined(room', out.player))]
    {
      if code !in rooms {
        log := log + [Emit(ToSocket(c), Error(NotFound))];
        return;
      }
      var out := Membership.Join(rooms[code].members, pseudo, nextPlayerId, now);
      if out.Full? {
        log := log + [Emit(ToSocket(c), Error(RoomFull))];
        return;
      }
      Enter(c, code, pseudo, now);
    }

    /**
     * The part of `room:join` after both refusals: the membership join, the
     * broadcast, the connection's new variables and the clearing of this
     * connection's handles.
     */
    method Enter(c: ConnId, code: string, pseudo: string, now: int)
      requires Valid() && c in conns && code in rooms
      requires !Membership.Join(rooms[code].members, pseudo, nextPlayerId, now).Full?
      modifies this
      ensures Valid()
      ensures nextTimer == old(nextTimer) && nextConn == old(nextConn)
      ensures var out := Membership.Join(old(rooms)[code].members, pseudo, old(nextPlayerId), now);
              var room' := old(rooms)[code].(members := out.members);
              && rooms == old(rooms)[code := room']
              && nextPlayerId == (if out.Created? then old(nextPlayerId) + 1 else old(nextPlayerId))
              && conns == old(conns)[c := JoinedSocket(old(conns)[c], code, out.player.id)]
              && timers == old(timers) - CancelledBy(old(conns)[c], code, out.player.id)
              && log == old(log) + [Emit(ToChannel(code), if out.Rejoined? then Reconnected(out.player) else NewPlayer(out.player)),
                                    Emit(ToSocket(c), Joined(room', out.player))]
    {
      var out := Membership.Join(rooms[code].members, pseudo, nextPlayerId, now);
      var s := conns[c];
      var s' := JoinedSocket(s, code, out.player.id);
      EnterKeepsOk(rooms, nextPlayerId, conns, nextConn, timers, nextTimer, c, code, pseudo, now);
      var room' := rooms[code].(members := out.members);
      var next := if out.Created? then nextPlayerId + 1 else nextPlayerId;
      var notice := if out.Rejoined? then Reconnected(out.player) else NewPlayer(out.player);
      rooms, nextPlayerId, conns := rooms[code := room'], next, conns[c := s'];
      timers := timers - CancelledBy(s, code, out.player.id);
      log := log + [Emit(ToChannel(code), notice), Emit(ToSocket(c), Joined(room', out.player))];
    }

    /** What `removePlayer(currentPlayer, currentRoom)` leaves behind (as in server/room.js). */
    twostate predicate RemovalDone(c: ConnId, timers0: map<TimerId, Pending>, nextTimer0: nat)
      reads this
    {
      && c in old(conns)
      && nextPlayerId == old(nextPlayerId) && nextConn == old(nextConn)
      && var s := old(conns)[c];
         if !HasPlayer(s, old(rooms)) then
           && rooms == old(rooms) && conns == old(conns) && log == old(log)
           && timers == timers0 && nextTimer == nextTimer0
         else
           var k := s.room.value;
           var m := old(rooms)[k].members;
           var leaving := Record(old(rooms), k, s.player.value);
           var m' := Remove(m, leaving);
           && rooms == old(rooms)[k := old(rooms)[k].(members := m')]
           && log == old(log) + RemovalEmits(m, leaving, k)
           && if |m'.players| == 0 then
                && timers == timers0[nextTimer0 := TeardownLater(k, GracePeriodMs)] && nextTimer == nextTimer0 + 1
                && conns == old(conns)[c := s.(roomDeletionTimers := s.roomDeletionTimers[k := nextTimer0])]
              else
                timers == timers0 && nextTimer == nextTimer0 && conns == old(conns)
    }

    method RemovePlayer(c: ConnId)
      requires Valid() && c in conns
      modifies this
      ensures Valid()
      ensures RemovalDone(c, old(timers), old(nextTimer))
    {
      var s := conns[c];
      if s.player.None? || s.room.None? {
        return;
      }
      LocateInOwnRoom(s, rooms, nextPlayerId);
      var k := s.room.value;
      if k !in rooms {
        return;
      }
      var found := FindById(rooms[k].members.players, s.player.value);
      if found.None? {
        return;
      }
      RemoveRecord(c, k, rooms[k].members.players[found.value]);
    }

    method RemoveRecord(c: ConnId, k: string, leaving: Player)
      requires Valid() && c in conns && k in rooms && leaving in rooms[k].members.players
      modifies this
      ensures Valid()
      ensures nextPlayerId == old(nextPlayerId) && nextConn == old(nextConn)
      ensures var m := old(rooms)[k].members;
              var m' := Remove(m, leaving);
              var s := old(conns)[c];
              && rooms == old(rooms)[k := old(rooms)[k].(members := m')]
              && log == old(log) + RemovalEmits(m, leaving, k)
              && if |m'.players| == 0 then
                   && timers == old(timers)[old(nextTimer) := TeardownLater(k, GracePeriodMs)] && nextTimer == old(nextTimer) + 1
                   && conns == old(conns)[c := s.(roomDeletionTimers := s.roomDeletionTimers[k := old(nextTimer)])]
                 else
                   timers == old(timers) && nextTimer == old(nextTimer) && conns == old(conns)
    {
      var m := rooms[k].members;
      RemoveKeepsOk(conns, rooms, nextPlayerId, k, leaving);
      var m' := Remove(m, leaving);
      rooms := rooms[k := rooms[k].(members := m')];
      log := log + RemovalEmits(m, leaving, k);
      if |m'.players| == 0 {
        var s := conns[c];
        var t := nextTimer;
        RetimeKeepsSocketsOk(conns, rooms, nextPlayerId, c, s.(roomDeletionTimers := s.roomDeletionTimers[k := t]));
        timers := timers[t := TeardownLater(k, GracePeriodMs)];
        nextTimer := nextTimer + 1;
        conns := conns[c := s.(roomDeletionTimers := s.roomDeletionTimers[k := t])];
      }
    }

    method Leave(c: ConnId)
      requires Valid() && c in conns
      modifies this
      ensures Valid()
      ensures RemovalDone(c, old(timers), old(nextTimer))
    {
      RemovePlayer(c);
    }

    /** `disconnect`: mark the record disconnected, tell the room, schedule the removal in 60 s. */
    method Disconnect(c: ConnId)
      requires Valid() && c in conns
      modifies this
      ensures Valid()
      ensures nextPlayerId == old(nextPlayerId) && nextConn == old(nextConn)
      ensures var s := old(conns[c]);
              !HasPlayer(s, old(rooms)) ==>
                rooms == old(rooms) && conns == old(conns) && timers == old(timers) && log == old(log)
      ensures var s := old(conns[c]);
              HasPlayer(s, old(rooms)) ==>
                var k := s.room.value;
                var m := old(rooms)[k].members;
                var i := FindById(m.players, s.player.value).value;
                var p := m.players[i].(connected := false);
                var t := old(nextTimer);
                && rooms == old(rooms)[k := old(rooms)[k].(members := m.(players := m.players[i := p]))]
                && log == old(log) + [Emit(ToChannel(k), PlayerDisconnected(p))]
                && timers == old(timers)[t := RemovePlayerLater(c, GracePeriodMs)] && nextTimer == t + 1
                && conns == old(conns)[c := s.(playerDeletionTimers := s.playerDeletionTimers[s.player.value := t])]
    {
      var s := conns[c];
      if s.player.None? || s.room.None? {
        return;
      }
      LocateInOwnRoom(s, rooms, nextPlayerId);
      var k := s.room.value;
      if k !in rooms {
        return;
      }
      if FindById(rooms[k].members.players, s.player.value).None? {
        return;
      }
      MarkDisconnected(c);
    }

    /** The part of `disconnect` that runs once the connection's player record is found. */
    method MarkDisconnected(c: ConnId)
      requires Valid() && c in conns && HasPlayer(conns[c], rooms)
      modifies this
      ensures Valid()
      ensures nextPlayerId == old(nextPlayerId) && nextConn == old(nextConn)
      ensures var s := old(conns[c]);
              var k := s.room.value;
              var m := old(rooms)[k].members;
              var i := FindById(m.players, s.player.value).value;
              var p := m.players[i].(connected := false);
              var t := old(nextTimer);
              && rooms == old(rooms)[k := old(rooms)[k].(members := m.(players := m.players[i := p]))]
              && log == old(log) + [Emit(ToChannel(k), PlayerDisconnected(p))]
              && timers == old(timers)[t := RemovePlayerLater(c, GracePeriodMs)] && nextTimer == t + 1
              && conns == old(conns)[c := s.(playerDeletionTimers := s.playerDeletionTimers[s.player.value := t])]
    {
      var s := conns[c];
      var k := s.room.value;
      var m := rooms[k].members;
      var i := FindById(m.players, s.player.value).value;
      var p := m.players[i].(connected := false);
      var rooms' := rooms[k := rooms[k].(members := m.(players := m.players[i := p]))];
      var t := nextTimer;
      var s' := s.(playerDeletionTimers := s.playerDeletionTimers[s.player.value := t]);
      MarkKeepsOk(rooms, nextPlayerId, conns, nextConn, timers, nextTimer, c, k, i, p, s');
      rooms, conns := rooms', conns[c := s'];
      timers, nextTimer := timers[t := RemovePlayerLater(c, GracePeriodMs)], t + 1;
      log := log + [Emit(ToChannel(k), PlayerDisconnected(p))];
    }

    method FireRemoval(t: TimerId)
      requires Valid() && t in timers && timers[t].RemovePlayerLater?
      modifies this
      ensures Valid()
      ensures RemovalDone(old(timers)[t].conn, old(timers) - {t}, old(nextTimer))
    {
      var c := timers[t].conn;
      timers := timers - {t};
      RemovePlayer(c);
    }

    /**
     * The 60 s teardown deletes each enigma row `where: { id: room.id }`,
     * that is by the row's own id rather than its `roomId`. Whether the
     * store holds rows under those ids is `rowKeysMatchRoomId`: when it does
     * the room goes; when it does not, the first delete throws and nothing
     * is deleted. A room already gone also makes it throw.
     */
    method FireTeardown(t: TimerId, rowKeysMatchRoomId: bool)
      requires Valid() && t in timers && timers[t].TeardownLater?
      modifies this
      ensures Valid()
      ensures timers == old(timers) - {t}
      ensures rooms == if rowKeysMatchRoomId then old(rooms) - {old(timers)[t].code} else old(rooms)
      ensures conns == old(conns) && log == old(log) && nextPlayerId == old(nextPlayerId) && nextTimer == old(nextTimer)
    {
      var code := timers[t].code;
      timers := timers - {t};
      if code !in rooms || !rowKeysMatchRoomId {
        return;
      }
      DeleteRoomKeepsOk(conns, rooms, nextPlayerId, code);
      rooms := rooms - {code};
    }
  }
}
