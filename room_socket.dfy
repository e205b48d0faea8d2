/**
 * The room server of server/room.js with the game coordinator of
 * server/game.js and the four enigma handlers registered on each
 * connection. The database is the `rooms` map (one record per room code,
 * holding its players and enigma rows), broadcasts and replies are
 * appended to `log`, and every `setTimeout` is a `Pending` entry of
 * `timers` that runs when one of the `Fire` methods is called.
 */
module RoomSocket {
  import opened Wrappers
  import opened Membership
  import opened Protocol
  import RoomCodes
  import JsArrays
  import ChatRules
  import GameRules
  import Enigma1Puzzle
  import Enigma2Puzzle
  import Enigma3Puzzle
  import Enigma4Puzzle

  const NotFound: string := "error:not-found"
  const RoomFull: string := "errors:full"
  const NotAuthorized: string := "error:not-authorized"
  const InvalidSceneChange: string := "error:invalid-scene-change"
  const NoFound: string := "error:no-found"

  function AllGatingCompleted(r: Room): bool {
    r.enigma1.completed && r.enigma2.completed && r.enigma3.completed
  }

  /**
   * The server's invariant over its state: the store and the connections
   * agree, and connection and handle ids are below their counters.
   */
  ghost predicate ServerOk(rooms: map<string, Room>, bound: nat, conns: map<ConnId, SocketState>, nextConn: nat,
                           timers: map<TimerId, Pending>, nextTimer: nat) {
    && StoreOk(rooms, bound)
    && SocketsOk(conns, rooms, bound)
    && (forall c :: c in conns ==> c < nextConn)
    && TimersOk(timers, nextTimer, conns)
  }

  /** A successful join keeps the invariant. */
  lemma EnterKeepsOk(rooms: map<string, Room>, bound: nat, conns: map<ConnId, SocketState>, nextConn: nat,
                     timers: map<TimerId, Pending>, nextTimer: nat, c: ConnId, k: string, pseudo: string, now: int)
    requires ServerOk(rooms, bound, conns, nextConn, timers, nextTimer) && c in conns && k in rooms
    requires !Membership.Join(rooms[k].members, pseudo, bound, now).Full?
    ensures var out := Membership.Join(rooms[k].members, pseudo, bound, now);
            var rooms' := rooms[k := rooms[k].(members := out.members)];
            var bound' := if out.Created? then bound + 1 else bound;
            ServerOk(rooms', bound', conns[c := JoinedSocket(conns[c], k, out.player.id)], nextConn,
                     timers - CancelledBy(conns[c], k, out.player.id), nextTimer)
  {
    var out := Membership.Join(rooms[k].members, pseudo, bound, now);
    var s' := JoinedSocket(conns[c], k, out.player.id);
    JoinKeepsOk(conns, rooms, bound, k, pseudo, now, c, s');
    CancelKeepsTimersOk(timers, nextTimer, conns, conns[c := s'], CancelledBy(conns[c], k, out.player.id));
  }

  /** Marking a record disconnected and scheduling its removal keeps the invariant. */
  lemma MarkKeepsOk(rooms: map<string, Room>, bound: nat, conns: map<ConnId, SocketState>, nextConn: nat,
                    timers: map<TimerId, Pending>, nextTimer: nat, c: ConnId, k: string, i: nat, p: Player, s': SocketState)
    requires ServerOk(rooms, bound, conns, nextConn, timers, nextTimer) && c in conns && k in rooms
    requires i < |rooms[k].members.players|
    requires var q := rooms[k].members.players[i]; p.id == q.id && p.pseudo == q.pseudo && p.isHost == q.isHost
    requires s'.room == conns[c].room && s'.player == conns[c].player
    ensures var m := rooms[k].members;
            var rooms' := rooms[k := rooms[k].(members := m.(players := m.players[i := p]))];
            ServerOk(rooms', bound, conns[c := s'], nextConn, timers[nextTimer := RemovePlayerLater(c, GracePeriodMs)], nextTimer + 1)
  {
    var m := rooms[k].members;
    var rooms' := rooms[k := rooms[k].(members := m.(players := m.players[i := p]))];
    RetouchKeepsOk(conns, rooms, bound, k, i, p);
    RetimeKeepsSocketsOk(conns, rooms', bound, c, s');
    ScheduleKeepsTimersOk(timers, nextTimer, conns, conns[c := s'], RemovePlayerLater(c, GracePeriodMs));
  }

  /** A tick that rewrites its room's clock, drops its own handle and maybe schedules the next keeps the invariant. */
  lemma TickKeepsOk(rooms: map<string, Room>, bound: nat, conns: map<ConnId, SocketState>, nextConn: nat,
                    timers: map<TimerId, Pending>, nextTimer: nat, t: TimerId, k: string, r': Room, reschedule: bool)
    requires ServerOk(rooms, bound, conns, nextConn, timers, nextTimer) && t in timers && timers[t].TickLater?
    requires k in rooms && r'.code == k && r'.members == rooms[k].members
    ensures var timers' := if reschedule then (timers - {t})[nextTimer := TickLater(timers[t].conn, TickMs)] else timers - {t};
            ServerOk(rooms[k := r'], bound, conns, nextConn, timers', if reschedule then nextTimer + 1 else nextTimer)
  {
    SamePlayersKeepsOk(conns, rooms, bound, k, r');
    CancelKeepsTimersOk(timers, nextTimer, conns, conns, {t});
    if reschedule {
      ScheduleKeepsTimersOk(timers - {t}, nextTimer, conns, conns, TickLater(timers[t].conn, TickMs));
    }
  }

  /** Rewriting a room without touching its players and scheduling one handle keeps the invariant. */
  lemma PutAndScheduleKeepsOk(rooms: map<string, Room>, bound: nat, conns: map<ConnId, SocketState>, nextConn: nat,
                              timers: map<TimerId, Pending>, nextTimer: nat, k: string, r': Room, p: Pending)
    requires ServerOk(rooms, bound, conns, nextConn, timers, nextTimer)
    requires k in rooms && r'.code == k && r'.members == rooms[k].members
    requires !p.TeardownLater? ==> p.conn in conns
    ensures ServerOk(rooms[k := r'], bound, conns, nextConn, timers[nextTimer := p], nextTimer + 1)
  {
    SamePlayersKeepsOk(conns, rooms, bound, k, r');
    ScheduleKeepsTimersOk(timers, nextTimer, conns, conns, p);
  }

  class Server {
    var rooms: map<string, Room>
    var nextPlayerId: nat
    var conns: map<ConnId, SocketState>
    var nextConn: nat
    var timers: map<TimerId, Pending>
    var nextTimer: nat
    var messages: seq<ChatMessage>
    var log: seq<Emit>
    /** The store's default for a new room's `timer`. */
    const initialTimer: int

    ghost predicate Valid()
      reads this
    {
      ServerOk(rooms, nextPlayerId, conns, nextConn, timers, nextTimer)
    }

    constructor (initialTimer: int)
      ensures Valid()
      ensures this.initialTimer == initialTimer
      ensures rooms == map[] && conns == map[] && timers == map[] && messages == [] && log == [] && nextPlayerId == 1
    {
      this.initialTimer := initialTimer;
      rooms := map[];
      nextPlayerId := 1;
      conns := map[];
      nextConn := 0;
      timers := map[];
      nextTimer := 0;
      messages := [];
      log := [];
    }

    /** `GET /api/rooms/:code`: whether a room has that code. */
    method RoomExists(code: string) returns (found: bool)
      ensures found <==> code in rooms
    {
      found := code in rooms;
    }

    /**
     * `GET /api/rooms/:code/messages`: a 404 for an unknown code; otherwise
     * the stored messages of that room and no others.
     */
    method History(code: string) returns (r: Option<seq<ChatMessage>>)
      ensures r.None? <==> code !in rooms
      ensures r.Some? ==> forall i :: 0 <= i < |r.value| ==> r.value[i] in messages && r.value[i].room == code
      ensures r.Some? ==> forall m :: m in messages && m.room == code ==> m in r.value
    {
      if code !in rooms {
        return None;
      }
      var found := JsArrays.Filter(messages, (m: ChatMessage) => m.room == code);
      forall m | m in messages && m.room == code ensures m in found {
        var j :| 0 <= j < |messages| && messages[j] == m;
      }
      r := Some(found);
    }

    /** `io.on("connection")`: a new connection with an empty state and empty handle maps. */
    method Connect() returns (c: ConnId)
      requires Valid()
      modifies this
      ensures Valid()
      ensures c !in old(conns) && conns == old(conns)[c := FreshSocket]
      ensures rooms == old(rooms) && timers == old(timers) && log == old(log) && messages == old(messages)
      ensures nextPlayerId == old(nextPlayerId)
    {
      c := nextConn;
      conns := conns[c := FreshSocket];
      nextConn := nextConn + 1;
    }

    /**
     * `POST /api/rooms`: a generated code and a new room under it with its
     * four empty enigma rows. A code already in use makes the store's
     * create fail and nothing is written.
     */
    method CreateRoom(picks: seq<nat>) returns (code: string, created: bool)
      requires Valid() && RoomCodes.ValidPicks(picks)
      modifies this
      ensures Valid()
      ensures RoomCodes.IsRoomCode(code)
      ensures forall i :: 0 <= i < |code| ==> code[i] == RoomCodes.Alphabet[picks[i]]
      ensures created <==> code !in old(rooms)
      ensures rooms == if created then old(rooms)[code := NewRoom(code, initialTimer)] else old(rooms)
      ensures conns == old(conns) && timers == old(timers) && log == old(log) && messages == old(messages)
      ensures nextPlayerId == old(nextPlayerId)
    {
      code := RoomCodes.GenerateRoomCode(picks);
      created := code !in rooms;
      if created {
        var r := NewRoom(code, initialTimer);
        AddRoomKeepsOk(conns, rooms, nextPlayerId, r);
        rooms := rooms[code := r];
      }
    }

    /**
     * `chat:send-message`: a text that is blank after trimming or longer
     * than 500 characters is dropped; otherwise the message is stored with
     * the connection's player as author and broadcast to the room.
     */
    method SendChat(c: ConnId, text: string, now: int)
      requires Valid() && c in conns
      modifies this
      ensures Valid()
      ensures rooms == old(rooms) && conns == old(conns) && timers == old(timers)
      ensures nextPlayerId == old(nextPlayerId) && nextTimer == old(nextTimer)
      ensures var s := old(conns[c]);
              if ChatRules.Accepts(text) && HasPlayer(s, old(rooms)) then
                var author := Record(old(rooms), s.room.value, s.player.value);
                var id := |old(messages)|;
                && messages == old(messages) + [ChatMessage(id, s.room.value, author.id, text, now)]
                && log == old(log) + [Emit(ToChannel(s.room.value), ChatNew(id, text, now, author.id, author.pseudo))]
              else messages == old(messages) && log == old(log)
    {
      if !ChatRules.Accepts(text) {
        return;
      }
      var s := conns[c];
      // without a room, or without an author record, the store lookups fail
      if s.player.None? || s.room.None? || s.room.value !in rooms {
        return;
      }
      var k := s.room.value;
      LocateInOwnRoom(s, rooms, nextPlayerId);
      var found := FindById(rooms[k].members.players, s.player.value);
      if found.None? {
        return;
      }
      var author := rooms[k].members.players[found.value];
      // the text is at most 500 characters, so `text.slice(0, 500)` is the text
      var id := |messages|;
      messages := messages + [ChatMessage(id, k, author.id, text, now)];
      log := log + [Emit(ToChannel(k), ChatNew(id, text, now, author.id, author.pseudo))];
    }

    /**
     * `room:join`: an unknown code is refused with `error:not-found`, a new
     * pseudo in a full room with `errors:full`. Otherwise the membership
     * join runs, the room is told of the new or reconnected player, the
     * connection now names the room and the player, this connection's own
     * pending handles for them are cleared, and the joiner gets the room.
     */
    method Join(c: ConnId, code: string, pseudo: string, now: int)
      requires Valid() && c in conns
      modifies this
      ensures Valid()
      ensures messages == old(messages) && nextTimer == old(nextTimer) && nextConn == old(nextConn)
      ensures code !in old(rooms) ==>
                && rooms == old(rooms) && conns == old(conns) && timers == old(timers)
                && nextPlayerId == old(nextPlayerId)
                && log == old(log) + [Emit(ToSocket(c), Error(NotFound))]
      ensures code in old(rooms) && Membership.Join(old(rooms)[code].members, pseudo, old(nextPlayerId), now).Full? ==>
                && rooms == old(rooms) && conns == old(conns) && timers == old(timers)
                && nextPlayerId == old(nextPlayerId)
                && log == old(log) + [Emit(ToSocket(c), Error(RoomFull))]
      ensures code in old(rooms) && !Membership.Join(old(rooms)[code].members, pseudo, old(nextPlayerId), now).Full? ==>
                var out := Membership.Join(old(rooms)[code].members, pseudo, old(nextPlayerId), now);
                var room' := old(rooms)[code].(members := out.members);
                && rooms == old(rooms)[code := room']
                && nextPlayerId == (if out.Created? then old(nextPlayerId) + 1 else old(nextPlayerId))
                && conns == old(conns)[c := JoinedSocket(old(conns)[c], code, out.player.id)]
                && timers == old(timers) - CancelledBy(old(conns)[c], code, out.player.id)
                && log == old(log) + [Emit(ToChannel(code), if out.Rejoined? then Reconnected(out.player) else NewPlayer(out.player)),
                                      Emit(ToSocket(c), Joined(room', out.player))]
    {
      if code !in rooms {
        log := log + [Emit(ToSocket(c), Error(NotFound))];
        return;
      }
      var out := Membership.Join(rooms[code].members, pseudo, nextPlayerId, now);
      if out.Full? {
        log := log + [Emit(ToSocket(c), Error(RoomFull))];
        return;
      }
      Enter(c, code, pseudo, now);
    }

    /**
     * The part of `room:join` after both refusals: the membership join, the
     * broadcast to the room, the connection's new room and player, the
     * clearing of this connection's own handles, and the reply.
     */
    method Enter(c: ConnId, code: string, pseudo: string, now: int)
      requires Valid() && c in conns && code in rooms
      requires !Membership.Join(rooms[code].members, pseudo, nextPlayerId, now).Full?
      modifies this
      ensures Valid()
      ensures messages == old(messages) && nextTimer == old(nextTimer) && nextConn == old(nextConn)
      ensures var out := Membership.Join(old(rooms)[code].members, pseudo, old(nextPlayerId), now);
              var room' := old(rooms)[code].(members := out.members);
              && rooms == old(rooms)[code := room']
              && nextPlayerId == (if out.Created? then old(nextPlayerId) + 1 else old(nextPlayerId))
              && conns == old(conns)[c := JoinedSocket(old(conns)[c], code, out.player.id)]
              && timers == old(timers) - CancelledBy(old(conns)[c], code, out.player.id)
              && log == old(log) + [Emit(ToChannel(code), if out.Rejoined? then Reconnected(out.player) else NewPlayer(out.player)),
                                    Emit(ToSocket(c), Joined(room', out.player))]
    {
      var out := Membership.Join(rooms[code].members, pseudo, nextPlayerId, now);
      var s := conns[c];
      var s' := JoinedSocket(s, code, out.player.id);
      EnterKeepsOk(rooms, nextPlayerId, conns, nextConn, timers, nextTimer, c, code, pseudo, now);
      var room' := rooms[code].(members := out.members);
      var next := if out.Created? then nextPlayerId + 1 else nextPlayerId;
      var notice := if out.Rejoined? then Reconnected(out.player) else NewPlayer(out.player);
      rooms, nextPlayerId, conns := rooms[code := room'], next, conns[c := s'];
      timers := timers - CancelledBy(s, code, out.player.id);
      log := log + [Emit(ToChannel(code), notice), Emit(ToSocket(c), Joined(room', out.player))];
    }

    /**
     * What `removePlayer(state.player, state.room)` leaves behind, starting
     * from timers `timers0` and handle counter `nextTimer0`: nothing when
     * the record is already gone; otherwise the host transfer and the
     * deletion, their broadcasts, and a teardown timer for a room left empty.
     */
    twostate predicate RemovalDone(c: ConnId, timers0: map<TimerId, Pending>, nextTimer0: nat)
      reads this
    {
      && c in old(conns)
      && messages == old(messages) && nextPlayerId == old(nextPlayerId) && nextConn == old(nextConn)
      && var s := old(conns)[c];
         if !HasPlayer(s, old(rooms)) then
           && rooms == old(rooms) && conns == old(conns) && log == old(log)
           && timers == timers0 && nextTimer == nextTimer0
         else
           var k := s.room.value;
           var m := old(rooms)[k].members;
           var leaving := Record(old(rooms), k, s.player.value);
           var m' := Remove(m, leaving);
           && rooms == old(rooms)[k := old(rooms)[k].(members := m')]
           && log == old(log) + RemovalEmits(m, leaving, k)
           && if |m'.players| == 0 then
                && timers == timers0[nextTimer0 := TeardownLater(k, GracePeriodMs)] && nextTimer == nextTimer0 + 1
                && conns == old(conns)[c := s.(roomDeletionTimers := s.roomDeletionTimers[k := nextTimer0])]
              else
                timers == timers0 && nextTimer == nextTimer0 && conns == old(conns)
    }

    method RemovePlayer(c: ConnId)
      requires Valid() && c in conns
      modifies this
      ensures Valid()
      ensures RemovalDone(c, old(timers), old(nextTimer))
    {
      var s := conns[c];
      if s.player.None? || s.room.None? {
        return;
      }
      // the record is looked up by id in the whole store; it can only be in the connection's room
      LocateInOwnRoom(s, rooms, nextPlayerId);
      var k := s.room.value;
      if k !in rooms {
        return;
      }
      var found := FindById(rooms[k].members.players, s.player.value);
      if found.None? {
        return;
      }
      RemoveRecord(c, k, rooms[k].members.players[found.value]);
    }

    /** The part of `removePlayer` that runs once the record was found in room `k`. */
    method RemoveRecord(c: ConnId, k: string, leaving: Player)
      requires Valid() && c in conns && k in rooms && leaving in rooms[k].members.players
      modifies this
      ensures Valid()
      ensures messages == old(messages) && nextPlayerId == old(nextPlayerId) && nextConn == old(nextConn)
      ensures var m := old(rooms)[k].members;
              var m' := Remove(m, leaving);
              var s := old(conns)[c];
              && rooms == old(rooms)[k := old(rooms)[k].(members := m')]
              && log == old(log) + RemovalEmits(m, leaving, k)
              && if |m'.players| == 0 then
                   && timers == old(timers)[old(nextTimer) := TeardownLater(k, GracePeriodMs)] && nextTimer == old(nextTimer) + 1
                   && conns == old(conns)[c := s.(roomDeletionTimers := s.roomDeletionTimers[k := old(nextTimer)])]
                 else
                   timers == old(timers) && nextTimer == old(nextTimer) && conns == old(conns)
    {
      var m := rooms[k].members;
      RemoveKeepsOk(conns, rooms, nextPlayerId, k, leaving);
      var target := TransferTarget(m, leaving);
      var m' := Remove(m, leaving);
      var emits := RemovalEmits(m, leaving, k);
      rooms := rooms[k := rooms[k].(members := m')];
      log := log + emits;
      if |m'.players| == 0 {
        ScheduleTeardown(c, k);
      }
    }

    /** `state.roomDeletionTimers[roomCode] = setTimeout(teardown, 60000)` on connection `c`. */
    method ScheduleTeardown(c: ConnId, k: string)
      requires Valid() && c in conns
      modifies this
      ensures Valid()
      ensures rooms == old(rooms) && log == old(log) && messages == old(messages)
      ensures nextPlayerId == old(nextPlayerId) && nextConn == old(nextConn)
      ensures timers == old(timers)[old(nextTimer) := TeardownLater(k, GracePeriodMs)] && nextTimer == old(nextTimer) + 1
      ensures var s := old(conns)[c];
              conns == old(conns)[c := s.(roomDeletionTimers := s.roomDeletionTimers[k := old(nextTimer)])]
    {
      var s := conns[c];
      var t := nextTimer;
      RetimeKeepsSocketsOk(conns, rooms, nextPlayerId, c, s.(roomDeletionTimers := s.roomDeletionTimers[k := t]));
      timers := timers[t := TeardownLater(k, GracePeriodMs)];
      nextTimer := nextTimer + 1;
      conns := conns[c := s.(roomDeletionTimers := s.roomDeletionTimers[k := t])];
    }

    /** `room:leave`: remove the connection's player now (the connection keeps naming it). */
    method Leave(c: ConnId)
      requires Valid() && c in conns
      modifies this
      ensures Valid()
      ensures RemovalDone(c, old(timers), old(nextTimer))
    {
      RemovePlayer(c);
    }

    /**
     * `disconnect`: when the connection's player record exists it is marked
     * disconnected, the room is told, and its removal is scheduled in 60 s
     * under this connection's `playerDeletionTimers`.
     */
    method Disconnect(c: ConnId)
      requires Valid() && c in conns
      modifies this
      ensures Valid()
      ensures messages == old(messages) && nextPlayerId == old(nextPlayerId) && nextConn == old(nextConn)
      ensures var s := old(conns[c]);
              !HasPlayer(s, old(rooms)) ==>
                rooms == old(rooms) && conns == old(conns) && timers == old(timers) && log == old(log)
      ensures var s := old(conns[c]);
              HasPlayer(s, old(rooms)) ==>
                var k := s.room.value;
                var m := old(rooms)[k].members;
                var i := FindById(m.players, s.player.value).value;
                var p := m.players[i].(connected := false);
                var t := old(nextTimer);
                && rooms == old(rooms)[k := old(rooms)[k].(members := m.(players := m.players[i := p]))]
                && log == old(log) + [Emit(ToChannel(k), PlayerDisconnected(p))]
                && timers == old(timers)[t := RemovePlayerLater(c, GracePeriodMs)] && nextTimer == t + 1
                && conns == old(conns)[c := s.(playerDeletionTimers := s.playerDeletionTimers[s.player.value := t])]
    {
      var s := conns[c];
      if s.player.None? || s.room.None? {
        return;
      }
      // `prisma.player.count({ where: { id } })` is the global lookup
      LocateInOwnRoom(s, rooms, nextPlayerId);
      var k := s.room.value;
      if k !in rooms {
        return;
      }
      if FindById(rooms[k].members.players, s.player.value).None? {
        return;
      }
      MarkDisconnected(c);
    }

    /** The part of `disconnect` that runs once the connection's player record is found. */
    method MarkDisconnected(c: ConnId)
      requires Valid() && c in conns && HasPlayer(conns[c], rooms)
      modifies this
      ensures Valid()
      ensures messages == old(messages) && nextPlayerId == old(nextPlayerId) && nextConn == old(nextConn)
      ensures var s := old(conns[c]);
              var k := s.room.value;
              var m := old(rooms)[k].members;
              var i := FindById(m.players, s.player.value).value;
              var p := m.players[i].(connected := false);
              var t := old(nextTimer);
              && rooms == old(rooms)[k := old(rooms)[k].(members := m.(players := m.players[i := p]))]
              && log == old(log) + [Emit(ToChannel(k), PlayerDisconnected(p))]
              && timers == old(timers)[t := RemovePlayerLater(c, GracePeriodMs)] && nextTimer == t + 1
              && conns == old(conns)[c := s.(playerDeletionTimers := s.playerDeletionTimers[s.player.value := t])]
    {
      var s := conns[c];
      var k := s.room.value;
      var m := rooms[k].members;
      var i := FindById(m.players, s.player.value).value;
      var p := m.players[i].(connected := false);
      var rooms' := rooms[k := rooms[k].(members := m.(players := m.players[i := p]))];
      var t := nextTimer;
      var s' := s.(playerDeletionTimers := s.playerDeletionTimers[s.player.value := t]);
      MarkKeepsOk(rooms, nextPlayerId, conns, nextConn, timers, nextTimer, c, k, i, p, s');
      rooms, conns := rooms', conns[c := s'];
      timers, nextTimer := timers[t := RemovePlayerLater(c, GracePeriodMs)], t + 1;
      log := log + [Emit(ToChannel(k), PlayerDisconnected(p))];
    }

    /** The 60 s removal timer runs `removePlayer` with the connection's state at that moment. */
    method FireRemoval(t: TimerId)
      requires Valid() && t in timers && timers[t].RemovePlayerLater?
      modifies this
      ensures Valid()
      ensures RemovalDone(old(timers)[t].conn, old(timers) - {t}, old(nextTimer))
    {
      var c := timers[t].conn;
      timers := timers - {t};
      RemovePlayer(c);
    }

    /**
     * The 60 s teardown timer deletes the enigma rows and the room (its
     * players with it) without looking at whether anyone joined since; a
     * room that is already gone makes it throw before any delete.
     */
    method FireTeardown(t: TimerId)
      requires Valid() && t in timers && timers[t].TeardownLater?
      modifies this
      ensures Valid()
      ensures timers == old(timers) - {t}
      ensures rooms == old(rooms) - {old(timers)[t].code}
      ensures conns == old(conns) && log == old(log) && messages == old(messages)
      ensures nextPlayerId == old(nextPlayerId) && nextTimer == old(nextTimer)
    {
      var code := timers[t].code;
      timers := timers - {t};
      DeleteRoomKeepsOk(conns, rooms, nextPlayerId, code);
      rooms := rooms - {code};
    }

    /**
     * `game:start`: `error:not-found` without a player or room on the
     * connection or when the player is not in the room, `error:not-authorized`
     * for a non-host; otherwise the room is started, told so and sent to
     * `main`, and the first tick is scheduled in one second.
     */
    method StartGame(c: ConnId)
      requires Valid() && c in conns
      modifies this
      ensures Valid()
      ensures conns == old(conns) && messages == old(messages) && nextPlayerId == old(nextPlayerId)
      ensures var s := old(conns[c]);
              s.player.None? || s.room.None? ==>
                rooms == old(rooms) && timers == old(timers) && log == old(log) + [Emit(ToSocket(c), Error(NotFound))]
      ensures var s := old(conns[c]);
              s.player.Some? && s.room.Some? && s.room.value !in old(rooms) ==>
                rooms == old(rooms) && timers == old(timers) && log == old(log)
      ensures var s := old(conns[c]);
              s.player.Some? && Attached(s, old(rooms)) && !HasPlayer(s, old(rooms)) ==>
                rooms == old(rooms) && timers == old(timers) && log == old(log) + [Emit(ToSocket(c), Error(NotFound))]
      ensures var s := old(conns[c]);
              HasPlayer(s, old(rooms)) && !Record(old(rooms), s.room.value, s.player.value).isHost ==>
                rooms == old(rooms) && timers == old(timers) && log == old(log) + [Emit(ToSocket(c), Error(NotAuthorized))]
      ensures var s := old(conns[c]);
              HasPlayer(s, old(rooms)) && Record(old(rooms), s.room.value, s.player.value).isHost ==>
                var k := s.room.value;
                && rooms == old(rooms)[k := old(rooms)[k].(started := true)]
                && log == old(log) + [Emit(ToChannel(k), GameStarted), Emit(ToChannel(k), SceneChanged(GameRules.Main))]
                && timers == old(timers)[old(nextTimer) := TickLater(c, TickMs)] && nextTimer == old(nextTimer) + 1
    {
      var s := conns[c];
      if s.player.None? || s.room.None? {
        log := log + [Emit(ToSocket(c), Error(NotFound))];
        return;
      }
      var k := s.room.value;
      if k !in rooms {
        return;  // `room.players` of a missing room throws
      }
      var found := FindById(rooms[k].members.players, s.player.value);
      if found.None? {
        log := log + [Emit(ToSocket(c), Error(NotFound))];
        return;
      }
      var player := rooms[k].members.players[found.value];
      if !player.isHost {
        log := log + [Emit(ToSocket(c), Error(NotAuthorized))];
        return;
      }
      Launch(c);
    }

    /** The part of `game:start` that runs once the host is found: start, broadcast, first tick in one second. */
    method Launch(c: ConnId)
      requires Valid() && c in conns && Attached(conns[c], rooms)
      modifies this
      ensures Valid()
      ensures conns == old(conns) && messages == old(messages) && nextPlayerId == old(nextPlayerId)
      ensures var k := old(conns[c]).room.value;
              && rooms == old(rooms)[k := old(rooms)[k].(started := true)]
              && log == old(log) + [Emit(ToChannel(k), GameStarted), Emit(ToChannel(k), SceneChanged(GameRules.Main))]
              && timers == old(timers)[old(nextTimer) := TickLater(c, TickMs)] && nextTimer == old(nextTimer) + 1
    {
      var k := conns[c].room.value;
      PutAndScheduleKeepsOk(rooms, nextPlayerId, conns, nextConn, timers, nextTimer, k, rooms[k].(started := true), TickLater(c, TickMs));
      rooms, timers, nextTimer := rooms[k := rooms[k].(started := true)], timers[nextTimer := TickLater(c, TickMs)], nextTimer + 1;
      log := log + [Emit(ToChannel(k), GameStarted), Emit(ToChannel(k), SceneChanged(GameRules.Main))];
    }

    /**
     * `game:change-scene`: a move to the current scene does nothing, a
     * refused one gets `error:invalid-scene-change`, and an accepted one is
     * stored on the player and confirmed to this connection only.
     */
    method ChangeScene(c: ConnId, scene: string)
      requires Valid() && c in conns
      modifies this
      ensures Valid()
      ensures conns == old(conns) && timers == old(timers) && messages == old(messages)
      ensures nextPlayerId == old(nextPlayerId) && nextTimer == old(nextTimer)
      ensures var s := old(conns[c]);
              !HasPlayer(s, old(rooms)) ==> rooms == old(rooms) && log == old(log)
      ensures var s := old(conns[c]);
              HasPlayer(s, old(rooms)) ==>
                var k := s.room.value;
                var m := old(rooms)[k].members;
                var i := FindById(m.players, s.player.value).value;
                var p := m.players[i];
                match GameRules.DecideSceneChange(p.currentScene, scene)
                case Unchanged => rooms == old(rooms) && log == old(log)
                case Rejected => rooms == old(rooms) && log == old(log) + [Emit(ToSocket(c), Error(InvalidSceneChange))]
                case Accepted =>
                  var room' := old(rooms)[k].(members := m.(players := m.players[i := p.(currentScene := scene)]));
                  && rooms == old(rooms)[k := room']
                  && log == old(log) + [Emit(ToSocket(c), SceneChanged(scene)),
                                        Emit(ToSocket(c), GameUpdate(room', Some(GameEvent("game:scene-change", EmptyObject))))]
    {
      var s := conns[c];
      if s.player.None? || s.room.None? {
        return;  // the player lookup throws
      }
      LocateInOwnRoom(s, rooms, nextPlayerId);
      var k := s.room.value;
      if k !in rooms {
        return;
      }
      var m := rooms[k].members;
      var found := FindById(m.players, s.player.value);
      if found.None? {
        return;
      }
      var i := found.value;
      var p := m.players[i];
      var decision := GameRules.DecideSceneChange(p.currentScene, scene);
      if decision.Unchanged? {
        return;
      }
      if decision.Rejected? {
        log := log + [Emit(ToSocket(c), Error(InvalidSceneChange))];
        return;
      }
      var p' := p.(currentScene := scene);
      RetouchKeepsOk(conns, rooms, nextPlayerId, k, i, p');
      var room' := rooms[k].(members := m.(players := m.players[i := p']));
      rooms := rooms[k := room'];
      log := log + [Emit(ToSocket(c), SceneChanged(scene)),
                    Emit(ToSocket(c), GameUpdate(room', Some(GameEvent("game:scene-change", EmptyObject))))];
    }

    /**
     * The one-second `update` timer: one `GameRules.Tick` on the
     * connection's room, a `game:over` when the clock ran out, a
     * `game:timer` update always, and the next tick while the clock runs or
     * time is left. A room that is gone makes it throw and the loop ends.
     */
    method FireTick(t: TimerId)
      requires Valid() && t in timers && timers[t].TickLater?
      modifies this
      ensures Valid()
      ensures conns == old(conns) && messages == old(messages) && nextPlayerId == old(nextPlayerId)
      ensures var s := old(conns)[old(timers)[t].conn];
              !Attached(s, old(rooms)) ==>
                rooms == old(rooms) && log == old(log) && timers == old(timers) - {t} && nextTimer == old(nextTimer)
      ensures var c := old(timers)[t].conn;
              var s := old(conns)[c];
              Attached(s, old(rooms)) ==>
                var k := s.room.value;
                var r := old(rooms)[k];
                var res := GameRules.Tick(r.timer, r.timerStopped, AllGatingCompleted(r));
                var r' := r.(timer := res.timer, timerStopped := res.timerStopped);
                && rooms == old(rooms)[k := r']
                && log == old(log) + (if res.gameOver then [Emit(ToChannel(k), GameOver(r', "timeout"))] else [])
                                   + [Emit(ToChannel(k), GameUpdate(r', Some(GameEvent("game:timer", EmptyObject))))]
                && (res.reschedule ==> timers == (old(timers) - {t})[old(nextTimer) := TickLater(c, TickMs)] && nextTimer == old(nextTimer) + 1)
                && (!res.reschedule ==> timers == old(timers) - {t} && nextTimer == old(nextTimer))
    {
      var c := timers[t].conn;
      var s := conns[c];
      if s.room.None? || s.room.value !in rooms {
        CancelKeepsTimersOk(timers, nextTimer, conns, conns, {t});
        timers := timers - {t};
        return;
      }
      var k := s.room.value;
      var r := rooms[k];
      var res := GameRules.Tick(r.timer, r.timerStopped, AllGatingCompleted(r));
      var r' := r.(timer := res.timer, timerStopped := res.timerStopped);
      TickKeepsOk(rooms, nextPlayerId, conns, nextConn, timers, nextTimer, t, k, r', res.reschedule);
      var over := if res.gameOver then [Emit(ToChannel(k), GameOver(r', "timeout"))] else [];
      rooms, log := rooms[k := r'], log + over + [Emit(ToChannel(k), GameUpdate(r', Some(GameEvent("game:timer", EmptyObject))))];
      if res.reschedule {
        timers, nextTimer := (timers - {t})[nextTimer := TickLater(c, TickMs)], nextTimer + 1;
      } else {
        timers := timers - {t};
      }
    }
  
    // ------------------------------------------------------------ enigmas

    /** What an enigma handler leaves alone: connections, timers, chat and the id counters. */
    twostate predicate EnigmaFrame()
      reads this
    {
      && conns == old(conns) && timers == old(timers) && messages == old(messages)
      && nextPlayerId == old(nextPlayerId) && nextTimer == old(nextTimer) && nextConn == old(nextConn)
    }

    /** Store room `k` again with changes that leave its players alone. */
    method PutRoom(k: string, r: Room)
      requires Valid() && k in rooms && r.code == k && r.members == rooms[k].members
      modifies this
      ensures Valid() && EnigmaFrame()
      ensures rooms == old(rooms)[k := r] && log == old(log)
    {
      SamePlayersKeepsOk(conns, rooms, nextPlayerId, k, r);
      rooms := rooms[k := r];
    }

    /**
     * `enigma1:move`: when every key names a storyboard, each named one
     * takes its new position and the room gets the move list; otherwise
     * `error:no-found` goes back and nothing is written.
     */
    method Enigma1Move(c: ConnId, moves: seq<Enigma1Puzzle.Move>)
      requires Valid() && c in conns
      modifies this
      ensures Valid() && EnigmaFrame()
      ensures !Attached(old(conns[c]), old(rooms)) ==> rooms == old(rooms) && log == old(log)
      ensures Attached(old(conns[c]), old(rooms)) ==>
                var k := old(conns[c]).room.value;
                var r := old(rooms)[k];
                match Enigma1Puzzle.Moved(r.enigma1.storyboards, moves)
                case None => rooms == old(rooms) && log == old(log) + [Emit(ToSocket(c), Error(NoFound))]
                case Some(sbs) =>
                  var r' := r.(enigma1 := r.enigma1.(storyboards := sbs));
                  && rooms == old(rooms)[k := r']
                  && log == old(log) + [Emit(ToChannel(k), GameUpdate(r', Some(GameEvent("enigma1:move", Moves(moves)))))]
    {
      var s := conns[c];
      if !Attached(s, rooms) {
        return;  // the room lookup throws
      }
      var k := s.room.value;
      var r := rooms[k];
      var moved := Enigma1Puzzle.ApplyMoves(r.enigma1.storyboards, moves);
      if moved.None? {
        log := log + [Emit(ToSocket(c), Error(NoFound))];
        return;
      }
      var r' := r.(enigma1 := r.enigma1.(storyboards := moved.value));
      PutRoom(k, r');
      log := log + [Emit(ToChannel(k), GameUpdate(r', Some(GameEvent("enigma1:move", Moves(moves)))))];
    }

    /**
     * `enigma1:swap-slots`: the two named storyboards exchange their slot
     * indices; an unknown name gets `error:no-found` and nothing is written.
     */
    method Enigma1Swap(c: ConnId, slot1: string, slot2: string)
      requires Valid() && c in conns
      modifies this
      ensures Valid() && EnigmaFrame()
      ensures !Attached(old(conns[c]), old(rooms)) ==> rooms == old(rooms) && log == old(log)
      ensures Attached(old(conns[c]), old(rooms)) ==>
                var k := old(conns[c]).room.value;
                var r := old(rooms)[k];
                match Enigma1Puzzle.Swapped(r.enigma1.storyboards, slot1, slot2)
                case None => rooms == old(rooms) && log == old(log) + [Emit(ToSocket(c), Error(NoFound))]
                case Some(sbs) =>
                  var r' := r.(enigma1 := r.enigma1.(storyboards := sbs));
                  && rooms == old(rooms)[k := r']
                  && log == old(log) + [Emit(ToChannel(k), GameUpdate(r', Some(GameEvent("enigma1:swap-slots", Slots(slot1, slot2)))))]
    {
      var s := conns[c];
      if !Attached(s, rooms) {
        return;
      }
      var k := s.room.value;
      var r := rooms[k];
      var swapped := Enigma1Puzzle.Swapped(r.enigma1.storyboards, slot1, slot2);
      if swapped.None? {
        log := log + [Emit(ToSocket(c), Error(NoFound))];
        return;
      }
      var r' := r.(enigma1 := r.enigma1.(storyboards := swapped.value));
      PutRoom(k, r');
      log := log + [Emit(ToChannel(k), GameUpdate(r', Some(GameEvent("enigma1:swap-slots", Slots(slot1, slot2)))))];
    }

    /** `enigma1:submit`: no solution test yet, so nothing is written; the room gets the current flag. */
    method Enigma1Submit(c: ConnId)
      requires Valid() && c in conns
      modifies this
      ensures Valid() && EnigmaFrame() && rooms == old(rooms)
      ensures !Attached(old(conns[c]), old(rooms)) ==> log == old(log)
      ensures Attached(old(conns[c]), old(rooms)) ==>
                var k := old(conns[c]).room.value;
                var r := old(rooms)[k];
                log == old(log) + [Emit(ToChannel(k), GameUpdate(r, Some(GameEvent("enigma1:submit", Completed(r.enigma1.completed)))))]
    {
      var s := conns[c];
      if !Attached(s, rooms) {
        return;
      }
      var k := s.room.value;
      var r := rooms[k];
      log := log + [Emit(ToChannel(k), GameUpdate(r, Some(GameEvent("enigma1:submit", Completed(r.enigma1.completed)))))];
    }

    /** `enigma2:update`: pad the photos to five and write the lighting; the room gets the payload. */
    method Enigma2Update(c: ConnId, index: int, lighting: Option<string>)
      requires Valid() && c in conns
      modifies this
      ensures Valid() && EnigmaFrame()
      ensures !Attached(old(conns[c]), old(rooms)) ==> rooms == old(rooms) && log == old(log)
      ensures Attached(old(conns[c]), old(rooms)) ==>
                var k := old(conns[c]).room.value;
                var r := old(rooms)[k];
                var r' := r.(enigma2 := r.enigma2.(photos := Enigma2Puzzle.Updated(r.enigma2.photos, index, lighting)));
                && rooms == old(rooms)[k := r']
                && log == old(log) + [Emit(ToChannel(k), GameUpdate(r', Some(GameEvent("enigma2:update", Lighting(index, lighting)))))]
    {
      var s := conns[c];
      if !Attached(s, rooms) {
        return;
      }
      var k := s.room.value;
      var r := rooms[k];
      var photos := Enigma2Puzzle.PadAndWrite(r.enigma2.photos, index, lighting);
      var r' := r.(enigma2 := r.enigma2.(photos := photos));
      PutRoom(k, r');
      log := log + [Emit(ToChannel(k), GameUpdate(r', Some(GameEvent("enigma2:update", Lighting(index, lighting)))))];
    }

    /** `enigma2:reset`: five empty photo slots, `completed` kept. */
    method Enigma2Reset(c: ConnId)
      requires Valid() && c in conns
      modifies this
      ensures Valid() && EnigmaFrame()
      ensures !Attached(old(conns[c]), old(rooms)) ==> rooms == old(rooms) && log == old(log)
      ensures Attached(old(conns[c]), old(rooms)) ==>
                var k := old(conns[c]).room.value;
                var r := old(rooms)[k];
                var r' := r.(enigma2 := Enigma2Puzzle.Reset(r.enigma2));
                && rooms == old(rooms)[k := r']
                && log == old(log) + [Emit(ToChannel(k), GameUpdate(r', Some(GameEvent("enigma2:reset", NullData))))]
    {
      var s := conns[c];
      if !Attached(s, rooms) {
        return;
      }
      var k := s.room.value;
      var r := rooms[k];
      var r' := r.(enigma2 := Enigma2Puzzle.Reset(r.enigma2));
      PutRoom(k, r');
      log := log + [Emit(ToChannel(k), GameUpdate(r', Some(GameEvent("enigma2:reset", NullData))))];
    }

    /** `enigma2:submit`: latch `completed` on the solution; the room always gets the resulting flag. */
    method Enigma2Submit(c: ConnId)
      requires Valid() && c in conns
      modifies this
      ensures Valid() && EnigmaFrame()
      ensures !Attached(old(conns[c]), old(rooms)) ==> rooms == old(rooms) && log == old(log)
      ensures Attached(old(conns[c]), old(rooms)) ==>
                var k := old(conns[c]).room.value;
                var r := old(rooms)[k];
                var r' := r.(enigma2 := Enigma2Puzzle.Submit(r.enigma2));
                && rooms == old(rooms)[k := r']
                && log == old(log) + [Emit(ToChannel(k), GameUpdate(r', Some(GameEvent("enigma2:submit-result", Completed(r'.enigma2.completed)))))]
    {
      var s := conns[c];
      if !Attached(s, rooms) {
        return;
      }
      var k := s.room.value;
      var r := rooms[k];
      var r' := r.(enigma2 := Enigma2Puzzle.Submit(r.enigma2));
      PutRoom(k, r');
      log := log + [Emit(ToChannel(k), GameUpdate(r', Some(GameEvent("enigma2:submit-result", Completed(r'.enigma2.completed)))))];
    }

    /**
     * `enigma3:update`, which runs two handlers: enigma 3's writes `role` at
     * `index` and sends the room with no event; enigma 4's, registered under
     * the same name, writes the payload's `ambiance` and sends `room:update`.
     */
    method Enigma3Update(c: ConnId, index: int, role: Option<string>, ambiance: Enigma4Puzzle.PayloadField)
      requires Valid() && c in conns
      modifies this
      ensures Valid() && EnigmaFrame()
      ensures !Attached(old(conns[c]), old(rooms)) ==> rooms == old(rooms) && log == old(log)
      ensures Attached(old(conns[c]), old(rooms)) ==>
                var k := old(conns[c]).room.value;
                var r := old(rooms)[k];
                var r1 := r.(enigma3 := r.enigma3.(roles := Enigma3Puzzle.Updated(r.enigma3.roles, index, role)));
                var r2 := r1.(enigma4 := Enigma4Puzzle.UpdateAmbiance(r1.enigma4, ambiance));
                && rooms == old(rooms)[k := r2]
                && log == old(log) + [Emit(ToChannel(k), GameUpdate(r1, None)), Emit(ToChannel(k), RoomUpdate(r2))]
    {
      var s := conns[c];
      if !Attached(s, rooms) {
        return;
      }
      var k := s.room.value;
      var r := rooms[k];
      // the enigma 3 handler writes r1 and broadcasts it; the enigma 4 handler then reads r1 back and writes r2
      var r1 := r.(enigma3 := r.enigma3.(roles := Enigma3Puzzle.Updated(r.enigma3.roles, index, role)));
      var r2 := r1.(enigma4 := Enigma4Puzzle.UpdateAmbiance(r1.enigma4, ambiance));
      PutRoom(k, r2);
      log := log + [Emit(ToChannel(k), GameUpdate(r1, None)), Emit(ToChannel(k), RoomUpdate(r2))];
    }

    /**
     * `enigma3:submit`, which also runs two handlers: enigma 3's latches
     * `completed` on a passing check and sends the result; enigma 4's
     * writes nothing and sends the room with no event.
     */
    method Enigma3Submit(c: ConnId)
      requires Valid() && c in conns
      modifies this
      ensures Valid() && EnigmaFrame()
      ensures !Attached(old(conns[c]), old(rooms)) ==> rooms == old(rooms) && log == old(log)
      ensures Attached(old(conns[c]), old(rooms)) ==>
                var k := old(conns[c]).room.value;
                var r := old(rooms)[k];
                var r' := r.(enigma3 := Enigma3Puzzle.Submit(r.enigma3));
                && rooms == old(rooms)[k := r']
                && log == old(log) + [Emit(ToChannel(k), GameUpdate(r', Some(GameEvent("enigma3:submit-result", Completed(r'.enigma3.completed))))),
                                      Emit(ToChannel(k), GameUpdate(r', None))]
    {
      var s := conns[c];
      if !Attached(s, rooms) {
        return;
      }
      var k := s.room.value;
      var r := rooms[k];
      var r' := r.(enigma3 := Enigma3Puzzle.Submit(r.enigma3));
      PutRoom(k, r');
      log := log + [Emit(ToChannel(k), GameUpdate(r', Some(GameEvent("enigma3:submit-result", Completed(r'.enigma3.completed)))))];
      var r2 := r'.(enigma4 := Enigma4Puzzle.Submit(r'.enigma4));
      log := log + [Emit(ToChannel(k), GameUpdate(r2, None))];
    }
  }
}
