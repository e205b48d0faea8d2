/**
 * The room aggregate of server/room.js and server/game.js (the room record
 * with its players and its four enigma rows), the messages the server
 * emits, the per-connection state, and the invariants of the in-memory
 * store that stands for the database.
 */
module Protocol {
  import opened Wrappers
  import opened Membership
  import Enigma1Puzzle
  import Enigma2Puzzle
  import Enigma3Puzzle
  import Enigma4Puzzle

  /** Connections and timers are named by counters the server allocates. */
  type ConnId = nat
  type TimerId = nat

  datatype Room = Room(
    code: string,
    started: bool,
    timer: int,
    timerStopped: bool,
    members: Members,
    enigma1: Enigma1Puzzle.Enigma1Row,
    enigma2: Enigma2Puzzle.Enigma2Row,
    enigma3: Enigma3Puzzle.Enigma3Row,
    enigma4: Enigma4Puzzle.Enigma4Row)

  /**
   * `POST /api/rooms`: the room record with store defaults and its four
   * enigma rows (empty storyboards, photos and roles, null ambiance).
   */
  function NewRoom(code: string, initialTimer: int): (r: Room)
    ensures r.code == code && !r.started && !r.timerStopped && r.timer == initialTimer
    ensures r.members.players == [] && r.members.hostPlayerId.None?
    ensures r.enigma1.storyboards == [] && r.enigma2.photos == [] && r.enigma3.roles == []
    ensures r.enigma4.ambiance.None?
    ensures !r.enigma1.completed && !r.enigma2.completed && !r.enigma3.completed && !r.enigma4.completed
  {
    Room(code, false, initialTimer, false, Members(None, []),
         Enigma1Puzzle.EmptyRow, Enigma2Puzzle.EmptyRow, Enigma3Puzzle.EmptyRow, Enigma4Puzzle.EmptyRow)
  }

  /** The `data` of a `game:update` event descriptor. */
  datatype EventData =
    | EmptyObject
    | NullData
    | Moves(moves: seq<Enigma1Puzzle.Move>)
    | Slots(slot1: string, slot2: string)
    | Completed(completed: bool)
    | Lighting(index: int, lighting: Option<string>)

  datatype GameEvent = GameEvent(kind: string, data: EventData)

  datatype Msg =
    | Error(code: string)
    | NewPlayer(player: Player)
    | Reconnected(player: Player)
    | PlayerDisconnected(player: Player)
    | PlayerLeft(player: Player)
    | HostChanged(playerId: PlayerId)
    | Joined(room: Room, self: Player)
    | GameStarted
    | SceneChanged(scene: string)
    | GameUpdate(room: Room, event: Option<GameEvent>)
    | GameOver(room: Room, reason: string)
    | RoomUpdate(room: Room)
    | ChatNew(id: nat, text: string, createdAt: int, authorId: PlayerId, authorPseudo: string)

  /** A broadcast to a room's channel, or a reply to one connection. */
  datatype Target = ToChannel(name: string) | ToSocket(conn: ConnId)

  datatype Emit = Emit(to: Target, msg: Msg)

  /** A stored chat message. */
  datatype ChatMessage = ChatMessage(id: nat, room: string, authorId: PlayerId, text: string, createdAt: int)

  /**
   * A pending `setTimeout` callback. The removal and tick callbacks read the
   * connection's state when they run; the teardown captured its room code.
   */
  datatype Pending =
    | RemovePlayerLater(conn: ConnId, delayMs: nat)
    | TeardownLater(code: string, delayMs: nat)
    | TickLater(conn: ConnId, delayMs: nat)

  /** The delay before a disconnected player is removed, and before an empty room is torn down. */
  const GracePeriodMs: nat := 60000
  /** The period of the game clock. */
  const TickMs: nat := 1000

  /** The `state` object of one connection, with its own timer-handle maps. */
  datatype SocketState = SocketState(
    room: Option<string>,
    player: Option<PlayerId>,
    playerDeletionTimers: map<PlayerId, TimerId>,
    roomDeletionTimers: map<string, TimerId>)

  const FreshSocket: SocketState := SocketState(None, None, map[], map[])

  // ------------------------------------------------ connection helpers

  /** The connection names a room that is stored. */
  predicate Attached(s: SocketState, rooms: map<string, Room>) {
    s.room.Some? && s.room.value in rooms
  }

  /** The connection names a player whose record exists (in the connection's room). */
  predicate HasPlayer(s: SocketState, rooms: map<string, Room>) {
    s.player.Some? && Attached(s, rooms) && s.player.value in PlayersOf(rooms, s.room.value)
  }

  /** The connection state after a join: room and player set, their pending handles dropped. */
  function JoinedSocket(s: SocketState, k: string, id: PlayerId): (r: SocketState)
    ensures r.room == Some(k) && r.player == Some(id)
    ensures r.roomDeletionTimers.Keys == s.roomDeletionTimers.Keys - {k}
    ensures r.playerDeletionTimers.Keys == s.playerDeletionTimers.Keys - {id}
    ensures forall j :: j in r.roomDeletionTimers ==> r.roomDeletionTimers[j] == s.roomDeletionTimers[j]
    ensures forall j :: j in r.playerDeletionTimers ==> r.playerDeletionTimers[j] == s.playerDeletionTimers[j]
  {
    SocketState(Some(k), Some(id), s.playerDeletionTimers - {id}, s.roomDeletionTimers - {k})
  }

  /** The handles a join clears: only the ones this connection recorded for that room and player. */
  function CancelledBy(s: SocketState, k: string, id: PlayerId): (r: set<TimerId>)
    ensures forall t :: t in r ==> t in s.roomDeletionTimers.Values || t in s.playerDeletionTimers.Values
    ensures k in s.roomDeletionTimers ==> s.roomDeletionTimers[k] in r
    ensures id in s.playerDeletionTimers ==> s.playerDeletionTimers[id] in r
  {
    (if k in s.roomDeletionTimers then {s.roomDeletionTimers[k]} else {})
    + (if id in s.playerDeletionTimers then {s.playerDeletionTimers[id]} else {})
  }

  /** What `removePlayer` broadcasts: the host change (if any), then the departure. */
  function RemovalEmits(m: Members, leaving: Player, k: string): seq<Emit> {
    (match TransferTarget(m, leaving)
     case Some(i) => [Emit(ToChannel(k), HostChanged(m.players[i].id))]
     case None => [])
    + [Emit(ToChannel(k), PlayerLeft(leaving))]
  }

  // ------------------------------------------------------- store invariants

  function PlayersOf(rooms: map<string, Room>, k: string): set<PlayerId>
    requires k in rooms
  {
    Ids(rooms[k].members.players)
  }

  /** The record of player `id` in room `k`. */
  function Record(rooms: map<string, Room>, k: string, id: PlayerId): (p: Player)
    requires k in rooms && id in PlayersOf(rooms, k)
    ensures p in rooms[k].members.players && p.id == id
  {
    var i := FindById(rooms[k].members.players, id).value;
    rooms[k].members.players[i]
  }

  /** A player record with this id exists in some room. */
  predicate PlayerExists(rooms: map<string, Room>, id: PlayerId) {
    exists k :: k in rooms && id in PlayersOf(rooms, k)
  }

  /**
   * Every room is stored under its code and keeps the membership
   * invariant; ids are below the allocation bound and no id is in two rooms.
   */
  predicate StoreOk(rooms: map<string, Room>, bound: nat) {
    && (forall k :: k in rooms ==> rooms[k].code == k && MembersOk(rooms[k].members))
    && (forall k, id :: k in rooms && id in PlayersOf(rooms, k) ==> id < bound)
    && (forall k1, k2 :: k1 in rooms && k2 in rooms && k1 != k2 ==> PlayersOf(rooms, k1) !! PlayersOf(rooms, k2))
  }

  /**
   * A connection names a player exactly when it names a room, the player id
   * was allocated, and wherever that player's record is, it is in the
   * connection's room.
   */
  predicate SocketOk(s: SocketState, rooms: map<string, Room>, bound: nat) {
    && (s.player.Some? <==> s.room.Some?)
    && (s.player.Some? ==> s.player.value < bound)
    && (forall k :: k in rooms && s.player.Some? && s.player.value in PlayersOf(rooms, k) ==> s.room == Some(k))
  }

  predicate SocketsOk(conns: map<ConnId, SocketState>, rooms: map<string, Room>, bound: nat) {
    forall c :: c in conns ==> SocketOk(conns[c], rooms, bound)
  }

  /**
   * A connection's player exists somewhere exactly when it is in the
   * connection's own room, so looking it up there is the store's global
   * lookup by id.
   */
  lemma LocateInOwnRoom(s: SocketState, rooms: map<string, Room>, bound: nat)
    requires SocketOk(s, rooms, bound) && s.player.Some?
    ensures PlayerExists(rooms, s.player.value) <==>
              s.room.value in rooms && s.player.value in PlayersOf(rooms, s.room.value)
  {
    if PlayerExists(rooms, s.player.value) {
      var k :| k in rooms && s.player.value in PlayersOf(rooms, k);
    }
  }

  /** Replacing a room by one with the same code and the same players keeps every invariant. */
  lemma SamePlayersKeepsOk(conns: map<ConnId, SocketState>, rooms: map<string, Room>, bound: nat, k: string, r: Room)
    requires StoreOk(rooms, bound) && SocketsOk(conns, rooms, bound)
    requires k in rooms && r.code == k && MembersOk(r.members)
    requires Ids(r.members.players) == PlayersOf(rooms, k)
    ensures StoreOk(rooms[k := r], bound) && SocketsOk(conns, rooms[k := r], bound)
  {
    var rooms' := rooms[k := r];
    assert forall j :: j in rooms' ==> PlayersOf(rooms', j) == PlayersOf(rooms, j);
  }

  /** Growing the allocation bound keeps every invariant. */
  lemma RaiseBoundKeepsOk(conns: map<ConnId, SocketState>, rooms: map<string, Room>, bound: nat, bound': nat)
    requires StoreOk(rooms, bound) && SocketsOk(conns, rooms, bound) && bound <= bound'
    ensures StoreOk(rooms, bound') && SocketsOk(conns, rooms, bound')
  {
  }

  /** Deleting a room (and, by cascade, its players) keeps every invariant. */
  lemma DeleteRoomKeepsOk(conns: map<ConnId, SocketState>, rooms: map<string, Room>, bound: nat, k: string)
    requires StoreOk(rooms, bound) && SocketsOk(conns, rooms, bound)
    ensures StoreOk(rooms - {k}, bound) && SocketsOk(conns, rooms - {k}, bound)
  {
    var rooms' := rooms - {k};
    assert forall j :: j in rooms' ==> PlayersOf(rooms', j) == PlayersOf(rooms, j);
  }

  /** Adding a fresh empty room under an unused code keeps every invariant. */
  lemma AddRoomKeepsOk(conns: map<ConnId, SocketState>, rooms: map<string, Room>, bound: nat, r: Room)
    requires StoreOk(rooms, bound) && SocketsOk(conns, rooms, bound)
    requires r.code !in rooms && r.members.players == [] && MembersOk(r.members)
    ensures StoreOk(rooms[r.code := r], bound) && SocketsOk(conns, rooms[r.code := r], bound)
  {
    var rooms' := rooms[r.code := r];
    assert PlayersOf(rooms', r.code) == {};
    assert forall j :: j in rooms && j != r.code ==> PlayersOf(rooms', j) == PlayersOf(rooms, j);
  }

  /**
   * Adding id `id` to room `k` keeps the store invariant when the id is new
   * to every room or already belongs to `k`.
   */
  lemma AddIdKeepsStoreOk(rooms: map<string, Room>, bound: nat, bound': nat, k: string, r: Room, id: PlayerId)
    requires StoreOk(rooms, bound) && k in rooms && bound <= bound' && id < bound'
    requires r.code == k && MembersOk(r.members) && Ids(r.members.players) == PlayersOf(rooms, k) + {id}
    requires id in PlayersOf(rooms, k) || id >= bound
    ensures StoreOk(rooms[k := r], bound')
  {
    var rooms' := rooms[k := r];
    forall j | j in rooms' && j != k ensures PlayersOf(rooms', j) == PlayersOf(rooms, j) && id !in PlayersOf(rooms, j) {
    }
  }

  /** The same, for the connections: the joining connection names room `k` and the id. */
  lemma AddIdKeepsSocketsOk(conns: map<ConnId, SocketState>, rooms: map<string, Room>, bound: nat, bound': nat,
                            k: string, r: Room, id: PlayerId, c: ConnId, s': SocketState)
    requires StoreOk(rooms, bound) && SocketsOk(conns, rooms, bound) && k in rooms && bound <= bound' && id < bound'
    requires Ids(r.members.players) == PlayersOf(rooms, k) + {id}
    requires id in PlayersOf(rooms, k) || id >= bound
    requires s'.room == Some(k) && s'.player == Some(id)
    ensures SocketsOk(conns[c := s'], rooms[k := r], bound')
  {
    var rooms' := rooms[k := r];
    var conns' := conns[c := s'];
    forall d | d in conns' ensures SocketOk(conns'[d], rooms', bound') {
      if d != c {
        assert SocketOk(conns[d], rooms, bound);
      }
    }
  }

  /**
   * A successful join on connection `c` keeps every invariant once the
   * connection names the room and the joining player, with the next id
   * allocated only when a record was created.
   */
  lemma JoinKeepsOk(conns: map<ConnId, SocketState>, rooms: map<string, Room>, bound: nat,
                    k: string, pseudo: string, now: int, c: ConnId, s': SocketState)
    requires StoreOk(rooms, bound) && SocketsOk(conns, rooms, bound) && k in rooms
    requires !Join(rooms[k].members, pseudo, bound, now).Full?
    requires s'.room == Some(k) && s'.player == Some(Join(rooms[k].members, pseudo, bound, now).player.id)
    ensures var out := Join(rooms[k].members, pseudo, bound, now);
            var rooms' := rooms[k := rooms[k].(members := out.members)];
            var bound' := if out.Created? then bound + 1 else bound;
            StoreOk(rooms', bound') && SocketsOk(conns[c := s'], rooms', bound')
  {
    var m := rooms[k].members;
    var out := Join(m, pseudo, bound, now);
    var r := rooms[k].(members := out.members);
    var bound' := if out.Created? then bound + 1 else bound;
    assert bound !in PlayersOf(rooms, k);
    JoinKeepsInvariant(m, pseudo, bound, now);
    JoinIds(m, pseudo, bound, now);
    AddIdKeepsStoreOk(rooms, bound, bound', k, r, out.player.id);
    AddIdKeepsSocketsOk(conns, rooms, bound, bound', k, r, out.player.id, c, s');
  }

  /** Removing a player of room `k` (after any host transfer) keeps every invariant. */
  lemma RemoveKeepsOk(conns: map<ConnId, SocketState>, rooms: map<string, Room>, bound: nat,
                      k: string, leaving: Player)
    requires StoreOk(rooms, bound) && SocketsOk(conns, rooms, bound) && k in rooms
    requires leaving in rooms[k].members.players
    ensures var rooms' := rooms[k := rooms[k].(members := Remove(rooms[k].members, leaving))];
            StoreOk(rooms', bound) && SocketsOk(conns, rooms', bound)
  {
    var m := rooms[k].members;
    var rooms' := rooms[k := rooms[k].(members := Remove(m, leaving))];
    RemoveKeepsInvariant(m, leaving);
    RemoveIds(m, leaving);
    assert PlayersOf(rooms', k) <= PlayersOf(rooms, k);
    assert forall j :: j in rooms && j != k ==> PlayersOf(rooms', j) == PlayersOf(rooms, j);
  }

  /** Rewriting the non-identifying fields of one player record keeps every invariant. */
  lemma RetouchKeepsOk(conns: map<ConnId, SocketState>, rooms: map<string, Room>, bound: nat,
                       k: string, i: nat, p: Player)
    requires StoreOk(rooms, bound) && SocketsOk(conns, rooms, bound) && k in rooms
    requires i < |rooms[k].members.players|
    requires var q := rooms[k].members.players[i]; p.id == q.id && p.pseudo == q.pseudo && p.isHost == q.isHost
    ensures var m := rooms[k].members;
            var rooms' := rooms[k := rooms[k].(members := m.(players := m.players[i := p]))];
            StoreOk(rooms', bound) && SocketsOk(conns, rooms', bound)
  {
    var m := rooms[k].members;
    RetouchKeepsInvariant(m, i, p);
    SamePlayersKeepsOk(conns, rooms, bound, k, rooms[k].(members := m.(players := m.players[i := p])));
  }

  /** Changing only a connection's handle maps keeps the connection invariant. */
  lemma RetimeKeepsSocketsOk(conns: map<ConnId, SocketState>, rooms: map<string, Room>, bound: nat,
                             c: ConnId, s': SocketState)
    requires SocketsOk(conns, rooms, bound) && c in conns
    requires s'.room == conns[c].room && s'.player == conns[c].player
    ensures SocketsOk(conns[c := s'], rooms, bound)
  {
    assert SocketOk(conns[c], rooms, bound);
  }

  /**
   * The pending handles: every id is below the handle counter, and every
   * handle other than a teardown names a live connection.
   */
  ghost predicate TimersOk(timers: map<TimerId, Pending>, next: nat, conns: map<ConnId, SocketState>) {
    && (forall t :: t in timers ==> t < next)
    && (forall t :: t in timers && !timers[t].TeardownLater? ==> timers[t].conn in conns)
  }

  /** Scheduling a handle under the counter keeps the handles consistent. */
  lemma ScheduleKeepsTimersOk(timers: map<TimerId, Pending>, next: nat, conns: map<ConnId, SocketState>,
                              conns': map<ConnId, SocketState>, p: Pending)
    requires TimersOk(timers, next, conns) && conns.Keys <= conns'.Keys
    requires !p.TeardownLater? ==> p.conn in conns'
    ensures TimersOk(timers[next := p], next + 1, conns')
  {
  }

  /** Cancelling handles keeps the handles consistent. */
  lemma CancelKeepsTimersOk(timers: map<TimerId, Pending>, next: nat, conns: map<ConnId, SocketState>,
                            conns': map<ConnId, SocketState>, gone: set<TimerId>)
    requires TimersOk(timers, next, conns) && conns.Keys <= conns'.Keys
    ensures TimersOk(timers - gone, next, conns')
  {
  }
}
