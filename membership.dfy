/**
 * Players of a room and the membership rules the three server variants
 * share: join by pseudo (reconnect or create), the 2-player cap, host
 * assignment, and host transfer before a player record is deleted.
 */
module Membership {
  import opened Wrappers
  import JsArrays

  type PlayerId = nat

  /** Defaults the store gives a new player record. */
  const DefaultScene: string := "main"

  datatype Player = Player(
    id: PlayerId,
    pseudo: string,
    isHost: bool,
    connected: bool,
    currentScene: string,
    lastSeenAt: int)

  /** The membership part of a room record: `hostPlayerId` and the players. */
  datatype Members = Members(hostPlayerId: Option<PlayerId>, players: seq<Player>)

  const MaxPlayers: nat := 2

  function Ids(ps: seq<Player>): set<PlayerId> {
    set p | p in ps :: p.id
  }

  /** The number of players flagged `isHost`. */
  function HostCount(ps: seq<Player>): nat {
    if |ps| == 0 then 0 else (if ps[0].isHost then 1 else 0) + HostCount(ps[1..])
  }

  predicate DistinctIds(ps: seq<Player>) {
    forall i, j :: 0 <= i < j < |ps| ==> ps[i].id != ps[j].id
  }

  predicate DistinctPseudos(ps: seq<Player>) {
    forall i, j :: 0 <= i < j < |ps| ==> ps[i].pseudo != ps[j].pseudo
  }

  /** `hostPlayerId` names every player flagged `isHost`. */
  predicate HostIdAgrees(m: Members) {
    forall i :: 0 <= i < |m.players| && m.players[i].isHost ==> m.hostPlayerId == Some(m.players[i].id)
  }

  /**
   * The room invariant: at most two players, one record per id and per
   * pseudo, and exactly one host (the one `hostPlayerId` names) while the
   * room is not empty.
   */
  predicate MembersOk(m: Members) {
    && |m.players| <= MaxPlayers
    && DistinctIds(m.players)
    && DistinctPseudos(m.players)
    && HostIdAgrees(m)
    && (|m.players| > 0 ==> HostCount(m.players) == 1)
  }

  /** `players.find((p) => p.pseudo == pseudo)`: the first record with that pseudo. */
  function FindByPseudo(ps: seq<Player>, pseudo: string): (r: Option<nat>)
    ensures r.Some? ==> r.value < |ps| && ps[r.value].pseudo == pseudo
    ensures r.Some? ==> forall j :: 0 <= j < r.value ==> ps[j].pseudo != pseudo
    ensures r.None? <==> forall j :: 0 <= j < |ps| ==> ps[j].pseudo != pseudo
  {
    JsArrays.FindIndex(ps, (p: Player) => p.pseudo == pseudo)
  }

  function FindById(ps: seq<Player>, id: PlayerId): (r: Option<nat>)
    ensures r.Some? ==> r.value < |ps| && ps[r.value].id == id
    ensures r.None? <==> id !in Ids(ps)
  {
    var r := JsArrays.FindIndex(ps, (p: Player) => p.id == id);
    assert r.Some? ==> ps[r.value] in ps;
    r
  }

  // ---------------------------------------------------------------- join

  datatype JoinOutcome =
    | Full
    | Rejoined(members: Members, player: Player)
    | Created(members: Members, player: Player)

  /**
   * `room:join` on an existing room (server/room.js, server/RoomManager.js):
   * a known pseudo reuses its record, marked connected; an unknown pseudo is
   * refused when the room holds two players, and otherwise gets a new record
   * that is host exactly when the room was empty, in which case the room's
   * `hostPlayerId` is set to it.
   */
  function Join(m: Members, pseudo: string, freshId: PlayerId, now: int): (r: JoinOutcome)
    ensures r.Full? <==> FindByPseudo(m.players, pseudo).None? && |m.players| >= MaxPlayers
    ensures r.Rejoined? <==> FindByPseudo(m.players, pseudo).Some?
    ensures r.Rejoined? ==>
              var i := FindByPseudo(m.players, pseudo).value;
              && |r.members.players| == |m.players|
              && r.player == m.players[i].(connected := true, lastSeenAt := now)
              && r.members == Members(m.hostPlayerId, m.players[i := r.player])
    ensures r.Created? ==>
              && r.player == Player(freshId, pseudo, |m.players| == 0, true, DefaultScene, now)
              && r.members.players == m.players + [r.player]
              && r.members.hostPlayerId == if |m.players| == 0 then Some(freshId) else m.hostPlayerId
  {
    var found := FindByPseudo(m.players, pseudo);
    if found.None? && |m.players| >= MaxPlayers then Full
    else
      var player :=
        if found.Some? then m.players[found.value].(connected := true, lastSeenAt := now)
        else Player(freshId, pseudo, |m.players| == 0, true, DefaultScene, now);
      var players := if found.Some? then m.players[found.value := player] else m.players + [player];
      var host := if |m.players| == 0 then Some(player.id) else m.hostPlayerId;
      if found.Some? then Rejoined(Members(host, players), player)
      else Created(Members(host, players), player)
  }

  lemma {:induction false} HostCountAppend(ps: seq<Player>, p: Player)
    ensures HostCount(ps + [p]) == HostCount(ps) + (if p.isHost then 1 else 0)
  {
    if |ps| > 0 {
      assert (ps + [p])[1..] == ps[1..] + [p];
      HostCountAppend(ps[1..], p);
    }
  }

  lemma {:induction false} HostCountUpdate(ps: seq<Player>, i: nat, p: Player)
    requires i < |ps| && p.isHost == ps[i].isHost
    ensures HostCount(ps[i := p]) == HostCount(ps)
  {
    if i > 0 {
      assert ps[i := p][1..] == ps[1..][i - 1 := p];
      HostCountUpdate(ps[1..], i - 1, p);
    }
  }

  /** Joining keeps the room invariant; the new player's id must be unused. */
  lemma JoinKeepsInvariant(m: Members, pseudo: string, freshId: PlayerId, now: int)
    requires MembersOk(m) && freshId !in Ids(m.players)
    ensures Join(m, pseudo, freshId, now).Rejoined? || Join(m, pseudo, freshId, now).Created? ==>
              MembersOk(Join(m, pseudo, freshId, now).members)
  {
    var r := Join(m, pseudo, freshId, now);
    match r
    case Full =>
    case Rejoined(m', p) =>
      var i := FindByPseudo(m.players, pseudo).value;
      HostCountUpdate(m.players, i, p);
    case Created(m', p) =>
      HostCountAppend(m.players, p);
      forall j | 0 <= j < |m.players| ensures m.players[j].id != freshId {
        assert m.players[j] in m.players;
      }
      assert FindByPseudo(m.players, pseudo).None?;
  }

  /** The player count never exceeds two, whatever pseudo joins. */
  lemma JoinRespectsCap(m: Members, pseudo: string, freshId: PlayerId, now: int)
    requires |m.players| <= MaxPlayers
    ensures !Join(m, pseudo, freshId, now).Full? ==> |Join(m, pseudo, freshId, now).members.players| <= MaxPlayers
  {
  }

  /** A known pseudo never creates a record: ids and count are unchanged and the record is reconnected. */
  lemma RejoinCreatesNoRecord(m: Members, pseudo: string, freshId: PlayerId, now: int)
    requires FindByPseudo(m.players, pseudo).Some?
    ensures var r := Join(m, pseudo, freshId, now);
            r.Rejoined? && Ids(r.members.players) == Ids(m.players) && r.player.connected
            && r.player.id == m.players[FindByPseudo(m.players, pseudo).value].id
  {
    var r := Join(m, pseudo, freshId, now);
    var i := FindByPseudo(m.players, pseudo).value;
    var ps' := r.members.players;
    assert forall q :: q in ps' ==> q.id in Ids(m.players) by {
      forall q | q in ps' ensures q.id in Ids(m.players) {
        var j :| 0 <= j < |ps'| && ps'[j] == q;
        assert m.players[j] in m.players;
      }
    }
    assert forall q :: q in m.players ==> q.id in Ids(ps') by {
      forall q | q in m.players ensures q.id in Ids(ps') {
        var j :| 0 <= j < |m.players| && m.players[j] == q;
        assert ps'[j] in ps';
      }
    }
  }

  // ------------------------------------------------------------- removal

  /**
   * `removePlayer`'s host transfer: when the departing record is host and
   * the room (looked up by code) holds exactly two players, the first other
   * player becomes host and `hostPlayerId`. Returns the new host's index.
   */
  function TransferTarget(m: Members, leaving: Player): (r: Option<nat>)
    ensures r.Some? ==> r.value < |m.players| && m.players[r.value].id != leaving.id
    ensures r.Some? <==> |m.players| == MaxPlayers && leaving.isHost &&
                         exists j :: 0 <= j < |m.players| && m.players[j].id != leaving.id
  {
    if |m.players| == MaxPlayers && leaving.isHost then
      JsArrays.FindIndex(m.players, (p: Player) => p.id != leaving.id)
    else None
  }

  /** Mark the player at `i` host and record it in `hostPlayerId`. */
  function PromoteHost(m: Members, i: nat): (r: Members)
    requires i < |m.players|
    ensures r.players == m.players[i := m.players[i].(isHost := true)]
    ensures r.hostPlayerId == Some(m.players[i].id)
  {
    Members(Some(m.players[i].id), m.players[i := m.players[i].(isHost := true)])
  }

  /** `prisma.player.delete({ where: { id } })`: the record with that id is gone, the others keep their order. */
  function Without(m: Members, id: PlayerId): (r: Members)
    ensures r.hostPlayerId == m.hostPlayerId
    ensures id !in Ids(r.players)
    ensures Ids(r.players) == Ids(m.players) - {id}
  {
    var r := Members(m.hostPlayerId, JsArrays.Filter(m.players, (p: Player) => p.id != id));
    assert forall q :: q in r.players ==> q in m.players && q.id != id by {
      forall q | q in r.players ensures q in m.players && q.id != id {
        var j :| 0 <= j < |r.players| && r.players[j] == q;
      }
    }
    assert forall q :: q in m.players && q.id != id ==> q in r.players by {
      forall q | q in m.players && q.id != id ensures q in r.players {
        var j :| 0 <= j < |m.players| && m.players[j] == q;
      }
    }
    r
  }

  /** The whole removal on one room: transfer (if due) and then delete. */
  function Remove(m: Members, leaving: Player): (r: Members)
    ensures leaving.id !in Ids(r.players)
    ensures TransferTarget(m, leaving).None? ==> r.hostPlayerId == m.hostPlayerId
    ensures TransferTarget(m, leaving).Some? ==>
              r.hostPlayerId == Some(m.players[TransferTarget(m, leaving).value].id) && r.hostPlayerId != Some(leaving.id)
  {
    match TransferTarget(m, leaving)
    case Some(i) => Without(PromoteHost(m, i), leaving.id)
    case None => Without(m, leaving.id)
  }

  lemma {:induction false} HostCountRemoveOne(ps: seq<Player>, id: PlayerId, k: nat)
    requires DistinctIds(ps) && k < |ps| && ps[k].id == id
    ensures HostCount(JsArrays.Filter(ps, (p: Player) => p.id != id)) == HostCount(ps) - (if ps[k].isHost then 1 else 0)
  {
    var f := (p: Player) => p.id != id;
    if k == 0 {
      forall j | 0 <= j < |ps[1..]| ensures f(ps[1..][j]) { assert ps[1..][j] == ps[j + 1]; }
      JsArrays.FilterAll(ps[1..], f);
    } else {
      HostCountRemoveOne(ps[1..], id, k - 1);
    }
  }

  lemma {:induction false} WithoutKeepsDistinctIds(ps: seq<Player>, id: PlayerId)
    requires DistinctIds(ps)
    ensures DistinctIds(JsArrays.Filter(ps, (p: Player) => p.id != id))
  {
    var f := (p: Player) => p.id != id;
    if |ps| > 0 {
      WithoutKeepsDistinctIds(ps[1..], id);
      var rest := JsArrays.Filter(ps[1..], f);
      forall j | 0 <= j < |rest| ensures rest[j].id != ps[0].id {
        assert rest[j] in ps[1..];
      }
    }
  }

  lemma {:induction false} WithoutKeepsDistinctPseudos(ps: seq<Player>, id: PlayerId)
    requires DistinctPseudos(ps)
    ensures DistinctPseudos(JsArrays.Filter(ps, (p: Player) => p.id != id))
  {
    var f := (p: Player) => p.id != id;
    if |ps| > 0 {
      WithoutKeepsDistinctPseudos(ps[1..], id);
      var rest := JsArrays.Filter(ps[1..], f);
      forall j | 0 <= j < |rest| ensures rest[j].pseudo != ps[0].pseudo {
        assert rest[j] in ps[1..];
      }
    }
  }

  lemma HostCountTwo(ps: seq<Player>)
    requires |ps| == 2
    ensures HostCount(ps) == (if ps[0].isHost then 1 else 0) + (if ps[1].isHost then 1 else 0)
  {
    var tail := ps[1..];
    assert tail[0] == ps[1] && tail[1..] == [];
    assert HostCount(tail) == (if ps[1].isHost then 1 else 0) + HostCount(tail[1..]);
  }

  lemma HostCountOne(ps: seq<Player>)
    requires |ps| == 1
    ensures HostCount(ps) == (if ps[0].isHost then 1 else 0)
  {
    assert ps[1..] == [];
  }

  /**
   * Removing a player of the room keeps the room invariant: when the host
   * leaves a 2-player room the other player is host afterwards, so a
   * non-empty room is never left without one.
   */
  lemma RemoveKeepsInvariant(m: Members, leaving: Player)
    requires MembersOk(m) && leaving in m.players
    ensures MembersOk(Remove(m, leaving))
    ensures |Remove(m, leaving).players| == |m.players| - 1
  {
    var k :| 0 <= k < |m.players| && m.players[k] == leaving;
    if TransferTarget(m, leaving).Some? {
      RemoveWithTransfer(m, leaving, k, TransferTarget(m, leaving).value);
    } else {
      RemoveWithoutTransfer(m, leaving, k);
    }
  }

  lemma RemoveWithTransfer(m: Members, leaving: Player, k: nat, i: nat)
    requires MembersOk(m) && k < |m.players| && m.players[k] == leaving
    requires TransferTarget(m, leaving) == Some(i)
    ensures MembersOk(Remove(m, leaving))
    ensures |Remove(m, leaving).players| == |m.players| - 1
  {
    var m1 := PromoteHost(m, i);
    HostCountTwo(m.players);
    HostCountTwo(m1.players);
    assert i != k;
    HostCountRemoveOne(m1.players, leaving.id, k);
    WithoutKeepsDistinctIds(m1.players, leaving.id);
    WithoutKeepsDistinctPseudos(m1.players, leaving.id);
    var r := Without(m1, leaving.id);
    LengthAfterRemoval(m1.players, leaving.id, k);
    assert |r.players| == 1;
    assert m1.players[i] in r.players;
    assert r.players[0] == m1.players[i];
  }

  lemma RemoveWithoutTransfer(m: Members, leaving: Player, k: nat)
    requires MembersOk(m) && k < |m.players| && m.players[k] == leaving
    requires TransferTarget(m, leaving).None?
    ensures MembersOk(Remove(m, leaving))
    ensures |Remove(m, leaving).players| == |m.players| - 1
  {
    HostCountRemoveOne(m.players, leaving.id, k);
    WithoutKeepsDistinctIds(m.players, leaving.id);
    WithoutKeepsDistinctPseudos(m.players, leaving.id);
    LengthAfterRemoval(m.players, leaving.id, k);
    var r := Without(m, leaving.id);
    forall j | 0 <= j < |r.players| && r.players[j].isHost
      ensures r.hostPlayerId == Some(r.players[j].id)
    {
      assert r.players[j] in m.players;
    }
    if |r.players| > 0 && !leaving.isHost {
      assert HostCount(r.players) == 1;
    }
  }

  lemma {:induction false} LengthAfterRemoval(ps: seq<Player>, id: PlayerId, k: nat)
    requires DistinctIds(ps) && k < |ps| && ps[k].id == id
    ensures |JsArrays.Filter(ps, (p: Player) => p.id != id)| == |ps| - 1
  {
    var f := (p: Player) => p.id != id;
    if k == 0 {
      forall j | 0 <= j < |ps[1..]| ensures f(ps[1..][j]) { assert ps[1..][j] == ps[j + 1]; }
      JsArrays.FilterAll(ps[1..], f);
    } else {
      LengthAfterRemoval(ps[1..], id, k - 1);
    }
  }

  /** When the host leaves a 2-player room, the remaining player is host and `hostPlayerId`. */
  lemma HostLeavesPair(m: Members, leaving: Player)
    requires MembersOk(m) && leaving in m.players && |m.players| == 2 && leaving.isHost
    ensures var r := Remove(m, leaving);
            |r.players| == 1 && r.players[0].isHost && r.hostPlayerId == Some(r.players[0].id)
            && r.players[0].id != leaving.id
  {
    RemoveKeepsInvariant(m, leaving);
    var r := Remove(m, leaving);
    HostCountOne(r.players);
  }

  // ---------------------------------------------------- ids of the records

  lemma UpdateKeepsIds(ps: seq<Player>, i: nat, p: Player)
    requires i < |ps| && p.id == ps[i].id
    ensures Ids(ps[i := p]) == Ids(ps)
  {
    var ps' := ps[i := p];
    forall q | q in ps' ensures q.id in Ids(ps) {
      var j :| 0 <= j < |ps'| && ps'[j] == q;
      assert ps[j] in ps;
    }
    forall q | q in ps ensures q.id in Ids(ps') {
      var j :| 0 <= j < |ps| && ps[j] == q;
      assert ps'[j] in ps';
    }
  }

  /**
   * A successful join adds the joining player's id to the room's ids: an
   * existing id on a reconnect, the fresh one on a creation.
   */
  lemma JoinIds(m: Members, pseudo: string, freshId: PlayerId, now: int)
    requires !Join(m, pseudo, freshId, now).Full?
    ensures var r := Join(m, pseudo, freshId, now);
            && Ids(r.members.players) == Ids(m.players) + {r.player.id}
            && (r.Rejoined? ==> r.player.id in Ids(m.players))
            && (r.Created? ==> r.player.id == freshId)
  {
    var r := Join(m, pseudo, freshId, now);
    if r.Rejoined? {
      var i := FindByPseudo(m.players, pseudo).value;
      UpdateKeepsIds(m.players, i, r.player);
      assert m.players[i] in m.players;
    } else {
      assert r.player in r.members.players;
      forall q | q in r.members.players ensures q.id in Ids(m.players) + {r.player.id} {
        var j :| 0 <= j < |r.members.players| && r.members.players[j] == q;
        if j < |m.players| { assert m.players[j] in m.players; }
      }
      forall q | q in m.players ensures q.id in Ids(r.members.players) {
        var j :| 0 <= j < |m.players| && m.players[j] == q;
        assert r.members.players[j] in r.members.players;
      }
    }
  }

  /**
   * Rewriting a record's other fields (`connected`, `currentScene`,
   * `lastSeenAt`) keeps the room invariant and the room's ids.
   */
  lemma RetouchKeepsInvariant(m: Members, i: nat, p: Player)
    requires MembersOk(m) && i < |m.players|
    requires p.id == m.players[i].id && p.pseudo == m.players[i].pseudo && p.isHost == m.players[i].isHost
    ensures MembersOk(m.(players := m.players[i := p]))
    ensures Ids(m.players[i := p]) == Ids(m.players)
  {
    HostCountUpdate(m.players, i, p);
    UpdateKeepsIds(m.players, i, p);
  }

  /** A removal deletes exactly the departing player's id. */
  lemma RemoveIds(m: Members, leaving: Player)
    ensures Ids(Remove(m, leaving).players) == Ids(m.players) - {leaving.id}
  {
    match TransferTarget(m, leaving)
    case Some(i) =>
      UpdateKeepsIds(m.players, i, m.players[i].(isHost := true));
    case None =>
  }
}
