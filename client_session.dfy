/**
 * The browser side's copy of its room, public/assets/main.js: the socket
 * handlers that reconcile the local player list, the error-code
 * normalisation and the chat send guard.
 */
module ClientSession {
  import opened Wrappers
  import opened Membership
  import JsArrays
  import ChatRules

  /** The room as the client keeps it: its code and its player list. */
  datatype ClientRoom = ClientRoom(code: string, players: seq<Player>)

  /** A `chat:send-message` payload. */
  datatype ChatSend = ChatSend(roomCode: string, authorId: PlayerId, text: string)

  // ------------------------------------------------------------- player list

  /** The filter's callback `p => p.id !== id`. */
  function Other(id: PlayerId): Player -> bool {
    (p: Player) => p.id != id
  }

  /** `players.filter(p => p.id !== id)`: every entry with that id removed. */
  function Dropped(ps: seq<Player>, id: PlayerId): (r: seq<Player>)
    ensures |r| <= |ps|
    ensures Ids(r) == Ids(ps) - {id}
    ensures forall i :: 0 <= i < |r| ==> r[i] in ps && r[i].id != id
    ensures forall q :: q in ps && q.id != id ==> q in r
  {
    var r := JsArrays.Filter(ps, Other(id));
    assert forall q :: q in ps && q.id != id ==> q in r by {
      forall q | q in ps && q.id != id ensures q in r {
        var j :| 0 <= j < |ps| && ps[j] == q;
      }
    }
    assert forall q :: q in r ==> q in ps && q.id != id by {
      forall q | q in r ensures q in ps && q.id != id {
        var j :| 0 <= j < |r| && r[j] == q;
      }
    }
    r
  }

  /**
   * Filter out `p`'s id, then push `p`: afterwards `p` is the last entry and
   * no other entry has its id, and every other player is still there.
   */
  function Upserted(ps: seq<Player>, p: Player): (r: seq<Player>)
    ensures |r| >= 1 && r[|r| - 1] == p
    ensures forall i :: 0 <= i < |r| - 1 ==> r[i].id != p.id && r[i] in ps
    ensures forall q :: q in ps && q.id != p.id ==> q in r[..|r| - 1]
    ensures Ids(r) == Ids(ps) + {p.id}
  {
    var r := Dropped(ps, p.id) + [p];
    assert r[..|r| - 1] == Dropped(ps, p.id);
    assert forall q :: q in r <==> q in Dropped(ps, p.id) || q == p;
    r
  }

  /** An id-distinct list stays id-distinct under an upsert. */
  lemma UpsertKeepsDistinct(ps: seq<Player>, p: Player)
    requires DistinctIds(ps)
    ensures DistinctIds(Upserted(ps, p))
  {
    WithoutKeepsDistinctIds(ps, p.id);
  }

  /** Removing a player who is listed once leaves the others in their order. */
  lemma DroppedKeepsOrder(a: seq<Player>, q: Player, b: seq<Player>)
    requires forall i :: 0 <= i < |a| ==> a[i].id != q.id
    requires forall i :: 0 <= i < |b| ==> b[i].id != q.id
    ensures Dropped(a + [q] + b, q.id) == a + b
  {
    var f := Other(q.id);
    assert forall i :: 0 <= i < |a| ==> f(a[i]);
    assert forall i :: 0 <= i < |b| ==> f(b[i]);
    JsArrays.FilterAll(a, f);
    JsArrays.FilterAll(b, f);
    assert JsArrays.Filter([q], f) == [] by {
      assert !f(q);
      assert [q][1..] == [];
    }
    var aq := a + [q];
    assert Dropped(aq + b, q.id) == JsArrays.Filter(aq + b, f);
    assert JsArrays.Filter(aq + b, f) == JsArrays.Filter(aq, f) + b by {
      JsArrays.FilterAppend(aq, b, f);
    }
    assert JsArrays.Filter(aq, f) == a by {
      JsArrays.FilterAppend(a, [q], f);
    }
  }

  /** An upsert of a listed player moves it to the end and keeps the rest in order. */
  lemma UpsertMovesToEnd(a: seq<Player>, q: Player, b: seq<Player>, p: Player)
    requires p.id == q.id
    requires forall i :: 0 <= i < |a| ==> a[i].id != q.id
    requires forall i :: 0 <= i < |b| ==> b[i].id != q.id
    ensures Upserted(a + [q] + b, p) == a + b + [p]
  {
    DroppedKeepsOrder(a, q, b);
  }

  /** `players.map(p => ({...p, isHost: p.id === playerId}))`. */
  function WithHost(ps: seq<Player>, playerId: PlayerId): (r: seq<Player>)
    ensures |r| == |ps|
    ensures forall i :: 0 <= i < |r| ==> r[i] == ps[i].(isHost := ps[i].id == playerId)
  {
    seq(|ps|, i requires 0 <= i < |ps| => ps[i].(isHost := ps[i].id == playerId))
  }

  /**
   * After `host-changed` an id-distinct list has exactly one host when the
   * id is listed and none when it is not.
   */
  lemma {:induction false} WithHostCount(ps: seq<Player>, playerId: PlayerId)
    requires DistinctIds(ps)
    ensures HostCount(WithHost(ps, playerId)) == if playerId in Ids(ps) then 1 else 0
  {
    if |ps| > 0 {
      var r := WithHost(ps, playerId);
      assert r[1..] == WithHost(ps[1..], playerId);
      WithHostCount(ps[1..], playerId);
      assert ps[0] in ps;
      assert Ids(ps) == {ps[0].id} + Ids(ps[1..]) by {
        forall q | q in ps ensures q == ps[0] || q in ps[1..] {
          var j :| 0 <= j < |ps| && ps[j] == q;
          if j > 0 { assert ps[1..][j - 1] == q; }
        }
      }
      if ps[0].id == playerId {
        forall q | q in ps[1..] ensures q.id != playerId {
          var j :| 0 <= j < |ps[1..]| && ps[1..][j] == q;
          assert ps[j + 1] == q;
        }
      }
    }
  }

  // ------------------------------------------------------------- errors

  /** The codes the client subscribes to. */
  const RawErrors: seq<string> := [
    "error:full", "errors:full", "error:not-found", "error:not-authorized",
    "error:invalid-scene-change", "room:full", "room:not-found"
  ]

  /** The mapping of server error codes onto one naming. */
  function Normalize(code: string): (r: string)
    ensures r == code || r in ["room:full", "room:not-found", "room:not-authorized", "room:invalid-scene-change"]
  {
    if code == "errors:full" || code == "error:full" || code == "room:full" then "room:full"
    else if code == "error:not-found" || code == "room:not-found" then "room:not-found"
    else if code == "error:not-authorized" then "room:not-authorized"
    else if code == "error:invalid-scene-change" then "room:invalid-scene-change"
    else code
  }

  /** A normalised code normalises to itself, and every subscribed code lands on a `room:` name. */
  lemma NormalizeIdempotent(code: string)
    ensures Normalize(Normalize(code)) == Normalize(code)
    ensures code in RawErrors ==>
              Normalize(code) in ["room:full", "room:not-found", "room:not-authorized", "room:invalid-scene-change"]
  {
  }

  /** The three spellings of "full" and the two of "not found" are merged, and nothing else is. */
  lemma NormalizeMerges(code: string)
    requires code in RawErrors
    ensures Normalize(code) == "room:full" <==> code in ["error:full", "errors:full", "room:full"]
    ensures Normalize(code) == "room:not-found" <==> code in ["error:not-found", "room:not-found"]
  {
  }

  // ------------------------------------------------------------- the client

  class Client {
    var room: Option<ClientRoom>
    var self: Option<Player>
    /** The normalised codes handed to `onError`, in order. */
    var errors: seq<string>
    /** The chat messages sent, in order. */
    var outbox: seq<ChatSend>
    /** Whether an `onError` listener was given. */
    const hasErrorListener: bool

    constructor (hasErrorListener: bool)
      ensures room.None? && self.None? && errors == [] && outbox == []
      ensures this.hasErrorListener == hasErrorListener
    {
      room := None;
      self := None;
      errors := [];
      outbox := [];
      this.hasErrorListener := hasErrorListener;
    }

    /**
     * `room:new-player`, `room:player-disconnected` and `room:reconnected`
     * all filter the player's id out and push the player; before any room
     * is known the handler throws and nothing changes.
     */
    method OnPlayerUpsert(p: Player)
      modifies this
      ensures old(room).None? ==> room == old(room)
      ensures old(room).Some? ==> room == Some(old(room).value.(players := Upserted(old(room).value.players, p)))
      ensures self == old(self) && errors == old(errors) && outbox == old(outbox)
    {
      if room.None? {
        return;
      }
      var players := Dropped(room.value.players, p.id);
      players := players + [p];
      room := Some(room.value.(players := players));
    }

    /** `room:player-left`: every entry with the player's id goes. */
    method OnPlayerLeft(p: Player)
      modifies this
      ensures old(room).None? ==> room == old(room)
      ensures old(room).Some? ==> room == Some(old(room).value.(players := Dropped(old(room).value.players, p.id)))
      ensures self == old(self) && errors == old(errors) && outbox == old(outbox)
    {
      if room.None? {
        return;
      }
      room := Some(room.value.(players := Dropped(room.value.players, p.id)));
    }

    /** `room:host-changed`: when a room is known, exactly the named player is flagged host. */
    method OnHostChanged(playerId: PlayerId)
      modifies this
      ensures old(room).None? ==> room == old(room)
      ensures old(room).Some? ==> room == Some(old(room).value.(players := WithHost(old(room).value.players, playerId)))
      ensures self == old(self) && errors == old(errors) && outbox == old(outbox)
    {
      if room.Some? {
        room := Some(room.value.(players := WithHost(room.value.players, playerId)));
      }
    }

    /** `room:joined`: the room and the player's own record are replaced. */
    method OnJoined(r: ClientRoom, me: Player)
      modifies this
      ensures room == Some(r) && self == Some(me)
      ensures errors == old(errors) && outbox == old(outbox)
    {
      room := Some(r);
      self := Some(me);
    }

    /** An error event reaches `onError`, normalised, only when its code is subscribed and a listener exists. */
    method OnError(code: string)
      modifies this
      ensures code in RawErrors && hasErrorListener ==> errors == old(errors) + [Normalize(code)]
      ensures !(code in RawErrors && hasErrorListener) ==> errors == old(errors)
      ensures room == old(room) && self == old(self) && outbox == old(outbox)
    {
      if code in RawErrors && hasErrorListener {
        errors := errors + [Normalize(code)];
      }
    }

    /** `sendMessage`: nothing without a room and a self; otherwise the first 500 characters. */
    method SendMessage(text: string)
      modifies this
      ensures old(room).None? || old(self).None? ==> outbox == old(outbox)
      ensures old(room).Some? && old(self).Some? ==>
                && |outbox| == |old(outbox)| + 1
                && outbox[..|old(outbox)|] == old(outbox)
                && var sent := outbox[|outbox| - 1];
                   && sent.roomCode == old(room).value.code && sent.authorId == old(self).value.id
                   && sent.text <= text
                   && |sent.text| == if |text| <= ChatRules.MaxLength then |text| else ChatRules.MaxLength
      ensures room == old(room) && self == old(self) && errors == old(errors)
    {
      if room.None? || self.None? {
        return;
      }
      var n := if |text| <= ChatRules.MaxLength then |text| else ChatRules.MaxLength;
      outbox := outbox + [ChatSend(room.value.code, self.value.id, text[..n])];
    }
  }

  /**
   * A truncated message always fits the server's length limit, so the
   * server accepts it exactly when its text is not blank.
   */
  lemma TruncatedFitsServer(text: string, sent: string)
    requires sent <= text && |sent| == if |text| <= ChatRules.MaxLength then |text| else ChatRules.MaxLength
    ensures ChatRules.Accepts(sent) <==> exists i :: 0 <= i < |sent| && !ChatRules.IsTrimmable(sent[i])
  {
    ChatRules.AcceptsIff(sent);
  }
}
