# Escape game rooms, in Dafny

A model of the room engine of a two-player browser escape game, with proofs
about it. Players create a room over REST and get a six-character code.
They join it by pseudo over a socket. The host starts a one-second game
clock, and players move between a hub scene (`main`), four puzzle scenes
(`enigma1`…`enigma4`) and a `finale`. The shared puzzle state sits in the
room record, and every change is broadcast to the room.

The repository has three generations of the room server, and all three are
modelled:

- `server/room.js` with `server/game.js` and the four `server/enigmas/*.js`
  handlers: class `RoomSocket.Server`.
- The earlier `server/RoomManager.js`: class `RoomManagerSocket.Manager`.
- The oldest `server/index.js`: class `LegacySocket.LegacyServer`.

Two client-side reconcilers are modelled as well:

- the player list and error handling of `public/assets/main.js`: class `ClientSession.Client`;
- the casting map of `public/assets/scenes/enigma3.js`: class `CastingScene.Casting`.

Layout:

- `wrappers.dfy`: `Option`.
- `js_arrays.dfy`: `find`/`findIndex`, `filter`, and JavaScript array
  assignment past the end (holes read back as `null`).
- `room_codes.dfy`: the code generator, with the random draws as a parameter.
- `membership.dfy`: join by pseudo, the two-player cap, host assignment,
  host transfer and deletion, and the room invariant.
- `chat.dfy`: the `trim()`/500-character guard on chat messages.
- `game_rules.dfy`: the scene-change guard and one tick of the game clock.
- `enigma1.dfy` … `enigma4.dfy`: the puzzle rows and their handlers' pure steps.
- `protocol.dfy`: the room aggregate, messages, timers, the per-connection
  state, and the store invariants shared by the two newer servers.
- `room_socket.dfy`, `room_manager.dfy`, `legacy_socket.dfy`: the servers as classes.
- `client_session.dfy`, `casting_scene.dfy`: the client reconcilers.

How the model works:

- The database is a `map` from room code to room record.
- Every socket handler is one method. It either runs completely or, where
  the JavaScript would throw (a `null` dereference, or a store call on a
  missing row), changes nothing.
- Broadcasts and replies are appended to `log`. Each carries a target: the
  room's channel or one connection.
- Every `setTimeout` becomes an entry of `timers`. It runs when the
  matching `Fire…` method is called. `clearTimeout` removes the entry.
- The clock (`now`) and `Math.random` (`picks`) are parameters.

Where the repository's design description and its code differ, the model
follows the code:

- A reconnect on a new connection cancels only that connection's own
  pending handles. The removal timer started by the old connection still
  fires (`Protocol.CancelledBy`). The legacy server cancels nothing.
- The legacy server removes a disconnected player after 10 s, not 60 s. It
  never reuses a pseudo, makes a joiner host only at creation, and runs the
  host transfer in the room named by the code it was given. That can be a
  different room (`LegacySocket.ForeignCodePromotesInOtherRoom`).
- The room teardown does not check whether someone joined in the meantime.
- Errors use the names `error:not-found` and `errors:full` (`room.js`),
  `error:not-found`, `error:not-authorized` and
  `error:invalid-scene-change` (`game.js`), `error:no-found`
  (`enigmas/enigma1.js`), and `room:not-found`, `room:full`
  (`RoomManager.js`, `index.js`).
- The enigma 3 check has no length test, so an empty or partly correct
  cast completes it.
- Enigma 4's handlers are registered under the enigma 3 event names, so
  both run on each `enigma3:*` event.

Player ids are assigned by the database and are never falsy: the
servers hand them out from 1, and the source's `if (!player)` guards
appear as `None` tests.

## Model

| member | source | states |
|---|---|---|
| RoomCodes.GenerateRoomCode | server/room.js:24-33 | the code has six characters, each the alphabet character at the corresponding draw |
| RoomCodes.AlphabetShape | server/room.js:25 | the alphabet has 33 characters and leaves out I, O and 0 |
| RoomCodes.NoConfusableGlyphs | server/room.js:21-33 | no room code contains I, O or 0 |
| RoomCodes.CodeDeterminesPicks | server/room.js:24-33 | the code determines the six draws, so distinct draws give distinct codes |
| Membership.FindByPseudo | server/room.js:161 | finds the first record with that pseudo, and finds none exactly when no record has it |
| Membership.FindById | server/game.js:44 | finds a record with that id, and finds none exactly when no record has it |
| Membership.Join | server/room.js:161-203 | a known pseudo reuses its record, marked connected. A new pseudo is refused at two players. Otherwise it gets a new record that is host, and `hostPlayerId`, exactly when the room was empty |
| Membership.JoinKeepsInvariant | server/room.js:161-203 | a join keeps the room invariant: at most two players, distinct ids and pseudos, exactly one host (the one `hostPlayerId` names) while the room is not empty |
| Membership.JoinRespectsCap | server/room.js:177 | no join takes a room past two players |
| Membership.RejoinCreatesNoRecord | server/room.js:164-176 | a known pseudo keeps the room's ids and count and marks the record connected |
| Membership.JoinIds | server/room.js:161-186 | a join adds exactly the joiner's id: the existing one on a rejoin, the fresh one on a creation |
| Membership.TransferTarget | server/room.js:296-312 | a transfer happens exactly when the room has two players and the leaver is host. It picks the other player |
| Membership.PromoteHost | server/room.js:300-312 | the chosen player is flagged host and becomes `hostPlayerId`; nothing else changes |
| Membership.Without | server/room.js:314 | the deletion removes exactly the leaver's id and keeps `hostPlayerId` |
| Membership.Remove | server/room.js:296-314 | the leaver's id is gone. When a transfer is due, `hostPlayerId` names the transfer target and no longer the leaver; otherwise it is kept |
| Membership.RemoveKeepsInvariant | server/room.js:296-314 | the removal keeps the room invariant and removes exactly one player |
| Membership.HostLeavesPair | server/room.js:296-312 | when the host leaves a pair, the remaining player is host and `hostPlayerId` |
| Membership.RetouchKeepsInvariant | server/room.js:164-176 | rewriting `connected`, `currentScene` or `lastSeenAt` keeps the invariant and the ids |
| Membership.RemoveIds | server/room.js:296-314 | a removal deletes exactly the leaver's id |
| ChatRules.Trim | server/room.js:113 | `trim()` returns the segment of the text that starts where the leading white space ends, and that neither starts nor ends with white space or a line terminator |
| ChatRules.Accepts | server/room.js:113 | a stored message is not empty and has at most 500 characters |
| ChatRules.TrimEmptyIff | server/room.js:113 | the trimmed text is empty exactly when every character is white space or a line terminator |
| ChatRules.AcceptsIff | server/room.js:113 | a message is stored exactly when it has at most 500 characters and a visible character |
| GameRules.DecideSceneChange | server/game.js:96-118 | a request for the current scene changes nothing |
| GameRules.AcceptedIff | server/game.js:96-118 | a change is accepted exactly when it goes elsewhere and targets `main` or `finale`, or goes from `main` into an enigma |
| GameRules.GuardScenarios | server/game.js:100-118 | main→enigma2 and enigma2→main are accepted, enigma4→finale is accepted, enigma2→enigma3 and main→lobby are refused |
| GameRules.WalkStaysInScenes | server/game.js:82-150 | from a known scene, no sequence of requests leaves the known scenes |
| GameRules.EnigmaToEnigmaNeedsMain | server/game.js:100-118 | a direct move between two different enigmas is refused |
| GameRules.Tick | server/game.js:168-249 | the loop is rescheduled exactly while the clock runs or time is left |
| GameRules.TickWin | server/game.js:168-180 | with all gating enigmas completed, a running clock stops with its time unchanged |
| GameRules.TickDecrements | server/game.js:181-200 | otherwise a running clock above zero loses exactly one second |
| GameRules.TickTimeout | server/game.js:201-239 | a running clock at zero stops with a game over, and the loop ends |
| GameRules.TickStoppedFrozen | server/game.js:168-249 | a tick never changes a stopped clock |
| GameRules.GameOverOnlyOnTimeout | server/game.js:201-239 | game over is announced exactly by the tick that stops a running clock at zero without a win |
| GameRules.Run | server/game.js:152-250 | over any run of ticks the clock never rises, and a stopped clock stays stopped |
| GameRules.RunBounds | server/game.js:152-250 | over any number of ticks the clock never rises and never drops below zero |
| GameRules.RunAfterStop | server/game.js:152-250 | a stopped clock stays stopped and keeps its value |
| GameRules.RunAfterWin | server/game.js:168-180 | once all gating enigmas are completed the clock never changes again |
| GameRules.RunCountsDown | server/game.js:181-200 | n ticks without a win remove exactly n seconds while n ≤ timer |
| Enigma1Puzzle.FindName | server/enigmas/enigma1.js:52-58 | `find` by name returns the first storyboard with that name, and none exactly when no storyboard has it |
| Enigma1Puzzle.Moved | server/enigmas/enigma1.js:46-61 | a move that succeeds keeps the number of storyboards and each one's name and slot index |
| Enigma1Puzzle.ApplyMoves | server/enigmas/enigma1.js:46-61 | the handler's loop computes the left-to-right application of the moves, failing on the first unknown key |
| Enigma1Puzzle.MovedFailsIff | server/enigmas/enigma1.js:46-61 | a move fails exactly when one of its keys names no storyboard |
| Enigma1Puzzle.MovedPositions | server/enigmas/enigma1.js:46-61 | names and slots are kept. The storyboard found for a name stands where the last entry for it put it, and every other storyboard stays put |
| Enigma1Puzzle.UnnamedStaysPut | server/enigmas/enigma1.js:46-61 | a storyboard no entry names keeps its position |
| Enigma1Puzzle.NoEntryNoMove | server/enigmas/enigma1.js:46-61 | a name with no entry has no requested position |
| Enigma1Puzzle.Swapped | server/enigmas/enigma1.js:107-125 | a swap that succeeds keeps the number of storyboards and each one's name and position |
| Enigma1Puzzle.SwapFailsIff | server/enigmas/enigma1.js:107-125 | a swap fails exactly when one of the two names is unknown |
| Enigma1Puzzle.SwapEffect | server/enigmas/enigma1.js:107-125 | a swap exchanges the two slot indices and changes nothing else |
| Enigma1Puzzle.SwapSelf | server/enigmas/enigma1.js:107-125 | swapping a storyboard with itself changes nothing |
| Enigma1Puzzle.SwapInvolution | server/enigmas/enigma1.js:107-125 | the same swap twice restores the arrangement |
| Enigma2Puzzle.PadTo5 | server/enigmas/enigma2.js:29-33 | the photos are padded with `""` to at least five entries, keeping the existing ones |
| Enigma2Puzzle.Updated | server/enigmas/enigma2.js:29-33 | the lighting (or `""`) is at the index, and every other slot is the old value or padding |
| Enigma2Puzzle.PadAndWrite | server/enigmas/enigma2.js:16-57 | the handler's copy-pad-assign loop computes the update |
| Enigma2Puzzle.Reset | server/enigmas/enigma2.js:71-92 | a reset gives five empty slots and keeps `completed` |
| Enigma2Puzzle.IsCorrect | server/enigmas/enigma2.js:108-120 | a correct arrangement has no empty or missing slot |
| Enigma2Puzzle.Submit | server/enigmas/enigma2.js:108-140 | afterwards completed holds exactly when it was already set or the photos are correct; the photos are kept |
| Enigma2Puzzle.CorrectIsSolution | server/enigmas/enigma2.js:108-120 | the only correct arrangement is the solution itself |
| Enigma2Puzzle.ResetAfterSuccess | server/enigmas/enigma2.js:59-140 | a reset after a success empties the slots but keeps `completed` |
| Enigma2Puzzle.LatchHolds | server/enigmas/enigma2.js:59-140 | a completed row stays completed under submit and reset |
| Enigma2Puzzle.CompletedIsMonotone | server/enigmas/enigma2.js:16-149 | no sequence of updates, resets and submits clears `completed` |
| Enigma3Puzzle.Updated | server/enigmas/enigma3.js:29-30 | the role is at the index, the other slots are kept, and any gap reads back as `null` |
| Enigma3Puzzle.EveryMatches | server/enigmas/enigma3.js:72-83 | a passing check has no `null` slot and only cast names |
| Enigma3Puzzle.Submit | server/enigmas/enigma3.js:72-107 | afterwards completed holds exactly when it was already set or every stored role matches the solution at its index |
| Enigma3Puzzle.EveryMatchesIffPrefix | server/enigmas/enigma3.js:72-83 | the check passes exactly when the roles are a prefix of the solution |
| Enigma3Puzzle.EmptyRolesComplete | server/enigmas/enigma3.js:72-83 | an empty roles array passes the check |
| Enigma3Puzzle.OneCorrectSlotCompletes | server/enigmas/enigma3.js:72-83 | a single correct first role passes the check |
| Enigma3Puzzle.HoleFailsCheck | server/enigmas/enigma3.js:72-83 | a `null` gap before a role fails the check |
| Enigma3Puzzle.UpdateIsLocal | server/enigmas/enigma3.js:29-30 | an update changes no slot other than the written one |
| Enigma3Puzzle.LatchHolds | server/enigmas/enigma3.js:85-107 | a completed row stays completed under update and submit |
| Enigma4Puzzle.UpdateAmbiance | server/enigmas/enigma4.js:28-44 | an absent field changes nothing, `null` clears the ambiance, a value sets it; `completed` is kept |
| Enigma4Puzzle.Submit | server/enigmas/enigma4.js:49-83 | submit never changes the row |
| Enigma4Puzzle.NeverCompletes | server/enigmas/enigma4.js:16-83 | no sequence of updates and submits completes enigma 4 |
| Protocol.NewRoom | server/room.js:46-71 | a new room is not started, has the default timer, no players, and four empty enigma rows |
| Protocol.JoinedSocket | server/room.js:222-233 | after a join the connection holds the room and the player, and the two handles of that room and player are dropped; every other handle is kept |
| Protocol.CancelledBy | server/room.js:225-233 | a join cancels only handles this connection recorded, and it cancels those of the joined room and player |
| Protocol.LocateInOwnRoom | server/room.js:255-269 | a connection's player exists anywhere exactly when it is in the connection's own room |
| Protocol.DeleteRoomKeepsOk | server/room.js:330-339 | deleting a room (players included) keeps the store and connection invariants |
| Protocol.JoinKeepsOk | server/room.js:161-236 | a successful join keeps the store and connection invariants |
| Protocol.RemoveKeepsOk | server/room.js:296-314 | removing a player keeps the store and connection invariants |
| Protocol.RetouchKeepsOk | server/room.js:255-265 | rewriting a record's non-identifying fields keeps every invariant |
| RoomSocket.Server.constructor | server/room.js:44-45 | the server starts with no rooms, connections, timers or messages |
| RoomSocket.Server.RoomExists | server/room.js:74-79 | the check answers exactly whether a room has that code |
| RoomSocket.Server.History | server/room.js:82-100 | an unknown code is refused; otherwise the answer holds exactly the room's stored messages |
| RoomSocket.Server.Connect | server/room.js:102-109 | a new connection names no room and no player and has empty handle maps |
| RoomSocket.Server.CreateRoom | server/room.js:46-71 | a fresh code gets a new room; a code in use writes nothing |
| RoomSocket.Server.SendChat | server/room.js:112-138 | a blank or over-long text, or a connection without a player, stores nothing. Otherwise the message is stored and broadcast |
| RoomSocket.Server.Join | server/room.js:141-240 | the refusals, then the membership join, the broadcast, the connection state, the clearing of only this connection's handles, and the reply |
| RoomSocket.Server.Enter | server/room.js:161-236 | after both refusals: the membership join is written, the room is told of the new or reconnected player, the connection names the room and player, its own handles for them are cleared, and the joiner gets the room |
| RoomSocket.Server.RemovePlayer | server/room.js:278-342 | nothing when the record is gone. Otherwise transfer, delete, the broadcasts, and a teardown timer when the room is left empty |
| RoomSocket.Server.RemoveRecord | server/room.js:296-327 | the transfer, the deletion and the broadcasts of a found record |
| RoomSocket.Server.ScheduleTeardown | server/room.js:330-341 | an emptied room's teardown is scheduled in 60 s under this connection |
| RoomSocket.Server.Leave | server/room.js:242-245 | `room:leave` is a removal now |
| RoomSocket.Server.Disconnect | server/room.js:247-269 | an existing record is marked disconnected, the room is told, and its removal is scheduled in 60 s |
| RoomSocket.Server.MarkDisconnected | server/room.js:255-268 | a found record is marked disconnected, the room is told, and a removal under this connection is scheduled in 60 s and recorded in its handle map |
| RoomSocket.Server.FireRemoval | server/room.js:266-268 | the removal timer runs the removal with the connection's state at that time |
| RoomSocket.Server.FireTeardown | server/room.js:331-339 | the teardown deletes the room whatever happened since; a missing room throws and nothing changes |
| RoomSocket.Server.StartGame | server/game.js:20-80 | the refusals, or the start: started, broadcast, sent to `main`, first tick in one second |
| RoomSocket.Server.Launch | server/game.js:56-79 | the room is marked started, `game:started` and the move to `main` are broadcast, and the first tick is scheduled in one second |
| RoomSocket.Server.ChangeScene | server/game.js:82-150 | same scene: nothing; refused: `error:invalid-scene-change`; accepted: stored and confirmed to this connection only |
| RoomSocket.Server.FireTick | server/game.js:152-250 | one tick on the room, game over when the clock ran out, a timer update, and the next tick while the clock runs or time is left |
| RoomSocket.Server.PutRoom | server/enigmas/enigma1.js:63-79 | the enigma handlers' `prisma.room.update` write (also enigma1.js:132 and 177, enigma2.js:35, 71 and 123, enigma3.js:32 and 86, enigma4.js:28 and 63): the room is replaced without touching its players, and every invariant is kept |
| RoomSocket.Server.Enigma1Move | server/enigmas/enigma1.js:25-86 | all keys known: the positions are written and the moves broadcast; otherwise `error:no-found` and nothing written |
| RoomSocket.Server.Enigma1Swap | server/enigmas/enigma1.js:88-161 | both names known: the indices are exchanged and broadcast; otherwise `error:no-found` |
| RoomSocket.Server.Enigma1Submit | server/enigmas/enigma1.js:163-203 | nothing is written; the room gets the current flag |
| RoomSocket.Server.Enigma2Update | server/enigmas/enigma2.js:16-57 | the padded update is written and broadcast |
| RoomSocket.Server.Enigma2Reset | server/enigmas/enigma2.js:59-93 | five empty slots are written, `completed` kept |
| RoomSocket.Server.Enigma2Submit | server/enigmas/enigma2.js:95-149 | the latch is written and its flag always broadcast |
| RoomSocket.Server.Enigma3Update | server/enigmas/enigma3.js:16-51 | the enigma 3 handler writes the role and sends the room with no event; the enigma 4 handler then writes the ambiance and sends a room update |
| RoomSocket.Server.Enigma3Submit | server/enigmas/enigma3.js:53-116 | the enigma 3 latch is written and its result sent, then the enigma 4 handler sends the room with no event |
| RoomManagerSocket.Manager.constructor | server/RoomManager.js:35-36 | the server starts with no rooms, connections or timers |
| RoomManagerSocket.Manager.RoomExists | server/RoomManager.js:65-70 | the check answers exactly whether a room has that code |
| RoomManagerSocket.Manager.Connect | server/RoomManager.js:73-78 | a new connection names nothing and has empty closure maps |
| RoomManagerSocket.Manager.CreateRoom | server/RoomManager.js:37-62 | a fresh code gets a new room; a code in use writes nothing |
| RoomManagerSocket.Manager.Join | server/RoomManager.js:81-180 | `room:not-found`, `room:full`, or the membership join with its broadcast and the clearing of this connection's handles |
| RoomManagerSocket.Manager.Enter | server/RoomManager.js:117-176 | after both refusals: the membership join, the broadcast, the connection's variables, the clearing of its handles and the reply |
| RoomManagerSocket.Manager.RemovePlayer | server/RoomManager.js:215-279 | nothing when the record is gone; otherwise transfer, delete, broadcasts, and a teardown when the room is emptied |
| RoomManagerSocket.Manager.RemoveRecord | server/RoomManager.js:232-277 | the found-record part of the removal |
| RoomManagerSocket.Manager.Leave | server/RoomManager.js:182-185 | `room:leave` is a removal now |
| RoomManagerSocket.Manager.Disconnect | server/RoomManager.js:187-206 | the record is marked disconnected, the room told, and the removal scheduled in 60 s |
| RoomManagerSocket.Manager.MarkDisconnected | server/RoomManager.js:195-205 | a found record is marked disconnected, the room is told, and its removal is scheduled in 60 s |
| RoomManagerSocket.Manager.FireRemoval | server/RoomManager.js:203-205 | the timer runs the removal with the connection's current variables |
| RoomManagerSocket.Manager.FireTeardown | server/RoomManager.js:268-276 | the room goes only when the row deletes by their own id succeed; otherwise nothing changes |
| LegacySocket.Admit | server/index.js:76-86 | refused exactly at two players or more. Otherwise a new non-host record is appended and `hostPlayerId` is kept |
| LegacySocket.AdmitAddsNoHost | server/index.js:80-86 | a join never adds a host |
| LegacySocket.AdmitIntoEmptyRoomHasNoHost | server/index.js:76-86 | a room emptied by removals takes its next player without a host |
| LegacySocket.PseudoIsNotReused | server/index.js:80-86 | the same pseudo joining twice gets two records |
| LegacySocket.Promoted | server/index.js:129-137 | the transfer keeps the set of rooms |
| LegacySocket.PromotionEmits | server/index.js:129-137 | at most one `room:host-changed`, on the code's channel. It names the host that the promoted room records |
| LegacySocket.Removed | server/index.js:124-148 | the room set is kept; transfer in the code's room, deletion in the player's own room |
| LegacySocket.RemovedInOwnRoom | server/index.js:129-138 | with the player's own code the removal is the shared membership removal, host change included |
| LegacySocket.ForeignCodePromotesInOtherRoom | server/index.js:127-137 | with another two-player room's code, the host's leaving makes that room's first other player a second host there |
| LegacySocket.RemovedKeepsStoreOk | server/index.js:124-148 | the removal keeps the legacy store invariant |
| LegacySocket.LegacyServer.constructor | server/index.js:63-65 | the server starts with no rooms, connections or timers |
| LegacySocket.LegacyServer.Connect | server/index.js:68-70 | a new connection has no current room or player |
| LegacySocket.LegacyServer.CreateRoom | server/index.js:35-53 | a fresh code gets a room whose creator is host and `hostPlayerId`; a code in use creates nothing |
| LegacySocket.LegacyServer.RoomExists | server/index.js:56-61 | the check answers exactly whether a room has that code |
| LegacySocket.LegacyServer.Join | server/index.js:76-94 | `room:not-found`, `room:full`, or the admission, the connection's variables, the player list broadcast and the reply |
| LegacySocket.LegacyServer.Reconnect | server/index.js:96-109 | an unknown player or code gets `room:not-found`. Otherwise the record is marked connected, the named room gets its list, and no timer is cancelled |
| LegacySocket.LegacyServer.RemovePlayer | server/index.js:124-148 | `PlayerRemoved`: nothing for a missing record. Otherwise the removal, the promotion emit, the broadcast of the code's room (`[]` when gone), and a 60 s deletion when it is left empty |
| LegacySocket.LegacyServer.RemoveRecord | server/index.js:129-141 | the transfer, the deletion and the broadcasts |
| LegacySocket.LegacyServer.ScheduleDeletion | server/index.js:143-147 | the deletion timer is added and recorded in `roomTimers` |
| LegacySocket.LegacyServer.Leave | server/index.js:111-114 | nothing without a player. Otherwise `PlayerRemoved` happens now, with the connection's player and room; no timer is cancelled |
| LegacySocket.LegacyServer.Disconnect | server/index.js:116-122 | the record is marked disconnected, with no broadcast, and the removal is scheduled in 10 s |
| LegacySocket.LegacyServer.FireRemoval | server/index.js:119-121 | the handle is spent. `PlayerRemoved` then runs with the connection's player and room at firing time, and nothing else happens without a player |
| LegacySocket.LegacyServer.FireDeletion | server/index.js:144-146 | the room is deleted whatever joined since |
| ClientSession.Dropped | public/assets/main.js:85-90 | every entry with the id goes, and every other entry stays |
| ClientSession.Upserted | public/assets/main.js:69-75 | the player is the last entry and no other entry has its id; all other players stay |
| ClientSession.UpsertKeepsDistinct | public/assets/main.js:69-83 | an id-distinct list stays id-distinct |
| ClientSession.DroppedKeepsOrder | public/assets/main.js:85-90 | removing a listed player keeps the others in order |
| ClientSession.UpsertMovesToEnd | public/assets/main.js:110-119 | an upsert moves the player to the end and keeps the rest in order |
| ClientSession.WithHost | public/assets/main.js:92-102 | each player's host flag becomes "its id is the named one" |
| ClientSession.WithHostCount | public/assets/main.js:92-102 | on an id-distinct list, exactly one host when the id is listed and none otherwise |
| ClientSession.Normalize | public/assets/main.js:158-172 | a code is kept, or mapped onto one of the four `room:` names |
| ClientSession.NormalizeIdempotent | public/assets/main.js:153-175 | normalising twice is normalising once, and every subscribed code maps to a `room:` name |
| ClientSession.NormalizeMerges | public/assets/main.js:143-175 | the three "full" spellings and the two "not found" spellings are merged, and only those |
| ClientSession.Client.constructor | public/assets/main.js:215-221 | no room and no self at first |
| ClientSession.Client.OnPlayerUpsert | public/assets/main.js:69-83 | new-player, player-disconnected and reconnected upsert the player when a room is known |
| ClientSession.Client.OnPlayerLeft | public/assets/main.js:85-90 | player-left drops the player's entries |
| ClientSession.Client.OnHostChanged | public/assets/main.js:92-102 | host-changed reflags the players only when a room is known |
| ClientSession.Client.OnJoined | public/assets/main.js:104-108 | joined replaces room and self |
| ClientSession.Client.OnError | public/assets/main.js:143-175 | only subscribed codes reach the listener, normalised |
| ClientSession.Client.SendMessage | public/assets/main.js:199-206 | nothing without room and self. Otherwise one message with the room code, the author id and the first 500 characters |
| ClientSession.TruncatedFitsServer | public/assets/main.js:203 | a truncated message always fits the server's length limit, so it is accepted exactly when it is not blank |
| CastingScene.CellAt | public/assets/scenes/enigma3.js:198-206 | `this.roles[i]` is role i for the six indices and `undefined` past them |
| CastingScene.Fresh | public/assets/scenes/enigma3.js:62-65 | every character key maps to `null` |
| CastingScene.Claimed | public/assets/scenes/enigma3.js:534-543 | after a claim the key shows the value and no other key shows it. Other keys are kept, or cleared if they showed it |
| CastingScene.ClaimKeepsInjective | public/assets/scenes/enigma3.js:534-543 | a claim never makes two characters share a role |
| CastingScene.Synced | public/assets/scenes/enigma3.js:193-207 | the sync keeps every key and adds only keys that some server entry names |
| CastingScene.SyncKeepsInjective | public/assets/scenes/enigma3.js:192-208 | the sync never makes two characters share a role |
| CastingScene.SyncShowsLastClaim | public/assets/scenes/enigma3.js:192-208 | a character stored at role index i < 6, and at no later index, shows role i after the sync |
| CastingScene.SyncKeepsUnclaimed | public/assets/scenes/enigma3.js:193-207 | a character no entry names keeps its value, unless an entry claims the role it shows |
| CastingScene.OverlongSyncLeavesUndefined | public/assets/scenes/enigma3.js:193-206 | an entry past the sixth leaves `undefined`, which counts as assigned |
| CastingScene.Restored | public/assets/scenes/enigma3.js:93-98 | the restore keeps every key, and the last saved entry, when truthy, shows the role at its index |
| CastingScene.RestoredKeys | public/assets/scenes/enigma3.js:93-98 | the restore adds only keys a saved entry names; each key keeps its value or shows a role |
| CastingScene.RestoreKeepsUnnamed | public/assets/scenes/enigma3.js:93-98 | a character no saved entry names keeps its value |
| CastingScene.RestoreShowsLastClaim | public/assets/scenes/enigma3.js:93-96 | a truthy saved entry at index i, named at no later index, shows role i |
| CastingScene.RestoreFromFreshIsInjective | public/assets/scenes/enigma3.js:90-99 | restoring into the constructor's map gives no shared roles |
| CastingScene.RestoreDoesNotClear | public/assets/scenes/enigma3.js:90-99 | restoring into a map that shows a role can give it to a second character |
| CastingScene.Casting.constructor | public/assets/scenes/enigma3.js:62-73 | all characters on `null`, no modal, nothing sent |
| CastingScene.Casting.Claim | public/assets/scenes/enigma3.js:536-543 | the clearing loop and the assignment compute the claim |
| CastingScene.Casting.Init | public/assets/scenes/enigma3.js:90-99 | with exactly six saved roles the restore runs; otherwise nothing changes |
| CastingScene.Casting.Drop | public/assets/scenes/enigma3.js:530-553 | the claim, then `enigma3:update` with the role index and the character key |
| CastingScene.Casting.SyncFromServer | public/assets/scenes/enigma3.js:193-207 | the loop over the server entries, clearing and assigning, is proved equal to `Synced` |
| CastingScene.Casting.OnGameUpdate | public/assets/scenes/enigma3.js:192-230 | the sync. Then the success modal at most once, or a retry notice after a failed submit |
| CastingScene.Casting.SubmitSolution | public/assets/scenes/enigma3.js:734-754 | nothing once completed; a warning unless every key shows something; otherwise the submit is sent |

## Left out

- Rendering, layout, tweens, drag visuals and the other Phaser scene code. Only the casting map is kept from the enigma 3 scene.
- Floating-point geometry. Positions are stored values; the client's nearest-slot maths is not modelled.
- Concurrency. Each handler runs atomically, with no interleaving at `await` points, so lost updates between two players are not modelled.
- Socket lifetime. Handlers may still run for a connection after its `disconnect`; channel membership (`socket.join`) is implied by the targets of broadcasts.
- Schema defaults and cascades. New records take the defaults named in the model (`connected`, scene `main`, the timer default). Deleting a room deletes its players. Chat messages of a deleted room or a deleted author are kept in `messages`.
- RoomSocket.Server.History: does not sort by `createdAt` and does not join the author's pseudo. It keeps the stored order, which is the creation order when the clock does not go back.
- Row keys. Each room is keyed by its code only. The store's separate numeric `id`, and the distinction between a channel named by id or by code, are collapsed.
- RoomManagerSocket.Manager.FireTeardown: the fact that rows might exist under another room's id is one boolean parameter; a partial delete of other rows is not modelled.
- Text lengths count code points, not UTF-16 units, in the 500-character limit and in `slice(0, 500)`.
- Enigma handler payloads with non-integer or `undefined` indices are not modelled; indices are integers.
- The socket-level `room:create` handler of the legacy server has an empty body and is not modelled.
- The client's `game:update`, `game:started` and `game:scene-changed` listeners only forward to UI callbacks; the client/server event-name mismatches are left as they are.
- `fetchRoomMessages`, `createRoom` and `joinRoom` in the client are HTTP/socket wrappers and are not modelled.
