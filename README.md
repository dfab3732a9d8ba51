# Room registry of a WebRTC signaling server, in Dafny

This project models the core of a socket.io signaling server that brokers
WebRTC sessions. The server keeps a process-wide registry that maps each room
key to the ordered list of its participants. A participant is a socket id and
a user name. The handlers create rooms, join sockets to them and remove
sockets from them. They also relay opaque signaling messages (SDP offers and
answers, ICE candidates) from one socket to a named peer.

Layout, one module per source file:

- `types.dfy` (`Types`): `Participant`, `Room` and `SignalData` as in
  `src/types.ts`. It also defines the events the core emits. An `Event` is a
  recipient, an event name and a payload. The recipient is one of three kinds:
  - `ToSocket(id)` for `socket.emit`;
  - `ToRoomExcept(room, sender)` for `socket.to` and `socket.broadcast.to`;
  - `ToRoom(room)` for `io.to`.

  Two classes hold the mutable state. `RoomRecord` is the registry object, a
  plain `{}` used as a `Record<string, Room>`. Its `entries` map holds the
  stored rooms and is reassigned in place. `rooms[roomKey]` on such an object
  also finds the members it inherits from `Object.prototype` (`InheritedKeys`,
  such as `constructor` or `toString`). `Lookup` therefore has three outcomes:
  a stored room, an inherited member, or `undefined`. An inherited member is
  truthy but has no `participants`, so the handlers throw a TypeError on it.
  `Completion` records whether a handler returned or threw.
  `Transport` is socket.io reduced to `outbox`, the ordered log of every emit.
- `utils.dfy` (`Utils`): the participant filter `Without`, and
  `RemoveParticipantFromRoom` as a method that changes the record and the
  outbox. `NotifyNewParticipant` and `HandleSignal` are pure functions that
  build the single event each one emits.
- `socket_handlers.dfy` (`SocketHandlers`): the module-level `rooms`
  registry, as the `const rooms` of class `Handlers`. The class's methods
  `CreateRoom`, `JoinRoom`, `RemoveSocketFromRoom`, `HandleOffer`,
  `HandleAnswer` and `HandleIceCandidate` model the handlers.

Every state-changing method is specified by a pure function of the old
state. `Utils.AfterRemoval` and `Utils.LeftEmits` specify removal.
`SocketHandlers.JoinedRooms` and `SocketHandlers.JoinEmits` specify joining.
The lemmas beside these functions state the room lifecycle:

- which rooms exist;
- the order of participants;
- when a room disappears;
- which events go to whom, and in what order.

A socket is modelled by its id alone. Whatever a socket emits and whatever
`io` emits lands in the same `Transport` outbox. That outbox is passed as `io`
to every handler, including the ones whose source signature has only a socket.

Where the code departs from what a caller might expect, the model follows the code:

- `joinRoom` has no double-join guard. A socket that joins twice has two
  entries; see `DoubleJoinDuplicates`.
- `participant:left` goes to the whole room through `io.to`. It is sent even
  when the socket was not a member. `removeParticipantFromRoom` does not take
  the socket out of the broadcast group.
- `joinRoom` returns nothing. `JoinRoom`'s only result is its `Completion`.
- A room key that names an `Object.prototype` member and has no room stored
  makes `joinRoom` and `removeParticipantFromRoom` throw. They throw before
  changing or emitting anything, and `joinRoom` does not report
  `room:notFound`. Any client can send such a key.
- The handlers do not check that no room is empty. They keep it anyway, and
  `SocketHandlers.Handlers.Valid` states it on the registry.

## Model

| member | source | states |
|---|---|---|
| `Utils.Without` | src/utils.ts:26 | The filtered list holds exactly the entries whose socket id differs from the removed one, and is no longer than the input |
| `Utils.WithoutAppend` | src/utils.ts:26 | Filtering distributes over concatenation, so the kept participants keep their relative order |
| `Utils.WithoutNoMatch` | src/utils.ts:26 | A list with no entry for the socket comes back unchanged |
| `Utils.WithoutMultiplicity` | src/utils.ts:26 | Every kept participant occurs as often as before, and the removed socket's entries occur zero times |
| `Utils.WithoutIdempotent` | src/utils.ts:26 | Filtering twice by one socket is the same as filtering once |
| `Utils.AfterRemoval` | src/utils.ts:23-31 | A key with no stored room changes nothing, whether it is undefined (early return) or inherited (throw). No key other than `roomKey` is added, removed or changed. A surviving room holds the filtered list and is never empty |
| `Utils.RemoveParticipantFromRoom` | src/utils.ts:17-32 | Throws a TypeError exactly when the key names an inherited member and no room is stored under it; otherwise it returns. The record becomes `AfterRemoval` of the old record. The outbox grows by exactly `LeftEmits`: one `participant:left` when a room was stored, nothing otherwise |
| `Utils.RemovalOfAbsentRoom` | src/utils.ts:23-26 | A key with no stored room leaves the registry unchanged and emits nothing. The call throws if the key is inherited and returns otherwise |
| `Utils.RemovalAnnouncesToRoom` | src/utils.ts:29 | An existing room always gets exactly one `participant:left(socketId)` addressed to the whole room, even if the socket was not a member |
| `Utils.RemovalDropsEveryEntry` | src/utils.ts:26 | No entry of the socket survives. Every other participant keeps its multiplicity |
| `Utils.RemovalDeletesExactlyWhenEmpty` | src/utils.ts:31 | The room is deleted if and only if every entry in it belonged to the removed socket |
| `Utils.RemovalKeepsNoEmptyRoom` | src/utils.ts:26-31 | If no room was empty before removal, no room is empty after it |
| `Utils.RemovalIdempotent` | src/utils.ts:23-31 | Removing the same socket from the same room twice gives the same registry as removing it once |
| `Utils.NotifyNewParticipant` | src/utils.ts:10-15 | One `participant:new` to the room, announcing `{socketId, userName}` of the sender. The socket excluded from delivery is the announced one |
| `Utils.HandleSignal` | src/utils.ts:34-40 | One event named by `event`, addressed to `data.to`, with `content` unchanged. The socket excluded from delivery is the one named as `senderSocketId`, which `ReplyReachesSender` uses to route an answer back |
| `Utils.ReplyReachesSender` | src/utils.ts:34-40 | A peer that answers by addressing the `senderSocketId` it received reaches the original sender, and its own id is attached |
| `SocketHandlers.Handlers.constructor` | src/socketHandlers.ts:6 | The registry starts as a fresh, empty record, so `Valid` holds |
| `SocketHandlers.Handlers.CreateRoom` | src/socketHandlers.ts:8-16 | The key is fresh and never an inherited name, as a UUID is. Returns that key. Adds a room under it whose only entry is the creator, and keeps every other room. Emits `room:joined(key)` and `room:existingParticipants([])` to the creator, then `participant:new` to the room. Keeps `Valid` |
| `SocketHandlers.Handlers.JoinRoom` | src/socketHandlers.ts:18-33 | Throws exactly when the key names an inherited member and no room is stored under it. The registry becomes `JoinedRooms` of the old one. The outbox grows by exactly `JoinEmits` of the old registry. Keeps `Valid` |
| `SocketHandlers.Handlers.RemoveSocketFromRoom` | src/socketHandlers.ts:35-41 | Has exactly the effect of `removeParticipantFromRoom` on the module registry: the same completion, the same `AfterRemoval` state and the same `LeftEmits` events. Keeps `Valid` |
| `SocketHandlers.Handlers.HandleOffer` | src/socketHandlers.ts:43-45 | Leaves the registry unchanged. Emits exactly one `HandleSignal` forward, named `signal:offerAwaiting` |
| `SocketHandlers.Handlers.HandleAnswer` | src/socketHandlers.ts:47-49 | Leaves the registry unchanged. Emits exactly one `HandleSignal` forward, named `signal:answerResponse` |
| `SocketHandlers.Handlers.HandleIceCandidate` | src/socketHandlers.ts:51-57 | Leaves the registry unchanged. Emits exactly one `HandleSignal` forward, named `signal:iceCandidateReceived` |
| `SocketHandlers.JoinUnknownRoom` | src/socketHandlers.ts:30-32 | A key that is neither stored nor inherited leaves the registry unchanged and returns. It emits exactly one `room:notFound`, to the requesting socket only |
| `SocketHandlers.JoinInheritedKeyThrows` | src/socketHandlers.ts:19-21 | A key that names an `Object.prototype` member and has no room stored passes the `if (room)` test and then throws. The registry is unchanged and nothing is emitted, not even `room:notFound` |
| `SocketHandlers.JoinAppends` | src/socketHandlers.ts:20-21 | A join adds the joiner as the last entry of its room. Earlier entries stay in order, the set of keys stays the same, and every other room is unchanged |
| `SocketHandlers.JoinEventOrder` | src/socketHandlers.ts:23-29 | A successful join emits three events in order: `room:joined(roomKey)` to the joiner, `room:existingParticipants` to the joiner, and `participant:new {socketId, userName}` to the room without the joiner |
| `SocketHandlers.JoinAnnouncesAppendedEntry` | src/socketHandlers.ts:21-29 | The `participant:new` of a join announces exactly the entry the join appended. The socket it excludes is the one that received `room:joined` and the snapshot, so the joiner never hears its own announcement |
| `SocketHandlers.ExistingParticipantsExcludeJoiner` | src/socketHandlers.ts:26-27 | The snapshot sent to the joiner is the room's list before the join, minus every entry of the joiner, in insertion order |
| `SocketHandlers.FirstJoinSeesPriorMembers` | src/socketHandlers.ts:26-27 | For a socket that had no entry in the room, the snapshot equals the room's list before the join |
| `SocketHandlers.DoubleJoinDuplicates` | src/socketHandlers.ts:21 | Joining twice adds two identical entries at the end of the room. The socket's entry count grows by two |
| `SocketHandlers.JoinKeepsNoEmptyRoom` | src/socketHandlers.ts:19-21 | If no room was empty before a join, no room is empty after it |
| `SocketHandlers.CreatedRooms` | src/socketHandlers.ts:9-14 | Inserting an empty room under the fresh key and then joining the creator is the same as adding a room whose only entry is the creator |
| `SocketHandlers.CreateAddsOneRoom` | src/socketHandlers.ts:9-14 | Creation adds exactly the fresh key and keeps every existing room. The new room's list is `[creator]`, so no room is left empty |
| `SocketHandlers.CreateThenRemoveRestores` | src/socketHandlers.ts:8-16 | Removing the creator from a room that nobody else joined deletes the room. The registry is then exactly what it was before creation |
| `SocketHandlers.TwoPeerSession` | src/socketHandlers.ts:8-33 | A creates, B joins, B leaves, A leaves. B's snapshot is `[A]`. The room, without B, gets `participant:new {B, bob}` on the join and `participant:left(B)` on the leave. After B leaves, the registry is as right after creation. After A leaves, it is as before creation |

## Left out

- Room keys come from a UUID library call (`src/utils.ts:7`). The model takes the key as an argument, and a precondition requires it to be fresh. A key that collided would overwrite an existing room; the model does not cover that case.
- Socket.io delivery is left out. Events record their recipient but are never delivered. Left out with it:
  - which sockets belong to a room's broadcast group (`socket.join` at `src/socketHandlers.ts:22`);
  - whether `socket.to(to)` drops a signal a socket addresses to itself;
  - what happens to events sent to sockets that do not exist.
- `src/server.ts` is not part of this model. That covers TLS certificates, the HTTPS and Express setup, CORS, the listen port and console logging. It also covers the dispatch from event names to handlers with its ack callbacks, and the stateless `participant:micStatusChanged` relay.
- `leaveRoom`, `handleDisconnect` and `handleTrackInfo` are called from `src/server.ts`, but no shown source file defines them. `Types.TrackInfoData` is not defined in `src/types.ts` either. Any contract for these would be invented, so they are not modelled.
- `src/server.ts` uses the result of `joinRoom` as a success flag for the join ack. `joinRoom` is declared `void`, so that flag is always `undefined` and the ack would always read `failure`. The model keeps `JoinRoom` without a result and does not model the ack.
- What happens after a handler throws is left out. `src/server.ts` has no try/catch around the handlers, and what socket.io and Node.js then do with the TypeError is not part of this model. The model records only that the call threw, with no change and no emit.
- Concurrency is left out. The source relies on Node's single-threaded event loop, and the model is purely sequential.
- The in-place aliasing of the JavaScript room object (`room.participants.push`, and reassigning `room.participants`) is modelled by replacing the `Room` value under its key. Nothing else holds a reference to a room object, so no behaviour is lost.
