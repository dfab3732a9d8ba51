/** Values exchanged by the signaling server (src/types.ts), the events it
    emits, and the two mutable objects the handlers work on: the room record
    and the transport that carries every emit. */
module Types {

  /** One member of a room: the socket that joined and the name it gave. */
  datatype Participant = Participant(socketId: string, userName: string)

  /** A room is its ordered participant list (insertion order). */
  datatype Room = Room(participants: seq<Participant>)

  /** An opaque signaling payload addressed to one peer socket. */
  datatype SignalData = SignalData(content: string, to: string)

  /** The only part of a socket.io socket the core reads is its id. */
  datatype Socket = Socket(id: string)

  /** Whom an emit is addressed to. Delivery itself belongs to the transport. */
  datatype Recipient =
    | ToSocket(socketId: string)                 // socket.emit(...)
    | ToRoomExcept(room: string, sender: string) // socket.to(room) / socket.broadcast.to(room)
    | ToRoom(room: string)                       // io.to(room)

  /** The payload shapes the core emits. */
  datatype Payload =
    | NoPayload                                       // room:notFound
    | RoomKey(key: string)                            // room:joined
    | ParticipantList(list: seq<Participant>)         // room:existingParticipants
    | ParticipantInfo(participant: Participant)       // participant:new {socketId, userName}
    | SocketId(id: string)                            // participant:left
    | Relayed(senderSocketId: string, content: string) // signal:* {senderSocketId, content}

  datatype Event = Event(to: Recipient, name: string, payload: Payload)

  const RoomJoinedName: string := "room:joined"
  const RoomNotFoundName: string := "room:notFound"
  const ExistingParticipantsName: string := "room:existingParticipants"
  const ParticipantNewName: string := "participant:new"
  const ParticipantLeftName: string := "participant:left"
  const OfferAwaitingName: string := "signal:offerAwaiting"
  const AnswerResponseName: string := "signal:answerResponse"
  const IceCandidateReceivedName: string := "signal:iceCandidateReceived"

  /** The members every plain `{}` inherits from `Object.prototype` in
      Node.js. Indexing the registry with one of these names yields a truthy
      value that is not a room. */
  const InheritedKeys: set<string> := {
    "constructor", "__proto__", "hasOwnProperty", "isPrototypeOf",
    "propertyIsEnumerable", "toString", "toLocaleString", "valueOf",
    "__defineGetter__", "__defineSetter__", "__lookupGetter__", "__lookupSetter__" }

  /** What `rooms[roomKey]` yields on the registry object: a stored room, an
      inherited prototype member (truthy, but without `participants`), or
      `undefined`. */
  datatype Slot = Stored(room: Room) | Inherited | Undefined

  function Lookup(rooms: map<string, Room>, roomKey: string): Slot
  {
    if roomKey in rooms then Stored(rooms[roomKey])
    else if roomKey in InheritedKeys then Inherited
    else Undefined
  }

  /** How a handler call ends: it returns, or it throws the TypeError that
      reading a property of `undefined` raises. */
  datatype Completion = Returned | ThrewTypeError

  /** How a handler that indexes the registry with `roomKey` and then uses
      the room's `participants` ends: an inherited member has no
      `participants`, and calling a method on that `undefined` throws. */
  function AccessCompletion(rooms: map<string, Room>, roomKey: string): Completion
  {
    if Lookup(rooms, roomKey).Inherited? then ThrewTypeError else Returned
  }

  /** The invariant the room lifecycle is designed to keep: no room is empty. */
  ghost predicate NoEmptyRoom(rooms: map<string, Room>)
  {
    forall k :: k in rooms ==> |rooms[k].participants| > 0
  }

  /** Number of entries in a participant list that belong to one socket. */
  function EntriesOf(ps: seq<Participant>, socketId: string): (n: nat)
    ensures n <= |ps|
    ensures n == 0 <==> forall p :: p in ps ==> p.socketId != socketId
  {
    if ps == [] then 0
    else (if ps[0].socketId == socketId then 1 else 0) + EntriesOf(ps[1..], socketId)
  }

  /** The registry object: a plain `{}` used as a `Record<string, Room>` and
      mutated in place. `entries` holds the rooms stored in it; the members
      it inherits from `Object.prototype` are `InheritedKeys`. */
  class RoomRecord {
    var entries: map<string, Room>

    constructor ()
      ensures entries == map[]
    {
      entries := map[];
    }
  }

  /** The socket.io transport, reduced to the ordered log of what was emitted. */
  class Transport {
    var outbox: seq<Event>

    constructor ()
      ensures outbox == []
    {
      outbox := [];
    }

    method Emit(e: Event)
      modifies this
      ensures outbox == old(outbox) + [e]
    {
      outbox := outbox + [e];
    }
  }
}
