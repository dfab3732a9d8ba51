/** Helpers shared by the handlers (src/utils.ts): the participant filter,
    removal of a socket from a room, and the two single-event builders. */
module Utils {
  import opened Types

  /** `participants.filter((p) => p.socketId !== socketId)`: every entry of
      the socket is dropped, every other entry is kept. */
  function Without(ps: seq<Participant>, socketId: string): (r: seq<Participant>)
    ensures |r| <= |ps|
    ensures forall p :: p in r <==> p in ps && p.socketId != socketId
  {
    if ps == [] then []
    else if ps[0].socketId != socketId then [ps[0]] + Without(ps[1..], socketId)
    else Without(ps[1..], socketId)
  }

  /** Filtering distributes over concatenation, so the kept entries stay in
      their original relative order. */
  lemma {:induction false} WithoutAppend(a: seq<Participant>, b: seq<Participant>, socketId: string)
    ensures Without(a + b, socketId) == Without(a, socketId) + Without(b, socketId)
  {
    if a == [] {
      assert a + b == b;
    } else {
      assert (a + b)[1..] == a[1..] + b;
      WithoutAppend(a[1..], b, socketId);
    }
  }

  /** A list in which the socket has no entry is returned as it is. */
  lemma {:induction false} WithoutNoMatch(ps: seq<Participant>, socketId: string)
    requires forall p :: p in ps ==> p.socketId != socketId
    ensures Without(ps, socketId) == ps
  {
    if ps != [] {
      assert ps[0] in ps;
      forall p | p in ps[1..] ensures p.socketId != socketId {
        assert p in ps;
      }
      WithoutNoMatch(ps[1..], socketId);
      assert [ps[0]] + ps[1..] == ps;
    }
  }

  /** The filter counts every kept participant exactly as often as before. */
  lemma {:induction false} WithoutMultiplicity(ps: seq<Participant>, socketId: string, p: Participant)
    ensures multiset(Without(ps, socketId))[p] == if p.socketId == socketId then 0 else multiset(ps)[p]
  {
    if ps != [] {
      WithoutMultiplicity(ps[1..], socketId, p);
      assert ps == [ps[0]] + ps[1..];
    }
  }

  /** Filtering twice by the same socket is filtering once. */
  lemma WithoutIdempotent(ps: seq<Participant>, socketId: string)
    ensures Without(Without(ps, socketId), socketId) == Without(ps, socketId)
  {
    WithoutNoMatch(Without(ps, socketId), socketId);
  }

  /** `rooms` after `removeParticipantFromRoom(socketId, roomKey, rooms, io)`.
      A key with no stored room leaves the registry as it was: an undefined
      one returns early, an inherited one throws before anything changes. */
  function AfterRemoval(rooms: map<string, Room>, socketId: string, roomKey: string): (r: map<string, Room>)
    ensures roomKey !in rooms ==> r == rooms
    ensures forall k :: k != roomKey ==> (k in r <==> k in rooms)
    ensures forall k :: k != roomKey && k in rooms ==> r[k] == rooms[k]
    ensures roomKey in r ==>
              && roomKey in rooms
              && r[roomKey].participants == Without(rooms[roomKey].participants, socketId)
              && |r[roomKey].participants| > 0
  {
    match Lookup(rooms, roomKey)
    case Stored(room) =>
      var kept := Without(room.participants, socketId);
      if |kept| == 0 then rooms - {roomKey} else rooms[roomKey := Room(kept)]
    case _ => rooms
  }

  /** What `removeParticipantFromRoom` emits: `participant:left` to the
      whole room whenever a room is stored under the key, nothing otherwise. */
  function LeftEmits(rooms: map<string, Room>, socketId: string, roomKey: string): (es: seq<Event>)
  {
    if Lookup(rooms, roomKey).Stored? then [Event(ToRoom(roomKey), ParticipantLeftName, SocketId(socketId))] else []
  }

  /** Removes every entry of the socket from the room, announces the
      departure to the room, and deletes the room once it is empty. */
  method RemoveParticipantFromRoom(socketId: string, roomKey: string, rooms: RoomRecord, io: Transport)
    returns (completion: Completion)
    modifies rooms, io
    ensures completion == AccessCompletion(old(rooms.entries), roomKey)
    ensures rooms.entries == AfterRemoval(old(rooms.entries), socketId, roomKey)
    ensures io.outbox == old(io.outbox) + LeftEmits(old(rooms.entries), socketId, roomKey)
  {
    var room := Lookup(rooms.entries, roomKey);
    match room
    case Undefined =>
      return Returned;
    case Inherited =>
      // `room.participants` is undefined, so `.filter` throws
      return ThrewTypeError;
    case Stored(r) =>
      var participants := Without(r.participants, socketId);
      rooms.entries := rooms.entries[roomKey := Room(participants)];

      io.Emit(Event(ToRoom(roomKey), ParticipantLeftName, SocketId(socketId)));

      if |participants| == 0 {
        rooms.entries := rooms.entries - {roomKey};
      }
      return Returned;
  }

  /** A key with no stored room changes nothing and emits nothing. The call
      returns for an undefined key and throws for an inherited one. */
  lemma RemovalOfAbsentRoom(rooms: map<string, Room>, socketId: string, roomKey: string)
    requires roomKey !in rooms
    ensures AfterRemoval(rooms, socketId, roomKey) == rooms
    ensures LeftEmits(rooms, socketId, roomKey) == []
    ensures AccessCompletion(rooms, roomKey) == if roomKey in InheritedKeys then ThrewTypeError else Returned
  {
  }

  /** An existing room always hears exactly one `participant:left`, addressed
      to the whole room, whether or not the socket was a member. */
  lemma RemovalAnnouncesToRoom(rooms: map<string, Room>, socketId: string, roomKey: string)
    requires roomKey in rooms
    ensures LeftEmits(rooms, socketId, roomKey) ==
      [Event(ToRoom(roomKey), ParticipantLeftName, SocketId(socketId))]
  {
  }

  /** After removal the socket has no entry left in the room, and every other
      participant is kept with its multiplicity. */
  lemma RemovalDropsEveryEntry(rooms: map<string, Room>, socketId: string, roomKey: string, p: Participant)
    requires roomKey in AfterRemoval(rooms, socketId, roomKey)
    ensures EntriesOf(AfterRemoval(rooms, socketId, roomKey)[roomKey].participants, socketId) == 0
    ensures p.socketId != socketId ==>
      multiset(AfterRemoval(rooms, socketId, roomKey)[roomKey].participants)[p] ==
      multiset(rooms[roomKey].participants)[p]
  {
    WithoutMultiplicity(rooms[roomKey].participants, socketId, p);
  }

  /** The room disappears exactly when its filtered list is empty. */
  lemma RemovalDeletesExactlyWhenEmpty(rooms: map<string, Room>, socketId: string, roomKey: string)
    requires roomKey in rooms
    ensures roomKey !in AfterRemoval(rooms, socketId, roomKey) <==>
      forall p :: p in rooms[roomKey].participants ==> p.socketId == socketId
  {
    var kept := Without(rooms[roomKey].participants, socketId);
    if kept != [] {
      assert kept[0] in kept;
    }
  }

  /** Removal never leaves an empty room behind, so it keeps the invariant. */
  lemma RemovalKeepsNoEmptyRoom(rooms: map<string, Room>, socketId: string, roomKey: string)
    requires NoEmptyRoom(rooms)
    ensures NoEmptyRoom(AfterRemoval(rooms, socketId, roomKey))
  {
  }

  /** Removing the same socket from the same room a second time changes nothing. */
  lemma {:induction false} RemovalIdempotent(rooms: map<string, Room>, socketId: string, roomKey: string)
    ensures AfterRemoval(AfterRemoval(rooms, socketId, roomKey), socketId, roomKey) ==
      AfterRemoval(rooms, socketId, roomKey)
  {
    var once := AfterRemoval(rooms, socketId, roomKey);
    if roomKey in once {
      WithoutIdempotent(rooms[roomKey].participants, socketId);
      assert once[roomKey := Room(Without(once[roomKey].participants, socketId))] == once;
    }
  }

  /** `notifyNewParticipant`: one `participant:new` to the room, announcing
      the sender, from whose delivery the announced socket is excluded. */
  function NotifyNewParticipant(socket: Socket, roomKey: string, userName: string): (e: Event)
    ensures e.name == ParticipantNewName && e.to.ToRoomExcept? && e.to.room == roomKey
    ensures e.payload.ParticipantInfo? && e.payload.participant == Participant(socket.id, userName)
    ensures e.to.sender == e.payload.participant.socketId
  {
    Event(ToRoomExcept(roomKey, socket.id), ParticipantNewName, ParticipantInfo(Participant(socket.id, userName)))
  }

  /** `handleSignal`: one event named `event`, addressed to `data.to`. The
      socket it is sent from is both excluded from delivery and named as the
      sender, and the content is passed on untouched. */
  function HandleSignal(socket: Socket, data: SignalData, event: string): (e: Event)
    ensures e.name == event && e.to.ToRoomExcept? && e.to.room == data.to
    ensures e.payload.Relayed? && e.payload.content == data.content
    ensures e.payload.senderSocketId == socket.id && e.to.sender == e.payload.senderSocketId
  {
    Event(ToRoomExcept(data.to, socket.id), event, Relayed(socket.id, data.content))
  }

  /** A peer that answers a relayed signal by addressing the sender id it
      received reaches the original sender, with its own id attached. */
  lemma ReplyReachesSender(sender: Socket, data: SignalData, event: string, reply: string, replyEvent: string)
    ensures var fwd := HandleSignal(sender, data, event);
      HandleSignal(Socket(data.to), SignalData(reply, fwd.payload.senderSocketId), replyEvent) ==
      Event(ToRoomExcept(sender.id, data.to), replyEvent, Relayed(data.to, reply))
  {
  }
}
