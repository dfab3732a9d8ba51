/** The socket event handlers (src/socketHandlers.ts) and the process-wide
    room registry they share. */
module SocketHandlers {
  import opened Types
  import Utils

  /** `rooms` after `joinRoom(socket, roomKey, userName)`: the joiner is
      appended to a stored room; any other key changes nothing (an inherited
      one throws before the append). */
  function JoinedRooms(rooms: map<string, Room>, socket: Socket, roomKey: string, userName: string): (r: map<string, Room>)
  {
    match Lookup(rooms, roomKey)
    case Stored(room) => rooms[roomKey := Room(room.participants + [Participant(socket.id, userName)])]
    case _ => rooms
  }

  /** What `joinRoom` emits, in order. */
  function JoinEmits(rooms: map<string, Room>, socket: Socket, roomKey: string, userName: string): (es: seq<Event>)
  {
    match Lookup(rooms, roomKey)
    case Stored(room) =>
      var after := room.participants + [Participant(socket.id, userName)];
      [ Event(ToSocket(socket.id), RoomJoinedName, RoomKey(roomKey)),
        Event(ToSocket(socket.id), ExistingParticipantsName, ParticipantList(Utils.Without(after, socket.id))),
        Utils.NotifyNewParticipant(socket, roomKey, userName) ]
    case Inherited => []
    case Undefined => [Event(ToSocket(socket.id), RoomNotFoundName, NoPayload)]
  }

  /** The module-level state of the handlers: the `rooms` registry. */
  class Handlers {
    const rooms: RoomRecord

    /** No room in the registry is empty. The source does not check this; its
        handlers keep it. */
    ghost predicate Valid()
      reads this, rooms
    {
      NoEmptyRoom(rooms.entries)
    }

    /** The registry starts empty. */
    constructor ()
      ensures fresh(rooms) && rooms.entries == map[]
      ensures Valid()
    {
      rooms := new RoomRecord();
    }

    /** Creates a room under a fresh key and joins the creator to it. The key
        stands for the UUID that `generateRoomKey` draws, which is never
        stored yet and never the name of an `Object.prototype` member. */
    method CreateRoom(socket: Socket, userName: string, freshKey: string, io: Transport) returns (roomKey: string)
      requires freshKey !in rooms.entries && freshKey !in InheritedKeys
      modifies rooms, io
      ensures roomKey == freshKey
      ensures rooms.entries == old(rooms.entries)[roomKey := Room([Participant(socket.id, userName)])]
      ensures io.outbox == old(io.outbox) + [
                Event(ToSocket(socket.id), RoomJoinedName, RoomKey(roomKey)),
                Event(ToSocket(socket.id), ExistingParticipantsName, ParticipantList([])),
                Utils.NotifyNewParticipant(socket, roomKey, userName)]
      ensures old(Valid()) ==> Valid()
    {
      roomKey := freshKey;
      rooms.entries := rooms.entries[roomKey := Room([])];
      var _ := JoinRoom(socket, roomKey, userName, io);
      assert [] + [Participant(socket.id, userName)] == [Participant(socket.id, userName)];
    }

    /** Joins the socket to a stored room, reports `room:notFound` for an
        undefined key, and throws for an inherited one. */
    method JoinRoom(socket: Socket, roomKey: string, userName: string, io: Transport) returns (completion: Completion)
      modifies rooms, io
      ensures completion == AccessCompletion(old(rooms.entries), roomKey)
      ensures rooms.entries == JoinedRooms(old(rooms.entries), socket, roomKey, userName)
      ensures io.outbox == old(io.outbox) + JoinEmits(old(rooms.entries), socket, roomKey, userName)
      ensures old(Valid()) ==> Valid()
    {
      var room := Lookup(rooms.entries, roomKey);
      match room
      case Stored(r) =>
        rooms.entries := rooms.entries[roomKey := Room(r.participants + [Participant(socket.id, userName)])];
        // socket.join(roomKey) subscribes the socket to the room's broadcast group (transport state)
        io.Emit(Event(ToSocket(socket.id), RoomJoinedName, RoomKey(roomKey)));

        var existingParticipants := Utils.Without(rooms.entries[roomKey].participants, socket.id);
        io.Emit(Event(ToSocket(socket.id), ExistingParticipantsName, ParticipantList(existingParticipants)));

        io.Emit(Utils.NotifyNewParticipant(socket, roomKey, userName));
        completion := Returned;
      case Inherited =>
        // truthy, but `room.participants` is undefined, so `.push` throws
        completion := ThrewTypeError;
      case Undefined =>
        io.Emit(Event(ToSocket(socket.id), RoomNotFoundName, NoPayload));
        completion := Returned;
    }

    /** `removeParticipantFromRoom` applied to the module registry. */
    method RemoveSocketFromRoom(socketId: string, roomKey: string, io: Transport) returns (completion: Completion)
      modifies rooms, io
      ensures completion == AccessCompletion(old(rooms.entries), roomKey)
      ensures rooms.entries == Utils.AfterRemoval(old(rooms.entries), socketId, roomKey)
      ensures io.outbox == old(io.outbox) + Utils.LeftEmits(old(rooms.entries), socketId, roomKey)
      ensures old(Valid()) ==> Valid()
    {
      completion := Utils.RemoveParticipantFromRoom(socketId, roomKey, rooms, io);
    }

    /** Forwards an SDP offer; `roomKey` is ignored and the registry is not read. */
    method HandleOffer(socket: Socket, roomKey: string, data: SignalData, io: Transport)
      modifies io
      ensures unchanged(rooms)
      ensures io.outbox == old(io.outbox) + [Utils.HandleSignal(socket, data, OfferAwaitingName)]
    {
      io.Emit(Utils.HandleSignal(socket, data, OfferAwaitingName));
    }

    /** Forwards an SDP answer; `roomKey` is ignored and the registry is not read. */
    method HandleAnswer(socket: Socket, roomKey: string, data: SignalData, io: Transport)
      modifies io
      ensures unchanged(rooms)
      ensures io.outbox == old(io.outbox) + [Utils.HandleSignal(socket, data, AnswerResponseName)]
    {
      io.Emit(Utils.HandleSignal(socket, data, AnswerResponseName));
    }

    /** Forwards an ICE candidate; `roomKey` is ignored and the registry is not read. */
    method HandleIceCandidate(socket: Socket, roomKey: string, data: SignalData, io: Transport)
      modifies io
      ensures unchanged(rooms)
      ensures io.outbox == old(io.outbox) + [Utils.HandleSignal(socket, data, IceCandidateReceivedName)]
    {
      io.Emit(Utils.HandleSignal(socket, data, IceCandidateReceivedName));
    }
  }

  /** Joining an undefined key leaves the registry alone and emits exactly
      one `room:notFound`, to the requesting socket only. */
  lemma JoinUnknownRoom(rooms: map<string, Room>, socket: Socket, roomKey: string, userName: string)
    requires roomKey !in rooms && roomKey !in InheritedKeys
    ensures JoinedRooms(rooms, socket, roomKey, userName) == rooms
    ensures JoinEmits(rooms, socket, roomKey, userName) == [Event(ToSocket(socket.id), RoomNotFoundName, NoPayload)]
    ensures AccessCompletion(rooms, roomKey) == Returned
  {
  }

  /** Joining under the name of an `Object.prototype` member with no room
      stored there throws: no change, no emit, not even `room:notFound`. */
  lemma JoinInheritedKeyThrows(rooms: map<string, Room>, socket: Socket, roomKey: string, userName: string)
    requires roomKey !in rooms && roomKey in InheritedKeys
    ensures JoinedRooms(rooms, socket, roomKey, userName) == rooms
    ensures JoinEmits(rooms, socket, roomKey, userName) == []
    ensures AccessCompletion(rooms, roomKey) == ThrewTypeError
  {
  }

  /** A successful join appends the joiner at the end of its room, keeps the
      earlier entries in order and touches no other room. */
  lemma JoinAppends(rooms: map<string, Room>, socket: Socket, roomKey: string, userName: string)
    requires roomKey in rooms
    ensures var r := JoinedRooms(rooms, socket, roomKey, userName);
      && r.Keys == rooms.Keys
      && |r[roomKey].participants| == |rooms[roomKey].participants| + 1
      && r[roomKey].participants[..|rooms[roomKey].participants|] == rooms[roomKey].participants
      && r[roomKey].participants[|rooms[roomKey].participants|] == Participant(socket.id, userName)
      && forall k :: k in rooms && k != roomKey ==> r[k] == rooms[k]
  {
  }

  /** A successful join emits `room:joined` and then `room:existingParticipants`
      to the joiner, and then `participant:new` to the rest of the room. */
  lemma JoinEventOrder(rooms: map<string, Room>, socket: Socket, roomKey: string, userName: string)
    requires roomKey in rooms
    ensures var es := JoinEmits(rooms, socket, roomKey, userName);
      && |es| == 3
      && es[0].to == ToSocket(socket.id) && es[0].name == RoomJoinedName && es[0].payload == RoomKey(roomKey)
      && es[1].to == ToSocket(socket.id) && es[1].name == ExistingParticipantsName
      && es[2].to == ToRoomExcept(roomKey, socket.id) && es[2].name == ParticipantNewName
      && es[2].payload == ParticipantInfo(Participant(socket.id, userName))
  {
  }

  /** The `participant:new` of a successful join announces exactly the entry
      the join appended, and the socket excluded from it is the one that
      received `room:joined` and the snapshot: the joiner never hears its own
      announcement. */
  lemma JoinAnnouncesAppendedEntry(rooms: map<string, Room>, socket: Socket, roomKey: string, userName: string)
    requires roomKey in rooms
    ensures var es := JoinEmits(rooms, socket, roomKey, userName);
      var after := JoinedRooms(rooms, socket, roomKey, userName)[roomKey].participants;
      && |es| == 3 && |after| > 0
      && es[2].payload.ParticipantInfo? && es[2].payload.participant == after[|after| - 1]
      && es[2].to.ToRoomExcept? && es[2].to.room == roomKey
      && es[0].to == ToSocket(es[2].to.sender) && es[1].to == ToSocket(es[2].to.sender)
  {
  }

  /** The `room:existingParticipants` snapshot is the room's list before the
      join with every entry of the joiner removed, in insertion order. */
  lemma {:induction false} ExistingParticipantsExcludeJoiner(rooms: map<string, Room>, socket: Socket, roomKey: string, userName: string)
    requires roomKey in rooms
    ensures JoinEmits(rooms, socket, roomKey, userName)[1].payload ==
      ParticipantList(Utils.Without(rooms[roomKey].participants, socket.id))
  {
    var joiner := Participant(socket.id, userName);
    Utils.WithoutAppend(rooms[roomKey].participants, [joiner], socket.id);
    assert Utils.Without([joiner], socket.id) == [];
  }

  /** For a socket that was not yet in the room, the snapshot it receives is
      exactly the room's list before the join. */
  lemma {:induction false} FirstJoinSeesPriorMembers(rooms: map<string, Room>, socket: Socket, roomKey: string, userName: string)
    requires roomKey in rooms
    requires EntriesOf(rooms[roomKey].participants, socket.id) == 0
    ensures JoinEmits(rooms, socket, roomKey, userName)[1].payload == ParticipantList(rooms[roomKey].participants)
  {
    ExistingParticipantsExcludeJoiner(rooms, socket, roomKey, userName);
    Utils.WithoutNoMatch(rooms[roomKey].participants, socket.id);
  }

  /** There is no double-join guard: joining twice adds two entries of the
      same socket at the end of the room. */
  lemma {:induction false} DoubleJoinDuplicates(rooms: map<string, Room>, socket: Socket, roomKey: string, userName: string)
    requires roomKey in rooms
    ensures var twice := JoinedRooms(JoinedRooms(rooms, socket, roomKey, userName), socket, roomKey, userName);
      && twice[roomKey].participants ==
           rooms[roomKey].participants + [Participant(socket.id, userName), Participant(socket.id, userName)]
      && EntriesOf(twice[roomKey].participants, socket.id) == EntriesOf(rooms[roomKey].participants, socket.id) + 2
  {
    var p := Participant(socket.id, userName);
    var before := rooms[roomKey].participants;
    assert before + [p] + [p] == before + [p, p];
    EntriesOfAppend(before, [p, p], socket.id);
    assert [p, p][1..] == [p];
  }

  /** Counting a socket's entries distributes over concatenation. */
  lemma {:induction false} EntriesOfAppend(a: seq<Participant>, b: seq<Participant>, socketId: string)
    ensures EntriesOf(a + b, socketId) == EntriesOf(a, socketId) + EntriesOf(b, socketId)
  {
    if a == [] {
      assert a + b == b;
    } else {
      assert (a + b)[1..] == a[1..] + b;
      EntriesOfAppend(a[1..], b, socketId);
    }
  }

  /** Joining never empties a room, so it keeps the no-empty-room invariant. */
  lemma JoinKeepsNoEmptyRoom(rooms: map<string, Room>, socket: Socket, roomKey: string, userName: string)
    requires NoEmptyRoom(rooms)
    ensures NoEmptyRoom(JoinedRooms(rooms, socket, roomKey, userName))
  {
  }

  /** The registry after `createRoom` with a fresh key: the key now names a
      room whose only member is the creator. */
  function CreatedRooms(rooms: map<string, Room>, socket: Socket, userName: string, freshKey: string): (r: map<string, Room>)
    requires freshKey !in rooms
    ensures r == JoinedRooms(rooms[freshKey := Room([])], socket, freshKey, userName)
  {
    assert [] + [Participant(socket.id, userName)] == [Participant(socket.id, userName)];
    rooms[freshKey := Room([Participant(socket.id, userName)])]
  }

  /** Creating a room adds exactly one key, keeps every other room, and keeps
      the no-empty-room invariant. */
  lemma CreateAddsOneRoom(rooms: map<string, Room>, socket: Socket, userName: string, freshKey: string)
    requires freshKey !in rooms
    ensures var r := CreatedRooms(rooms, socket, userName, freshKey);
      && r.Keys == rooms.Keys + {freshKey}
      && r[freshKey].participants == [Participant(socket.id, userName)]
      && (forall k :: k in rooms ==> r[k] == rooms[k])
      && (NoEmptyRoom(rooms) ==> NoEmptyRoom(r))
  {
  }

  /** When the creator is removed from a room nobody else joined, the room
      is deleted and the registry is what it was before the creation. */
  lemma CreateThenRemoveRestores(rooms: map<string, Room>, socket: Socket, userName: string, freshKey: string)
    requires freshKey !in rooms
    ensures Utils.AfterRemoval(CreatedRooms(rooms, socket, userName, freshKey), socket.id, freshKey) == rooms
  {
    var r := Utils.AfterRemoval(CreatedRooms(rooms, socket, userName, freshKey), socket.id, freshKey);
    assert freshKey !in r;
    assert r.Keys == rooms.Keys;
  }

  /** A creates a room, B joins it, B leaves, A leaves: B's snapshot is
      `[A]`, the room holds only A after B left, and it is gone once A left. */
  lemma {:induction false} TwoPeerSession(rooms: map<string, Room>, a: Socket, b: Socket, key: string)
    requires key !in rooms
    requires a.id != b.id
    ensures var created := CreatedRooms(rooms, a, "alice", key);
      var joined := JoinedRooms(created, b, key, "bob");
      var bLeft := Utils.AfterRemoval(joined, b.id, key);
      && JoinEmits(created, b, key, "bob")[1].payload == ParticipantList([Participant(a.id, "alice")])
      && JoinEmits(created, b, key, "bob")[2] ==
           Event(ToRoomExcept(key, b.id), ParticipantNewName, ParticipantInfo(Participant(b.id, "bob")))
      && Utils.LeftEmits(joined, b.id, key) == [Event(ToRoom(key), ParticipantLeftName, SocketId(b.id))]
      && bLeft == created
      && Utils.AfterRemoval(bLeft, a.id, key) == rooms
  {
    var created := CreatedRooms(rooms, a, "alice", key);
    var alice := Participant(a.id, "alice");
    var bob := Participant(b.id, "bob");
    FirstJoinSeesPriorMembers(created, b, key, "bob");
    var joined := JoinedRooms(created, b, key, "bob");
    assert joined[key].participants == [alice, bob];
    assert Utils.Without([alice, bob], b.id) == [alice];
    assert Utils.AfterRemoval(joined, b.id, key) == created;
    CreateThenRemoveRestores(rooms, a, "alice", key);
  }
}
