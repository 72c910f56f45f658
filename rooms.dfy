/** The room directory and the presence and broadcast engine of the chat
    server (chat-server/bin/rooms.js), over an in-memory `rooms` collection
    instead of MongoDB and a record of emitted events instead of socket.io. */
module ChatRooms {
  import opened Wrappers
  import opened Collections
  import opened Text
  import opened Errors
  import opened Tokens

  /** A chat message `{ts, text, username?}`, `ts` in milliseconds. */
  datatype Msg = Msg(ts: int, text: string, username: Option<string>)

  /** A document of the `rooms` collection; a document created without
      `users` or `messages` reads as having empty lists. */
  datatype Room = Room(name: string, users: seq<string>, messages: seq<Msg>)

  /** An entry of the room list: the name and the number of distinct users. */
  datatype RoomSummary = RoomSummary(name: string, users: nat)

  /** A room as `GET /room/:room_name` shows it. */
  datatype RoomView = RoomView(name: string, users: seq<string>)

  /** No two documents share a name. */
  predicate UniqueNames(rooms: seq<Room>) {
    forall i, j :: 0 <= i < j < |rooms| ==> rooms[i].name != rooms[j].name
  }

  /** The position of the document that `findOne({name})` and
      `updateOne({name}, …)` select: the first one with that name. */
  function FindRoom(rooms: seq<Room>, name: string): (r: Option<nat>)
    ensures r.Some? ==> r.value < |rooms| && rooms[r.value].name == name
    ensures r.Some? ==> forall j :: 0 <= j < r.value ==> rooms[j].name != name
    ensures r.None? <==> forall j :: 0 <= j < |rooms| ==> rooms[j].name != name
  {
    if |rooms| == 0 then None
    else if rooms[0].name == name then Some(0)
    else
      match FindRoom(rooms[1..], name)
      case None => None
      case Some(k) => Some(k + 1)
  }

  /** `findOne({name})`: a stored document with that name, or none exactly
      when no document has it. */
  function Lookup(rooms: seq<Room>, name: string): (r: Option<Room>)
    ensures r.Some? ==> r.value in rooms && r.value.name == name
    ensures r.None? <==> forall k :: 0 <= k < |rooms| ==> rooms[k].name != name
  {
    match FindRoom(rooms, name)
    case None => None
    case Some(i) => Some(rooms[i])
  }

  /** The two collections hold documents with the same names in the same order. */
  predicate SameNames(a: seq<Room>, b: seq<Room>) {
    |a| == |b| && forall k :: 0 <= k < |a| ==> a[k].name == b[k].name
  }

  /** Which document a name selects depends on the names alone. */
  lemma {:induction false} FindRoomByNames(a: seq<Room>, b: seq<Room>, name: string)
    requires SameNames(a, b)
    ensures FindRoom(a, name) == FindRoom(b, name)
  {
    if |a| > 0 && a[0].name != name {
      FindRoomByNames(a[1..], b[1..], name);
    }
  }

  /** Inserting a document at the end keeps every name's selected document. */
  lemma {:induction false} FindRoomAppend(rooms: seq<Room>, room: Room, name: string)
    requires FindRoom(rooms, name).Some?
    ensures FindRoom(rooms + [room], name) == FindRoom(rooms, name)
  {
    if rooms[0].name != name {
      assert (rooms + [room])[1..] == rooms[1..] + [room];
      FindRoomAppend(rooms[1..], room, name);
    }
  }

  /** Inserting a room whose name is new keeps the names unique. */
  lemma UniqueNamesAppend(rooms: seq<Room>, room: Room)
    requires UniqueNames(rooms) && FindRoom(rooms, room.name).None?
    ensures UniqueNames(rooms + [room])
  {
  }

  /** `updateOne({name}, update)`: rewrites the first document with that name;
      when there is none, nothing changes. */
  function UpdateOne(rooms: seq<Room>, name: string, update: Room -> Room): (r: seq<Room>)
    requires forall room :: update(room).name == room.name
    ensures SameNames(r, rooms)
    ensures forall n :: n != name ==> Lookup(r, n) == Lookup(rooms, n)
    ensures forall k :: 0 <= k < |r| && FindRoom(rooms, name) != Some(k) ==> r[k] == rooms[k]
    ensures Lookup(rooms, name).None? ==> r == rooms
    ensures Lookup(rooms, name).Some? ==> Lookup(r, name) == Some(update(Lookup(rooms, name).value))
  {
    match FindRoom(rooms, name)
    case None => rooms
    case Some(i) =>
      var r := rooms[i := update(rooms[i])];
      assert SameNames(r, rooms);
      forall n ensures FindRoom(r, n) == FindRoom(rooms, n) {
        FindRoomByNames(r, rooms, n);
      }
      r
  }

  /** `updateOne({name}, {$push: {users: username}})`: one more copy of the
      username at the end of that room's user list. */
  function PushUser(rooms: seq<Room>, name: string, username: string): (r: seq<Room>)
    ensures SameNames(r, rooms)
    ensures forall n :: n != name ==> Lookup(r, n) == Lookup(rooms, n)
    ensures Lookup(rooms, name).None? ==> r == rooms
    ensures Lookup(rooms, name).Some? ==> Lookup(r, name).Some?
    ensures Lookup(rooms, name).Some? ==>
      var was := Lookup(rooms, name).value;
      Lookup(r, name).value == was.(users := was.users + [username])
  {
    UpdateOne(rooms, name, (room: Room) => room.(users := room.users + [username]))
  }

  /** `updateOne({name}, {$pull: {users: username}})`: every copy of the
      username leaves that room's user list. */
  function PullUser(rooms: seq<Room>, name: string, username: string): (r: seq<Room>)
    ensures SameNames(r, rooms)
    ensures forall n :: n != name ==> Lookup(r, n) == Lookup(rooms, n)
    ensures Lookup(rooms, name).None? ==> r == rooms
    ensures Lookup(rooms, name).Some? ==> Lookup(r, name).Some?
    ensures Lookup(rooms, name).Some? ==>
      var was := Lookup(rooms, name).value;
      Lookup(r, name).value == was.(users := Without(was.users, username))
  {
    UpdateOne(rooms, name, (room: Room) => room.(users := Without(room.users, username)))
  }

  /** `updateOne({name}, {$push: {messages: message}})`. */
  function PushMessage(rooms: seq<Room>, name: string, message: Msg): (r: seq<Room>)
    ensures SameNames(r, rooms)
    ensures forall n :: n != name ==> Lookup(r, n) == Lookup(rooms, n)
    ensures Lookup(rooms, name).None? ==> r == rooms
    ensures Lookup(rooms, name).Some? ==> Lookup(r, name).Some?
    ensures Lookup(rooms, name).Some? ==>
      var was := Lookup(rooms, name).value;
      Lookup(r, name).value == was.(messages := was.messages + [message])
  {
    UpdateOne(rooms, name, (room: Room) => room.(messages := room.messages + [message]))
  }

  /** A room's entry in the room list. */
  function Summary(room: Room): RoomSummary {
    RoomSummary(room.name, |Distinct(room.users)|)
  }

  /** One entry per stored room, in collection order. */
  function Summaries(rooms: seq<Room>): (r: seq<RoomSummary>)
    ensures |r| == |rooms|
  {
    seq(|rooms|, k requires 0 <= k < |rooms| => Summary(rooms[k]))
  }

  /** `_getRooms`: every room with its number of distinct users, most
      populated first. */
  function GetRooms(rooms: seq<Room>): (r: seq<RoomSummary>)
    ensures |r| == |rooms|
    ensures multiset(r) == multiset(Summaries(rooms))
    ensures forall i, j :: 0 <= i < j < |r| ==> r[i].users >= r[j].users
  {
    var r := SortBy(Summaries(rooms), (s: RoomSummary) => -(s.users as int));
    assert |multiset(r)| == |multiset(Summaries(rooms))|;
    r
  }

  /** Each entry of the room list names a stored room and counts the
      distinct usernames in its user list. */
  lemma GetRoomsCountsDistinctUsers(rooms: seq<Room>, e: RoomSummary)
    requires e in GetRooms(rooms)
    ensures exists k :: 0 <= k < |rooms| && e.name == rooms[k].name && e.users == |Elements(rooms[k].users)|
  {
    assert e in multiset(Summaries(rooms));
    var k :| 0 <= k < |rooms| && Summaries(rooms)[k] == e;
    DistinctSize(rooms[k].users);
  }

  /** `_getRoom`: the room's name and its user list without repeats. */
  function GetRoom(rooms: seq<Room>, name: string): (r: Result<RoomView, Error>)
    ensures r.Failure? <==> Lookup(rooms, name).None?
    ensures r.Failure? ==> r.error == NoSuchRoom(name)
    ensures r.Success? ==> r.value.name == name && NoDuplicates(r.value.users)
    ensures r.Success? ==> forall u :: u in r.value.users <==> u in Lookup(rooms, name).value.users
    ensures r.Success? ==>
      var stored := Lookup(rooms, name).value.users;
      forall i, j :: 0 <= i < j < |r.value.users| ==>
        FirstIndex(stored, r.value.users[i]) < FirstIndex(stored, r.value.users[j])
  {
    match Lookup(rooms, name)
    case None => Failure(NoSuchRoom(name))
    case Some(room) =>
      DistinctKeepsFirstOccurrenceOrder(room.users);
      Success(RoomView(room.name, Distinct(room.users)))
  }

  /** `_getRoomMessages`: the room's history, oldest first. */
  function GetRoomMessages(rooms: seq<Room>, name: string): (r: Result<seq<Msg>, Error>)
    ensures r.Failure? <==> Lookup(rooms, name).None?
    ensures r.Failure? ==> r.error == NoSuchRoom(name)
    ensures r.Success? ==> multiset(r.value) == multiset(Lookup(rooms, name).value.messages)
    ensures r.Success? ==> forall i, j :: 0 <= i < j < |r.value| ==> r.value[i].ts <= r.value[j].ts
  {
    match Lookup(rooms, name)
    case None => Failure(NoSuchRoom(name))
    case Some(room) => Success(SortBy(room.messages, (m: Msg) => m.ts))
  }

  /** A saved message is part of the history read back afterwards. */
  lemma SavedMessageInHistory(rooms: seq<Room>, name: string, message: Msg)
    requires Lookup(rooms, name).Some?
    ensures GetRoomMessages(PushMessage(rooms, name, message), name).Success?
    ensures message in GetRoomMessages(PushMessage(rooms, name, message), name).value
  {
    var history := GetRoomMessages(PushMessage(rooms, name, message), name).value;
    assert message in multiset(Lookup(rooms, name).value.messages + [message]);
    assert message in multiset(history);
  }

  /** `_createMessage(text, username)` stamped `now`: the `username` field is
      present only when the argument is truthy. */
  function CreateMessage(now: int, text: string, username: Option<string>): (m: Msg)
    ensures m.ts == now && m.text == text
    ensures m.username.Some? <==> Truthy(username)
    ensures m.username.Some? ==> m.username == username
  {
    Msg(now, text, if Truthy(username) then username else None)
  }

  /** `_validateCreateRoomRequest`: the body must carry a truthy `room_name`. */
  function ValidateCreateRoomRequest(roomName: Option<string>): (r: Outcome<Error>)
    ensures r.Pass? <==> Truthy(roomName)
    ensures r.Fail? ==> Code(r.error) == 400
  {
    if !Truthy(roomName) then Fail(BadRequest("no room name provided")) else Pass
  }

  /** `_validateRequest(token).username`: a token that does not verify is an
      `UnauthenticatedTokenError`. */
  function ValidateRequest(token: Option<Token>, secret: string): (r: Result<string, Error>)
    ensures r.Failure? ==> r.error == UnauthenticatedToken && Code(r.error) == 401
    ensures r.Success? <==> Verify(token, secret).Some?
    ensures r.Success? ==> token.value.username == r.value
  {
    match Verify(token, secret)
    case None => Failure(UnauthenticatedToken)
    case Some(username) => Success(username)
  }

  function JoinedNotice(username: string): string { username + " has joined the room" }
  function LeftNotice(username: string): string { username + " has left the room" }
  function WelcomeNotice(roomName: string, username: string): string {
    "welcome to room " + roomName + ", " + username
  }
  function BadWordsNotice(username: string): string {
    username + ", your message contains bad words, please think about a nicer message"
  }

  /** A live socket. */
  type ConnId = nat

  /** The two events the server emits: `chat-message` and `users-in-room`. */
  datatype Payload =
    | ChatMessage(msg: Msg)
    | UsersInRoom(name: string, users: seq<string>)

  /** One `emit`, with the sockets it reaches. */
  datatype Emit = Emit(to: set<ConnId>, payload: Payload)

  /** The query of a socket handshake: `token` and `room_name`, each possibly absent. */
  datatype Handshake = Handshake(token: Option<Token>, roomName: Option<string>)

  /** What the connection handler keeps for an admitted socket. */
  datatype Session = Session(conn: ConnId, username: string, roomName: string)

  /** How the connection handler ends: the socket is admitted to its room,
      left alone without being admitted, or forcibly disconnected. */
  datatype Admission = Admitted(session: Session) | NotAdmitted | Disconnected

  /** A room the default-room loop may add: an allowed default name, no
      users, no messages. */
  predicate FreshDefault(room: Room, defaultRooms: seq<string>, forbiddenWords: seq<string>) {
    room.users == [] && room.messages == [] &&
    room.name in defaultRooms && !ContainsForbidden(forbiddenWords, room.name)
  }

  /** A default name the loop has dealt with: it is forbidden, or a room
      of that name is stored. */
  predicate Settled(rooms: seq<Room>, name: string, forbiddenWords: seq<string>) {
    ContainsForbidden(forbiddenWords, name) || FindRoom(rooms, name).Some?
  }

  /** The collection still begins with the rooms it started from. */
  predicate KeepsStart(start: seq<Room>, rooms: seq<Room>) {
    |start| <= |rooms| && rooms[..|start|] == start
  }

  /** Every room added since `start` is a fresh, allowed default room whose
      name `start` did not hold. */
  predicate AddedOnlyNewDefaults(start: seq<Room>, rooms: seq<Room>, defaultRooms: seq<string>,
                                 forbiddenWords: seq<string>)
  {
    forall k :: |start| <= k < |rooms| ==>
      FreshDefault(rooms[k], defaultRooms, forbiddenWords) && FindRoom(start, rooms[k].name).None?
  }

  /** The first `i` default names are settled. */
  predicate SettledUpTo(rooms: seq<Room>, defaultRooms: seq<string>, forbiddenWords: seq<string>, i: nat) {
    i <= |defaultRooms| && forall j :: 0 <= j < i ==> Settled(rooms, defaultRooms[j], forbiddenWords)
  }

  /** What the default-room loop has achieved after its first `i` names:
      the rooms it started from are kept, it added only fresh, allowed default
      rooms whose names the start did not hold, names stayed unique, and each
      of the `i` names is settled. */
  predicate DefaultsProgress(start: seq<Room>, rooms: seq<Room>, defaultRooms: seq<string>,
                             forbiddenWords: seq<string>, i: nat)
  {
    && KeepsStart(start, rooms)
    && AddedOnlyNewDefaults(start, rooms, defaultRooms, forbiddenWords)
    && (UniqueNames(start) ==> UniqueNames(rooms))
    && SettledUpTo(rooms, defaultRooms, forbiddenWords, i)
  }

  /** Inserting a room keeps every settled name settled, and settles the
      inserted room's name. */
  lemma SettledAppend(before: seq<Room>, room: Room, defaultRooms: seq<string>, forbiddenWords: seq<string>, i: nat)
    requires i < |defaultRooms| && room.name == defaultRooms[i]
    requires SettledUpTo(before, defaultRooms, forbiddenWords, i)
    ensures SettledUpTo(before + [room], defaultRooms, forbiddenWords, i + 1)
  {
    forall j | 0 <= j < i + 1
      ensures Settled(before + [room], defaultRooms[j], forbiddenWords)
    {
      if j < i && FindRoom(before, defaultRooms[j]).Some? {
        FindRoomAppend(before, room, defaultRooms[j]);
      } else if j == i {
        assert (before + [room])[|before|].name == defaultRooms[i];
      }
    }
  }

  /** A room the default-room loop added is an allowed default room that
      the collection it started from did not hold. */
  lemma AddedRoomIsNew(start: seq<Room>, rooms: seq<Room>, defaultRooms: seq<string>,
                       forbiddenWords: seq<string>, k: nat)
    requires AddedOnlyNewDefaults(start, rooms, defaultRooms, forbiddenWords)
    requires |start| <= k < |rooms|
    ensures rooms[k].name in defaultRooms && !ContainsForbidden(forbiddenWords, rooms[k].name)
    ensures FindRoom(start, rooms[k].name).None?
  {
    assert FreshDefault(rooms[k], defaultRooms, forbiddenWords);
  }

  /** Inserting a fresh, allowed default room whose name the collection
      lacks keeps every added room new. */
  lemma NewDefaultsAppend(start: seq<Room>, before: seq<Room>, room: Room, defaultRooms: seq<string>,
                          forbiddenWords: seq<string>)
    requires KeepsStart(start, before)
    requires AddedOnlyNewDefaults(start, before, defaultRooms, forbiddenWords)
    requires FreshDefault(room, defaultRooms, forbiddenWords) && FindRoom(before, room.name).None?
    ensures AddedOnlyNewDefaults(start, before + [room], defaultRooms, forbiddenWords)
  {
    forall k | |start| <= k < |before| + 1
      ensures FreshDefault((before + [room])[k], defaultRooms, forbiddenWords)
      ensures FindRoom(start, (before + [room])[k].name).None?
    {
      if k < |before| {
        assert (before + [room])[k] == before[k];
      } else {
        forall j | 0 <= j < |start|
          ensures start[j].name != room.name
        {
          assert start[j] == before[j];
        }
      }
    }
  }

  /** Inserting a room keeps the start in front. */
  lemma KeepsStartAppend(start: seq<Room>, before: seq<Room>, room: Room)
    requires KeepsStart(start, before)
    ensures KeepsStart(start, before + [room])
  {
    assert (before + [room])[..|start|] == before[..|start|];
  }

  /** Inserting a fresh, allowed default room whose name is new keeps
      `DefaultsProgress` and settles that name. */
  lemma DefaultsAppend(start: seq<Room>, before: seq<Room>, defaultRooms: seq<string>,
                       forbiddenWords: seq<string>, i: nat)
    requires i < |defaultRooms|
    requires DefaultsProgress(start, before, defaultRooms, forbiddenWords, i)
    requires FindRoom(before, defaultRooms[i]).None? && !ContainsForbidden(forbiddenWords, defaultRooms[i])
    ensures DefaultsProgress(start, before + [Room(defaultRooms[i], [], [])], defaultRooms, forbiddenWords, i + 1)
  {
    var room := Room(defaultRooms[i], [], []);
    KeepsStartAppend(start, before, room);
    NewDefaultsAppend(start, before, room, defaultRooms, forbiddenWords);
    if UniqueNames(start) {
      UniqueNamesAppend(before, room);
    }
    SettledAppend(before, room, defaultRooms, forbiddenWords, i);
  }

  /** What the finished default-room loop guarantees: the rooms it started
      from are kept; it added only fresh, empty, allowed default rooms whose
      names the collection did not hold before; every
      allowed default name is stored; names stay unique; and when every
      allowed default name was stored already, nothing was added. */
  lemma DefaultsDone(start: seq<Room>, rooms: seq<Room>, defaultRooms: seq<string>, forbiddenWords: seq<string>)
    requires DefaultsProgress(start, rooms, defaultRooms, forbiddenWords, |defaultRooms|)
    ensures |start| <= |rooms| && rooms[..|start|] == start
    ensures forall k :: |start| <= k < |rooms| ==> FreshDefault(rooms[k], defaultRooms, forbiddenWords)
    ensures forall k :: |start| <= k < |rooms| ==> FindRoom(start, rooms[k].name).None?
    ensures forall n :: n in defaultRooms && !ContainsForbidden(forbiddenWords, n) ==> FindRoom(rooms, n).Some?
    ensures (forall n :: n in defaultRooms && !ContainsForbidden(forbiddenWords, n) ==>
               FindRoom(start, n).Some?) ==> rooms == start
    ensures UniqueNames(start) ==> UniqueNames(rooms)
  {
    forall n | n in defaultRooms && !ContainsForbidden(forbiddenWords, n)
      ensures FindRoom(rooms, n).Some?
    {
      var j :| 0 <= j < |defaultRooms| && defaultRooms[j] == n;
    }
    if forall n :: n in defaultRooms && !ContainsForbidden(forbiddenWords, n) ==> FindRoom(start, n).Some? {
      if |rooms| > |start| {
        AddedRoomIsNew(start, rooms, defaultRooms, forbiddenWords, |start|);
        assert false;
      }
      assert rooms == rooms[..|start|];
    }
  }

  /** One iteration of the default-room loop, given what `_createRoom` in
      default mode does to the collection, keeps `DefaultsProgress`. */
  lemma DefaultsStep(start: seq<Room>, before: seq<Room>, after: seq<Room>,
                     defaultRooms: seq<string>, forbiddenWords: seq<string>, i: nat)
    requires i < |defaultRooms|
    requires DefaultsProgress(start, before, defaultRooms, forbiddenWords, i)
    requires Settled(before, defaultRooms[i], forbiddenWords) ==> after == before
    requires !Settled(before, defaultRooms[i], forbiddenWords) ==>
      after == before + [Room(defaultRooms[i], [], [])]
    ensures DefaultsProgress(start, after, defaultRooms, forbiddenWords, i + 1)
  {
    if !Settled(before, defaultRooms[i], forbiddenWords) {
      DefaultsAppend(start, before, defaultRooms, forbiddenWords, i);
    }
  }

  /** The `Rooms` class: configuration, the `rooms` collection, socket.io's
      room membership and the events emitted so far. */
  class Rooms {
    const forbiddenWords: seq<string>
    const defaultRooms: seq<string>
    const jwtSecret: string
    /** The `rooms` collection, in insertion order. */
    var rooms: seq<Room>
    /** socket.io rooms: the live sockets joined to each room name. */
    var sockets: map<string, set<ConnId>>
    /** Every event emitted, in emission order. */
    var outbox: seq<Emit>

    /** Room names are unique and sockets only join rooms that exist. */
    ghost predicate Valid()
      reads this`rooms, this`sockets
    {
      UniqueNames(rooms) && forall n :: n in sockets ==> FindRoom(rooms, n).Some?
    }

    /** The sockets currently joined to a room. */
    function Members(roomName: string): set<ConnId>
      reads this`sockets
    {
      if roomName in sockets then sockets[roomName] else {}
    }

    /** The `users-in-room` broadcast of `_updateUsersSockets`; when the room
        is missing, `_getRoom` throws and nothing is emitted. */
    function PresenceEvent(roomName: string): (r: seq<Emit>)
      reads this`rooms, this`sockets
      ensures |r| <= 1
      ensures r != [] <==> Lookup(rooms, roomName).Some?
      ensures r != [] ==>
        && r[0].to == Members(roomName) && r[0].payload.UsersInRoom? && r[0].payload.name == roomName
        && NoDuplicates(r[0].payload.users)
        && forall u :: u in r[0].payload.users <==> u in Lookup(rooms, roomName).value.users
      ensures r != [] ==> r[0].payload.users == GetRoom(rooms, roomName).value.users
    {
      match GetRoom(rooms, roomName)
      case Success(view) => [Emit(Members(roomName), UsersInRoom(roomName, view.users))]
      case Failure(_) => []
    }

    /** The options and the database handle, given at construction. */
    constructor (forbiddenWords: seq<string>, defaultRooms: seq<string>, jwtSecret: string, db: seq<Room>)
      ensures this.forbiddenWords == forbiddenWords && this.defaultRooms == defaultRooms
      ensures this.jwtSecret == jwtSecret
      ensures rooms == db && sockets == map[] && outbox == []
      ensures Valid() <==> UniqueNames(db)
    {
      this.forbiddenWords := forbiddenWords;
      this.defaultRooms := defaultRooms;
      this.jwtSecret := jwtSecret;
      rooms := db;
      sockets := map[];
      outbox := [];
    }

    /** `_createRoom(roomName, defaultRoom)`: existence is checked before the
        forbidden words; a default room is skipped silently instead of failing. */
    method CreateRoom(roomName: string, defaultRoom: bool) returns (r: Outcome<Error>)
      modifies this`rooms
      ensures defaultRoom ==> r == Pass
      ensures FindRoom(old(rooms), roomName).Some? ==>
        rooms == old(rooms) && (!defaultRoom ==> r == Fail(RoomExists(roomName)))
      ensures FindRoom(old(rooms), roomName).None? && ContainsForbidden(forbiddenWords, roomName) ==>
        rooms == old(rooms) && (!defaultRoom ==> r == Fail(ForbiddenRoomName))
      ensures FindRoom(old(rooms), roomName).None? && !ContainsForbidden(forbiddenWords, roomName) ==>
        rooms == old(rooms) + [Room(roomName, [], [])] && r == Pass
      ensures UniqueNames(old(rooms)) ==> UniqueNames(rooms)
      ensures old(Valid()) ==> Valid()
    {
      if FindRoom(rooms, roomName).Some? {
        if defaultRoom {
          return Pass;
        }
        return Fail(RoomExists(roomName));
      }
      if ContainsForbidden(forbiddenWords, roomName) {
        if defaultRoom {
          return Pass;
        }
        return Fail(ForbiddenRoomName);
      }
      forall n | FindRoom(rooms, n).Some?
        ensures FindRoom(rooms + [Room(roomName, [], [])], n).Some?
      {
        FindRoomAppend(rooms, Room(roomName, [], []), n);
      }
      if UniqueNames(rooms) {
        UniqueNamesAppend(rooms, Room(roomName, [], []));
      }
      rooms := rooms + [Room(roomName, [], [])];
      r := Pass;
    }

    /** The default-room loop of `setDB`, run one room after another: it never
        fails, keeps the rooms already stored, and adds only fresh, empty,
        allowed default rooms, so repeated runs never duplicate a room. */
    method CreateDefaultRooms()
      modifies this`rooms
      ensures |old(rooms)| <= |rooms| && rooms[..|old(rooms)|] == old(rooms)
      ensures forall k :: |old(rooms)| <= k < |rooms| ==> FreshDefault(rooms[k], defaultRooms, forbiddenWords)
      ensures forall k :: |old(rooms)| <= k < |rooms| ==> FindRoom(old(rooms), rooms[k].name).None?
      ensures forall n :: n in defaultRooms && !ContainsForbidden(forbiddenWords, n) ==> FindRoom(rooms, n).Some?
      ensures (forall n :: n in defaultRooms && !ContainsForbidden(forbiddenWords, n) ==>
                 FindRoom(old(rooms), n).Some?) ==> rooms == old(rooms)
      ensures UniqueNames(old(rooms)) ==> UniqueNames(rooms)
      ensures old(Valid()) ==> Valid()
    {
      ghost var start := rooms;
      for i := 0 to |defaultRooms|
        invariant DefaultsProgress(start, rooms, defaultRooms, forbiddenWords, i)
        invariant old(Valid()) ==> Valid()
      {
        ghost var before := rooms;
        var r := CreateRoom(defaultRooms[i], true);
        assert r == Pass;
        DefaultsStep(start, before, rooms, defaultRooms, forbiddenWords, i);
      }
      DefaultsDone(start, rooms, defaultRooms, forbiddenWords);
    }

    /** `_updateUsersSockets(roomName)`. */
    method UpdateUsersSockets(roomName: string)
      modifies this`outbox
      ensures outbox == old(outbox) + PresenceEvent(roomName)
    {
      var room := GetRoom(rooms, roomName);
      if room.Success? {
        outbox := outbox + [Emit(Members(roomName), UsersInRoom(roomName, room.value.users))];
      }
    }

    /** `_addUserToRoom(roomName, username)`. */
    method AddUserToRoom(roomName: string, username: string)
      modifies this`rooms, this`outbox
      ensures rooms == PushUser(old(rooms), roomName, username)
      ensures outbox == old(outbox) + PresenceEvent(roomName)
      ensures old(Valid()) ==> Valid()
    {
      rooms := PushUser(rooms, roomName, username);
      forall n ensures FindRoom(rooms, n) == FindRoom(old(rooms), n) {
        FindRoomByNames(rooms, old(rooms), n);
      }
      UpdateUsersSockets(roomName);
    }

    /** `_removeUserFromRoom(roomName, username)`. */
    method RemoveUserFromRoom(roomName: string, username: string)
      modifies this`rooms, this`outbox
      ensures rooms == PullUser(old(rooms), roomName, username)
      ensures outbox == old(outbox) + PresenceEvent(roomName)
      ensures old(Valid()) ==> Valid()
    {
      rooms := PullUser(rooms, roomName, username);
      forall n ensures FindRoom(rooms, n) == FindRoom(old(rooms), n) {
        FindRoomByNames(rooms, old(rooms), n);
      }
      UpdateUsersSockets(roomName);
    }

    /** `_saveMessage(roomName, message)`; `SavedMessageInHistory` shows that
        the room's history then contains the message. */
    method SaveMessage(roomName: string, message: Msg)
      modifies this`rooms
      ensures rooms == PushMessage(old(rooms), roomName, message)
      ensures old(Valid()) ==> Valid()
    {
      rooms := PushMessage(rooms, roomName, message);
      forall n ensures FindRoom(rooms, n) == FindRoom(old(rooms), n) {
        FindRoomByNames(rooms, old(rooms), n);
      }
    }

    /** The `POST /room` handler. */
    method CreateRoomHandler(roomName: Option<string>) returns (reply: Reply<string>)
      modifies this`rooms
      ensures !Truthy(roomName) ==> rooms == old(rooms) && reply == Refused(400, "no room name provided")
      ensures Truthy(roomName) && FindRoom(old(rooms), roomName.value).Some? ==>
        rooms == old(rooms) && reply == Refused(400, Message(RoomExists(roomName.value)))
      ensures Truthy(roomName) && FindRoom(old(rooms), roomName.value).None? && ContainsForbidden(forbiddenWords, roomName.value) ==>
        rooms == old(rooms) && reply == Refused(400, Message(ForbiddenRoomName))
      ensures Truthy(roomName) && FindRoom(old(rooms), roomName.value).None? && !ContainsForbidden(forbiddenWords, roomName.value) ==>
        rooms == old(rooms) + [Room(roomName.value, [], [])] && reply == Sent("room '" + roomName.value + "' was created")
      ensures old(Valid()) ==> Valid()
    {
      var valid := ValidateCreateRoomRequest(roomName);
      if valid.Fail? {
        return Respond(Failure(valid.error));
      }
      var created := CreateRoom(roomName.value, false);
      if created.Fail? {
        return Respond(Failure(created.error));
      }
      reply := Sent("room '" + roomName.value + "' was created");
    }

    /** The `GET /rooms` handler: always status 200 with the room list. */
    method GetRoomsHandler() returns (reply: Reply<seq<RoomSummary>>)
      ensures reply == Sent(GetRooms(rooms))
      ensures reply.Sent? && |reply.payload| == |rooms|
      ensures forall i, j :: 0 <= i < j < |reply.payload| ==> reply.payload[i].users >= reply.payload[j].users
    {
      reply := Sent(GetRooms(rooms));
    }

    /** The `GET /room/:room_name` handler: an unknown room is a 404. */
    method GetRoomHandler(roomName: string) returns (reply: Reply<RoomView>)
      ensures reply == Respond(GetRoom(rooms, roomName))
      ensures reply.Refused? <==> Lookup(rooms, roomName).None?
      ensures reply.Refused? ==> reply.status == 404 && reply.message == Message(NoSuchRoom(roomName))
      ensures reply.Sent? ==> reply.payload.name == roomName && NoDuplicates(reply.payload.users)
      ensures reply.Sent? ==> forall u :: u in reply.payload.users <==> u in Lookup(rooms, roomName).value.users
    {
      reply := Respond(GetRoom(rooms, roomName));
    }

    /** The `GET /room/:room_name/messages` handler: an unknown room is a
        404; otherwise the whole history, oldest first. */
    method GetPreviousMessagesHandler(roomName: string) returns (reply: Reply<seq<Msg>>)
      ensures reply == Respond(GetRoomMessages(rooms, roomName))
      ensures reply.Refused? <==> Lookup(rooms, roomName).None?
      ensures reply.Refused? ==> reply.status == 404 && reply.message == Message(NoSuchRoom(roomName))
      ensures reply.Sent? ==> multiset(reply.payload) == multiset(Lookup(rooms, roomName).value.messages)
      ensures reply.Sent? ==> forall i, j :: 0 <= i < j < |reply.payload| ==> reply.payload[i].ts <= reply.payload[j].ts
    {
      reply := Respond(GetRoomMessages(rooms, roomName));
    }

    /** The `connection` handler up to the registration of its listeners:
        token check, room-name check, room-existence check, then join. The
        join notice is stamped at `now`; the welcome message is built in a
        timer callback about a second later and stamped at `welcomeAt`. */
    method Connect(handshake: Handshake, conn: ConnId, now: int, welcomeAt: int) returns (a: Admission)
      modifies this`rooms, this`sockets, this`outbox
      ensures Verify(handshake.token, jwtSecret).None? ==> a == Disconnected && unchanged(this)
      ensures Verify(handshake.token, jwtSecret).Some? && !Truthy(handshake.roomName) ==>
        a == Disconnected && unchanged(this)
      ensures (Verify(handshake.token, jwtSecret).Some? && Truthy(handshake.roomName) &&
               FindRoom(old(rooms), handshake.roomName.value).None?) ==>
        a == NotAdmitted && unchanged(this)
      ensures (Verify(handshake.token, jwtSecret).Some? && Truthy(handshake.roomName) &&
               FindRoom(old(rooms), handshake.roomName.value).Some?) ==>
        a == Admitted(Session(conn, Verify(handshake.token, jwtSecret).value, handshake.roomName.value))
      ensures a.Admitted? ==>
        var username, roomName := a.session.username, a.session.roomName;
        && sockets == old(sockets)[roomName := old(Members(roomName)) + {conn}]
        && rooms == PushUser(old(rooms), roomName, username)
        && outbox == old(outbox)
             + [Emit(Members(roomName) - {conn}, ChatMessage(CreateMessage(now, JoinedNotice(username), None)))]
             + PresenceEvent(roomName)
             + [Emit({conn}, ChatMessage(CreateMessage(welcomeAt, WelcomeNotice(roomName, username), None)))]
      ensures a.Admitted? ==>
        && a.session.conn in Members(a.session.roomName)
        && GetRoom(rooms, a.session.roomName).Success?
        && a.session.username in GetRoom(rooms, a.session.roomName).value.users
      ensures old(Valid()) ==> Valid()
    {
      var user := ValidateRequest(handshake.token, jwtSecret);
      if user.Failure? {
        return Disconnected;
      }
      var username := user.value;
      if !Truthy(handshake.roomName) {
        // Logging the undefined `msg` throws; the catch block disconnects.
        return Disconnected;
      }
      var roomName := handshake.roomName.value;
      var room := GetRoom(rooms, roomName);
      if room.Failure? {
        return NotAdmitted;
      }
      sockets := sockets[roomName := Members(roomName) + {conn}];
      outbox := outbox + [Emit(Members(roomName) - {conn}, ChatMessage(CreateMessage(now, JoinedNotice(username), None)))];
      AddUserToRoom(roomName, username);
      outbox := outbox + [Emit({conn}, ChatMessage(CreateMessage(welcomeAt, WelcomeNotice(roomName, username), None)))];
      a := Admitted(Session(conn, username, roomName));
    }

    /** The `user-message` listener: a message with a forbidden word earns
        the sender a private notice and is dropped; any other message goes to
        every socket in the room, the sender's included, and is then saved. */
    method OnUserMessage(session: Session, message: string, now: int)
      modifies this`rooms, this`outbox
      ensures ContainsForbidden(forbiddenWords, message) ==>
        && rooms == old(rooms)
        && outbox == old(outbox) + [Emit({session.conn}, ChatMessage(CreateMessage(now, BadWordsNotice(session.username), None)))]
      ensures !ContainsForbidden(forbiddenWords, message) ==>
        var m := CreateMessage(now, message, Some(session.username));
        && outbox == old(outbox) + [Emit(Members(session.roomName), ChatMessage(m))]
        && rooms == PushMessage(old(rooms), session.roomName, m)
      ensures old(Valid()) ==> Valid()
    {
      if ContainsForbidden(forbiddenWords, message) {
        outbox := outbox + [Emit({session.conn}, ChatMessage(CreateMessage(now, BadWordsNotice(session.username), None)))];
        return;
      }
      var m := CreateMessage(now, message, Some(session.username));
      var broadcast := Emit(Members(session.roomName), ChatMessage(m));
      outbox := outbox + [broadcast];
      assert outbox == old(outbox) + [broadcast];
      SaveMessage(session.roomName, m);
    }

    /** The `disconnect` listener: tell the others, leave the socket.io room,
        then pull the username from the stored user list. */
    method OnDisconnect(session: Session, now: int)
      modifies this`rooms, this`sockets, this`outbox
      ensures sockets == if session.roomName in old(sockets)
        then old(sockets)[session.roomName := old(Members(session.roomName)) - {session.conn}]
        else old(sockets)
      ensures rooms == PullUser(old(rooms), session.roomName, session.username)
      ensures outbox == old(outbox)
        + [Emit(Members(session.roomName), ChatMessage(CreateMessage(now, LeftNotice(session.username), None)))]
        + PresenceEvent(session.roomName)
      ensures session.conn !in Members(session.roomName)
      ensures GetRoom(rooms, session.roomName).Success? ==>
        session.username !in GetRoom(rooms, session.roomName).value.users
      ensures old(Valid()) ==> Valid()
    {
      var notice := Emit(Members(session.roomName) - {session.conn},
        ChatMessage(CreateMessage(now, LeftNotice(session.username), None)));
      outbox := outbox + [notice];
      if session.roomName in sockets {
        sockets := sockets[session.roomName := sockets[session.roomName] - {session.conn}];
      }
      assert notice.to == Members(session.roomName);
      RemoveUserFromRoom(session.roomName, session.username);
    }
  }
}
