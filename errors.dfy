/** The error classes of the chat server (chat-server/bin/errors.js) as one
    closed variant type: each kind fixes a message template and a status code,
    and every kind is a `BadRequest`, so the HTTP handlers answer with the
    error's own code and message. */
module Errors {
  import opened Wrappers
  import opened Text

  datatype Error =
    | BadRequest(text: string)
    | WrongSignin(email: string)
    | EmailExists(email: string)
    | BadEmailFormat(email: string)
    | ForbiddenUsername
    | UsernameExists(username: string)
    | UnauthenticatedToken
    | NoSuchRoom(roomName: string)
    | RoomExists(roomName: string)
    | ForbiddenRoomName

  /** The `code` field: 400 from `BadRequest`, overridden only by the
      token and room-lookup errors. */
  function Code(e: Error): (c: int)
    ensures c == 400 || c == 401 || c == 404
    ensures c == 401 <==> e.UnauthenticatedToken?
    ensures c == 404 <==> e.NoSuchRoom?
  {
    match e
    case UnauthenticatedToken => 401
    case NoSuchRoom(_) => 404
    case _ => 400
  }

  /** The `message` each constructor passes to `super`: a bare `BadRequest`
      carries its text, every other kind a non-empty template that adds fixed
      text around its argument. */
  function Message(e: Error): (m: string)
    ensures !e.BadRequest? ==> |m| > 0
  {
    match e
    case BadRequest(text) => text
    case WrongSignin(email) => "email '" + email + "' does no exist or wrong password entered"
    case EmailExists(email) => "email '" + email + "' is already register, please sign in"
    case BadEmailFormat(email) => "'" + email + "' is not a valid email address, please enter a real email"
    case ForbiddenUsername => "username contains forbidden word(s), please choose a nicer username"
    case UsernameExists(username) => "username '" + username + "' is taken, please choose other username"
    case UnauthenticatedToken => "got authenticated token"
    case NoSuchRoom(roomName) => "no such room '" + roomName + "', please create one or join existing room"
    case RoomExists(roomName) => "room '" + roomName + "' is already exists, please choose it from the list or use a different name"
    case ForbiddenRoomName => "room name contains forbidden word(s), please choose a nicer room name"
  }

  /** The argument a constructor takes, if it takes one. */
  function Argument(e: Error): Option<string> {
    match e
    case BadRequest(text) => Some(text)
    case WrongSignin(email) => Some(email)
    case EmailExists(email) => Some(email)
    case BadEmailFormat(email) => Some(email)
    case UsernameExists(username) => Some(username)
    case NoSuchRoom(roomName) => Some(roomName)
    case RoomExists(roomName) => Some(roomName)
    case _ => None
  }

  /** The error class, numbered in the order errors.js exports them. */
  function Class(e: Error): nat {
    match e
    case BadRequest(_) => 0
    case WrongSignin(_) => 1
    case EmailExists(_) => 2
    case BadEmailFormat(_) => 3
    case ForbiddenUsername => 4
    case UsernameExists(_) => 5
    case UnauthenticatedToken => 6
    case NoSuchRoom(_) => 7
    case RoomExists(_) => 8
    case ForbiddenRoomName => 9
  }

  /** Every message embeds its constructor's argument verbatim. */
  lemma MessageEmbedsArgument(e: Error)
    ensures Argument(e).Some? ==> Includes(Message(e), Argument(e).value)
  {
    match e
    case BadRequest(text) => IncludesInfix("", text, "");
    case WrongSignin(email) => IncludesInfix("email '", email, "' does no exist or wrong password entered");
    case EmailExists(email) => IncludesInfix("email '", email, "' is already register, please sign in");
    case BadEmailFormat(email) => IncludesInfix("'", email, "' is not a valid email address, please enter a real email");
    case UsernameExists(username) => IncludesInfix("username '", username, "' is taken, please choose other username");
    case NoSuchRoom(roomName) => IncludesInfix("no such room '", roomName, "', please create one or join existing room");
    case RoomExists(roomName) => IncludesInfix("room '", roomName, "' is already exists, please choose it from the list or use a different name");
    case _ =>
  }

  /** The fixed text around an argument can be cancelled. */
  lemma InfixCancel(p: string, a: string, b: string, q: string)
    requires p + a + q == p + b + q
    ensures a == b
  {
    assert |a| == |b|;
    assert a == (p + a + q)[|p|..|p| + |a|];
    assert b == (p + b + q)[|p|..|p| + |b|];
  }

  /** Within one error class that takes an argument, the message determines
      the argument: two errors of that class with the same message are the
      same error. (An error class without an argument has one error only.) */
  lemma MessageDeterminesError(e1: Error, e2: Error)
    requires Argument(e1).Some?
    requires Class(e1) == Class(e2)
    requires Message(e1) == Message(e2)
    ensures e1 == e2
  {
    match e1
    case BadRequest(x) =>
      assert e2.BadRequest?;
    case WrongSignin(x) =>
      assert e2.WrongSignin?;
      InfixCancel("email '", x, e2.email, "' does no exist or wrong password entered");
    case EmailExists(x) =>
      assert e2.EmailExists?;
      InfixCancel("email '", x, e2.email, "' is already register, please sign in");
    case BadEmailFormat(x) =>
      assert e2.BadEmailFormat?;
      InfixCancel("'", x, e2.email, "' is not a valid email address, please enter a real email");
    case UsernameExists(x) =>
      assert e2.UsernameExists?;
      InfixCancel("username '", x, e2.username, "' is taken, please choose other username");
    case NoSuchRoom(x) =>
      assert e2.NoSuchRoom?;
      InfixCancel("no such room '", x, e2.roomName, "', please create one or join existing room");
    case RoomExists(x) =>
      assert e2.RoomExists?;
      InfixCancel("room '", x, e2.roomName, "' is already exists, please choose it from the list or use a different name");
  }

  /** What an HTTP handler sends: status 200 with a payload, or an error
      status with a `{message}` body. */
  datatype Reply<+T> = Sent(payload: T) | Refused(status: int, message: string)

  /** The rooms handlers' catch block: an error that is a `BadRequest` (every
      kind is) is answered with its own code and message, never with 500. */
  function Respond<T>(r: Result<T, Error>): (reply: Reply<T>)
    ensures reply.Sent? <==> r.Success?
    ensures reply.Sent? ==> reply.payload == r.value
    ensures reply.Refused? ==> reply.status != 500 && reply.status == Code(r.error)
    ensures reply.Refused? ==> reply.message == Message(r.error)
  {
    match r
    case Success(v) => Sent(v)
    case Failure(e) => Refused(Code(e), Message(e))
  }
}
