/** The JSON web tokens the server issues and checks. Signing is abstract:
    a token records the username, the issue time (`iat`) and the key it was
    signed with, and verification succeeds exactly for tokens signed with the
    server's own secret. */
module Tokens {
  import opened Wrappers

  datatype Token =
    | Signed(username: string, issuedAt: int, key: string)
    | Malformed(raw: string)

  /** `jwt.sign({username}, secret)` at time `now`. */
  function Sign(username: string, now: int, secret: string): Token {
    Signed(username, now, secret)
  }

  /** `jwt.verify(token, secret).username`; `None` where `verify` throws,
      including for a missing token. */
  function Verify(token: Option<Token>, secret: string): (r: Option<string>)
    ensures r.Some? <==> token.Some? && token.value.Signed? && token.value.key == secret
    ensures r.Some? ==> token.value == Sign(r.value, token.value.issuedAt, secret)
  {
    match token
    case Some(Signed(username, _, key)) => if key == secret then Some(username) else None
    case _ => None
  }

  /** A token verifies, with the server's secret, to the username it was
      issued for, and to nothing under any other secret. */
  lemma VerifySigned(username: string, now: int, secret: string, other: string)
    requires other != secret
    ensures Verify(Some(Sign(username, now, secret)), secret) == Some(username)
    ensures Verify(Some(Sign(username, now, secret)), other) == None
  {
  }
}
