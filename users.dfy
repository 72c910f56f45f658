/** The credential store of the chat server (chat-server/bin/users.js) over
    an in-memory `users` collection: signup validation in a fixed order,
    insertion of hashed credentials, and signin by email and password. */
module Accounts {
  import opened Wrappers
  import opened Collections
  import opened Text
  import opened Errors
  import opened Tokens

  /** `crypto.createHash('sha256').update(password).digest('base64')`, kept
      abstract as an injective map: distinct passwords, distinct digests. */
  datatype Digest = Sha256Base64(seq<char>)

  function Hash(password: string): (d: Digest)
    ensures forall other :: Sha256Base64(other) == d ==> other == password
  {
    Sha256Base64(password)
  }

  /** A document of the `users` collection; it holds the digest of the
      password, never the password. */
  datatype Account = Account(email: string, username: string, hashedPassword: Digest)

  /** The body of `POST /signup`; each field may be absent. */
  datatype SignupRequest = SignupRequest(username: Option<string>, password: Option<string>, email: Option<string>)

  /** The body of `POST /signin`. */
  datatype SigninRequest = SigninRequest(email: Option<string>, password: Option<string>)

  /** No two accounts share an email or a username. */
  predicate UniqueIdentities(accounts: seq<Account>) {
    forall i, j :: 0 <= i < j < |accounts| ==>
      accounts[i].email != accounts[j].email && accounts[i].username != accounts[j].username
  }

  /** Some account has this email. */
  predicate EmailTaken(accounts: seq<Account>, email: string) {
    exists a :: a in accounts && a.email == email
  }

  /** Some account has this username. */
  predicate UsernameTaken(accounts: seq<Account>, username: string) {
    exists a :: a in accounts && a.username == username
  }

  /** `_verifySignupRequest(body)`: username, password and email must be
      truthy, checked in that order, then the email must be well formed
      (`isEmail` stands for the email-validator library). */
  function VerifySignupRequest(body: SignupRequest, isEmail: string -> bool): (r: Outcome<Error>)
    ensures r.Pass? <==>
      Truthy(body.username) && Truthy(body.password) && Truthy(body.email) && isEmail(body.email.value)
    ensures r == Fail(BadRequest("signup request must have an username")) <==> !Truthy(body.username)
    ensures r == Fail(BadRequest("signup request must have an password")) <==>
      Truthy(body.username) && !Truthy(body.password)
    ensures r == Fail(BadRequest("signup request must have an email")) <==>
      Truthy(body.username) && Truthy(body.password) && !Truthy(body.email)
    ensures (r.Fail? && r.error.BadEmailFormat?) <==>
      Truthy(body.username) && Truthy(body.password) && Truthy(body.email) && !isEmail(body.email.value)
    ensures r.Fail? && r.error.BadEmailFormat? ==> r.error.email == body.email.value
    ensures r.Fail? ==> Code(r.error) == 400
  {
    if !Truthy(body.username) then Fail(BadRequest("signup request must have an username"))
    else if !Truthy(body.password) then Fail(BadRequest("signup request must have an password"))
    else if !Truthy(body.email) then Fail(BadRequest("signup request must have an email"))
    else if !isEmail(body.email.value) then Fail(BadEmailFormat(body.email.value))
    else Pass
  }

  /** `_verifySigninRequest(body)`: the email is checked before the password. */
  function VerifySigninRequest(body: SigninRequest): (r: Outcome<Error>)
    ensures r.Pass? <==> Truthy(body.email) && Truthy(body.password)
    ensures r == Fail(BadRequest("signin request must have an email")) <==> !Truthy(body.email)
    ensures r == Fail(BadRequest("signin request must have an password")) <==>
      Truthy(body.email) && !Truthy(body.password)
  {
    if !Truthy(body.email) then Fail(BadRequest("signin request must have an email"))
    else if !Truthy(body.password) then Fail(BadRequest("signin request must have an password"))
    else Pass
  }

  /** `_userExistsByEmail(email)`: how many accounts `find({email})` returns;
      truthy exactly when the email is taken. */
  function UserExistsByEmail(accounts: seq<Account>, email: string): (n: nat)
    ensures n > 0 <==> EmailTaken(accounts, email)
  {
    var found := Filter(accounts, (a: Account) => a.email == email);
    assert |found| > 0 ==> found[0] in found;
    |found|
  }

  /** `_userExistsByUsername(username)`. */
  function UserExistsByUsername(accounts: seq<Account>, username: string): (n: nat)
    ensures n > 0 <==> UsernameTaken(accounts, username)
  {
    var found := Filter(accounts, (a: Account) => a.username == username);
    assert |found| > 0 ==> found[0] in found;
    |found|
  }

  /** The checks `_addNewUser` makes before inserting, in its order: forbidden
      word in the username, email taken, username taken. */
  function NewUserCheck(accounts: seq<Account>, forbiddenWords: seq<string>, email: string, username: string): (r: Outcome<Error>)
    ensures r.Pass? <==>
      !ContainsForbidden(forbiddenWords, username) && !EmailTaken(accounts, email) && !UsernameTaken(accounts, username)
    ensures r == Fail(ForbiddenUsername) <==> ContainsForbidden(forbiddenWords, username)
    ensures r == Fail(EmailExists(email)) <==>
      !ContainsForbidden(forbiddenWords, username) && EmailTaken(accounts, email)
    ensures r == Fail(UsernameExists(username)) <==>
      !ContainsForbidden(forbiddenWords, username) && !EmailTaken(accounts, email) && UsernameTaken(accounts, username)
    ensures r.Fail? ==> Code(r.error) == 400
  {
    if ContainsForbidden(forbiddenWords, username) then Fail(ForbiddenUsername)
    else if UserExistsByEmail(accounts, email) > 0 then Fail(EmailExists(email))
    else if UserExistsByUsername(accounts, username) > 0 then Fail(UsernameExists(username))
    else Pass
  }

  /** The account a signup request inserts. */
  function NewAccount(body: SignupRequest): Account
    requires body.username.Some? && body.password.Some? && body.email.Some?
  {
    Account(body.email.value, body.username.value, Hash(body.password.value))
  }

  /** Every check of the signup handler, in order: the request checks, then
      those of `_addNewUser`. */
  function SignupOutcome(accounts: seq<Account>, forbiddenWords: seq<string>, isEmail: string -> bool,
                         body: SignupRequest): (r: Outcome<Error>)
    ensures r.Pass? ==> Truthy(body.username) && Truthy(body.password) && Truthy(body.email)
    ensures r.Pass? <==>
      && Truthy(body.username) && Truthy(body.password) && Truthy(body.email) && isEmail(body.email.value)
      && !ContainsForbidden(forbiddenWords, body.username.value)
      && !EmailTaken(accounts, body.email.value) && !UsernameTaken(accounts, body.username.value)
    ensures VerifySignupRequest(body, isEmail).Fail? ==> r == VerifySignupRequest(body, isEmail)
    ensures r.Fail? ==> Code(r.error) == 400
  {
    match VerifySignupRequest(body, isEmail)
    case Fail(e) => Fail(e)
    case Pass => NewUserCheck(accounts, forbiddenWords, body.email.value, body.username.value)
  }

  /** `_getUserByEmailAndPassword(email, password)`: the first account with
      that email and that password's digest; an unknown email and a wrong
      password fail alike. */
  function GetUserByEmailAndPassword(accounts: seq<Account>, email: string, password: string): (r: Result<Account, Error>)
    ensures r.Failure? ==> r.error == WrongSignin(email)
    ensures r.Success? <==> exists a :: a in accounts && a.email == email && a.hashedPassword == Hash(password)
    ensures r.Success? ==>
      r.value in accounts && r.value.email == email && r.value.hashedPassword == Hash(password)
  {
    var found := Filter(accounts, (a: Account) => a.email == email && a.hashedPassword == Hash(password));
    if |found| == 0 then
      Failure(WrongSignin(email))
    else
      assert found[0] in found;
      Success(found[0])
  }

  /** The signin handler up to its reply: a token, issued at `now`, for the
      username of the matching account. */
  function SigninOutcome(accounts: seq<Account>, secret: string, body: SigninRequest, now: int): (r: Result<Token, Error>)
    ensures r.Success? <==>
      && Truthy(body.email) && Truthy(body.password)
      && exists a :: a in accounts && a.email == body.email.value && a.hashedPassword == Hash(body.password.value)
    ensures r.Success? ==>
      exists a :: a in accounts && a.email == body.email.value && a.hashedPassword == Hash(body.password.value)
        && r.value == Sign(a.username, now, secret)
    ensures r.Failure? && Truthy(body.email) && Truthy(body.password) ==> r.error == WrongSignin(body.email.value)
    ensures r.Failure? ==> Code(r.error) == 400
  {
    match VerifySigninRequest(body)
    case Fail(e) => Failure(e)
    case Pass =>
      match GetUserByEmailAndPassword(accounts, body.email.value, body.password.value)
      case Failure(e) => Failure(e)
      case Success(user) => Success(Sign(user.username, now, secret))
  }

  /** Inserting an account that passed `_addNewUser`'s checks keeps emails and
      usernames unique. */
  lemma NewUserKeepsIdentitiesUnique(accounts: seq<Account>, forbiddenWords: seq<string>, account: Account)
    requires UniqueIdentities(accounts)
    requires NewUserCheck(accounts, forbiddenWords, account.email, account.username).Pass?
    ensures UniqueIdentities(accounts + [account])
  {
    var after := accounts + [account];
    forall i, j | 0 <= i < j < |after|
      ensures after[i].email != after[j].email && after[i].username != after[j].username
    {
      if j == |accounts| {
        assert after[i] == accounts[i];
      }
    }
  }

  /** No account matches an email that is not taken. */
  lemma NoMatchForFreeEmail(accounts: seq<Account>, email: string, password: string)
    requires !EmailTaken(accounts, email)
    ensures Filter(accounts, (a: Account) => a.email == email && a.hashedPassword == Hash(password)) == []
  {
  }

  /** Signing in with the email and password of a signup that succeeded
      yields a token for the signed-up username. */
  lemma SigninAfterSignup(accounts: seq<Account>, forbiddenWords: seq<string>, isEmail: string -> bool,
                          body: SignupRequest, secret: string, now: int)
    requires SignupOutcome(accounts, forbiddenWords, isEmail, body).Pass?
    ensures SigninOutcome(accounts + [NewAccount(body)], secret, SigninRequest(body.email, body.password), now)
      == Success(Sign(body.username.value, now, secret))
  {
    var email, password := body.email.value, body.password.value;
    var matches := (a: Account) => a.email == email && a.hashedPassword == Hash(password);
    NoMatchForFreeEmail(accounts, email, password);
    FilterAppend(accounts, [NewAccount(body)], matches);
    assert Filter([NewAccount(body)], matches) == [NewAccount(body)];
  }

  /** Repeating a signup that succeeded fails with `EmailExistsError`. */
  lemma RepeatedSignupFailsOnEmail(accounts: seq<Account>, forbiddenWords: seq<string>, isEmail: string -> bool,
                                   body: SignupRequest)
    requires SignupOutcome(accounts, forbiddenWords, isEmail, body).Pass?
    ensures SignupOutcome(accounts + [NewAccount(body)], forbiddenWords, isEmail, body)
      == Fail(EmailExists(body.email.value))
  {
    var after := accounts + [NewAccount(body)];
    assert NewAccount(body) in after;
    assert EmailTaken(after, body.email.value);
  }

  /** After a signup succeeded, a well-formed signup with the same username
      and a fresh email fails with `UsernameExistsError`. */
  lemma SameUsernameFailsOnUsername(accounts: seq<Account>, forbiddenWords: seq<string>, isEmail: string -> bool,
                                    first: SignupRequest, second: SignupRequest)
    requires SignupOutcome(accounts, forbiddenWords, isEmail, first).Pass?
    requires VerifySignupRequest(second, isEmail).Pass?
    requires second.username == first.username
    requires !EmailTaken(accounts + [NewAccount(first)], second.email.value)
    ensures SignupOutcome(accounts + [NewAccount(first)], forbiddenWords, isEmail, second)
      == Fail(UsernameExists(second.username.value))
  {
    var after := accounts + [NewAccount(first)];
    assert NewAccount(first) in after;
    assert UsernameTaken(after, second.username.value);
  }

  /** In a store with unique emails, any password other than the registered
      one is refused, with the same error as an unknown email. */
  lemma WrongPasswordRefused(accounts: seq<Account>, secret: string, now: int, k: nat, password: string)
    requires UniqueIdentities(accounts)
    requires k < |accounts| && accounts[k].hashedPassword != Hash(password)
    requires accounts[k].email != "" && password != ""
    ensures SigninOutcome(accounts, secret, SigninRequest(Some(accounts[k].email), Some(password)), now)
      == Failure(WrongSignin(accounts[k].email))
  {
    var email := accounts[k].email;
    forall a | a in accounts && a.email == email
      ensures a.hashedPassword != Hash(password)
    {
      var i :| 0 <= i < |accounts| && accounts[i] == a;
      assert i == k;
    }
  }

  /** The `Users` class: configuration and the `users` collection. */
  class Users {
    const jwtSecret: string
    const forbiddenWords: seq<string>
    /** The `users` collection, in insertion order. */
    var accounts: seq<Account>

    /** Emails and usernames are unique across the store. */
    ghost predicate Valid()
      reads this`accounts
    {
      UniqueIdentities(accounts)
    }

    /** The options and the database handle, given at construction. */
    constructor (jwtSecret: string, forbiddenWords: seq<string>, db: seq<Account>)
      ensures this.jwtSecret == jwtSecret && this.forbiddenWords == forbiddenWords && accounts == db
      ensures Valid() <==> UniqueIdentities(db)
    {
      this.jwtSecret := jwtSecret;
      this.forbiddenWords := forbiddenWords;
      accounts := db;
    }

    /** `_addNewUser({email, username, password})`: inserts one account with
        the password's digest, or nothing when a check fails. */
    method AddNewUser(email: string, username: string, password: string) returns (r: Outcome<Error>)
      modifies this`accounts
      ensures r == NewUserCheck(old(accounts), forbiddenWords, email, username)
      ensures accounts == if r.Pass? then old(accounts) + [Account(email, username, Hash(password))] else old(accounts)
      ensures old(Valid()) ==> Valid()
    {
      r := NewUserCheck(accounts, forbiddenWords, email, username);
      if r.Pass? {
        if Valid() {
          NewUserKeepsIdentitiesUnique(accounts, forbiddenWords, Account(email, username, Hash(password)));
        }
        accounts := accounts + [Account(email, username, Hash(password))];
      }
    }

    /** The `POST /signup` handler: every failure is answered with status
        400, which is the code of every error it can meet; success returns a
        token for the new username, and signing in with the same email and
        password then yields a token for that username. */
    method Signup(body: SignupRequest, isEmail: string -> bool, now: int) returns (reply: Reply<Token>)
      modifies this`accounts
      ensures reply.Sent? <==> SignupOutcome(old(accounts), forbiddenWords, isEmail, body).Pass?
      ensures reply.Refused? ==>
        && accounts == old(accounts)
        && reply == Respond<Token>(Failure(SignupOutcome(old(accounts), forbiddenWords, isEmail, body).error))
      ensures reply.Sent? ==>
        && reply.payload == Sign(body.username.value, now, jwtSecret)
        && accounts == old(accounts) + [NewAccount(body)]
        && SigninOutcome(accounts, jwtSecret, SigninRequest(body.email, body.password), now) == Success(reply.payload)
      ensures old(Valid()) ==> Valid()
    {
      var valid := VerifySignupRequest(body, isEmail);
      if valid.Fail? {
        return Refused(400, Message(valid.error));
      }
      var added := AddNewUser(body.email.value, body.username.value, body.password.value);
      if added.Fail? {
        return Refused(400, Message(added.error));
      }
      SigninAfterSignup(old(accounts), forbiddenWords, isEmail, body, jwtSecret, now);
      reply := Sent(Sign(body.username.value, now, jwtSecret));
    }

    /** The `POST /signin` handler: its fixed status 400 is the code of every
        error it can meet. */
    method Signin(body: SigninRequest, now: int) returns (reply: Reply<Token>)
      ensures reply == Respond(SigninOutcome(accounts, jwtSecret, body, now))
    {
      var valid := VerifySigninRequest(body);
      if valid.Fail? {
        return Refused(400, Message(valid.error));
      }
      var user := GetUserByEmailAndPassword(accounts, body.email.value, body.password.value);
      if user.Failure? {
        return Refused(400, Message(user.error));
      }
      reply := Sent(Sign(user.value.username, now, jwtSecret));
    }
  }
}
