/** The GraphQL resolvers: `register`, `login`, `revokeRefreshTokensForUser` and
    the guarded `bye` query, acting on the user table in place. */
module UserResolver {
  import opened Wrappers
  import Js
  import opened UserStore
  import opened Auth
  import Http

  datatype LoginError = CouldNotFindUser | InvalidPassword

  /** The message of the error `login` throws. */
  function Message(e: LoginError): string
  {
    match e
    case CouldNotFindUser => "could not find user"
    case InvalidPassword => "invalid password"
  }

  datatype LoginResponse = LoginResponse(accessToken: string)

  /** The credential check of `login`: the user with that email whose stored hash
      the password matches, or why there is none. */
  function Authenticate(rows: map<int, User>, email: string, password: string, c: Crypto): (r: Result<User, LoginError>)
    requires EmailsUnique(rows)
    ensures r == Failure(CouldNotFindUser) <==> !EmailTaken(rows, email)
    ensures r == Failure(InvalidPassword) <==>
              exists id :: id in rows && rows[id].email == email && !c.compare(password, rows[id].password)
    ensures r.Success? ==>
              r.value.email == email && c.compare(password, r.value.password) &&
              exists id :: id in rows && rows[id] == r.value
  {
    match FindByEmail(rows, email)
    case None => Failure(CouldNotFindUser)
    case Some(user) => if c.compare(password, user.password) then Success(user) else Failure(InvalidPassword)
  }

  /** `register`: hashes the password, then inserts a row; any failed insert
      (a duplicate email, a storage fault) yields false and leaves the table as it was. */
  method Register(table: UserTable, email: string, password: string, c: Crypto, storageFault: bool)
    returns (ok: bool)
    requires table.Valid()
    modifies table
    ensures table.Valid()
    ensures ok == InsertSucceeds(old(table.State()), email, storageFault)
    ensures table.State() == Apply(old(table.State()), RegisterUser(email, c.hash(password, BcryptCost), storageFault))
    ensures !ok ==> table.State() == old(table.State())
    ensures ok ==> table.rows[old(table.nextId)] == User(old(table.nextId), email, c.hash(password, BcryptCost), 0)
  {
    var hashedPassword := c.hash(password, BcryptCost);
    if !InsertSucceeds(table.State(), email, storageFault) {
      return false;
    }
    var inserted := Insert(table.State(), email, hashedPassword);
    table.rows, table.nextId := inserted.rows, inserted.nextId;
    return true;
  }

  /** `login`: on good credentials sets the refresh cookie and returns an access
      token, both for the user found; on bad ones sets no cookie. Never writes the table. */
  method Login(table: UserTable, email: string, password: string, c: Crypto, res: Http.Response)
    returns (r: Result<LoginResponse, LoginError>)
    requires table.Valid()
    modifies res
    ensures unchanged(table) && res.body == old(res.body)
    ensures r.Failure? ==>
              Message(r.error) == if EmailTaken(table.rows, email) then "invalid password" else "could not find user"
    ensures match Authenticate(table.rows, email, password, c)
            case Failure(e) => r == Failure(e) && res.jid == old(res.jid)
            case Success(user) =>
              && res.jid == Some(CreateRefreshToken(c, user))
              && r == Success(LoginResponse(CreateAccessToken(c, user)))
  {
    var user := FindByEmail(table.rows, email);
    if user.None? {
      return Failure(CouldNotFindUser);
    }
    var valid := c.compare(password, user.value.password);
    if !valid {
      return Failure(InvalidPassword);
    }
    res.jid := Some(CreateRefreshToken(c, user.value));
    return Success(LoginResponse(CreateAccessToken(c, user.value)));
  }

  /** Register, then log in: when bcrypt accepts the password against its own hash,
      the login finds exactly the row the registration inserted. */
  lemma RegisteredUserCanLogIn(s: Store, email: string, password: string, c: Crypto)
    requires Consistent(s) && InsertSucceeds(s, email, false)
    requires c.compare(password, c.hash(password, BcryptCost))
    ensures var after := Apply(s, RegisterUser(email, c.hash(password, BcryptCost), false));
            Authenticate(after.rows, email, password, c)
            == Success(User(s.nextId, email, c.hash(password, BcryptCost), 0))
  {
  }

  /** `revokeRefreshTokensForUser`: one more on that user's token version, nothing
      else touched; true even when no row has that id. */
  method RevokeRefreshTokensForUser(table: UserTable, userId: int) returns (b: bool)
    requires table.Valid()
    modifies table
    ensures table.Valid() && b
    ensures table.State() == Apply(old(table.State()), RevokeUser(userId))
    ensures table.nextId == old(table.nextId) && table.rows.Keys == old(table.rows).Keys
    ensures userId in table.rows ==>
              table.rows[userId] == old(table.rows[userId]).(tokenVersion := old(table.rows[userId].tokenVersion) + 1)
    ensures forall id :: id in old(table.rows) && id != userId ==> table.rows[id] == old(table.rows[id])
  {
    table.rows := Increment(table.rows, userId);
    return true;
  }

  const ByePrefix := "your user id is "

  /** `bye`, behind the isAuth middleware, which has put the verified access-token
      payload into the context. */
  function Bye(payload: Option<Js.Object>): (msg: string)
    requires payload.Some?
    ensures |msg| >= |ByePrefix| && msg[..|ByePrefix|] == ByePrefix
  {
    ByePrefix + Js.TemplateString(Js.Get(payload.value, "userId"))
  }

  /** The message names the caller: its tail reads back as the payload's user id. */
  lemma ByeNamesUser(u: User)
    ensures var tail := Bye(Some(AccessClaims(u)))[|ByePrefix|..];
            |tail| >= 1 && (tail[0] == '-' ==> Js.IsDigits(tail[1..])) && (tail[0] != '-' ==> Js.IsDigits(tail))
            && Js.IntValue(tail) == u.id
  {
    Js.IntStringRoundTrip(u.id);
  }
}
