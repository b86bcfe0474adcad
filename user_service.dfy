/**
 * The user service: logging in, looking a user up by session token, and
 * registering. It works on the same Users table as the user repository.
 */
module UserLogin {
  import opened Wrappers
  import opened Text
  import opened Numbers
  import opened Errors
  import opened Tokens
  import opened Users

  /** The credentials a successful login hands out. */
  datatype UserCreds = UserCreds(sid: string, lsid: string, cltoken: string)

  class UserService {
    const users: UserRepository

    constructor (users: UserRepository)
      ensures this.users == users
    {
      this.users := users;
    }

    /**
     * `login`: an unknown email is `NonExistUser`, a wrong password
     * `WrongPassword`; otherwise the stored token's session id (twice) and
     * the token printed again. The stored token is parsed before the
     * password is checked, and the source panics if it does not parse.
     */
    function Login(email: string, password: string): (r: Result<UserCreds, Error>)
      reads this, users
      requires users.GetUserByEmail(email).Some? ==> IsValid(users.GetUserByEmail(email).value.token)
      ensures users.GetUserByEmail(email).None? <==> r == Err(NonExistUser(email))
      ensures r.Ok? <==>
        users.GetUserByEmail(email).Some? && MatchPassword(users.GetUserByEmail(email).value, password, users.hash)
      ensures r == Err(WrongPassword) <==>
        users.GetUserByEmail(email).Some? && !MatchPassword(users.GetUserByEmail(email).value, password, users.hash)
      ensures r.Ok? ==>
        var t := UserToken(users.GetUserByEmail(email).value);
        && MatchPassword(users.GetUserByEmail(email).value, password, users.hash)
        && r.value.sid == t.sid && r.value.lsid == t.sid
        && r.value.cltoken == ToString(t) && Parse(r.value.cltoken) == Some(t)
    {
      match users.GetUserByEmail(email)
      case None => Err(NonExistUser(email))
      case Some(user) =>
        var token := UserToken(user);
        if MatchPassword(user, password, users.hash) then
          ParseToString(token);
          Ok(UserCreds(token.sid, token.sid, ToString(token)))
        else Err(WrongPassword)
    }

    /** `get_user`: the user holding the session token, or `InvalidToken`. */
    function GetUser(token: string): (r: Result<User, Error>)
      reads this, users
      ensures r.Err? <==> forall u :: u in users.rows ==> u.token != token
      ensures r.Err? ==> r.error == InvalidToken(token)
      ensures r.Ok? ==> r.value in users.rows && r.value.token == token
    {
      match users.GetUserByToken(token)
      case None => Err(InvalidToken(token))
      case Some(user) => Ok(user)
    }

    /** `create_user`: the repository's `create_user` on the same table. */
    method CreateUser(email: string, password: string, newId: string, nowS: int, sid: string) returns (u: User)
      modifies users
      ensures old(users.GetUserByEmail(email)).Some? ==> u == old(users.GetUserByEmail(email)).value && users.rows == old(users.rows)
      ensures old(users.GetUserByEmail(email)).None? ==>
        && u == NewUser(newId, email, password, nowS, sid, users.hash)
        && users.rows == old(users.rows) + [u]
      ensures users.GetUserByEmail(email) == Some(u)
    {
      u := users.CreateUser(email, password, newId, nowS, sid);
    }

    /**
     * `register`: `create_user`, whose result is always present. A new email
     * with server-generated ids can then log in with its password.
     */
    method Register(email: string, password: string, newId: string, nowS: int, sid: string) returns (r: Result<(), Error>)
      modifies users
      ensures r.Ok?
      ensures old(users.GetUserByEmail(email)).Some? ==> users.rows == old(users.rows)
      ensures old(users.GetUserByEmail(email)).None? ==>
        users.rows == old(users.rows) + [NewUser(newId, email, password, nowS, sid, users.hash)]
      ensures old(users.GetUserByEmail(email)).None? && IsAlphanumeric(newId) && IsAlphanumeric(sid) && InI64(nowS + Lifetime) ==>
        IsValid(users.GetUserByEmail(email).value.token) &&
        Login(email, password) == Ok(UserCreds(sid, sid, NewUser(newId, email, password, nowS, sid, users.hash).token))
    {
      var u := CreateUser(email, password, newId, nowS, sid);
      if old(users.GetUserByEmail(email)).None? && IsAlphanumeric(newId) && IsAlphanumeric(sid) && InI64(nowS + Lifetime) {
        NewUserLogsIn(email, password, newId, nowS, sid);
      }
      r := Ok(());
    }

    /**
     * A user stored as `User::new` built it, with server-generated ids, logs
     * in with its password and receives its own token and session id.
     */
    lemma NewUserLogsIn(email: string, password: string, id: string, nowS: int, sid: string)
      requires IsAlphanumeric(id) && IsAlphanumeric(sid)
      requires InI64(nowS + Lifetime)
      requires users.GetUserByEmail(email) == Some(NewUser(id, email, password, nowS, sid, users.hash))
      ensures IsValid(users.GetUserByEmail(email).value.token) &&
        Login(email, password) == Ok(UserCreds(sid, sid, NewUser(id, email, password, nowS, sid, users.hash).token))
    {
      NewUserCredentials(id, email, password, nowS, sid, users.hash);
    }
  }

  /**
   * A user created with server-generated ids has a valid token, matches its
   * password, and its token reprints as stored and carries the session id:
   * the facts a successful login hands out.
   */
  lemma NewUserCredentials(id: string, email: string, password: string, nowS: int, sid: string, hash: string -> string)
    requires IsAlphanumeric(id) && IsAlphanumeric(sid)
    requires InI64(nowS + Lifetime)
    ensures var u := NewUser(id, email, password, nowS, sid, hash);
      && IsValid(u.token)
      && MatchPassword(u, password, hash)
      && ToString(UserToken(u)) == u.token
      && UserToken(u).sid == sid
  {
    NewUserToken(id, email, password, nowS, sid, hash);
  }
}
