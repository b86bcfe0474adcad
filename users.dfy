/**
 * The Users table: a user's record, its password check and session token,
 * and the table with its create, update and lookup operations.
 *
 * The password hash (Rust's `DefaultHasher`) is a deterministic function
 * the model does not look into: it is a parameter. The random user id, the
 * random session id and the clock reading are parameters as well.
 */
module Users {
  import opened Wrappers
  import opened Text
  import opened Numbers
  import opened Tokens

  datatype User = User(id: string, email: string, passwordHash: string, token: string)

  /** `User::new`: the hashed password and a fresh token for the user id. */
  function NewUser(id: string, email: string, password: string, nowS: int, sid: string, hash: string -> string): (u: User)
    ensures u.id == id && u.email == email && u.passwordHash == hash(password)
    ensures u.token == ToString(NewToken(id, nowS, sid))
  {
    User(id, email, hash(password), ToString(NewToken(id, nowS, sid)))
  }

  /** `User::match_password`. */
  predicate MatchPassword(u: User, password: string, hash: string -> string) {
    u.passwordHash == hash(password)
  }

  /** `User::token`: the stored token, parsed; the source panics on one that does not parse. */
  function UserToken(u: User): (t: Token)
    requires IsValid(u.token)
    ensures Parse(u.token) == Some(t) && WellFormed(t)
  {
    Parse(u.token).value
  }

  /**
   * A new user's password matches, and another password matches exactly when
   * it hashes alike.
   */
  lemma NewUserPassword(id: string, email: string, password: string, other: string, nowS: int, sid: string, hash: string -> string)
    ensures MatchPassword(NewUser(id, email, password, nowS, sid, hash), password, hash)
    ensures MatchPassword(NewUser(id, email, password, nowS, sid, hash), other, hash) <==> hash(other) == hash(password)
  {
  }

  /**
   * The token of a new user with server-generated ids parses, names the
   * user, and expires 14 days after its creation.
   */
  lemma NewUserToken(id: string, email: string, password: string, nowS: int, sid: string, hash: string -> string)
    requires IsAlphanumeric(id) && IsAlphanumeric(sid)
    requires InI64(nowS + Lifetime)
    ensures IsValid(NewUser(id, email, password, nowS, sid, hash).token)
    ensures UserToken(NewUser(id, email, password, nowS, sid, hash)) == NewToken(id, nowS, sid)
    ensures UserToken(NewUser(id, email, password, nowS, sid, hash)).id == id
  {
    NewTokenWellFormed(id, nowS, sid);
  }

  /** The first row that `p` accepts, as a `fetch_optional` returns it. */
  function First(rows: seq<User>, p: User -> bool): (r: Option<User>)
    ensures r.None? <==> forall i :: 0 <= i < |rows| ==> !p(rows[i])
    ensures r.Some? ==> exists i :: 0 <= i < |rows| && rows[i] == r.value && p(r.value) && forall j :: 0 <= j < i ==> !p(rows[j])
  {
    if rows == [] then None
    else if p(rows[0]) then Some(rows[0])
    else
      var r := First(rows[1..], p);
      assert forall i :: 1 <= i < |rows| ==> rows[i] == rows[1..][i - 1];
      if r.Some? then
        var i :| 0 <= i < |rows[1..]| && rows[1..][i] == r.value && p(r.value) && forall j :: 0 <= j < i ==> !p(rows[1..][j]);
        assert rows[i + 1] == r.value;
        r
      else r
  }

  /** `UPDATE ... WHERE id = ?`: every row with the user's id becomes the user. */
  function ReplaceById(rows: seq<User>, u: User): (r: seq<User>)
    ensures |r| == |rows|
    ensures forall i :: 0 <= i < |rows| ==> r[i] == if rows[i].id == u.id then u else rows[i]
  {
    seq(|rows|, i requires 0 <= i < |rows| => if rows[i].id == u.id then u else rows[i])
  }

  /** The Users table, rows in insertion order. */
  class UserRepository {
    var rows: seq<User>
    const hash: string -> string

    constructor (hash: string -> string)
      ensures rows == [] && this.hash == hash
      ensures forall s :: GetUserById(s).None? && GetUserByEmail(s).None? && GetUserByToken(s).None?
    {
      rows := [];
      this.hash := hash;
    }

    /** `get_user_by_id`. */
    function GetUserById(id: string): (r: Option<User>)
      reads this
      ensures r.None? <==> forall u :: u in rows ==> u.id != id
      ensures r.Some? ==> r.value in rows && r.value.id == id
    {
      First(rows, (u: User) => u.id == id)
    }

    /** `get_user_by_email`. */
    function GetUserByEmail(email: string): (r: Option<User>)
      reads this
      ensures r.None? <==> forall u :: u in rows ==> u.email != email
      ensures r.Some? ==> r.value in rows && r.value.email == email
    {
      First(rows, (u: User) => u.email == email)
    }

    /** `get_user_by_token`. */
    function GetUserByToken(token: string): (r: Option<User>)
      reads this
      ensures r.None? <==> forall u :: u in rows ==> u.token != token
      ensures r.Some? ==> r.value in rows && r.value.token == token
    {
      First(rows, (u: User) => u.token == token)
    }

    /**
     * `create_user`: the user already registered under `email`, unchanged,
     * or else a new user with id `newId`, appended to the table.
     */
    method CreateUser(email: string, password: string, newId: string, nowS: int, sid: string) returns (u: User)
      modifies this
      ensures old(GetUserByEmail(email)).Some? ==> u == old(GetUserByEmail(email)).value && rows == old(rows)
      ensures old(GetUserByEmail(email)).None? ==>
        && u == NewUser(newId, email, password, nowS, sid, hash)
        && rows == old(rows) + [u]
      ensures GetUserByEmail(email) == Some(u)
    {
      var existing := GetUserByEmail(email);
      if existing.Some? {
        return existing.value;
      }
      u := NewUser(newId, email, password, nowS, sid, hash);
      rows := rows + [u];
      assert forall i :: 0 <= i < |rows| - 1 ==> rows[i] in old(rows);
    }

    /** `update_user`: `None` for an unknown id; otherwise the user's rows are replaced. */
    method UpdateUser(user: User) returns (r: Option<User>)
      modifies this
      ensures old(GetUserById(user.id)).None? ==> r == None && rows == old(rows)
      ensures old(GetUserById(user.id)).Some? ==> r == Some(user) && rows == ReplaceById(old(rows), user)
      ensures r.Some? ==> GetUserById(user.id) == Some(user)
    {
      if GetUserById(user.id).None? {
        return None;
      }
      rows := ReplaceById(rows, user);
      r := Some(user);
      assert user in rows;
    }
  }

  /** A row appended after rows that `p` refuses is the first that `p` accepts. */
  lemma FirstOfAppended(rows: seq<User>, u: User, p: User -> bool)
    requires forall i :: 0 <= i < |rows| ==> !p(rows[i])
    requires p(u)
    ensures First(rows + [u], p) == Some(u)
  {
    var all := rows + [u];
    assert all[|rows|] == u;
    assert forall i :: 0 <= i < |rows| ==> all[i] == rows[i];
  }

  /**
   * A user created under a new email is found by that email, and by its id
   * and its token when no earlier row has them.
   */
  lemma CreatedUserIsFound(rows: seq<User>, u: User)
    requires forall v :: v in rows ==> v.email != u.email
    ensures First(rows + [u], (v: User) => v.email == u.email) == Some(u)
    ensures (forall v :: v in rows ==> v.id != u.id) ==> First(rows + [u], (v: User) => v.id == u.id) == Some(u)
    ensures (forall v :: v in rows ==> v.token != u.token) ==> First(rows + [u], (v: User) => v.token == u.token) == Some(u)
  {
    FirstOfAppended(rows, u, (v: User) => v.email == u.email);
    if forall v :: v in rows ==> v.id != u.id {
      FirstOfAppended(rows, u, (v: User) => v.id == u.id);
    }
    if forall v :: v in rows ==> v.token != u.token {
      FirstOfAppended(rows, u, (v: User) => v.token == u.token);
    }
  }
}
