/** The access gate every protected route goes through, and the session
    updates made by login and logout. The password check (bcrypt's
    `checkpw`) is a parameter: a predicate on the submitted password and the
    stored hash. bcrypt raises an error on a malformed stored hash; the model
    takes every stored hash to be well-formed. */
module Auth {
  import opened Records

  /** What `login_required` does with a request. */
  datatype Guarded<T> =
    | Unauthorized       // JSON {"message": "Unauthorized"} with status 401
    | RedirectToLogin    // redirect to the login page
    | Handled(response: T)

  /** Without `user_id` in the session, paths starting with `/api` get 401 and
      all others a redirect, and the wrapped handler contributes nothing;
      with `user_id` present, the handler's response is returned as it is. */
  function LoginRequired<T>(sessionUser: Option<int>, path: string, handler: () -> T): (r: Guarded<T>)
    ensures r.Handled? <==> sessionUser.Some?
    ensures r.Unauthorized? <==> sessionUser.None? && "/api" <= path
    ensures r.RedirectToLogin? <==> sessionUser.None? && !("/api" <= path)
    ensures r.Handled? ==> r.response == handler()
  {
    if sessionUser.None? then
      if "/api" <= path then Unauthorized else RedirectToLogin
    else Handled(handler())
  }

  /** `SELECT id, password FROM Users WHERE username = ?` with `fetchone()`. */
  function FindUser(users: seq<User>, username: string): (r: Option<User>)
    ensures r.None? <==> forall u :: u in users ==> u.username != username
    ensures r.Some? ==> r.value in users && r.value.username == username
  {
    match FirstIndex(users, (u: User) => u.username == username)
    case None => None
    case Some(i) => Some(users[i])
  }

  /** The user id a login stores in the session, or None for invalid credentials. */
  function Authenticate(users: seq<User>, username: string, password: string,
                        checkpw: (string, string) -> bool): (r: Option<int>)
    ensures r.Some? ==> exists u :: u in users && u.username == username && u.id == r.value
                                   && checkpw(password, u.passwordHash)
    ensures (forall u :: u in users ==> u.username != username) ==> r.None?
  {
    match FindUser(users, username)
    case None => None
    case Some(user) => if checkpw(password, user.passwordHash) then Some(user.id) else None
  }

  /** Usernames are unique (the UNIQUE constraint). */
  ghost predicate UniqueUsernames(users: seq<User>)
  {
    forall i, j :: 0 <= i < j < |users| ==> users[i].username != users[j].username
  }

  /** With unique usernames, a login succeeds with id `id` exactly when a user
      with that name and id exists and the password check holds for its hash. */
  lemma AuthenticateExactly(users: seq<User>, username: string, password: string,
                            checkpw: (string, string) -> bool, id: int)
    requires UniqueUsernames(users)
    ensures Authenticate(users, username, password, checkpw) == Some(id) <==>
            exists u :: u in users && u.username == username && u.id == id && checkpw(password, u.passwordHash)
  {
    if u :| u in users && u.username == username && u.id == id && checkpw(password, u.passwordHash) {
      var found := FindUser(users, username);
      var a :| 0 <= a < |users| && users[a] == u;
      var b :| 0 <= b < |users| && users[b] == found.value;
      assert a == b;
    }
  }

  /** The page the POST to /login answers with. */
  datatype LoginOutcome = RedirectToZoneOverview | InvalidCredentials

  /** The server-side session of one client; only `user_id` is read or written. */
  class Session {
    var userId: Option<int>

    /** A fresh session is anonymous. */
    constructor()
      ensures userId == None
    {
      userId := None;
    }

    /** POST /login: on a credential match `user_id` is set to the user's id and
        the client is sent to the zone overview; otherwise the form is shown
        again with a generic error and the session is left as it was. */
    method Login(users: seq<User>, username: string, password: string,
                 checkpw: (string, string) -> bool)
      returns (outcome: LoginOutcome)
      modifies this
      ensures outcome == RedirectToZoneOverview <==>
                Authenticate(users, username, password, checkpw).Some?
      ensures userId == if outcome == RedirectToZoneOverview
                        then Authenticate(users, username, password, checkpw)
                        else old(userId)
    {
      var user := FindUser(users, username);
      if user.Some? && checkpw(password, user.value.passwordHash) {
        userId := Some(user.value.id);
        outcome := RedirectToZoneOverview;
      } else {
        outcome := InvalidCredentials;
      }
    }

    /** GET /logout: `session.pop('user_id', None)`; whatever the state before,
        the session is anonymous afterwards, so a second logout changes nothing. */
    method Logout()
      modifies this
      ensures userId == None
    {
      userId := None;
    }
  }
}
