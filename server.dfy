/** The application's routing order: the auth router is mounted first, then
    the auth guard, then the habit and habit-log routers, so every route
    except the auth routes passes the guard first. */
module Server {
  import opened Common
  import opened Crypto
  import opened UserController
  import opened AuthMiddleware

  /** The routes the three routers declare: `/api/auth` register, login,
      me and logout; `/api/habits` create, list, update, delete and summary;
      `/api/habit-logs` list and create. */
  datatype Route =
    | Register | Login | Me | Logout
    | CreateHabit | ListHabits | UpdateHabit | RemoveHabit | Summary
    | ListLogs | CreateLog

  /** Routes mounted before the guard. */
  predicate IsAuthRoute(route: Route) {
    route.Register? || route.Login? || route.Me? || route.Logout?
  }

  /** How a request reaches its handler. */
  datatype Admission = Open | Admitted(userId: Id) | Refused(reply: Reply<()>)

  /** What happens to a request before its handler runs. */
  function Admit(route: Route, token: Option<string>, jwt: Jwt): (a: Admission)
    ensures a.Open? <==> IsAuthRoute(route)
    ensures !IsAuthRoute(route) ==>
      match Authenticate(token, jwt)
      case Reject(reply) => a == Refused(reply)
      case Next(uid) => a == Admitted(uid)
  {
    if IsAuthRoute(route) then Open
    else match Authenticate(token, jwt)
      case Reject(reply) => Refused(reply)
      case Next(uid) => Admitted(uid)
  }

  /** Without a session cookie only the auth routes are reachable. */
  lemma NoCookieOnlyAuthRoutes(route: Route, token: Option<string>, jwt: Jwt)
    requires !Truthy(token)
    ensures IsAuthRoute(route) ==> Admit(route, token, jwt) == Open
    ensures !IsAuthRoute(route) ==> Admit(route, token, jwt) == Refused(Say(401, "Not authorized"))
  {
  }

  /** The cookie a successful login sets identifies the user to
      `getCurrentUser` and to the guard. */
  lemma {:induction false} SessionCookieAdmits(users: seq<User>, email: string, password: string,
                                               bcrypt: Bcrypt, jwt: Jwt, route: Route)
    requires VerifiesOwnTokens(jwt)
    requires LoginUser(users, email, password, bcrypt, jwt).status == 200
    ensures var c := LoginUser(users, email, password, bcrypt, jwt).cookie;
      && c.SetCookie? && c.name == AuthCookie
      && GetCurrentUser(Some(c.value), jwt) == Send(200, email)
      && (!IsAuthRoute(route) ==> Admit(route, Some(c.value), jwt) == Admitted(FindByEmail(users, email).value.id))
  {
    var u := FindByEmail(users, email).value;
    var p := TokenPayload(u.id, u.email);
    assert jwt.sign(p) != "" && jwt.verify(jwt.sign(p)) == Some(p);
  }

  /** Every registered user with the right password gets past the guard. */
  lemma RegisteredUserAdmitted(users: seq<User>, u: User, password: string,
                               bcrypt: Bcrypt, jwt: Jwt, route: Route)
    requires MatchesOwnHash(bcrypt) && VerifiesOwnTokens(jwt)
    requires UniqueEmails(users) && FindByEmail(users, u.email).None?
    requires u.passwordHash == bcrypt.hash(password)
    requires !IsAuthRoute(route)
    ensures Admit(route, Some(jwt.sign(TokenPayload(u.id, u.email))), jwt) == Admitted(u.id)
  {
    LoginAfterRegister(users, u, password, bcrypt, jwt);
    SessionCookieAdmits(users + [u], u.email, password, bcrypt, jwt, route);
  }
}
