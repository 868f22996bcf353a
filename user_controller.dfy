/** The user controller: registration over the user collection, and the
    login, current-user and logout decisions, whose only effect besides the
    reply is the session cookie. The User model's own validation is not part
    of this model: registration takes it as a predicate `accepts`. */
module UserController {
  import opened Common
  import opened Crypto

  /** A stored user; `passwordHash` is what `bcrypt.hash` returned. */
  datatype User = User(id: Id, name: Option<string>, email: string, passwordHash: string)

  /** `maxAge` of the session cookie: one hour, in milliseconds. */
  const SessionMaxAgeMs: nat := 60 * 60 * 1000

  ghost predicate UniqueEmails(us: seq<User>) {
    forall i, j :: 0 <= i < j < |us| ==> us[i].email != us[j].email
  }

  ghost predicate UniqueUserIds(us: seq<User>) {
    forall i, j :: 0 <= i < j < |us| ==> us[i].id != us[j].id
  }

  /** `User.findOne({ email })`. */
  function FindByEmail(us: seq<User>, email: string): (r: Option<User>)
    ensures r.Some? ==> r.value in us && r.value.email == email
    ensures r.None? <==> forall u <- us :: u.email != email
  {
    if us == [] then None
    else if us[0].email == email then Some(us[0])
    else FindByEmail(us[1..], email)
  }

  /** Appending a user whose email is new keeps emails unique, and that user
      is then the one found by its email. */
  lemma {:induction false} AppendNewEmail(us: seq<User>, u: User)
    requires UniqueEmails(us) && FindByEmail(us, u.email).None?
    ensures UniqueEmails(us + [u])
    ensures FindByEmail(us + [u], u.email) == Some(u)
  {
    var us' := us + [u];
    forall i, j | 0 <= i < j < |us'| ensures us'[i].email != us'[j].email {
      if j == |us| {
        assert us'[i] == us[i] && us[i] in us;
      } else {
        assert us'[i] == us[i] && us'[j] == us[j];
      }
    }
    if us == [] {
      assert us' == [u];
    } else {
      assert us'[0] == us[0] && us'[1..] == us[1..] + [u];
      assert FindByEmail(us[1..], u.email).None?;
      assert UniqueEmails(us[1..]) by {
        forall i, j | 0 <= i < j < |us[1..]| ensures us[1..][i].email != us[1..][j].email {
          assert us[1..][i] == us[i + 1] && us[1..][j] == us[j + 1];
        }
      }
      AppendNewEmail(us[1..], u);
    }
  }

  /** `loginUser`: unknown email, wrong password, or a session cookie
      carrying a token for the user's id and email. */
  function LoginUser(users: seq<User>, email: string, password: string, bcrypt: Bcrypt, jwt: Jwt): (r: Reply<()>)
    ensures FindByEmail(users, email).None? ==> r == Say(401, "User not found")
    ensures FindByEmail(users, email).Some? ==>
      var u := FindByEmail(users, email).value;
      if bcrypt.compare(password, u.passwordHash) then
        r == Reply(200, Message("Login successful"),
                   SetCookie(AuthCookie, jwt.sign(TokenPayload(u.id, u.email)), SessionMaxAgeMs))
      else r == Say(401, "Invalid credentials")
    ensures r.cookie != NoCookie <==> r.status == 200
  {
    match FindByEmail(users, email)
    case None => Say(401, "User not found")
    case Some(u) =>
      if !bcrypt.compare(password, u.passwordHash) then Say(401, "Invalid credentials")
      else
        var token := jwt.sign(TokenPayload(u.id, u.email));
        Reply(200, Message("Login successful"), SetCookie(AuthCookie, token, SessionMaxAgeMs))
  }

  /** `getCurrentUser`: the email carried by a valid session token. */
  function GetCurrentUser(token: Option<string>, jwt: Jwt): (r: Reply<string>)
    ensures !Truthy(token) ==> r == Say(401, "Not logged in")
    ensures Truthy(token) && jwt.verify(token.value).None? ==> r == Say(401, "Invalid token")
    ensures Truthy(token) && jwt.verify(token.value).Some? ==>
      r == Send(200, jwt.verify(token.value).value.email)
    ensures r.cookie == NoCookie
  {
    if !Truthy(token) then Say(401, "Not logged in")
    else match jwt.verify(token.value)
      case None => Say(401, "Invalid token")
      case Some(decoded) => Send(200, decoded.email)
  }

  /** `logoutUser`: always succeeds and clears the session cookie. */
  function LogoutUser(): (r: Reply<()>)
    ensures r.status == 200 && r.body == Message("Logged out")
    ensures r.cookie == ClearCookie(AuthCookie)
  {
    Reply(200, Message("Logged out"), ClearCookie(AuthCookie))
  }

  /** A user who registered with a password can log in with it. */
  lemma LoginAfterRegister(users: seq<User>, u: User, password: string, bcrypt: Bcrypt, jwt: Jwt)
    requires MatchesOwnHash(bcrypt)
    requires UniqueEmails(users) && FindByEmail(users, u.email).None?
    requires u.passwordHash == bcrypt.hash(password)
    ensures LoginUser(users + [u], u.email, password, bcrypt, jwt)
            == Reply(200, Message("Login successful"),
                     SetCookie(AuthCookie, jwt.sign(TokenPayload(u.id, u.email)), SessionMaxAgeMs))
  {
    AppendNewEmail(users, u);
  }

  /** The user collection. */
  class UserStore {
    var users: seq<User>
    var nextId: nat

    /** Emails and ids are unique, ids below the next fresh id. */
    ghost predicate Valid()
      reads this
    {
      && UniqueEmails(users)
      && UniqueUserIds(users)
      && (forall u <- users :: u.id < nextId)
    }

    constructor ()
      ensures Valid() && users == []
    {
      users := [];
      nextId := 0;
    }

    /** `registerUser`: refuse a known email, otherwise store the user with
        the hash of the password. */
    method RegisterUser(name: Option<string>, email: string, password: string, bcrypt: Bcrypt, accepts: User -> bool)
      returns (r: Reply<()>)
      requires Valid()
      modifies this
      ensures Valid()
      ensures FindByEmail(old(users), email).Some? ==>
        users == old(users) && r == Say(400, "User already exists")
      ensures FindByEmail(old(users), email).None? ==>
        var u := User(old(nextId), name, email, bcrypt.hash(password));
        if accepts(u) then users == old(users) + [u] && r == Say(201, "Registered successfully")
        else users == old(users) && r == Say(500, "Server error during registration")
    {
      var existing := FindByEmail(users, email);
      if existing.Some? {
        return Say(400, "User already exists");
      }
      var passwordHash := bcrypt.hash(password);
      var newUser := User(nextId, name, email, passwordHash);
      if !accepts(newUser) {
        return Say(500, "Server error during registration");
      }
      AppendNewEmail(users, newUser);
      users := users + [newUser];
      nextId := nextId + 1;
      r := Say(201, "Registered successfully");
    }
  }
}
