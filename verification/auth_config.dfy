/** The credential sign-in provider and the two callbacks that carry the user's id
    and role from sign-in into the token and from the token into the session. */
module AuthConfig {
  import opened Model
  import opened Database

  datatype Credentials = Credentials(email: Option<string>, password: Option<string>)

  /** What `authorize` hands to the sign-in machinery; `name` carries the username. */
  datatype AuthUser = AuthUser(id: UserId, email: Email, name: string, role: string)

  /** `authorize`: both fields present and non-empty, a user with that address, and a
      password the (uninterpreted) `passwordMatches` check accepts. */
  function Authorize(credentials: Option<Credentials>, users: map<UserId, User>,
                     passwordMatches: (User, string) -> bool): (r: Option<AuthUser>)
    requires EmailsUnique(users)
    ensures r.Some? <==>
      && credentials.Some? && Truthy(credentials.value.email) && Truthy(credentials.value.password)
      && exists id :: id in users && users[id].email == credentials.value.email.value &&
                      passwordMatches(users[id], credentials.value.password.value)
    ensures r.Some? ==>
      exists id :: id in users && users[id].email == credentials.value.email.value &&
                   r.value == AuthUser(id, users[id].email, users[id].username, users[id].role)
  {
    if credentials.None? || !Truthy(credentials.value.email) || !Truthy(credentials.value.password) then None
    else
      var found := FindUserByEmail(users, credentials.value.email.value);
      if found.None? then None
      else
        var user := users[found.value];
        if !passwordMatches(user, credentials.value.password.value) then None
        else Some(AuthUser(found.value, user.email, user.username, user.role))
  }

  /** `user.role || 'user'` */
  function RoleOrDefault(role: string): (r: string)
    ensures r != ""
    ensures role == "" ==> r == "user"
    ensures role != "" ==> r == role
  {
    if role == "" then "user" else role
  }

  /** The session token the sign-in machinery keeps between requests. */
  class JwtToken {
    var sub: Option<string>
    var role: Option<string>

    constructor (sub: Option<string>, role: Option<string>)
      ensures this.sub == sub && this.role == role
    {
      this.sub := sub;
      this.role := role;
    }
  }

  /** The `user` object of a session. */
  class SessionUserRecord {
    var id: Option<string>
    var role: Option<string>

    constructor (id: Option<string>, role: Option<string>)
      ensures this.id == id && this.role == role
    {
      this.id := id;
      this.role := role;
    }
  }

  class AuthSession {
    var user: SessionUserRecord?

    constructor (user: SessionUserRecord?)
      ensures this.user == user
    {
      this.user := user;
    }
  }

  /** The `jwt` callback: on sign-in (a user is present) record the user's role,
      defaulting to 'user'; otherwise hand the token back untouched. */
  method Jwt(token: JwtToken, user: Option<AuthUser>) returns (r: JwtToken)
    modifies token
    ensures r == token && token.sub == old(token.sub)
    ensures user.Some? ==> token.role == Some(RoleOrDefault(user.value.role))
    ensures user.None? ==> token.role == old(token.role)
  {
    if user.Some? {
      token.role := Some(RoleOrDefault(user.value.role));
    }
    r := token;
  }

  /** The `session` callback: when the token has a subject and the session a user,
      copy the subject into the user's id and the token's role into the user's role. */
  method SessionCallback(session: AuthSession, token: JwtToken) returns (r: AuthSession)
    modifies session.user
    ensures r == session && session.user == old(session.user)
    ensures Truthy(token.sub) && session.user != null ==>
      session.user.id == token.sub && session.user.role == token.role
    ensures !(Truthy(token.sub) && session.user != null) ==>
      session.user == null || (session.user.id == old(session.user.id) && session.user.role == old(session.user.role))
  {
    if Truthy(token.sub) && session.user != null {
      session.user.id := token.sub;
      session.user.role := token.role;
    }
    r := session;
  }
}
