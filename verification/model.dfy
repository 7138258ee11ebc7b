/** Records of the account database and the values the route handlers
    exchange with their callers (request inputs, session, JSON responses). */
module Model {

  datatype Option<+T> = None | Some(value: T)

  type UserId = string
  type Email = string

  /** JavaScript truthiness of an optional string: present and non-empty. */
  predicate Truthy(s: Option<string>) {
    s.Some? && s.value != ""
  }

  /** A row of the User table, restricted to the columns the handlers read or write.
      `surname` is the column the profile update writes, `lastName` the one the
      profile read selects. */
  datatype User = User(
    id: UserId,
    email: Email,
    username: string,
    role: string,
    name: Option<string>,
    surname: Option<string>,
    lastName: Option<string>,
    phone: Option<string>,
    image: Option<string>,
    passwordHash: string)

  /** A row of the UserEmail table: an additional address owned by a user. */
  datatype UserEmail = UserEmail(
    userId: UserId,
    email: Email,
    verified: bool,
    isPrimary: bool,
    createdAt: int)

  /** A row of the EmailVerificationToken table; `expires` in milliseconds. */
  datatype VerificationToken = VerificationToken(email: Email, token: string, expires: int)

  /** A verification message handed to the mail service: recipient and the token its link carries. */
  datatype Mail = Mail(to: Email, token: string)

  /** The `user` part of what the session lookup returns. */
  datatype SessionUser = SessionUser(id: Option<UserId>, email: Option<Email>)

  datatype Session = Session(user: Option<SessionUser>)

  /** `session.user?.email || ''`: the address the handlers look the caller up by. */
  function SessionEmail(session: Session): (e: Email)
    ensures e != "" <==> session.user.Some? && Truthy(session.user.value.email)
    ensures e != "" ==> e == session.user.value.email.value
  {
    if session.user.Some? && session.user.value.email.Some? then session.user.value.email.value else ""
  }

  /** `session?.user?.id`, present only when it is truthy. */
  function SessionUserId(session: Option<Session>): (id: Option<UserId>)
    ensures id.Some? <==> session.Some? && session.value.user.Some? && Truthy(session.value.user.value.id)
    ensures id.Some? ==> id.value != "" && id == session.value.user.value.id
  {
    if session.Some? && session.value.user.Some? && Truthy(session.value.user.value.id)
    then session.value.user.value.id
    else None
  }

  /** The columns the profile read selects (no password hash). */
  datatype ProfileView = ProfileView(
    id: UserId,
    name: Option<string>,
    lastName: Option<string>,
    username: string,
    email: Email,
    phone: Option<string>,
    image: Option<string>,
    role: string)

  /** The columns the profile update selects (no password hash). */
  datatype UpdatedProfileView = UpdatedProfileView(
    id: UserId,
    name: Option<string>,
    surname: Option<string>,
    username: string,
    email: Email,
    phone: Option<string>,
    image: Option<string>,
    role: string)

  datatype Activity = Activity(id: nat, action: string, timestamp: int)

  datatype Dashboard = Dashboard(
    totalUsers: nat,
    totalAdmins: nat,
    usersByRole: map<string, nat>,
    recentActivity: seq<Activity>)

  /** The JSON bodies the modelled handlers return. */
  datatype Body =
    | Failure(error: string)
    | Message(message: string)
    | Verified(message: string, success: bool)
    | EmailAdded(message: string, email: UserEmail)
    | EmailList(primaryEmail: Email, additionalEmails: seq<UserEmail>)
    | Profile(user: ProfileView)
    | ProfileUpdated(message: string, updated: UpdatedProfileView)
    | UsernameChanged(message: string, username: string)
    | AdminAccess(message: string, data: Dashboard)

  datatype Response = Response(status: nat, body: Body)

  const InternalError: Response := Response(500, Failure("Internal server error"))
}
