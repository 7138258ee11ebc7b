/** The caller's profile: GET reads the selected columns, PUT validates the
    supplied fields and writes exactly those. */
module Profile {
  import opened Model
  import opened Database

  /** The JSON body of PUT; None stands for a field that is `undefined`. */
  datatype ProfileInput = ProfileInput(
    name: Option<string>,
    surname: Option<string>,
    username: Option<string>,
    phone: Option<string>)

  const MinUsernameLength: nat := 3

  /** `username && username.length < 3`: an empty username is not checked. */
  predicate UsernameTooShort(username: Option<string>) {
    Truthy(username) && |username.value| < MinUsernameLength
  }

  predicate IsDigit(c: char) {
    '0' <= c <= '9'
  }

  /** `[1-9]\d{1,14}`: a non-zero digit followed by one to fourteen digits. */
  predicate DigitRun(d: string) {
    2 <= |d| <= 15 && '1' <= d[0] <= '9' && forall i :: 1 <= i < |d| ==> IsDigit(d[i])
  }

  /** The language of /^[+]?[1-9]\d{1,14}$/. */
  predicate MatchesPhonePattern(p: string) {
    (p != [] && p[0] == '+' && DigitRun(p[1..])) || DigitRun(p)
  }

  /** An accepted number is 2 to 16 characters long, is all digits after an
      optional leading `+`, and its first digit is not zero. */
  lemma PhoneShape(p: string)
    requires MatchesPhonePattern(p)
    ensures 2 <= |p| <= 16
    ensures forall i :: 0 <= i < |p| ==> IsDigit(p[i]) || (i == 0 && p[i] == '+')
    ensures p[0] != '0' && (p[0] == '+' ==> p[1] != '0')
  {
    if p[0] == '+' {
      forall i | 1 <= i < |p| ensures IsDigit(p[i]) {
        assert p[i] == p[1..][i - 1];
      }
    }
  }

  /** The leading `+` is optional and never doubled. */
  lemma PhonePlusOptional(d: string)
    requires d == [] || d[0] != '+'
    ensures MatchesPhonePattern(['+'] + d) <==> MatchesPhonePattern(d)
    ensures !MatchesPhonePattern(['+', '+'] + d)
  {
    assert (['+'] + d)[1..] == d;
    assert (['+', '+'] + d)[1..] == ['+'] + d;
  }

  /** `phone && !/^[+]?[1-9]\d{1,14}$/.test(phone)`: an empty phone is not checked. */
  predicate PhoneRejected(phone: Option<string>) {
    Truthy(phone) && !MatchesPhonePattern(phone.value)
  }

  /** `findFirst({ where: { username, NOT: { email } } })` finds someone. */
  predicate UsernameTakenElsewhere(users: map<UserId, User>, username: string, sessionEmail: Email) {
    exists id :: id in users && users[id].username == username && users[id].email != sessionEmail
  }

  /** With unique usernames, the query finds someone exactly when the username's
      holder is a user other than the one with the caller's address. */
  lemma TakenElsewhereIsOtherHolder(users: map<UserId, User>, username: string, sessionEmail: Email)
    requires UsernamesUnique(users)
    ensures UsernameTakenElsewhere(users, username, sessionEmail) <==>
      var holder := FindUserByUsername(users, username);
      holder.Some? && users[holder.value].email != sessionEmail
  {
  }

  /** Keeping one's own username is never a conflict. */
  lemma OwnUsernameNotTaken(users: map<UserId, User>, id: UserId)
    requires UsernamesUnique(users) && id in users
    ensures !UsernameTakenElsewhere(users, users[id].username, users[id].email)
  {
  }

  /** The checks PUT makes before it writes anything, in source order; None when
      every check passes. */
  function ProfileRejection(session: Option<Session>, input: ProfileInput, users: map<UserId, User>): (r: Option<Response>)
    ensures r.None? <==>
      && session.Some? && !UsernameTooShort(input.username) && !PhoneRejected(input.phone)
      && !(Truthy(input.username) && UsernameTakenElsewhere(users, input.username.value, SessionEmail(session.value)))
    ensures session.None? ==> r == Some(Response(401, Failure("Not authenticated")))
    ensures session.Some? && UsernameTooShort(input.username) ==>
      r == Some(Response(400, Failure("Username must be at least 3 characters long")))
    ensures session.Some? && !UsernameTooShort(input.username) && PhoneRejected(input.phone) ==>
      r == Some(Response(400, Failure("Invalid phone number format")))
    ensures session.Some? && !UsernameTooShort(input.username) && !PhoneRejected(input.phone) &&
            Truthy(input.username) && UsernameTakenElsewhere(users, input.username.value, SessionEmail(session.value)) ==>
      r == Some(Response(400, Failure("Username is already taken")))
    ensures r.Some? ==> r.value.status in {400, 401}
  {
    if session.None? then Some(Response(401, Failure("Not authenticated")))
    else if UsernameTooShort(input.username) then Some(Response(400, Failure("Username must be at least 3 characters long")))
    else if PhoneRejected(input.phone) then Some(Response(400, Failure("Invalid phone number format")))
    else if Truthy(input.username) && UsernameTakenElsewhere(users, input.username.value, SessionEmail(session.value))
    then Some(Response(400, Failure("Username is already taken")))
    else None
  }

  /** An empty username or phone passes validation and is still written, since it is
      not `undefined`. */
  lemma EmptyFieldsSkipValidation(session: Session, input: ProfileInput, users: map<UserId, User>, u: User)
    requires input.username == Some("") && input.phone == Some("")
    ensures ProfileRejection(Some(session), input, users).None?
    ensures ApplyProfileUpdate(u, input).username == "" && ApplyProfileUpdate(u, input).phone == Some("")
  {
  }

  /** The spread of the defined fields into the update: only supplied fields change. */
  function ApplyProfileUpdate(u: User, input: ProfileInput): (v: User)
    ensures v.id == u.id && v.email == u.email && v.role == u.role && v.lastName == u.lastName
    ensures v.image == u.image && v.passwordHash == u.passwordHash
    ensures input.name.Some? ==> v.name == input.name
    ensures input.name.None? ==> v.name == u.name
    ensures input.surname.Some? ==> v.surname == input.surname
    ensures input.surname.None? ==> v.surname == u.surname
    ensures input.username.Some? ==> v.username == input.username.value
    ensures input.username.None? ==> v.username == u.username
    ensures input.phone.Some? ==> v.phone == input.phone
    ensures input.phone.None? ==> v.phone == u.phone
  {
    u.(name := if input.name.Some? then input.name else u.name,
       surname := if input.surname.Some? then input.surname else u.surname,
       username := if input.username.Some? then input.username.value else u.username,
       phone := if input.phone.Some? then input.phone else u.phone)
  }

  /** Applying the same update twice is the same as applying it once. */
  lemma ApplyProfileUpdateIdempotent(u: User, input: ProfileInput)
    ensures ApplyProfileUpdate(ApplyProfileUpdate(u, input), input) == ApplyProfileUpdate(u, input)
  {
  }

  function ProfileViewOf(u: User): (v: ProfileView) {
    ProfileView(u.id, u.name, u.lastName, u.username, u.email, u.phone, u.image, u.role)
  }

  function UpdatedViewOf(u: User): (v: UpdatedProfileView) {
    UpdatedProfileView(u.id, u.name, u.surname, u.username, u.email, u.phone, u.image, u.role)
  }

  /** GET: the caller's selected columns. */
  function GetProfile(session: Option<Session>, users: map<UserId, User>): (r: Response)
    requires EmailsUnique(users)
    ensures session.None? ==> r == Response(401, Failure("Not authenticated"))
    ensures session.Some? && (forall id :: id in users ==> users[id].email != SessionEmail(session.value)) ==>
      r == Response(404, Failure("User not found"))
    ensures r.status == 200 <==>
      session.Some? && exists id :: id in users && users[id].email == SessionEmail(session.value)
    ensures r.status == 200 ==>
      session.Some? &&
      exists id :: id in users && users[id].email == SessionEmail(session.value) &&
        r.body == Profile(ProfileViewOf(users[id]))
    ensures r.status in {200, 401, 404}
  {
    if session.None? then Response(401, Failure("Not authenticated"))
    else
      var found := FindUserByEmail(users, SessionEmail(session.value));
      if found.None? then Response(404, Failure("User not found"))
      else Response(200, Profile(ProfileViewOf(users[found.value])))
  }

  /** `username` is held by a user other than `id` (the column's unique constraint). */
  predicate UsernameHeldByOther(users: map<UserId, User>, id: UserId, username: string) {
    exists j :: j in users && j != id && users[j].username == username
  }

  /** PUT: validate and apply `input` to the caller's row. The write targets the row
      with the caller's address; a missing row and a unique-constraint failure are the
      two ways the write throws. */
  method UpdateProfile(store: Store, session: Option<Session>, input: ProfileInput) returns (r: Response)
    requires store.Valid()
    modifies store
    ensures store.Valid()
    ensures store.userEmails == old(store.userEmails) && store.tokens == old(store.tokens)
    ensures store.outbox == old(store.outbox)
    ensures ProfileRejection(session, input, old(store.users)).Some? ==>
      r == ProfileRejection(session, input, old(store.users)).value && store.users == old(store.users)
    ensures ProfileRejection(session, input, old(store.users)).None? ==>
      var found := FindUserByEmail(old(store.users), SessionEmail(session.value));
      && (found.None? ==> r == InternalError && store.users == old(store.users))
      && (found.Some? ==>
            var updated := ApplyProfileUpdate(old(store.users)[found.value], input);
            && (UsernameHeldByOther(old(store.users), found.value, updated.username) ==>
                  r == Response(400, Failure("Username is already taken")) && store.users == old(store.users))
            && (!UsernameHeldByOther(old(store.users), found.value, updated.username) ==>
                  && r == Response(200, ProfileUpdated("Profile updated successfully", UpdatedViewOf(updated)))
                  && store.users == old(store.users)[found.value := updated]))
    ensures r.status != 200 ==> store.users == old(store.users)
  {
    var rejection := ProfileRejection(session, input, store.users);
    if rejection.Some? {
      return rejection.value;
    }
    var found := FindUserByEmail(store.users, SessionEmail(session.value));
    if found.None? {
      // The update finds no row to write: the store reports a missing record.
      return InternalError;
    }
    var id := found.value;
    var updated := ApplyProfileUpdate(store.users[id], input);
    if UsernameHeldByOther(store.users, id, updated.username) {
      // The store rejects the write on the username's unique constraint.
      return Response(400, Failure("Username is already taken"));
    }
    store.users := store.users[id := updated];
    r := Response(200, ProfileUpdated("Profile updated successfully", UpdatedViewOf(updated)));
  }
}
