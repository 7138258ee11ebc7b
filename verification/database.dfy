/** The relational store the handlers share: the User, UserEmail and
    EmailVerificationToken tables, plus the outbox of verification mails. */
module Database {
  import opened Model

  /** Lifetime of a verification token: 24 hours, in milliseconds. */
  const TokenLifetime: int := 24 * 60 * 60 * 1000

  ghost predicate UsersKeyed(users: map<UserId, User>) {
    forall id :: id in users ==> users[id].id == id
  }

  /** `User.email` is a unique column. */
  ghost predicate EmailsUnique(users: map<UserId, User>) {
    forall i, j :: i in users && j in users && users[i].email == users[j].email ==> i == j
  }

  /** `User.username` is a unique column. */
  ghost predicate UsernamesUnique(users: map<UserId, User>) {
    forall i, j :: i in users && j in users && users[i].username == users[j].username ==> i == j
  }

  /** UserEmail rows are looked up by their (unique) address. */
  ghost predicate RowsKeyed(rows: map<Email, UserEmail>) {
    forall e :: e in rows ==> rows[e].email == e
  }

  /** For each user, at most one of its UserEmail rows is flagged primary. */
  ghost predicate AtMostOnePrimary(rows: map<Email, UserEmail>) {
    forall e1, e2 ::
      (e1 in rows && e2 in rows && rows[e1].isPrimary && rows[e2].isPrimary &&
       rows[e1].userId == rows[e2].userId) ==> e1 == e2
  }

  /** Only a verified row may be flagged primary. */
  ghost predicate PrimaryIsVerified(rows: map<Email, UserEmail>) {
    forall e :: e in rows && rows[e].isPrimary ==> rows[e].verified
  }

  /** Verification tokens are looked up by their (unique) token string. */
  ghost predicate TokensKeyed(tokens: map<string, VerificationToken>) {
    forall t :: t in tokens ==> tokens[t].token == t
  }

  /** The user whose (unique) email is `e`, if any. */
  function FindUserByEmail(users: map<UserId, User>, e: Email): (r: Option<UserId>)
    requires EmailsUnique(users)
    ensures r.Some? ==> r.value in users && users[r.value].email == e
    ensures r.None? ==> forall id :: id in users ==> users[id].email != e
  {
    if exists id :: id in users && users[id].email == e then
      var id :| id in users && users[id].email == e;
      Some(id)
    else
      None
  }

  /** The user whose (unique) username is `u`, if any. */
  function FindUserByUsername(users: map<UserId, User>, u: string): (r: Option<UserId>)
    requires UsernamesUnique(users)
    ensures r.Some? ==> r.value in users && users[r.value].username == u
    ensures r.None? ==> forall id :: id in users ==> users[id].username != u
  {
    if exists id :: id in users && users[id].username == u then
      var id :| id in users && users[id].username == u;
      Some(id)
    else
      None
  }

  /** The tokens currently bound to address `e`. */
  function TokensFor(tokens: map<string, VerificationToken>, e: Email): set<string> {
    set t | t in tokens && tokens[t].email == e
  }

  class Store {
    var users: map<UserId, User>
    var userEmails: map<Email, UserEmail>
    var tokens: map<string, VerificationToken>
    var outbox: seq<Mail>

    ghost predicate Valid()
      reads this
    {
      && UsersKeyed(users)
      && EmailsUnique(users)
      && UsernamesUnique(users)
      && RowsKeyed(userEmails)
      && AtMostOnePrimary(userEmails)
      && PrimaryIsVerified(userEmails)
      && TokensKeyed(tokens)
    }

    /** A store holding the given tables and an empty outbox. */
    constructor (users: map<UserId, User>, userEmails: map<Email, UserEmail>, tokens: map<string, VerificationToken>)
      requires UsersKeyed(users) && EmailsUnique(users) && UsernamesUnique(users)
      requires RowsKeyed(userEmails) && AtMostOnePrimary(userEmails) && PrimaryIsVerified(userEmails)
      requires TokensKeyed(tokens)
      ensures Valid()
      ensures this.users == users && this.userEmails == userEmails && this.tokens == tokens
      ensures outbox == []
    {
      this.users := users;
      this.userEmails := userEmails;
      this.tokens := tokens;
      outbox := [];
    }
  }
}
