/** The caller's address list: GET lists the caller's additional addresses newest
    first, POST adds an unverified address and mails a verification token for it. */
module UserEmails {
  import opened Model
  import opened Database
  import EmailFormat

  /** `e` is neither some user's login address nor an existing additional address. */
  predicate AddressFree(users: map<UserId, User>, rows: map<Email, UserEmail>, e: Email) {
    (forall id :: id in users ==> users[id].email != e) && e !in rows
  }

  /** The checks POST makes before it writes anything, in source order; None when
      every check passes. */
  function AddEmailRejection(session: Option<Session>, email: Option<string>,
                             users: map<UserId, User>, rows: map<Email, UserEmail>): (r: Option<Response>)
    requires EmailsUnique(users)
    ensures r.None? <==>
      && session.Some? && Truthy(email)
      && EmailFormat.MatchesEmailPattern(email.value)
      && AddressFree(users, rows, email.value)
      && FindUserByEmail(users, SessionEmail(session.value)).Some?
    ensures session.None? ==> r == Some(Response(401, Failure("Not authenticated")))
    ensures session.Some? && !Truthy(email) ==> r == Some(Response(400, Failure("Email is required")))
    ensures session.Some? && Truthy(email) && !EmailFormat.MatchesEmailPattern(email.value) ==>
      r == Some(Response(400, Failure("Invalid email format")))
    ensures session.Some? && Truthy(email) && EmailFormat.MatchesEmailPattern(email.value) &&
            (exists id :: id in users && users[id].email == email.value) ==>
      r == Some(Response(400, Failure("Email is already in use")))
    ensures session.Some? && Truthy(email) && EmailFormat.MatchesEmailPattern(email.value) &&
            (forall id :: id in users ==> users[id].email != email.value) && email.value in rows ==>
      r == Some(Response(400, Failure("Email is already added to an account")))
    ensures session.Some? && Truthy(email) && EmailFormat.MatchesEmailPattern(email.value) &&
            AddressFree(users, rows, email.value) && FindUserByEmail(users, SessionEmail(session.value)).None? ==>
      r == Some(Response(404, Failure("User not found")))
  {
    if session.None? then Some(Response(401, Failure("Not authenticated")))
    else if !Truthy(email) then Some(Response(400, Failure("Email is required")))
    else if !EmailFormat.MatchesEmailPattern(email.value) then Some(Response(400, Failure("Invalid email format")))
    else if FindUserByEmail(users, email.value).Some? then Some(Response(400, Failure("Email is already in use")))
    else if email.value in rows then Some(Response(400, Failure("Email is already added to an account")))
    else if FindUserByEmail(users, SessionEmail(session.value)).None? then Some(Response(404, Failure("User not found")))
    else None
  }

  /** POST: add `email` to the caller's account at instant `now`. `freshToken` stands for
      the random token the handler draws; if it collides with an existing token the
      insert fails on the table's unique constraint after the row was already created. */
  method AddEmail(store: Store, session: Option<Session>, email: Option<string>, freshToken: string, now: int)
    returns (r: Response)
    requires store.Valid()
    modifies store
    ensures store.Valid()
    ensures store.users == old(store.users)
    ensures AddEmailRejection(session, email, old(store.users), old(store.userEmails)).Some? ==>
      && r == AddEmailRejection(session, email, old(store.users), old(store.userEmails)).value
      && store.userEmails == old(store.userEmails)
      && store.tokens == old(store.tokens) && store.outbox == old(store.outbox)
    ensures AddEmailRejection(session, email, old(store.users), old(store.userEmails)).None? ==>
      var e := email.value;
      var owner := FindUserByEmail(old(store.users), SessionEmail(session.value)).value;
      var row := UserEmail(owner, e, false, false, now);
      && store.userEmails == old(store.userEmails)[e := row]
      && (freshToken in old(store.tokens) ==>
            r == InternalError && store.tokens == old(store.tokens) && store.outbox == old(store.outbox))
      && (freshToken !in old(store.tokens) ==>
            && r == Response(200, EmailAdded("Email added successfully. Please check your email to verify.", row))
            && store.tokens == old(store.tokens)[freshToken := VerificationToken(e, freshToken, now + TokenLifetime)]
            && store.outbox == old(store.outbox) + [Mail(e, freshToken)])
    ensures r.status == 200 ==>
      var e := email.value;
      && AddressFree(old(store.users), old(store.userEmails), e)
      && EmailFormat.WellShaped(e)
      && e in store.userEmails && !store.userEmails[e].verified && !store.userEmails[e].isPrimary
      && freshToken in store.tokens && store.tokens[freshToken] == VerificationToken(e, freshToken, now + TokenLifetime)
      && store.outbox == old(store.outbox) + [Mail(e, freshToken)]
  {
    var rejection := AddEmailRejection(session, email, store.users, store.userEmails);
    if rejection.Some? {
      return rejection.value;
    }
    var e := email.value;
    var owner := FindUserByEmail(store.users, SessionEmail(session.value)).value;
    var row := UserEmail(owner, e, false, false, now);
    store.userEmails := store.userEmails[e := row];
    if freshToken in store.tokens {
      return InternalError;
    }
    store.tokens := store.tokens[freshToken := VerificationToken(e, freshToken, now + TokenLifetime)];
    store.outbox := store.outbox + [Mail(e, freshToken)];
    r := Response(200, EmailAdded("Email added successfully. Please check your email to verify.", row));
    EmailFormat.EmailPatternShape(e);
  }

  /** `list` holds each of `owner`'s rows exactly once, as stored. */
  ghost predicate ListsRowsOf(list: seq<UserEmail>, rows: map<Email, UserEmail>, owner: UserId) {
    && (forall i :: 0 <= i < |list| ==> list[i].email in rows && rows[list[i].email] == list[i] && list[i].userId == owner)
    && (forall e :: e in rows && rows[e].userId == owner ==> exists i :: 0 <= i < |list| && list[i].email == e)
    && (forall i, j :: 0 <= i < j < |list| ==> list[i].email != list[j].email)
  }

  /** `orderBy: { createdAt: 'desc' }` */
  ghost predicate NewestFirst(list: seq<UserEmail>) {
    forall i, j :: 0 <= i < j < |list| ==> list[j].createdAt <= list[i].createdAt
  }

  /** Every non-empty set of rows has a most recently created one. */
  lemma {:induction false} NewestExists(rows: map<Email, UserEmail>, keys: set<Email>)
    requires keys != {} && keys <= rows.Keys
    ensures exists e :: IsNewest(rows, keys, e)
    decreases keys
  {
    var x :| x in keys;
    if keys == {x} {
      assert IsNewest(rows, keys, x);
    } else {
      var rest := keys - {x};
      NewestExists(rows, rest);
      var m :| IsNewest(rows, rest, m);
      if rows[m].createdAt < rows[x].createdAt {
        assert IsNewest(rows, keys, x);
      } else {
        assert IsNewest(rows, keys, m);
      }
    }
  }

  /** `e` is a most recently created row among `keys`. */
  predicate IsNewest(rows: map<Email, UserEmail>, keys: set<Email>, e: Email)
    requires keys <= rows.Keys
  {
    e in keys && forall e' :: e' in keys ==> rows[e'].createdAt <= rows[e].createdAt
  }

  /** Every address of `keys` is that of some entry of `list`. */
  ghost predicate Covers(list: seq<UserEmail>, keys: set<Email>) {
    forall e :: e in keys ==> exists i :: 0 <= i < |list| && list[i].email == e
  }

  /** The rows of `keys`, each once, newest first. */
  method OrderNewestFirst(rows: map<Email, UserEmail>, keys: set<Email>) returns (list: seq<UserEmail>)
    requires RowsKeyed(rows) && keys <= rows.Keys
    ensures forall i :: 0 <= i < |list| ==> list[i].email in keys && rows[list[i].email] == list[i]
    ensures Covers(list, keys)
    ensures forall i, j :: 0 <= i < j < |list| ==> list[i].email != list[j].email
    ensures NewestFirst(list)
  {
    var remaining := keys;
    list := [];
    while remaining != {}
      invariant remaining <= keys
      invariant forall i :: 0 <= i < |list| ==>
        list[i].email in keys && list[i].email !in remaining && rows[list[i].email] == list[i]
      invariant Covers(list, keys - remaining)
      invariant forall i, j :: 0 <= i < j < |list| ==> list[i].email != list[j].email
      invariant NewestFirst(list)
      invariant forall i, e :: 0 <= i < |list| && e in remaining ==> rows[e].createdAt <= list[i].createdAt
      decreases remaining
    {
      NewestExists(rows, remaining);
      var e :| IsNewest(rows, remaining, e);
      ghost var before, wasRemaining := list, remaining;
      list := list + [rows[e]];
      remaining := remaining - {e};
      forall e2 | e2 in keys - remaining ensures exists i :: 0 <= i < |list| && list[i].email == e2 {
        if e2 == e {
          assert list[|list| - 1].email == e2;
        } else {
          assert e2 in keys - wasRemaining;
          var i :| 0 <= i < |before| && before[i].email == e2;
          assert list[i] == before[i];
        }
      }
    }
    assert keys - remaining == keys;
  }

  /** GET: the caller's login address and additional addresses, newest first. */
  method ListEmails(store: Store, session: Option<Session>) returns (r: Response)
    requires store.Valid()
    ensures session.None? ==> r == Response(401, Failure("Not authenticated"))
    ensures session.Some? && FindUserByEmail(store.users, SessionEmail(session.value)).None? ==>
      r == Response(404, Failure("User not found"))
    ensures session.Some? && FindUserByEmail(store.users, SessionEmail(session.value)).Some? ==>
      var owner := FindUserByEmail(store.users, SessionEmail(session.value)).value;
      && r.status == 200 && r.body.EmailList?
      && r.body.primaryEmail == store.users[owner].email
      && ListsRowsOf(r.body.additionalEmails, store.userEmails, owner)
      && NewestFirst(r.body.additionalEmails)
  {
    if session.None? {
      return Response(401, Failure("Not authenticated"));
    }
    var found := FindUserByEmail(store.users, SessionEmail(session.value));
    if found.None? {
      return Response(404, Failure("User not found"));
    }
    var owner := found.value;
    var owned := set e | e in store.userEmails && store.userEmails[e].userId == owner;
    var list := OrderNewestFirst(store.userEmails, owned);
    r := Response(200, EmailList(store.users[owner].email, list));
    assert forall e :: e in store.userEmails && store.userEmails[e].userId == owner ==> e in owned;
  }
}
