/** The change-username endpoint: the signed-in caller renames themself. */
module ChangeUsername {
  import opened Model
  import opened Database

  /** The request schema: a string `username` of at least three characters. */
  predicate SchemaAccepts(username: Option<string>) {
    username.Some? && |username.value| >= 3
  }

  /** The checks made before the write, in source order; None when every check passes. */
  function UsernameRejection(session: Option<Session>, username: Option<string>, users: map<UserId, User>): (r: Option<Response>)
    requires UsernamesUnique(users)
    ensures r.None? <==>
      && SessionUserId(session).Some? && SchemaAccepts(username)
      && (forall j :: j in users && users[j].username == username.value ==> j == SessionUserId(session).value)
    ensures SessionUserId(session).None? ==> r == Some(Response(401, Failure("Unauthorized")))
    ensures SessionUserId(session).Some? && !SchemaAccepts(username) ==>
      r == Some(Response(400, Failure("Invalid request data")))
    ensures SessionUserId(session).Some? && SchemaAccepts(username) &&
            (exists j :: j in users && users[j].username == username.value && j != SessionUserId(session).value) ==>
      r == Some(Response(409, Failure("Username is already taken")))
  {
    var id := SessionUserId(session);
    if id.None? then Some(Response(401, Failure("Unauthorized")))
    else if !SchemaAccepts(username) then Some(Response(400, Failure("Invalid request data")))
    else
      var holder := FindUserByUsername(users, username.value);
      if holder.Some? && holder.value != id.value then Some(Response(409, Failure("Username is already taken")))
      else None
  }

  /** Re-setting the caller's current username is not a conflict. */
  lemma OwnUsernameIsNoConflict(session: Option<Session>, users: map<UserId, User>)
    requires UsernamesUnique(users)
    requires SessionUserId(session).Some? && SessionUserId(session).value in users
    requires |users[SessionUserId(session).value].username| >= 3
    ensures UsernameRejection(session, Some(users[SessionUserId(session).value].username), users).None?
  {
  }

  /** POST: set the caller's username. The user update yields no user when the caller's
      id has no row. */
  method ChangeUsername(store: Store, session: Option<Session>, username: Option<string>) returns (r: Response)
    requires store.Valid()
    modifies store
    ensures store.Valid()
    ensures store.userEmails == old(store.userEmails) && store.tokens == old(store.tokens)
    ensures store.outbox == old(store.outbox)
    ensures UsernameRejection(session, username, old(store.users)).Some? ==>
      r == UsernameRejection(session, username, old(store.users)).value && store.users == old(store.users)
    ensures UsernameRejection(session, username, old(store.users)).None? ==>
      var id := SessionUserId(session).value;
      && (id !in old(store.users) ==>
            r == Response(500, Failure("Failed to update username")) && store.users == old(store.users))
      && (id in old(store.users) ==>
            && r == Response(200, UsernameChanged("Username updated successfully", username.value))
            && store.users == old(store.users)[id := old(store.users)[id].(username := username.value)])
  {
    var rejection := UsernameRejection(session, username, store.users);
    if rejection.Some? {
      return rejection.value;
    }
    var id := SessionUserId(session).value;
    if id !in store.users {
      return Response(500, Failure("Failed to update username"));
    }
    store.users := store.users[id := store.users[id].(username := username.value)];
    r := Response(200, UsernameChanged("Username updated successfully", username.value));
  }
}
