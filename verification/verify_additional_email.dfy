/** The verification endpoint for additional addresses: GET consumes a token and
    marks its address verified, POST reissues a token for an unverified address. */
module VerifyAdditionalEmail {
  import opened Model
  import opened Database

  /** `expires < now`: a token whose expiry equals the current instant is still live. */
  predicate Expired(t: VerificationToken, now: int) {
    t.expires < now
  }

  /** The token table with every token bound to `e` deleted (`deleteMany where email`). */
  function WithoutTokensFor(tokens: map<string, VerificationToken>, e: Email): (r: map<string, VerificationToken>)
    ensures TokensFor(r, e) == {}
    ensures forall t :: t in tokens && tokens[t].email != e ==> t in r && r[t] == tokens[t]
    ensures forall t :: t in r ==> t in tokens && r[t] == tokens[t]
  {
    map t | t in tokens && tokens[t].email != e :: tokens[t]
  }

  /** GET: consume `token` at instant `now`. */
  method VerifyToken(store: Store, token: Option<string>, now: int) returns (r: Response)
    requires store.Valid()
    modifies store
    ensures store.Valid()
    ensures store.users == old(store.users) && store.outbox == old(store.outbox)
    ensures !Truthy(token) ==>
      && r == Response(400, Failure("Verification token is required"))
      && store.tokens == old(store.tokens) && store.userEmails == old(store.userEmails)
    ensures Truthy(token) && token.value !in old(store.tokens) ==>
      && r == Response(400, Failure("Invalid verification token"))
      && store.tokens == old(store.tokens) && store.userEmails == old(store.userEmails)
    ensures Truthy(token) && token.value in old(store.tokens) && Expired(old(store.tokens)[token.value], now) ==>
      && r == Response(400, Failure("Verification token has expired"))
      && store.tokens == old(store.tokens) - {token.value}
      && store.userEmails == old(store.userEmails)
    ensures Truthy(token) && token.value in old(store.tokens) && !Expired(old(store.tokens)[token.value], now)
            && old(store.tokens)[token.value].email !in old(store.userEmails) ==>
      && r == Response(400, Failure("Email not found"))
      && store.tokens == old(store.tokens) && store.userEmails == old(store.userEmails)
    ensures Truthy(token) && token.value in old(store.tokens) && !Expired(old(store.tokens)[token.value], now)
            && old(store.tokens)[token.value].email in old(store.userEmails) ==>
      var e := old(store.tokens)[token.value].email;
      && r == Response(200, Verified("Additional email verified successfully", true))
      && store.tokens == old(store.tokens) - {token.value}
      && store.userEmails == old(store.userEmails)[e := old(store.userEmails)[e].(verified := true)]
  {
    if !Truthy(token) {
      return Response(400, Failure("Verification token is required"));
    }
    var t := token.value;
    if t !in store.tokens {
      return Response(400, Failure("Invalid verification token"));
    }
    var vt := store.tokens[t];
    if Expired(vt, now) {
      store.tokens := store.tokens - {t};
      return Response(400, Failure("Verification token has expired"));
    }
    if vt.email !in store.userEmails {
      return Response(400, Failure("Email not found"));
    }
    var row := store.userEmails[vt.email];
    store.userEmails := store.userEmails[vt.email := row.(verified := true)];
    store.tokens := store.tokens - {t};
    r := Response(200, Verified("Additional email verified successfully", true));
  }

  /** The checks POST makes before it writes anything, in source order; None when
      the address is present, known and still unverified. */
  function ResendRejection(email: Option<string>, rows: map<Email, UserEmail>): (r: Option<Response>)
    ensures r.None? <==> Truthy(email) && email.value in rows && !rows[email.value].verified
    ensures !Truthy(email) ==> r == Some(Response(400, Failure("Email is required")))
    ensures Truthy(email) && email.value !in rows ==> r == Some(Response(404, Failure("Email not found")))
    ensures Truthy(email) && email.value in rows && rows[email.value].verified ==>
      r == Some(Response(400, Failure("Email is already verified")))
  {
    if !Truthy(email) then Some(Response(400, Failure("Email is required")))
    else if email.value !in rows then Some(Response(404, Failure("Email not found")))
    else if rows[email.value].verified then Some(Response(400, Failure("Email is already verified")))
    else None
  }

  /** POST: reissue a token for `email`. `freshToken` stands for the random token the
      handler draws; if it collides with a surviving token the insert fails on the
      table's unique constraint after the old tokens were already deleted. */
  method ResendVerification(store: Store, email: Option<string>, freshToken: string, now: int) returns (r: Response)
    requires store.Valid()
    modifies store
    ensures store.Valid()
    ensures store.users == old(store.users) && store.userEmails == old(store.userEmails)
    ensures ResendRejection(email, old(store.userEmails)).Some? ==>
      && r == ResendRejection(email, old(store.userEmails)).value
      && store.tokens == old(store.tokens) && store.outbox == old(store.outbox)
    ensures ResendRejection(email, old(store.userEmails)).None? ==>
      var e := email.value;
      var kept := WithoutTokensFor(old(store.tokens), e);
      if freshToken in kept then
        r == InternalError && store.tokens == kept && store.outbox == old(store.outbox)
      else
        && r == Response(200, Message("Verification email sent successfully"))
        && store.tokens == kept[freshToken := VerificationToken(e, freshToken, now + TokenLifetime)]
        && store.outbox == old(store.outbox) + [Mail(e, freshToken)]
    ensures r.status == 200 ==>
      && TokensFor(store.tokens, email.value) == {freshToken}
      && store.tokens[freshToken].expires == now + TokenLifetime
      && (forall t :: t in old(store.tokens) && old(store.tokens)[t].email != email.value ==>
            t in store.tokens && store.tokens[t] == old(store.tokens)[t])
    ensures ResendRejection(email, old(store.userEmails)).None? && freshToken !in old(store.tokens) ==>
      r.status == 200
  {
    var rejection := ResendRejection(email, store.userEmails);
    if rejection.Some? {
      return rejection.value;
    }
    var e := email.value;
    store.tokens := WithoutTokensFor(store.tokens, e);
    if freshToken in store.tokens {
      return InternalError;
    }
    ghost var kept := store.tokens;
    store.tokens := store.tokens[freshToken := VerificationToken(e, freshToken, now + TokenLifetime)];
    store.outbox := store.outbox + [Mail(e, freshToken)];
    r := Response(200, Message("Verification email sent successfully"));
    assert TokensFor(kept, e) == {};
    assert TokensFor(store.tokens, e) == {freshToken};
  }
}
