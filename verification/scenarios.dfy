/** Properties of request sequences against one store, proved from the handlers'
    contracts alone. */
module Scenarios {
  import opened Model
  import opened Database
  import VerifyAdditionalEmail
  import UserEmails

  /** A token is single-use: once consumed, or reaped as expired, presenting it
      again is answered as an unknown token. */
  method ConsumeTwice(store: Store, token: string, now: int, later: int) returns (first: Response, second: Response)
    requires store.Valid()
    modifies store
    ensures store.Valid()
    ensures first.status == 200 ==> second == Response(400, Failure("Invalid verification token"))
    ensures first == Response(400, Failure("Verification token has expired")) ==>
      second == Response(400, Failure("Invalid verification token"))
  {
    first := VerifyAdditionalEmail.VerifyToken(store, Some(token), now);
    second := VerifyAdditionalEmail.VerifyToken(store, Some(token), later);
  }

  /** A token whose expiry equals the current instant is still accepted. */
  method LiveAtExpiryInstant(store: Store, token: string) returns (r: Response)
    requires store.Valid()
    requires token != "" && token in store.tokens && store.tokens[token].email in store.userEmails
    modifies store
    ensures store.Valid()
    ensures r == Response(200, Verified("Additional email verified successfully", true))
    ensures old(store.tokens)[token].email in store.userEmails
    ensures store.userEmails[old(store.tokens)[token].email].verified
  {
    r := VerifyAdditionalEmail.VerifyToken(store, Some(token), store.tokens[token].expires);
  }

  /** Reissuing supersedes: after a second successful resend for the same address the
      first token is gone, and presenting it is answered as an unknown token. */
  method ReissueSupersedes(store: Store, email: Email, first: string, second: string, now: int, later: int)
    returns (r1: Response, r2: Response, r3: Response)
    requires store.Valid() && first != second && first != ""
    modifies store
    ensures store.Valid()
    ensures r1.status == 200 && r2.status == 200 ==>
      r3 == Response(400, Failure("Invalid verification token"))
  {
    r1 := VerifyAdditionalEmail.ResendVerification(store, Some(email), first, now);
    ghost var afterFirst := store.tokens;
    r2 := VerifyAdditionalEmail.ResendVerification(store, Some(email), second, now);
    if r1.status == 200 && r2.status == 200 {
      assert first in TokensFor(afterFirst, email);
      assert first !in store.tokens;
    }
    r3 := VerifyAdditionalEmail.VerifyToken(store, Some(first), later);
  }

  /** Adding an address and following the mailed link within 24 hours leaves the new
      row verified and still not primary. */
  method AddThenVerify(store: Store, session: Session, email: Email, token: string, now: int, later: int)
    returns (added: Response, verified: Response)
    requires store.Valid() && token != "" && now <= later <= now + TokenLifetime
    modifies store
    ensures store.Valid()
    ensures added.status == 200 ==>
      && verified == Response(200, Verified("Additional email verified successfully", true))
      && email in store.userEmails && store.userEmails[email].verified && !store.userEmails[email].isPrimary
      && token !in store.tokens
  {
    added := UserEmails.AddEmail(store, Some(session), Some(email), token, now);
    verified := VerifyAdditionalEmail.VerifyToken(store, Some(token), later);
  }
}
