# Account backend: verification tokens, additional addresses, profile and access rules

This project models the request handlers of a user-account backend. The backend is a
Next.js application over a Prisma database. The model covers:

- the verification-token lifecycle for additional email addresses: issue on add, reissue
  on resend, lazy expiry on consumption, single use;
- the add-address and list-addresses handlers: the address-shape check, the ordered
  rejections, and the newest-first listing;
- the profile read and update handlers: the username-length and phone checks, the
  "taken by someone else" rule, and the update that writes only the supplied fields;
- the change-username handler;
- the admin role gate and its dashboard record;
- the request filter: the CORS allowlist and headers, and the sign-in redirect;
- the credential `authorize` guard chain and the `jwt` / `session` callbacks.

The database is one object, `Database.Store`, with four fields:

- `users`: id ↦ User;
- `userEmails`: address ↦ UserEmail row;
- `tokens`: token ↦ EmailVerificationToken;
- `outbox`: the verification mails handed to the mail service.

Each handler that writes is a method with `modifies store`. Its contract gives the
response and the exact new value of every table for each branch of the source. Every
method keeps `Store.Valid()`, which holds:

- ids, emails and usernames of users are unique;
- rows are keyed by their address, and tokens by their token string;
- each user has at most one primary row;
- only a verified row is primary.

None of the modelled handlers ever sets `isPrimary`. New rows are created non-primary,
and verification only sets `verified`. So the single-primary invariant is preserved by
every modelled request.

Read-only handlers and decision rules are functions over the table values. The rejections
a handler makes before its first write are one function per handler
(`...Rejection`). It returns the first failing check in source order, or None.

Time is an integer number of milliseconds, passed in as `now`. The random token is an
input, `freshToken`. If it collides with a token that is still stored, the model takes
the path the source would take: the insert fails on the unique constraint and the
handler answers 500. Writes made before the failed insert stay in place.

Behaviours of the code worth noting:

- A token is expired only when `expires < now`, so a token presented exactly at its
  expiry instant is accepted.
- An unknown token is answered 400 "Invalid verification token".
- A username conflict in the profile update is answered 400. Only the change-username
  handler answers 409.
- The profile read selects `lastName`, while the profile update writes and selects
  `surname`. The User record keeps both columns.

## Model

| member | source | states |
|---|---|---|
| Model.SessionEmail | app/api/user/emails/route.ts:20 | the lookup address is the session user's email when present and non-empty, else the empty string |
| Model.SessionUserId | app/api/admin/route.ts:9 | a caller id exists exactly when the session, its user and a non-empty id are all present |
| Database.FindUserByEmail | app/api/user/emails/route.ts:79-81 | finds the unique user holding the address, or reports that no user holds it |
| Database.FindUserByUsername | app/api/auth/change-username/route.ts:25 | finds the unique user holding the username, or reports that no user holds it |
| VerifyAdditionalEmail.WithoutTokensFor | app/api/auth/verify-additional-email/route.ts:110-113 | after the delete no token is bound to the address; every other token survives unchanged and nothing is added |
| VerifyAdditionalEmail.VerifyToken | app/api/auth/verify-additional-email/route.ts:6-77 | missing/empty token 400 and no change; unknown token 400 and no change; `expires < now` deletes exactly that token and answers 400 with rows untouched (expiry equal to now is live); live token without a row 400 and the token kept; otherwise that row alone becomes verified (isPrimary and owner kept), the token alone is deleted, 200 with `success: true`; users and outbox never change; invariants kept |
| VerifyAdditionalEmail.ResendRejection | app/api/auth/verify-additional-email/route.ts:84-108 | missing email 400, unknown address 404, already verified 400, in that order; no rejection exactly when the address has an unverified row |
| VerifyAdditionalEmail.ResendVerification | app/api/auth/verify-additional-email/route.ts:80-155 | rejections change nothing; otherwise every token of the address is deleted, then exactly one new token bound to it expires at now + 86 400 000 ms, tokens of other addresses are unchanged and one mail carrying the new token goes to that address; a fresh token always succeeds |
| UserEmails.AddEmailRejection | app/api/user/emails/route.ts:53-111 | no session 401, missing email 400, pattern mismatch 400, address is some user's email 400, address already a row 400, caller not found 404, in that order; no rejection exactly when all checks pass |
| UserEmails.AddEmail | app/api/user/emails/route.ts:49-164 | rejections change nothing; on success one unverified, non-primary row owned by the caller is inserted and existing rows are unchanged, one token for the new address expiring at now + 24 h is stored and one mail is sent; a successful address was free in both namespaces and well shaped; users never change; invariants kept |
| UserEmails.NewestExists | app/api/user/emails/route.ts:22-24 | every non-empty set of rows has a most recently created row |
| UserEmails.OrderNewestFirst | app/api/user/emails/route.ts:21-25 | returns each row of the given addresses exactly once, as stored, ordered by createdAt descending |
| UserEmails.ListEmails | app/api/user/emails/route.ts:8-46 | no session 401; no user with the session address 404; otherwise 200 with the user's email as primaryEmail and all and only that user's rows, newest first; reads only |
| EmailFormat.EmailPatternShape | app/api/user/emails/route.ts:69-76 | the address pattern (the predicate `EmailFormat.MatchesEmailPattern`, the regular expression of line 70) accepts exactly the strings with no whitespace, exactly one `@`, a non-empty local part and a domain with a dot that has a character on each side |
| Profile.PhoneShape | app/api/profile/route.ts:61 | a phone accepted by the pattern (the predicate `Profile.MatchesPhonePattern`) is 2 to 16 characters, all digits except an optional leading `+`, with a non-zero first digit |
| Profile.PhonePlusOptional | app/api/profile/route.ts:61 | a leading `+` is optional (accepted with it iff accepted without it) and never doubled |
| Profile.TakenElsewhereIsOtherHolder | app/api/profile/route.ts:69-85 | the "taken" query finds someone exactly when the username's unique holder has an address other than the caller's |
| Profile.OwnUsernameNotTaken | app/api/profile/route.ts:69-85 | keeping one's own username is never a conflict |
| Profile.ProfileRejection | app/api/profile/route.ts:46-85 | no session 401, non-empty username under 3 characters 400, non-empty phone failing the pattern 400, then username held by a user with another address 400, in that order; empty username and phone skip their checks |
| Profile.EmptyFieldsSkipValidation | app/api/profile/route.ts:54-94 | an empty username and phone pass validation and are still written |
| Profile.ApplyProfileUpdate | app/api/profile/route.ts:88-95 | each of name, surname, username, phone is overwritten when supplied and kept otherwise; id, email, role, lastName, image and password hash never change |
| Profile.ApplyProfileUpdateIdempotent | app/api/profile/route.ts:88-95 | applying the same update twice equals applying it once |
| Profile.GetProfile | app/api/profile/route.ts:6-39 | no session 401; no user 404; 200 exactly when signed in and a user holds the session address, with the selected columns of the user holding the session address (the view has no password field) |
| Profile.UpdateProfile | app/api/profile/route.ts:42-127 | rejections change nothing; a missing row is 500; a username held by another user (unique constraint) is 400 with no write; otherwise exactly the caller's row is replaced by the merged record and the response echoes it; other tables untouched; invariants kept |
| ChangeUsername.UsernameRejection | app/api/auth/change-username/route.ts:10-31 | no session user id 401, username missing or shorter than 3 characters 400, username held by a different id 409, in that order; no rejection exactly when all checks pass |
| ChangeUsername.OwnUsernameIsNoConflict | app/api/auth/change-username/route.ts:24-31 | re-setting the caller's own current username is not a conflict |
| ChangeUsername.ChangeUsername | app/api/auth/change-username/route.ts:10-64 | rejections change nothing; an id without a row is 500; otherwise only the caller's username changes, to the requested value, and the response echoes it; invariants kept |
| Admin.RoleCount | app/api/admin/route.ts:29 | an absent role counts as 0, a present one as its stored count |
| Admin.DashboardFor | app/api/admin/route.ts:27-35 | totalUsers and usersByRole pass through; totalAdmins is the admin count plus the super_admin count, each absent count being 0 |
| Admin.AdminGet | app/api/admin/route.ts:5-48 | 200 exactly when the session id names a stored user whose role is admin or super_admin; no id 401; otherwise 403; on 200 the body is the dashboard of the statistics |
| Middleware.Split | middleware.ts:8 | splitting yields at least one piece |
| Middleware.JoinSplit | middleware.ts:8 | the comma-split pieces contain no comma and join back to the variable's value |
| Middleware.SplitJoin | middleware.ts:8 | splitting the join of comma-free pieces gives the pieces back |
| Middleware.AllowedOrigins | middleware.ts:8-13 | an undefined variable gives the four default origins; a defined one (even empty) gives its comma-separated pieces |
| Middleware.CorsHeaders | middleware.ts:15-31 | Allow-Origin is present iff the origin header is non-empty and allowlisted, and then equals it; Credentials, Methods and Headers always carry their fixed values; no other header |
| Middleware.CorsMiddleware | middleware.ts:7-34 | the headers set one after another equal the CORS header set above |
| Middleware.Route | middleware.ts:36-59 | API paths (prefix `/api/`) always get the CORS response; a non-API path under `/dashboard` or `/admin` without sign-in redirects to `/signin` on the request's origin; everything else passes |
| Middleware.ApiRouteIgnoresMethodAndLogin | middleware.ts:43-52 | for an API path neither the method nor the sign-in state changes the decision |
| AuthConfig.Authorize | auth.config.ts:8-35 | yields a user exactly when email and password are non-empty, a user has that email and the password check accepts; the result is that user's id, email, username as name and role |
| AuthConfig.RoleOrDefault | auth.config.ts:41 | an empty role becomes 'user'; a non-empty role is kept |
| AuthConfig.Jwt | auth.config.ts:39-44 | with a user present the token's role becomes the user's role or 'user'; without one the token is unchanged |
| AuthConfig.SessionCallback | auth.config.ts:45-51 | with a non-empty subject and a session user, the user's id becomes the subject and the role the token's role; otherwise the session is unchanged |
| Scenarios.ConsumeTwice | app/api/auth/verify-additional-email/route.ts:19-64 | a token that was consumed, or reaped as expired, is answered "Invalid verification token" the next time |
| Scenarios.LiveAtExpiryInstant | app/api/auth/verify-additional-email/route.ts:31 | a token presented exactly at its expiry instant is not expired (the predicate `VerifyAdditionalEmail.Expired` is the strict `expires < now`), is accepted and verifies its row |
| Scenarios.ReissueSupersedes | app/api/auth/verify-additional-email/route.ts:110-125 | after two successful resends for one address, the first token is answered as unknown |
| Scenarios.AddThenVerify | app/api/user/emails/route.ts:114-133 | adding an address and presenting its mailed token within 24 hours leaves the row verified, still non-primary, and the token consumed |

## Left out

- Session lookup, the password check and the statistics query are inputs. The session is
  an `Option<Session>`, the password check a function parameter, the statistics a
  `UserStats` value.
- `PrismaUserService` (findById, findByUsername, updateUser) is not part of this model.
  Its lookups are map reads. `updateUser` yields no user exactly when the id has no row.
- Random token generation and hex encoding are not modelled. The token is an input, and
  its collision with a stored token is modelled as the unique-constraint failure.
- Mail delivery, the HTML body and the `NEXTAUTH_URL` link are left out. A sent mail is an
  outbox entry (recipient, token). Mail delivery never fails in the model.
- `Date` is not modelled. Instants are integers in milliseconds. The dashboard activity
  timestamps are that integer rather than an ISO string.
- Row ids, `createdAt`/`updatedAt` of users, and the automatic `updatedAt` bump are left
  out. No modelled handler looks a row up by id, and the timestamps are clock output.
- Request bodies are taken as already parsed. A body that is not JSON (a 500 in every
  handler) and non-string JSON values (numbers, null) for the fields are not modelled.
- Store failures other than the ones named above (connection loss and the like), which the
  handlers answer with 500, are not modelled.
- Lengths count characters (code points), where JavaScript counts UTF-16 code units. The
  two differ only for characters outside the Basic Multilingual Plane.
- The zod error `details` array of the 400 answer and all console logging are left out.
- The middleware `config.matcher` pattern is left out: it belongs to the framework's path
  matcher.
- Concurrent requests are not modelled. Each request is one atomic step, so races such as
  two simultaneous adds of one address are not captured.
- The registration handler, the static status document, and the promote/remove-address
  handlers are not part of this model. The global-uniqueness property "an address is never
  both a user's email and a row" is therefore not an invariant here: promotion copies a
  row's address into the user. The model proves only that adding an address never
  introduces a duplicate.
