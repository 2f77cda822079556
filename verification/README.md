# AmazingShop user service: session and identity core in Dafny

This project models the account and session core of the AmazingShop user service:

- **Tokens.** Signed tokens carry a username, an optional type claim ("access" or "refresh"), an issuer and issue and expiry times (`Jwt`).
- **Sessions.** Each account holds one refresh token and one expiry, and a session has three transitions:
  - login issues a token pair and overwrites the stored refresh token;
  - refresh checks, in a fixed order, the signature, the type claim, the holder, equality with the stored token and the stored expiry, and only then rotates both tokens (`TokenService`);
  - logout clears both fields (`Authentication`).
- **Request filter.** The filter reads the `Authorization: Bearer` header, installs the authenticated principal when the context is empty, and always passes the request on (`JwtFilter`).
- **Federated sign-in.** An account is found by provider identity, otherwise linked by email, otherwise created under a fresh username derived from the email's local part (`OAuth2`, `Usernames`).
- **Enumerations and services.** Also modelled: the `Subject` enumeration with its case-insensitive parser (`Subjects`), the current-user read and whitelisted update (`UserService`), and the ADMIN-gated operations (`AdminService`).

The model makes these choices:

- **Persistence.** The database is a finite map from ids to immutable `Account` records. An operation returns the value and the map after its save.
- **Lookups.** A query that expects at most one row answers `NoMatch`, `Found(id)` or `NonUnique`. The last stands for the repository's error when several rows match.
- **Failures.** The services' exceptions are variants of `Accounts.Error`. The verifier's failures are `Jwt.VerifyError`; refresh maps them to one error and logout wraps them unchanged. The filter's propagating exceptions are `JwtFilter.Thrown`.
- **Clock.** The clock is a parameter `now`, in seconds.
- **Tokens.** A token is its claims plus an abstract tag for the secret it was signed with. Equality of `Token` values stands for equality of their serialised strings.
- **External collaborators.** The authentication manager, the verifier and the user-details lookup used by the filter are function parameters.

In these places the model follows the code as written:

- **Linking by email.** The code refuses to link an email-matched account whenever that account has any provider bound. It does not check whether that provider differs from the one signing in (OAuth2Service.java:93-102).
- **Errors in the filter.** A verification or user-lookup failure in the filter is not swallowed. It propagates after the `finally` block has passed the request on (`FilterRun.thrown`).
- **Empty bearer token.** After sending the 400 error for an empty bearer token, the filter still invokes the rest of the chain.
- **No trimming.** The filter does not trim the token. Unit tests that expect trimming, or expect failures to be swallowed, describe behaviour the code does not have.
- **Logout accepts any valid token.** Logout validates only the signature and claims of the presented token. It does not check its type and does not compare it with the stored token, so an access token also ends the session (`Authentication.LogoutAcceptsAccessToken`).

A further consequence of the model:

- **Same-second refresh.** Tokens carry whole-second times and no unique id. A refresh in the same second as the issuance of the presented token therefore mints that very token again, and the "rotated" token remains usable (`TokenService.SameSecondRefreshReissues`).
- **Why it is not a finding.** The code that mints typed tokens is not part of this model, so this depends on how it builds its claims. It is stated as a property of the model, not as a finding.

## Model

| member | source | states |
|---|---|---|
| Jwt.GenerateToken | src/main/java/com/amazingshop/personal/userservice/security/jwt/JwtUtil.java:30-39 | the token is signed with the configured secret and carries the fixed subject "User details", the username, the configured issuer, issue time now and expiry now + the configured expiration; it has no type claim |
| Jwt.GenerateAccessToken | src/main/java/com/amazingshop/personal/userservice/services/TokenServiceImpl.java:51 | an access token is signed, typed "access", names the user and expires after the access lifetime |
| Jwt.GenerateRefreshToken | src/main/java/com/amazingshop/personal/userservice/services/TokenServiceImpl.java:52 | a refresh token is signed, typed "refresh", names the user and expires after the refresh lifetime |
| Jwt.Validate | src/main/java/com/amazingshop/personal/userservice/security/jwt/JwtUtil.java:41-55 | success exactly when the secret, subject, issuer, embedded expiry and issued-at time (not after now) all check out, and then the value is the username claim; an undecodable token fails with a decode error and a foreign signature with a signature error |
| Jwt.TokenType | src/main/java/com/amazingshop/personal/userservice/services/TokenServiceImpl.java:79 | a decodable token's own type claim is reported, and nothing is reported for a token that cannot be decoded |
| Jwt.IsTokenExpired | src/main/java/com/amazingshop/personal/userservice/security/jwt/JwtUtil.java:57-65 | an undecodable token counts as expired; otherwise expired exactly when its expiry lies strictly before now |
| Jwt.GenerateValidateRoundTrip | src/main/java/com/amazingshop/personal/userservice/security/jwt/JwtUtil.java:30-55 | a generated token validates to the username it was made for throughout its lifetime, and that lifetime is getExpirationTime |
| Jwt.TypedTokensRoundTrip | src/test/java/com/amazingshop/personal/userservice/security/jwt/JwtUtilTest.java:28-41 | access and refresh tokens validate to their username from their issue time until their expiry |
| Jwt.GetExpirationTime | src/main/java/com/amazingshop/personal/userservice/security/jwt/JwtUtil.java:67-69 | the reported lifetime is the configured expiration |
| Jwt.MintedTokensReportTheirType | src/main/java/com/amazingshop/personal/userservice/services/TokenServiceImpl.java:78-84 | the type read back from an access or refresh token is the one it was minted with, and the untyped codec's tokens report none |
| Jwt.ForeignSecretRejected | src/main/java/com/amazingshop/personal/userservice/security/jwt/JwtUtil.java:43-47 | a token signed with any other secret is rejected with a signature error, whatever its claims |
| Jwt.ExpiredTokensDoNotValidate | src/main/java/com/amazingshop/personal/userservice/security/jwt/JwtUtil.java:57-65 | whatever isTokenExpired reports as expired never validates |
| Accounts.ByUsername | src/main/java/com/amazingshop/personal/userservice/services/UserServiceImpl.java:32-36 | no match exactly when no account has the username; a found id is the only account with that username; several rows are reported only when two distinct accounts have it |
| Accounts.ByEmail | src/main/java/com/amazingshop/personal/userservice/services/OAuth2Service.java:87 | no match exactly when no account has the email; a found id is the only account with that email; several rows are reported only when two distinct accounts have it |
| Accounts.ByOAuth | src/main/java/com/amazingshop/personal/userservice/services/OAuth2Service.java:78-79 | no match exactly when no account is bound to the provider and provider id; a found id is the only such account; several rows are reported only when two distinct accounts are bound to it |
| Accounts.TakenUsernames | src/main/java/com/amazingshop/personal/userservice/services/OAuth2Service.java:130 | a name is reported taken exactly when some stored account has it |
| Accounts.UniqueUsernamesLookup | src/main/java/com/amazingshop/personal/userservice/services/UserServiceImpl.java:32-36 | when usernames are unique, the username query never reports several rows |
| TokenService.RefreshToken | src/main/java/com/amazingshop/personal/userservice/services/TokenServiceImpl.java:32-111 | each failure occurs exactly when the earlier checks pass and its own check fails: invalid or expired token, then a type other than "refresh", then unknown user, then mismatch with the stored token, then stored expiry before now; success exactly when all pass, with a new pair minted now, stored on that account with expiry now + the refresh lifetime, and every other account unchanged |
| TokenService.EarlyFailuresIgnoreStore | src/main/java/com/amazingshop/personal/userservice/services/TokenServiceImpl.java:35-39 | a token that fails validation or the type check fails the same way on every store |
| TokenService.AccessTokenNeverRefreshes | src/main/java/com/amazingshop/personal/userservice/services/TokenServiceImpl.java:78-84 | an access token never refreshes: it stops at validation or at the type check |
| TokenService.ConsistentStoreHasExpiry | src/main/java/com/amazingshop/personal/userservice/services/TokenServiceImpl.java:99-104 | while every stored token has an expiry, the expiry check never dereferences a missing expiry |
| TokenService.RefreshPreservesConsistency | src/main/java/com/amazingshop/personal/userservice/services/TokenServiceImpl.java:106-111 | a refresh keeps "token present exactly when expiry present" on every account |
| TokenService.SupersededTokenFails | src/main/java/com/amazingshop/personal/userservice/services/TokenServiceImpl.java:91-97 | after a session is issued for a user, any other token of that user fails, and fails with a mismatch once it reaches the lookup |
| TokenService.SameSecondRefreshReissues | src/main/java/com/amazingshop/personal/userservice/services/TokenServiceImpl.java:50-55 | refreshing with a token minted in the same second stores that very token again |
| TokenService.RefreshIsSingleUse | src/test/java/com/amazingshop/personal/userservice/services/TokenServiceImplTest.java:218-254 | once a refresh has stored a different token, replaying the old one fails, with a mismatch once it reaches the lookup |
| Authentication.PerformLogin | src/main/java/com/amazingshop/personal/userservice/services/AuthenticationServiceImpl.java:35-58 | bad credentials exactly when the authentication manager refuses; unknown user exactly when it accepts and no account has the name; success exactly when it accepts and the account is found, issuing a pair now and storing its refresh half with expiry now + the refresh lifetime, leaving other accounts unchanged |
| Authentication.Logout | src/main/java/com/amazingshop/personal/userservice/services/AuthenticationServiceImpl.java:61-73 | a verifier failure surfaces unwrapped; unknown user exactly when a valid token names no account, and the several-rows error exactly when it names several; on success both session fields of the named account are cleared and nothing else changes |
| Authentication.BadCredentialsIgnoreStore | src/main/java/com/amazingshop/personal/userservice/services/AuthenticationServiceImpl.java:36-41 | refused credentials give the same answer on every store |
| Authentication.SessionInvariantPreserved | src/main/java/com/amazingshop/personal/userservice/services/AuthenticationServiceImpl.java:46-70 | login, refresh and logout all keep "token present exactly when expiry present" |
| Authentication.LoginTokensVerify | src/main/java/com/amazingshop/personal/userservice/services/AuthenticationServiceImpl.java:43-57 | both tokens a login returns validate to the username from the login until their expiry |
| Authentication.LoginSupersedesEarlierTokens | src/main/java/com/amazingshop/personal/userservice/services/AuthenticationServiceImpl.java:46-49 | after a login, every other refresh token of that user fails to refresh |
| Authentication.LoginThenRefresh | src/main/java/com/amazingshop/personal/userservice/services/AuthenticationServiceImpl.java:43-49 | the refresh token a login returns refreshes successfully within its lifetime |
| Authentication.LogoutAcceptsAccessToken | src/main/java/com/amazingshop/personal/userservice/services/AuthenticationServiceImpl.java:62-65 | a live access token of an existing user is enough to log out |
| Authentication.LogoutIsIdempotent | src/main/java/com/amazingshop/personal/userservice/services/AuthenticationServiceImpl.java:64-70 | logging out twice with the same token leaves the same store as once |
| Authentication.LogoutEndsSession | src/main/java/com/amazingshop/personal/userservice/services/AuthenticationServiceImpl.java:68-70 | after logout no token of that user refreshes, and one that reaches the lookup fails with a mismatch |
| JwtFilter.DoFilterInternal | src/main/java/com/amazingshop/personal/userservice/security/jwt/JwtFilter.java:32-60 | the chain runs exactly once; an existing authentication is never replaced; verification happens exactly when the header starts with "Bearer " and has more after it, on the text after the prefix; the 400 error is sent exactly when the header is the bare prefix; failures propagate and leave the context unchanged; the context changes only when it was empty, and then to the user just loaded |
| JwtFilter.BearerHeadersAreNotBlank | src/main/java/com/amazingshop/personal/userservice/security/jwt/JwtFilter.java:37 | a header starting with the scheme is never blank, so the blank test adds nothing |
| JwtFilter.InstallsExactlyWhen | src/main/java/com/amazingshop/personal/userservice/security/jwt/JwtFilter.java:37-55 | on an empty context a principal is installed exactly when the header is the prefix plus a non-empty token that verifies to a user the lookup finds |
| JwtFilter.NoTrimming | src/test/java/com/amazingshop/personal/userservice/security/jwt/JwtFilterTest.java:272-290 | the token reaches the verifier exactly as written after the prefix, spaces included |
| JwtFilter.LowerCaseSchemeIgnored | src/test/java/com/amazingshop/personal/userservice/security/jwt/JwtFilterTest.java:293-307 | a lower-case scheme is ignored: no verification, no error, context unchanged |
| Usernames.DecimalString | src/main/java/com/amazingshop/personal/userservice/services/OAuth2Service.java:131 | the counter is rendered as the decimal digits that spell it, most significant first, with no leading zero; one digit exactly for values below ten |
| Usernames.DecimalStringDistinct | src/main/java/com/amazingshop/personal/userservice/services/OAuth2Service.java:131 | distinct counters render differently |
| Usernames.Candidate | src/main/java/com/amazingshop/personal/userservice/services/OAuth2Service.java:127-131 | every candidate extends the base, and only the first equals it in length |
| Usernames.CandidateDistinct | src/main/java/com/amazingshop/personal/userservice/services/OAuth2Service.java:127-131 | distinct counters give distinct candidates |
| Usernames.CandidatesBound | src/main/java/com/amazingshop/personal/userservice/services/OAuth2Service.java:130-133 | the loop cannot find more taken candidates than there are taken names, so it terminates |
| Usernames.FirstFree | src/main/java/com/amazingshop/personal/userservice/services/OAuth2Service.java:130-133 | the counter reached is a free candidate and every earlier one is taken |
| Usernames.GeneratedUsername | src/main/java/com/amazingshop/personal/userservice/services/OAuth2Service.java:125-136 | the generated name is free, extends the base, and is the first free candidate in counter order |
| Usernames.GeneratedUsernameUnique | src/main/java/com/amazingshop/personal/userservice/services/OAuth2Service.java:125-136 | any free candidate with all earlier candidates taken is the generated name |
| Usernames.CollisionAppendsCounter | src/main/java/com/amazingshop/personal/userservice/services/OAuth2Service.java:130-133 | with "jdoe" and "jdoe1" taken the generated name is "jdoe2" |
| Usernames.GenerateUsername | src/main/java/com/amazingshop/personal/userservice/services/OAuth2Service.java:125-136 | the loop returns a name not taken, the same one the first-free-candidate definition picks |
| Usernames.BeforeFirstAt | src/main/java/com/amazingshop/personal/userservice/services/OAuth2Service.java:126 | the result is a prefix of the email without '@', ending at the first '@' when there is one |
| Usernames.LocalPart | src/main/java/com/amazingshop/personal/userservice/services/OAuth2Service.java:126 | the first element of the split is missing exactly when the email is non-empty and made only of '@'; otherwise it is the text before the first '@' |
| OAuth2.FindOrCreateOAuth2User | src/main/java/com/amazingshop/personal/userservice/services/OAuth2Service.java:73-120 | on success the returned account carries the identity and no other account changes; a bound identity is returned with nothing saved; a provider conflict exactly when the identity is unbound and the email's account has any provider; linking sets exactly provider, id and picture; an unbound identity with an unmatched, well-formed email always creates the account under the new id, and a malformed email fails creation; a new account gets the first free username from the email's local part, role USER, no password and the identity |
| OAuth2.SecondLoginReturnsSameAccount | src/main/java/com/amazingshop/personal/userservice/services/OAuth2Service.java:78-84 | signing in again with the same identity returns the same account and saves nothing |
| OAuth2.KeepsUsernamesUnique | src/main/java/com/amazingshop/personal/userservice/services/OAuth2Service.java:105-116 | federated sign-in keeps usernames unique |
| OAuth2.KeepsSessionsConsistent | src/main/java/com/amazingshop/personal/userservice/services/OAuth2Service.java:89-116 | federated sign-in keeps "token present exactly when expiry present" |
| Subjects.ValueOf | src/main/java/com/amazingshop/personal/userservice/enums/Subject.java:16 | a constant is returned only for its exact name, and none when no constant has that name |
| Subjects.FromString | src/main/java/com/amazingshop/personal/userservice/enums/Subject.java:10-20 | a missing value gives GENERAL; a value whose upper-case form names a constant gives that constant; any other answer is GENERAL |
| Subjects.ToLowerCase | src/main/java/com/amazingshop/personal/userservice/enums/Subject.java:23-25 | the front-end name is as long as the constant's name, made only of lower-case ASCII letters, and upper-cases back to the constant's name |
| Subjects.FromStringOfLowerCase | src/main/java/com/amazingshop/personal/userservice/enums/Subject.java:10-25 | parsing the lower-case name of a constant gives that constant back |
| Subjects.CaseInsensitive | src/main/java/com/amazingshop/personal/userservice/enums/Subject.java:16 | two inputs with the same upper-case form parse to the same constant |
| Subjects.PaddedNameIsGeneral | src/main/java/com/amazingshop/personal/userservice/enums/Subject.java:15-19 | a name with a leading space is not trimmed and falls back to GENERAL |
| UserService.FindUserByIdOrThrow | src/main/java/com/amazingshop/personal/userservice/services/UserServiceImpl.java:45-48 | fails with user-not-found exactly when the id is absent, otherwise returns the stored account |
| UserService.DeleteById | src/main/java/com/amazingshop/personal/userservice/services/UserServiceImpl.java:64-70 | an absent id fails with user-not-found; otherwise exactly that id is removed and every other account is kept as it was |
| UserService.GetCurrentUserId | src/main/java/com/amazingshop/personal/userservice/services/UserServiceImpl.java:73-79 | success exactly when the principal's account is found, giving an id whose account has that username |
| UserService.GetCurrentUserResponse | src/main/java/com/amazingshop/personal/userservice/services/UserServiceImpl.java:82-101 | success exactly when the principal's account is found, and the response describes that account with the FREE plan and no plan expiry |
| UserService.ApplyUpdates | src/main/java/com/amazingshop/personal/userservice/services/UserServiceImpl.java:111-118 | only email and profile picture can change, each exactly when its key is present; every other field is kept |
| UserService.UpdateCurrentUserResponse | src/main/java/com/amazingshop/personal/userservice/services/UserServiceImpl.java:104-132 | success exactly when the principal's account is found; only that account changes, by the whitelisted updates, and the response describes the saved account |
| UserService.UpdateThenRead | src/main/java/com/amazingshop/personal/userservice/services/UserServiceImpl.java:120-131 | reading the current user after an update gives the same response the update returned |
| UserService.UpdateIsIdempotent | src/main/java/com/amazingshop/personal/userservice/services/UserServiceImpl.java:111-120 | applying the same updates again changes nothing more |
| UserService.DeleteAgreesWithFind | src/main/java/com/amazingshop/personal/userservice/services/UserServiceImpl.java:45-69 | delete fails exactly when find fails, with the same error |
| AdminService.SayForAdmin | src/main/java/com/amazingshop/personal/userservice/services/AdminServiceImpl.java:23-27 | only an ADMIN caller gets the fixed message; any other caller is denied |
| AdminService.GetAllUsers | src/main/java/com/amazingshop/personal/userservice/services/AdminServiceImpl.java:29-34 | only an ADMIN caller gets every account; any other caller is denied |
| AdminService.DeleteUser | src/main/java/com/amazingshop/personal/userservice/services/AdminServiceImpl.java:36-41 | a non-ADMIN caller is denied; for an ADMIN it behaves exactly as the user service's delete |
| AdminService.PromoteToAdmin | src/main/java/com/amazingshop/personal/userservice/services/AdminServiceImpl.java:43-50 | success exactly when an ADMIN promotes an existing id; the account becomes ADMIN with every other field and every other account unchanged |
| AdminService.PromotingAdminChangesNothing | src/main/java/com/amazingshop/personal/userservice/services/AdminServiceImpl.java:47-49 | promoting an account that is already ADMIN returns it and leaves the store as it was |
| AdminService.PromoteIsIdempotent | src/main/java/com/amazingshop/personal/userservice/services/AdminServiceImpl.java:45-50 | promoting twice gives the same store as promoting once |

## Left out

- Google ID-token verification (`verifyGoogleToken`) calls the network and a third-party verifier; the model starts from the verified `OAuth2UserInfo`.
- HMAC signing, base64 and JSON encoding of tokens are not modelled; a token is its claims plus an abstract secret tag.
- The system clock is the parameter `now` in whole seconds; the sub-second precision of `LocalDateTime` is not modelled.
- Transactions (`@Transactional`) and concurrent requests are not modelled; each operation is one atomic step on the map.
- Logging, controllers, DTO validation, error-response formatting and `UserDetailsServiceImpl` are not part of this model; the filter's user lookup is a parameter.
- The `UserService` interface and the repository interfaces are represented only by the operations above; methods the repository interface does not declare are modelled as queries on the map.
- `User.java` is not part of this model, so database uniqueness constraints are not assumed: lookups can answer `NonUnique`, and `Accounts.UniqueUsernamesLookup` states what uniqueness would rule out.
- Jwt.GenerateAccessToken: the code that mints typed tokens is not part of this model; the model assumes a "type" claim of "access" or "refresh" and the two configured lifetimes, as the services' calls require.
- Jwt.Validate: the embedded-expiry test (`now < expiresAt`) and the issued-at test (`issuedAt <= now`, no leeway) follow the verifier library's default checks, which are not part of this model; the order among the verifier's own error kinds is a choice, and only success or failure matters to the callers.
- Jwt.Validate: the issuer is taken from the configuration as given; its default value "AmazingShop" when the property is unset is configuration loading, not modelled.
- Jwt.Validate: a signed token without a username claim (which would return null) is not modelled; every signed token carries one.
- TokenService.RefreshToken: adding the refresh lifetime to `now` is unbounded; `LocalDateTime` overflow is not modelled.
- Usernames.GenerateUsername: the Java `int` counter would wrap after 2^31 - 1 collisions; the model's counter is unbounded.
- OAuth2.FindOrCreateOAuth2User: the new database id is a parameter not yet in the store, standing for the id generator; null email, provider or id are not modelled.
- UserService.UpdateCurrentUserResponse: a key mapped to null and the database's email constraints are not modelled; update values are strings.
- UserService.GetCurrentUserResponse: the principal is given as a username; the security context holding a non-`UserDetailsImpl` principal is not modelled.
- Subjects.ToLowerCase: lower-casing follows the root locale (A-Z to a-z); under the JVM's default locale set to Turkish or Azerbaijani, 'I' would become dotless 'ı', so ENGLISH would read "englısh" and the all-ASCII result would not hold.
- Subjects.FromString: upper-casing follows the root locale for the characters that map onto ASCII letters (a-z, dotless i, long s); locale-specific rules and multi-character expansions such as 'ß' → "SS" are not modelled; the ASCII expansions ("SS", "FF", "FI", "FL", "ST") occur in none of the four names.
- AdminService.SayForAdmin: `@PreAuthorize` is modelled as the caller's role passed in; an unauthenticated caller is treated like a non-ADMIN one.
