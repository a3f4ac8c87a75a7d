# JwtTest: credential check, token claims, role gate and role table

This project models the core of JwtTest, a small ASP.NET Core service that
signs users in with a username and password and hands back a signed JWT
bearer token. The token carries the issuer, the user's name, a token id and
the user's role. With that token a caller can read its own claims. A caller
whose role claim is `Admin` can also list the role table and change one
user's role in place.

The model follows the source file by file:

- `runtime.dfy` (`Runtime`): null as `Option`, the exceptions the code paths
  raise, and a `Result` for a call that returns or throws.
- `models.dfy` (`Models`): the `UserDto` record with its field-wise equality;
  the `AuthDto` role object as a class whose `auth` field is overwritten in
  place; `[Required]` model binding of the sign-in body.
- `fakedb.dfy` (`FakeDb`): `FakeDbContext`, a class holding the credential
  list and a list of `AuthDto` objects, with its initial contents. It also
  holds the value view `Rows()` of the role table.
- `jwt.dfy` (`Jwt`): `JwtSettings`, the claim list and descriptor that
  `GenerateToken` builds (`Issue`), the helper's settings precedence, the
  UTF-8 key derivation, the `TokenValidationParameters` that `Configure`
  installs, and `Accepts`, the bearer handler's acceptance of a token under
  those parameters.
- `controllers.dfy` (`Controllers`): the LINQ queries as scans (`AnyEqual`,
  `MatchUsername` for `Single`/`SingleOrDefault`, `FirstOfType`,
  `ClaimsDictionary`), the role gate (`RequirementOf`, `Authorize`), and the
  controller class. The class has `ValidateUser`, `SignIn`, the claim
  read-outs, `GetAuths` and `SetAuth`, plus `Handle`, which puts the gate in
  front of each action. `SetAuthSpec` states what `SetAuth` does to the
  table as values, and the lemmas beside it state what that update keeps.
- `scenarios.dfy` (`Scenarios`): proved scenarios over a fresh store. Jay's sign-in
  throws. Alan's promotion is refused for a `User` token, then done by an
  `Admin` caller. Claims read back from an issued token round-trip.

Time is a whole number of seconds since the epoch, in UTC (`now`). The
host's local clock, which `DateTime.Now` reads, runs a fixed `utcOffset`
seconds ahead of it (negative west of UTC). The helper holds that offset.
The token id, which the source draws from `Guid.NewGuid()`, is a
parameter, and so is `now`. The signature is idealised: a
token verifies exactly when it was signed with a key that HMAC-SHA256 treats
like the validation key: both keys zero-padded to one 64-byte block give the
same block, or, for a longer key, the keys are equal.

Two facts the proofs bring out:

- In the initial store, nobody who holds a credential has the role `Admin`.
  Jack is the only `Admin`, and jack has no password entry. So no token that
  `SignIn` issues from that store passes the `Admin` gate
  (`Scenarios.NoAdminTokenFromStore`). `GetAuths` and `SetAuth` need a token
  from somewhere else that is signed with the same key.
- The code does not always do what a reader of the service's description
  would expect. This model follows the code:
  - When a credential matches but `Auths` has no row, or several rows, for
    that username, `Single` throws. The request does not get a plain
    rejection (`ValidateUser`, `SignIn`).
  - `GenerateToken` sets `Expires` from the local clock, while the token
    handler fills in `NotBefore` from UTC and refuses a descriptor whose
    `Expires` is not after its `NotBefore`, comparing the two readings with
    their time zones ignored. So on a host at UTC or west of it, `SignIn`
    throws whenever `ExpireMinutes` minutes do not exceed the host's lag
    behind UTC; with `ExpireMinutes = 0` it always throws there
    (`Jwt.JwtHelper.GenerateToken`, `Jwt.ZeroMinuteToken`). The source's
    comment that `NotBefore` defaults to `DateTime.Now` is not what happens.
  - The lifetime check uses the validation library's default clock skew of
    five minutes, because `Configure` never sets `ClockSkew`. So on a host
    east of UTC a token with `ExpireMinutes = 0` is issued and then accepted
    for five minutes either side of its issuance, not refused straight away
    (`IssuedTokenAcceptedWindow`, `Jwt.ZeroMinuteToken`).
  - An empty `SignKey` makes `SymmetricSecurityKey` throw, both in
    `GenerateToken` and in `Configure`; `Configure` then installs nothing.
  - `SetAuth` has no lock around it.

## Model

| member | source | states |
|---|---|---|
| Models.CredentialEquality | Models/UserDto.cs:10-17 | two UserDto values are equal iff their Usernames are equal and their Passwords are equal |
| Models.CredentialComparisonIsExact | Models/UserDto.cs:13-16 | examples of the exact comparison: another letter case or a trailing space makes a different credential |
| Models.AuthDto.constructor | Controllers/JwtAuthController.cs:148-154 | a role object holds the Username and Auth it is built with; SetAuth overwrites its Auth in place |
| Models.AllWhiteSpace | Models/UserDto.cs:12-15 | the string.IsNullOrWhiteSpace scan used by [Required]: true iff no character is visible |
| Models.SatisfiesRequired | Models/UserDto.cs:12-16 | [Required] with AllowEmptyStrings false holds iff the property is present and has a character that is not white space |
| Models.IsWhiteSpace | Models/UserDto.cs:12-16 | the characters char.IsWhiteSpace reports, which [Required] skips: U+0020, U+0009 to U+000D, U+0085, U+00A0, U+1680, U+2000 to U+200A, U+2028, U+2029, U+202F, U+205F, U+3000 |
| Models.BindUserDto | Models/UserDto.cs:12-16 | a body binds iff both properties are present and each has a non-white-space character; the bound record carries exactly the submitted strings |
| FakeDb.FakeDbContext.constructor | FakeDbContext.cs:12-27 | the store starts with Users = [jay, alan, albert] and Auths = [jack/Admin, albert/User, alan/User], held in new objects |
| FakeDb.RowsOf | FakeDbContext.cs:21-31 | the values a list of AuthDto objects holds: same length, and entry i is object i's Username and Auth |
| FakeDb.FakeDbContext.Rows | FakeDbContext.cs:31 | the Auths list read as values, one per object in list order |
| FakeDb.InitialUsersShape | FakeDbContext.cs:14-19 | the initial credentials are exactly jay, alan, albert, each with password "Foo-Pw" |
| FakeDb.InitialTablesDistinct | FakeDbContext.cs:14-26 | usernames are pairwise distinct in both initial tables |
| FakeDb.InitialTablesDisagree | FakeDbContext.cs:16-23 | jay has a credential and no role row; jack has a role row and no credential |
| FakeDb.InitialNoAdminCredential | FakeDbContext.cs:16-25 | no user holding a credential initially has role "Admin" |
| Jwt.Utf8 | JwtHelper.cs:54 | Encoding.UTF8.GetBytes: at least one byte per character, and no bytes exactly for the empty string |
| Jwt.SigningKey | JwtHelper.cs:54 | the key the signer and the validator both build from SignKey (also at line 116): empty iff the secret is empty, and one to four bytes per character |
| Jwt.Utf8Length | JwtHelper.cs:54 | the key from Encoding.UTF8.GetBytes has between one and four bytes per character of the secret |
| Jwt.Utf8Injective | JwtHelper.cs:54 | two secrets give the same key bytes only if they are the same string |
| Jwt.SixteenCharactersSuffice | JwtHelper.cs:54-58 | with settings present, a secret of at least 16 characters always yields a key the HMAC-SHA256 signer accepts (at least 128 bits): a token is then issued iff the lifetime outlasts the host's lag behind UTC |
| Jwt.Issue | JwtHelper.cs:43-70 | the descriptor GenerateToken builds: four claims, the first an iss claim carrying the descriptor's Issuer, the fourth and only that one of the role claim type; not-before and issued-at are now, and expiry comes ExpireMinutes minutes after not-before; the key is the secret's UTF-8 bytes |
| Jwt.IssuedClaims | JwtHelper.cs:43-64 | the claim list is exactly [iss = Issuer, sub = Username, jti = token id, role = Auth], in that order; the descriptor's Issuer is the settings' Issuer and it has no audience |
| Jwt.IssuedRoleClaims | JwtHelper.cs:43-49 | the only claim of the role claim type is the fourth, and it carries the record's Auth |
| Jwt.IssuedLifetime | JwtHelper.cs:61-68 | not-before and issued-at are now; expiry is now + ExpireMinutes minutes, strictly after now iff ExpireMinutes > 0 |
| Jwt.JwtHelper.constructor | JwtHelper.cs:31-38 | the effective settings are the second source's value (null if that source is null); the first source is discarded; the host's UTC offset is kept |
| Jwt.JwtHelper.GenerateToken | JwtHelper.cs:40-78 | in the order the code meets them: null settings throw NullReferenceException; an empty secret throws at the key; a local-time expiry not after the UTC not-before throws in CreateToken; a key under 128 bits is refused; a token is issued iff none of these applies, and it is the Issue descriptor; nothing is modified |
| Jwt.ExpiresAfterNotBefore | JwtHelper.cs:61-74 | the token handler's check that Expires, read from the local clock, is after the NotBefore it fills in from UTC: it holds iff the host's offset plus the lifetime is positive, whatever the time |
| Jwt.ZeroMinuteToken | JwtHelper.cs:68 | with ExpireMinutes = 0 and a good key, no token is issued at UTC or west of it; east of UTC the token's expiry equals its issuance and it is accepted iff the Issuer is not blank and the time is within five minutes either side |
| Jwt.ValidationPolicy | JwtHelper.cs:95-117 | the TokenValidationParameters Configure builds: it reads roles from the role claim type, and when the lifetime is non-negative, the Issuer not blank and the key at least 128 bits it accepts every token Issue builds under the same settings at the moment of issuance |
| Jwt.Accepts | JwtHelper.cs:100-116 | the bearer handler's decision under the parameters: signed with a key that signs like the validation key, a validation key of at least 128 bits, a non-blank issuer equal to the valid one when ValidateIssuer is set, the audience when ValidateAudience is set, and the lifetime with the clock skew when ValidateLifetime is set |
| Jwt.PolicyFlags | JwtHelper.cs:95-117 | the policy validates the issuer against Issuer, does not validate the audience, validates the lifetime, and leaves signing-key validation off; its role claim type and key are the same ones Issue uses for the role claim and the signature |
| Jwt.IssuedTokenAcceptedWindow | JwtHelper.cs:63-111 | a token issued under settings s is accepted under the policy for s iff the Issuer has a non-white-space character, the key has at least 128 bits, ExpireMinutes >= 0, and now lies between issuance minus the clock skew and expiry plus the clock skew |
| Jwt.ExpiredTokenRefused | JwtHelper.cs:110-111 | after expiry plus the clock skew, an untampered token is refused |
| Jwt.ForeignTokenRefused | JwtHelper.cs:102-116 | a token issued under settings with another Issuer, or another SignKey encoding to as many bytes, is refused |
| Jwt.TrailingNulSecretAccepted | JwtHelper.cs:54-116 | a different secret need not be refused: a secret under 64 bytes with a NUL appended is accepted exactly when the secret itself is, because HMAC zero-pads short keys |
| Jwt.ConfigureJwtBearerOptions.constructor | JwtHelper.cs:85-88 | holds the settings bound from the configuration section (null when absent) |
| Jwt.ConfigureJwtBearerOptions.Configure | JwtHelper.cs:90-118 | installs exactly ValidationPolicy(settings) into the options; with null settings, or an empty secret that SymmetricSecurityKey refuses, it throws and installs nothing |
| Controllers.AnyEqual | Controllers/JwtAuthController.cs:59 | Any(item => item == user) holds iff some stored credential has both the submitted Username and the submitted Password |
| Controllers.MatchUsername | Controllers/JwtAuthController.cs:61 | the scan behind Single and SingleOrDefault: no row has the name, exactly one row (this index) has it, or two different rows have it |
| Controllers.DistinctNamesMatchAtMostOne | Controllers/JwtAuthController.cs:150 | on a table with distinct usernames, SingleOrDefault never meets several matches |
| Controllers.FirstOfType | Controllers/JwtAuthController.cs:103 | FirstOrDefault by claim type: null iff no claim has the type, else the first claim that has it |
| Controllers.ClaimsDictionary | Controllers/JwtAuthController.cs:81 | ToDictionary throws iff two claims share a type; otherwise the keys are the claim types and each maps to its claim's value |
| Controllers.SetAuthSpec | Controllers/JwtAuthController.cs:150-159 | what SetAuth does to the table: the response is Ok, BadRequest or the SingleOrDefault throw, and Ok exactly when one row has the Username |
| Controllers.AssignRole | Controllers/JwtAuthController.cs:154 | overwriting one row's Auth keeps the length and every Username, sets that row's Auth, and leaves every other row equal |
| Controllers.SetAuthKeepsShape | Controllers/JwtAuthController.cs:150-159 | SetAuth never inserts or reorders: the length and all Usernames stay, and only a row with the given Username can change, to the given Auth |
| Controllers.SetAuthOnKnownUser | Controllers/JwtAuthController.cs:150-156 | for the one row with the Username: Ok, that row becomes (Username, dto.Auth), and every other row is unchanged |
| Controllers.SetAuthOnUnknownUser | Controllers/JwtAuthController.cs:152-159 | for an unknown Username: BadRequest, and the table is untouched |
| Controllers.SetAuthKeepsLookups | Controllers/JwtAuthController.cs:150-154 | after SetAuth every Username's lookup result is the same as before, and a table with distinct usernames stays so |
| Controllers.RequirementOf | Controllers/JwtAuthController.cs:18-147 | only SignIn ([AllowAnonymous]) asks for nothing; exactly GetAuths and SetAuth ask for the role "Admin"; the rest ask for a token ([Authorize] on the class) |
| Controllers.Authorize | Controllers/JwtAuthController.cs:18-147 | the middleware's decision: challenge (401) iff the route needs a token and the caller has none, forbid (403) iff the route needs a role the caller's token lacks |
| Controllers.IsInRole | Controllers/JwtAuthController.cs:126 | true iff some claim of the role claim type has exactly the required value |
| Controllers.OnlySignInIsAnonymous | Controllers/JwtAuthController.cs:18-37 | SignIn is the only route allowed to a caller without a token |
| Controllers.AdminRoutes | Controllers/JwtAuthController.cs:125-147 | GetAuths and SetAuth are allowed iff the caller has a token with a role claim exactly "Admin" |
| Controllers.AuthenticatedRoutes | Controllers/JwtAuthController.cs:18 | every other route is allowed iff the caller has a token |
| Controllers.RoleComparisonIsExact | Controllers/JwtAuthController.cs:147 | an example: a role claim "admin" is forbidden at the "Admin" gate |
| Controllers.IssuedTokenAtAdminGate | Controllers/JwtAuthController.cs:147 | a token this service issued passes the Admin gate iff the record it was issued for has Auth "Admin" |
| Controllers.JwtAuthController.constructor | Controllers/JwtAuthController.cs:26-30 | the controller keeps the store and the helper it is given |
| Controllers.JwtAuthController.ValidateUser | Controllers/JwtAuthController.cs:56-71 | null iff no stored credential equals the submission; on a match it throws when the username has no role row or several, and otherwise returns the one row, whose Username is the submitted one |
| Controllers.JwtAuthController.SignIn | Controllers/JwtAuthController.cs:40-54 | BadRequest iff the credential matches nothing; the lookup's exception when the role row is missing or repeated; otherwise GenerateToken's token for the matched row, or its exception; writes nothing |
| Controllers.JwtAuthController.GetClaims | Controllers/JwtAuthController.cs:79-82 | the claim dictionary when claim types are distinct, the ToDictionary exception otherwise; its keys are exactly the claim types, each mapped to its claim's value |
| Controllers.JwtAuthController.GetUserRole | Controllers/JwtAuthController.cs:101-106 | the value of the first role claim; a NullReferenceException iff there is none |
| Controllers.JwtAuthController.GetUniqueId | Controllers/JwtAuthController.cs:114-119 | the value of the first jti claim; a NullReferenceException iff there is none |
| Controllers.JwtAuthController.GetAuths | Controllers/JwtAuthController.cs:128-131 | returns the whole role table in order, changing nothing |
| Controllers.JwtAuthController.SetAuth | Controllers/JwtAuthController.cs:148-160 | the table afterwards is SetAuthSpec of the table before: the one matching stored object gets dto.Auth (Ok), none gives BadRequest, several throw; the credential list and the list of objects stay |
| Controllers.JwtAuthController.Handle | Controllers/JwtAuthController.cs:18-38 | no token on a protected route gives 401 and a non-Admin caller on an Admin route gives 403, both before any action runs; the role table changes only through an allowed SetAuth; a sign-in body failing [Required] gives BadRequest |
| Scenarios.NoAdminTokenFromStore | FakeDbContext.cs:16-25 | when no credential holder's row says "Admin", no record ValidateUser returns says "Admin", and a token issued for it is forbidden at SetAuth |
| Scenarios.IssuedTokenReadOuts | Controllers/JwtAuthController.cs:79-119 | on an issued token's claims, GetUserRole gives the role, GetUniqueId the token id, and GetClaims the four claims keyed by type |
| Scenarios.SignInAlan | Controllers/JwtAuthController.cs:40-48 | alan's credential matches and his row is unique, so with a 16-character secret and a lifetime that outlasts the host's lag behind UTC SignIn returns the token Issue builds for his row |
| Scenarios.JayScenario | Controllers/JwtAuthController.cs:59-61 | on the initial store jay's credential matches but Single throws |
| Scenarios.PromotionScenario | Controllers/JwtAuthController.cs:147-156 | on the initial store alan gets a User token; that token is refused at SetAuth; an Admin caller sets alan to Admin (Ok); alan's next token carries role Admin |

## Left out

- HMAC-SHA256 signing, base64url serialisation, and the token handler's `CreateToken`/`WriteToken` are library code. The token is its descriptor. Signature checking is idealised as the HMAC key equivalence above, so tamper sensitivity is not modelled.
- `Guid.NewGuid()` is randomness. The token id is a parameter, and its uniqueness across issuances is not modelled.
- The clock is a parameter: `now` is UTC in whole seconds, and `DateTime.Now` is `now` plus the host's fixed `utcOffset`. Daylight-saving changes, sub-second ticks and the range limit of `DateTime.AddMinutes` are not modelled.
- The ASP.NET pipeline (routing, model binding to a `UserForm`, the authorization middleware) is not modelled. Only the decisions it applies are: `Request`, `Authorize` and `Handle`. No `GetUserName` request is routed through `Handle`.
- `GetUserName`: the library maps "sub" to `Identity.Name`, and that mapping is not modelled.
- The library's inbound and outbound claim-type mapping, and the `exp`/`nbf`/`iat` claims it adds to the principal, are not modelled. The claims the controller reads are the claims as issued.
- `Controllers.IsInRole`: compares claim types exactly. The library compares types ignoring case. No two claim types here differ only in case.
- `Jwt.JwtHelper.GenerateToken`: the empty-key refusal, the expiry-after-not-before refusal and the 128-bit key minimum are the library's checks; the source's comment relies on the last. The model takes the expiry written into the token to be `now` plus the lifetime in UTC, as the handler converts the local `Expires` to UTC.
- `Jwt.Accepts`: the lifetime rule, the five-minute default clock skew, the blank-issuer refusal and the verifier's 128-bit key minimum are the library's defaults, which `Configure` leaves in place. The check on the algorithm name is not modelled. SHA-256 itself is not modelled: a key over 64 bytes, which HMAC hashes, is taken to sign like no other key.
- `IncludeErrorDetails` and logging.
- Options binding and dependency injection (`IOptions`, `IOptionsSnapshot`, `IConfiguration`). The settings arrive as optional parameters. Null strings inside `JwtSettings` are not modelled.
- Null `Username` or `Auth` in a `SetAuth` body, and a null body: AuthDto.cs is not part of this model. Strings are never null here.
- Concurrency: the source holds in-memory lists and takes no lock.
- The `Users` and `Auths` setters. Nothing outside the constructor calls them.
- `Controllers.JwtAuthController.Handle`: states the gate decision, the [Required] rejection and the effect on the role table. For allowed read-only routes it does not restate each action's result.
- Strings are sequences of Unicode scalar values. A lone UTF-16 surrogate cannot occur.
