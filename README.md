# bitsbybeier: sign-in, sessions, content and model generation in Dafny

This project models the core of bitsbybeier, a small publishing site. It has an ASP.NET Core API, an
Angular client and a gulp task that turns the C# domain models into TypeScript. The model covers
these parts:

- **Accounts** (`users.dfy`, `user_service.dfy`): the `User` entity and its two roles.
  - The constraints the Users table enforces: column limits, and a unique index on Email that covers
    every row.
  - The account service's insert, lookup and last-login update, as a `UserStore` class.
- **Host configuration** (`startup.dfy`): the configuration keys `Program.cs` reads for sign-in,
  whether the host starts, whether the authentication handlers can be built, the `JwtOptions` bound
  from the same keys and the bearer parameters built from them.
- **Google sign-in** (`auth.dfy`): `AuthController.GoogleLogin`, written as a function of the table
  before the call (`Login`) and as a method on the store (`GoogleLogin`) that is proved to reach the
  same state; `HostLogin` is the same request through the configured host.
  - Every branch is modelled: host not serving, blank ID token refused by request validation,
    client id missing, verification failed, null payload, null email or name in the payload, first
    login, returning login, deactivated account, email refused as a query parameter, refused insert
    (which uses up an identity value when it gets as far as executing), and token service failing
    after the save.
  - The claims a session carries, the principal the bearer handler builds from them, and what each
    claim lookup of the API returns on that principal.
- **Session tokens** (`jwt.dfy`): `JwtTokenService.GenerateToken` with the HMAC-SHA256 key-length
  refusal, and the checks the bearer-token middleware makes on issuer, audience, lifetime and key,
  with its inbound claim-type mapping. The signature is symbolic.
- **Claims** (`claims.dfy`): `FindFirst` (the claim type is compared ignoring case) and the
  `BaseController` accessors.
- **CMS controller** (`cms.dfy`): the `[Authorize(Roles = "Admin")]` gate (401 versus 403), the two
  placeholder actions and the create action with its random id.
- **Content** (`content.dfy`): the `Content` entity and `ContentService` as a `ContentStore` class.
  - Create, get, status update, full update and delete.
  - Each update is backed by a function of the row before it.
- **Client** (`guards.dfy`, `drafts.dfy`, `preview.dfy`):
  - the four route guards and the route table;
  - the drafts page's publish and schedule requests;
  - the markdown-stripping preview of the blog and drafts pages.
- **Model generator** (`modelgen_types.dfy`, `modelgen_comments.dfy`, `modelgen.dfy`): the functions
  of `ClientApp/gulpfile.js`.
  - Type mapping, property parsing and doc-comment extraction.
  - Enum parsing and emission, and interface generation.
  - The per-file decision and the index file.
  - Each regular expression is written out as the scan the engine performs.
  - Each loop is a `while` or `for` loop proved to compute a specification function.

`text.dfy` holds character classes and string helpers for JavaScript and .NET, and the UTF-8 byte
count. `postgres.dfy` holds what PostgreSQL stores for a string bound for a varchar(n) or a `text`
column.
`wrappers.dfy` holds `Option` and `Result`.

Time is an integer count of seconds on the server's UTC clock. Each request uses one `now`. The
GUID of a token (`jti`), the draw of `Random.Shared` and the Google verification result are
parameters.

### Behaviour the model makes explicit

- **Email uniqueness.** The unique index on Email in `ApplicationDbContext` covers soft-deleted rows
  too. So an email whose only rows are soft-deleted can never sign in again
  (`Auth.DeletedEmailCannotReturn`).
- **First-login conflicts.** A first login whose insert is refused has no fallback: the failed save
  is caught and answered with "Authentication failed". An INSERT refused while it executes (a taken
  email, a NULL email or name) has still used up one value of the identity sequence. One refused
  before it executes (a value too long for its column, or holding U+0000) has not
  (`Users.BindsAccount`, `UserService.UserStore.CreateUser`, `ContentService.ContentStore.Create`).
- **Null payload fields.** A Google payload without an email is never matched and its insert is
  refused; a payload without a name cannot create an account (`Auth.NullEmailIsRefused`,
  `Auth.NullNameBlocksFirstLogin`).
- **Configuration.** A missing JWT secret stops the host at startup. An empty secret, or a missing
  or empty Google client id or client secret, makes every request fail before any controller runs
  (`Startup.HandlersBuild`, `Auth.HostLogin`). A non-empty secret shorter than 256 bits passes both
  checks and fails only when the token is written, after the new account and its LastLoginAt have
  been saved (`Auth.HostedShortKeyLoginStillSaves`).
- **The `sub` claim.** The login puts the email in `sub` and the id in a NameIdentifier claim. The
  bearer handler maps inbound claim types, so `sub` arrives as a second NameIdentifier claim. The
  first NameIdentifier lookup gives the id, and `BaseController.UserId`, which reads "sub" and then
  "id", is null on every session (`Auth.SessionPrincipalReads`).
- **Short claim names.** `BaseController.UserEmail` and `UserDisplayName` look up the short names
  "email" and "name". A session's principal carries only the long framework names. The lookup
  ignores case but not length, so both accessors find nothing (`Auth.SessionShortNamesMissing`).
- **Expiry.** The middleware keeps its default five-minute clock skew, so a token is accepted up to
  five minutes after it expires (`Jwt.ValidateGenerated`).
- **Audience.** The default audience check ignores one trailing "/", so a token addressed to the
  configured audience plus "/" is accepted (`Jwt.TrailingSlashAudienceAccepted`).
- **Request validation.** Both controllers are `[ApiController]`s whose request bodies declare a
  non-nullable string (`GoogleTokenRequest.IdToken`, `ContentRequest.Title`). The implicit
  `[Required]` this gives refuses null, empty and white-space values, and the automatic 400 is sent
  before the action runs. So `CreateContent`'s own "Title is required" answer is never sent
  (`Cms.ActionTitleCheckUnreachable`), and a blank ID token never reaches the sign-in code
  (`Auth.HostLogin`).
- **Column limits.** A string is a sequence of characters (Unicode scalar values), and the limits
  count characters, as PostgreSQL's varchar(n) does (`Users.LimitsCountCharacters`).
  - A value over its limit is refused, unless everything past the limit is spaces. Then varchar(n)
    stores it cut to the limit, without an error (`Postgres.Varchar`, `Users.StoredRow`,
    `Contents.StoredContent`).
  - The services return the entity they built, which keeps the value as given, while the row holds
    the cut value (`UserService.UserStore.CreateUser`, `ContentService.ContentStore.Create`,
    `ContentService.ContentStore.UpdateFull`).
  - No text value can hold U+0000: the server refuses such a parameter, in a `text` column such as
    ContentText too (`Postgres.VarcharColumn`, `Postgres.TextColumn`, `Contents.NulIsRefused`). A
    payload email holding one makes the login's lookup query fail (`Auth.NulEmailIsRefused`).
  - An email cut this way signs in once only. The next login looks the account up by the email as
    given and finds nothing; its insert would store the cut email again and hits the unique index
    (`Auth.CutEmailSignsInOnce`).
- **Deactivated accounts.** The answer names the reason: "Account is deactivated".

## Model

| member | source | states |
|---|---|---|
| Postgres.Varchar | Migrations/20251228191633_AddContentAndContentImages.cs:21-27 | a value within the limit is stored as it is; a stored value is within the limit and a prefix of the value given, followed in it only by spaces; the value is refused exactly when a character other than a space stands past the limit |
| Postgres.TextColumn | Migrations/20251228191633_AddContentAndContentImages.cs:28 | a string without U+0000 is stored as it is; one holding U+0000 is refused |
| Postgres.VarcharColumn | Migrations/20251228191633_AddContentAndContentImages.cs:21-27 | refused exactly when the string holds U+0000 or varchar(n) refuses it; otherwise what varchar(n) stores, itself free of U+0000; a string within the limit and free of U+0000 is stored as it is |
| Postgres.VarcharStored | Migrations/20251228191633_AddContentAndContentImages.cs:21-27 | storing a stored value again changes nothing, and the value given is the stored one padded with spaces |
| Postgres.VarcharCutsPadding | Migrations/20251228191633_AddContentAndContentImages.cs:21-27 | a value of exactly the limit's length followed by any number of spaces is stored as that value |
| Users.RoleName | Domain/Models/UserRole.cs:6-17 | a role's name is "User" or "Admin" |
| Users.RoleStored | Data/ApplicationDbContext.cs:63-66 | the role column holds 0 or 1 |
| Users.RoleEncodingsRoundTrip | Domain/Models/UserRole.cs:6-17 | parsing the name back, and reading the stored integer back, both give the role |
| Users.RoleEncodingsInjective | Domain/Models/UserRole.cs:11-16 | the two roles have different names and different stored values, in both directions |
| Users.DefaultUser | Domain/Models/User.cs:15-70 | a new User has empty email and name, no Google id or image, is created now, never logged in, active, not deleted, role User |
| Users.NewAccountFields | Api/Services/UserService.cs:46-55 | the account built on creation carries the given email, name and Google id and differs from the defaults in nothing else |
| Users.InsertKeepsTableValid | Data/ApplicationDbContext.cs:52-84 | an insert whose values every column takes, whose stored email no row has and whose id is fresh keeps emails and ids unique and rows within limits, the row added being the one the columns store |
| Users.DeletedRowBlocksInsert | Data/ApplicationDbContext.cs:84 | a soft-deleted row still blocks an insert whose email its column would store as that row's email |
| Users.LimitsCountCharacters | Data/ApplicationDbContext.cs:56-58 | the limits count characters as varchar(n) does: 100 characters outside the Basic Multilingual Plane fit the display-name column although they are 200 UTF-16 code units |
| Users.StoredRow | Data/ApplicationDbContext.cs:52-61 | the row stored for an account fits the columns (limits, no U+0000) and differs from it only in Email, DisplayName and GoogleId, each the value its varchar(n) column stores; an account that fits is stored as it is; None exactly when a column refuses its value, for its length or a U+0000 |
| Users.AdmitsBinds | Data/ApplicationDbContext.cs:52-84 | an admitted account binds every value; a refused one whose values all bind was refused for a NULL Email or DisplayName or for a taken email, the refusals met while the INSERT executes |
| Users.FindByEmail | Api/Services/UserService.cs:31-35 | the result is a non-deleted row with exactly that email; it is None exactly when there is no such row |
| Users.FindByEmailUnique | Api/Services/UserService.cs:31-35 | under the unique index any matching row is the one found, whatever the scan order |
| Users.ClearProfileImage | Data/ApplicationDbContext.cs:78-81 | the image id is set to NULL in every row that pointed at it; nothing else changes |
| Users.ClearProfileImageSound | Data/ApplicationDbContext.cs:78-81 | afterwards no row refers to the image and the table constraints still hold |
| Users.SetLastLogin | Api/Services/UserService.cs:69-73 | only the row with that id gets LastLoginAt = now |
| Users.SetLastLoginSound | Api/Services/UserService.cs:69-73 | recording a login keeps the table valid and changes an email lookup only in that account's LastLoginAt |
| Users.SetLastLoginOnAppended | Api/Controllers/AuthController.cs:71-83 | recording the login of a just-added row changes that row only |
| UserService.UserStore.CreateUser | Api/Services/UserService.cs:44-63 | exactly when both payload fields are present, every column takes its value and the email it stores is in no row, the row the columns store is added under the next id and the account is returned as built, its values uncut; otherwise the save failure is reported with the rows unchanged; the identity counter advances exactly when every value given binds to its column, that is when the INSERT executes |
| UserService.UserStore.UpdateLastLogin | Api/Services/UserService.cs:69-73 | the new table is SetLastLogin of the old one; the counter is kept and the table stays valid |
| UserService.CreatedUserIsFound | Api/Services/UserService.cs:31-63 | after a successful create, the lookup of the stored email finds exactly the row created, and so does the lookup of the email given when it is within the limit |
| UserService.CutEmailNotFound | Api/Services/UserService.cs:31-35 | in a valid table the lookup of an email over the limit finds nothing |
| Jwt.DefaultOptionsCannotSign | Api/Configuration/JwtOptions.cs:8-28 | with the default options (empty secret) minting fails with "JWT Secret not configured"; issuer, audience and lifetime defaults are as declared |
| Jwt.GenerateToken | Api/Services/JwtTokenService.cs:35-62 | fails exactly when the secret is null or empty ("JWT Secret not configured") or shorter than 32 UTF-8 bytes (the HMAC-SHA256 refusal); otherwise the claims are the caller's followed by one jti, and issuer, audience, expiry (now plus the minutes) and key come from the options |
| Jwt.AsciiSecretNeeds32Chars | Program.cs:115 | an ASCII secret can sign exactly when it has at least 32 characters; a shorter non-empty one gets the key-length refusal |
| Jwt.TokenIdIsFresh | Api/Services/JwtTokenService.cs:45-48 | a token's jti is the GUID it was given, so tokens minted with different GUIDs differ |
| Jwt.ClaimsCopiedThenJti | Api/Services/JwtTokenService.cs:45-48 | the token's claims are exactly the caller's claims plus the jti |
| Jwt.InboundType | Program.cs:105-117 | the bearer handler renames "sub" and "nameid" to NameIdentifier, "email" to Email, "unique_name" to Name, "role" and "roles" to Role; every other type, "jti" and the long URI types included, passes unchanged |
| Jwt.MapInbound | Program.cs:105-117 | mapping keeps the number and order of the claims and their values, and renames each type by InboundType |
| Jwt.InboundClaims | Program.cs:105-117 | the principal of a token has its payload claims plus three registered ones |
| Jwt.Validate | Program.cs:105-117 | a token is accepted exactly when it is signed with the key, the key is at least 256 bits, it is within expiry plus skew, the non-blank valid audience matches up to one trailing "/", and the non-blank valid issuer matches; it then yields the inbound-mapped payload claims followed by exp, iss and aud |
| Jwt.ValidateGenerated | Program.cs:105-117 | a minted token validates until expiry plus the five-minute skew, yielding the minted claims with their types mapped in (so "sub" becomes NameIdentifier) followed by exp, iss and aud; after that it is expired |
| Jwt.TamperedRejected | Program.cs:105-117 | a token signed with another key, addressed to an audience that differs by more than a trailing "/", from another issuer, or checked against a blank issuer or audience never validates |
| Jwt.TrailingSlashAudienceAccepted | Program.cs:114 | a token whose audience differs from the configured one only by a trailing "/" is accepted |
| Claims.FindFirst | Api/Controllers/BaseController.cs:27-37 | None exactly when no claim has the type (case ignored); otherwise the value of the first claim of that type |
| Claims.FoundByDistinctLength | Api/Controllers/AuthController.cs:86-93 | in a claim list whose types differ in length, every claim is found by its own type |
| Claims.FirstOfTypeFound | Api/Controllers/BaseController.cs:27 | the lookup returns the first claim of the type, wherever it stands |
| Claims.FindFirstAppend | Api/Controllers/BaseController.cs:27 | appending claims never changes a lookup that already succeeds |
| Claims.AllClaims | Api/Controllers/AuthController.cs:118-119 | a principal without identities has no claims; one with a single identity has that identity's claims |
| Claims.UserId | Api/Controllers/BaseController.cs:27 | the "sub" claim if present, otherwise the "id" claim; None without a principal |
| Claims.UserEmail | Api/Controllers/BaseController.cs:32 | the first claim of short type "email"; None without a principal |
| Claims.UserDisplayName | Api/Controllers/BaseController.cs:37 | the first claim of short type "name"; None without a principal |
| Claims.IsAuthenticated | Api/Controllers/BaseController.cs:42 | true exactly when a primary identity exists and is authenticated |
| Claims.GetUser | Api/Controllers/AuthController.cs:116-122 | the answer's email and name are the values of the long email and name claims |
| Claims.Authenticated | Program.cs:105-117 | the principal bearer authentication builds is authenticated and holds exactly the claims given to it (the validated, mapped claims of the token) |
| Auth.LoginClaims | Api/Controllers/AuthController.cs:86-93 | a session is built from five claims |
| Auth.LoginClaimLookups | Api/Controllers/AuthController.cs:86-93 | each login claim is found under its own type: the id text, the email (long name and "sub"), the name and the role name |
| Auth.LookupEmail | Api/Controllers/AuthController.cs:54-55 | a null payload email finds no account; otherwise the lookup is the non-deleted row with that email |
| Auth.Login | Api/Controllers/AuthController.cs:36-112 | every 401 carries one of the three messages; a token is issued only with a client id, a verified payload and a key that can sign; the counter rises by at most one, on a refused insert only when its values bind |
| Auth.Complete | Api/Controllers/AuthController.cs:81-105 | LastLoginAt is saved whether or not minting succeeds; the answer is a token exactly when the key can sign, carrying the account's id, email, name, role and session claims, and otherwise "Authentication failed" |
| Auth.GoogleLogin | Api/Controllers/AuthController.cs:36-112 | the action leaves the store valid, and its response, new table and counter are exactly those Login gives for the old table |
| Startup.BoundJwtOptions | Program.cs:55-56 | the JWT options take each configured key, or the class default when it is missing (empty secret, the two names, 60 minutes) |
| Startup.BearerParameters | Program.cs:95-117 | the bearer parameters check the configured secret, with the five-minute skew |
| Startup.ServedHostIsConfigured | Program.cs:95-122 | when requests reach the controllers the bound options have a secret, the bearer parameters are exactly those of the bound options, a Google client id is configured, and signing works exactly when the key is long enough |
| Auth.HostLogin | Program.cs:100-122 | not served exactly when the handlers cannot be built; otherwise a null, empty or white-space IdToken gets the validation 400 before the controller; otherwise it is the controller's Login with the configured client id and bound options |
| Auth.HostedLoginIsConfigured | Program.cs:95-122 | behind a serving host a blank IdToken gets the validation 400; any other reaches the controller with its client id, and with a long enough key every 401 leaves the rows unchanged |
| Auth.RejectedTokenChangesNothing | Api/Controllers/AuthController.cs:43-51 | a missing client id or a failed verification answers "Authentication failed"; a null payload answers "Invalid Google token"; the table is untouched in all three cases |
| Auth.DeactivatedIsRefused | Api/Controllers/AuthController.cs:76-79 | a deactivated account gets "Account is deactivated" and the table is not touched |
| Auth.FirstLoginProvisions | Api/Controllers/AuthController.cs:57-105 | a first login that the columns admit adds exactly one row, the new account as its columns store it (the account itself when within the limits) with the next id and LastLoginAt = now; it answers for that account with the payload's email and name as given, role "User", and a token minted from the account as built |
| Auth.NewLookupFindsNothing | Api/Controllers/AuthController.cs:54-57 | in a valid table, when an account can be inserted, the lookup by the email given finds nothing |
| Auth.ReturningLoginKeepsAccount | Api/Controllers/AuthController.cs:54-105 | a returning active account adds no row; only its LastLoginAt changes; the answer carries its id, email, name and role |
| Auth.DeletedEmailCannotReturn | Api/Controllers/AuthController.cs:54-72 | an email held only by soft-deleted rows, or that email followed by spaces past the limit, is refused with "Authentication failed"; the rows are unchanged and one identity value is used up unless the name or subject is refused before the INSERT executes |
| Auth.NullEmailIsRefused | Api/Controllers/AuthController.cs:54-72 | a payload without an email is refused with "Authentication failed"; the rows are unchanged and one identity value is used up unless the name or subject is refused before the INSERT executes |
| Auth.NulEmailIsRefused | Api/Controllers/AuthController.cs:54-111 | a payload email holding U+0000 fails the lookup query: "Authentication failed", rows and identity counter unchanged |
| Auth.NullNameBlocksFirstLogin | Api/Controllers/AuthController.cs:57-72 | a first login whose payload has no name is refused the same way, using up an identity value when the email and subject bind |
| Auth.UnsignedLoginStillSaves | Api/Controllers/AuthController.cs:71-111 | whenever minting fails (no secret or one too short), a first login has already added the account as its columns store it and saved its LastLoginAt, and then answers "Authentication failed" |
| Auth.HostedShortKeyLoginStillSaves | Program.cs:115 | through a serving host with a key under 256 bits, a first login with a non-blank IdToken saves the account and its LastLoginAt and then answers "Authentication failed" |
| Auth.CompleteKeepsTableValid | Api/Controllers/AuthController.cs:82-105 | the tail of a login keeps the table valid, its size and its counter |
| Auth.LoginKeepsTableValid | Api/Controllers/AuthController.cs:36-112 | every login keeps the table valid, every id below the counter, and never lowers the counter |
| Auth.LoggedInAccountIsLive | Api/Controllers/AuthController.cs:54-105 | a successful login answers with the payload's email as given, and the lookup on the new table of the email its column stores finds an active account with the response's id and role, LastLoginAt = now, and the response's name as its column stores it |
| Auth.SecondLoginReusesAccount | Api/Controllers/AuthController.cs:54-105 | a repeated login with the same payload, its email within the column limit, answers for the same account and adds no row |
| Auth.CutEmailSignsInOnce | Api/Controllers/AuthController.cs:54-72 | an email over the limit only by trailing spaces signs in once, answered with the email as given; the same payload's next login finds no row, its insert is refused by the unique index, and it answers "Authentication failed" with the rows unchanged and one identity value used up |
| Auth.SessionClaims | Api/Services/JwtTokenService.cs:45-48 | a session holds the five login claims followed by its jti |
| Auth.SessionClaimLookups | Api/Services/JwtTokenService.cs:45-48 | in the token's own payload, "sub" and the long email and name types give the account's email, email and name |
| Auth.SessionPrincipalClaims | Program.cs:105-117 | a session's principal holds nine claims |
| Auth.SessionPrincipalShape | Program.cs:105-117 | those are the id under NameIdentifier, email, name, role, the email under a second NameIdentifier (the renamed "sub"), jti, then exp, iss and aud |
| Auth.SessionPrincipalLookups | Api/Controllers/AuthController.cs:116-122 | on a session's principal the NameIdentifier, Email, Name and Role lookups give the id, email, display name and role name |
| Auth.SessionPrincipalHidesSub | Api/Controllers/BaseController.cs:27 | a session's principal has no "sub" and no "id" claim |
| Auth.SessionShortNamesMissing | Api/Controllers/BaseController.cs:32-37 | the short "email" and "name" lookups find nothing on a session's principal |
| Auth.ClaimTypesAreLong | Api/Controllers/BaseController.cs:27-37 | no claim of a session's principal has a type of two, four or five characters (as long as "id", "name" or "email") |
| Auth.SessionRole | Api/Controllers/CmsController.cs:8 | a session's principal holds the Admin role claim exactly when the account has that role |
| Auth.SessionAuthenticates | Program.cs:105-117 | a minted token within its lifetime plus skew authenticates as the session principal |
| Auth.SessionPrincipalReads | Api/Controllers/BaseController.cs:27-37 | on a session's principal UserId, UserEmail and UserDisplayName are null, NameIdentifier gives the id, GET user answers email and name, and the CMS allows Admins and forbids Users |
| Auth.SessionTokenIdentifiesAccount | Api/Controllers/AuthController.cs:114-122 | within its lifetime plus skew a minted token authenticates as the session principal; there UserId is null, the NameIdentifier lookup gives the account id, GET user answers its email and name, UserEmail and UserDisplayName are null, and the CMS allows Admins and forbids Users |
| Auth.ExpiredSessionIsChallenged | Program.cs:105-117 | after expiry plus skew the token is refused and every CMS request is challenged with 401 |
| Auth.LoginResponseMatchesSession | Api/Controllers/AuthController.cs:96-105 | a successful response's token authenticates within its lifetime plus skew; on it UserId is null, NameIdentifier gives the response's user id, GET user its email and name, the CMS opens exactly for role "Admin", and the jti is the one drawn |
| Cms.Authenticate | Program.cs:105-117 | a request is authenticated exactly when it presents a token that validates, and then carries that token's inbound claims (types mapped, then exp, iss, aud) |
| Cms.AdminGate | Api/Controllers/CmsController.cs:8 | an anonymous caller gets 401, an authenticated non-Admin 403, an Admin passes |
| Cms.RandomNext | Api/Controllers/CmsController.cs:41 | a draw lies in [min, max) |
| Cms.RandomNextCovers | Api/Controllers/CmsController.cs:41 | every value in [min, max) is some draw |
| Cms.Get | Api/Controllers/CmsController.cs:11-15 | the welcome message stamped with the request time |
| Cms.GetContent | Api/Controllers/CmsController.cs:18-28 | two placeholder items with ids 1 and 2 and their titles, created one and two days ago |
| Cms.CreateContent | Api/Controllers/CmsController.cs:31-48 | inside the action: refused with the title message exactly when the title is null or white space; otherwise echoes title and body under an id in [100, 999) |
| Cms.IsNullOrWhiteSpace | Api/Controllers/CmsController.cs:33 | null and "" are blank; a string starting with a non-white-space character is not |
| Cms.Handle | Api/Controllers/CmsController.cs:8-51 | anonymous requests get 401 and non-Admins 403; an Admin's post whose Title is null, empty or white space gets the validation 400 ("The Title field is required.") and never reaches the action; any other Admin request reaches the action it names: the root answers the welcome message stamped now, the list the two placeholder items, and a post with a title is created |
| Cms.ActionTitleCheckUnreachable | Api/Controllers/CmsController.cs:33-36 | no request gets the action's "Title is required"; for an Admin post the validation 400 comes exactly where the action would have refused |
| Cms.OnlyAdminsReachActions | Api/Controllers/CmsController.cs:8-48 | whatever is requested, only an Admin reaches an action; anyone else gets 401 or 403 |
| Cms.CreatedLocationNamesId | Api/Controllers/CmsController.cs:47 | reading the number back from the new item's location gives its id |
| Cms.EveryIdReachable | Api/Controllers/CmsController.cs:41 | every id in [100, 999) is given to a new item by some draw |
| Cms.BlankTitleIsDotNetWhiteSpace | Api/Controllers/CmsController.cs:33-36 | the blank test is .NET's: a byte-order mark alone passes and U+0085 alone is refused, as are "" and null |
| Contents.DefaultContent | Domain/Models/Content.cs:20-73 | a new Content is active and a draft, has empty strings and no subtitle, update, schedule or images, and is created now |
| Contents.NewContent | Api/Services/ContentService.cs:36-45 | a new row fits the columns exactly when the author, title, subtitle and text given do (limits, no U+0000) |
| Contents.StoredContent | Migrations/20251228191633_AddContentAndContentImages.cs:21-28 | the row stored for a content item fits the columns (limits, no U+0000) and differs from it only in Author, Title and Subtitle, each the value its varchar(n) column stores (ContentText is unlimited text); a row that fits is stored as it is; None exactly when a column refuses its value, for its length or a U+0000, ContentText included |
| Contents.PaddedTitleIsCut | Migrations/20251228191633_AddContentAndContentImages.cs:26 | a title of 500 characters followed by spaces is stored as those 500 characters, the rest of the row as it is |
| Contents.NulIsRefused | Migrations/20251228191633_AddContentAndContentImages.cs:21-28 | a U+0000 in the author, title, subtitle or text makes the database refuse the row, whatever the lengths |
| Contents.ApplyStatus | Api/Services/ContentService.cs:71-86 | a status update keeps the id, creation time and images, and the row fits after exactly when it fitted before |
| Contents.ApplyFull | Api/Services/ContentService.cs:111-146 | a full update keeps the id, creation time and images, and a fitting row stays fitting when every text field it takes fits its column |
| Contents.NewContentFields | Api/Services/ContentService.cs:36-45 | a created row copies author, title, subtitle, text and draft flag; it is active, created now, and never updated or scheduled |
| Contents.StatusUpdateFields | Api/Services/ContentService.cs:71-86 | each status field present is overwritten and each absent one kept; UpdatedAt is set to now; text, id and images are kept; column limits still hold |
| Contents.FullUpdateFields | Api/Services/ContentService.cs:111-146 | author, title and text change only to non-empty values; subtitle changes to any value given; UpdatedAt is now; id, creation time and images are kept |
| Contents.EmptyStringsInFullUpdate | Api/Services/ContentService.cs:111-129 | empty author, title and text are ignored, while an empty subtitle sets the subtitle to "" |
| Contents.FullUpdateWithoutTextIsStatusUpdate | Api/Services/ContentService.cs:71-146 | a full update without text fields equals the status update of its status fields |
| Contents.FullUpdateAgreesWithStatus | Api/Services/ContentService.cs:131-146 | the status part of any full update acts as the status update does |
| Contents.UpdatesIdempotent | Api/Services/ContentService.cs:71-146 | repeating either update with the same request and clock changes nothing more |
| Contents.PublishAtNeverCleared | Api/Services/ContentService.cs:81-84 | neither update can clear a publication date |
| ContentService.NotFoundMessage | Api/Services/ContentService.cs:68 | the message reads "Content with ID " followed by the id and " not found" |
| ContentService.ContentStore.Get | Api/Services/ContentService.cs:183-186 | Some exactly when the id has a row, and then that row, whose id is the key |
| ContentService.ContentStore.Create | Api/Services/ContentService.cs:32-53 | when every column takes its value, the row the columns store is added under the next id, the identity counter advances and the item is returned as built, its values uncut; otherwise the statement fails before it executes, and the rows and the counter are unchanged |
| ContentService.ContentStore.Update | Api/Services/ContentService.cs:61-93 | a missing id gives the not-found error and no change; otherwise the row becomes its status update |
| ContentService.ContentStore.UpdateFull | Api/Services/ContentService.cs:101-153 | a missing id gives the not-found error; otherwise, when every column takes its value, the row becomes its full update as the columns store it and the update is returned as built; otherwise the save fails and nothing changes |
| ContentService.ContentStore.Delete | Api/Services/ContentService.cs:160-176 | answers true exactly when the id had a row; the row is gone afterwards |
| ContentService.CreateAddsOneRow | Api/Services/ContentService.cs:47-48 | a create adds exactly one row under an id no row had and keeps every other row |
| ContentService.DeleteRemovesOneRow | Api/Services/ContentService.cs:164-175 | a delete removes one row and keeps every other row |
| Drafts.SchedulePublish | ClientApp/src/app/drafts/drafts.component.ts:69-88 | an update carrying only the date is sent exactly when the answer is non-empty and parses; nothing is sent when the prompt is cancelled or empty; otherwise the date is reported invalid |
| Drafts.PublishNowEffect | ClientApp/src/app/drafts/drafts.component.ts:53-54 | publishing makes the row active and not a draft and keeps its text and its date, so the row is publishable at once exactly when it had no date |
| Drafts.ScheduleEffect | ClientApp/src/app/drafts/drafts.component.ts:73-75 | scheduling sets only the date: the draft and active flags are kept |
| Guards.AuthGuard | ClientApp/src/app/guards/auth.guard.ts:24-32 | allows exactly the authenticated; a denial navigates to login with the requested URL |
| Guards.AdminGuard | ClientApp/src/app/guards/admin.guard.ts:24-40 | allows exactly an authenticated caller with role "Admin"; an unauthenticated caller goes to login with the URL, others go home |
| Guards.AuthGuardFn | ClientApp/src/app/guards/auth.guard.functional.ts:9-20 | allows exactly when the authenticated flag is set; a denial navigates to login with the URL |
| Guards.AdminGuardFn | ClientApp/src/app/guards/admin.guard.functional.ts:9-20 | allows exactly when isAdmin() holds; a denial navigates home |
| Guards.GuardRedirectTargets | ClientApp/src/app/guards/admin.guard.ts:24-40 | the class admin guard sends the unauthenticated to login and nobody else there; the functional one never sends anyone to login |
| Guards.GuardsIgnoreRoute | ClientApp/src/app/guards/auth.guard.ts:24-32 | the decisions do not depend on the route snapshot |
| Guards.AdminGuardsCompared | ClientApp/src/app/guards/admin.guard.functional.ts:9-20 | the two admin guards agree for the authenticated; the functional one alone admits an unauthenticated caller whose isAdmin() holds |
| Guards.Resolve | ClientApp/src/app/app.routes.ts:10-25 | the selected route is the first whose path equals the path, or the wildcard |
| Guards.RunGuard | ClientApp/src/app/app.routes.ts:14-23 | the auth guard admits exactly the authenticated, the admin guard exactly isAdmin(); either navigates exactly when it denies |
| Guards.CanActivate | ClientApp/src/app/app.routes.ts:14-23 | activation is allowed exactly when every listed guard allows |
| Guards.RouteTableShape | ClientApp/src/app/app.routes.ts:10-25 | home on the exact empty path; login and blog open; cms and drafts behind both guards; the wildcard last, redirecting home |
| Guards.AdminPagesNeedBothGuards | ClientApp/src/app/app.routes.ts:10-25 | cms and drafts open exactly for an authenticated admin; every other path opens for everyone |
| Preview.HashRunEnd | ClientApp/src/app/blog/blog.component.ts:50 | the end of the maximal run of '#' starting at a position |
| Preview.StripHeaders | ClientApp/src/app/blog/blog.component.ts:50 | removing headers never lengthens the text and adds no character |
| Preview.RemoveDoubleStars | ClientApp/src/app/blog/blog.component.ts:51 | removing "**" never lengthens the text and adds no character |
| Preview.RemoveStars | ClientApp/src/app/blog/blog.component.ts:52 | no '*' is left, and text without '*' is unchanged |
| Preview.StarPassesCompose | ClientApp/src/app/blog/blog.component.ts:51-52 | removing "**" and then '*' is the same as removing '*' alone |
| Preview.StripLinks | ClientApp/src/app/blog/blog.component.ts:53 | replacing links never lengthens the text and adds no character |
| Preview.StripMarkdown | ClientApp/src/app/blog/blog.component.ts:49-53 | the stripped text has no '*' and is no longer than the content |
| Preview.Prefix | ClientApp/src/app/blog/blog.component.ts:55 | substring(0, end) has length end clamped to [0, n] and is a prefix |
| Preview.BlogPreviewShape | ClientApp/src/app/blog/blog.component.ts:48-56 | a stripped text longer than the limit becomes its first limit characters plus "..."; a shorter one is kept whole; no '*' before the ellipsis |
| Preview.DraftsPreviewShape | ClientApp/src/app/drafts/drafts.component.ts:120-128 | the drafts preview is the first min(200, n) characters of the stripped text, without '*' |
| Preview.BlogAndDraftsAgree | ClientApp/src/app/drafts/drafts.component.ts:120-128 | with a limit of 200 the blog preview is the drafts preview, plus "..." exactly when the text is cut |
| Preview.NegativeLimit | ClientApp/src/app/blog/blog.component.ts:55 | a negative limit leaves only "..." |
| Preview.HeaderMarkerRemoved | ClientApp/src/app/blog/blog.component.ts:50 | a run of '#' followed by white space is removed together with that character |
| Preview.HashtagKept | ClientApp/src/app/blog/blog.component.ts:50 | a run of '#' followed by a non-blank is kept |
| Preview.NoHeadersUnchanged | ClientApp/src/app/blog/blog.component.ts:50 | text without '#' is unchanged by the header pass |
| Preview.LinkReplacedByText | ClientApp/src/app/blog/blog.component.ts:53 | a link [t](u) becomes t, whatever follows |
| Preview.EmptyLinkTextKept | ClientApp/src/app/blog/blog.component.ts:53 | "[]" is no link: the '[' is kept and the scan moves on |
| Preview.NoLinkUnchanged | ClientApp/src/app/blog/blog.component.ts:53 | text without '[' is unchanged by the link pass |
| Text.Trim | ClientApp/gulpfile.js:101 | trim returns a substring that neither starts nor ends with white space |
| Text.TrimIdempotent | ClientApp/gulpfile.js:101 | trimming twice is trimming once |
| Text.LowerAscii | ClientApp/gulpfile.js:229 | toLowerCase on ASCII maps every character through the lower-casing of letters and keeps the length |
| Text.NatToString | Api/Controllers/AuthController.cs:88 | the decimal text of a number is non-empty, all digits, with no leading zero |
| Text.NatToStringRoundTrip | Api/Controllers/CmsController.cs:47 | reading the decimal text back gives the number |
| Text.NatToStringInjective | Api/Controllers/CmsController.cs:47 | different numbers print differently |
| Text.Utf8Length | Program.cs:115 | the UTF-8 byte count of a string lies between its length and four times its length |
| Text.Utf8LengthAscii | Program.cs:115 | an ASCII string takes one byte per character |
| TypeMapping.RemoveFirst | ClientApp/gulpfile.js:37 | replace('?', '') removes at most one character, and changes nothing without a '?' |
| TypeMapping.GenericArgument | ClientApp/gulpfile.js:41 | a generic argument found is non-empty and shorter than the type by the two brackets |
| TypeMapping.ConvertMapped | ClientApp/gulpfile.js:49 | a trimmed mapped type name without '?' becomes its mapped name |
| TypeMapping.ConvertPassesThrough | ClientApp/gulpfile.js:49 | a trimmed name without '?' that is neither mapped nor a collection passes through |
| TypeMapping.NullableAppendsNull | ClientApp/gulpfile.js:36-50 | adding '?' to a type without one appends the null suffix to its conversion |
| TypeMapping.NullableEndsWithNull | ClientApp/gulpfile.js:36-50 | every type containing '?' converts to a type ending in the null suffix |
| TypeMapping.GenericArgumentOf | ClientApp/gulpfile.js:41-43 | the argument of Prefix<T> is T when the prefix has no '<' and T stays on one line |
| TypeMapping.CollectionBecomesArray | ClientApp/gulpfile.js:40-45 | List, ICollection and IEnumerable of T become the conversion of T with "[]", and a trailing '?' adds the null suffix |
| TypeMapping.MappedTypes | ClientApp/gulpfile.js:16-29 | every simple key of the mapping converts to its TypeScript name, alone and when nullable |
| TypeMapping.ByteArrayPassesThrough | ClientApp/gulpfile.js:49 | byte[] is not in the mapping and passes through as written |
| TypeMapping.OnlyFirstMarkRemoved | ClientApp/gulpfile.js:37 | in int?? only the first '?' is removed, so the type is not found in the mapping |
| TypeMapping.PropertyMatchAt | ClientApp/gulpfile.js:58 | a match at the start begins with "public" and has a non-empty type and a non-empty name of word characters |
| TypeMapping.PropertyMatchFrom | ClientApp/gulpfile.js:58 | a match anywhere requires "public" in the line, a non-empty type and a name of word characters |
| TypeMapping.LowerFirst | ClientApp/gulpfile.js:63 | only the first character is lower-cased; the length is kept |
| TypeMapping.NoPublicNoProperty | ClientApp/gulpfile.js:56-59 | a line that does not contain "public" declares no property |
| TypeMapping.PropertyNameShape | ClientApp/gulpfile.js:61-65 | a parsed name is a non-empty run of word characters not starting with an upper-case letter |
| TypeMapping.AutoPropertyParsed | ClientApp/gulpfile.js:56-66 | public T N { get; set; } followed by anything gives N with its first letter lower-cased, typed by the conversion of T |
| TypeMapping.AccessorsMatch | ClientApp/gulpfile.js:58 | the accessor list " { get; set; }" matches the end of the pattern |
| DocComments.Kinds | ClientApp/gulpfile.js:75-85 | one classification per line |
| DocComments.Classify | ClientApp/gulpfile.js:77-85 | a line is a summary exactly when it matches the one-line summary pattern; a text line matches the text pattern and holds neither tag; the text kept is trimmed |
| DocComments.DocComment | ClientApp/gulpfile.js:71-90 | the documentation extracted for a declaration is trimmed |
| DocComments.BlockStart | ClientApp/gulpfile.js:75 | the block start lies at or before the declaration line |
| DocComments.LastSummary | ClientApp/gulpfile.js:77-82 | a summary found lies in the range and is a one-line summary |
| DocComments.ParseComment | ClientApp/gulpfile.js:71-90 | the backward scan returns DocComment of the lines and the index |
| DocComments.BlockStartIsBlock | ClientApp/gulpfile.js:75 | every line from the block start to the declaration is a /// line, and the line above the block is not |
| DocComments.BlockStartAt | ClientApp/gulpfile.js:75 | a start with those two properties is the block start |
| DocComments.LastSummaryIsClosest | ClientApp/gulpfile.js:80-82 | the summary picked is the nearest to the declaration; none is picked only when the block has none |
| DocComments.NoBlockNoComment | ClientApp/gulpfile.js:75 | a declaration with no /// line directly above it has no documentation |
| DocComments.KindsAppend | ClientApp/gulpfile.js:96 | classifying two parts of a file and joining the results classifies the whole file |
| DocComments.DocCommentIgnoresBelow | ClientApp/gulpfile.js:73-87 | lines below the declaration do not affect its documentation |
| DocComments.RawCommentIgnoresAbove | ClientApp/gulpfile.js:73-87 | lines above the block do not affect the documentation; only the position shifts |
| DocComments.SummaryLineMatch | ClientApp/gulpfile.js:77 | a one-line summary yields its text and is classified as that summary |
| DocComments.TextLineMatch | ClientApp/gulpfile.js:78 | a text line "/// t" yields t when t starts with a non-blank |
| DocComments.SummaryNeedsTags | ClientApp/gulpfile.js:77 | a line is a one-line summary only if it holds both tags |
| DocComments.TextLineClassified | ClientApp/gulpfile.js:78-85 | a text line without tags contributes its trimmed text |
| DocComments.OpeningTagSkipped | ClientApp/gulpfile.js:83 | a line holding only the opening tag contributes nothing |
| DocComments.ClosingTagSkipped | ClientApp/gulpfile.js:83 | a line holding only the closing tag contributes nothing |
| DocComments.SummaryBlockDocuments | ClientApp/gulpfile.js:71-90 | an opening tag, one line of text and a closing tag above a declaration document it with that text, whatever follows |
| ModelGen.SplitLines | ClientApp/gulpfile.js:96 | splitting on newlines gives at least one line |
| ModelGen.JoinSplitLines | ClientApp/gulpfile.js:96 | joining the lines again gives back the text |
| ModelGen.SplitJoinLines | ClientApp/gulpfile.js:96 | lines without newlines are what splitting their join gives |
| ModelGen.EnumMemberParsed | ClientApp/gulpfile.js:112 | a member line "N = d..." yields the name N |
| ModelGen.EnumMemberFrom | ClientApp/gulpfile.js:112 | a matched member name is a non-empty run of word characters |
| ModelGen.FirstMarker | ClientApp/gulpfile.js:103 | a marker line found lies at or after the start and, trimmed, contains the marker |
| ModelGen.CloseLine | ClientApp/gulpfile.js:109 | the closing line, if any, is the first line that trims to "}" |
| ModelGen.AddEnumMember | ClientApp/gulpfile.js:112-120 | a member line appends one value carrying its documentation; any other line appends nothing |
| ModelGen.ScanEnumLine | ClientApp/gulpfile.js:101-121 | one pass either closes the scan with exactly the enum's values or keeps the scan invariant for the next line |
| ModelGen.ParseEnum | ClientApp/gulpfile.js:95-125 | the loop with its inEnum flag returns EnumSpec of the file's lines |
| ModelGen.EnumSpec | ClientApp/gulpfile.js:95-125 | an enum yields at most one value per line |
| ModelGen.EnumValuesEqualNames | ClientApp/gulpfile.js:115-119 | every value is named by a word and carries its own name as its value |
| ModelGen.NoMarkerNoValues | ClientApp/gulpfile.js:103-108 | a file that never mentions the enum yields no values |
| ModelGen.EnumAfterCloseIgnored | ClientApp/gulpfile.js:109 | lines after the enum's closing brace change nothing |
| ModelGen.GenerateEnum | ClientApp/gulpfile.js:171-193 | null exactly when the enum has no values; otherwise the emitted text of exactly those values |
| ModelGen.EmitEnum | ClientApp/gulpfile.js:175-192 | the emitted text is EnumText of the name and the values |
| ModelGen.EntryComma | ClientApp/gulpfile.js:182-187 | a member ends in ",\n" exactly when it is not the last, and in "'\n" exactly when it is |
| ModelGen.EntriesInOrder | ClientApp/gulpfile.js:178-188 | the members are emitted in order, and only the last lacks the comma |
| ModelGen.ScanClassLine | ClientApp/gulpfile.js:136-149 | one pass appends the line's property, if any, and takes the line's documentation when it declares the class |
| ModelGen.ScanClass | ClientApp/gulpfile.js:135-150 | the scan yields the properties of all lines in order and the documentation of the last class line |
| ModelGen.EmitInterface | ClientApp/gulpfile.js:153-165 | the emitted text is InterfaceText of the name, documentation and properties |
| ModelGen.GenerateInterface | ClientApp/gulpfile.js:130-166 | the result is InterfaceSpec of the file's lines |
| ModelGen.InterfaceSpec | ClientApp/gulpfile.js:130-166 | an interface starts with its documentation comment and ends with the closing brace |
| ModelGen.PropsTextAppend | ClientApp/gulpfile.js:156-161 | emitting properties distributes over concatenation |
| ModelGen.PropTextShape | ClientApp/gulpfile.js:157-160 | a property gets a documentation line exactly when it has documentation, and always its declaration |
| ModelGen.ClassCommentIsLast | ClientApp/gulpfile.js:138-139 | the interface's documentation is that of the last line declaring the class |
| ModelGen.PropAtShape | ClientApp/gulpfile.js:143-147 | a line adds at most one property, only as a parsing candidate outside the class line, with its parsed name, type and own documentation |
| ModelGen.PropsAtMostLines | ClientApp/gulpfile.js:135-150 | there is at most one property per line |
| ModelGen.ClassNameOfCs | ClientApp/gulpfile.js:215 | the class name of "N.cs" is N |
| ModelGen.GenerateModel | ClientApp/gulpfile.js:213-232 | the per-file step returns ModelOutput of the file's name and text |
| ModelGen.ModelOutput | ClientApp/gulpfile.js:213-232 | output goes only to the lower-cased name; the enum test comes first, so a file naming the enum without values writes nothing even when a class follows, and a class without an enum always writes |
| ModelGen.CsFiles | ClientApp/gulpfile.js:207-208 | the listing's files kept are exactly those ending in ".cs" |
| ModelGen.GenerateIndexFile | ClientApp/gulpfile.js:245-256 | the loop builds IndexContent of the files |
| ModelGen.ExportLinesAppend | ClientApp/gulpfile.js:248-251 | export lines distribute over concatenation of the file list |
| ModelGen.IndexExportsEveryFile | ClientApp/gulpfile.js:248-251 | the index exports every listed file |
| ModelGen.IndexListsFileWithoutOutput | ClientApp/gulpfile.js:228-250 | a file declaring neither enum nor class writes nothing but is still exported |
| ModelGen.GenerateModels | ClientApp/gulpfile.js:198-240 | returns the outputs of the listing's .cs files in order, and the index text |

## Left out

- Google ID-token verification is an input to `Auth.Login` (verified payload, null payload, or an exception). The library's signature, audience and expiry checks are not modelled.
- Jwt.GenerateToken: HMAC-SHA256 and the compact serialisation are not modelled. The signature is a symbolic value that records the key, so "flipping a byte" is modelled as a different key.
- Jwt.Validate is an assumed description of the bearer-token middleware, with its default five-minute clock skew. The library code is not part of this model.
- CORS, static files, Swagger, HSTS and the other middleware of `Program.cs` are left out. Only the sign-in configuration keys, the bound JWT options, the bearer parameters and whether the handlers can be built are modelled.
- The database connection string and the migration and seeding run at startup (Program.cs:61-65, :130-134) are left out.
- Startup.HandlersBuild: the Google options' refusal of an empty client id or secret, and `SymmetricSecurityKey`'s refusal of an empty key, are stated as library behaviour, not modelled from the library's code.
- Jwt.InboundType: six short names are renamed: `sub` and `nameid` to NameIdentifier, `email` to Email, `unique_name` to Name, and `role` and `roles` to Role. Every other short name is left unchanged, whereas the handler's default map also renames `given_name`, `family_name`, `upn`, `website` and others. No claim this program issues or reads has one of those names.
- Jwt.Validate: a claim type occurring several times in the payload (a JSON array) is not modelled, nor the order in which the handler reports failures or its exception types.
- Jwt.KeyTooShortMessage: the signing library's exception text is not modelled. It only has to differ from the service's own message, and the controller answers "Authentication failed" either way.
- The Google payload's Subject is always present, so the Google id is never null.
- Entity Framework's asynchronous calls become synchronous state changes. `FindAsync`, `Add`, `Remove` and `SaveChangesAsync` are each one step. A refused save leaves the table as it was. The identity counter advances when the INSERT executes, as a PostgreSQL sequence does, even if it is then refused; a value refused while the statement is received or planned draws nothing.
- Concurrent requests are left out: every operation runs alone. The race of two first logins for one email is therefore not modelled.
- `DateTime.UtcNow`, `Guid.NewGuid()`, `Random.Shared` and `prompt`/`new Date` are parameters. ISO date formatting is not modelled.
- Logging, the MCP server, the health controller and the HTTP transport are left out. Responses are datatypes.
- The `ContentImage` and `UserImage` entities are left out. A content row keeps only the ids of its images, and of the profile image only the `SetNull` rule is modelled.
- The Angular components' rendering, `AuthService` and the HTTP services are left out. The guards take the service's answers as booleans and an optional role.
- The markdown pipe is left out. Only `getPreviewText` of the two components is modelled.
- ModelGen.GenerateModels: the file system is not modelled, nor the logging. The listing and the file texts are given, and the outputs are returned instead of written.
- ModelGen.ClassNameOf handles plain file names from the listing only: `path.basename` on names with directories is not modelled.
- TypeMapping.ConvertType: only the mapping's own keys are looked up. Inherited object properties such as `constructor` are not modelled.
- Text.LowerAscii: `toLowerCase` is modelled for ASCII letters only. Other characters are kept as they are.
- Text.EqualsIgnoreCase: the case-insensitive claim comparison folds ASCII letters only.
- Postgres.Varchar: the column takes a value by PostgreSQL's rule for assigning a string to varchar(n). How Npgsql binds the parameter, and any cut it could make before the value reaches the server, is not modelled. That a length or U+0000 refusal comes before the identity default is evaluated is taken from how the server plans an unprepared statement, not modelled from its code.
- Users.FindByEmail: an email holding U+0000 is refused by the server as a query parameter, while the function answers None. The login models that refusal itself (`Auth.NulEmailIsRefused`); `FindByEmailAsync` is not called by it.
- Strings are sequences of characters (Unicode scalar values), which is what the database's column limits count. .NET and JavaScript hold strings as UTF-16 code units, and a lone surrogate cannot be represented here.
- Preview.Prefix and Preview.BlogPreviewShape: the cut at 200 characters counts characters, while JavaScript's `substring` and `length` count UTF-16 code units. For text outside the Basic Multilingual Plane the cut falls elsewhere, and the model never splits a surrogate pair as JavaScript can.
- The validation 400's body (a `ValidationProblemDetails`) is modelled only by the field and its message, and the nullable context that makes `Title` and `IdToken` implicitly required is taken from the `string?` annotations, the project file not being part of this model.
- The content table is modelled from `ContentService` and `Domain/Models/Content.cs` alone: its column limits are the `[MaxLength]` attributes there, and `ContentService`'s request types are built from the fields it reads. `ApplicationDbContext` as given declares no `Contents` set.
- The request and response types of the API are built from the fields the services read. Their JSON binding is not modelled.
