/**
 * `POST api/auth/google` (`AuthController.GoogleLogin`, Api/Controllers/AuthController.cs): verify a
 * Google ID token, find or provision the account, record the login and mint a session token.
 * The Google verification is an input: its outcome is given, not computed.
 */
module Auth {
  import opened Wrappers
  import opened Text
  import opened Users
  import opened Postgres
  import opened Claims
  import opened Jwt
  import opened UserService
  import opened Startup
  import Cms

  /**
   * The fields of the verified Google payload that the login reads. Email and Name are None when
   * the ID token carries no such claim; Subject is always present in a Google ID token.
   */
  datatype GooglePayload = GooglePayload(email: Option<string>, name: Option<string>, subject: string)

  /** What `GoogleJsonWebSignature.ValidateAsync` did: returned a payload, returned null, or threw. */
  datatype Verification = Verified(payload: GooglePayload) | NoPayload | Rejected

  /** The response: 200 with the token and the account's fields, or 401 with a message. */
  datatype LoginResponse =
    | LoggedIn(token: Token, email: string, name: string, role: string, userId: int)
    | Unauthorized(message: string)

  const InvalidTokenMessage: string := "Invalid Google token"
  const DeactivatedMessage: string := "Account is deactivated"
  const FailedMessage: string := "Authentication failed"

  /** The five claims put into the session token, in order. */
  function LoginClaims(u: User): (cs: seq<Claim>)
    ensures |cs| == 5
  {
    [Claim(NameIdentifierType, IntToString(u.id)), Claim(EmailType, u.email), Claim(NameType, u.displayName),
     Claim(RoleType, RoleName(u.role)), Claim(SubType, u.email)]
  }

  /** Each login claim is found under its own type: id, email (long name and "sub"), display name and role. */
  lemma LoginClaimLookups(u: User)
    ensures var cs := LoginClaims(u);
      && FindFirst(cs, NameIdentifierType) == Some(IntToString(u.id))
      && FindFirst(cs, EmailType) == Some(u.email) && FindFirst(cs, NameType) == Some(u.displayName)
      && FindFirst(cs, RoleType) == Some(RoleName(u.role)) && FindFirst(cs, SubType) == Some(u.email)
  {
    var cs := LoginClaims(u);
    ClaimTypeLengths();
    assert DistinctTypeLengths(cs);
    FoundByDistinctLength(cs, 0);
    FoundByDistinctLength(cs, 1);
    FoundByDistinctLength(cs, 2);
    FoundByDistinctLength(cs, 3);
    FoundByDistinctLength(cs, 4);
  }

  /** The response and the Users table (rows and identity counter) after one login. */
  datatype LoginStep = LoginStep(response: LoginResponse, rows: seq<User>, nextId: int)

  /**
   * The account lookup with the payload's email as parameter: a null email matches no row, the
   * Email column being NOT NULL; otherwise the first non-deleted row with that email.
   */
  function LookupEmail(rows: seq<User>, email: Option<string>): (r: Option<User>)
    ensures email.None? ==> r.None?
    ensures email.Some? ==> r == FindByEmail(rows, email.value)
  {
    if email.None? then None else FindByEmail(rows, email.value)
  }

  /**
   * The login as a function of the table before it. `clientId` is the configured Google client id
   * (None: the configuration lookup throws); `now` stands for `DateTime.UtcNow`; `jti` is the GUID
   * the token service draws. Any exception is caught and becomes "Authentication failed", but what
   * an earlier `SaveChangesAsync` wrote stays written, and a refused insert that got as far as
   * executing has used up one identity value. An email holding U+0000 makes the lookup's own
   * query fail. A new account is saved as its columns store it, while the response and the
   * token are built from the entity, which keeps the payload's values as given.
   */
  function Login(rows: seq<User>, nextId: int, clientId: Option<string>, v: Verification,
                 now: int, jwt: JwtOptions, jti: string): (s: LoginStep)
    ensures s.response.Unauthorized? ==> s.response.message in {FailedMessage, InvalidTokenMessage, DeactivatedMessage}
    ensures s.response.LoggedIn? ==> clientId.Some? && v.Verified? && CanSign(jwt)
    ensures nextId <= s.nextId <= nextId + 1
  {
    if clientId.None? || v.Rejected? then LoginStep(Unauthorized(FailedMessage), rows, nextId)
    else if v.NoPayload? then LoginStep(Unauthorized(InvalidTokenMessage), rows, nextId)
    else if v.payload.email.Some? && !NulFree(v.payload.email.value) then LoginStep(Unauthorized(FailedMessage), rows, nextId)
    else
      var p := v.payload;
      match LookupEmail(rows, p.email)
      case Some(u) =>
        if !u.isActive then LoginStep(Unauthorized(DeactivatedMessage), rows, nextId)
        else Complete(rows, nextId, u, now, jwt, jti)
      case None =>
        if !Admits(rows, p.email, p.name, p.subject, now, nextId) then
          LoginStep(Unauthorized(FailedMessage), rows, nextId + if BindsAccount(p.email, p.name, p.subject) then 1 else 0)
        else
          var u := NewAccount(p.email.value, p.name.value, p.subject, now).(id := nextId);
          Complete(rows + [StoredRow(u).value], nextId + 1, u, now, jwt, jti)
  }

  /**
   * The common tail: save LastLoginAt, build the claims, mint the token. The save happens whether
   * or not the token can be minted.
   */
  function Complete(rows: seq<User>, nextId: int, u: User, now: int, jwt: JwtOptions, jti: string): (s: LoginStep)
    ensures s.rows == SetLastLogin(rows, u.id, now) && s.nextId == nextId
    ensures s.response.LoggedIn? <==> CanSign(jwt)
    ensures s.response.Unauthorized? ==> s.response.message == FailedMessage
    ensures s.response.LoggedIn? ==> && s.response.userId == u.id && s.response.email == u.email
                                     && s.response.name == u.displayName && s.response.role == RoleName(u.role)
                                     && s.response.token.claims == SessionClaims(u, jti)
  {
    var u' := u.(lastLoginAt := Some(now));
    var rows' := SetLastLogin(rows, u.id, now);
    match GenerateToken(LoginClaims(u'), jwt, now, jti)
    case Err(_) => LoginStep(Unauthorized(FailedMessage), rows', nextId)
    case Ok(t) =>
      ClaimsCopiedThenJti(LoginClaims(u'), jwt, now, jti);
      LoginStep(LoggedIn(t, u'.email, u'.displayName, RoleName(u'.role), u'.id), rows', nextId)
  }

  /** The controller action over the store; it ends in exactly the state and response Login describes. */
  method GoogleLogin(store: UserStore, clientId: Option<string>, v: Verification, now: int,
                     jwt: JwtOptions, jti: string) returns (r: LoginResponse)
    requires store.Valid()
    modifies store
    ensures store.Valid()
    ensures LoginStep(r, store.rows, store.nextId)
         == Login(old(store.rows), old(store.nextId), clientId, v, now, jwt, jti)
  {
    if clientId.None? || v.Rejected? {
      return Unauthorized(FailedMessage);
    }
    if v.NoPayload? {
      return Unauthorized(InvalidTokenMessage);
    }
    var payload := v.payload;
    if payload.email.Some? && !NulFree(payload.email.value) {
      return Unauthorized(FailedMessage);
    }
    var found := LookupEmail(store.rows, payload.email);
    var user: User;
    if found.None? {
      var created := store.CreateUser(payload.email, payload.name, payload.subject, now);
      if created.Err? {
        return Unauthorized(FailedMessage);
      }
      user := created.value;
    } else if !found.value.isActive {
      return Unauthorized(DeactivatedMessage);
    } else {
      user := found.value;
    }
    store.UpdateLastLogin(user.id, now);
    user := user.(lastLoginAt := Some(now));
    var token := GenerateToken(LoginClaims(user), jwt, now, jti);
    if token.Err? {
      return Unauthorized(FailedMessage);
    }
    r := LoggedIn(token.value, user.email, user.displayName, RoleName(user.role), user.id);
  }

  /** `POST api/auth/google` as the host serves it: not at all, or through the controller. */
  datatype HostedLogin = NotServed | InvalidRequest | Served(step: LoginStep)

  /**
   * The request through the running host, `idToken` being the body's `IdToken` (None when it is
   * null or missing) and `v` what the verification of that token gives: when the authentication
   * handlers cannot be built it fails before the controller; otherwise the automatic model
   * validation of `[ApiController]` answers 400 when the non-nullable, `required` `IdToken` is
   * null, empty or white space; otherwise the controller runs with the configured client id and
   * the bound JWT options. Only the controller touches the table.
   */
  function HostLogin(c: Configuration, idToken: Option<string>, rows: seq<User>, nextId: int, v: Verification,
                     now: int, jti: string): (h: HostedLogin)
    requires HostStarts(c)
    ensures h.NotServed? <==> !HandlersBuild(c)
    ensures h.InvalidRequest? <==> HandlersBuild(c) && Cms.IsNullOrWhiteSpace(idToken)
  {
    if !HandlersBuild(c) then NotServed
    else if Cms.IsNullOrWhiteSpace(idToken) then InvalidRequest
    else Served(Login(rows, nextId, c.googleClientId, v, now, BoundJwtOptions(c), jti))
  }

  /**
   * Behind a host that serves requests a blank token never reaches the controller; any other does,
   * and the controller always has its client id and a secret, and a 401 leaves the rows as they
   * were unless the secret is too short for HMAC-SHA256.
   */
  lemma HostedLoginIsConfigured(c: Configuration, idToken: Option<string>, rows: seq<User>, nextId: int,
                                v: Verification, now: int, jti: string)
    requires HostStarts(c) && HandlersBuild(c)
    ensures Cms.IsNullOrWhiteSpace(idToken) ==> HostLogin(c, idToken, rows, nextId, v, now, jti) == InvalidRequest
    ensures var h := HostLogin(c, idToken, rows, nextId, v, now, jti);
      !Cms.IsNullOrWhiteSpace(idToken) ==>
      && h.Served? && c.googleClientId.Some?
      && h.step == Login(rows, nextId, Some(c.googleClientId.value), v, now, BoundJwtOptions(c), jti)
      && (KeyLongEnough(c.jwtSecret.value) && h.step.response.Unauthorized? ==> h.step.rows == rows)
  {
    ServedHostIsConfigured(c);
    var jwt := BoundJwtOptions(c);
    if v.Verified? && LookupEmail(rows, v.payload.email).None? && KeyLongEnough(c.jwtSecret.value) {
      var p := v.payload;
      if Admits(rows, p.email, p.name, p.subject, now, nextId) {
        var u := NewAccount(p.email.value, p.name.value, p.subject, now).(id := nextId);
        assert Login(rows, nextId, c.googleClientId, v, now, jwt, jti)
            == Complete(rows + [StoredRow(u).value], nextId + 1, u, now, jwt, jti);
      }
    }
  }

  /** A missing client id, a verification that throws, or a null payload: 401, and the table is untouched. */
  lemma RejectedTokenChangesNothing(rows: seq<User>, nextId: int, clientId: Option<string>, v: Verification,
                                    now: int, jwt: JwtOptions, jti: string)
    requires clientId.None? || !v.Verified?
    ensures var s := Login(rows, nextId, clientId, v, now, jwt, jti);
      && s.rows == rows && s.nextId == nextId
      && s.response == Unauthorized(if clientId.Some? && v.NoPayload? then InvalidTokenMessage else FailedMessage)
  {
  }

  /** A deactivated account gets 401 "Account is deactivated", no token, and its LastLoginAt is not touched. */
  lemma DeactivatedIsRefused(rows: seq<User>, nextId: int, clientId: string, p: GooglePayload,
                             now: int, jwt: JwtOptions, jti: string, i: nat)
    requires TableValid(rows)
    requires i < |rows| && p.email == Some(rows[i].email) && !rows[i].isDeleted && !rows[i].isActive
    ensures Login(rows, nextId, Some(clientId), Verified(p), now, jwt, jti)
         == LoginStep(Unauthorized(DeactivatedMessage), rows, nextId)
  {
    FindByEmailUnique(rows, p.email.value, i);
  }

  /**
   * First login with an email no row holds: exactly one row is added, with the defaults of a new
   * account, the next id and LastLoginAt = now, its strings as their columns store them; the
   * response carries that account with the payload's email and name as given, role "User".
   */
  lemma FirstLoginProvisions(rows: seq<User>, nextId: int, clientId: string, p: GooglePayload,
                             now: int, jwt: JwtOptions, jti: string)
    requires TableValid(rows) && forall i :: 0 <= i < |rows| ==> rows[i].id < nextId
    requires p.email.Some? && p.name.Some?
    requires CanInsert(rows, NewAccount(p.email.value, p.name.value, p.subject, now).(id := nextId))
    requires CanSign(jwt)
    ensures var a := NewAccount(p.email.value, p.name.value, p.subject, now).(id := nextId);
      var u := StoredRow(a).value.(lastLoginAt := Some(now));
      var s := Login(rows, nextId, Some(clientId), Verified(p), now, jwt, jti);
      && s.rows == rows + [u] && s.nextId == nextId + 1
      && (RowFits(a) ==> u == a.(lastLoginAt := Some(now)))
      && s.response.LoggedIn?
      && s.response.userId == nextId && s.response.role == "User"
      && s.response.email == p.email.value && s.response.name == p.name.value
      && s.response.token == GenerateToken(LoginClaims(a.(lastLoginAt := Some(now))), jwt, now, jti).value
  {
    var a := NewAccount(p.email.value, p.name.value, p.subject, now).(id := nextId);
    NewLookupFindsNothing(rows, a);
    SetLastLoginOnAppended(rows, StoredRow(a).value, now);
  }

  /**
   * When an account can be inserted, the lookup by the email given finds nothing: no row holds an
   * email over the limit, and one within it is the email the insert would store.
   */
  lemma NewLookupFindsNothing(rows: seq<User>, u: User)
    requires TableValid(rows) && CanInsert(rows, u)
    ensures FindByEmail(rows, u.email) == None
  {
    if |u.email| > MaxEmailLength {
      CutEmailNotFound(rows, u.email);
    }
  }

  /**
   * A login to an active existing account adds no row and answers with that account's id, role and
   * fields, whatever name the payload carries (even none); the table changes only in that
   * account's LastLoginAt.
   */
  lemma ReturningLoginKeepsAccount(rows: seq<User>, nextId: int, clientId: string, p: GooglePayload,
                                   now: int, jwt: JwtOptions, jti: string, i: nat)
    requires TableValid(rows)
    requires i < |rows| && p.email == Some(rows[i].email) && !rows[i].isDeleted && rows[i].isActive
    requires CanSign(jwt)
    ensures var s := Login(rows, nextId, Some(clientId), Verified(p), now, jwt, jti);
      && s.rows == SetLastLogin(rows, rows[i].id, now) && s.nextId == nextId
      && |s.rows| == |rows|
      && s.response.LoggedIn?
      && s.response.userId == rows[i].id && s.response.role == RoleName(rows[i].role)
      && s.response.email == rows[i].email && s.response.name == rows[i].displayName
  {
    FindByEmailUnique(rows, p.email.value, i);
  }

  /**
   * An email held only by soft-deleted rows cannot sign in again, nor can that email followed by
   * spaces past the limit: the lookup skips those rows, the insert would store the deleted row's
   * email and hits the unique index, and the answer is "Authentication failed" with the rows
   * unchanged. An identity value is used up, unless the name or subject is refused before the
   * INSERT executes.
   */
  lemma DeletedEmailCannotReturn(rows: seq<User>, nextId: int, clientId: string, p: GooglePayload,
                                 now: int, jwt: JwtOptions, jti: string, i: nat)
    requires i < |rows| && rows[i].isDeleted
    requires p.email.Some? && Varchar(p.email.value, MaxEmailLength) == Some(rows[i].email)
    requires forall k :: 0 <= k < |rows| && rows[k].email == p.email.value ==> rows[k].isDeleted
    ensures Login(rows, nextId, Some(clientId), Verified(p), now, jwt, jti)
         == LoginStep(Unauthorized(FailedMessage), rows, nextId + if BindsAccount(p.email, p.name, p.subject) then 1 else 0)
  {
    assert FindByEmail(rows, p.email.value) == None;
    if p.name.Some? {
      DeletedRowBlocksInsert(rows, i, NewAccount(p.email.value, p.name.value, p.subject, now).(id := nextId));
    }
  }

  /**
   * A payload without an email finds no account and its insert hits the NOT NULL constraint while
   * executing, having drawn an identity value, unless the name or subject is refused first.
   */
  lemma NullEmailIsRefused(rows: seq<User>, nextId: int, clientId: string, p: GooglePayload,
                           now: int, jwt: JwtOptions, jti: string)
    requires p.email.None?
    ensures Login(rows, nextId, Some(clientId), Verified(p), now, jwt, jti)
         == LoginStep(Unauthorized(FailedMessage), rows, nextId + if BindsAccount(p.email, p.name, p.subject) then 1 else 0)
  {
  }

  /**
   * An email holding U+0000 is refused by the server as the lookup's parameter: "Authentication
   * failed", before any row is read or written and before any identity value is drawn.
   */
  lemma NulEmailIsRefused(rows: seq<User>, nextId: int, clientId: string, p: GooglePayload,
                          now: int, jwt: JwtOptions, jti: string)
    requires p.email.Some? && !NulFree(p.email.value)
    ensures Login(rows, nextId, Some(clientId), Verified(p), now, jwt, jti)
         == LoginStep(Unauthorized(FailedMessage), rows, nextId)
  {
  }

  /** A first login whose payload has no name is refused the same way (DisplayName is NOT NULL). */
  lemma NullNameBlocksFirstLogin(rows: seq<User>, nextId: int, clientId: string, p: GooglePayload,
                                 now: int, jwt: JwtOptions, jti: string)
    requires p.email.Some? && p.name.None? && FindByEmail(rows, p.email.value).None?
    ensures Login(rows, nextId, Some(clientId), Verified(p), now, jwt, jti)
         == LoginStep(Unauthorized(FailedMessage), rows, nextId + if BindsAccount(p.email, p.name, p.subject) then 1 else 0)
  {
  }

  /**
   * When the token service fails, the login has already provisioned the account and saved its
   * LastLoginAt, and then answers "Authentication failed".
   */
  lemma UnsignedLoginStillSaves(rows: seq<User>, nextId: int, clientId: string, p: GooglePayload,
                                now: int, jwt: JwtOptions, jti: string)
    requires TableValid(rows) && forall i :: 0 <= i < |rows| ==> rows[i].id < nextId
    requires Admits(rows, p.email, p.name, p.subject, now, nextId)
    requires !CanSign(jwt)
    ensures var u := StoredRow(NewAccount(p.email.value, p.name.value, p.subject, now).(id := nextId)).value;
      Login(rows, nextId, Some(clientId), Verified(p), now, jwt, jti)
        == LoginStep(Unauthorized(FailedMessage), rows + [u.(lastLoginAt := Some(now))], nextId + 1)
  {
    var u := NewAccount(p.email.value, p.name.value, p.subject, now).(id := nextId);
    NewLookupFindsNothing(rows, u);
    SetLastLoginOnAppended(rows, StoredRow(u).value, now);
  }

  /**
   * In the running host that failure has one cause: a secret shorter than 256 bits, which the host
   * accepts but the signing library refuses after the account is saved.
   */
  lemma HostedShortKeyLoginStillSaves(c: Configuration, idToken: Option<string>, rows: seq<User>, nextId: int,
                                      p: GooglePayload, now: int, jti: string)
    requires HostStarts(c) && HandlersBuild(c) && !KeyLongEnough(c.jwtSecret.value)
    requires !Cms.IsNullOrWhiteSpace(idToken)
    requires TableValid(rows) && forall i :: 0 <= i < |rows| ==> rows[i].id < nextId
    requires Admits(rows, p.email, p.name, p.subject, now, nextId)
    ensures var u := StoredRow(NewAccount(p.email.value, p.name.value, p.subject, now).(id := nextId)).value;
      HostLogin(c, idToken, rows, nextId, Verified(p), now, jti)
        == Served(LoginStep(Unauthorized(FailedMessage), rows + [u.(lastLoginAt := Some(now))], nextId + 1))
  {
    ServedHostIsConfigured(c);
    UnsignedLoginStillSaves(rows, nextId, c.googleClientId.value, p, now, BoundJwtOptions(c), jti);
  }

  /** The tail of a login keeps the table's constraints and its size. */
  lemma CompleteKeepsTableValid(rows: seq<User>, nextId: int, u: User, now: int, jwt: JwtOptions, jti: string)
    requires TableValid(rows) && forall i :: 0 <= i < |rows| ==> rows[i].id < nextId
    ensures var s := Complete(rows, nextId, u, now, jwt, jti);
      && TableValid(s.rows) && (forall i :: 0 <= i < |s.rows| ==> s.rows[i].id < s.nextId)
      && |s.rows| == |rows| && s.nextId == nextId
  {
    SetLastLoginSound(rows, u.id, now, "");
  }

  /** Every login keeps the table's constraints and never lowers the identity counter. */
  lemma LoginKeepsTableValid(rows: seq<User>, nextId: int, clientId: Option<string>, v: Verification,
                             now: int, jwt: JwtOptions, jti: string)
    requires TableValid(rows) && forall i :: 0 <= i < |rows| ==> rows[i].id < nextId
    ensures var s := Login(rows, nextId, clientId, v, now, jwt, jti);
      && TableValid(s.rows) && (forall i :: 0 <= i < |s.rows| ==> s.rows[i].id < s.nextId)
      && |rows| <= |s.rows| <= |rows| + 1 && nextId <= s.nextId
  {
    if clientId.Some? && v.Verified? {
      var p := v.payload;
      var found := LookupEmail(rows, p.email);
      if found.None? {
        if Admits(rows, p.email, p.name, p.subject, now, nextId) {
          var u := NewAccount(p.email.value, p.name.value, p.subject, now).(id := nextId);
          InsertKeepsTableValid(rows, u);
          CompleteKeepsTableValid(rows + [StoredRow(u).value], nextId + 1, u, now, jwt, jti);
        }
      } else if found.value.isActive {
        CompleteKeepsTableValid(rows, nextId, found.value, now, jwt, jti);
      }
    }
  }

  /**
   * A successful login always answers for an active, non-deleted account: the response carries the
   * payload's email, and the row that the new table's lookup finds under the email its column
   * stores has the response's id, role and LastLoginAt = now, and stores the response's name.
   */
  lemma LoggedInAccountIsLive(rows: seq<User>, nextId: int, clientId: Option<string>, v: Verification,
                              now: int, jwt: JwtOptions, jti: string)
    requires TableValid(rows) && forall i :: 0 <= i < |rows| ==> rows[i].id < nextId
    requires Login(rows, nextId, clientId, v, now, jwt, jti).response.LoggedIn?
    ensures var s := Login(rows, nextId, clientId, v, now, jwt, jti);
      && v.Verified? && v.payload.email == Some(s.response.email)
      && Varchar(s.response.email, MaxEmailLength).Some?
      && var e := Varchar(s.response.email, MaxEmailLength).value;
         && FindByEmail(s.rows, e).Some?
         && var u := FindByEmail(s.rows, e).value;
            && u.id == s.response.userId && u.isActive && u.lastLoginAt == Some(now)
            && s.response.role == RoleName(u.role)
            && Varchar(s.response.name, MaxDisplayNameLength) == Some(u.displayName)
  {
    var p := v.payload;
    var email := p.email.value;
    var found := FindByEmail(rows, email);
    if found.None? {
      var u := NewAccount(email, p.name.value, p.subject, now).(id := nextId);
      var stored := StoredRow(u).value;
      InsertKeepsTableValid(rows, u);
      CreatedUserIsFound(rows, u);
      SetLastLoginSound(rows + [stored], u.id, now, stored.email);
    } else {
      SetLastLoginSound(rows, found.value.id, now, email);
    }
  }

  /**
   * Logging in twice with the same payload, its email within the column's limit, is idempotent for
   * the table's shape: the second login answers for the same account and adds no row.
   */
  lemma SecondLoginReusesAccount(rows: seq<User>, nextId: int, clientId: string, p: GooglePayload,
                                 now: int, now': int, jwt: JwtOptions, jti: string, jti': string)
    requires TableValid(rows) && forall i :: 0 <= i < |rows| ==> rows[i].id < nextId
    requires Login(rows, nextId, Some(clientId), Verified(p), now, jwt, jti).response.LoggedIn?
    requires p.email.Some? ==> |p.email.value| <= MaxEmailLength
    ensures var s := Login(rows, nextId, Some(clientId), Verified(p), now, jwt, jti);
      var s' := Login(s.rows, s.nextId, Some(clientId), Verified(p), now', jwt, jti');
      && s'.response.LoggedIn? && s'.response.userId == s.response.userId
      && |s'.rows| == |s.rows| && s'.nextId == s.nextId
  {
    var s := Login(rows, nextId, Some(clientId), Verified(p), now, jwt, jti);
    LoggedInAccountIsLive(rows, nextId, Some(clientId), Verified(p), now, jwt, jti);
    LoginKeepsTableValid(rows, nextId, Some(clientId), Verified(p), now, jwt, jti);
    var u := FindByEmail(s.rows, p.email.value).value;
    var i :| 0 <= i < |s.rows| && s.rows[i] == u;
    ReturningLoginKeepsAccount(s.rows, s.nextId, clientId, p, now', jwt, jti', i);
  }

  /**
   * An email too long for its column only by trailing spaces signs in once but never again: the
   * first login saves the account under the cut email and answers with the email as given; the
   * next login with the same payload finds no row under that email, its insert stores the same cut
   * email, which the unique index refuses, and it answers "Authentication failed".
   */
  lemma CutEmailSignsInOnce(rows: seq<User>, nextId: int, clientId: string, p: GooglePayload,
                            now: int, now': int, jwt: JwtOptions, jti: string, jti': string)
    requires TableValid(rows) && forall i :: 0 <= i < |rows| ==> rows[i].id < nextId
    requires Login(rows, nextId, Some(clientId), Verified(p), now, jwt, jti).response.LoggedIn?
    requires p.email.Some? && |p.email.value| > MaxEmailLength
    ensures var s := Login(rows, nextId, Some(clientId), Verified(p), now, jwt, jti);
      && s.response.email == p.email.value
      && Login(s.rows, s.nextId, Some(clientId), Verified(p), now', jwt, jti')
         == LoginStep(Unauthorized(FailedMessage), s.rows, s.nextId + 1)
  {
    var s := Login(rows, nextId, Some(clientId), Verified(p), now, jwt, jti);
    LoggedInAccountIsLive(rows, nextId, Some(clientId), Verified(p), now, jwt, jti);
    LoginKeepsTableValid(rows, nextId, Some(clientId), Verified(p), now, jwt, jti);
    CutEmailNotFound(s.rows, p.email.value);
    var e := Varchar(p.email.value, MaxEmailLength).value;
    var u := FindByEmail(s.rows, e).value;
    var i :| 0 <= i < |s.rows| && s.rows[i] == u;
    AdmitsBinds(rows, p.email, p.name, p.subject, now, nextId);
    if p.name.Some? {
      var a := NewAccount(p.email.value, p.name.value, p.subject, now').(id := s.nextId);
      assert StoredRow(a).Some? ==> StoredRow(a).value.email == e;
      assert !CanInsert(s.rows, a);
    }
  }

  /** The claims of a session token: the five login claims, then its `jti`. */
  function SessionClaims(u: User, jti: string): (cs: seq<Claim>)
    ensures |cs| == 6
    ensures cs[..5] == LoginClaims(u) && cs[5] == Claim(JtiType, jti)
  {
    LoginClaims(u) + [Claim(JtiType, jti)]
  }

  /** The lookups on the token's own payload: "sub" and the long Email and Name types. */
  lemma SessionClaimLookups(u: User, jti: string)
    ensures var cs := SessionClaims(u, jti);
      && FindFirst(cs, SubType) == Some(u.email)
      && FindFirst(cs, EmailType) == Some(u.email)
      && FindFirst(cs, NameType) == Some(u.displayName)
  {
    var login := LoginClaims(u);
    assert SessionClaims(u, jti) == login + [Claim(JtiType, jti)];
    LoginClaimLookups(u);
    FindFirstAppend(login, [Claim(JtiType, jti)], SubType);
    FindFirstAppend(login, [Claim(JtiType, jti)], EmailType);
    FindFirstAppend(login, [Claim(JtiType, jti)], NameType);
  }

  /** The claims of the principal that bearer authentication builds from a session token `t`. */
  function SessionPrincipalClaims(u: User, jti: string, t: Token): (cs: seq<Claim>)
    ensures |cs| == 9
  {
    MapInbound(SessionClaims(u, jti)) + RegisteredClaims(t)
  }

  /**
   * On the principal the "sub" claim has become a second NameIdentifier claim holding the email,
   * after the one holding the id; the long types and `jti` are kept, and `exp`, `iss`, `aud` follow.
   */
  lemma SessionPrincipalShape(u: User, jti: string, t: Token)
    ensures SessionPrincipalClaims(u, jti, t)
         == [Claim(NameIdentifierType, IntToString(u.id)), Claim(EmailType, u.email), Claim(NameType, u.displayName),
             Claim(RoleType, RoleName(u.role)), Claim(NameIdentifierType, u.email), Claim(JtiType, jti)]
            + RegisteredClaims(t)
  {
    var m := MapInbound(SessionClaims(u, jti));
    ClaimTypeLengths();
    assert m == [Claim(NameIdentifierType, IntToString(u.id)), Claim(EmailType, u.email), Claim(NameType, u.displayName),
                 Claim(RoleType, RoleName(u.role)), Claim(NameIdentifierType, u.email), Claim(JtiType, jti)];
  }

  /** No claim of the principal has a type of two, four or five characters ("id", "name", "email"). */
  lemma ClaimTypesAreLong(u: User, jti: string, t: Token)
    ensures var cs := SessionPrincipalClaims(u, jti, t);
      forall k :: 0 <= k < |cs| ==> |cs[k].claimType| != 2 && |cs[k].claimType| != 4 && |cs[k].claimType| != 5
  {
    var cs := SessionPrincipalClaims(u, jti, t);
    SessionPrincipalAt(u, jti, t);
    ClaimTypeLengths();
    forall k | 0 <= k < |cs|
      ensures |cs[k].claimType| != 2 && |cs[k].claimType| != 4 && |cs[k].claimType| != 5
    {
      if k == 0 {} else if k == 1 {} else if k == 2 {} else if k == 3 {} else if k == 4 {}
      else if k == 5 {} else if k == 6 {} else if k == 7 {} else {}
    }
  }

  /** The principal's claims position by position, as the lookup proofs use them. */
  lemma SessionPrincipalAt(u: User, jti: string, t: Token)
    ensures var cs := SessionPrincipalClaims(u, jti, t);
      && cs[0] == Claim(NameIdentifierType, IntToString(u.id)) && cs[1] == Claim(EmailType, u.email)
      && cs[2] == Claim(NameType, u.displayName) && cs[3] == Claim(RoleType, RoleName(u.role))
      && cs[4] == Claim(NameIdentifierType, u.email) && cs[5] == Claim(JtiType, jti)
      && cs[6].claimType == ExpType && cs[7].claimType == IssType && cs[8].claimType == AudType
  {
    SessionPrincipalShape(u, jti, t);
  }

  /**
   * What the controllers read from a session's principal: the NameIdentifier lookup finds the id
   * (the first of the two), Email and Name the account's email and display name, Role its role.
   */
  lemma SessionPrincipalLookups(u: User, jti: string, t: Token)
    ensures var cs := SessionPrincipalClaims(u, jti, t);
      && FindFirst(cs, NameIdentifierType) == Some(IntToString(u.id))
      && FindFirst(cs, EmailType) == Some(u.email)
      && FindFirst(cs, NameType) == Some(u.displayName)
      && FindFirst(cs, RoleType) == Some(RoleName(u.role))
  {
    SessionPrincipalAt(u, jti, t);
    LeadingLookups(SessionPrincipalClaims(u, jti, t), IntToString(u.id), u.email, u.displayName, RoleName(u.role));
  }

  /** Helper: a list that starts with a NameIdentifier, an Email, a Name and a Role claim answers those four lookups. */
  lemma LeadingLookups(cs: seq<Claim>, id: string, email: string, name: string, role: string)
    requires |cs| >= 4
    requires cs[0] == Claim(NameIdentifierType, id) && cs[1] == Claim(EmailType, email)
    requires cs[2] == Claim(NameType, name) && cs[3] == Claim(RoleType, role)
    ensures FindFirst(cs, NameIdentifierType) == Some(id) && FindFirst(cs, EmailType) == Some(email)
    ensures FindFirst(cs, NameType) == Some(name) && FindFirst(cs, RoleType) == Some(role)
  {
    ClaimTypeLengths();
    FoundAfterOtherLengths(cs, NameIdentifierType, 0);
    LookupAfterLonger(cs, cs[0].claimType, cs[1].claimType, cs[1].claimType, EmailType, 1);
    LookupAfterLonger(cs, cs[0].claimType, cs[1].claimType, cs[2].claimType, NameType, 2);
    LookupAfterLonger(cs, cs[0].claimType, cs[1].claimType, cs[2].claimType, RoleType, 3);
  }

  /** Helper: the claim at `k` (at most 3) is found by its type when the types before it, `t0` to `t2`, have other lengths. */
  lemma LookupAfterLonger(cs: seq<Claim>, t0: string, t1: string, t2: string, claimType: string, k: nat)
    requires 1 <= k <= 3 && k < |cs| && cs[k].claimType == claimType
    requires cs[0].claimType == t0 && |t0| != |claimType|
    requires k >= 2 ==> cs[1].claimType == t1 && |t1| != |claimType|
    requires k >= 3 ==> cs[2].claimType == t2 && |t2| != |claimType|
    ensures FindFirst(cs, claimType) == Some(cs[k].value)
  {
    forall m | 0 <= m < k ensures |cs[m].claimType| != |claimType| {
      if m == 0 {} else if m == 1 {} else {}
    }
    FoundAfterOtherLengths(cs, claimType, k);
  }

  /** Helper: a list whose types are those of a session's principal has no "sub" and no "id" claim. */
  lemma SessionTypesHideSub(cs: seq<Claim>)
    requires |cs| == 9
    requires && cs[0].claimType == NameIdentifierType && cs[1].claimType == EmailType && cs[2].claimType == NameType
             && cs[3].claimType == RoleType && cs[4].claimType == NameIdentifierType && cs[5].claimType == JtiType
             && cs[6].claimType == ExpType && cs[7].claimType == IssType && cs[8].claimType == AudType
    ensures FindFirst(cs, SubType) == None && FindFirst(cs, "id") == None
  {
    ClaimTypeLengths();
    ShortTypesAreNotSub();
    forall k | 0 <= k < |cs| ensures !HasType(cs[k], SubType) && !HasType(cs[k], "id") {
      if k < 5 {
        assert |cs[k].claimType| > 3 by {
          if k == 0 {} else if k == 1 {} else if k == 2 {} else if k == 3 {} else {}
        }
      } else if k == 5 {} else if k == 6 {} else if k == 7 {} else {}
    }
    TypeAbsent(cs, SubType);
    TypeAbsent(cs, "id");
  }

  /** "sub" and "id" find nothing on a session's principal, because the handler renamed "sub". */
  lemma SessionPrincipalHidesSub(u: User, jti: string, t: Token)
    ensures FindFirst(SessionPrincipalClaims(u, jti, t), SubType) == None
    ensures FindFirst(SessionPrincipalClaims(u, jti, t), "id") == None
  {
    SessionPrincipalAt(u, jti, t);
    SessionTypesHideSub(SessionPrincipalClaims(u, jti, t));
  }

  /** The short names "email" and "name" that BaseController looks up find nothing on a session's principal. */
  lemma SessionShortNamesMissing(u: User, jti: string, t: Token)
    ensures FindFirst(SessionPrincipalClaims(u, jti, t), "email") == None
    ensures FindFirst(SessionPrincipalClaims(u, jti, t), "name") == None
  {
    ClaimTypesAreLong(u, jti, t);
  }

  /** A session's principal holds the Admin role exactly when the account has it. */
  lemma SessionRole(u: User, jti: string, t: Token)
    ensures HasClaim(SessionPrincipalClaims(u, jti, t), RoleType, "Admin") <==> u.role == UserRole.Admin
  {
    var cs := SessionPrincipalClaims(u, jti, t);
    SessionPrincipalAt(u, jti, t);
    ClaimTypeLengths();
    assert forall k :: 0 <= k < |cs| && k != 3 ==> |cs[k].claimType| != |RoleType|;
    if u.role == UserRole.Admin {
      assert HasType(cs[3], RoleType);
    }
  }

  /** A minted session token, within its lifetime plus the skew, authenticates as exactly that principal. */
  lemma SessionAuthenticates(u: User, jwt: JwtOptions, now: int, jti: string, at: int)
    requires CanSign(jwt) && !IsWhiteSpaceOnly(jwt.issuer) && !IsWhiteSpaceOnly(jwt.audience)
    requires at <= now + 60 * jwt.expirationMinutes + DefaultClockSkew
    ensures var t := GenerateToken(LoginClaims(u), jwt, now, jti).value;
      Cms.Authenticate(Some(t), ParametersFor(jwt), at) == Some(Authenticated(SessionPrincipalClaims(u, jti, t)))
  {
    var t := GenerateToken(LoginClaims(u), jwt, now, jti).value;
    ClaimsCopiedThenJti(LoginClaims(u), jwt, now, jti);
    assert t.claims == SessionClaims(u, jti);
    assert Validate(t, ParametersFor(jwt), at).Valid?;
  }

  /** Helper: what the controllers read from a one-identity principal whose lookups give these results. */
  lemma PrincipalReads(cs: seq<Claim>, u: User)
    requires FindFirst(cs, NameIdentifierType) == Some(IntToString(u.id))
    requires FindFirst(cs, EmailType) == Some(u.email) && FindFirst(cs, NameType) == Some(u.displayName)
    requires FindFirst(cs, SubType) == None && FindFirst(cs, "id") == None
    requires FindFirst(cs, "email") == None && FindFirst(cs, "name") == None
    ensures var user := Some(Authenticated(cs));
      && UserId(user) == None
      && PrincipalClaim(user, NameIdentifierType) == Some(IntToString(u.id))
      && GetUser(user.value) == UserInfo(Some(u.email), Some(u.displayName))
      && UserEmail(user) == None && UserDisplayName(user) == None
  {
  }

  /** Helper: the CMS gate on a one-identity principal opens exactly when its claims hold the Admin role. */
  lemma PrincipalGate(cs: seq<Claim>, u: User)
    requires HasClaim(cs, RoleType, "Admin") <==> u.role == UserRole.Admin
    ensures var user := Some(Authenticated(cs));
      && (Cms.AdminGate(user) == Cms.Allow <==> u.role == UserRole.Admin)
      && (Cms.AdminGate(user) == Cms.Forbid <==> u.role == UserRole.User)
  {
    var p := Authenticated(cs);
    assert IsInRole(p, "Admin") <==> HasClaim(p.identities[0].claims, RoleType, "Admin");
  }

  /**
   * What the controllers read from a session's principal: `UserId` is null (the handler renamed
   * "sub" and there is no "id"), the NameIdentifier claim gives the account id, `GET api/auth/user`
   * answers its email and display name, `UserEmail` and `UserDisplayName` are null, and the CMS
   * gate opens exactly for the Admin role.
   */
  lemma SessionPrincipalReads(u: User, jti: string, t: Token)
    ensures var user := Some(Authenticated(SessionPrincipalClaims(u, jti, t)));
      && UserId(user) == None
      && PrincipalClaim(user, NameIdentifierType) == Some(IntToString(u.id))
      && GetUser(user.value) == UserInfo(Some(u.email), Some(u.displayName))
      && UserEmail(user) == None && UserDisplayName(user) == None
      && (Cms.AdminGate(user) == Cms.Allow <==> u.role == UserRole.Admin)
      && (Cms.AdminGate(user) == Cms.Forbid <==> u.role == UserRole.User)
  {
    SessionPrincipalLookups(u, jti, t);
    SessionPrincipalHidesSub(u, jti, t);
    SessionShortNamesMissing(u, jti, t);
    SessionRole(u, jti, t);
    PrincipalReads(SessionPrincipalClaims(u, jti, t), u);
    PrincipalGate(SessionPrincipalClaims(u, jti, t), u);
  }

  /** A request carrying a minted session token, within its lifetime plus the clock skew, reads the account as SessionPrincipalReads says. */
  lemma SessionTokenIdentifiesAccount(u: User, jwt: JwtOptions, now: int, jti: string, at: int)
    requires CanSign(jwt) && !IsWhiteSpaceOnly(jwt.issuer) && !IsWhiteSpaceOnly(jwt.audience)
    requires at <= now + 60 * jwt.expirationMinutes + DefaultClockSkew
    ensures var t := GenerateToken(LoginClaims(u), jwt, now, jti).value;
      var user := Cms.Authenticate(Some(t), ParametersFor(jwt), at);
      && user == Some(Authenticated(SessionPrincipalClaims(u, jti, t)))
      && UserId(user) == None
      && PrincipalClaim(user, NameIdentifierType) == Some(IntToString(u.id))
      && GetUser(user.value) == UserInfo(Some(u.email), Some(u.displayName))
      && UserEmail(user) == None && UserDisplayName(user) == None
      && (Cms.AdminGate(user) == Cms.Allow <==> u.role == UserRole.Admin)
      && (Cms.AdminGate(user) == Cms.Forbid <==> u.role == UserRole.User)
  {
    var t := GenerateToken(LoginClaims(u), jwt, now, jti).value;
    SessionAuthenticates(u, jwt, now, jti, at);
    SessionPrincipalReads(u, jti, t);
  }

  /** After expiry plus the clock skew the same token is refused, and the CMS answers 401 to every request. */
  lemma ExpiredSessionIsChallenged(u: User, jwt: JwtOptions, now: int, jti: string, at: int,
                                   request: Cms.CmsRequest, sample: nat)
    requires CanSign(jwt)
    requires at > now + 60 * jwt.expirationMinutes + DefaultClockSkew
    ensures var t := GenerateToken(LoginClaims(u), jwt, now, jti).value;
      var user := Cms.Authenticate(Some(t), ParametersFor(jwt), at);
      user == None && Cms.Handle(user, request, sample, at) == Cms.Challenged
  {
  }

  /**
   * The login response's own fields describe the session: on its token's principal the
   * NameIdentifier lookup gives the response's user id, `UserId` is null, the user endpoint
   * answers its email and name, and the CMS opens for role "Admin" only.
   */
  lemma LoginResponseMatchesSession(rows: seq<User>, nextId: int, clientId: Option<string>, v: Verification,
                                    now: int, jwt: JwtOptions, jti: string, at: int)
    requires TableValid(rows) && forall i :: 0 <= i < |rows| ==> rows[i].id < nextId
    requires Login(rows, nextId, clientId, v, now, jwt, jti).response.LoggedIn?
    requires !IsWhiteSpaceOnly(jwt.issuer) && !IsWhiteSpaceOnly(jwt.audience)
    requires at <= now + 60 * jwt.expirationMinutes + DefaultClockSkew
    ensures var r := Login(rows, nextId, clientId, v, now, jwt, jti).response;
      var user := Cms.Authenticate(Some(r.token), ParametersFor(jwt), at);
      && user.Some? && UserId(user) == None
      && PrincipalClaim(user, NameIdentifierType) == Some(IntToString(r.userId))
      && GetUser(user.value) == UserInfo(Some(r.email), Some(r.name))
      && (Cms.AdminGate(user) == Cms.Allow <==> r.role == "Admin")
      && TokenId(r.token) == Some(jti)
  {
    var p := v.payload;
    var found := LookupEmail(rows, p.email);
    var u := if found.Some? then found.value else NewAccount(p.email.value, p.name.value, p.subject, now).(id := nextId);
    u := u.(lastLoginAt := Some(now));
    assert GenerateToken(LoginClaims(u), jwt, now, jti).value == Login(rows, nextId, clientId, v, now, jwt, jti).response.token;
    SessionTokenIdentifiesAccount(u, jwt, now, jti, at);
    TokenIdIsFresh(LoginClaims(u), jwt, now, jti, jti);
  }
}
