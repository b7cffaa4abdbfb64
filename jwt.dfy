/**
 * Session tokens: the options of Api/Configuration/JwtOptions.cs and the token that
 * `JwtTokenService.GenerateToken` (Api/Services/JwtTokenService.cs) builds. The token is kept as its
 * content (issuer, audience, claims, expiry) plus a symbolic signature that records the key it was
 * signed with; HMAC-SHA256 and the compact serialisation are not modelled.
 */
module Jwt {
  import opened Wrappers
  import opened Text
  import opened Claims

  const SectionName: string := "Authentication:Jwt"

  /** The bound options; `secret` is None when the configuration value is null. */
  datatype JwtOptions = JwtOptions(secret: Option<string>, issuer: string, audience: string, expirationMinutes: int)

  /** The options before configuration overrides them. */
  const DefaultOptions: JwtOptions := JwtOptions(Some(""), "bitsbybeier", "bitsbybeier-app", 60)

  const SecretMissingMessage: string := "JWT Secret not configured"

  /** With the default options (an empty secret) no token can be minted. */
  lemma DefaultOptionsCannotSign(userClaims: seq<Claim>, now: int, jti: string)
    ensures GenerateToken(userClaims, DefaultOptions, now, jti) == Err(SecretMissingMessage)
    ensures DefaultOptions.issuer == "bitsbybeier" && DefaultOptions.audience == "bitsbybeier-app"
    ensures DefaultOptions.expirationMinutes == 60
  {
  }

  /** A symbolic HMAC-SHA256 signature: only the key matters to the model. */
  datatype Signature = HmacSha256(key: string)

  /**
   * A signed token. `claims` is the payload's claim list in order; `expires` is the `exp` claim
   * (section 4.1.4 of RFC 7519) in seconds.
   */
  datatype Token = Token(issuer: string, audience: string, claims: seq<Claim>, expires: int, signature: Signature)

  /** `string.IsNullOrEmpty(Secret)`. */
  predicate SecretMissing(o: JwtOptions) {
    o.secret.None? || o.secret.value == ""
  }

  /**
   * The signing library refuses an HMAC-SHA256 key shorter than 256 bits, measured on the UTF-8
   * bytes of the secret; the refusal comes when the token is written, after the service's own check.
   */
  const MinKeyBytes: nat := 32

  predicate KeyLongEnough(secret: string) {
    Utf8Length(secret) >= MinKeyBytes
  }

  /** Minting succeeds: the secret is configured and long enough for HMAC-SHA256. */
  predicate CanSign(o: JwtOptions) {
    !SecretMissing(o) && KeyLongEnough(o.secret.value)
  }

  /** The library's refusal of a short key; its wording is not modelled, only that it is not the service's message. */
  const KeyTooShortMessage: string := "HS256 key shorter than 256 bits"

  /**
   * `GenerateToken(userClaims)` at time `now` (seconds), with `jti` the fresh GUID text that
   * `Guid.NewGuid()` supplies: the claims are copied and one `jti` claim (section 4.1.7 of RFC 7519)
   * is appended; the token expires `ExpirationMinutes` minutes after `now`.
   */
  function GenerateToken(userClaims: seq<Claim>, o: JwtOptions, now: int, jti: string): (r: Result<Token>)
    ensures r.Err? <==> !CanSign(o)
    ensures SecretMissing(o) ==> r == Err(SecretMissingMessage)
    ensures !SecretMissing(o) && !CanSign(o) ==> r == Err(KeyTooShortMessage)
    ensures r.Ok? ==> && |r.value.claims| == |userClaims| + 1
                      && r.value.claims[..|userClaims|] == userClaims
                      && r.value.claims[|userClaims|..] == [Claim(JtiType, jti)]
                      && r.value.issuer == o.issuer && r.value.audience == o.audience
                      && r.value.expires == now + 60 * o.expirationMinutes
                      && r.value.signature == HmacSha256(o.secret.value)
  {
    if SecretMissing(o) then Err(SecretMissingMessage)
    else if !KeyLongEnough(o.secret.value) then Err(KeyTooShortMessage)
    else
      var claims := userClaims + [Claim(JtiType, jti)];
      Ok(Token(o.issuer, o.audience, claims, now + 60 * o.expirationMinutes, HmacSha256(o.secret.value)))
  }

  /** An ASCII secret signs exactly when it has at least 32 characters; a shorter one fails after the service's own check. */
  lemma AsciiSecretNeeds32Chars(userClaims: seq<Claim>, o: JwtOptions, now: int, jti: string)
    requires o.secret.Some? && forall k :: 0 <= k < |o.secret.value| ==> o.secret.value[k] as int < 0x80
    ensures GenerateToken(userClaims, o, now, jti).Ok? <==> |o.secret.value| >= 32
    ensures 0 < |o.secret.value| < 32 ==> GenerateToken(userClaims, o, now, jti) == Err(KeyTooShortMessage)
  {
    Utf8LengthAscii(o.secret.value);
  }

  /** The token's `jti`: the last claim. */
  function TokenId(t: Token): Option<string> {
    if t.claims != [] && t.claims[|t.claims| - 1].claimType == JtiType then Some(t.claims[|t.claims| - 1].value)
    else None
  }

  /** The `jti` of a minted token is the GUID it was given, so tokens minted with distinct GUIDs are distinct. */
  lemma TokenIdIsFresh(userClaims: seq<Claim>, o: JwtOptions, now: int, jti: string, jti': string)
    requires CanSign(o)
    ensures TokenId(GenerateToken(userClaims, o, now, jti).value) == Some(jti)
    ensures jti != jti' ==> GenerateToken(userClaims, o, now, jti) != GenerateToken(userClaims, o, now, jti')
  {
    var t := GenerateToken(userClaims, o, now, jti).value;
    assert t.claims[|t.claims| - 1] == Claim(JtiType, jti);
    if jti != jti' {
      var t' := GenerateToken(userClaims, o, now, jti').value;
      assert t'.claims[|t'.claims| - 1] == Claim(JtiType, jti');
    }
  }

  /** The claims are exactly the caller's, in their order, then one `jti`. */
  lemma ClaimsCopiedThenJti(userClaims: seq<Claim>, o: JwtOptions, now: int, jti: string)
    requires CanSign(o)
    ensures GenerateToken(userClaims, o, now, jti).value.claims == userClaims + [Claim(JtiType, jti)]
    ensures |GenerateToken(userClaims, o, now, jti).value.claims| == |userClaims| + 1
  {
    var cs := GenerateToken(userClaims, o, now, jti).value.claims;
    assert cs == cs[..|userClaims|] + cs[|userClaims|..];
  }

  /**
   * The checks the bearer-token middleware is configured with (Program.cs): issuer, audience,
   * lifetime and signing key, with the library's default clock skew of five minutes. Validate is an
   * assumed description of that library, not a model of its code.
   */
  datatype ValidationParameters = ValidationParameters(validIssuer: string, validAudience: string, signingKey: string, clockSkew: int)

  const DefaultClockSkew: int := 300

  datatype Validation = Valid(claims: seq<Claim>) | SignatureInvalid | Expired | AudienceInvalid | IssuerInvalid

  /**
   * The inbound claim-type map the bearer handler applies, `MapInboundClaims` being left at its
   * default (true): the short names that it renames to the four framework types this program reads.
   * The comparison is exact; every other name passes unchanged.
   */
  function InboundType(claimType: string): (r: string)
    ensures claimType == SubType || claimType == "nameid" ==> r == NameIdentifierType
    ensures claimType == "email" ==> r == EmailType
    ensures claimType == "unique_name" ==> r == NameType
    ensures claimType == "role" || claimType == "roles" ==> r == RoleType
    ensures claimType !in [SubType, "nameid", "email", "unique_name", "role", "roles"] ==> r == claimType
    ensures claimType == JtiType ==> r == JtiType
    ensures |claimType| > 11 ==> r == claimType
  {
    if claimType == SubType || claimType == "nameid" then NameIdentifierType
    else if claimType == "email" then EmailType
    else if claimType == "unique_name" then NameType
    else if claimType == "role" || claimType == "roles" then RoleType
    else claimType
  }

  /** The payload's claims after the inbound map: same values and order, types renamed. */
  function MapInbound(claims: seq<Claim>): (r: seq<Claim>)
    ensures |r| == |claims|
    ensures forall k :: 0 <= k < |claims| ==> r[k] == Claim(InboundType(claims[k].claimType), claims[k].value)
  {
    seq(|claims|, k requires 0 <= k < |claims| => Claim(InboundType(claims[k].claimType), claims[k].value))
  }

  /** The registered claims the token's payload adds after the caller's: `exp`, `iss`, `aud`. */
  function RegisteredClaims(t: Token): seq<Claim> {
    [Claim(ExpType, IntToString(t.expires)), Claim(IssType, t.issuer), Claim(AudType, t.audience)]
  }

  /** The claims of the principal built from a valid token: the mapped payload claims, then the registered ones. */
  function InboundClaims(t: Token): (cs: seq<Claim>)
    ensures |cs| == |t.claims| + 3
  {
    MapInbound(t.claims) + RegisteredClaims(t)
  }

  /**
   * Audience check with `IgnoreTrailingSlashWhenValidatingAudience` (true by default): the two are
   * equal, or equal once the longer loses a single trailing "/".
   */
  predicate AudienceMatches(audience: string, valid: string) {
    audience == valid || audience == valid + "/" || valid == audience + "/"
  }

  /**
   * A token is accepted when its signature was made with the (long enough) key, it has not expired
   * beyond the skew, and its audience and issuer match non-blank valid values (a blank valid
   * issuer or audience refuses every token).
   */
  function Validate(t: Token, p: ValidationParameters, now: int): (v: Validation)
    ensures v.Valid? <==> (&& t.signature == HmacSha256(p.signingKey) && KeyLongEnough(p.signingKey)
                           && now <= t.expires + p.clockSkew
                           && !IsWhiteSpaceOnly(p.validAudience) && AudienceMatches(t.audience, p.validAudience)
                           && !IsWhiteSpaceOnly(p.validIssuer) && t.issuer == p.validIssuer)
    ensures v.Valid? ==> v.claims == InboundClaims(t)
  {
    if t.signature != HmacSha256(p.signingKey) || !KeyLongEnough(p.signingKey) then SignatureInvalid
    else if now > t.expires + p.clockSkew then Expired
    else if IsWhiteSpaceOnly(p.validAudience) || !AudienceMatches(t.audience, p.validAudience) then AudienceInvalid
    else if IsWhiteSpaceOnly(p.validIssuer) || t.issuer != p.validIssuer then IssuerInvalid
    else Valid(InboundClaims(t))
  }

  /** The parameters that the middleware derives from the same options the token service uses. */
  function ParametersFor(o: JwtOptions): ValidationParameters
    requires !SecretMissing(o)
  {
    ValidationParameters(o.issuer, o.audience, o.secret.value, DefaultClockSkew)
  }

  /**
   * Round trip: a token minted at `now` validates at any time up to its expiry plus the clock skew,
   * and the principal then holds the minted claims under the inbound map followed by `exp`, `iss`
   * and `aud`; at any later time it is rejected as expired.
   */
  lemma ValidateGenerated(userClaims: seq<Claim>, o: JwtOptions, now: int, jti: string, at: int)
    requires CanSign(o) && !IsWhiteSpaceOnly(o.issuer) && !IsWhiteSpaceOnly(o.audience)
    ensures var t := GenerateToken(userClaims, o, now, jti).value;
      && (at <= now + 60 * o.expirationMinutes + DefaultClockSkew ==>
            Validate(t, ParametersFor(o), at)
              == Valid(MapInbound(userClaims + [Claim(JtiType, jti)])
                       + [Claim(ExpType, IntToString(now + 60 * o.expirationMinutes)),
                          Claim(IssType, o.issuer), Claim(AudType, o.audience)]))
      && (at > now + 60 * o.expirationMinutes + DefaultClockSkew ==>
            Validate(t, ParametersFor(o), at) == Expired)
  {
    ClaimsCopiedThenJti(userClaims, o, now, jti);
  }

  /**
   * A token signed under any other key, addressed to an audience that does not match, from another
   * issuer, or checked against a blank issuer or audience, never validates.
   */
  lemma TamperedRejected(t: Token, o: JwtOptions, at: int)
    requires !SecretMissing(o)
    requires || t.signature != HmacSha256(o.secret.value) || !AudienceMatches(t.audience, o.audience)
             || t.issuer != o.issuer || IsWhiteSpaceOnly(o.issuer) || IsWhiteSpaceOnly(o.audience)
    ensures !Validate(t, ParametersFor(o), at).Valid?
  {
  }

  /** The configured audience with one "/" added (or removed) is still accepted. */
  lemma TrailingSlashAudienceAccepted(t: Token, o: JwtOptions, at: int)
    requires CanSign(o) && !IsWhiteSpaceOnly(o.issuer) && !IsWhiteSpaceOnly(o.audience)
    requires t.signature == HmacSha256(o.secret.value) && t.issuer == o.issuer && at <= t.expires + DefaultClockSkew
    requires t.audience == o.audience + "/" || o.audience == t.audience + "/"
    ensures Validate(t, ParametersFor(o), at).Valid?
    ensures t.audience != o.audience
  {
    assert |t.audience| != |o.audience|;
  }
}
