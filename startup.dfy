/**
 * The host of Program.cs as far as sign-in depends on it: the configuration values it reads, the
 * JWT options bound from the same keys, the bearer parameters it builds, and which configurations
 * let a request reach a controller at all.
 */
module Startup {
  import opened Wrappers
  import opened Text
  import opened Jwt

  /**
   * The configuration keys the host reads under "Authentication"; None is a missing key.
   * `jwtExpirationMinutes` is the bound integer of "Authentication:Jwt:ExpirationMinutes".
   */
  datatype Configuration = Configuration(
    jwtSecret: Option<string>,
    jwtIssuer: Option<string>,
    jwtAudience: Option<string>,
    jwtExpirationMinutes: Option<int>,
    googleClientId: Option<string>,
    googleClientSecret: Option<string>)

  /** The host does not start without a JWT secret: the null check runs while the services are registered. */
  predicate HostStarts(c: Configuration) {
    c.jwtSecret.Some?
  }

  /** `JwtOptions` bound from the "Authentication:Jwt" section: a missing key keeps the class's default. */
  function BoundJwtOptions(c: Configuration): (o: JwtOptions)
    ensures o.secret == Some(c.jwtSecret.GetOr(""))
    ensures o.issuer == c.jwtIssuer.GetOr("bitsbybeier") && o.audience == c.jwtAudience.GetOr("bitsbybeier-app")
    ensures o.expirationMinutes == c.jwtExpirationMinutes.GetOr(60)
  {
    JwtOptions(Some(c.jwtSecret.GetOr(DefaultOptions.secret.value)), c.jwtIssuer.GetOr(DefaultOptions.issuer),
               c.jwtAudience.GetOr(DefaultOptions.audience), c.jwtExpirationMinutes.GetOr(DefaultOptions.expirationMinutes))
  }

  /** The bearer parameters the host builds: the same keys, with the same fallbacks for issuer and audience. */
  function BearerParameters(c: Configuration): (p: ValidationParameters)
    requires HostStarts(c)
    ensures p.signingKey == c.jwtSecret.value && p.clockSkew == DefaultClockSkew
  {
    ValidationParameters(c.jwtIssuer.GetOr("bitsbybeier"), c.jwtAudience.GetOr("bitsbybeier-app"),
                         c.jwtSecret.value, DefaultClockSkew)
  }

  /**
   * `UseAuthentication` builds the bearer and the Google handler options for every request. An empty
   * secret makes `SymmetricSecurityKey` throw, and a missing or empty Google client id or secret is
   * refused by the Google options (a missing one by the host's own `?? throw`); in each case every
   * request fails before any controller runs.
   */
  predicate HandlersBuild(c: Configuration)
    requires HostStarts(c)
  {
    && c.jwtSecret.value != ""
    && c.googleClientId.Some? && c.googleClientId.value != ""
    && c.googleClientSecret.Some? && c.googleClientSecret.value != ""
  }

  /**
   * Whenever a request reaches a controller, the token service and the middleware agree: the bound
   * options have a secret, and the middleware checks exactly what the service signs; the controller
   * also sees a Google client id.
   */
  lemma ServedHostIsConfigured(c: Configuration)
    requires HostStarts(c) && HandlersBuild(c)
    ensures !SecretMissing(BoundJwtOptions(c))
    ensures BearerParameters(c) == ParametersFor(BoundJwtOptions(c))
    ensures c.googleClientId.Some?
    ensures CanSign(BoundJwtOptions(c)) <==> KeyLongEnough(c.jwtSecret.value)
  {
  }
}
