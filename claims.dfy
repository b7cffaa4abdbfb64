/**
 * Claims, the principal a request carries, and the claim lookups of Api/Controllers/BaseController.cs
 * and `AuthController.GetUser`.
 */
module Claims {
  import opened Wrappers
  import opened Text

  /** A claim: a type name and a string value. */
  datatype Claim = Claim(claimType: string, value: string)

  /** The framework's claim-type names that the source uses (`ClaimTypes.*`, `JwtRegisteredClaimNames.*`). */
  const NameIdentifierType: string := "http://schemas.xmlsoap.org/ws/2005/05/identity/claims/nameidentifier"
  const EmailType: string := "http://schemas.xmlsoap.org/ws/2005/05/identity/claims/emailaddress"
  const NameType: string := "http://schemas.xmlsoap.org/ws/2005/05/identity/claims/name"
  const RoleType: string := "http://schemas.microsoft.com/ws/2008/06/identity/claims/role"
  const SubType: string := "sub"
  const JtiType: string := "jti"
  /** The registered claims a signed payload carries besides the caller's (section 4.1 of RFC 7519). */
  const ExpType: string := "exp"
  const IssType: string := "iss"
  const AudType: string := "aud"

  /** One identity of a principal: whether it is authenticated, and its claims in order. */
  datatype Identity = Identity(isAuthenticated: bool, claims: seq<Claim>)

  /** `ClaimsPrincipal`: its identities in order; the first one is its primary `Identity`. */
  datatype Principal = Principal(identities: seq<Identity>)

  /** Claim types are compared ignoring case, as `ClaimsIdentity.FindFirst(string)` does. */
  predicate HasType(c: Claim, claimType: string) {
    EqualsIgnoreCase(c.claimType, claimType)
  }

  /** `FindFirst(type)?.Value` over a list of claims: the value of the first claim of that type. */
  function FindFirst(claims: seq<Claim>, claimType: string): (r: Option<string>)
    ensures r.None? <==> forall k :: 0 <= k < |claims| ==> !HasType(claims[k], claimType)
    ensures r.Some? ==> exists k :: FirstOfType(claims, claimType, k) && claims[k].value == r.value
  {
    if claims == [] then None
    else if HasType(claims[0], claimType) then Some(claims[0].value)
    else
      var r := FindFirst(claims[1..], claimType);
      assert forall k :: 1 <= k < |claims| ==> claims[k] == claims[1..][k - 1];
      if r.Some? then
        var k :| FirstOfType(claims[1..], claimType, k) && claims[1..][k].value == r.value;
        assert FirstOfType(claims, claimType, k + 1);
        r
      else r
  }

  /** Position `k` holds the first claim of the given type. */
  predicate FirstOfType(claims: seq<Claim>, claimType: string, k: int) {
    0 <= k < |claims| && HasType(claims[k], claimType) && forall m :: 0 <= m < k ==> !HasType(claims[m], claimType)
  }

  /** Helper for the lookup proofs: the lengths of the claim type names, which mostly tell them apart. */
  lemma ClaimTypeLengths()
    ensures |NameIdentifierType| == 68 && |EmailType| == 66 && |NameType| == 58 && |RoleType| == 60
    ensures |SubType| == 3 && |JtiType| == 3 && |ExpType| == 3 && |IssType| == 3 && |AudType| == 3
  {
  }

  /** The three-letter registered names differ from "sub" even ignoring case. */
  lemma ShortTypesAreNotSub()
    ensures !EqualsIgnoreCase(JtiType, SubType) && !EqualsIgnoreCase(ExpType, SubType)
    ensures !EqualsIgnoreCase(IssType, SubType) && !EqualsIgnoreCase(AudType, SubType)
  {
    assert AsciiUpper(JtiType[0]) != AsciiUpper(SubType[0]);
    assert AsciiUpper(ExpType[0]) != AsciiUpper(SubType[0]);
    assert AsciiUpper(IssType[0]) != AsciiUpper(SubType[0]);
    assert AsciiUpper(AudType[0]) != AsciiUpper(SubType[0]);
  }

  /** No two claims of the list have types of the same length, so no two types match ignoring case. */
  predicate DistinctTypeLengths(claims: seq<Claim>) {
    forall m, n :: 0 <= m < n < |claims| ==> |claims[m].claimType| != |claims[n].claimType|
  }

  /** In such a list every claim is found by its own type. */
  lemma FoundByDistinctLength(claims: seq<Claim>, k: nat)
    requires k < |claims| && DistinctTypeLengths(claims)
    ensures FindFirst(claims, claims[k].claimType) == Some(claims[k].value)
  {
    assert HasType(claims[k], claims[k].claimType);
    FirstOfTypeFound(claims, claims[k].claimType, k);
  }

  /** Helper: a claim of exactly the looked-up type, after claims whose types all have other lengths, is the one found. */
  lemma FoundAfterOtherLengths(claims: seq<Claim>, claimType: string, k: int)
    requires 0 <= k < |claims| && claims[k].claimType == claimType
    requires forall m :: 0 <= m < k ==> |claims[m].claimType| != |claimType|
    ensures FindFirst(claims, claimType) == Some(claims[k].value)
  {
    assert HasType(claims[k], claimType);
    FirstOfTypeFound(claims, claimType, k);
  }

  /** A type no claim has is not found. */
  lemma TypeAbsent(claims: seq<Claim>, claimType: string)
    requires forall k :: 0 <= k < |claims| ==> !HasType(claims[k], claimType)
    ensures FindFirst(claims, claimType) == None
  {
  }

  /** The lookup returns the value of the first claim of the type, wherever that claim stands. */
  lemma FirstOfTypeFound(claims: seq<Claim>, claimType: string, k: int)
    requires FirstOfType(claims, claimType, k)
    ensures FindFirst(claims, claimType) == Some(claims[k].value)
  {
    var r := FindFirst(claims, claimType);
    assert r.Some?;
    var j :| FirstOfType(claims, claimType, j) && claims[j].value == r.value;
    assert !(j < k) && !(k < j);
  }

  /** Claims before the first one of the looked-up type do not matter, and appending claims never hides a match. */
  lemma {:induction false} FindFirstAppend(claims: seq<Claim>, more: seq<Claim>, claimType: string)
    requires FindFirst(claims, claimType).Some?
    ensures FindFirst(claims + more, claimType) == FindFirst(claims, claimType)
  {
    if !HasType(claims[0], claimType) {
      assert (claims + more)[1..] == claims[1..] + more;
      FindFirstAppend(claims[1..], more, claimType);
    }
  }

  /** All claims of a principal, identity by identity (what `ClaimsPrincipal.FindFirst` searches). */
  function AllClaims(identities: seq<Identity>): (cs: seq<Claim>)
    ensures identities == [] ==> cs == []
    ensures |identities| == 1 ==> cs == identities[0].claims
  {
    if identities == [] then [] else identities[0].claims + AllClaims(identities[1..])
  }

  /** `User?.FindFirst(type)?.Value`: None when there is no principal. */
  function PrincipalClaim(user: Option<Principal>, claimType: string): Option<string> {
    if user.None? then None else FindFirst(AllClaims(user.value.identities), claimType)
  }

  /** `UserId`: the "sub" claim, falling back to the "id" claim. */
  function UserId(user: Option<Principal>): (r: Option<string>)
    ensures PrincipalClaim(user, "sub").Some? ==> r == PrincipalClaim(user, "sub")
    ensures PrincipalClaim(user, "sub").None? ==> r == PrincipalClaim(user, "id")
    ensures user.None? ==> r.None?
  {
    match PrincipalClaim(user, "sub")
    case Some(v) => Some(v)
    case None => PrincipalClaim(user, "id")
  }

  /** `UserEmail`: the "email" claim. */
  function UserEmail(user: Option<Principal>): (r: Option<string>)
    ensures user.None? ==> r.None?
    ensures user.Some? ==> r == FindFirst(AllClaims(user.value.identities), "email")
  {
    PrincipalClaim(user, "email")
  }

  /** `UserDisplayName`: the "name" claim. */
  function UserDisplayName(user: Option<Principal>): (r: Option<string>)
    ensures user.None? ==> r.None?
    ensures user.Some? ==> r == FindFirst(AllClaims(user.value.identities), "name")
  {
    PrincipalClaim(user, "name")
  }

  /** `IsAuthenticated`: the primary identity exists and is authenticated; false without a principal. */
  function IsAuthenticated(user: Option<Principal>): (b: bool)
    ensures b ==> user.Some? && |user.value.identities| > 0
    ensures user.Some? && |user.value.identities| > 0 ==> (b <==> user.value.identities[0].isAuthenticated)
  {
    user.Some? && |user.value.identities| > 0 && user.value.identities[0].isAuthenticated
  }

  /** The body of `GET api/auth/user`: the Email and Name claims (long framework names) of the caller. */
  datatype UserInfo = UserInfo(email: Option<string>, name: Option<string>)

  function GetUser(user: Principal): (info: UserInfo)
    ensures info.email == FindFirst(AllClaims(user.identities), EmailType)
    ensures info.name == FindFirst(AllClaims(user.identities), NameType)
  {
    UserInfo(FindFirst(AllClaims(user.identities), EmailType),
             FindFirst(AllClaims(user.identities), NameType))
  }

  /** A principal with one authenticated identity holding exactly these claims (what bearer authentication builds). */
  function Authenticated(claims: seq<Claim>): (p: Principal)
    ensures AllClaims(p.identities) == claims
    ensures IsAuthenticated(Some(p))
  {
    Principal([Identity(true, claims)])
  }

  /** `ClaimsPrincipal.IsInRole(role)`: some identity has a role claim whose value is exactly `role`. */
  predicate IsInRole(user: Principal, role: string) {
    exists k :: 0 <= k < |user.identities| && HasClaim(user.identities[k].claims, RoleType, role)
  }

  /** A claim of the given type (case ignored) with exactly the given value (case kept). */
  predicate HasClaim(claims: seq<Claim>, claimType: string, value: string) {
    exists k :: 0 <= k < |claims| && HasType(claims[k], claimType) && claims[k].value == value
  }
}
