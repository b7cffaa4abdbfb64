/**
 * The admin-only CMS endpoints of Api/Controllers/CmsController.cs, behind the bearer-token
 * authentication and the `[Authorize(Roles = "Admin")]` gate.
 */
module Cms {
  import opened Wrappers
  import opened Text
  import opened Claims
  import opened Jwt

  /**
   * Bearer authentication: a presented token that validates yields a principal with one
   * authenticated identity holding the token's claims as the handler maps them in (renamed types,
   * then `exp`, `iss`, `aud`); anything else leaves the request anonymous.
   */
  function Authenticate(presented: Option<Token>, p: ValidationParameters, now: int): (user: Option<Principal>)
    ensures user.Some? <==> presented.Some? && Validate(presented.value, p, now).Valid?
    ensures user.Some? ==> user.value == Authenticated(InboundClaims(presented.value))
  {
    if presented.None? then None
    else match Validate(presented.value, p, now)
      case Valid(claims) => Some(Authenticated(claims))
      case _ => None
  }

  /** The decision of the role gate. */
  datatype Gate = Allow | Challenge | Forbid

  /**
   * `[Authorize(Roles = "Admin")]`: an anonymous request is challenged (401), an authenticated caller
   * without the Admin role is forbidden (403), an Admin passes.
   */
  function AdminGate(user: Option<Principal>): (g: Gate)
    ensures g == Allow <==> user.Some? && IsInRole(user.value, "Admin")
    ensures g == Challenge <==> user.None?
    ensures g == Forbid <==> user.Some? && !IsInRole(user.value, "Admin")
  {
    if user.None? then Challenge
    else if IsInRole(user.value, "Admin") then Allow
    else Forbid
  }

  /** The body of `POST api/cms/content`; `title` is None when the JSON carries null. */
  datatype ContentRequest = ContentRequest(title: Option<string>, body: Option<string>)

  /** A listed placeholder item. */
  datatype SampleContent = SampleContent(id: int, title: string, createdAt: int)

  /** The echoed new item. */
  datatype NewContent = NewContent(id: int, title: string, body: Option<string>, createdAt: int)

  datatype CmsRequest = GetRoot | GetContentList | PostContent(request: ContentRequest)

  datatype CmsResponse =
    | Welcome(message: string, timestamp: int)
    | ContentList(items: seq<SampleContent>)
    | Created(location: string, content: NewContent)
    | BadRequest(message: string)
    | ValidationProblem(field: string, message: string)
    | Challenged
    | Forbidden

  const WelcomeMessage: string := "Welcome to the CMS"
  const TitleRequiredMessage: string := "Title is required"
  /** The default message of the implicit `[Required]` on the non-nullable `Title`. */
  const TitleFieldRequiredMessage: string := "The Title field is required."
  const ContentLocationPrefix: string := "/api/cms/content/"
  const SecondsPerDay: int := 86400
  const MinContentId: int := 100
  const MaxContentIdExclusive: int := 999

  /** `string.IsNullOrWhiteSpace`: null, empty, or nothing but .NET white space. */
  predicate IsNullOrWhiteSpace(s: Option<string>)
    ensures s == None || s == Some("") ==> IsNullOrWhiteSpace(s)
    ensures s.Some? && |s.value| > 0 && !IsDotNetWhiteSpace(s.value[0]) ==> !IsNullOrWhiteSpace(s)
  {
    s.None? || IsWhiteSpaceOnly(s.value)
  }

  /**
   * `Random.Shared.Next(min, max)` with the generator's draw given as `sample`: a value in
   * [min, max), every one of which some draw yields.
   */
  function RandomNext(min: int, max: int, sample: nat): (v: int)
    requires min < max
    ensures min <= v < max
  {
    min + sample % (max - min)
  }

  lemma RandomNextCovers(min: int, max: int, v: int)
    requires min <= v < max
    ensures RandomNext(min, max, (v - min) as nat) == v
  {
  }

  /** `GET api/cms`: the welcome message stamped with the request time. */
  function Get(now: int): (r: CmsResponse)
    ensures r.Welcome? && r.message == WelcomeMessage && r.timestamp == now
  {
    Welcome(WelcomeMessage, now)
  }

  /** `GET api/cms/content`: two placeholder items, created one and two days ago. */
  function GetContent(now: int): (items: seq<SampleContent>)
    ensures |items| == 2
    ensures forall k :: 0 <= k < 2 ==> items[k].id == k + 1 && items[k].createdAt == now - (k + 1) * SecondsPerDay
    ensures items[0].title == "Sample Content 1" && items[1].title == "Sample Content 2"
  {
    [SampleContent(1, "Sample Content 1", now - SecondsPerDay),
     SampleContent(2, "Sample Content 2", now - 2 * SecondsPerDay)]
  }

  /** `POST api/cms/content`: reject a blank title, otherwise echo the item under a random id. */
  function CreateContent(request: ContentRequest, sample: nat, now: int): (r: CmsResponse)
    ensures r.BadRequest? <==> IsNullOrWhiteSpace(request.title)
    ensures r.BadRequest? ==> r.message == TitleRequiredMessage
    ensures r.Created? ==> && r.content.title == request.title.value && r.content.body == request.body
                           && r.content.createdAt == now
                           && MinContentId <= r.content.id < MaxContentIdExclusive
                           && r.location == ContentLocationPrefix + NatToString(r.content.id)
    ensures r.BadRequest? || r.Created?
  {
    if IsNullOrWhiteSpace(request.title) then BadRequest(TitleRequiredMessage)
    else
      var id := RandomNext(MinContentId, MaxContentIdExclusive, sample);
      Created(ContentLocationPrefix + NatToString(id), NewContent(id, request.title.value, request.body, now))
  }

  /**
   * The controller behind its gate: the authorization filter runs first; then, for a post, the
   * automatic model validation of `[ApiController]` answers 400 with the model-state error when
   * the non-nullable `Title` is null, empty or white space (the implicit `[Required]`); only a
   * request that passes both reaches the action it names.
   */
  function Handle(user: Option<Principal>, request: CmsRequest, sample: nat, now: int): (r: CmsResponse)
    ensures AdminGate(user) == Challenge ==> r == Challenged
    ensures AdminGate(user) == Forbid ==> r == Forbidden
    ensures AdminGate(user) == Allow ==> match request
      case GetRoot => r == Get(now)
      case GetContentList => r == ContentList(GetContent(now))
      case PostContent(c) =>
        && (r.ValidationProblem? <==> IsNullOrWhiteSpace(c.title))
        && (r.ValidationProblem? ==> r == ValidationProblem("Title", TitleFieldRequiredMessage))
        && (!IsNullOrWhiteSpace(c.title) ==> r == CreateContent(c, sample, now) && r.Created?)
    ensures r.ValidationProblem? ==> request.PostContent?
  {
    match AdminGate(user)
    case Challenge => Challenged
    case Forbid => Forbidden
    case Allow =>
      match request
      case GetRoot => Get(now)
      case GetContentList => ContentList(GetContent(now))
      case PostContent(c) =>
        if IsNullOrWhiteSpace(c.title) then ValidationProblem("Title", TitleFieldRequiredMessage)
        else CreateContent(c, sample, now)
  }

  /** Only an Admin ever reaches an action; everyone else gets 401 or 403 whatever they ask. */
  lemma OnlyAdminsReachActions(user: Option<Principal>, request: CmsRequest, sample: nat, now: int)
    ensures var r := Handle(user, request, sample, now);
      && (r == Challenged <==> user.None?)
      && (r == Forbidden <==> user.Some? && !IsInRole(user.value, "Admin"))
      && (user.Some? && IsInRole(user.value, "Admin") ==> r.Welcome? || r.ContentList? || r.Created? || r.ValidationProblem?)
  {
  }

  /**
   * The action's own blank-title answer is never sent over HTTP: the validation step has already
   * answered every request it would refuse, so no request, from anyone, gets "Title is required".
   */
  lemma ActionTitleCheckUnreachable(user: Option<Principal>, request: CmsRequest, sample: nat, now: int)
    ensures !Handle(user, request, sample, now).BadRequest?
    ensures request.PostContent? && AdminGate(user) == Allow ==>
      (Handle(user, request, sample, now).ValidationProblem? <==> CreateContent(request.request, sample, now).BadRequest?)
  {
  }

  /** The new item's location names its id: reading the number back from the path gives the id. */
  lemma CreatedLocationNamesId(request: ContentRequest, sample: nat, now: int)
    requires !IsNullOrWhiteSpace(request.title)
    ensures var r := CreateContent(request, sample, now);
      && r.Created? && StartsWith(r.location, ContentLocationPrefix)
      && var digits := r.location[|ContentLocationPrefix|..];
         && (forall k :: 0 <= k < |digits| ==> IsDigit(digits[k]))
         && DecimalValue(digits) == r.content.id
  {
    var r := CreateContent(request, sample, now);
    assert r.location[|ContentLocationPrefix|..] == NatToString(r.content.id);
    NatToStringRoundTrip(r.content.id);
  }

  /** Every id in [100, 999) is one that some draw of the generator gives a new item. */
  lemma EveryIdReachable(request: ContentRequest, now: int, id: int)
    requires !IsNullOrWhiteSpace(request.title)
    requires MinContentId <= id < MaxContentIdExclusive
    ensures CreateContent(request, (id - MinContentId) as nat, now).content.id == id
  {
    RandomNextCovers(MinContentId, MaxContentIdExclusive, id);
  }

  /**
   * The blank test is .NET's: a title of only a byte-order mark passes it, although JavaScript's
   * `trim` would empty it, and a title of only U+0085 is refused.
   */
  lemma BlankTitleIsDotNetWhiteSpace(body: Option<string>, sample: nat, now: int)
    ensures CreateContent(ContentRequest(Some("\U{FEFF}"), body), sample, now).Created?
    ensures Trim("\U{FEFF}") == ""
    ensures CreateContent(ContentRequest(Some("\U{0085}"), body), sample, now).BadRequest?
    ensures CreateContent(ContentRequest(Some(""), body), sample, now).BadRequest?
    ensures CreateContent(ContentRequest(None, body), sample, now).BadRequest?
  {
    TrimAllSpace("\U{FEFF}");
  }
}
