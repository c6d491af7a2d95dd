/**
 * `GET /api/auth/microsoft` (`src/app/api/auth/microsoft/route.ts`): builds the
 * authorization request of section 4.1.1 of RFC 6749 for the caller and returns its
 * URL as JSON. The query is filled with `searchParams.set`, and the caller's id
 * travels in `state`.
 */
module MicrosoftInitiate {
  import opened Wrappers
  import opened Js
  import opened SearchParams
  import opened Environment
  import ServerAuth

  const Scope: string := "Files.Read Files.Read.All offline_access"

  /** The parameters in the order the handler sets them. */
  function AuthorizationParams(clientId: string, redirectUri: string, userId: int): seq<Param> {
    [ Param("client_id", clientId),
      Param("response_type", "code"),
      Param("redirect_uri", redirectUri),
      Param("response_mode", "query"),
      Param("scope", Scope),
      Param("state", IntToString(userId)) ]
  }

  /** The URL the handler returns: the `common` authority, whatever the tenant. */
  function AuthorizationUrl(clientId: string, redirectUri: string, userId: int): string {
    Href(AuthorizeEndpoint("common"), AuthorizationParams(clientId, redirectUri, userId))
  }

  /** Six `set` calls of distinct names on an empty list append the six pairs in order. */
  lemma SetsAppend(clientId: string, redirectUri: string, userId: int)
    ensures
      var l1 := SetParam([], "client_id", clientId);
      var l2 := SetParam(l1, "response_type", "code");
      var l3 := SetParam(l2, "redirect_uri", redirectUri);
      var l4 := SetParam(l3, "response_mode", "query");
      var l5 := SetParam(l4, "scope", Scope);
      SetParam(l5, "state", IntToString(userId)) == AuthorizationParams(clientId, redirectUri, userId)
  {
    var l0: seq<Param> := [];
    SetAbsent(l0, "client_id", clientId);
    var l1 := l0 + [Param("client_id", clientId)];
    SetAbsent(l1, "response_type", "code");
    var l2 := l1 + [Param("response_type", "code")];
    SetAbsent(l2, "redirect_uri", redirectUri);
    var l3 := l2 + [Param("redirect_uri", redirectUri)];
    SetAbsent(l3, "response_mode", "query");
    var l4 := l3 + [Param("response_mode", "query")];
    SetAbsent(l4, "scope", Scope);
    var l5 := l4 + [Param("scope", Scope)];
    SetAbsent(l5, "state", IntToString(userId));
  }

  /** The URL object and its six `set` calls. */
  method BuildAuthorizationUrl(clientId: string, redirectUri: string, userId: int) returns (href: string)
    ensures href == AuthorizationUrl(clientId, redirectUri, userId)
  {
    var params := new UrlSearchParams();
    params.Set("client_id", clientId);
    params.Set("response_type", "code");
    params.Set("redirect_uri", redirectUri);
    params.Set("response_mode", "query");
    params.Set("scope", Scope);
    params.Set("state", IntToString(userId));
    SetsAppend(clientId, redirectUri, userId);
    href := Href(AuthorizeEndpoint("common"), params.list);
  }

  datatype InitiateResponse =
    | AuthUrl(authUrl: string)
    | InitiateError(status: int, error: string)

  const Unauthorized: string := "Unauthorized - please login first"
  const NotConfigured: string := "Microsoft OAuth not configured"

  /** `GET(request)`, given the caller's id as `getUserIdFromRequest` reads it. */
  method Get(caller: Option<JsNumber>, env: Env) returns (r: InitiateResponse)
    ensures !ServerAuth.Authenticated(caller) ==> r == InitiateError(401, Unauthorized)
    ensures ServerAuth.Authenticated(caller) && !(Truthy(env.azureClientId) && Truthy(env.azureTenantId)) ==>
      r == InitiateError(500, NotConfigured)
    ensures r.AuthUrl? <==> ServerAuth.Authenticated(caller) && Truthy(env.azureClientId) && Truthy(env.azureTenantId)
    ensures r.AuthUrl? ==> r.authUrl == AuthorizationUrl(env.azureClientId.value, RedirectUri(env), caller.value.value)
  {
    if !ServerAuth.Authenticated(caller) {
      return InitiateError(401, Unauthorized);
    }
    if !Truthy(env.azureClientId) || !Truthy(env.azureTenantId) {
      return InitiateError(500, NotConfigured);
    }
    var href := BuildAuthorizationUrl(env.azureClientId.value, RedirectUri(env), caller.value.value);
    return AuthUrl(href);
  }

  lemma DistinctNames(clientId: string, redirectUri: string, userId: int)
    ensures var ps := AuthorizationParams(clientId, redirectUri, userId);
      forall i, j | 0 <= i < j < |ps| :: ps[i].name != ps[j].name
  {
  }

  /**
   * The returned URL's query parses back to every parameter, each name once, in
   * the order set; in particular `state` is the caller's id, which `parseInt` turns
   * back into the id.
   */
  lemma AuthorizationUrlParses(clientId: string, redirectUri: string, userId: int)
    ensures AuthorizationUrl(clientId, redirectUri, userId)
      == AuthorizeEndpoint("common") + "?" + Serialize(AuthorizationParams(clientId, redirectUri, userId))
    ensures ParseQuery(Serialize(AuthorizationParams(clientId, redirectUri, userId)))
      == AuthorizationParams(clientId, redirectUri, userId)
    ensures var ps := AuthorizationParams(clientId, redirectUri, userId);
      forall k | 0 <= k < |ps| :: Named(ps, ps[k].name) == [ps[k].value]
    ensures SearchParams.Get(AuthorizationParams(clientId, redirectUri, userId), "state") == Some(IntToString(userId))
    ensures ParseInt(IntToString(userId)) == Int(userId)
  {
    var ps := AuthorizationParams(clientId, redirectUri, userId);
    ParseSerialize(ps);
    DistinctNames(clientId, redirectUri, userId);
    forall k | 0 <= k < |ps|
      ensures Named(ps, ps[k].name) == [ps[k].value]
    {
      GetDistinct(ps, k);
    }
    GetDistinct(ps, 5);
    ParseIntOfIntToString(userId);
  }
}
