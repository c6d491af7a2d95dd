/**
 * `GET /api/auth/microsoft/login` (`src/app/api/auth/microsoft/login/route.ts`): the
 * same authorization request as `MicrosoftInitiate`, but under the configured
 * tenant, filled with `searchParams.append`, and answered with a redirect.
 */
module MicrosoftLogin {
  import opened Wrappers
  import opened Js
  import opened SearchParams
  import opened Environment
  import ServerAuth
  import MicrosoftInitiate

  const Scopes: seq<string> := ["Files.Read", "Files.Read.All", "offline_access"]

  /** `parts.join(sep)`. */
  function Join(parts: seq<string>, sep: string): string {
    if parts == [] then "" else if |parts| == 1 then parts[0] else parts[0] + sep + Join(parts[1..], sep)
  }

  /** The joined scopes are the scope string the other initiation route sends. */
  lemma ScopesJoined()
    ensures Join(Scopes, " ") == MicrosoftInitiate.Scope
  {
    var tail := Scopes[1..];
    assert tail[1..] == ["offline_access"];
    assert Join(tail, " ") == "Files.Read.All" + " " + "offline_access";
    assert Join(Scopes, " ") == "Files.Read" + " " + ("Files.Read.All" + " " + "offline_access");
  }

  /** The parameters in the order the handler appends them. */
  function LoginParams(clientId: string, redirectUri: string, userId: int): seq<Param> {
    [ Param("client_id", clientId),
      Param("response_type", "code"),
      Param("redirect_uri", redirectUri),
      Param("scope", Join(Scopes, " ")),
      Param("response_mode", "query"),
      Param("state", IntToString(userId)) ]
  }

  function LoginUrl(tenantId: string, clientId: string, redirectUri: string, userId: int): string {
    Href(AuthorizeEndpoint(tenantId), LoginParams(clientId, redirectUri, userId))
  }

  /** The URL object and its six `append` calls. */
  method BuildLoginUrl(tenantId: string, clientId: string, redirectUri: string, userId: int) returns (href: string)
    ensures href == LoginUrl(tenantId, clientId, redirectUri, userId)
  {
    var params := new UrlSearchParams();
    var scopes := Join(Scopes, " ");
    params.Append("client_id", clientId);
    params.Append("response_type", "code");
    params.Append("redirect_uri", redirectUri);
    params.Append("scope", scopes);
    params.Append("response_mode", "query");
    params.Append("state", IntToString(userId));
    assert params.list == LoginParams(clientId, redirectUri, userId);
    href := Href(AuthorizeEndpoint(tenantId), params.list);
  }

  datatype LoginResponse =
    | Redirect(location: string)
    | LoginError(status: int, error: string)

  /** `GET(request)`, given the caller's id as `getUserIdFromRequest` reads it. */
  method Get(caller: Option<JsNumber>, env: Env) returns (r: LoginResponse)
    ensures !ServerAuth.Authenticated(caller) ==> r == LoginError(401, MicrosoftInitiate.Unauthorized)
    ensures ServerAuth.Authenticated(caller) && !(Truthy(env.azureClientId) && Truthy(env.azureTenantId)) ==>
      r == LoginError(500, MicrosoftInitiate.NotConfigured)
    ensures r.Redirect? <==> ServerAuth.Authenticated(caller) && Truthy(env.azureClientId) && Truthy(env.azureTenantId)
    ensures r.Redirect? ==>
      r.location == LoginUrl(env.azureTenantId.value, env.azureClientId.value, RedirectUri(env), caller.value.value)
  {
    if !ServerAuth.Authenticated(caller) {
      return LoginError(401, MicrosoftInitiate.Unauthorized);
    }
    if !Truthy(env.azureClientId) || !Truthy(env.azureTenantId) {
      return LoginError(500, MicrosoftInitiate.NotConfigured);
    }
    var href := BuildLoginUrl(env.azureTenantId.value, env.azureClientId.value, RedirectUri(env), caller.value.value);
    return Redirect(href);
  }

  lemma DistinctNames(clientId: string, redirectUri: string, userId: int)
    ensures var ps := LoginParams(clientId, redirectUri, userId);
      forall i, j | 0 <= i < j < |ps| :: ps[i].name != ps[j].name
  {
  }

  /**
   * The redirect goes to the tenant's authorize endpoint, and its query parses back
   * to the six parameters in append order; `state` is the caller's id.
   */
  lemma LoginUrlParses(tenantId: string, clientId: string, redirectUri: string, userId: int)
    ensures LoginUrl(tenantId, clientId, redirectUri, userId)
      == AuthorizeEndpoint(tenantId) + "?" + Serialize(LoginParams(clientId, redirectUri, userId))
    ensures ParseQuery(Serialize(LoginParams(clientId, redirectUri, userId))) == LoginParams(clientId, redirectUri, userId)
    ensures SearchParams.Get(LoginParams(clientId, redirectUri, userId), "state") == Some(IntToString(userId))
  {
    var ps := LoginParams(clientId, redirectUri, userId);
    ParseSerialize(ps);
    DistinctNames(clientId, redirectUri, userId);
    GetDistinct(ps, 5);
  }

  /** The two initiation routes send the same parameters, in a different order. */
  lemma SameParamsAsInitiate(clientId: string, redirectUri: string, userId: int)
    ensures multiset(LoginParams(clientId, redirectUri, userId))
      == multiset(MicrosoftInitiate.AuthorizationParams(clientId, redirectUri, userId))
  {
    ScopesJoined();
    var ps := LoginParams(clientId, redirectUri, userId);
    var qs := MicrosoftInitiate.AuthorizationParams(clientId, redirectUri, userId);
    assert ps == qs[..3] + [qs[4], qs[3]] + qs[5..];
    SwapKeepsMultiset(qs, 3);
  }

  lemma SwapKeepsMultiset<T>(s: seq<T>, k: nat)
    requires k + 1 < |s|
    ensures multiset(s[..k] + [s[k + 1], s[k]] + s[k + 2..]) == multiset(s)
  {
    assert s == s[..k] + [s[k], s[k + 1]] + s[k + 2..];
  }
}
