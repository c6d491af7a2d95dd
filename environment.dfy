/** The process environment the OAuth and vault routes read, and values derived from it. */
module Environment {
  import opened Wrappers
  import opened Js

  /** The variables, each `None` when unset. */
  datatype Env = Env(
    azureClientId: Option<string>,
    azureTenantId: Option<string>,
    azureClientSecret: Option<string>,
    nextAuthUrl: Option<string>,
    vaultPath: Option<string>)

  /** The three Azure settings the OAuth routes refuse to run without, each set and non-empty. */
  predicate OAuthConfigured(env: Env) {
    Truthy(env.azureClientId) && Truthy(env.azureTenantId) && Truthy(env.azureClientSecret)
  }

  /** A variable interpolated into a template literal: an unset one reads `"undefined"`. */
  function Interpolate(v: Option<string>): string {
    v.GetOr("undefined")
  }

  /** `${process.env.NEXTAUTH_URL}/api/auth/microsoft/callback`. */
  function RedirectUri(env: Env): string {
    Interpolate(env.nextAuthUrl) + "/api/auth/microsoft/callback"
  }

  /** The Microsoft identity platform's authorize endpoint under an authority path segment. */
  function AuthorizeEndpoint(authority: string): string {
    "https://login.microsoftonline.com/" + authority + "/oauth2/v2.0/authorize"
  }
}
