# zephyron-hub core, modelled in Dafny

zephyron-hub is a Next.js team portal. Members sign up and log in with an email and a
password and receive a signed session token (a JSON Web Token). They keep projects and
tasks on a kanban board. They can also link a Microsoft account over OAuth 2.0 (RFC 6749)
so that the dashboard lists the notes of their Obsidian vault on OneDrive.

This project models the logic of that portal and proves properties of the model. It covers:

- **Session tokens in the browser.** `src/lib/auth.utils.ts` and `src/lib/tokenUtils.ts`
  check the email and password format, test whether a token has expired, and keep the
  token under the `auth_token` key of `localStorage`.
- **Request authentication on the server.** `src/lib/serverAuth.ts` reads the
  `Bearer` header, verifies the token and reads the caller's id with `parseInt`.
- **The account routes.** Register, log in and read the session.
- **The Microsoft routes.** Two ways to start the authorization request, the callback
  that exchanges the code and links the account, disconnect, and connection status.
- **The vault routes.** `notes` and `structure` refresh the Microsoft access token when
  it has expired, walk or list the vault, and shape the answer. `notes` keeps the five
  newest markdown files, and `structure` puts folders first and then sorts by name.
- **The task-creation route.**
- **The client components whose handlers change state.** The kanban board (drag to
  change a task's status, with an optimistic update and a revert), the task list
  (complete a task), and the register, new-task and new-project forms.

## How the model is built

**Modules follow the source.** There is one module per source file, named after the
file. Shared behaviour has its own modules:

- `Js`: truthiness, `trim`, `toLowerCase` on ASCII, `parseInt`, `String(n)`.
- `UrlEncoding`: UTF-8, form encoding and `encodeURIComponent`, each with its decoder.
- `SearchParams`: `URLSearchParams`.
- `Jwt`: the claims that are signed and the errors `jsonwebtoken` throws.
- `Store`: the user, project and task tables.
- `LocalStorage`: the browser's `localStorage`.
- `Sorting`: a stable insertion sort, which is what `Array.prototype.sort` produces.
- `TokenRefresh`: the refresh shared by the two vault routes.
- `Drive`: the OneDrive answers.

**Route handlers.** Each route handler is a pure function from the request, the tables
and the outcomes of the outside world to the response and the new tables. A method on
`Store.Database` (a class whose fields are the tables, with `modifies db`) applies it.

**Client components.** Each client component is a class whose fields are its React
state. An `async` handler that changes state before it awaits is split at the
await, so the state the user sees in between, and another event arriving then, are
part of the model: `Validate`/`Send`, `BeginComplete`/`SettleComplete` and
`Drop`/`Settle`. A method named after the whole handler (`Submit`, `CompleteTask`,
`DragEnd`) composes its phases for the case where nothing else happens in between.
`NewTaskForm.Form.LoadProjects` changes nothing before its await, so it is one method,
applied when the answer arrives.

**The outside world is made of parameters:**

- the token verifier and signer, and the password hasher and comparer;
- the Microsoft token exchange and the refresh;
- the OneDrive listings and downloads;
- the name collation;
- the clock (`now`, in milliseconds);
- whether the store throws (`fault`, `readFault`, `writeFault`);
- the window (`null` on the server);
- the HTTP answer a form receives.

### Where the code and its documentation disagree

The model follows the code in each of these cases:

- **A refreshed access token's expiry.** The routes store
  `Date.now() + expiresOn.getTime()` (`src/app/api/obsidian/notes/route.ts:99`,
  `src/app/api/obsidian/structure/route.ts:109`). That adds an absolute time to the
  current time, not a lifetime. `TokenRefresh.ExpiryOvershoots` shows the consequence.
- **The `.obsidian` folder in the structure listing.** The comment at
  `src/app/api/obsidian/structure/route.ts:151` says `.obsidian` is excluded, but no
  filter removes it. `VaultStructure.ObsidianKept` proves it stays. The notes route
  does skip it (`VaultNotes.ObsidianNotDescended`).
- **The session route's expired-token branch.** An expired token is documented as
  distinguishable from an invalid one. But the session route tests `JsonWebTokenError`
  before `TokenExpiredError`, and the first is a superclass of the second. The "Token
  expired" answer can therefore never be given
  (`SessionRoute.TokenExpiredBranchUnreachable`).
- **Token expiry in the two helpers.** A token is unexpired in `auth.utils.ts` while
  `exp * 1000 >= now`, and valid in `tokenUtils.ts` only while `exp * 1000 > now` with
  `exp` present (`TokenUtils.ValidityAgreement`).
- **The tenant in the authorization URL.** `GET /api/auth/microsoft` requires a tenant
  id but sends the user to the `common` authority. The login variant uses the tenant.
- **Task status.** The tasks route stores any status string it is sent. Only the form
  limits the choice to backlog, to do and in progress.
- **Creating a project.** The new-project form posts to `/api/projects`, but that route
  (`src/app/api/projects/route.ts`) defines only `GET`. The form's behaviour is
  modelled for both answers. The route itself is not part of this model.

## Model

| member | source | states |
|---|---|---|
| AuthUtils.ValidateEmailMatchesPattern | src/lib/auth.utils.ts:104-107 | `validateEmail` accepts exactly the strings the regular expression `^[^\s@]+@[^\s@]+\.[^\s@]+$` matches, in both directions |
| AuthUtils.EmailShape | src/lib/auth.utils.ts:104-107 | an email is accepted iff it has no whitespace, exactly one `@` that is not first, and a `.` strictly inside the part after the `@` |
| AuthUtils.ValidatePassword | src/lib/auth.utils.ts:109-114 | the error message is returned exactly when the password has fewer than 6 characters |
| AuthUtils.ExpiryBoundary | src/lib/auth.utils.ts:32-34 | a token with `exp` is expired iff `now >= exp*1000 + 1`; it is still valid at the millisecond `exp*1000`; once expired it stays expired |
| AuthUtils.GetStoredToken | src/lib/auth.utils.ts:13-16 | no window gives `null`; otherwise the stored value under `auth_token`, present exactly when the key is |
| AuthUtils.SaveToken | src/lib/auth.utils.ts:18-22 | the key `auth_token` now maps to the token; every other key is unchanged; reading it back gives the token |
| AuthUtils.ClearAuth | src/lib/auth.utils.ts:54-58 | the key is gone, every other key is kept, and reading gives nothing |
| AuthUtils.GetCurrentUser | src/lib/auth.utils.ts:42-52 | the user is the decoded claims exactly when a non-empty stored token decodes and has not expired; such a user is never expired; an invalid stored token is removed and nothing else changes |
| TokenUtils.Save | src/lib/tokenUtils.ts:14-16 | stores the token under the key, and `get` then returns it |
| TokenUtils.Get | src/lib/tokenUtils.ts:18-20 | the stored value, present exactly when the key is |
| TokenUtils.Remove | src/lib/tokenUtils.ts:22-24 | removes the key only, after which `get` returns nothing |
| TokenUtils.ValidityAgreement | src/lib/tokenUtils.ts:34-38 | every token `tokenUtils` accepts, `auth.utils` accepts too; they disagree exactly on decodable tokens with no `exp` or with `exp*1000 == now` |
| TokenUtils.GetCurrent | src/lib/tokenUtils.ts:40-48 | returns the decoded claims only for a valid stored token (whose `exp` is then in the future), and removes an invalid stored token |
| LocalStorage.Storage.GetItem | src/lib/auth.utils.ts:15 | `getItem` returns the value stored under the key, present exactly when the key is |
| LocalStorage.Storage.SetItem | src/lib/auth.utils.ts:20 | `setItem` maps the key to the value and keeps every other entry |
| LocalStorage.Storage.RemoveItem | src/lib/auth.utils.ts:56 | `removeItem` removes the key and keeps every other entry |
| ServerAuth.BearerToken | src/lib/serverAuth.ts:20-26 | a token is read iff the header is present and starts with `Bearer `, and the header is then exactly `Bearer ` followed by the token |
| ServerAuth.BearerTokenOfHeader | src/lib/serverAuth.ts:22-26 | reading the header `Bearer t` gives back `t` |
| ServerAuth.VerifyAuthToken | src/lib/serverAuth.ts:16-38 | no bearer token gives `null`; otherwise the claims when the verifier accepts, and `null` when it throws |
| ServerAuth.GetUserIdFromRequest | src/lib/serverAuth.ts:43-53 | `null` exactly when the token does not verify; otherwise `parseInt` of the `id` claim |
| ServerAuth.UserIdRoundTrip | src/lib/serverAuth.ts:43-53 | a token whose `id` claim is `String(n)` identifies the caller as `n`, and the caller counts as signed in iff `n != 0` |
| ServerAuth.NoBearerNoCaller | src/lib/serverAuth.ts:22-24 | without a `Bearer ` header there is never a signed-in caller |
| Js.ParseIntOfIntToString | src/lib/serverAuth.ts:52 | `parseInt(String(n)) == n` for every integer `n` |
| Js.ParseIntReadsDigitPrefix | src/lib/serverAuth.ts:52 | for every integer `n` and every text `rest` that does not start with a decimal digit, `parseInt(String(n) + rest) == n` (for `n == 0`, `rest` must not start with `x`/`X`, which would make a hexadecimal prefix) |
| Js.MagnitudeStops | src/lib/serverAuth.ts:52 | the magnitude read from a number's digits followed by a non-digit is that number |
| Js.ParseIntWithoutDigits | src/app/api/auth/microsoft/callback/route.ts:29-30 | `parseInt(s)` is `NaN` iff, after leading whitespace and one sign, `s` does not start with a decimal digit, or starts with `0x`/`0X` and no hexadecimal digit follows |
| Js.TrimBlank | src/app/dashboard/components/NewTaskForm.tsx:67 | `s.trim()` is empty iff `s` is all whitespace; otherwise it neither starts nor ends with whitespace |
| Js.TrimIdempotent | src/app/dashboard/projects/components/NewProjectForm.tsx:45-46 | trimming a trimmed string changes nothing |
| Js.ReplaceFirst | src/app/api/obsidian/structure/route.ts:159 | `replace` with a string pattern replaces its first occurrence only, and leaves a string without it unchanged |
| Js.IndexOf | src/app/api/obsidian/structure/route.ts:159 | the position of the first occurrence of the pattern, present exactly when the pattern occurs |
| Js.ToLowerAscii | src/app/dashboard/components/TaskList.tsx:36 | `toLowerCase` keeps the length and lowers each ASCII capital letter |
| Js.NatToString | src/app/api/auth/microsoft/route.ts:40 | the decimal digits of a number, with no leading zero except for 0 itself |
| Jwt.SignedClaims | src/app/api/auth/login/route.ts:57-65 | the signed claims carry the id, email and name; `iat` is the current second and `exp` is 24 hours later |
| LoginRoute.ClaimsFor | src/app/api/auth/login/route.ts:57-62 | the claims for a user are `String(id)`, the email and the name, and expire a day after they are issued |
| LoginRoute.Login | src/app/api/auth/login/route.ts:14-99 | a bad body gives 400 and missing fields give 400; login succeeds iff the email is known, the password matches its hash and signing succeeds; the token is then the signed claims of that user, and the user is returned without a hash; every error is 400, 401 or 500 |
| LoginRoute.UnknownEmailLikeWrongPassword | src/app/api/auth/login/route.ts:35-54 | an unknown email and a wrong password give the same 401 "Invalid email or password" answer |
| LoginRoute.RegisterThenLogin | src/app/api/auth/login/route.ts:31-54 | after a successful registration, logging in with the same email and password succeeds and returns the registered user |
| LoginRoute.LoginTokenIdentifiesUser | src/app/api/auth/login/route.ts:57-65 | the token returned by a login, sent as `Bearer`, identifies the caller as the logged-in user's id |
| SessionRoute.ClassifyError | src/app/api/auth/session/route.ts:37-65 | an error of the `JsonWebTokenError` family (which includes `TokenExpiredError`) is answered 401 "Invalid or expired token"; any other error is answered 500 "An error occurred while retrieving session" |
| SessionRoute.Get | src/app/api/auth/session/route.ts:10-65 | no bearer header gives 401; a token the verifier accepts returns its claims as the session, and a rejected one is answered as `ClassifyError` classifies the verifier's error; the session is returned iff the token verifies |
| SessionRoute.TokenExpiredBranchUnreachable | src/app/api/auth/session/route.ts:41-57 | the "Token expired" answer is never given; an expired token is answered as invalid or expired |
| RegisterRoute.Public | src/app/api/auth/register/route.ts:81-86 | the answer carries the id, name, email and creation time, and no password hash |
| RegisterRoute.CheckFields | src/app/api/auth/register/route.ts:17-51 | the body checks in order, before any lookup: a bad body 400 InvalidJsonBody, a missing field 400 MissingFields, an invalid email 400 InvalidEmail, a password under 6 characters 400 PasswordTooShort; accepted iff all four pass, with the body's three fields |
| RegisterRoute.CheckRegistration | src/app/api/auth/register/route.ts:17-65 | the checks in order: a bad body gives 400 InvalidJsonBody; a missing field 400 MissingFields; then an invalid email 400 InvalidEmail; then a password under 6 characters 400 PasswordTooShort; then a taken email 409 EmailTaken; a request is accepted iff it passes all five, with the body's three fields |
| RegisterRoute.StoreErrorResponse | src/app/api/auth/register/route.ts:109-126 | a store error mentioning a unique-constraint failure gives 409; any other gives 500 |
| RegisterRoute.Register | src/app/api/auth/register/route.ts:15-127 | the user table stays well formed; a body refused by the field checks is answered with that refusal; once they pass, a throwing email lookup is answered by the store-error handler before the 409 check; without it the refusals of `CheckRegistration` apply; then a throwing insert is answered by the store-error handler; registration succeeds iff the checks pass and neither store call throws, adding exactly one user under the next id with the hashed password and no Microsoft link; otherwise nothing changes |
| RegisterRoute.RegisterStoresOnlyHash | src/app/api/auth/register/route.ts:67-86 | a successful registration adds one new id, keeps every existing user, and stores the hash of the password, not the password |
| RegisterRoute.Post | src/app/api/auth/register/route.ts:15-127 | the store's user table becomes the one `Register` computes, the user id counter advances only on success, and projects and tasks are untouched |
| Store.FindUserByEmail | src/app/api/auth/register/route.ts:54-56 | finds a user iff one has the email, and returns that user's record |
| Store.FindUser | src/app/api/obsidian/connection-status/route.ts:21-28 | finds the user with the id iff there is one |
| Store.InsertUserWellFormed | src/app/api/auth/register/route.ts:72-78 | adding a user with a fresh id and an unused email keeps ids and emails unique |
| Store.ReplaceUserWellFormed | src/app/api/auth/microsoft/callback/route.ts:77-84 | updating a user without changing its email keeps ids and emails unique |
| SearchParams.Get | src/app/api/auth/microsoft/callback/route.ts:11-14 | `get` returns the first value paired with the name, present exactly when the name occurs |
| SearchParams.SetParamNamed | src/app/api/auth/microsoft/route.ts:35-40 | after `set`, the name occurs exactly once, with the new value; every other name keeps its values in order |
| SearchParams.SetThenGet | src/app/api/auth/microsoft/route.ts:35-40 | `get` after `set` returns the value set |
| SearchParams.UrlSearchParams.Set | src/app/api/auth/microsoft/route.ts:35 | `searchParams.set` replaces the parameter list with the list `set` specifies |
| SearchParams.UrlSearchParams.Append | src/app/api/auth/microsoft/login/route.ts:42 | `searchParams.append` adds the pair at the end |
| SearchParams.GetDistinct | src/app/api/auth/microsoft/callback/route.ts:11-14 | in a query whose names are distinct, `get` of each name finds its own value |
| SearchParams.ParseSerialize | src/app/api/auth/microsoft/callback/route.ts:50-63 | parsing a serialized parameter list gives the list back, pair for pair, in order |
| SearchParams.ParseHref | src/app/api/auth/microsoft/route.ts:42 | the query of a URL's `href` parses back to the URL's parameters |
| UrlEncoding.FormEncode | src/app/api/auth/microsoft/route.ts:42 | the form serialization of a name or value contains only unreserved characters, `+` and `%` |
| UrlEncoding.FormDecodeEncode | src/app/api/auth/microsoft/callback/route.ts:50-63 | form-decoding a form-encoded string gives the string back |
| UrlEncoding.EncodeUriComponent | src/app/api/auth/microsoft/callback/route.ts:19 | `encodeURIComponent` leaves only the characters it keeps and `%` escapes |
| UrlEncoding.UriComponentDecodeEncode | src/app/api/auth/microsoft/callback/route.ts:19 | `decodeURIComponent(encodeURIComponent(s)) == s` |
| UrlEncoding.Utf8 | src/app/api/auth/microsoft/callback/route.ts:19 | a character is encoded as 1 to 4 bytes, with continuation bytes in `0x80..0xBF`; one byte exactly for ASCII |
| UrlEncoding.Utf8RoundTrip | src/app/api/auth/microsoft/callback/route.ts:19 | decoding the UTF-8 bytes of a character gives the character back |
| UrlEncoding.PercentBytes | src/app/api/auth/microsoft/callback/route.ts:19 | each byte becomes three characters, `%` and two hexadecimal digits |
| MicrosoftInitiate.SetsAppend | src/app/api/auth/microsoft/route.ts:34-40 | the six `set` calls on an empty list append the six parameters in order |
| MicrosoftInitiate.BuildAuthorizationUrl | src/app/api/auth/microsoft/route.ts:34-42 | the URL built by the `set` calls is the `common` authorize endpoint with the six parameters |
| MicrosoftInitiate.Get | src/app/api/auth/microsoft/route.ts:9-50 | no signed-in caller gives 401; missing client or tenant id gives 500; otherwise the authorization URL for the caller |
| MicrosoftInitiate.DistinctNames | src/app/api/auth/microsoft/route.ts:35-40 | the six parameter names are distinct |
| MicrosoftInitiate.AuthorizationUrlParses | src/app/api/auth/microsoft/route.ts:34-42 | the URL's query parses back to the parameters, each name once; `state` is `String(userId)`, which `parseInt` turns back into the id |
| MicrosoftLogin.ScopesJoined | src/app/api/auth/microsoft/login/route.ts:34-38 | the joined scope list is the same scope string the other initiation route sends |
| MicrosoftLogin.BuildLoginUrl | src/app/api/auth/microsoft/login/route.ts:41-50 | the URL built by the `append` calls is the tenant's authorize endpoint with the six parameters |
| MicrosoftLogin.Get | src/app/api/auth/microsoft/login/route.ts:10-57 | no signed-in caller gives 401; missing client or tenant id gives 500; otherwise a redirect to the login URL for the caller |
| MicrosoftLogin.DistinctNames | src/app/api/auth/microsoft/login/route.ts:42-47 | the six appended names are distinct, so `append` behaves as `set` |
| MicrosoftLogin.LoginUrlParses | src/app/api/auth/microsoft/login/route.ts:41-50 | the query parses back to the parameters, and `state` is the caller's id |
| MicrosoftLogin.SameParamsAsInitiate | src/app/api/auth/microsoft/login/route.ts:42-47 | both initiation routes send the same parameters; only their order and the authority differ |
| MicrosoftCallback.Linked | src/app/api/auth/microsoft/callback/route.ts:77-84 | a link changes only the three Microsoft fields; the expiry is `now + expires_in*1000`, and a token missing from the answer leaves the stored one |
| MicrosoftCallback.Link | src/app/api/auth/microsoft/callback/route.ts:77-95 | the link succeeds iff the user exists and the store does not throw, and then updates that user only; otherwise it redirects with `oauth_callback_failed` and changes nothing |
| MicrosoftCallback.Callback | src/app/api/auth/microsoft/callback/route.ts:9-96 | the checks in order: a provider `error` redirects with it URI-encoded; then a missing code or state gives `missing_code_or_state`; then a state that parses to `NaN` gives `invalid_state`; otherwise the outcome is `Exchange` for the parsed id; every error leaves the users unchanged and the user ids never change |
| MicrosoftCallback.Exchange | src/app/api/auth/microsoft/callback/route.ts:36-95 | missing client id, tenant or secret gives `oauth_not_configured`; a non-2xx token response gives `token_exchange_failed`; a throwing request, an unknown user or a failing update gives `oauth_callback_failed`; otherwise the redirect is `microsoft_connected=true` and only that user changes, to the returned tokens |
| MicrosoftCallback.Get | src/app/api/auth/microsoft/callback/route.ts:9-96 | the redirect location and the new user table are those `Callback` computes; projects and tasks are untouched |
| MicrosoftCallback.ErrorCarried | src/app/api/auth/microsoft/callback/route.ts:16-21 | the `error` in the redirect decodes back to the provider's error |
| MicrosoftCallback.ExchangeBodyParses | src/app/api/auth/microsoft/callback/route.ts:50-64 | the token request body parses back to its five fields, in order |
| MicrosoftCallback.ExchangeBodyFields | src/app/api/auth/microsoft/callback/route.ts:50-56 | the body carries `grant_type=authorization_code` and the code received |
| MicrosoftCallback.ExchangeNamesDistinct | src/app/api/auth/microsoft/callback/route.ts:50-56 | the five field names are distinct |
| MicrosoftCallback.InitiatedState | src/app/api/auth/microsoft/route.ts:40 | the `state` the initiation route sends is the caller's id as a string |
| MicrosoftCallback.CodeAndState | src/app/api/auth/microsoft/callback/route.ts:11-14 | a callback query carrying a code and a state yields both, and no error |
| MicrosoftCallback.StateLinksInitiatingUser | src/app/api/auth/microsoft/callback/route.ts:29-84 | a callback with a code and the state the initiation route sent links the account of the user who started it, and only that user |
| MicrosoftCallback.CallbackExchanges | src/app/api/auth/microsoft/callback/route.ts:11-34 | without an error, and with a code and a state that parses to an id, the callback is the exchange for that id |
| MicrosoftCallback.ExchangeLinks | src/app/api/auth/microsoft/callback/route.ts:36-84 | with the credentials configured and a successful exchange, the user is linked to the returned tokens |
| MicrosoftDisconnect.Unlinked | src/app/api/auth/microsoft/disconnect/route.ts:22-29 | the three Microsoft fields become `null` and nothing else changes |
| MicrosoftDisconnect.Disconnect | src/app/api/auth/microsoft/disconnect/route.ts:10-38 | no signed-in caller gives 401 with no change; success iff the store does not throw and the user exists, and then only that user is unlinked; otherwise 500 with no change |
| MicrosoftDisconnect.Post | src/app/api/auth/microsoft/disconnect/route.ts:10-38 | the response and the new user table are those `Disconnect` computes; nothing else changes |
| MicrosoftDisconnect.DisconnectIdempotent | src/app/api/auth/microsoft/disconnect/route.ts:22-31 | disconnecting twice gives the same answer and table as once |
| MicrosoftDisconnect.DisconnectUndoesLink | src/app/api/auth/microsoft/disconnect/route.ts:22-29 | unlinking a linked user gives what unlinking the user before the link gives |
| ConnectionStatus.GetStatus | src/app/api/obsidian/connection-status/route.ts:10-43 | no signed-in caller gives 401 and a throwing store gives 500; otherwise the answer is a status (never an error), with `connected: true` iff the user exists with both a refresh and an access token |
| ConnectionStatus.DisconnectedReadsDisconnected | src/app/api/obsidian/connection-status/route.ts:30-33 | after a successful disconnect, the status is `connected: false` |
| ConnectionStatus.LinkedReadsConnected | src/app/api/obsidian/connection-status/route.ts:30-33 | after a callback that links both tokens, the status is `connected: true` |
| TasksRoute.CreateTask | src/app/api/tasks/route.ts:11-89 | 401 without a caller, 400 for a bad body or a missing title or project id, 404 iff the project id parses but names no project; on success, exactly the new task is added under the next id, with the sent title, project, description (or `null`) and status (default `todo`), assigned to the caller; otherwise nothing changes |
| TasksRoute.Post | src/app/api/tasks/route.ts:11-89 | the response and the task table are those `CreateTask` computes; the task counter advances only on success |
| TasksRoute.CreatesExactlyOne | src/app/api/tasks/route.ts:48-66 | a creation adds exactly one task, under a fresh id, and keeps every existing task |
| TasksRoute.StatusStoredAsSent | src/app/api/tasks/route.ts:50-53 | the stored status is the one sent, or `todo` when the empty string is sent |
| TokenRefresh.Refreshed | src/app/api/obsidian/notes/route.ts:95-101 | a stored refresh changes only the access token and the expiry |
| TokenRefresh.AccessToken | src/app/api/obsidian/notes/route.ts:67-114 | an unexpired token, or no refresh token, is used as stored with no write; the refresh fails iff it throws, or it succeeds and the write throws |
| TokenRefresh.RefreshStored | src/app/api/obsidian/notes/route.ts:86-101 | a successful refresh returns the new access token and stores it with its expiry |
| TokenRefresh.RefreshSettles | src/app/api/obsidian/notes/route.ts:70-71 | before the stored expiry, the next request uses the refreshed token without refreshing again |
| TokenRefresh.ExpiryOvershoots | src/app/api/obsidian/notes/route.ts:99 | the stored expiry exceeds the provider's `expiresOn` by the whole current time, so the token counts as fresh after the provider's expiry |
| Sorting.Insert | src/app/api/obsidian/notes/route.ts:178-180 | inserting keeps every element: the result is a permutation of the list plus the element |
| Sorting.SortBy | src/app/api/obsidian/notes/route.ts:178-180 | the sorted list is a permutation of the input |
| Sorting.SortBySorted | src/app/api/obsidian/notes/route.ts:178-180 | for a total preorder, the result is sorted |
| VaultNotes.FetchMarkdownFiles | src/app/api/obsidian/notes/route.ts:128-168 | the loop that pushes into `mdFiles` and recurses into folders computes `Collect` of the listing |
| VaultNotes.CollectIsMarkdownOfVisited | src/app/api/obsidian/notes/route.ts:128-168 | the walk rejects iff some request it makes throws (a non-2xx listing contributes nothing); otherwise it returns, in walk order, the `.md` items among the visited ones |
| VaultNotes.CollectEntryIsMarkdown | src/app/api/obsidian/notes/route.ts:148-165 | one entry contributes its own `.md` item, or the markdown of the folder it opens |
| VaultNotes.ObsidianNotDescended | src/app/api/obsidian/notes/route.ts:149-152 | the contents of a `.obsidian` folder do not affect the result |
| VaultNotes.CollectedAreMarkdown | src/app/api/obsidian/notes/route.ts:154-157 | every collected item's name ends in `.md`, and none is `.obsidian` |
| VaultNotes.Markdown | src/app/api/obsidian/notes/route.ts:155-157 | keeps only items whose name ends in `.md`, taken from the input |
| VaultNotes.NewerFirstOrders | src/app/api/obsidian/notes/route.ts:178-180 | newest-first by modification time is a total preorder |
| VaultNotes.SelectionIsNewest | src/app/api/obsidian/notes/route.ts:177-184 | the selection has `min(n, 5)` files drawn from the input, newest first, and none left out is newer than one selected |
| VaultNotes.TagsOf | src/app/api/obsidian/notes/route.ts:202-209 | a tag list is kept, a non-empty tag string becomes a one-element list, and anything else gives no tags |
| VaultNotes.TitleOf | src/app/api/obsidian/notes/route.ts:213 | the title is the name without one trailing `.md`, and the whole name otherwise |
| VaultNotes.TitleOfMarkdownName | src/app/api/obsidian/notes/route.ts:213 | the title of `t.md` is `t`, and only one `.md` is removed |
| VaultNotes.Notes | src/app/api/obsidian/notes/route.ts:183-225 | there are never more notes than selected files |
| VaultNotes.NotesAllDownloaded | src/app/api/obsidian/notes/route.ts:183-225 | when every download succeeds, there is one note per file, in order |
| VaultNotes.NotesDropFailed | src/app/api/obsidian/notes/route.ts:191-194 | a failed download leaves the other notes and their order unchanged |
| VaultNotes.GetNotes | src/app/api/obsidian/notes/route.ts:20-238 | the checks in order: 401 without a caller; a throwing store gives FetchFailed; no user or refresh token gives NotConnected with `needsAuth`; missing OAuth settings or vault path give NotConfigured before any refresh; a failed refresh gives TokenExpired with `needsAuth` and no write; no access token gives NoAccessToken with `needsAuth`; a failed listing gives FetchFailed; a listed answer is the newest-first selection of the vault's notes, at most five, downloaded; a change to the user table only refreshes the caller's access token and expiry |
| VaultNotes.Get | src/app/api/obsidian/notes/route.ts:20-238 | the response and user table are those `GetNotes` computes; nothing else changes |
| VaultNotes.NoRefreshTokenNeedsAuth | src/app/api/obsidian/notes/route.ts:42-51 | a caller without a refresh token gets "not connected" with `needsAuth`, and no change |
| VaultNotes.FreshTokenUsed | src/app/api/obsidian/notes/route.ts:67-73 | with an unexpired token, the notes are those of the vault's newest markdown files, and nothing is written |
| VaultStructure.EntryOf | src/app/api/obsidian/structure/route.ts:154-162 | an entry is a folder iff the item is, keeps id, name and time, and has the path with `/drive/root:` removed |
| VaultStructure.Entries | src/app/api/obsidian/structure/route.ts:152-162 | the filter and map give at most one entry per item |
| VaultStructure.FoldersFirstOrders | src/app/api/obsidian/structure/route.ts:163-168 | folders-first-then-name is a total preorder for every collation |
| VaultStructure.StructureIsPermutation | src/app/api/obsidian/structure/route.ts:152-168 | the sorted structure holds each entry of the filtered listing exactly as often as it occurs |
| VaultStructure.StructureOrdered | src/app/api/obsidian/structure/route.ts:163-168 | no file comes before a folder, and entries of one kind are in collation order |
| VaultStructure.ObsidianKept | src/app/api/obsidian/structure/route.ts:151-153 | a `.obsidian` folder in the listing appears in the structure |
| VaultStructure.PathUnderDriveRoot | src/app/api/obsidian/structure/route.ts:158-160 | an item under `/drive/root:f` gets the path `f/name` |
| VaultStructure.GetStructure | src/app/api/obsidian/structure/route.ts:30-177 | the checks in order: 401 without a caller; a throwing store gives 500; no user or refresh token gives 200 with `needsAuth`; no vault path gives 500; a needed refresh without OAuth settings gives 500; a failed refresh gives TokenExpired with `needsAuth`; no access token gives `needsAuth`; a throwing listing gives 500 and a non-2xx one 200 with its status; a listed structure is exactly the folders-first sort of the listing's entries, a permutation of them; a change to the user table only refreshes the caller's token |
| VaultStructure.Get | src/app/api/obsidian/structure/route.ts:30-177 | the response and user table are those `GetStructure` computes; nothing else changes |
| VaultStructure.FreshTokenNeedsNoOAuthConfig | src/app/api/obsidian/structure/route.ts:71-82 | with an unexpired token and a vault path, the listing succeeds without client credentials |
| VaultStructure.NotOkReported | src/app/api/obsidian/structure/route.ts:139-146 | a failed listing is reported with status 200 and its HTTP status in the message |
| KanbanBoard.Find | src/app/dashboard/components/KanbanBoard.tsx:65 | `find` returns the first task with the id, present exactly when one exists |
| KanbanBoard.WithStatus | src/app/dashboard/components/KanbanBoard.tsx:84-86 | the tasks with the id take the new status, and every other task is kept in place |
| KanbanBoard.ByStatus | src/app/dashboard/components/KanbanBoard.tsx:130-132 | a column holds exactly the tasks with its status |
| KanbanBoard.ByStatusCounts | src/app/dashboard/components/KanbanBoard.tsx:130-132 | as multisets, a column is the tasks with its status, every copy of each kept |
| KanbanBoard.ByStatusAppend | src/app/dashboard/components/KanbanBoard.tsx:130-132 | the filter distributes over concatenation, so a column keeps the list's order |
| KanbanBoard.ColumnsPartition | src/app/dashboard/components/KanbanBoard.tsx:41-46 | a task is in a column iff its status is that column's id, so it shows iff its status is one of the four columns |
| KanbanBoard.RevertRestores | src/app/dashboard/components/KanbanBoard.tsx:94-98 | with unique ids, setting a task's status back to the old one restores the board exactly |
| KanbanBoard.Board.constructor | src/app/dashboard/components/KanbanBoard.tsx:52-53 | the board starts with the initial tasks and no active task |
| KanbanBoard.Board.DragStart | src/app/dashboard/components/KanbanBoard.tsx:63-69 | the dragged task becomes active when it is found; nothing else changes |
| KanbanBoard.Board.Drop | src/app/dashboard/components/KanbanBoard.tsx:71-106 | the active task is cleared; a drop on nothing or on the task's own status changes nothing; otherwise the task moves at once to the new status, and is moved back without a token; with a token one patch is sent and the pending request remembers the status to revert to |
| KanbanBoard.Board.Settle | src/app/dashboard/components/KanbanBoard.tsx:108-127 | a successful answer keeps the board and notifies the listener if there is one; a failed or thrown one moves the task back to its status at the drop, on the board as it is when the answer arrives |
| KanbanBoard.Board.DragEnd | src/app/dashboard/components/KanbanBoard.tsx:71-128 | `Drop` then `Settle` with nothing in between: a drop on its own column or on nothing changes nothing; without a token the update is reverted; otherwise one patch is sent, a success keeps the new status and notifies the listener, and a failure reverts |
| TaskList.ProjectColorIgnoresCase | src/app/dashboard/components/TaskList.tsx:29-38 | the two known projects get their colours whatever their letter case; every other name gets the default |
| TaskList.ByStatus | src/app/dashboard/components/TaskList.tsx:101-103 | a section holds exactly the tasks with its status |
| TaskList.SectionsShow | src/app/dashboard/components/TaskList.tsx:138-163 | a task is shown iff its status is in progress, to do or backlog, and then under the matching title; done tasks never show |
| TaskList.Without | src/app/dashboard/components/TaskList.tsx:84 | removing a task keeps exactly the tasks with another id |
| TaskList.WithoutCounts | src/app/dashboard/components/TaskList.tsx:84 | as multisets, the remaining list is the tasks with another id, every copy of each kept |
| TaskList.WithoutAppend | src/app/dashboard/components/TaskList.tsx:84 | the removal distributes over concatenation, so the other tasks keep their order |
| TaskList.WithoutIdempotent | src/app/dashboard/components/TaskList.tsx:84 | removing the same task twice is the same as once |
| TaskList.List.constructor | src/app/dashboard/components/TaskList.tsx:41-42 | the list starts with the initial tasks and nothing completing |
| TaskList.List.BeginComplete | src/app/dashboard/components/TaskList.tsx:46 | the task is marked as completing and nothing else changes |
| TaskList.List.SettleComplete | src/app/dashboard/components/TaskList.tsx:48-98 | the mark is cleared; without a token nothing is sent; otherwise one request is sent, and the task is removed iff it succeeds |
| TaskList.List.CompleteTask | src/app/dashboard/components/TaskList.tsx:44-99 | the whole handler: the task is removed iff a token is stored and the request succeeds, and the completing mark is cleared in every case |
| FormRequests.FailureMessage | src/lib/authApi.ts:49-52 | a failed answer shows the server's error message when it has one and the fallback otherwise; a thrown error shows its message |
| RegisterForm.RegisterCheck | src/components/forms/RegisterForm.tsx:23-36 | the checks in order: all fields required, then matching passwords, then at least 6 characters; the form proceeds iff all pass |
| RegisterForm.RouteRefusesOnlyForEmail | src/components/forms/RegisterForm.tsx:23-41 | what the form lets through, the route refuses only for an invalid or taken email |
| RegisterForm.NoClientEmailCheck | src/components/forms/RegisterForm.tsx:23-36 | the form lets through an email the route rejects |
| RegisterForm.Form.constructor | src/components/forms/RegisterForm.tsx:11-16 | empty fields, no error, not loading |
| RegisterForm.Form.Validate | src/components/forms/RegisterForm.tsx:21-38 | the error is the first failed check, or cleared; loading starts iff all checks pass |
| RegisterForm.Form.Send | src/components/forms/RegisterForm.tsx:40-49 | the request is sent; success redirects to the login page and failure shows the failure message; loading ends |
| RegisterForm.Form.Submit | src/components/forms/RegisterForm.tsx:19-50 | the whole handler: a failed check shows its message and sends nothing; otherwise one request, then the redirect or the message |
| NewTaskForm.TaskCheckOrder | src/app/dashboard/components/NewTaskForm.tsx:67-75 | a blank title is refused first, a missing project second, and nothing else is refused |
| NewTaskForm.TaskBodyDescription | src/app/dashboard/components/NewTaskForm.tsx:94-99 | the description is `null` iff it is blank, and is trimmed otherwise |
| NewTaskForm.StoredAsEntered | src/app/dashboard/components/NewTaskForm.tsx:94-99 | the tasks route stores what the form sends for a chosen project: the trimmed title and description, the project, the status, assigned to the caller |
| NewTaskForm.ChosenProjectBody | src/app/dashboard/components/NewTaskForm.tsx:94-99 | the body has a non-empty trimmed title and the project as a number |
| NewTaskForm.OfferedStatusesListed | src/app/dashboard/components/NewTaskForm.tsx:187-189 | every status the form offers is one the task list shows |
| NewTaskForm.DefaultOffered | src/app/dashboard/components/NewTaskForm.tsx:22 | the default status `todo` is offered, and `done` is not |
| NewTaskForm.Form.constructor | src/app/dashboard/components/NewTaskForm.tsx:19-26 | empty fields, status `todo`, projects loading |
| NewTaskForm.Form.LoadProjects | src/app/dashboard/components/NewTaskForm.tsx:29-61 | loading ends; no token gives "No auth token found"; success shows the returned projects; failure shows the load error |
| NewTaskForm.Form.Validate | src/app/dashboard/components/NewTaskForm.tsx:65-77 | the error is cleared or set to the failed check; loading starts iff the checks pass |
| NewTaskForm.Form.Send | src/app/dashboard/components/NewTaskForm.tsx:79-114 | no token gives "No auth token found" and sends nothing; otherwise the body is sent, success calls `onSuccess`, and failure shows the server's message or "Failed to create task"; loading ends |
| NewTaskForm.Form.Submit | src/app/dashboard/components/NewTaskForm.tsx:63-115 | the whole handler: a failed check shows its message and sends nothing; without a token nothing is sent; otherwise one body is sent and the answer's message or success follows; `onSuccess` runs exactly once when the checks pass, a token is stored and the answer is ok, and never otherwise |
| NewProjectForm.ProjectCheckBlank | src/app/dashboard/projects/components/NewProjectForm.tsx:22-25 | a name is refused exactly when it is blank |
| NewProjectForm.ProjectBodyShape | src/app/dashboard/projects/components/NewProjectForm.tsx:44-47 | a name that passes is non-empty with no surrounding whitespace; the description is `null` iff it is blank |
| NewProjectForm.ProjectBodyStable | src/app/dashboard/projects/components/NewProjectForm.tsx:44-47 | entering a posted body's own values again posts the same body |
| NewProjectForm.Form.constructor | src/app/dashboard/projects/components/NewProjectForm.tsx:13-16 | empty fields, no error, not loading |
| NewProjectForm.Form.Validate | src/app/dashboard/projects/components/NewProjectForm.tsx:20-27 | the error is cleared or set to "Project name is required"; loading starts iff the name passes |
| NewProjectForm.Form.Send | src/app/dashboard/projects/components/NewProjectForm.tsx:29-62 | no token gives "No auth token found" and sends nothing; otherwise the body is sent, success calls `onSuccess`, and failure shows the server's message or "Failed to create project"; loading ends |
| NewProjectForm.Form.Submit | src/app/dashboard/projects/components/NewProjectForm.tsx:18-63 | the whole handler: a blank name shows its message and sends nothing; without a token nothing is sent; otherwise one body is sent and the answer's message or success follows; `onSuccess` runs exactly once when the name is set, a token is stored and the answer is ok, and never otherwise |

## Left out

- Rendering, styling, JSX and drag-and-drop sensors and overlays: the pure UI components have no state to state anything about.
- `GET /api/auth/login` uses next-auth's `getServerSession`, a foreign library. It is not part of this model.
- Token decoding (`jwtDecode`) and signature checking (`jwt.verify`, `jwt.sign`) are function parameters. Only the claims that are signed and the error classes are modelled.
- Password hashing (`bcrypt.hash` and `bcrypt.compare`) is a pair of function parameters. `PasswordHash.Sound` states that comparing a password with its own hash succeeds.
- Network I/O is an outcome parameter, not a call: the Graph API, the MSAL refresh, the token endpoint and the file downloads. The request paths and Graph URLs (the vault `folderPath`) are not modelled, and the answer does not depend on the access token.
- `Promise.all` over the downloads is sequential in the model. Its results keep the input order, which is all the route uses.
- The caller's 300 ms `setTimeout` in `TaskList` is left out. The removal is modelled as the state after it fires.
- Concurrent requests that refresh the same user's token are not modelled. Each request runs to completion against the tables.
- `localeCompare` is a collation parameter (a rank per name). Two names of equal rank keep their input order, because `Array.prototype.sort` is stable.
- Dates are integers in milliseconds. `Date` parsing and `toLocaleString` are left out.
- gray-matter front-matter parsing is part of the download outcome. Only its `tags` value is modelled.
- A JSON parse failure is one `InvalidJson` case. The task-creation body carries JSON scalars (null, booleans, numbers, strings) in its fields.
- TasksRoute.CreateTask: an array or object in a body field is not modelled. Such a value is always truthy. A `projectId` like `["5"]` converts to the text `5`, so the source finds the project and creates the task; an empty array or an object converts to `NaN`, and the lookup throws, answered 500. An array or object `title`, `description` or `status` makes the store's insert throw, answered 500.
- RegisterRoute.CheckFields, RegisterRoute.Register and LoginRoute.Login: body fields are strings or absent. A number, boolean, array or object in a field is not modelled. In the source a numeric password passes the length check, because `undefined < 6` is false. Registration then answers 409 for a taken email, or 500 when `bcrypt.hash` rejects the number. A non-string email reaching Prisma's lookup throws, answered 500 by both routes.
- `bcrypt.hash` throwing during registration is not modelled; only the store's lookup and insert can fail.
- KanbanBoard.Board.Drop: `over` is the dropped-on id as text. When a card lands on another card, the source takes that card's numeric id as the new status. The task then leaves every column, and the body sent is `{status: <number>}`, which the task route refuses with 400. The model covers this as `over = Some(IntToString(id))` followed by `Settle` with `PatchNotOk`, but its patch carries the id as text where the source sends a number.
- JavaScript numbers are unbounded integers: doubles, `NaN` arithmetic and Prisma's 32-bit `Int` columns are not modelled. `parseInt` is exact.
- String length is counted in characters, not UTF-16 code units. This only matters for the 6-character password rule.
- `toLowerCase` lowers ASCII letters only. `getProjectColor` compares against two ASCII names, so other letters matter only for names that would not match anyway. Inherited keys of `PROJECT_COLORS` such as `constructor` are not modelled.
- `undefined` and `null` are one `None`. The `tokenUtils` helpers always have a window, because they are only called in the browser.
- A token answer without `expires_in` is not modelled. The callback's expiry assumes the number is present.
- A form's `.json()` failure is the `AnswerThrows` outcome. An `errorData.error` that is not a string is not modelled.
- Exceptions thrown by `onSuccess` or `onTaskUpdate` callbacks are not modelled.
- Typing into the form fields is not modelled. The handlers read the current field values.
- `console` logging is left out.
- `new URL` re-encodes the apostrophes that `encodeURIComponent` leaves in a provider `error`: the callback redirects to `error=a%27b` where `MicrosoftCallback.Location` gives `error=a'b`. Both decode to the same text.
- The callback awaits `tokenResponse.text()` on a non-2xx answer, and the structure route awaits `response.text()` on a non-2xx listing. A throw there is not modelled: it would give `oauth_callback_failed` or a 500 where the model gives `token_exchange_failed` or the status message.
- A JSON body that is the literal `null` makes the destructuring in register, login and task creation throw a `TypeError`, answered with 500. The model's bodies are an object or invalid JSON. A number, string or boolean body destructures to absent fields, which is the model's all-absent object.
- `MicrosoftLogin` places the tenant id in the URL path as written. A tenant id containing `?`, `#` or `/` would change how `new URL` splits the URL; that is not modelled.
- The page redirect gates, the query-only routes (`src/app/api/tasks/my-tasks/route.ts`, `src/app/api/projects/route.ts`), the debug route, the fetch wrappers in `src/lib/authApi.ts`, the Prisma client and `LoginForm` are not part of this model.
- NewTaskForm.Form.Submit and NewProjectForm.Form.Submit: the loading state between the checks and the answer is stated only by the `Validate` phase. The whole-handler contract gives the final state.
