/**
 * `GET /api/obsidian/structure` (`src/app/api/obsidian/structure/route.ts`): the
 * items at the top of the vault folder, folders first and then by name.
 */
module VaultStructure {
  import opened Wrappers
  import opened Js
  import opened Store
  import opened Drive
  import opened Sorting
  import opened TokenRefresh
  import opened Environment
  import ServerAuth

  datatype Kind = Folder | File

  /** One `FolderStructure` of the response. */
  datatype StructureEntry = StructureEntry(id: string, name: string, kind: Kind, path: string, lastModified: int)

  const DriveRootPrefix: string := "/drive/root:"

  /** `item.folder || item.file`: items with neither facet are dropped. */
  predicate HasFacet(item: DriveItem) {
    item.folder || item.file
  }

  /**
   * The item's path: its parent path with the first `/drive/root:` taken out,
   * then `/` and its name; just the name when there is no parent path.
   */
  function PathOf(item: DriveItem): string {
    if Truthy(item.parentPath) then ReplaceFirst(item.parentPath.value, DriveRootPrefix, "") + "/" + item.name
    else item.name
  }

  function EntryOf(item: DriveItem): (e: StructureEntry)
    ensures e.kind == Folder <==> item.folder
    ensures e.id == item.id && e.name == item.name && e.lastModified == item.lastModified
    ensures e.path == PathOf(item)
  {
    StructureEntry(item.id, item.name, if item.folder then Folder else File, PathOf(item), item.lastModified)
  }

  /** `items.filter(...).map(...)`. */
  function Entries(items: seq<DriveItem>): (es: seq<StructureEntry>)
    ensures |es| <= |items|
  {
    if items == [] then []
    else (if HasFacet(items[0]) then [EntryOf(items[0])] else []) + Entries(items[1..])
  }

  /**
   * The comparator: a folder before a file, and otherwise `localeCompare` on the
   * names, given by `collation`, a rank for each name (equal ranks compare equal).
   */
  function FoldersFirst(collation: string -> int): (StructureEntry, StructureEntry) -> bool {
    (a: StructureEntry, b: StructureEntry) =>
      (a.kind == Folder && b.kind == File) || (a.kind == b.kind && collation(a.name) <= collation(b.name))
  }

  lemma FoldersFirstOrders(collation: string -> int)
    ensures TotalPreorder(FoldersFirst(collation))
  {
    var le := FoldersFirst(collation);
    forall a: StructureEntry, b: StructureEntry
      ensures le(a, b) || le(b, a)
    {
      if a.kind != b.kind {
        assert (a.kind == Folder && b.kind == File) || (b.kind == Folder && a.kind == File);
      }
    }
    forall a: StructureEntry, b: StructureEntry, c: StructureEntry | le(a, b) && le(b, c)
      ensures le(a, c)
    {
    }
  }

  /** The `structure` the route returns for the items of the vault folder. */
  function Structure(items: seq<DriveItem>, collation: string -> int): seq<StructureEntry> {
    SortBy(Entries(items), FoldersFirst(collation))
  }

  /** Every item with a facet appears, once per occurrence; nothing else appears. */
  lemma StructureIsPermutation(items: seq<DriveItem>, collation: string -> int)
    ensures multiset(Structure(items, collation)) == multiset(Entries(items))
  {
  }

  /** Every folder precedes every file, and within a kind the names ascend by collation. */
  lemma StructureOrdered(items: seq<DriveItem>, collation: string -> int)
    ensures var s := Structure(items, collation);
      forall i, j | 0 <= i < j < |s| ::
        && !(s[i].kind == File && s[j].kind == Folder)
        && (s[i].kind == s[j].kind ==> collation(s[i].name) <= collation(s[j].name))
  {
    FoldersFirstOrders(collation);
    SortBySorted(Entries(items), FoldersFirst(collation));
  }

  lemma {:induction false} EntriesContains(items: seq<DriveItem>, k: nat)
    requires k < |items| && HasFacet(items[k])
    ensures EntryOf(items[k]) in Entries(items)
  {
    if k > 0 {
      EntriesContains(items[1..], k - 1);
    }
  }

  /**
   * Nothing is excluded by name: an item called `.obsidian` with a facet is in the
   * structure like any other.
   */
  lemma ObsidianKept(items: seq<DriveItem>, collation: string -> int, k: nat)
    requires k < |items| && items[k].name == ".obsidian" && HasFacet(items[k])
    ensures exists e | e in Structure(items, collation) :: e.name == ".obsidian" && (e.kind == Folder <==> items[k].folder)
  {
    EntriesContains(items, k);
    StructureIsPermutation(items, collation);
    assert EntryOf(items[k]) in multiset(Structure(items, collation));
  }

  /** A parent path under the drive root loses exactly that prefix. */
  lemma PathUnderDriveRoot(item: DriveItem, folder: string)
    requires item.parentPath == Some(DriveRootPrefix + folder)
    ensures PathOf(item) == folder + "/" + item.name
  {
    var p := DriveRootPrefix + folder;
    assert p[..|DriveRootPrefix|] == DriveRootPrefix;
    assert StartsWith(p, DriveRootPrefix);
    assert IndexOf(p, DriveRootPrefix) == Some(0);
    assert p[|DriveRootPrefix|..] == folder;
  }

  // ---------------------------------------------------------------------------
  // The route
  // ---------------------------------------------------------------------------

  const Unauthorized: string := "Unauthorized"
  const NotConnected: string := "Microsoft account not connected"
  const VaultNotConfigured: string := "Vault path not configured"
  const OAuthNotConfigured: string := "OAuth not configured"
  const TokenExpired: string := "Token expired, please reconnect"
  const NoAccessToken: string := "No valid access token"
  const FetchFailed: string := "Failed to fetch vault structure"

  /** `needsAuth` is whether the body carries `needsAuth: true`. */
  datatype StructureResponse =
    | StructureError(status: int, error: string, needsAuth: bool)
    | StructureListed(structure: seq<StructureEntry>)

  datatype StructureResult = StructureResult(response: StructureResponse, users: map<int, User>)

  /**
   * The handler. `vault` answers the listing of the vault folder; `readFault` and
   * `writeFault` say whether the store's lookup and update throw.
   */
  function GetStructure(caller: Option<JsNumber>, env: Env, users: map<int, User>, refresh: string -> RefreshOutcome,
                        vault: Listing, collation: string -> int, now: int,
                        readFault: bool, writeFault: bool): (r: StructureResult)
    requires UsersWellFormed(users)
    ensures UsersWellFormed(r.users) && r.users.Keys == users.Keys
    ensures !ServerAuth.Authenticated(caller) ==> r == StructureResult(StructureError(401, Unauthorized, false), users)
    ensures r.response.StructureListed? ==>
      && vault.Listed?
      && var items := seq(|vault.entries|, k requires 0 <= k < |vault.entries| => vault.entries[k].item);
      multiset(r.response.structure) == multiset(Entries(items))
    ensures r.response.StructureListed? ==>
      && vault.Listed?
      && var items := seq(|vault.entries|, k requires 0 <= k < |vault.entries| => vault.entries[k].item);
      r.response.structure == Structure(items, collation)
    ensures ServerAuth.Authenticated(caller) && readFault ==>
      r == StructureResult(StructureError(500, FetchFailed, false), users)
    ensures ServerAuth.Authenticated(caller) && !readFault && !HasRefreshToken(users, caller.value.value) ==>
      r == StructureResult(StructureError(200, NotConnected, true), users)
    ensures ServerAuth.Authenticated(caller) && !readFault && HasRefreshToken(users, caller.value.value) ==>
      var id := caller.value.value;
      && (!Truthy(env.vaultPath) ==> r == StructureResult(StructureError(500, VaultNotConfigured, false), users))
      && (Truthy(env.vaultPath) && NeedsRefresh(users[id].msTokenExpiry, now) && !OAuthConfigured(env) ==>
            r == StructureResult(StructureError(500, OAuthNotConfigured, false), users))
      && (Truthy(env.vaultPath) && (!NeedsRefresh(users[id].msTokenExpiry, now) || OAuthConfigured(env)) ==>
            match AccessToken(users, id, refresh, now, writeFault)
            case RefreshFailed => r == StructureResult(StructureError(200, TokenExpired, true), users)
            case Access(token, users') =>
              && r.users == users'
              && (!Truthy(token) ==> r.response == StructureError(200, NoAccessToken, true))
              && (Truthy(token) ==>
                    match vault
                    case ListingThrows => r.response == StructureError(500, FetchFailed, false)
                    case ListingNotOk(status) => r.response == StructureError(200, FetchFailed + ": " + IntToString(status), false)
                    case Listed(_) => r.response.StructureListed?))
    ensures r.users != users ==>
      && ServerAuth.Authenticated(caller) && caller.value.value in users
      && var id := caller.value.value;
         && (forall other | other in users && other != id :: r.users[other] == users[other])
         && r.users[id].(msAccessToken := users[id].msAccessToken, msTokenExpiry := users[id].msTokenExpiry) == users[id]
  {
    if !ServerAuth.Authenticated(caller) then StructureResult(StructureError(401, Unauthorized, false), users)
    else if readFault then StructureResult(StructureError(500, FetchFailed, false), users)
    else
      var id := caller.value.value;
      var user := FindUser(users, id);
      if user.None? || !Truthy(user.value.msRefreshToken) then
        StructureResult(StructureError(200, NotConnected, true), users)
      else if !Truthy(env.vaultPath) then StructureResult(StructureError(500, VaultNotConfigured, false), users)
      else if NeedsRefresh(user.value.msTokenExpiry, now)
              && !OAuthConfigured(env) then
        StructureResult(StructureError(500, OAuthNotConfigured, false), users)
      else match AccessToken(users, id, refresh, now, writeFault)
        case RefreshFailed => StructureResult(StructureError(200, TokenExpired, true), users)
        case Access(token, users') =>
          if !Truthy(token) then StructureResult(StructureError(200, NoAccessToken, true), users')
          else match vault
            case ListingThrows => StructureResult(StructureError(500, FetchFailed, false), users')
            case ListingNotOk(status) =>
              StructureResult(StructureError(200, FetchFailed + ": " + IntToString(status), false), users')
            case Listed(entries) =>
              var items := seq(|entries|, k requires 0 <= k < |entries| => entries[k].item);
              StructureResult(StructureListed(Structure(items, collation)), users')
  }

  /** `GET(request)` on the database. */
  method Get(db: Database, caller: Option<JsNumber>, env: Env, refresh: string -> RefreshOutcome,
             vault: Listing, collation: string -> int, now: int, readFault: bool, writeFault: bool)
    returns (response: StructureResponse)
    requires db.Valid()
    modifies db
    ensures db.Valid()
    ensures var r := GetStructure(caller, env, old(db.users), refresh, vault, collation, now, readFault, writeFault);
      response == r.response && db.users == r.users
    ensures db.projects == old(db.projects) && db.tasks == old(db.tasks)
    ensures db.nextUserId == old(db.nextUserId) && db.nextTaskId == old(db.nextTaskId)
  {
    var r := GetStructure(caller, env, db.users, refresh, vault, collation, now, readFault, writeFault);
    db.users := r.users;
    response := r.response;
  }

  /**
   * The OAuth settings are needed only for a refresh: with a fresh token a route
   * without them still lists the vault.
   */
  lemma FreshTokenNeedsNoOAuthConfig(caller: Option<JsNumber>, env: Env, users: map<int, User>,
                                     refresh: string -> RefreshOutcome, entries: seq<Entry>,
                                     collation: string -> int, now: int, writeFault: bool)
    requires UsersWellFormed(users) && ServerAuth.Authenticated(caller)
    requires var id := caller.value.value;
      id in users && Truthy(users[id].msRefreshToken) && Truthy(users[id].msAccessToken)
      && !NeedsRefresh(users[id].msTokenExpiry, now)
    requires Truthy(env.vaultPath)
    ensures GetStructure(caller, env, users, refresh, Listed(entries), collation, now, false, writeFault).response.StructureListed?
  {
  }

  /** A listing that is not 2xx is reported with status 200 and the HTTP status in the message. */
  lemma NotOkReported(caller: Option<JsNumber>, env: Env, users: map<int, User>, refresh: string -> RefreshOutcome,
                      status: int, collation: string -> int, now: int, writeFault: bool)
    requires UsersWellFormed(users) && ServerAuth.Authenticated(caller)
    requires var id := caller.value.value;
      id in users && Truthy(users[id].msRefreshToken) && Truthy(users[id].msAccessToken)
      && !NeedsRefresh(users[id].msTokenExpiry, now)
    requires Truthy(env.vaultPath)
    ensures GetStructure(caller, env, users, refresh, ListingNotOk(status), collation, now, false, writeFault)
      == StructureResult(StructureError(200, FetchFailed + ": " + IntToString(status), false), users)
  {
    var id := caller.value.value;
    assert AccessToken(users, id, refresh, now, writeFault) == Access(users[id].msAccessToken, users);
  }
}
