/**
 * `GET /api/obsidian/notes` (`src/app/api/obsidian/notes/route.ts`): the caller's
 * five most recently modified Markdown notes from the vault folder on OneDrive,
 * with their titles and front-matter tags.
 */
module VaultNotes {
  import opened Wrappers
  import opened Js
  import opened Store
  import opened Drive
  import opened Sorting
  import opened TokenRefresh
  import opened Environment
  import ServerAuth

  // ---------------------------------------------------------------------------
  // fetchMarkdownFiles
  // ---------------------------------------------------------------------------

  const ObsidianFolder: string := ".obsidian"
  const MarkdownSuffix: string := ".md"

  /** `a` and `b` concatenated, or `None` when either step threw. */
  function Then(a: Option<seq<DriveItem>>, b: Option<seq<DriveItem>>): (r: Option<seq<DriveItem>>)
    ensures r.Some? <==> a.Some? && b.Some?
    ensures r.Some? ==> r.value == a.value + b.value
  {
    if a.Some? && b.Some? then Some(a.value + b.value) else None
  }

  /** What the files found under `listing` are, or `None` when a request threw. */
  function Collect(listing: Listing): Option<seq<DriveItem>>
    decreases listing
  {
    match listing
    case ListingThrows => None
    case ListingNotOk(_) => Some([])
    case Listed(entries) => CollectEntries(entries)
  }

  /** The loop over the items of one listing. */
  function CollectEntries(entries: seq<Entry>): Option<seq<DriveItem>>
    decreases entries
  {
    if entries == [] then Some([])
    else Then(CollectEntries(entries[..|entries| - 1]), CollectEntry(entries[|entries| - 1]))
  }

  /** One iteration: skip `.obsidian`, keep a `.md` name, descend into a folder. */
  function CollectEntry(e: Entry): Option<seq<DriveItem>>
    decreases e
  {
    if e.item.name == ObsidianFolder then Some([])
    else
      var own := if EndsWith(e.item.name, MarkdownSuffix) then [e.item] else [];
      if e.item.folder then Then(Some(own), Collect(e.children)) else Some(own)
  }

  /**
   * `fetchMarkdownFiles(folderPath)`: the loop pushes into `mdFiles` and recurses
   * into folders; `None` is a rejected promise.
   */
  method FetchMarkdownFiles(listing: Listing) returns (files: Option<seq<DriveItem>>)
    ensures files == Collect(listing)
    decreases listing
  {
    match listing {
      case ListingThrows => return None;
      case ListingNotOk(_) => return Some([]);
      case Listed(entries) =>
        var mdFiles: seq<DriveItem> := [];
        for i := 0 to |entries|
          invariant CollectEntries(entries[..i]) == Some(mdFiles)
        {
          var item := entries[i].item;
          assert entries[..i + 1][..i] == entries[..i] && entries[..i + 1][i] == entries[i];
          assert CollectEntries(entries[..i + 1]) == Then(Some(mdFiles), CollectEntry(entries[i]));
          if item.name == ObsidianFolder {
            assert mdFiles + [] == mdFiles;
            continue;
          }
          ghost var before := mdFiles;
          ghost var own := if EndsWith(item.name, MarkdownSuffix) then [item] else [];
          if EndsWith(item.name, MarkdownSuffix) {
            mdFiles := mdFiles + [item];
          }
          assert mdFiles == before + own;
          if item.folder {
            var sub := FetchMarkdownFiles(entries[i].children);
            if sub.None? {
              CollectEntriesAbsorbs(entries, i + 1);
              return None;
            }
            mdFiles := mdFiles + sub.value;
            assert mdFiles == before + (own + sub.value);
          } else {
            assert CollectEntry(entries[i]) == Some(own);
          }
        }
        assert entries[..|entries|] == entries;
        return Some(mdFiles);
    }
  }

  lemma {:induction false} CollectEntriesAbsorbs(entries: seq<Entry>, i: nat)
    requires i <= |entries| && CollectEntries(entries[..i]).None?
    ensures CollectEntries(entries).None?
    decreases |entries| - i
  {
    if i < |entries| {
      assert entries[..i + 1][..i] == entries[..i];
      CollectEntriesAbsorbs(entries, i + 1);
    } else {
      assert entries[..i] == entries;
    }
  }

  // ---------------------------------------------------------------------------
  // An independent description of the traversal
  // ---------------------------------------------------------------------------

  /** The items the traversal visits, in visiting order, as if no request threw. */
  function Visited(listing: Listing): seq<DriveItem>
    decreases listing
  {
    match listing
    case Listed(entries) => VisitedEntries(entries)
    case _ => []
  }

  function VisitedEntries(entries: seq<Entry>): seq<DriveItem>
    decreases entries
  {
    if entries == [] then [] else VisitedEntry(entries[0]) + VisitedEntries(entries[1..])
  }

  function VisitedEntry(e: Entry): seq<DriveItem>
    decreases e
  {
    if e.item.name == ObsidianFolder then []
    else [e.item] + (if e.item.folder then Visited(e.children) else [])
  }

  /** Whether a request the traversal makes throws. */
  predicate Throws(listing: Listing)
    decreases listing
  {
    match listing
    case ListingThrows => true
    case ListingNotOk(_) => false
    case Listed(entries) => ThrowsIn(entries)
  }

  predicate ThrowsIn(entries: seq<Entry>)
    decreases entries
  {
    exists k | 0 <= k < |entries| :: ThrowsAt(entries[k])
  }

  predicate ThrowsAt(e: Entry)
    decreases e
  {
    e.item.name != ObsidianFolder && e.item.folder && Throws(e.children)
  }

  function Markdown(items: seq<DriveItem>): (r: seq<DriveItem>)
    ensures forall k | 0 <= k < |r| :: EndsWith(r[k].name, MarkdownSuffix)
    ensures multiset(r) <= multiset(items)
  {
    if items == [] then []
    else
      assert items == [items[0]] + items[1..];
      (if EndsWith(items[0].name, MarkdownSuffix) then [items[0]] else []) + Markdown(items[1..])
  }

  lemma {:induction false} MarkdownAppend(a: seq<DriveItem>, b: seq<DriveItem>)
    ensures Markdown(a + b) == Markdown(a) + Markdown(b)
  {
    if a != [] {
      var head := if EndsWith(a[0].name, MarkdownSuffix) then [a[0]] else [];
      assert (a + b)[0] == a[0] && (a + b)[1..] == a[1..] + b;
      MarkdownAppend(a[1..], b);
      assert Markdown(a + b) == head + (Markdown(a[1..]) + Markdown(b));
      assert head + (Markdown(a[1..]) + Markdown(b)) == (head + Markdown(a[1..])) + Markdown(b);
    } else {
      assert a + b == b;
    }
  }

  lemma {:induction false} VisitedEntriesSnoc(entries: seq<Entry>)
    requires entries != []
    ensures VisitedEntries(entries)
      == VisitedEntries(entries[..|entries| - 1]) + VisitedEntry(entries[|entries| - 1])
  {
    if |entries| > 1 {
      var init := entries[..|entries| - 1];
      assert init[1..] == entries[1..][..|entries[1..]| - 1];
      assert init[0] == entries[0];
      VisitedEntriesSnoc(entries[1..]);
    } else {
      assert entries[..0] == [];
      assert entries[1..] == [];
    }
  }

  lemma ThrowsInSnoc(entries: seq<Entry>)
    requires entries != []
    ensures ThrowsIn(entries) <==> (ThrowsIn(entries[..|entries| - 1]) || ThrowsAt(entries[|entries| - 1]))
  {
    var init := entries[..|entries| - 1];
    if ThrowsIn(init) {
      var k :| 0 <= k < |init| && ThrowsAt(init[k]);
      assert entries[k] == init[k];
    }
    if ThrowsIn(entries) {
      var k :| 0 <= k < |entries| && ThrowsAt(entries[k]);
      if k < |init| {
        assert entries[k] == init[k];
      }
    }
  }

  /**
   * The loop, the recursion and the throws together: the traversal rejects exactly
   * when one of its requests throws, and otherwise returns the `.md` items among
   * those it visits, in visiting order.
   */
  lemma {:induction false} CollectIsMarkdownOfVisited(listing: Listing)
    ensures Collect(listing) == if Throws(listing) then None else Some(Markdown(Visited(listing)))
    decreases listing
  {
    match listing
    case ListingThrows =>
    case ListingNotOk(_) =>
    case Listed(entries) => CollectEntriesIsMarkdown(entries);
  }

  lemma {:induction false} CollectEntriesIsMarkdown(entries: seq<Entry>)
    ensures CollectEntries(entries) == if ThrowsIn(entries) then None else Some(Markdown(VisitedEntries(entries)))
    decreases entries
  {
    if entries != [] {
      var init := entries[..|entries| - 1];
      var e := entries[|entries| - 1];
      CollectEntriesIsMarkdown(init);
      CollectEntryIsMarkdown(e);
      VisitedEntriesSnoc(entries);
      ThrowsInSnoc(entries);
      MarkdownAppend(VisitedEntries(init), VisitedEntry(e));
    }
  }

  lemma {:induction false} CollectEntryIsMarkdown(e: Entry)
    ensures CollectEntry(e) == if ThrowsAt(e) then None else Some(Markdown(VisitedEntry(e)))
    decreases e
  {
    if e.item.name != ObsidianFolder {
      CollectIsMarkdownOfVisited(e.children);
      MarkdownAppend([e.item], if e.item.folder then Visited(e.children) else []);
      assert Markdown([e.item]) == if EndsWith(e.item.name, MarkdownSuffix) then [e.item] else [];
    }
  }

  /**
   * An `.obsidian` entry is never looked into: whatever its listing answers, the
   * traversal's result is the same.
   */
  lemma ObsidianNotDescended(entries: seq<Entry>, k: nat, other: Listing)
    requires k < |entries| && entries[k].item.name == ObsidianFolder
    ensures Collect(Listed(entries[k := Entry(entries[k].item, other)])) == Collect(Listed(entries))
  {
    var entries' := entries[k := Entry(entries[k].item, other)];
    CollectEntriesIsMarkdown(entries);
    CollectEntriesIsMarkdown(entries');
    VisitedEntriesSkip(entries, k, other);
    if ThrowsIn(entries) {
      var j :| 0 <= j < |entries| && ThrowsAt(entries[j]);
      assert entries'[j] == entries[j];
    }
    if ThrowsIn(entries') {
      var j :| 0 <= j < |entries'| && ThrowsAt(entries'[j]);
      assert entries'[j] == entries[j];
    }
  }

  lemma {:induction false} VisitedEntriesSkip(entries: seq<Entry>, k: nat, other: Listing)
    requires k < |entries| && entries[k].item.name == ObsidianFolder
    ensures VisitedEntries(entries[k := Entry(entries[k].item, other)]) == VisitedEntries(entries)
    decreases k
  {
    var entries' := entries[k := Entry(entries[k].item, other)];
    if k == 0 {
      assert entries'[1..] == entries[1..];
    } else {
      VisitedEntriesSkip(entries[1..], k - 1, other);
      assert entries'[1..] == entries[1..][k - 1 := Entry(entries[k].item, other)];
    }
  }

  /** Only `.md` names come back, and never an item called `.obsidian`. */
  lemma CollectedAreMarkdown(listing: Listing)
    requires Collect(listing).Some?
    ensures forall k | 0 <= k < |Collect(listing).value| ::
      EndsWith(Collect(listing).value[k].name, MarkdownSuffix) && Collect(listing).value[k].name != ObsidianFolder
  {
    CollectIsMarkdownOfVisited(listing);
  }

  // ---------------------------------------------------------------------------
  // The five newest notes
  // ---------------------------------------------------------------------------

  /** The comparator `b.lastModified - a.lastModified`: newer first. */
  predicate NewerFirst(a: DriveItem, b: DriveItem) {
    a.lastModified >= b.lastModified
  }

  lemma NewerFirstOrders()
    ensures TotalPreorder(NewerFirst)
  {
  }

  const NoteLimit: nat := 5

  /** `allMdFiles.sort(...).slice(0, 5)`. */
  function Selection(files: seq<DriveItem>): seq<DriveItem> {
    var sorted := SortBy(files, NewerFirst);
    if |sorted| <= NoteLimit then sorted else sorted[..NoteLimit]
  }

  /** In a list sorted newest first, nothing after position `n` is newer than anything before it. */
  lemma PrefixIsNewest(sorted: seq<DriveItem>, n: nat)
    requires n <= |sorted|
    requires Sorted(sorted, NewerFirst)
    ensures multiset(sorted) == multiset(sorted[..n]) + multiset(sorted[n..])
    ensures forall f, g | f in sorted[..n] && g in multiset(sorted[n..]) :: f.lastModified >= g.lastModified
  {
    assert sorted == sorted[..n] + sorted[n..];
    forall f, g | f in sorted[..n] && g in multiset(sorted[n..])
      ensures f.lastModified >= g.lastModified
    {
      var i :| 0 <= i < n && sorted[i] == f;
      var j :| 0 <= j < |sorted[n..]| && sorted[n..][j] == g;
      assert sorted[n + j] == g;
    }
  }

  /**
   * The selection holds `min(5, n)` of the files, newest first, and no file left
   * out is newer than any file taken.
   */
  lemma SelectionIsNewest(files: seq<DriveItem>)
    ensures var sel := Selection(files);
      && |sel| == (if |files| <= NoteLimit then |files| else NoteLimit)
      && multiset(sel) <= multiset(files)
      && (forall i, j | 0 <= i < j < |sel| :: sel[i].lastModified >= sel[j].lastModified)
      && (forall f, g | f in sel && g in multiset(files) - multiset(sel) :: f.lastModified >= g.lastModified)
  {
    var sorted := SortBy(files, NewerFirst);
    NewerFirstOrders();
    SortBySorted(files, NewerFirst);
    var n := if |sorted| <= NoteLimit then |sorted| else NoteLimit;
    assert Selection(files) == sorted[..n];
    PrefixIsNewest(sorted, n);
    assert multiset(files) - multiset(sorted[..n]) == multiset(sorted[n..]);
  }

  /** The front matter's `tags` value as `gray-matter` parses it. */
  datatype TagsValue = TagsMissing | TagsList(list: seq<string>) | TagsText(text: string) | TagsOther

  /** A list is taken as it is, a non-empty string becomes a one-element list, anything else none. */
  function TagsOf(v: TagsValue): (tags: seq<string>)
    ensures v.TagsList? ==> tags == v.list
    ensures v.TagsText? && v.text != "" ==> tags == [v.text]
    ensures !v.TagsList? && !(v.TagsText? && v.text != "") ==> tags == []
  {
    match v
    case TagsList(list) => list
    case TagsText(text) => if text != "" then [text] else []
    case _ => []
  }

  /** `name.replace(/\.md$/, "")`. */
  function TitleOf(name: string): (title: string)
    ensures EndsWith(name, MarkdownSuffix) ==> title + MarkdownSuffix == name
    ensures !EndsWith(name, MarkdownSuffix) ==> title == name
  {
    if EndsWith(name, MarkdownSuffix) then name[..|name| - |MarkdownSuffix|] else name
  }

  /** Exactly one trailing `.md` is removed. */
  lemma TitleOfMarkdownName(title: string)
    ensures TitleOf(title + MarkdownSuffix) == title
    ensures TitleOf(title + MarkdownSuffix + MarkdownSuffix) == title + MarkdownSuffix
  {
    assert (title + MarkdownSuffix)[|title|..] == MarkdownSuffix;
    assert (title + MarkdownSuffix + MarkdownSuffix)[|title + MarkdownSuffix|..] == MarkdownSuffix;
  }

  /** A file download: not 2xx or a throw while reading it gives `null`. */
  datatype Download = DownloadFailed | Downloaded(tags: TagsValue)

  datatype Note = Note(id: string, title: string, lastModified: int, tags: seq<string>)

  function NoteOf(file: DriveItem, tags: TagsValue): Note {
    Note(file.id, TitleOf(file.name), file.lastModified, TagsOf(tags))
  }

  /** The `map` over the selection followed by the `filter` of the `null`s, order kept. */
  function Notes(selected: seq<DriveItem>, download: DriveItem -> Download): (notes: seq<Note>)
    ensures |notes| <= |selected|
  {
    if selected == [] then []
    else
      (match download(selected[0])
       case DownloadFailed => []
       case Downloaded(tags) => [NoteOf(selected[0], tags)])
      + Notes(selected[1..], download)
  }

  /** When every download succeeds, there is one note per selected file, in the same order. */
  lemma {:induction false} NotesAllDownloaded(selected: seq<DriveItem>, download: DriveItem -> Download)
    requires forall k | 0 <= k < |selected| :: download(selected[k]).Downloaded?
    ensures var notes := Notes(selected, download);
      |notes| == |selected|
      && forall k | 0 <= k < |selected| :: notes[k] == NoteOf(selected[k], download(selected[k]).tags)
  {
    if selected != [] {
      NotesAllDownloaded(selected[1..], download);
    }
  }

  /** A failed download drops that file's note and nothing else. */
  lemma {:induction false} NotesDropFailed(a: seq<DriveItem>, f: DriveItem, b: seq<DriveItem>, download: DriveItem -> Download)
    requires download(f).DownloadFailed?
    ensures Notes(a + [f] + b, download) == Notes(a + b, download)
  {
    if a == [] {
      assert ([] + [f] + b)[1..] == b;
      assert [] + b == b;
    } else {
      assert (a + [f] + b)[1..] == a[1..] + [f] + b;
      assert (a + b)[1..] == a[1..] + b;
      NotesDropFailed(a[1..], f, b, download);
    }
  }

  // ---------------------------------------------------------------------------
  // The route
  // ---------------------------------------------------------------------------

  const Unauthorized: string := "Unauthorized - please login"
  const NotConnected: string := "Microsoft account not connected"
  const NotConfigured: string := "Obsidian integration not configured"
  const TokenExpired: string := "Microsoft token expired, please reconnect"
  const NoAccessToken: string := "No valid access token"
  const FetchFailed: string := "An error occurred while fetching notes"

  /**
   * The response. Every error but the 401 has status 200 and an empty `notes`;
   * `needsAuth` is whether the body carries `needsAuth: true`.
   */
  datatype NotesResponse = NotesUnauthorized | NotesError(error: string, needsAuth: bool) | NotesListed(notes: seq<Note>)

  datatype NotesResult = NotesResult(response: NotesResponse, users: map<int, User>)

  /**
   * The handler. `vault` answers the listing of the vault folder, `download` each
   * file download; `readFault` and `writeFault` say whether the store's lookup and
   * update throw.
   */
  function GetNotes(caller: Option<JsNumber>, env: Env, users: map<int, User>, refresh: string -> RefreshOutcome,
                    vault: Listing, download: DriveItem -> Download, now: int,
                    readFault: bool, writeFault: bool): (r: NotesResult)
    requires UsersWellFormed(users)
    ensures UsersWellFormed(r.users) && r.users.Keys == users.Keys
    ensures !ServerAuth.Authenticated(caller) ==> r == NotesResult(NotesUnauthorized, users)
    ensures r.response.NotesListed? ==> |r.response.notes| <= NoteLimit
    ensures r.response.NotesListed? ==>
      Collect(vault).Some? && r.response.notes == Notes(Selection(Collect(vault).value), download)
    ensures ServerAuth.Authenticated(caller) && readFault ==> r == NotesResult(NotesError(FetchFailed, false), users)
    ensures ServerAuth.Authenticated(caller) && !readFault && !HasRefreshToken(users, caller.value.value) ==>
      r == NotesResult(NotesError(NotConnected, true), users)
    ensures ServerAuth.Authenticated(caller) && !readFault && HasRefreshToken(users, caller.value.value) ==>
      && (!(OAuthConfigured(env) && Truthy(env.vaultPath)) ==> r == NotesResult(NotesError(NotConfigured, false), users))
      && (OAuthConfigured(env) && Truthy(env.vaultPath) ==>
            match AccessToken(users, caller.value.value, refresh, now, writeFault)
            case RefreshFailed => r == NotesResult(NotesError(TokenExpired, true), users)
            case Access(token, users') =>
              && r.users == users'
              && (!Truthy(token) ==> r.response == NotesError(NoAccessToken, true))
              && (Truthy(token) && Collect(vault).None? ==> r.response == NotesError(FetchFailed, false))
              && (Truthy(token) && Collect(vault).Some? ==> r.response.NotesListed?))
    ensures r.users != users ==>
      && ServerAuth.Authenticated(caller) && caller.value.value in users
      && var id := caller.value.value;
         && (forall other | other in users && other != id :: r.users[other] == users[other])
         && r.users[id].msRefreshToken == users[id].msRefreshToken
         && r.users[id].(msAccessToken := users[id].msAccessToken, msTokenExpiry := users[id].msTokenExpiry) == users[id]
  {
    if !ServerAuth.Authenticated(caller) then NotesResult(NotesUnauthorized, users)
    else if readFault then NotesResult(NotesError(FetchFailed, false), users)
    else
      var id := caller.value.value;
      var user := FindUser(users, id);
      if user.None? || !Truthy(user.value.msRefreshToken) then NotesResult(NotesError(NotConnected, true), users)
      else if !OAuthConfigured(env) || !Truthy(env.vaultPath) then
        NotesResult(NotesError(NotConfigured, false), users)
      else match AccessToken(users, id, refresh, now, writeFault)
        case RefreshFailed => NotesResult(NotesError(TokenExpired, true), users)
        case Access(token, users') =>
          if !Truthy(token) then NotesResult(NotesError(NoAccessToken, true), users')
          else match Collect(vault)
            case None => NotesResult(NotesError(FetchFailed, false), users')
            case Some(files) =>
              SelectionIsNewest(files);
              NotesResult(NotesListed(Notes(Selection(files), download)), users')
  }

  /** `GET(request)` on the database. */
  method Get(db: Database, caller: Option<JsNumber>, env: Env, refresh: string -> RefreshOutcome,
             vault: Listing, download: DriveItem -> Download, now: int, readFault: bool, writeFault: bool)
    returns (response: NotesResponse)
    requires db.Valid()
    modifies db
    ensures db.Valid()
    ensures var r := GetNotes(caller, env, old(db.users), refresh, vault, download, now, readFault, writeFault);
      response == r.response && db.users == r.users
    ensures db.projects == old(db.projects) && db.tasks == old(db.tasks)
    ensures db.nextUserId == old(db.nextUserId) && db.nextTaskId == old(db.nextTaskId)
  {
    var r := GetNotes(caller, env, db.users, refresh, vault, download, now, readFault, writeFault);
    db.users := r.users;
    response := r.response;
  }

  /**
   * Without a refresh token the caller is told to connect, whatever access token
   * is stored, and nothing is written.
   */
  lemma NoRefreshTokenNeedsAuth(caller: Option<JsNumber>, env: Env, users: map<int, User>, refresh: string -> RefreshOutcome,
                                vault: Listing, download: DriveItem -> Download, now: int, writeFault: bool)
    requires UsersWellFormed(users) && ServerAuth.Authenticated(caller)
    requires caller.value.value !in users || !Truthy(users[caller.value.value].msRefreshToken)
    ensures GetNotes(caller, env, users, refresh, vault, download, now, false, writeFault)
      == NotesResult(NotesError(NotConnected, true), users)
  {
  }

  /**
   * A token that is still fresh is used as stored: no refresh grant, no write, and
   * the notes listed are those of the vault.
   */
  lemma FreshTokenUsed(caller: Option<JsNumber>, env: Env, users: map<int, User>, refresh: string -> RefreshOutcome,
                       vault: Listing, download: DriveItem -> Download, now: int, writeFault: bool)
    requires UsersWellFormed(users) && ServerAuth.Authenticated(caller)
    requires var id := caller.value.value;
      id in users && Truthy(users[id].msRefreshToken) && Truthy(users[id].msAccessToken)
      && !NeedsRefresh(users[id].msTokenExpiry, now)
    requires Truthy(env.azureClientId) && Truthy(env.azureTenantId) && Truthy(env.azureClientSecret) && Truthy(env.vaultPath)
    requires Collect(vault).Some?
    ensures GetNotes(caller, env, users, refresh, vault, download, now, false, writeFault)
      == NotesResult(NotesListed(Notes(Selection(Collect(vault).value), download)), users)
  {
  }
}
