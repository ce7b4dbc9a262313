/**
 * audit_sharedmailbox_licenses: page through every user, look up the mailbox settings of each
 * licensed user, and count the users whose mailbox purpose is exactly "shared".
 *
 * The responses to the successive page requests are a finite script: the i-th request gets
 * script[i], and a request made after the script is used up could not be sent. The per-user
 * lookups go to an oracle from URL to response.
 */
module SharedMailboxLicenses {
  import opened Wrappers
  import opened Graph

  datatype License = License(skuId: string)
  datatype User = User(userPrincipalName: string, assignedLicenses: seq<License>)
  /** One page of the users listing: its `value` array and its optional `@odata.nextLink`. */
  datatype UsersPage = UsersPage(value: seq<User>, nextLink: Option<string>)

  type PageScript = seq<Response<UsersPage>>

  const UsersUrl := "https://graph.microsoft.com/v1.0/users?$select=userPrincipalName,assignedLicenses"

  // ---------------------------------------------------------------------------
  // Pagination

  /** The page was decoded and names a next page. */
  predicate Continues(resp: Response<UsersPage>) {
    var p := DecodeOrReportText(resp);
    p.Ok? && p.value.nextLink.Some?
  }

  /** The page was decoded and is the last one. */
  predicate Ends(resp: Response<UsersPage>) {
    var p := DecodeOrReportText(resp);
    p.Ok? && p.value.nextLink.None?
  }

  function NextLink(resp: Response<UsersPage>): string
    requires Continues(resp)
  {
    DecodeOrReportText(resp).value.nextLink.value
  }

  /** Reference definition of the whole fetch: all users, or the first page's error. */
  function FetchUsers(script: PageScript): Result<seq<User>, GraphError>
    decreases |script|
  {
    if |script| == 0 then Err(SendError)
    else
      match DecodeOrReportText(script[0])
      case Err(e) => Err(e)
      case Ok(page) =>
        if page.nextLink.None? then Ok(page.value)
        else
          match FetchUsers(script[1..])
          case Err(e) => Err(e)
          case Ok(rest) => Ok(page.value + rest)
  }

  /** The URLs requested when the walk starts at `url`: this one, then each next link followed. */
  function RequestedUrls(script: PageScript, url: string): seq<string>
    decreases |script|
  {
    [url] + if |script| > 0 && Continues(script[0]) then RequestedUrls(script[1..], NextLink(script[0])) else []
  }

  function Prepend(users: seq<User>, r: Result<seq<User>, GraphError>): Result<seq<User>, GraphError> {
    match r
    case Ok(rest) => Ok(users + rest)
    case Err(e) => Err(e)
  }

  lemma PrependAssociates(a: seq<User>, b: seq<User>, r: Result<seq<User>, GraphError>)
    ensures Prepend(a, Prepend(b, r)) == Prepend(a + b, r)
  {
    if r.Ok? { assert a + (b + r.value) == (a + b) + r.value; }
  }

  /** One step of the reference fetch, at a non-empty script. */
  lemma FetchStep(s: PageScript)
    requires |s| > 0
    ensures DecodeOrReportText(s[0]).Err? ==> FetchUsers(s) == Err(DecodeOrReportText(s[0]).error)
    ensures Ends(s[0]) ==> FetchUsers(s) == Ok(DecodeOrReportText(s[0]).value.value)
    ensures Continues(s[0]) ==> FetchUsers(s) == Prepend(DecodeOrReportText(s[0]).value.value, FetchUsers(s[1..]))
  {
  }

  /** One step of the requested URLs, at a non-empty script. */
  lemma UrlsStep(s: PageScript, url: string)
    requires |s| > 0
    ensures !Continues(s[0]) ==> RequestedUrls(s, url) == [url]
    ensures Continues(s[0]) ==> RequestedUrls(s, url) == [url] + RequestedUrls(s[1..], NextLink(s[0]))
  {
  }

  /** `get_users`: request pages until one has no next link; any failure aborts the fetch. */
  method GetUsers(script: PageScript) returns (r: Result<seq<User>, GraphError>, urls: seq<string>)
    ensures r == FetchUsers(script)
    ensures urls == RequestedUrls(script, UsersUrl)
  {
    var url := UsersUrl;
    var users: seq<User> := [];
    var i := 0;
    urls := [];
    assert script[0..] == script;
    assert Prepend([], FetchUsers(script)) == FetchUsers(script) by {
      if FetchUsers(script).Ok? { assert [] + FetchUsers(script).value == FetchUsers(script).value; }
    }
    while true
      invariant 0 <= i <= |script|
      invariant FetchUsers(script) == Prepend(users, FetchUsers(script[i..]))
      invariant urls + RequestedUrls(script[i..], url) == RequestedUrls(script, UsersUrl)
      decreases |script| - i
    {
      if i == |script| {
        assert RequestedUrls(script[i..], url) == [url];
        urls := urls + [url];
        r := Err(SendError);
        return;
      }
      ghost var rest := script[i..];
      assert rest[0] == script[i] && rest[1..] == script[i + 1..];
      FetchStep(rest);
      UrlsStep(rest, url);
      urls := urls + [url];
      var resp := script[i];
      match resp {
        case SendFailed =>
          r := Err(SendError);
          return;
        case Received(status, text, decoded) =>
          if IsSuccess(status) {
            if decoded.None? {
              r := Err(DecodeError);
              return;
            }
            var page := decoded.value;
            if page.nextLink.Some? {
              PrependAssociates(users, page.value, FetchUsers(script[i + 1..]));
            }
            users := users + page.value;
            if page.nextLink.Some? {
              url := page.nextLink.value;
            } else {
              r := Ok(users);
              return;
            }
          } else {
            if text.None? {
              r := Err(TextUnreadable);
              return;
            }
            r := Err(HttpError(text.value));
            return;
          }
      }
      i := i + 1;
    }
  }

  /** Every page before the n-th continues and the n-th ends the listing. */
  ghost predicate CompleteWalk(script: PageScript, n: nat) {
    && n < |script|
    && (forall i | 0 <= i < n :: Continues(script[i]))
    && Ends(script[n])
  }

  /** The users on the decoded pages, page after page. */
  function PagesUsers(script: PageScript): seq<User>
    decreases |script|
  {
    if |script| == 0 then []
    else
      (match DecodeOrReportText(script[0]) case Ok(p) => p.value case Err(_) => [])
      + PagesUsers(script[1..])
  }

  /** A complete walk yields every page's users, in page then within-page order. */
  lemma {:induction false} CompleteWalkFetchesAllPages(script: PageScript, n: nat)
    requires CompleteWalk(script, n)
    ensures FetchUsers(script) == Ok(PagesUsers(script[..n + 1]))
    decreases n
  {
    if n > 0 {
      assert CompleteWalk(script[1..], n - 1) by {
        forall i | 0 <= i < n - 1 ensures Continues(script[1..][i]) {
          assert script[1..][i] == script[i + 1];
        }
      }
      CompleteWalkFetchesAllPages(script[1..], n - 1);
      assert script[..n + 1][1..] == script[1..][..n];
    } else {
      assert script[..1][1..] == [];
      assert script[..1][0] == script[0];
      assert PagesUsers(script[..1]) == DecodeOrReportText(script[0]).value.value + PagesUsers([]);
      assert DecodeOrReportText(script[0]).value.value + [] == DecodeOrReportText(script[0]).value.value;
      FetchStep(script);
    }
  }

  /** A fetch succeeds only on a complete walk, and then holds exactly the walked pages' users. */
  lemma {:induction false} FetchSucceedsOnlyOnCompleteWalk(script: PageScript)
    requires FetchUsers(script).Ok?
    ensures exists n: nat :: CompleteWalk(script, n) && FetchUsers(script).value == PagesUsers(script[..n + 1])
    decreases |script|
  {
    if Ends(script[0]) {
      assert CompleteWalk(script, 0);
      CompleteWalkFetchesAllPages(script, 0);
    } else {
      FetchSucceedsOnlyOnCompleteWalk(script[1..]);
      var m: nat :| CompleteWalk(script[1..], m) && FetchUsers(script[1..]).value == PagesUsers(script[1..][..m + 1]);
      assert CompleteWalk(script, m + 1) by {
        forall i | 0 <= i < m + 1 ensures Continues(script[i]) {
          if i > 0 { assert script[i] == script[1..][i - 1]; }
        }
        assert script[m + 1] == script[1..][m];
      }
      CompleteWalkFetchesAllPages(script, m + 1);
    }
  }

  /**
   * A failing page after only continuing pages makes the whole fetch fail with that page's
   * error: the users of the earlier pages are not returned.
   */
  lemma {:induction false} FailedPageAbortsFetch(script: PageScript, i: nat)
    requires i < |script|
    requires forall j | 0 <= j < i :: Continues(script[j])
    requires DecodeOrReportText(script[i]).Err?
    ensures FetchUsers(script) == Err(DecodeOrReportText(script[i]).error)
    decreases i
  {
    if i > 0 {
      forall j | 0 <= j < i - 1 ensures Continues(script[1..][j]) {
        assert script[1..][j] == script[j + 1];
      }
      FailedPageAbortsFetch(script[1..], i - 1);
    }
  }

  /**
   * The walk follows the links: the first request is to `url`, each later one to the next link
   * of the page before it, and it stops at the first page that does not continue.
   */
  lemma {:induction false} RequestsFollowNextLinks(script: PageScript, url: string)
    ensures 1 <= |RequestedUrls(script, url)| <= |script| + 1
    ensures RequestedUrls(script, url)[0] == url
    ensures forall j | 0 <= j < |RequestedUrls(script, url)| - 1 ::
      Continues(script[j]) && RequestedUrls(script, url)[j + 1] == NextLink(script[j])
    ensures |RequestedUrls(script, url)| <= |script| ==> !Continues(script[|RequestedUrls(script, url)| - 1])
    decreases |script|
  {
    var urls := RequestedUrls(script, url);
    if |script| > 0 && Continues(script[0]) {
      var tail := script[1..];
      var rest := RequestedUrls(tail, NextLink(script[0]));
      RequestsFollowNextLinks(tail, NextLink(script[0]));
      assert urls == [url] + rest;
      forall j | 0 <= j < |urls| - 1 ensures Continues(script[j]) && urls[j + 1] == NextLink(script[j]) {
        if j > 0 {
          assert script[j] == tail[j - 1];
          assert Continues(tail[j - 1]) && rest[j] == NextLink(tail[j - 1]);
        }
      }
      if |urls| <= |script| {
        assert script[|urls| - 1] == tail[|rest| - 1];
      }
    } else {
      assert urls == [url];
    }
  }

  // ---------------------------------------------------------------------------
  // Enrichment: one mailbox-settings lookup per licensed user

  predicate IsLicensed(u: User) {
    |u.assignedLicenses| > 0
  }

  /** The UPNs of the licensed users, in listing order: the users a lookup is spawned for. */
  function LicensedUpns(users: seq<User>): seq<string>
    decreases |users|
  {
    if |users| == 0 then []
    else
      LicensedUpns(users[..|users| - 1])
      + (if IsLicensed(users[|users| - 1]) then [users[|users| - 1].userPrincipalName] else [])
  }

  /** The lookup for `upn` succeeds. */
  predicate LookupSucceeds(mailbox: string -> Response<MailboxSettings>, upn: string) {
    GetMailboxSettings(mailbox, upn).Ok?
  }

  /** The purpose map once every spawned task has finished. */
  function PurposeMap(users: seq<User>, mailbox: string -> Response<MailboxSettings>): map<string, Option<string>> {
    map upn | upn in LicensedUpns(users) && LookupSucceeds(mailbox, upn) :: GetMailboxSettings(mailbox, upn).value.userPurpose
  }

  /**
   * The spawned tasks and `join_all`, run one after the other: each licensed user's lookup,
   * on success, inserts the user's purpose under the UPN; a failed lookup inserts nothing.
   */
  method EnrichPurposes(users: seq<User>, mailbox: string -> Response<MailboxSettings>)
    returns (purposes: map<string, Option<string>>, dispatched: seq<string>)
    ensures dispatched == LicensedUpns(users)
    ensures forall upn :: upn in purposes <==> upn in dispatched && LookupSucceeds(mailbox, upn)
    ensures forall upn | upn in purposes ::
      GetMailboxSettings(mailbox, upn).Ok? && purposes[upn] == GetMailboxSettings(mailbox, upn).value.userPurpose
    ensures purposes == PurposeMap(users, mailbox)
  {
    purposes := map[];
    dispatched := [];
    for i := 0 to |users|
      invariant dispatched == LicensedUpns(users[..i])
      invariant forall upn :: upn in purposes <==> upn in dispatched && LookupSucceeds(mailbox, upn)
      invariant forall upn | upn in purposes ::
        GetMailboxSettings(mailbox, upn).Ok? && purposes[upn] == GetMailboxSettings(mailbox, upn).value.userPurpose
    {
      assert users[..i + 1][..i] == users[..i];
      var user := users[i];
      if |user.assignedLicenses| > 0 {
        var upn := user.userPrincipalName;
        dispatched := dispatched + [upn];
        var settings := GetMailboxSettings(mailbox, upn);
        match settings {
          case Ok(s) => purposes := purposes[upn := s.userPurpose];
          case Err(_) =>
        }
      }
    }
    assert users[..|users|] == users;
  }

  /**
   * A lookup that fails for one UPN leaves that key out, and changing what the oracle answers
   * for one UPN's URL changes no other user's entry.
   */
  lemma LookupFailureIsIsolated(users: seq<User>, m1: string -> Response<MailboxSettings>, m2: string -> Response<MailboxSettings>, upn: string)
    requires forall url | url != MailboxSettingsUrl(upn) :: m1(url) == m2(url)
    ensures !LookupSucceeds(m1, upn) ==> upn !in PurposeMap(users, m1)
    ensures forall other | other != upn ::
      (other in PurposeMap(users, m1) <==> other in PurposeMap(users, m2))
      && (other in PurposeMap(users, m1) ==> PurposeMap(users, m1)[other] == PurposeMap(users, m2)[other])
  {
    forall other | other != upn ensures MailboxSettingsUrl(other) != MailboxSettingsUrl(upn) {
      if MailboxSettingsUrl(other) == MailboxSettingsUrl(upn) {
        MailboxSettingsUrlInjective(other, upn);
      }
    }
  }

  lemma MailboxSettingsUrlInjective(a: string, b: string)
    requires MailboxSettingsUrl(a) == MailboxSettingsUrl(b)
    ensures a == b
  {
    var n := |UsersPrefix|;
    assert a == MailboxSettingsUrl(a)[n..|MailboxSettingsUrl(a)| - |"/mailboxSettings"|];
    assert b == MailboxSettingsUrl(b)[n..|MailboxSettingsUrl(b)| - |"/mailboxSettings"|];
  }

  /** Every key of the purpose map is a licensed user's UPN. */
  lemma {:induction false} PurposeKeysAreLicensed(users: seq<User>, mailbox: string -> Response<MailboxSettings>, upn: string)
    requires upn in PurposeMap(users, mailbox)
    ensures exists i | 0 <= i < |users| :: IsLicensed(users[i]) && users[i].userPrincipalName == upn
  {
    LicensedUpnsFromLicensed(users, upn);
  }

  lemma {:induction false} LicensedUpnsFromLicensed(users: seq<User>, upn: string)
    requires upn in LicensedUpns(users)
    ensures exists i | 0 <= i < |users| :: IsLicensed(users[i]) && users[i].userPrincipalName == upn
    decreases |users|
  {
    var n := |users| - 1;
    if IsLicensed(users[n]) && users[n].userPrincipalName == upn {
    } else {
      LicensedUpnsFromLicensed(users[..n], upn);
      var i :| 0 <= i < n && IsLicensed(users[..n][i]) && users[..n][i].userPrincipalName == upn;
      assert users[i] == users[..n][i];
    }
  }

  // ---------------------------------------------------------------------------
  // Tally

  /** The entry of `upn` is exactly `Some("shared")`; an absent entry counts as `None`. */
  predicate IsSharedEntry(purposes: map<string, Option<string>>, upn: string) {
    (if upn in purposes then purposes[upn] else None) == Some("shared")
  }

  /** The UPNs reported as shared, one per user in listing order. */
  function SharedUpns(users: seq<User>, purposes: map<string, Option<string>>): seq<string>
    decreases |users|
  {
    if |users| == 0 then []
    else
      SharedUpns(users[..|users| - 1], purposes)
      + (var u := users[|users| - 1]; if IsSharedEntry(purposes, u.userPrincipalName) then [u.userPrincipalName] else [])
  }

  /** The final loop: report and count every user whose entry is exactly `Some("shared")`. */
  method CountShared(users: seq<User>, purposes: map<string, Option<string>>) returns (count: nat, reported: seq<string>)
    ensures reported == SharedUpns(users, purposes)
    ensures count == |reported|
  {
    count, reported := 0, [];
    for i := 0 to |users|
      invariant reported == SharedUpns(users[..i], purposes)
      invariant count == |reported|
    {
      assert users[..i + 1][..i] == users[..i];
      var user := users[i];
      var purpose := if user.userPrincipalName in purposes then purposes[user.userPrincipalName] else None;
      if purpose.Some? {
        if purpose.value == "shared" {
          reported := reported + [user.userPrincipalName];
          count := count + 1;
        }
      }
    }
    assert users[..|users|] == users;
  }

  /** A UPN is reported iff some user carries it and its entry is exactly `Some("shared")`. */
  lemma {:induction false} SharedUpnsMembership(users: seq<User>, purposes: map<string, Option<string>>, upn: string)
    ensures upn in SharedUpns(users, purposes) <==>
      (exists i | 0 <= i < |users| :: users[i].userPrincipalName == upn) && IsSharedEntry(purposes, upn)
    decreases |users|
  {
    if |users| > 0 {
      var n := |users| - 1;
      SharedUpnsMembership(users[..n], purposes, upn);
      if exists i | 0 <= i < n :: users[..n][i].userPrincipalName == upn {
        var i :| 0 <= i < n && users[..n][i].userPrincipalName == upn;
        assert users[i] == users[..n][i];
      }
      if exists i | 0 <= i < |users| :: users[i].userPrincipalName == upn {
        var i :| 0 <= i < |users| && users[i].userPrincipalName == upn;
        if i < n { assert users[..n][i] == users[i]; }
      }
    }
  }

  /** The licensed users, in listing order. */
  function LicensedUsers(users: seq<User>): seq<User>
    decreases |users|
  {
    if |users| == 0 then []
    else
      LicensedUsers(users[..|users| - 1]) + (if IsLicensed(users[|users| - 1]) then [users[|users| - 1]] else [])
  }

  /** When only licensed users have shared entries, no more users are reported than are licensed. */
  lemma {:induction false} SharedCountBoundedByLicensed(users: seq<User>, purposes: map<string, Option<string>>)
    requires forall i | 0 <= i < |users| :: IsSharedEntry(purposes, users[i].userPrincipalName) ==> IsLicensed(users[i])
    ensures |SharedUpns(users, purposes)| <= |LicensedUsers(users)|
    decreases |users|
  {
    if |users| > 0 {
      var n := |users| - 1;
      forall i | 0 <= i < n ensures IsSharedEntry(purposes, users[..n][i].userPrincipalName) ==> IsLicensed(users[..n][i]) {
        assert users[..n][i] == users[i];
      }
      SharedCountBoundedByLicensed(users[..n], purposes);
    }
  }

  ghost predicate DistinctUpns(users: seq<User>) {
    forall i, j | 0 <= i < j < |users| :: users[i].userPrincipalName != users[j].userPrincipalName
  }

  /**
   * With distinct UPNs (the directory's key), the count is at most the number of licensed
   * users: only licensed users have map entries at all.
   */
  lemma SharedCountAtMostLicensed(users: seq<User>, mailbox: string -> Response<MailboxSettings>)
    requires DistinctUpns(users)
    ensures |SharedUpns(users, PurposeMap(users, mailbox))| <= |LicensedUsers(users)|
  {
    var purposes := PurposeMap(users, mailbox);
    forall i | 0 <= i < |users| && IsSharedEntry(purposes, users[i].userPrincipalName) ensures IsLicensed(users[i]) {
      PurposeKeysAreLicensed(users, mailbox, users[i].userPrincipalName);
    }
    SharedCountBoundedByLicensed(users, purposes);
  }

  // ---------------------------------------------------------------------------
  // The whole run after the token is obtained

  datatype Tally = Tally(count: nat, shared: seq<string>)

  /**
   * Fetch every user, enrich the licensed ones, report the shared ones. A fetch failure is
   * returned before any lookup is made. `dispatched` is the UPNs whose lookup was made.
   */
  method AuditLicenses(script: PageScript, mailbox: string -> Response<MailboxSettings>)
    returns (r: Result<Tally, GraphError>, dispatched: seq<string>)
    ensures FetchUsers(script).Err? ==> r == Err(FetchUsers(script).error) && dispatched == []
    ensures FetchUsers(script).Ok? ==> dispatched == LicensedUpns(FetchUsers(script).value)
    ensures FetchUsers(script).Ok? ==>
      var users := FetchUsers(script).value;
      var shared := SharedUpns(users, PurposeMap(users, mailbox));
      r == Ok(Tally(|shared|, shared))
  {
    var fetched, _ := GetUsers(script);
    if fetched.Err? {
      return Err(fetched.error), [];
    }
    var users := fetched.value;
    var purposes;
    purposes, dispatched := EnrichPurposes(users, mailbox);
    var count, shared := CountShared(users, purposes);
    r := Ok(Tally(count, shared));
  }
}
