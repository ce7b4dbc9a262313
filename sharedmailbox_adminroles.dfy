/**
 * audit_sharedmailbox_adminroles: for every directory role, for every member of that role, look
 * up the member's mailbox settings and collect the members whose purpose is "shared" in any
 * letter case.
 *
 * Each request goes to an oracle from URL to response (the role listing is one request).
 */
module SharedMailboxAdminRoles {
  import opened Wrappers
  import opened Graph

  datatype DirectoryRole = DirectoryRole(id: string, displayName: string)
  datatype RoleMember = RoleMember(id: string, displayName: string, userPrincipalName: string)

  const DirectoryRolesUrl := "https://graph.microsoft.com/v1.0/directoryRoles"

  function RoleMembersUrl(roleId: string): string {
    DirectoryRolesUrl + "/" + roleId + "/members"
  }

  // ---------------------------------------------------------------------------
  // Letter case

  /** Lower-casing of one character, on ASCII letters only. */
  function ToLowerChar(c: char): char {
    if 'A' <= c <= 'Z' then (c as int + 32) as char else c
  }

  /** `to_lowercase`, approximated by ASCII lower-casing. */
  function ToLower(s: string): (r: string)
    ensures |r| == |s|
    ensures forall i | 0 <= i < |s| :: r[i] == ToLowerChar(s[i])
  {
    seq(|s|, i requires 0 <= i < |s| => ToLowerChar(s[i]))
  }

  /** "shared" in any mix of letter cases is exactly what lower-cases to "shared". */
  lemma SharedIgnoringCase(p: string)
    ensures ToLower(p) == "shared" <==>
      |p| == 6 && forall i | 0 <= i < 6 :: p[i] == "shared"[i] || p[i] == "SHARED"[i]
  {
    var lower, upper := "shared", "SHARED";
    if ToLower(p) == lower {
      forall i | 0 <= i < 6 ensures p[i] == lower[i] || p[i] == upper[i] {
        assert ToLowerChar(p[i]) == lower[i];
      }
    }
    if |p| == 6 && forall i | 0 <= i < 6 :: p[i] == lower[i] || p[i] == upper[i] {
      forall i | 0 <= i < 6 ensures ToLower(p)[i] == lower[i] {
        assert p[i] == lower[i] || p[i] == upper[i];
      }
      assert ToLower(p) == lower;
    }
  }

  // ---------------------------------------------------------------------------
  // The audit

  /** The purpose is present and lower-cases to "shared". */
  predicate IsSharedPurpose(settings: MailboxSettings) {
    settings.userPurpose.Some? && ToLower(settings.userPurpose.value) == "shared"
  }

  /** The member's lookup succeeded and reported a shared purpose. */
  predicate IsSharedMember(mailbox: string -> Response<MailboxSettings>, m: RoleMember) {
    var settings := GetMailboxSettings(mailbox, m.userPrincipalName);
    settings.Ok? && IsSharedPurpose(settings.value)
  }

  /** The UPNs of the shared members of one role, in member order. */
  function SharedMembers(ms: seq<RoleMember>, mailbox: string -> Response<MailboxSettings>): (r: seq<string>)
    ensures |r| <= |ms|
    decreases |ms|
  {
    if |ms| == 0 then []
    else
      SharedMembers(ms[..|ms| - 1], mailbox)
      + (if IsSharedMember(mailbox, ms[|ms| - 1]) then [ms[|ms| - 1].userPrincipalName] else [])
  }

  /** `fetch_directory_role_members(role.id)`. */
  function MembersOf(members: string -> Response<seq<RoleMember>>, role: DirectoryRole): (r: Result<seq<RoleMember>, GraphError>)
    ensures var resp := members(RoleMembersUrl(role.id));
      && (r.Ok? <==> resp.Received? && IsSuccess(resp.status) && resp.decoded.Some?)
      && (r.Ok? ==> r.value == resp.decoded.value)
      && (resp.Received? && !IsSuccess(resp.status) ==> r == Err(StatusError(resp.status)))
  {
    DecodeOrReportStatus(members(RoleMembersUrl(role.id)))
  }

  /** Reference definition of the audit over a role list: matches role by role, or the first failing role's error. */
  function SharedInRoles(roles: seq<DirectoryRole>, members: string -> Response<seq<RoleMember>>, mailbox: string -> Response<MailboxSettings>): Result<seq<string>, GraphError>
    decreases |roles|
  {
    if |roles| == 0 then Ok([])
    else
      match SharedInRoles(roles[..|roles| - 1], members, mailbox)
      case Err(e) => Err(e)
      case Ok(earlier) =>
        match MembersOf(members, roles[|roles| - 1])
        case Err(e) => Err(e)
        case Ok(ms) => Ok(earlier + SharedMembers(ms, mailbox))
  }

  /** Reference definition of `process_directory_roles`. */
  function SharedAdmins(rolesResp: Response<seq<DirectoryRole>>, members: string -> Response<seq<RoleMember>>, mailbox: string -> Response<MailboxSettings>): Result<seq<string>, GraphError> {
    match DecodeOrReportStatus(rolesResp)
    case Err(e) => Err(e)
    case Ok(roles) => SharedInRoles(roles, members, mailbox)
  }

  /** Once a prefix of the roles has failed, the whole audit fails with that error. */
  lemma {:induction false} PrefixErrorPersists(roles: seq<DirectoryRole>, k: nat, members: string -> Response<seq<RoleMember>>, mailbox: string -> Response<MailboxSettings>)
    requires k <= |roles|
    requires SharedInRoles(roles[..k], members, mailbox).Err?
    ensures SharedInRoles(roles, members, mailbox) == SharedInRoles(roles[..k], members, mailbox)
    decreases |roles| - k
  {
    if k < |roles| {
      var n := |roles| - 1;
      assert roles[..n][..k] == roles[..k];
      PrefixErrorPersists(roles[..n], k, members, mailbox);
    } else {
      assert roles[..k] == roles;
    }
  }

  /** `process_directory_roles`: nested loops over roles and members, appending the shared members. */
  method ProcessDirectoryRoles(rolesResp: Response<seq<DirectoryRole>>, members: string -> Response<seq<RoleMember>>, mailbox: string -> Response<MailboxSettings>)
    returns (r: Result<seq<string>, GraphError>)
    ensures r == SharedAdmins(rolesResp, members, mailbox)
  {
    var sharedMailboxes: seq<string> := [];
    var fetched := DecodeOrReportStatus(rolesResp);
    if fetched.Err? {
      return Err(fetched.error);
    }
    var roles := fetched.value;
    for i := 0 to |roles|
      invariant SharedInRoles(roles[..i], members, mailbox) == Ok(sharedMailboxes)
    {
      assert roles[..i + 1][..i] == roles[..i];
      var role := roles[i];
      var roleMembers := DecodeOrReportStatus(members(RoleMembersUrl(role.id)));
      if roleMembers.Err? {
        PrefixErrorPersists(roles, i + 1, members, mailbox);
        return Err(roleMembers.error);
      }
      var ms := roleMembers.value;
      ghost var before := sharedMailboxes;
      for j := 0 to |ms|
        invariant sharedMailboxes == before + SharedMembers(ms[..j], mailbox)
      {
        assert ms[..j + 1][..j] == ms[..j];
        var member := ms[j];
        var settings := GetMailboxSettings(mailbox, member.userPrincipalName);
        match settings {
          case Ok(s) =>
            if s.userPurpose.Some? {
              var purpose := s.userPurpose.value;
              if ToLower(purpose) == "shared" {
                sharedMailboxes := sharedMailboxes + [member.userPrincipalName];
              }
            }
          case Err(_) =>
            // logged and skipped
        }
      }
      assert ms[..|ms|] == ms;
    }
    assert roles[..|roles|] == roles;
    r := Ok(sharedMailboxes);
  }

  // ---------------------------------------------------------------------------
  // Properties of the reference definition

  /** The audit succeeds iff every role's member listing succeeds. */
  lemma {:induction false} SucceedsIffEveryListingSucceeds(roles: seq<DirectoryRole>, members: string -> Response<seq<RoleMember>>, mailbox: string -> Response<MailboxSettings>)
    ensures SharedInRoles(roles, members, mailbox).Ok? <==> forall i | 0 <= i < |roles| :: MembersOf(members, roles[i]).Ok?
    decreases |roles|
  {
    if |roles| > 0 {
      var n := |roles| - 1;
      SucceedsIffEveryListingSucceeds(roles[..n], members, mailbox);
      assert forall i | 0 <= i < n :: roles[..n][i] == roles[i];
    }
  }

  /** When the i-th role is the first whose listing fails, the audit fails with its error. */
  lemma {:induction false} FirstFailingRoleDecides(roles: seq<DirectoryRole>, i: nat, members: string -> Response<seq<RoleMember>>, mailbox: string -> Response<MailboxSettings>)
    requires i < |roles|
    requires forall j | 0 <= j < i :: MembersOf(members, roles[j]).Ok?
    requires MembersOf(members, roles[i]).Err?
    ensures SharedInRoles(roles, members, mailbox) == Err(MembersOf(members, roles[i]).error)
  {
    var pre := roles[..i + 1];
    assert pre[..i] == roles[..i];
    assert forall j | 0 <= j < i :: roles[..i][j] == roles[j];
    SucceedsIffEveryListingSucceeds(roles[..i], members, mailbox);
    PrefixErrorPersists(roles, i + 1, members, mailbox);
  }

  /** Matches of one member list split at any point. */
  lemma {:induction false} SharedMembersAppend(a: seq<RoleMember>, b: seq<RoleMember>, mailbox: string -> Response<MailboxSettings>)
    ensures SharedMembers(a + b, mailbox) == SharedMembers(a, mailbox) + SharedMembers(b, mailbox)
    decreases |b|
  {
    if |b| > 0 {
      var n := |b| - 1;
      assert (a + b)[..|a + b| - 1] == a + b[..n];
      SharedMembersAppend(a, b[..n], mailbox);
    } else {
      assert a + b == a;
    }
  }

  /** Matches over a concatenation of role lists: the first list's matches, then the second's. */
  lemma {:induction false} SharedInRolesAppend(r1: seq<DirectoryRole>, r2: seq<DirectoryRole>, members: string -> Response<seq<RoleMember>>, mailbox: string -> Response<MailboxSettings>)
    requires SharedInRoles(r1, members, mailbox).Ok? && SharedInRoles(r2, members, mailbox).Ok?
    ensures SharedInRoles(r1 + r2, members, mailbox)
      == Ok(SharedInRoles(r1, members, mailbox).value + SharedInRoles(r2, members, mailbox).value)
    decreases |r2|
  {
    var v1 := SharedInRoles(r1, members, mailbox).value;
    if |r2| > 0 {
      var n := |r2| - 1;
      SharedInRolesLast(r2, members, mailbox);
      SharedInRolesAppend(r1, r2[..n], members, mailbox);
      assert r1 + r2 == (r1 + r2[..n]) + [r2[n]];
      SharedInRolesSnoc(r1 + r2[..n], r2[n], members, mailbox);
      var v2 := SharedInRoles(r2[..n], members, mailbox).value;
      var last := SharedMembers(MembersOf(members, r2[n]).value, mailbox);
      assert (v1 + v2) + last == v1 + (v2 + last);
    } else {
      assert r1 + r2 == r1;
      assert v1 + [] == v1;
    }
  }

  /** One more role whose listing succeeds: its matches follow those of the roles before it. */
  lemma SharedInRolesSnoc(roles: seq<DirectoryRole>, role: DirectoryRole, members: string -> Response<seq<RoleMember>>, mailbox: string -> Response<MailboxSettings>)
    requires SharedInRoles(roles, members, mailbox).Ok? && MembersOf(members, role).Ok?
    ensures SharedInRoles(roles + [role], members, mailbox)
      == Ok(SharedInRoles(roles, members, mailbox).value + SharedMembers(MembersOf(members, role).value, mailbox))
  {
    var extended := roles + [role];
    assert extended[..|extended| - 1] == roles;
    assert extended[|extended| - 1] == role;
  }

  /** A successful audit of a non-empty role list: the earlier roles' matches, then the last role's. */
  lemma SharedInRolesLast(roles: seq<DirectoryRole>, members: string -> Response<seq<RoleMember>>, mailbox: string -> Response<MailboxSettings>)
    requires |roles| > 0 && SharedInRoles(roles, members, mailbox).Ok?
    ensures SharedInRoles(roles[..|roles| - 1], members, mailbox).Ok?
    ensures MembersOf(members, roles[|roles| - 1]).Ok?
    ensures SharedInRoles(roles, members, mailbox).value
      == SharedInRoles(roles[..|roles| - 1], members, mailbox).value
       + SharedMembers(MembersOf(members, roles[|roles| - 1]).value, mailbox)
  {
  }

  /** A member whose lookup fails is skipped; the members around it are still matched. */
  lemma FailedLookupSkipsOnlyThatMember(before: seq<RoleMember>, m: RoleMember, after: seq<RoleMember>, mailbox: string -> Response<MailboxSettings>)
    requires GetMailboxSettings(mailbox, m.userPrincipalName).Err?
    ensures SharedMembers(before + [m] + after, mailbox) == SharedMembers(before, mailbox) + SharedMembers(after, mailbox)
  {
    var upto := before + [m];
    assert upto[..|upto| - 1] == before;
    assert SharedMembers(upto, mailbox) == SharedMembers(before, mailbox);
    SharedMembersAppend(upto, after, mailbox);
  }

  /** A UPN is listed for a role iff one of its members carries it and is shared. */
  lemma {:induction false} SharedMembersMembership(ms: seq<RoleMember>, mailbox: string -> Response<MailboxSettings>, upn: string)
    ensures upn in SharedMembers(ms, mailbox) <==>
      exists i | 0 <= i < |ms| :: ms[i].userPrincipalName == upn && IsSharedMember(mailbox, ms[i])
    decreases |ms|
  {
    if |ms| > 0 {
      var n := |ms| - 1;
      SharedMembersMembership(ms[..n], mailbox, upn);
      if exists i | 0 <= i < n :: ms[..n][i].userPrincipalName == upn && IsSharedMember(mailbox, ms[..n][i]) {
        var i :| 0 <= i < n && ms[..n][i].userPrincipalName == upn && IsSharedMember(mailbox, ms[..n][i]);
        assert ms[i] == ms[..n][i];
      }
      if exists i | 0 <= i < |ms| :: ms[i].userPrincipalName == upn && IsSharedMember(mailbox, ms[i]) {
        var i :| 0 <= i < |ms| && ms[i].userPrincipalName == upn && IsSharedMember(mailbox, ms[i]);
        if i < n { assert ms[..n][i] == ms[i]; }
      }
    }
  }

  /** The number of members listed over all roles (a failed listing contributes none). */
  function MemberCount(roles: seq<DirectoryRole>, members: string -> Response<seq<RoleMember>>): nat
    decreases |roles|
  {
    if |roles| == 0 then 0
    else
      MemberCount(roles[..|roles| - 1], members)
      + (match MembersOf(members, roles[|roles| - 1]) case Ok(ms) => |ms| case Err(_) => 0)
  }

  /** No more matches than members over all roles. */
  lemma {:induction false} MatchesBoundedByMembers(roles: seq<DirectoryRole>, members: string -> Response<seq<RoleMember>>, mailbox: string -> Response<MailboxSettings>)
    requires SharedInRoles(roles, members, mailbox).Ok?
    ensures |SharedInRoles(roles, members, mailbox).value| <= MemberCount(roles, members)
    decreases |roles|
  {
    if |roles| > 0 {
      MatchesBoundedByMembers(roles[..|roles| - 1], members, mailbox);
    }
  }

  /** No de-duplication: a shared member of two roles is listed once per role. */
  lemma MemberOfTwoRolesListedTwice(r1: DirectoryRole, r2: DirectoryRole, m: RoleMember, members: string -> Response<seq<RoleMember>>, mailbox: string -> Response<MailboxSettings>)
    requires MembersOf(members, r1) == Ok([m]) && MembersOf(members, r2) == Ok([m])
    requires IsSharedMember(mailbox, m)
    ensures SharedInRoles([r1, r2], members, mailbox) == Ok([m.userPrincipalName, m.userPrincipalName])
  {
    var u := m.userPrincipalName;
    assert [m][..0] == [] && [m][0] == m;
    assert SharedMembers([m], mailbox) == [u] by {
      assert SharedMembers([m], mailbox) == SharedMembers([], mailbox) + [u];
    }
    var one := SharedInRoles([r1], members, mailbox);
    assert [r1][..0] == [] && [r1][0] == r1;
    assert SharedInRoles([], members, mailbox) == Ok([]);
    assert MembersOf(members, [r1][0]) == Ok([m]);
    assert one == Ok([] + SharedMembers([m], mailbox));
    assert one == Ok([u]);
    assert [r1, r2][..1] == [r1] && [r1, r2][1] == r2;
    assert SharedInRoles([r1, r2], members, mailbox) == Ok([u] + SharedMembers([m], mailbox));
    assert [u] + [u] == [u, u];
  }
}
