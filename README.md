# microsoft_services_tools, modelled in Dafny

The repository holds small command-line tools that work on a Microsoft 365 tenant through the
Microsoft Graph REST API (and, for one tool, the Azure commerce API). This project models the
logic of seven of them. Every remote call becomes an oracle: a function from the request to its
response, or, for paging loops, a finite script of responses. The proofs are about what each tool
does with those responses.

- **audit_sharedmailbox_licenses** pages through all users by following `@odata.nextLink`. It then
  looks up the mailbox settings of every licensed user, and counts the users whose mailbox purpose
  is exactly `"shared"` (module `SharedMailboxLicenses`).
- **audit_sharedmailbox_adminroles** lists the directory roles, then each role's members, then
  each member's mailbox settings. It collects the members whose purpose is `"shared"` in any letter
  case. Role and member listing failures are fatal; a failed mailbox lookup is skipped
  (module `SharedMailboxAdminRoles`).
- **revoke_mfaregistrations** lists a user's authentication methods as (type, id) pairs. It deletes
  every software-OATH method in listed order and stops at the first failed delete. `main` swallows
  every error (module `RevokeMfaRegistrations`).
- **licenseChecker** (Go) walks the SKU pager. It reports the remaining units of the SKUs named on
  the command line, or of every SKU when the only argument is `*` (module `LicenseChecker`).
- **licenseRemoval** (Go) reads a user's assigned SKU ids. It removes them all with one
  `assignLicense` POST, and skips the POST when there are none (module `LicenseRemoval`).
- The two Go programs share the same `.env` credential check (module `GoConfig`).
- **send_email** validates the recipient against `^[^\s@]+@[^\s@]+\.[^\s@]+$`. It builds the
  `sendMail` JSON body for the sender and judges the reply (module `SendEmail`).
- **get_email** prints a message search result: pretty JSON, or, in spoofing mode, one block per
  message. Each Reply-To entry and the Sender are coloured green or red by whether they equal
  From; From gets the same colour as Sender (module `GetEmail`; the terminal is a class whose
  `lines` field collects the printed lines).

Shared modules:
- `Wrappers` holds `Option` and `Result`.
- `Json` holds the part of serde_json's `Value` the tools index into. A missing member, or indexing
  a non-object, gives null.
- `Graph` holds the shape of an HTTP reply and the two error disciplines of the Rust fetch
  functions:
  - report the body text on a non-2xx status;
  - or report only the status.

  It also holds the mailbox-settings lookup, which two tools share.

The oracles are deterministic. When a tool issues requests concurrently, the model issues them
one after another in the source's own order.

## Model

| member | source | states |
|---|---|---|
| Graph.DecodeOrReportText | audit_sharedmailbox_licenses/src/main.rs:72-102 | Ok iff the request was sent, the status is 2xx and the body decoded, and then the value is the decoded body. A send failure, a decode failure and an unreadable error body each give their own error. A non-2xx status gives `HttpError` carrying the body text. |
| Graph.DecodeOrReportStatus | audit_sharedmailbox_adminroles/src/main.rs:68-118 | Ok iff sent, 2xx and decoded, with the decoded value. A non-2xx status gives `StatusError(status)` and the body is never read. |
| Graph.GetMailboxSettings | audit_sharedmailbox_adminroles/src/main.rs:120-147 | The lookup GETs `.../users/{upn}/mailboxSettings`. It succeeds iff that response is 2xx and decoded, with the decoded settings. |
| SharedMailboxLicenses.GetUsers | audit_sharedmailbox_licenses/src/main.rs:63-107 | The paging loop returns the reference fetch `FetchUsers` of the script. The URLs it requests are the first URL, then each next link followed. |
| SharedMailboxLicenses.CompleteWalkFetchesAllPages | audit_sharedmailbox_licenses/src/main.rs:81-95 | When every page before the n-th names a next page and the n-th names none, the fetch returns every page's users, concatenated in page order and then within-page order. |
| SharedMailboxLicenses.FetchSucceedsOnlyOnCompleteWalk | audit_sharedmailbox_licenses/src/main.rs:87-106 | A successful fetch is always such a complete walk, and holds exactly the walked pages' users. |
| SharedMailboxLicenses.FailedPageAbortsFetch | audit_sharedmailbox_licenses/src/main.rs:72-85 | A failing page reached after only continuing pages makes the whole fetch return that page's error. The users gathered from earlier pages are discarded. |
| SharedMailboxLicenses.RequestsFollowNextLinks | audit_sharedmailbox_licenses/src/main.rs:89-95 | The first request goes to the start URL and each later one to the next link of the page before it. The walk stops at the first page that does not continue, and makes at most one more request than there are scripted responses. |
| SharedMailboxLicenses.EnrichPurposes | audit_sharedmailbox_licenses/src/main.rs:161-189 | Lookups are dispatched for exactly the licensed users' UPNs, in order. A UPN is a key of the map iff it was dispatched and its lookup succeeded. Its value is that lookup's `user_purpose`, which may be None. |
| SharedMailboxLicenses.LookupFailureIsIsolated | audit_sharedmailbox_licenses/src/main.rs:175-184 | A failed lookup leaves its UPN out of the map. Changing the answer for one UPN's URL changes no other key and no other value. |
| SharedMailboxLicenses.MailboxSettingsUrlInjective | audit_sharedmailbox_licenses/src/main.rs:110-113 | Different UPNs give different mailbox-settings URLs. |
| SharedMailboxLicenses.PurposeKeysAreLicensed | audit_sharedmailbox_licenses/src/main.rs:166-167 | Every key of the purpose map is the UPN of a user with at least one assigned license. |
| SharedMailboxLicenses.LicensedUpnsFromLicensed | audit_sharedmailbox_licenses/src/main.rs:166-172 | Every dispatched UPN belongs to a licensed user. |
| SharedMailboxLicenses.CountShared | audit_sharedmailbox_licenses/src/main.rs:194-206 | The final loop reports those users, in listing order, whose entry is exactly `Some("shared")`, with an absent entry read as None. The count equals the number reported. |
| SharedMailboxLicenses.SharedUpnsMembership | audit_sharedmailbox_licenses/src/main.rs:195-203 | A UPN is reported iff some user carries it and its entry is exactly `Some("shared")`, case-sensitively. |
| SharedMailboxLicenses.SharedCountBoundedByLicensed | audit_sharedmailbox_licenses/src/main.rs:194-206 | When only licensed users can have a shared entry, the number reported is at most the number of licensed users. |
| SharedMailboxLicenses.SharedCountAtMostLicensed | audit_sharedmailbox_licenses/src/main.rs:161-206 | With distinct UPNs, the final count is at most the number of licensed users. |
| SharedMailboxLicenses.AuditLicenses | audit_sharedmailbox_licenses/src/main.rs:157-211 | A fetch failure is returned and no mailbox lookup is dispatched. Otherwise the lookups dispatched are exactly the licensed users' UPNs, in order, and the tally is the shared users of the fetched list under the purpose map, and its count is their number. |
| SharedMailboxAdminRoles.ToLower | audit_sharedmailbox_adminroles/src/main.rs:227 | Lower-casing keeps the length and lower-cases each character. |
| SharedMailboxAdminRoles.SharedIgnoringCase | audit_sharedmailbox_adminroles/src/main.rs:227 | A purpose lower-cases to `"shared"` iff it is six letters, each being that letter of "shared" in either case. |
| SharedMailboxAdminRoles.SharedMembers | audit_sharedmailbox_adminroles/src/main.rs:211-239 | One role contributes no more matches than it has members. |
| SharedMailboxAdminRoles.MembersOf | audit_sharedmailbox_adminroles/src/main.rs:92-118 | The member listing GETs `.../directoryRoles/{id}/members`. It is Ok iff that reply is a decoded 2xx, with the decoded members. A non-2xx status gives `StatusError(status)`. |
| SharedMailboxAdminRoles.ProcessDirectoryRoles | audit_sharedmailbox_adminroles/src/main.rs:203-243 | The nested loops return the reference `SharedAdmins`. That is the role-listing error, or the first failing member listing's error, or the shared members in role order and then member order. |
| SharedMailboxAdminRoles.PrefixErrorPersists | audit_sharedmailbox_adminroles/src/main.rs:210 | Once a role's member listing fails, no later role changes the result: the error is returned with no partial list. |
| SharedMailboxAdminRoles.SucceedsIffEveryListingSucceeds | audit_sharedmailbox_adminroles/src/main.rs:205-210 | The audit over a role list succeeds iff every role's member listing succeeds. |
| SharedMailboxAdminRoles.FirstFailingRoleDecides | audit_sharedmailbox_adminroles/src/main.rs:208-210 | When the i-th role is the first whose listing fails, the audit fails with that role's error. |
| SharedMailboxAdminRoles.SharedMembersAppend | audit_sharedmailbox_adminroles/src/main.rs:211-239 | The matches of two member lists placed one after the other are the first list's matches followed by the second's. |
| SharedMailboxAdminRoles.SharedInRolesAppend | audit_sharedmailbox_adminroles/src/main.rs:208-240 | The matches of two role lists placed one after the other are the first list's matches followed by the second's. |
| SharedMailboxAdminRoles.SharedInRolesSnoc | audit_sharedmailbox_adminroles/src/main.rs:208-240 | One more role whose listing succeeds appends that role's matches after the earlier ones. |
| SharedMailboxAdminRoles.FailedLookupSkipsOnlyThatMember | audit_sharedmailbox_adminroles/src/main.rs:232-237 | A member whose lookup fails is skipped. The members before it and after it are matched as usual. |
| SharedMailboxAdminRoles.SharedMembersMembership | audit_sharedmailbox_adminroles/src/main.rs:226-228 | A UPN is listed for a role iff one of its members carries it, that member's lookup succeeded, and the purpose is present and lower-cases to `"shared"`. |
| SharedMailboxAdminRoles.MatchesBoundedByMembers | audit_sharedmailbox_adminroles/src/main.rs:203-242 | The result is no longer than the total number of members over all roles. |
| SharedMailboxAdminRoles.MemberOfTwoRolesListedTwice | audit_sharedmailbox_adminroles/src/main.rs:208-230 | There is no de-duplication: a shared member of two roles is listed twice. |
| RevokeMfaRegistrations.ExtractMethods | revoke_mfaregistrations/src/main.rs:66-76 | Extraction yields at most one pair per entry. |
| RevokeMfaRegistrations.MethodEntry | revoke_mfaregistrations/src/main.rs:70-75 | An entry yields a pair iff both its `@odata.type` and its `id` are strings, and the pair holds exactly those two strings. |
| RevokeMfaRegistrations.ExtractMethodsAppend | revoke_mfaregistrations/src/main.rs:66-76 | Extraction distributes over concatenation, so the listed order is kept. |
| RevokeMfaRegistrations.ExtractMethodsMembership | revoke_mfaregistrations/src/main.rs:70-76 | A pair is extracted iff some entry has that `@odata.type` and that `id`, both as strings. |
| RevokeMfaRegistrations.GetAuthenticationMethods | revoke_mfaregistrations/src/main.rs:50-91 | The listing GETs the user's methods URL. It is Ok iff the reply is a decoded 2xx whose `value` is an array, and then holds that array's extracted pairs. A non-2xx status gives an error carrying user, status and text. A 2xx whose `value` is not an array is the `unwrap` failure. |
| RevokeMfaRegistrations.DeleteResult | revoke_mfaregistrations/src/main.rs:100-136 | The DELETE goes to `.../users/{user}/authentication/softwareOathMethods/{id}`. It is Ok iff that reply is 2xx. A non-2xx status with readable text gives an error carrying method id, user, status and text. |
| RevokeMfaRegistrations.DeleteAuthenticationMethod | revoke_mfaregistrations/src/main.rs:93-137 | A type other than software-OATH succeeds with no request. The software-OATH type makes exactly that one DELETE and returns its result. |
| RevokeMfaRegistrations.OathIds | revoke_mfaregistrations/src/main.rs:142-146 | There are no more ids to delete than listed methods. |
| RevokeMfaRegistrations.OathIdsMembership | revoke_mfaregistrations/src/main.rs:142-143 | An id is deleted iff a listed method of the software-OATH type carries it. |
| RevokeMfaRegistrations.DeleteEach | revoke_mfaregistrations/src/main.rs:142-146 | The walk makes at most one request per id. Its error is a send, text or delete failure, never a listing error. |
| RevokeMfaRegistrations.DeleteEachRequestsInOrder | revoke_mfaregistrations/src/main.rs:142-146 | The k-th DELETE made is for the k-th software-OATH id. |
| RevokeMfaRegistrations.DeleteEachStopsAtFirstFailure | revoke_mfaregistrations/src/main.rs:144 | Every DELETE except the last succeeded. A failed walk returns the last DELETE's error, and no later id is requested. |
| RevokeMfaRegistrations.DeleteEachSucceedsIffEveryDeleteSucceeds | revoke_mfaregistrations/src/main.rs:142-151 | The walk succeeds iff every id was requested and every DELETE succeeded. |
| RevokeMfaRegistrations.RequireMfaReregistration | revoke_mfaregistrations/src/main.rs:139-152 | A listing error is returned with no DELETE made. Otherwise the result and the requests made are those of the reference walk over the software-OATH ids. |
| RevokeMfaRegistrations.Run | revoke_mfaregistrations/src/main.rs:155-187 | A token failure completes normally with no request. A re-registration error also completes normally. The process panics iff the token was obtained and the listing's `value` was not an array. The deletes made are the reference walk's. |
| LicenseChecker.Contains | licenseChecker/main.go:125-132 | True iff the string occurs in the slice. |
| LicenseChecker.IsWildcard | licenseChecker/main.go:121 | The wildcard is the argument list that is exactly `["*"]`. |
| LicenseChecker.ShouldIncludeSku | licenseChecker/main.go:120-123 | A SKU is included iff the arguments are exactly `["*"]` or its name is one of them. |
| LicenseChecker.SelectionRule | licenseChecker/main.go:120-123 | With exactly the one argument `*`, every name is selected. Otherwise a name is selected iff it is one of the arguments. |
| LicenseChecker.StarAmongOthersIsLiteral | licenseChecker/main.go:121-122 | A `*` among several arguments selects only a SKU literally named `*`. |
| LicenseChecker.Availability | licenseChecker/main.go:108-112 | A row carries the SKU's name, and its remaining units are capacity minus used capacity. |
| LicenseChecker.Selected | licenseChecker/main.go:106-114 | A page yields no more rows than it has SKUs. |
| LicenseChecker.FirstPageError | licenseChecker/main.go:100-104 | Returns the index of a failed page with only good pages before it. |
| LicenseChecker.SelectedAppend | licenseChecker/main.go:100-115 | Selection distributes over SKU lists placed one after the other, so page order and within-page order are kept. |
| LicenseChecker.SelectedMembership | licenseChecker/main.go:106-113 | A row is reported iff some SKU passes the selection and yields that row. |
| LicenseChecker.WildcardReportsEverySku | licenseChecker/main.go:121 | With `*`, the i-th row is the i-th SKU's row, for every SKU. |
| LicenseChecker.GetSkuAvailabilities | licenseChecker/main.go:93-118 | Ok iff no page fails, and then the rows are the selected SKUs of every page, in order. Otherwise earlier rows are discarded and the error is `failed to list SKUs: ` followed by the first failed page's message. |
| LicenseChecker.ReportedRowsComeFromSelectedSkus | licenseChecker/main.go:106-113 | Every reported row names a selected SKU of some page and carries that SKU's capacity minus used capacity. |
| GoConfig.Getenv | licenseChecker/main.go:67-69 | An unset variable reads as the empty string. |
| GoConfig.LoadConfig | licenseRemoval/main.go:118-134 | A `.env` load failure gives `error loading .env file: ` followed by the message. Otherwise the load succeeds iff all three credentials are set and non-empty, with exactly those values. The failure message is `missing required environment variables`. licenseChecker/main.go:61-77 is the same function. |
| LicenseRemoval.GetAssignedLicenses | licenseRemoval/main.go:62-82 | The status code is never looked at; only a failed send or an undecodable body is an error. On success the result holds the `skuId` of each entry, in order, one per entry. |
| LicenseRemoval.SkuIdsOf | licenseRemoval/main.go:76-81 | The ids are the entries' `skuId`s, one per entry, in order. |
| LicenseRemoval.RemoveLicensesCall | licenseRemoval/main.go:85-91 | The request is a POST to `.../users/{upn}/assignLicense`. Its body has an empty `addLicenses`, and `removeLicenses` is exactly the given list. |
| LicenseRemoval.RemoveLicenses | licenseRemoval/main.go:105-115 | Succeeds iff the reply's status is exactly 200. Every other status is an error carrying the code. A failed send is its own error. |
| LicenseRemoval.OtherSuccessCodesAreErrors | licenseRemoval/main.go:111-113 | Every 2xx status other than 200 is rejected. |
| LicenseRemoval.ExitCode | licenseRemoval/main.go:157-166 | Only the two normal endings, no licenses found and licenses removed, exit with status 0; every `log.Fatal` ending exits with 1, and no other status occurs. `Run` ties the exit status to the replies. |
| LicenseRemoval.Run | licenseRemoval/main.go:136-167 | With no argument, or a configuration failure, no request is made. Otherwise the first request is the GET. A failed GET gives `GettingFailed(GetFailed)` and an undecodable body `GettingFailed(DecodeFailed)`, with no further request. A decoded empty list gives `NoLicensesToRemove` with no POST. A non-empty list makes exactly one POST, the remove request for exactly those ids. The run ends `Removed` iff that POST got status 200, and otherwise `RemovingFailed` with the POST's error. The exit status is 0 iff the configuration loaded, the GET decoded, and the list was empty or the POST got status 200. |
| SendEmail.EmailPatternCharacterized | send_email/src/main.rs:36-37 | The regex `^[^\s@]+@[^\s@]+\.[^\s@]+$` matches a string iff it has no whitespace, exactly one `@` not at the start, and after it a `.` that is neither the first nor the last character of the part after the `@`. |
| SendEmail.IsWhitespace | send_email/src/main.rs:36 | Space, tab, newline and carriage return are whitespace. Letters, digits, `@` and `.` are not. |
| SendEmail.MatchesEmailPattern | send_email/src/main.rs:36-37 | A matching string has at least five characters, contains an `@`, and starts and ends with a character that is neither whitespace nor `@`. |
| SendEmail.ParseEmail | send_email/src/main.rs:35-42 | A string is accepted iff it is such an address, and then it is wrapped unchanged. Every other string is rejected with `Invalid email: ` followed by the string. |
| SendEmail.AcceptedEmailExamples | send_email/src/main.rs:36-38 | `a@b.c` and `a.b@c.d.e` are accepted unchanged. |
| SendEmail.RejectedEmailExamples | send_email/src/main.rs:36-40 | An empty local part, two `@` and a space are each rejected. |
| SendEmail.MisplacedDotExamples | send_email/src/main.rs:36-40 | A dot that opens or ends the domain is rejected. |
| SendEmail.CreateEmailData | send_email/src/main.rs:110-128 | The body has exactly the members `message` and `saveToSentItems` = `"true"`. The message has exactly `subject`, `body` and `toRecipients`. The subject and content are copied verbatim, with `contentType` `"Text"`. `body` has exactly `contentType` and `content`. There is exactly one recipient, holding only `emailAddress`, which holds only `address`: the validated recipient. |
| SendEmail.HandleEmailResponse | send_email/src/main.rs:146-166 | The text is read first, so an unreadable body is an error whatever the status. Otherwise the reply is Ok iff the status is 2xx. Any other status is an error carrying recipient, status and text. |
| SendEmail.Send | send_email/src/main.rs:95-108 | The body is POSTed to the sender's URL. A failed send is `RequestFailed`. Any arrived reply is judged by `HandleEmailResponse` with the recipient, so a non-2xx reply with readable text is rejected with its status and text. The result is Ok iff the reply is 2xx with readable text. |
| GetEmail.TextAt | get_email/src/main.rs:142 | A field that is missing, or is not a string, reads as `"Unknown"`. Otherwise it reads as the string. |
| GetEmail.Agreement | get_email/src/main.rs:158-164 | Green iff the address equals the reference address. |
| GetEmail.ReplyToEntriesAreClassified | get_email/src/main.rs:153-165 | A non-empty Reply-To array prints one line per entry, in order. Each line shows the entry's address, or `Unknown`, green iff it equals the From address. |
| GetEmail.ReplyToEdgeCases | get_email/src/main.rs:153-170 | An empty Reply-To array prints `ReplyTo: None`. A missing or non-array Reply-To prints nothing. |
| GetEmail.SenderAndFromAgree | get_email/src/main.rs:173-186 | Sender and From are printed in one colour, green iff the two addresses are equal. Two missing addresses are both `Unknown` and so agree. |
| GetEmail.BareMessageBlock | get_email/src/main.rs:142-147 | A message with only a subject prints the subject, `Unknown` for Sender and From in green, then a blank line. |
| GetEmail.ConcatMapAppend | get_email/src/main.rs:140-148 | The lines of two message lists placed one after the other are the first list's lines, then the second's. |
| GetEmail.BlocksInOrder | get_email/src/main.rs:140-148 | Messages are printed in array order: each message's block comes after the blocks of the messages before it and before those after it. |
| GetEmail.Terminal.ProcessReplyTo | get_email/src/main.rs:152-171 | Appends exactly the Reply-To section to the printed lines. |
| GetEmail.Terminal.ProcessSenderAndFrom | get_email/src/main.rs:173-186 | Appends exactly the Sender and From lines. |
| GetEmail.Terminal.PrintEmailBlock | get_email/src/main.rs:142-147 | Appends one message's block: the subject line, its Reply-To section, its Sender and From lines, then a blank line. |
| GetEmail.Terminal.ProcessSpoofedEmails | get_email/src/main.rs:137-150 | Appends one block per message of `value`, in array order, and nothing when `value` is not an array. |
| GetEmail.Terminal.ProcessEmails | get_email/src/main.rs:129-135 | With the flag set, appends the spoofing report. Otherwise appends one pretty-printed copy of the whole document. |

## Left out

- Token acquisition (the OAuth 2.0 client-credentials grant of section 4.4 of RFC 6749, in every
  `auth.rs`) is outside the model. The bearer token attached to each request is not modelled;
  revoke_mfaregistrations' `Run` takes its outcome as a parameter.
- HTTP, JSON decoding and the Azure SDK pager are replaced by oracles. A reply is "could not be
  sent", or an arrived reply with a status, a body text that may be unreadable and a body that may
  not decode. A paging request made after the scripted replies run out counts as a send failure.
- Concurrency in audit_sharedmailbox_licenses (`tokio::spawn`, the shared `Mutex<HashMap>`,
  `join_all`) is modelled as a sequential loop in listing order. The lookup oracle is deterministic,
  so a UPN listed twice writes the same value twice; the nondeterministic order of concurrent
  writers is not modelled.
- The paging loop of `get_users` has no termination guarantee if next links cycle. The model is
  driven by a finite script instead.
- SharedMailboxLicenses.SharedCountAtMostLicensed: requires distinct UPNs. With a repeated UPN,
  an unlicensed copy of a licensed user's UPN is counted too, so the bound does not hold in general.
- Logging (`debug!`, `info!`, `error!`, `log.Println`), logger setup, clap argument parsing,
  `.env` loading and `get_env_file_path` are left out. The Go programs' `.env` failure and
  environment are parameters of `GoConfig.LoadConfig`.
- The startup of the Rust `main` functions is left out: reading `TENANT_ID`/`CLIENT_ID`/`CLIENT_SECRET`
  and obtaining the token.
- audit_sharedmailbox_adminroles prints each role and member and a final list. That printing is
  left out; `ProcessDirectoryRoles` returns the list the final loop prints.
- SharedMailboxAdminRoles.ToLower: Rust's Unicode `to_lowercase` is approximated by ASCII
  lower-casing. For the comparison with `"shared"` the result is the same: a non-ASCII character
  that lower-cases to a letter of "shared" would have to exist, and none does (the Kelvin sign
  lower-cases to `k`).
- SendEmail.IsWhitespace: the regex class `\s` is modelled as the full Unicode White_Space
  property (25 code points), which is what the `regex` crate uses, rather than ASCII whitespace only.
- LicenseChecker.Availability: capacities come from an SDK outside the model and are modelled as
  unbounded integers. The `int(...)` conversion and any floating point in those fields are not
  modelled.
- licenseChecker's `run`, `parseArgs`, `newCommerceClient` and `printJSON` (JSON marshalling and
  output, which prints `null` for an empty result) are left out. `GetSkuAvailabilities` and
  `GoConfig.LoadConfig` are their modelled steps. The 30-second timeout of the pager context is left
  out; a timeout shows up as a page error.
- In licenseChecker, the SKU fields `Name`, `Capacity` and `UsedCapacity` are pointers that
  licenseChecker/main.go:107-110 dereferences without a check, so a SKU missing one of them panics
  in the source. The model assumes all three are present.
- licenseRemoval's `NewClient` and the `json.Marshal`/`http.NewRequest` failures in
  `RemoveLicenses` are left out; neither can fail for these inputs. A decoded response with no `value`
  member has a nil list, which reads as empty, as in the model.
- `LicenseRemoval.Run` does not model the text printed; it records the outcome and the requests.
- send_email's `Regex::new` cannot fail for the fixed pattern and is not modelled. The `verbose`
  flag only affects logging. `main` (argument parsing, token, the final log line) is left out.
- get_email's terminal colours are modelled as a `Color` tag on a line. `search_email_messages`
  (an HTTP GET) and the external `ms_auth_service` process that provides the token are left out.
- revoke_mfaregistrations' `.as_array().unwrap()` panic is modelled as the error `ValueNotArray`.
  `RevokeMfaRegistrations.Run` maps it to a `Panicked` exit.
