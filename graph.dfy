/**
 * What the Rust tools see of one exchange with the directory's REST API, and the two ways
 * their fetch functions turn it into a value or an error.
 */
module Graph {
  import opened Wrappers

  /**
   * The outcome of one HTTP request: either it could not be sent (`send()` returned an error),
   * or a response arrived with a status code, its body as text (None when reading the body
   * fails) and its body decoded as a `T` (None when decoding fails). The request's bearer
   * token is not modelled.
   */
  datatype Response<T> =
    | SendFailed
    | Received(status: int, text: Option<string>, decoded: Option<T>)

  /** reqwest's `StatusCode::is_success`: any 2xx code. */
  predicate IsSuccess(status: int) {
    200 <= status <= 299
  }

  /** The errors of the fetch functions, one per `context` or `anyhow!` site. */
  datatype GraphError =
    | SendError                 // "Failed to send request ..."
    | DecodeError               // "Failed to parse ... response"
    | TextUnreadable            // "Failed to read error response text"
    | HttpError(text: string)   // "HTTP error: {text}"
    | StatusError(status: int)  // "Graph API request failed with status: {status}"

  /**
   * The discipline of `get_users` and of both `get_mailbox_settings`: on a 2xx status the body
   * is decoded; on any other status the body text is read and becomes the error.
   */
  function DecodeOrReportText<T>(resp: Response<T>): (r: Result<T, GraphError>)
    ensures r.Ok? <==> resp.Received? && IsSuccess(resp.status) && resp.decoded.Some?
    ensures r.Ok? ==> r.value == resp.decoded.value
    ensures resp.SendFailed? ==> r == Err(SendError)
    ensures resp.Received? && IsSuccess(resp.status) && resp.decoded.None? ==> r == Err(DecodeError)
    ensures resp.Received? && !IsSuccess(resp.status) ==>
      r == (if resp.text.Some? then Err(HttpError(resp.text.value)) else Err(TextUnreadable))
  {
    match resp
    case SendFailed => Err(SendError)
    case Received(status, text, decoded) =>
      if IsSuccess(status) then
        (if decoded.Some? then Ok(decoded.value) else Err(DecodeError))
      else
        (if text.Some? then Err(HttpError(text.value)) else Err(TextUnreadable))
  }

  /**
   * The discipline of `fetch_directory_roles` and `fetch_directory_role_members`: on a 2xx
   * status the body is decoded; on any other status only the status is reported and the body
   * is never read.
   */
  function DecodeOrReportStatus<T>(resp: Response<T>): (r: Result<T, GraphError>)
    ensures r.Ok? <==> resp.Received? && IsSuccess(resp.status) && resp.decoded.Some?
    ensures r.Ok? ==> r.value == resp.decoded.value
    ensures resp.SendFailed? ==> r == Err(SendError)
    ensures resp.Received? && IsSuccess(resp.status) && resp.decoded.None? ==> r == Err(DecodeError)
    ensures resp.Received? && !IsSuccess(resp.status) ==> r == Err(StatusError(resp.status))
  {
    match resp
    case SendFailed => Err(SendError)
    case Received(status, _, decoded) =>
      if !IsSuccess(status) then Err(StatusError(status))
      else if decoded.Some? then Ok(decoded.value)
      else Err(DecodeError)
  }

  /** The `mailboxSettings` resource; only `userPurpose` is decoded, and it may be absent. */
  datatype MailboxSettings = MailboxSettings(userPurpose: Option<string>)

  const UsersPrefix := "https://graph.microsoft.com/v1.0/users/"

  function MailboxSettingsUrl(upn: string): string {
    UsersPrefix + upn + "/mailboxSettings"
  }

  /**
   * `get_mailbox_settings(upn)` against an oracle that answers each URL: a GET of the user's
   * mailbox settings, handled by `DecodeOrReportText`.
   */
  function GetMailboxSettings(mailbox: string -> Response<MailboxSettings>, upn: string): (r: Result<MailboxSettings, GraphError>)
    ensures r.Ok? <==>
      var resp := mailbox(MailboxSettingsUrl(upn));
      resp.Received? && IsSuccess(resp.status) && resp.decoded.Some?
    ensures r.Ok? ==> r.value == mailbox(MailboxSettingsUrl(upn)).decoded.value
  {
    DecodeOrReportText(mailbox(MailboxSettingsUrl(upn)))
  }
}
