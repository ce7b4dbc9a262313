/**
 * send_email: validate the recipient address, build the `sendMail` request for the sender and
 * judge the reply. The POST goes to an oracle from (URL, JSON body) to response.
 */
module SendEmail {
  import opened Wrappers
  import opened Json
  import opened Graph

  /** A recipient address that passed `Email::from_str`. */
  datatype Email = Email(address: string)

  /** The command line after parsing (`verbose` only affects logging and is left out). */
  datatype Cli = Cli(email: Email, subject: string, body: string, sender: string)

  datatype SendError =
    | RequestFailed                                              // "Failed to send email request"
    | ResponseTextUnreadable                                     // "Failed to get response text"
    | Rejected(recipient: string, status: int, text: string)     // "Failed to send email to {recipient}: {status} - {text}"

  // ---------------------------------------------------------------------------
  // The address language

  /** The regex class `\s`: the Unicode White_Space property. */
  predicate IsWhitespace(c: char)
    ensures c == ' ' || c == '\t' || c == '\n' || c == '\r' ==> IsWhitespace(c)
    ensures 'a' <= c <= 'z' || 'A' <= c <= 'Z' || '0' <= c <= '9' || c == '@' || c == '.' ==> !IsWhitespace(c)
  {
    || '\U{0009}' <= c <= '\U{000D}' || c == '\U{0020}' || c == '\U{0085}' || c == '\U{00A0}'
    || c == '\U{1680}' || '\U{2000}' <= c <= '\U{200A}' || c == '\U{2028}' || c == '\U{2029}'
    || c == '\U{202F}' || c == '\U{205F}' || c == '\U{3000}'
  }

  /** The regex class `[^\s@]`. */
  predicate AddressChar(c: char) {
    !IsWhitespace(c) && c != '@'
  }

  /** `s[lo..hi]` matches `[^\s@]+`. */
  predicate Segment(s: string, lo: int, hi: int)
    requires 0 <= lo && hi <= |s|
  {
    lo < hi && forall i | lo <= i < hi :: AddressChar(s[i])
  }

  /**
   * `^[^\s@]+@[^\s@]+\.[^\s@]+$`: the string splits at an `@` and a later `.` into three
   * non-empty runs of characters that are neither whitespace nor `@`.
   */
  predicate MatchesEmailPattern(s: string)
    ensures MatchesEmailPattern(s) ==> 5 <= |s| && AddressChar(s[0]) && AddressChar(s[|s| - 1]) && '@' in s
  {
    exists at, dot | 0 < at < dot < |s| ::
      && s[at] == '@' && s[dot] == '.'
      && Segment(s, 0, at) && Segment(s, at + 1, dot) && Segment(s, dot + 1, |s|)
  }

  /**
   * The same language said plainly: no whitespace; exactly one `@`, not at the start; and
   * after the `@` a `.` that is neither the first nor the last character of that part.
   */
  predicate IsPlainEmailAddress(s: string) {
    && (forall i | 0 <= i < |s| :: !IsWhitespace(s[i]))
    && exists at | 0 < at < |s| ::
      && s[at] == '@'
      && (forall i | 0 <= i < |s| && i != at :: s[i] != '@')
      && (exists dot | at + 1 < dot < |s| - 1 :: s[dot] == '.')
  }

  lemma EmailPatternCharacterized(s: string)
    ensures MatchesEmailPattern(s) <==> IsPlainEmailAddress(s)
  {
    if MatchesEmailPattern(s) {
      var at, dot :| 0 < at < dot < |s| && s[at] == '@' && s[dot] == '.'
        && Segment(s, 0, at) && Segment(s, at + 1, dot) && Segment(s, dot + 1, |s|);
      forall i | 0 <= i < |s| && i != at ensures s[i] != '@' && !IsWhitespace(s[i]) {
        if i < at { assert AddressChar(s[i]); }
        else if i < dot { assert AddressChar(s[i]); }
        else if i > dot { assert AddressChar(s[i]); }
      }
      assert !IsWhitespace(s[at]);
      assert at + 1 < dot < |s| - 1;
    }
    if IsPlainEmailAddress(s) {
      var at :| 0 < at < |s| && s[at] == '@' && (forall i | 0 <= i < |s| && i != at :: s[i] != '@')
        && (exists dot | at + 1 < dot < |s| - 1 :: s[dot] == '.');
      var dot :| at + 1 < dot < |s| - 1 && s[dot] == '.';
      assert forall i | 0 <= i < |s| && i != at :: AddressChar(s[i]);
      assert Segment(s, 0, at) && Segment(s, at + 1, dot) && Segment(s, dot + 1, |s|);
    }
  }

  /** `Email::from_str`: accept a matching string unchanged, reject every other with its text. */
  function ParseEmail(s: string): (r: Result<Email, string>)
    ensures r.Ok? <==> IsPlainEmailAddress(s)
    ensures r.Ok? ==> r.value == Email(s)
    ensures r.Err? ==> r.error == "Invalid email: " + s
  {
    EmailPatternCharacterized(s);
    if MatchesEmailPattern(s) then Ok(Email(s)) else Err("Invalid email: " + s)
  }

  /** Addresses the language accepts, dots before the `@` and several in the domain included. */
  lemma AcceptedEmailExamples()
    ensures ParseEmail("a@b.c") == Ok(Email("a@b.c"))
    ensures ParseEmail("a.b@c.d.e") == Ok(Email("a.b@c.d.e"))
  {
    assert MatchesEmailPattern("a@b.c") by {
      var e := "a@b.c";
      assert e[1] == '@' && e[3] == '.';
      assert Segment(e, 0, 1) && Segment(e, 2, 3) && Segment(e, 4, 5);
    }
    assert MatchesEmailPattern("a.b@c.d.e") by {
      var e := "a.b@c.d.e";
      assert e[3] == '@' && e[5] == '.';
      assert Segment(e, 0, 3) && Segment(e, 4, 5) && Segment(e, 6, 9);
    }
  }

  /** Nothing before the `@`, two `@`, or whitespace: rejected. */
  lemma RejectedEmailExamples()
    ensures ParseEmail("@b.c") == Err("Invalid email: @b.c")
    ensures ParseEmail("a@b@c.d").Err?
    ensures ParseEmail("a b@c.d").Err?
  {
    assert "@b.c"[0] == '@';
    assert "Invalid email: " + "@b.c" == "Invalid email: @b.c";
    assert "a@b@c.d"[1] == '@' && "a@b@c.d"[3] == '@';
    assert "a b@c.d"[1] == ' ';
  }

  /** A `.` that opens or ends the domain does not count: rejected. */
  lemma MisplacedDotExamples()
    ensures ParseEmail("a@.bc").Err?
    ensures ParseEmail("a@bc.").Err?
  {
  }

  // ---------------------------------------------------------------------------
  // The request

  /** The URL of `send_email`. */
  function SendMailUrl(sender: string): string {
    UsersPrefix + sender + "/sendMail"
  }

  /** `create_email_data`: the `sendMail` body. */
  function CreateEmailData(cli: Cli): (v: Json)
    ensures v.JObject? && v.fields.Keys == {"message", "saveToSentItems"}
    ensures Path(v, ["message", "subject"]) == JString(cli.subject)
    ensures Path(v, ["message", "body", "contentType"]) == JString("Text")
    ensures Path(v, ["message", "body", "content"]) == JString(cli.body)
    ensures Path(v, ["saveToSentItems"]) == JString("true")
    ensures Path(v, ["message"]).JObject? && Path(v, ["message"]).fields.Keys == {"subject", "body", "toRecipients"}
    ensures Path(v, ["message", "body"]).JObject? && Path(v, ["message", "body"]).fields.Keys == {"contentType", "content"}
    ensures var recipients := Path(v, ["message", "toRecipients"]);
      recipients.JArray? && |recipients.items| == 1
      && recipients.items[0].JObject? && recipients.items[0].fields.Keys == {"emailAddress"}
      && Path(recipients.items[0], ["emailAddress"]).JObject?
      && Path(recipients.items[0], ["emailAddress"]).fields.Keys == {"address"}
      && Path(recipients.items[0], ["emailAddress", "address"]) == JString(cli.email.address)
  {
    var recipient := JObject(map["emailAddress" := JObject(map["address" := JString(cli.email.address)])]);
    var message := JObject(map[
      "subject" := JString(cli.subject),
      "body" := JObject(map["contentType" := JString("Text"), "content" := JString(cli.body)]),
      "toRecipients" := JArray([recipient])]);
    JObject(map["message" := message, "saveToSentItems" := JString("true")])
  }

  // ---------------------------------------------------------------------------
  // The reply

  /**
   * `handle_email_response`: the body text is read first, so an unreadable body is an error
   * whatever the status; then a 2xx status succeeds and any other is reported with the recipient.
   */
  function HandleEmailResponse(status: int, text: Option<string>, recipient: string): (r: Result<(), SendError>)
    ensures r.Ok? <==> text.Some? && IsSuccess(status)
    ensures text.None? ==> r == Err(ResponseTextUnreadable)
    ensures text.Some? && !IsSuccess(status) ==> r == Err(Rejected(recipient, status, text.value))
  {
    if text.None? then Err(ResponseTextUnreadable)
    else if IsSuccess(status) then Ok(())
    else Err(Rejected(recipient, status, text.value))
  }

  /** `send_email`: POST the body to the sender's URL and judge the reply. */
  function Send(cli: Cli, post: (string, Json) -> Response<()>): (r: Result<(), SendError>)
    ensures var resp := post(SendMailUrl(cli.sender), CreateEmailData(cli));
      && (resp.SendFailed? ==> r == Err(RequestFailed))
      && (r.Ok? <==> resp.Received? && resp.text.Some? && IsSuccess(resp.status))
      && (r.Err? && r.error.Rejected? ==> r.error.recipient == cli.email.address)
      && (resp.Received? ==> r == HandleEmailResponse(resp.status, resp.text, cli.email.address))
  {
    match post(SendMailUrl(cli.sender), CreateEmailData(cli))
    case SendFailed => Err(RequestFailed)
    case Received(status, text, _) => HandleEmailResponse(status, text, cli.email.address)
  }
}
