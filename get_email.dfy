/**
 * get_email: print a message search result, either as pretty JSON or, in spoofing mode, one
 * block per message that colours each Reply-To, Sender and From address by whether it agrees
 * with From. Printing is appending to the lines of a `Terminal`.
 */
module GetEmail {
  import opened Wrappers
  import opened Json

  datatype Color = Green | Red

  /** One printed line. */
  datatype Line =
    | Plain(text: string)                                  // uncoloured text
    | Tinted(heading: string, address: string, color: Color) // "{heading}: {address}" with the address coloured
    | Pretty(value: Json)                                  // `to_string_pretty` of a whole document

  const Unknown := "Unknown"

  /** `v[k0][k1]...as_str().unwrap_or("Unknown")`. */
  function TextAt(v: Json, keys: seq<string>): (t: string)
    ensures Path(v, keys).JString? ==> t == Path(v, keys).s
    ensures !Path(v, keys).JString? ==> t == Unknown
  {
    AsStr(Path(v, keys)).GetOr(Unknown)
  }

  function SubjectOf(email: Json): string { TextAt(email, ["subject"]) }
  function FromAddress(email: Json): string { TextAt(email, ["from", "emailAddress", "address"]) }
  function SenderAddress(email: Json): string { TextAt(email, ["sender", "emailAddress", "address"]) }
  function ReplyAddress(reply: Json): string { TextAt(reply, ["emailAddress", "address"]) }

  /** The colour of an address compared with a reference address. */
  function Agreement(address: string, reference: string): (c: Color)
    ensures c == Green <==> address == reference
  {
    if address == reference then Green else Red
  }

  // ---------------------------------------------------------------------------
  // What each step prints

  /** The lines of `process_reply_to`. */
  function ReplyToSection(email: Json): seq<Line> {
    match AsArray(Field(email, "replyTo"))
    case None => []
    case Some(replies) =>
      if |replies| == 0 then
        [Plain("ReplyTo: None")]
      else
        seq(|replies|, i requires 0 <= i < |replies| =>
          Tinted("ReplyTo", ReplyAddress(replies[i]), Agreement(ReplyAddress(replies[i]), FromAddress(email))))
  }

  /** The two lines of `process_sender_and_from`. */
  function SenderAndFrom(email: Json): seq<Line> {
    var color := Agreement(SenderAddress(email), FromAddress(email));
    [Tinted("Sender", SenderAddress(email), color), Tinted("From", FromAddress(email), color)]
  }

  /** The block printed for one message: subject, Reply-To section, Sender and From, blank line. */
  function EmailBlock(email: Json): seq<Line> {
    [Plain("Subject: " + SubjectOf(email))] + ReplyToSection(email) + SenderAndFrom(email) + [Plain("")]
  }

  /** The lines `f` gives for each element of `xs`, one element after the other. */
  function ConcatMap<A, B>(f: A -> seq<B>, xs: seq<A>): seq<B>
    decreases |xs|
  {
    if |xs| == 0 then [] else ConcatMap(f, xs[..|xs| - 1]) + f(xs[|xs| - 1])
  }

  /** The blocks of a list of messages, in order. */
  function Blocks(emails: seq<Json>): seq<Line> {
    ConcatMap(EmailBlock, emails)
  }

  /** The lines of `process_spoofed_emails`. */
  function SpoofedReport(emails: Json): seq<Line> {
    match AsArray(Field(emails, "value"))
    case None => []
    case Some(items) => Blocks(items)
  }

  /** The lines of `process_emails`. */
  function Report(emails: Json, spoofed: bool): seq<Line> {
    if spoofed then SpoofedReport(emails) else [Pretty(emails)]
  }

  // ---------------------------------------------------------------------------
  // Properties of the report

  /**
   * With a non-empty Reply-To array, one line per entry, in order: its address (or "Unknown"),
   * green iff it equals the From address.
   */
  lemma ReplyToEntriesAreClassified(email: Json)
    requires Field(email, "replyTo").JArray? && |Field(email, "replyTo").items| > 0
    ensures var replies := Field(email, "replyTo").items;
      && |ReplyToSection(email)| == |replies|
      && forall i | 0 <= i < |replies| ::
        && ReplyToSection(email)[i].Tinted?
        && ReplyToSection(email)[i].address == TextAt(replies[i], ["emailAddress", "address"])
        && (ReplyToSection(email)[i].color == Green <==> ReplyAddress(replies[i]) == FromAddress(email))
  {
  }

  /** An empty Reply-To array prints `ReplyTo: None`; a missing or non-array one prints nothing. */
  lemma ReplyToEdgeCases(email: Json)
    ensures Field(email, "replyTo") == JArray([]) ==> ReplyToSection(email) == [Plain("ReplyTo: None")]
    ensures !Field(email, "replyTo").JArray? ==> ReplyToSection(email) == []
  {
  }

  /** Sender and From share one colour, green iff the addresses agree; two missing addresses agree. */
  lemma SenderAndFromAgree(email: Json)
    ensures |SenderAndFrom(email)| == 2
    ensures SenderAndFrom(email)[0].color == SenderAndFrom(email)[1].color
    ensures SenderAndFrom(email)[0].color == Green <==> SenderAddress(email) == FromAddress(email)
    ensures (!Path(email, ["sender", "emailAddress", "address"]).JString?
             && !Path(email, ["from", "emailAddress", "address"]).JString?) ==> SenderAndFrom(email)[0].color == Green
  {
  }

  /** A message with nothing but a subject: its block shows "Unknown" for Sender and From, both green. */
  lemma BareMessageBlock()
    ensures EmailBlock(JObject(map["subject" := JString("Hi")])) ==
      [Plain("Subject: Hi"), Tinted("Sender", Unknown, Green), Tinted("From", Unknown, Green), Plain("")]
  {
    var email := JObject(map["subject" := JString("Hi")]);
    assert Path(email, ["sender", "emailAddress", "address"]) == JNull;
    assert Path(email, ["from", "emailAddress", "address"]) == JNull;
    assert SubjectOf(email) == "Hi";
    assert "Subject: " + "Hi" == "Subject: Hi";
    assert Field(email, "replyTo") == JNull;
    assert ReplyToSection(email) == [];
    assert SenderAndFrom(email) == [Tinted("Sender", Unknown, Green), Tinted("From", Unknown, Green)];
  }

  /** Concatenating the images distributes over concatenation of the inputs. */
  lemma {:induction false} ConcatMapAppend<A, B>(f: A -> seq<B>, a: seq<A>, b: seq<A>)
    ensures ConcatMap(f, a + b) == ConcatMap(f, a) + ConcatMap(f, b)
    decreases |b|
  {
    if |b| == 0 {
      assert a + b == a;
    } else {
      var n := |b| - 1;
      assert (a + b)[..|a + b| - 1] == a + b[..n];
      assert (a + b)[|a + b| - 1] == b[n];
      ConcatMapAppend(f, a, b[..n]);
    }
  }

  /** Messages are reported in array order: each message's block follows the blocks of those before it. */
  lemma BlocksInOrder(emails: seq<Json>, i: nat)
    requires i < |emails|
    ensures Blocks(emails[..i + 1]) == Blocks(emails[..i]) + EmailBlock(emails[i])
    ensures Blocks(emails) == Blocks(emails[..i]) + EmailBlock(emails[i]) + Blocks(emails[i + 1..])
  {
    assert emails[..i + 1][..i] == emails[..i];
    assert emails == emails[..i + 1] + emails[i + 1..];
    ConcatMapAppend(EmailBlock, emails[..i + 1], emails[i + 1..]);
  }

  /** The step of the printing loop: after the earlier blocks comes the next message's block. */
  lemma BlockFollowsEarlierBlocks(printed: seq<Line>, emails: seq<Json>, i: nat)
    requires i < |emails|
    ensures printed + Blocks(emails[..i]) + EmailBlock(emails[i]) == printed + Blocks(emails[..i + 1])
  {
    BlocksInOrder(emails, i);
  }

  // ---------------------------------------------------------------------------
  // Printing

  /** Standard output, as the sequence of lines printed so far. */
  class Terminal {
    var lines: seq<Line>

    constructor()
      ensures lines == []
    {
      lines := [];
    }

    method PrintLine(line: Line)
      modifies this
      ensures lines == old(lines) + [line]
    {
      lines := lines + [line];
    }

    /** `process_reply_to`. */
    method ProcessReplyTo(email: Json)
      modifies this
      ensures lines == old(lines) + ReplyToSection(email)
    {
      var replyTo := AsArray(Field(email, "replyTo"));
      if replyTo.Some? {
        var replies := replyTo.value;
        if |replies| != 0 {
          ghost var before := lines;
          for k := 0 to |replies|
            invariant lines == before + ReplyToSection(email)[..k]
          {
            var replyAddress := TextAt(replies[k], ["emailAddress", "address"]);
            var fromAddress := TextAt(email, ["from", "emailAddress", "address"]);
            if replyAddress == fromAddress {
              PrintLine(Tinted("ReplyTo", replyAddress, Green));
            } else {
              PrintLine(Tinted("ReplyTo", replyAddress, Red));
            }
            assert ReplyToSection(email)[..k + 1] == ReplyToSection(email)[..k] + [ReplyToSection(email)[k]];
          }
          assert ReplyToSection(email)[..|replies|] == ReplyToSection(email);
        } else {
          PrintLine(Plain("ReplyTo: None"));
        }
      }
    }

    /** `process_sender_and_from`. */
    method ProcessSenderAndFrom(email: Json)
      modifies this
      ensures lines == old(lines) + SenderAndFrom(email)
    {
      var senderAddress := TextAt(email, ["sender", "emailAddress", "address"]);
      var fromAddress := TextAt(email, ["from", "emailAddress", "address"]);
      if senderAddress == fromAddress {
        PrintLine(Tinted("Sender", senderAddress, Green));
        PrintLine(Tinted("From", fromAddress, Green));
      } else {
        PrintLine(Tinted("Sender", senderAddress, Red));
        PrintLine(Tinted("From", fromAddress, Red));
      }
    }

    /** The body of the loop in `process_spoofed_emails`: one message's block. */
    method PrintEmailBlock(email: Json)
      modifies this
      ensures lines == old(lines) + EmailBlock(email)
    {
      PrintLine(Plain("Subject: " + TextAt(email, ["subject"])));
      ghost var l1 := lines;
      ProcessReplyTo(email);
      ghost var l2 := lines;
      ProcessSenderAndFrom(email);
      ghost var l3 := lines;
      PrintLine(Plain(""));
      assert l2 == l1 + ReplyToSection(email);
      assert l3 == l2 + SenderAndFrom(email);
    }

    /** `process_spoofed_emails`. */
    method ProcessSpoofedEmails(emails: Json)
      modifies this
      ensures lines == old(lines) + SpoofedReport(emails)
    {
      var emailArray := AsArray(Field(emails, "value"));
      if emailArray.Some? {
        var items := emailArray.value;
        ghost var before := lines;
        assert Blocks(items[..0]) == [];
        assert lines == before + Blocks(items[..0]);
        for index := 0 to |items|
          invariant lines == before + Blocks(items[..index])
        {
          PrintEmailBlock(items[index]);
          BlockFollowsEarlierBlocks(before, items, index);
        }
        assert items[..|items|] == items;
      } else {
        assert SpoofedReport(emails) == [];
        assert lines == old(lines) + [];
      }
    }

    /** `process_emails`. */
    method ProcessEmails(emails: Json, spoofed: bool)
      modifies this
      ensures lines == old(lines) + Report(emails, spoofed)
    {
      if spoofed {
        ProcessSpoofedEmails(emails);
      } else {
        PrintLine(Pretty(emails));
      }
    }
  }
}
