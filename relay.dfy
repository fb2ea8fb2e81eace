/** The contact relay endpoint (`POST /api/contact`): validate a four-field
    submission, build the outgoing mail, hand it to the mail transport once,
    and map what happened to an HTTP status. The transport, the environment
    configuration and JSON parsing are parameters of the model. */
module ContactRelay {
  import opened Wrappers

  /** A field of the parsed JSON body, as the handler sees it after
      destructuring: missing, a string, or some other JSON value (number,
      boolean, null, array, object). For another value, `truthy` is its
      JavaScript truthiness and `text` what a template literal turns it into,
      or None when that conversion throws: an object with its own `toString`
      key (which JSON cannot make callable), or an array holding one. */
  datatype Value = Absent | Str(s: string) | Other(truthy: bool, text: Option<string>)

  /** JavaScript falsiness of a field: missing, the empty string, or a falsy
      non-string (false, 0, null). */
  predicate Falsy(v: Value)
  {
    match v
    case Absent => true
    case Str(s) => s == ""
    case Other(truthy, _) => !truthy
  }

  /** `${v}` inside a template literal, None when it throws. A missing field
      never reaches one, because validation rejects it first. */
  function Interpolate(v: Value): Option<string>
  {
    match v
    case Absent => Some("undefined")
    case Str(s) => Some(s)
    case Other(_, text) => text
  }

  datatype Payload = Payload(name: Value, email: Value, subject: Value, message: Value)

  /** The request body: either `request.json()` (with the destructuring that
      follows it) throws with some error text, or it yields the four fields. */
  datatype Request = Malformed(error: string) | Parsed(payload: Payload)

  /** The environment configuration: the sending account and the destination;
      either may be unset. */
  datatype Config = Config(serverUser: Option<string>, mailTo: Option<string>)

  /** The mail handed to the transport. */
  datatype Mail = Mail(from: Option<string>, to: Option<string>, replyTo: Value,
                       subject: string, html: string)

  /** What the transport does with the one mail it is given. */
  datatype SendOutcome = Delivered | SendFailed(error: string)

  /** The JSON response: status, `message`, and `error` on a 500. */
  datatype Response = Response(status: int, message: string, error: Option<string>)

  /** The response together with the mails handed to the transport. */
  datatype Result = Result(response: Response, sent: seq<Mail>)

  const SubjectPrefix: string := "New Contact Form Submission: "
  const RequiredMessage: string := "All fields are required"
  const SuccessMessage: string := "Email sent successfully!"
  const FailureMessage: string := "Error sending email"
  /** The TypeError text when `message` is not a string and has no `replace`. */
  const ReplaceTypeError: string := "message.replace is not a function"
  /** The TypeError text when a template literal cannot turn a value into a
      string. */
  const ConversionError: string := "Cannot convert object to primitive value"

  const BreakTag: string := "<br>"

  /** `s.replace(/\n/g, '<br>')`. */
  function ReplaceNewlines(s: string): (r: string)
    ensures '\n' !in r
    ensures |r| == |s| + 3 * CountNewlines(s)
  {
    if |s| == 0 then ""
    else
      var head := if s[0] == '\n' then BreakTag else [s[0]];
      assert '\n' !in head;
      head + ReplaceNewlines(s[1..])
  }

  function CountNewlines(s: string): nat
  {
    if |s| == 0 then 0 else (if s[0] == '\n' then 1 else 0) + CountNewlines(s[1..])
  }

  /** A message without newlines is sent unchanged. */
  lemma {:induction false} ReplaceNewlinesIdentity(s: string)
    requires '\n' !in s
    ensures ReplaceNewlines(s) == s
  {
    if |s| > 0 {
      assert s[0] != '\n';
      assert '\n' !in s[1..] by {
        forall k | 0 <= k < |s[1..]| ensures s[1..][k] != '\n' {
          assert s[1..][k] == s[k + 1];
        }
      }
      ReplaceNewlinesIdentity(s[1..]);
      assert s == [s[0]] + s[1..];
    }
  }

  /** The replacement works piece by piece: replacing in a concatenation is
      concatenating the replacements. */
  lemma {:induction false} ReplaceNewlinesAppend(a: string, b: string)
    ensures ReplaceNewlines(a + b) == ReplaceNewlines(a) + ReplaceNewlines(b)
  {
    if |a| == 0 {
      assert a + b == b;
    } else {
      assert (a + b)[0] == a[0];
      assert (a + b)[1..] == a[1..] + b;
      ReplaceNewlinesAppend(a[1..], b);
    }
  }

  /** `needle` occurs in `hay` at position k. */
  ghost predicate OccursAt(needle: string, hay: string, k: int)
  {
    0 <= k && k + |needle| <= |hay| && hay[k..k + |needle|] == needle
  }

  ghost predicate Contains(hay: string, needle: string)
  {
    exists k :: OccursAt(needle, hay, k)
  }

  /** Whether `t` contains "<br>" somewhere. */
  ghost predicate HasBreakTag(t: string)
  {
    Contains(t, BreakTag)
  }

  predicate StartsWith(t: string, p: string)
  {
    |p| <= |t| && t[..|p|] == p
  }

  lemma ConsStartsWith(c: char, t: string, p: string)
    ensures StartsWith([c] + t, [c] + p) <==> StartsWith(t, p)
  {
    if |p| <= |t| {
      assert ([c] + t)[..|p| + 1] == [c] + t[..|p|];
      if ([c] + t)[..|p| + 1] == [c] + p {
        assert t[..|p|] == ([c] + t)[..|p| + 1][1..];
      }
    }
  }

  /** Undoing the replacement: every "<br>" back to a newline. On a text that
      held no "<br>" of its own, this recovers it. */
  function RestoreNewlines(r: string): string
  {
    if |r| == 0 then ""
    else if StartsWith(r, BreakTag) then "\n" + RestoreNewlines(r[4..])
    else [r[0]] + RestoreNewlines(r[1..])
  }

  /** For a text p free of newlines and of '<', the rendering of t begins
      with p exactly when t does. */
  lemma {:induction false} StartsWithRendering(t: string, p: string)
    requires forall k :: 0 <= k < |p| ==> p[k] != '<' && p[k] != '\n'
    ensures StartsWith(ReplaceNewlines(t), p) <==> StartsWith(t, p)
  {
    if |p| > 0 && |t| > 0 {
      var rest := ReplaceNewlines(t[1..]);
      if t[0] == '\n' {
        assert ReplaceNewlines(t)[0] == '<';
      } else {
        assert ReplaceNewlines(t) == [t[0]] + rest;
        StartsWithRendering(t[1..], p[1..]);
        assert StartsWith([t[0]] + rest, p) <==> t[0] == p[0] && StartsWith(rest, p[1..]);
        assert StartsWith(t, p) <==> t[0] == p[0] && StartsWith(t[1..], p[1..]) by {
          assert t == [t[0]] + t[1..];
        }
      }
    }
  }

  /** A message that contains no "<br>" of its own is recovered exactly from
      its rendering: the replacement loses nothing. */
  lemma {:induction false} RestoreReplaceNewlines(s: string)
    requires !HasBreakTag(s)
    ensures RestoreNewlines(ReplaceNewlines(s)) == s
  {
    if |s| > 0 {
      assert !HasBreakTag(s[1..]) by {
        forall k ensures !OccursAt(BreakTag, s[1..], k) {
          assert !OccursAt(BreakTag, s, k + 1);
          if 0 <= k && k + 4 <= |s[1..]| {
            assert s[1..][k..k + 4] == s[k + 1..k + 5];
          }
        }
      }
      RestoreReplaceNewlines(s[1..]);
      var rest := ReplaceNewlines(s[1..]);
      if s[0] == '\n' {
        assert ReplaceNewlines(s) == BreakTag + rest;
        assert (BreakTag + rest)[..4] == BreakTag;
        assert (BreakTag + rest)[4..] == rest;
      } else {
        var r := [s[0]] + rest;
        assert ReplaceNewlines(s) == r;
        assert !StartsWith(r, BreakTag) by {
          assert !OccursAt(BreakTag, s, 0);
          assert BreakTag == ['<'] + "br>";
          if s[0] != '<' {
            assert |r| >= 4 ==> r[..4][0] == s[0];
          } else {
            StartsWithRendering(s[1..], "br>");
            ConsStartsWith('<', rest, "br>");
            ConsStartsWith('<', s[1..], "br>");
            assert s == [s[0]] + s[1..];
          }
        }
        assert r[1..] == rest;
        assert s == [s[0]] + s[1..];
      }
    }
  }

  // The fixed markup around the four interpolated values, line by line as in
  // the handler's template literal (8 and 10 spaces of indentation).
  const BodyOpen: string :=
    "\n        <p>You have a new contact form submission:</p>\n        <ul>\n          <li><strong>Name:</strong> "
  const BodyAfterName: string := "</li>\n          <li><strong>Email:</strong> "
  const BodyAfterEmail: string := "</li>\n          <li><strong>Subject:</strong> "
  const BodyAfterSubject: string :=
    "</li>\n          <li><strong>Message:</strong></li>\n        </ul>\n        <p>"
  const BodyClose: string := "</p>\n      "

  /** The HTML body of the mail: the three fields verbatim and the message
      with its line breaks, inside the fixed markup of the handler. Nothing is
      escaped, so each value appears in the body exactly as given. */
  function MailBody(name: string, email: string, subject: string, renderedMessage: string): (b: string)
    ensures Contains(b, name) && Contains(b, email)
    ensures Contains(b, subject) && Contains(b, renderedMessage)
  {
    TemplateContainsFields(name, email, subject, renderedMessage);
    BodyOpen + name + BodyFromEmail(email, subject, renderedMessage)
  }

  function BodyFromEmail(email: string, subject: string, renderedMessage: string): string
  {
    BodyAfterName + email + BodyFromSubject(subject, renderedMessage)
  }

  function BodyFromSubject(subject: string, renderedMessage: string): string
  {
    BodyAfterEmail + subject + BodyFromMessage(renderedMessage)
  }

  function BodyFromMessage(renderedMessage: string): string
  {
    BodyAfterSubject + renderedMessage + BodyClose
  }

  lemma OccursInMiddle(a: string, needle: string, b: string)
    ensures OccursAt(needle, a + needle + b, |a|)
  {
    assert (a + needle + b)[|a|..|a| + |needle|] == needle;
  }

  lemma ContainsInTail(a: string, needle: string, t: string)
    requires Contains(t, needle)
    ensures Contains(a + t, needle)
  {
    var k :| OccursAt(needle, t, k);
    assert (a + t)[|a| + k..|a| + k + |needle|] == t[k..k + |needle|];
    assert OccursAt(needle, a + t, |a| + k);
  }

  lemma TemplateContainsFields(name: string, email: string, subject: string, rendered: string)
    ensures Contains(BodyOpen + name + BodyFromEmail(email, subject, rendered), name)
    ensures Contains(BodyOpen + name + BodyFromEmail(email, subject, rendered), email)
    ensures Contains(BodyOpen + name + BodyFromEmail(email, subject, rendered), subject)
    ensures Contains(BodyOpen + name + BodyFromEmail(email, subject, rendered), rendered)
  {
    var fromMessage := BodyFromMessage(rendered);
    var fromSubject := BodyFromSubject(subject, rendered);
    var fromEmail := BodyFromEmail(email, subject, rendered);
    OccursInMiddle(BodyAfterSubject, rendered, BodyClose);
    OccursInMiddle(BodyAfterEmail, subject, fromMessage);
    ContainsInTail(BodyAfterEmail + subject, rendered, fromMessage);
    OccursInMiddle(BodyAfterName, email, fromSubject);
    ContainsInTail(BodyAfterName + email, subject, fromSubject);
    ContainsInTail(BodyAfterName + email, rendered, fromSubject);
    OccursInMiddle(BodyOpen, name, fromEmail);
    ContainsInTail(BodyOpen + name, email, fromEmail);
    ContainsInTail(BodyOpen + name, subject, fromEmail);
    ContainsInTail(BodyOpen + name, rendered, fromEmail);
  }

  /** True when every field is present and truthy: the only check made. */
  predicate AllFieldsPresent(p: Payload)
  {
    !Falsy(p.name) && !Falsy(p.email) && !Falsy(p.subject) && !Falsy(p.message)
  }

  /** True when name, email and subject all survive `${...}`. */
  predicate Converts(p: Payload)
  {
    Interpolate(p.subject).Some? && Interpolate(p.name).Some? && Interpolate(p.email).Some?
  }

  /** The mail for a payload whose fields convert and whose message is a
      string. */
  function BuildMail(p: Payload, config: Config): (m: Mail)
    requires Converts(p) && p.message.Str?
    ensures m.replyTo == p.email
    ensures m.from == config.serverUser && m.to == config.mailTo
    ensures |m.subject| >= |SubjectPrefix| && m.subject[..|SubjectPrefix|] == SubjectPrefix
    ensures m.subject[|SubjectPrefix|..] == Interpolate(p.subject).value
  {
    Mail(config.serverUser, config.mailTo, p.email,
         SubjectPrefix + Interpolate(p.subject).value,
         MailBody(Interpolate(p.name).value, Interpolate(p.email).value, Interpolate(p.subject).value,
                  ReplaceNewlines(p.message.s)))
  }

  function BadRequest(): Response { Response(400, RequiredMessage, None) }
  function Ok(): Response { Response(200, SuccessMessage, None) }
  function ServerError(error: string): Response { Response(500, FailureMessage, Some(error)) }

  /** The handler. Every path ends in one of the three responses; at most one
      mail reaches the transport, and one does exactly when the payload
      parsed, every field is present, name, email and subject convert to
      text and the message is a string. Building the mail converts the
      subject first, then name, email and subject again, and only then calls
      `message.replace`: a failed conversion, whose error text is always the
      same, wins over the `.replace` TypeError. */
  function Post(request: Request, config: Config, outcome: SendOutcome): (r: Result)
    ensures r.response.status in {200, 400, 500}
    ensures |r.sent| <= 1
    ensures |r.sent| == 1 <==>
      && request.Parsed? && AllFieldsPresent(request.payload)
      && Converts(request.payload) && request.payload.message.Str?
    ensures r.response.status == 200 <==> |r.sent| == 1 && outcome == Delivered
    ensures r.response.status == 500 ==> r.response.error.Some?
  {
    match request
    case Malformed(error) => Result(ServerError(error), [])
    case Parsed(p) =>
      if !AllFieldsPresent(p) then Result(BadRequest(), [])
      else if !Converts(p) then Result(ServerError(ConversionError), [])
      else if !p.message.Str? then Result(ServerError(ReplaceTypeError), [])
      else
        var mail := BuildMail(p, config);
        match outcome
        case Delivered => Result(Ok(), [mail])
        case SendFailed(error) => Result(ServerError(error), [mail])
  }

  /** A missing or empty field, whichever it is, gives 400 "All fields are
      required" and no mail reaches the transport. */
  lemma MissingFieldRejected(p: Payload, config: Config, outcome: SendOutcome)
    requires Falsy(p.name) || Falsy(p.email) || Falsy(p.subject) || Falsy(p.message)
    ensures Post(Parsed(p), config, outcome) == Result(Response(400, "All fields are required", None), [])
  {
  }

  /** Validation looks at presence only: any four non-empty strings, be they
      blank or a malformed address, lead to exactly one mail, whose reply-to,
      sender, recipient and subject are as configured and submitted. */
  lemma PresenceOnlyValidation(name: string, email: string, subject: string, message: string,
                               config: Config, outcome: SendOutcome)
    requires name != "" && email != "" && subject != "" && message != ""
    ensures var r := Post(Parsed(Payload(Str(name), Str(email), Str(subject), Str(message))), config, outcome);
      && |r.sent| == 1
      && r.sent[0].replyTo == Str(email)
      && r.sent[0].from == config.serverUser
      && r.sent[0].to == config.mailTo
      && r.sent[0].subject == "New Contact Form Submission: " + subject
      && Contains(r.sent[0].html, name)
      && Contains(r.sent[0].html, email)
      && Contains(r.sent[0].html, subject)
      && Contains(r.sent[0].html, ReplaceNewlines(message))
  {
    var p := Payload(Str(name), Str(email), Str(subject), Str(message));
    var m := BuildMail(p, config);
    assert Post(Parsed(p), config, outcome).sent == [m];
    assert m.html == MailBody(name, email, subject, ReplaceNewlines(message));
  }

  /** The mail that goes out carries no raw newline in its rendered message,
      and the message grows by three characters per line break. */
  lemma SentMessageRendering(p: Payload, config: Config, outcome: SendOutcome)
    requires |Post(Parsed(p), config, outcome).sent| == 1
    ensures p.message.Str?
    ensures '\n' !in ReplaceNewlines(p.message.s)
    ensures |ReplaceNewlines(p.message.s)| == |p.message.s| + 3 * CountNewlines(p.message.s)
    ensures Contains(Post(Parsed(p), config, outcome).sent[0].html, ReplaceNewlines(p.message.s))
  {
    assert Post(Parsed(p), config, outcome).sent[0] == BuildMail(p, config);
  }

  /** A delivered mail gives 200 "Email sent successfully!"; a failed send
      gives 500 "Error sending email" with the transport's error text. Either
      way the transport was given exactly one mail: there is no retry. */
  lemma SendOutcomeMapping(p: Payload, config: Config, error: string)
    requires AllFieldsPresent(p) && Converts(p) && p.message.Str?
    ensures Post(Parsed(p), config, Delivered) ==
      Result(Response(200, "Email sent successfully!", None), [BuildMail(p, config)])
    ensures Post(Parsed(p), config, SendFailed(error)) ==
      Result(Response(500, "Error sending email", Some(error)), [BuildMail(p, config)])
  {
  }

  /** Every failure other than a falsy field — a body that does not parse, a
      field a template literal cannot convert, a message that is not a
      string, a failed send — is caught and answered with 500 "Error sending
      email" carrying the text of the first error thrown. */
  lemma FailuresAnswer500(request: Request, config: Config, outcome: SendOutcome)
    requires request.Malformed?
      || (AllFieldsPresent(request.payload)
          && (!Converts(request.payload) || !request.payload.message.Str? || outcome.SendFailed?))
    ensures var r := Post(request, config, outcome);
      && r.response.status == 500
      && r.response.message == "Error sending email"
      && r.response.error == Some(
           if request.Malformed? then request.error
           else if !Converts(request.payload) then "Cannot convert object to primitive value"
           else if !request.payload.message.Str? then "message.replace is not a function"
           else outcome.error)
  {
  }

  /** A present field that cannot be converted to text stops the handler
      before the transport is reached, whatever the message is. */
  lemma ConversionFailureSendsNothing(p: Payload, config: Config, outcome: SendOutcome)
    requires AllFieldsPresent(p) && !Converts(p)
    ensures Post(Parsed(p), config, outcome)
         == Result(Response(500, "Error sending email", Some("Cannot convert object to primitive value")), [])
  {
  }

  /** A name given as an object with its own `toString` key is truthy, so it
      passes validation, but converting it throws: 500, and no mail. */
  lemma ObjectNameExample(config: Config)
    ensures var r := Post(Parsed(Payload(Other(true, None), Str("a@b.c"), Str("s"), Str("m"))),
                          config, Delivered);
      && r.response.status == 500
      && r.response.error == Some("Cannot convert object to primitive value")
      && r.sent == []
  {
  }

  /** Two lines joined by a newline render as the same two lines joined by
      "<br>". */
  lemma TwoLinesRendering(a: string, b: string)
    requires '\n' !in a && '\n' !in b
    ensures ReplaceNewlines(a + "\n" + b) == a + BreakTag + b
  {
    var nb := "\n" + b;
    ReplaceNewlinesIdentity(a);
    ReplaceNewlinesIdentity(b);
    BreakStep(b);
    ReplaceNewlinesAppend(a, nb);
    assert a + "\n" + b == a + nb;
  }

  lemma BreakStep(b: string)
    requires ReplaceNewlines(b) == b
    ensures ReplaceNewlines("\n" + b) == BreakTag + b
  {
    var nb := "\n" + b;
    assert nb[0] == '\n' && nb[1..] == b;
  }

  lemma AdaMessageRendering()
    ensures ReplaceNewlines("Line1\nLine2") == "Line1<br>Line2"
  {
    TwoLinesRendering("Line1", "Line2");
    assert "Line1" + "\n" + "Line2" == "Line1\nLine2";
    assert "Line1" + BreakTag + "Line2" == "Line1<br>Line2";
  }

  /** The worked example: a two-line message from Ada is relayed with its
      line break rendered as "<br>" and answered with 200. */
  lemma AdaExample(config: Config)
    ensures var r := Post(Parsed(Payload(Str("Ada"), Str("ada@example.com"), Str("Hello"),
                                         Str("Line1\nLine2"))), config, Delivered);
      && r.response == Response(200, "Email sent successfully!", None)
      && |r.sent| == 1
      && Contains(r.sent[0].html, "Line1<br>Line2")
  {
    AdaMessageRendering();
    PresenceOnlyValidation("Ada", "ada@example.com", "Hello", "Line1\nLine2", config, Delivered);
  }
}
