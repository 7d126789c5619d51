/** The email record of email.go: its constructors, its setters, and
    `Validate`, which gathers one message per offending field into a
    validation error. `RuleErrors` states the rules field by field; the
    method `Email.Validate` builds the same map the way the library does. */
module Emails {
  import opened Wrappers
  import opened Text
  import opened Errors
  import opened Addresses

  /** Ten MiB, the largest HTML or text body in bytes. */
  const MaxContentSize: nat := 10 * 1024 * 1024

  /** The field names under which `Validate` reports problems. */
  const Fields: set<string> := {"from", "to", "subject", "content", "html", "text"}

  const FromRequired := "From address is required"
  const FromInvalid := "From address is not a valid email"
  const ToRequired := "To address is required"
  const ToInvalid := "To address is not a valid email"
  const SubjectRequired := "Subject is required"
  const ContentRequired := "At least one content type (html or text) is required"
  const HtmlTooLarge := "HTML content exceeds maximum size limit"
  const TextTooLarge := "Text content exceeds maximum size limit"
  const ValidationSummary := "Email validation failed"

  /** The value of an email: sender, recipient, subject and the two bodies
      (an absent body is the empty string, as in the Go struct). */
  datatype Message = Message(from: string, to: string, subject: string, html: string, text: string)

  /** Nothing but white space. */
  predicate Blank(s: string) {
    TrimSpace(s) == ""
  }

  /** The message recorded for an address field: "required" when it is
      blank, "not a valid email" when it is not an accepted address. */
  function AddressProblem(address: string, required: string, invalid: string): Option<string> {
    if Blank(address) then Some(required)
    else if !ValidAddress(address) then Some(invalid)
    else None
  }

  /** Records the message of a rule that fired under its field. */
  function Add(errors: map<string, seq<string>>, field: string, problem: Option<string>): map<string, seq<string>> {
    if problem.Some? then errors[field := [problem.value]] else errors
  }

  /** The error map built from the outcomes of the six rules, in the order
      the library checks them. */
  function Gather(from: Option<string>, to: Option<string>, subject: Option<string>,
                  content: Option<string>, html: Option<string>, text: Option<string>): map<string, seq<string>> {
    var e := Add(map[], "from", from);
    var e := Add(e, "to", to);
    var e := Add(e, "subject", subject);
    var e := Add(e, "content", content);
    var e := Add(e, "html", html);
    Add(e, "text", text)
  }

  /** Each field of the gathered map holds exactly the message of its own
      rule, and no other field appears. */
  lemma GatherFields(from: Option<string>, to: Option<string>, subject: Option<string>,
                     content: Option<string>, html: Option<string>, text: Option<string>)
    ensures var e := Gather(from, to, subject, content, html, text);
      && e.Keys <= Fields
      && (forall f | f in e :: |e[f]| == 1)
      && ("from" in e <==> from.Some?) && (from.Some? ==> e["from"] == [from.value])
      && ("to" in e <==> to.Some?) && (to.Some? ==> e["to"] == [to.value])
      && ("subject" in e <==> subject.Some?) && (subject.Some? ==> e["subject"] == [subject.value])
      && ("content" in e <==> content.Some?) && (content.Some? ==> e["content"] == [content.value])
      && ("html" in e <==> html.Some?) && (html.Some? ==> e["html"] == [html.value])
      && ("text" in e <==> text.Some?) && (text.Some? ==> e["text"] == [text.value])
  {
    GatherShape(from, to, subject, content, html, text);
    AddKept(Add(Add(Add(Add(Add(map[], "from", from), "to", to), "subject", subject), "content", content), "html", html),
            "text", text);
    AddKept(Add(Add(Add(Add(map[], "from", from), "to", to), "subject", subject), "content", content), "html", html);
    AddKept(Add(Add(Add(map[], "from", from), "to", to), "subject", subject), "content", content);
    AddKept(Add(Add(map[], "from", from), "to", to), "subject", subject);
    AddKept(Add(map[], "from", from), "to", to);
  }

  /** Only the six field names occur, each with one message. */
  lemma GatherShape(from: Option<string>, to: Option<string>, subject: Option<string>,
                    content: Option<string>, html: Option<string>, text: Option<string>)
    ensures var e := Gather(from, to, subject, content, html, text);
      e.Keys <= Fields && forall f | f in e :: |e[f]| == 1
  {
  }

  /** Recording a rule's outcome leaves every other field as it was. */
  lemma AddKept(errors: map<string, seq<string>>, field: string, problem: Option<string>)
    ensures var e := Add(errors, field, problem);
      && (field in e <==> field in errors || problem.Some?)
      && (problem.Some? ==> e[field] == [problem.value])
      && forall k | k != field :: (k in e <==> k in errors) && (k in errors ==> e[k] == errors[k])
  {
  }

  function SubjectProblem(subject: string): Option<string> {
    if Blank(subject) then Some(SubjectRequired) else None
  }

  function ContentProblem(html: string, text: string): Option<string> {
    if Blank(html) && Blank(text) then Some(ContentRequired) else None
  }

  function SizeProblem(content: string, tooLarge: string): Option<string> {
    if ByteLen(content) > MaxContentSize then Some(tooLarge) else None
  }

  /** The map of field errors `Validate` gathers for `m`: the rules for the
      sender, the recipient, the subject, the presence of a body and the size
      of each body. */
  function RuleErrors(m: Message): map<string, seq<string>> {
    Gather(AddressProblem(m.from, FromRequired, FromInvalid),
           AddressProblem(m.to, ToRequired, ToInvalid),
           SubjectProblem(m.subject),
           ContentProblem(m.html, m.text),
           SizeProblem(m.html, HtmlTooLarge),
           SizeProblem(m.text, TextTooLarge))
  }

  /** The result of `Validate`: no error when no rule fired, otherwise a
      validation error carrying the field errors. */
  function ValidationOf(m: Message): (r: Option<PoodleError>)
    ensures r.None? <==> RuleErrors(m) == map[]
    ensures r.Some? ==> && r.value.code == 400
                        && r.value.kind == ValidationKind(RuleErrors(m))
                        && r.value.Error() == ValidationSummary
                        && r.value.ErrorType() == ValidationTag
  {
    var errors := RuleErrors(m);
    if errors == map[] then None else Some(NewValidationError(ValidationSummary, errors))
  }

  /** What a sendable message is, stated without reference to the map. */
  predicate Sendable(m: Message) {
    && ValidAddress(m.from)
    && ValidAddress(m.to)
    && !Blank(m.subject)
    && (!Blank(m.html) || !Blank(m.text))
    && ByteLen(m.html) <= MaxContentSize
    && ByteLen(m.text) <= MaxContentSize
  }

  /** A blank address is never an accepted one. */
  lemma BlankNotValid(s: string)
    requires Blank(s)
    ensures !ValidAddress(s)
  {
  }

  /** Only the six field names occur, each with exactly one message. */
  lemma RuleErrorsShape(m: Message)
    ensures var e := RuleErrors(m);
      e.Keys <= Fields && forall f | f in e :: |e[f]| == 1
  {
    GatherFields(AddressProblem(m.from, FromRequired, FromInvalid),
                 AddressProblem(m.to, ToRequired, ToInvalid),
                 SubjectProblem(m.subject), ContentProblem(m.html, m.text),
                 SizeProblem(m.html, HtmlTooLarge), SizeProblem(m.text, TextTooLarge));
  }

  /** The sender rule: reported exactly when the sender is not an accepted
      address, as "required" when it is blank and "not a valid email"
      otherwise. */
  lemma FromRule(m: Message)
    ensures var e := RuleErrors(m);
      && ("from" in e <==> !ValidAddress(m.from))
      && ("from" in e ==> (e["from"] == [FromRequired] <==> Blank(m.from)))
      && ("from" in e ==> (e["from"] == [FromInvalid] <==> !Blank(m.from)))
  {
    GatherFields(AddressProblem(m.from, FromRequired, FromInvalid),
                 AddressProblem(m.to, ToRequired, ToInvalid),
                 SubjectProblem(m.subject), ContentProblem(m.html, m.text),
                 SizeProblem(m.html, HtmlTooLarge), SizeProblem(m.text, TextTooLarge));
    if Blank(m.from) { BlankNotValid(m.from); }
  }

  /** The recipient rule, the same as the sender's. */
  lemma ToRule(m: Message)
    ensures var e := RuleErrors(m);
      && ("to" in e <==> !ValidAddress(m.to))
      && ("to" in e ==> (e["to"] == [ToRequired] <==> Blank(m.to)))
      && ("to" in e ==> (e["to"] == [ToInvalid] <==> !Blank(m.to)))
  {
    GatherFields(AddressProblem(m.from, FromRequired, FromInvalid),
                 AddressProblem(m.to, ToRequired, ToInvalid),
                 SubjectProblem(m.subject), ContentProblem(m.html, m.text),
                 SizeProblem(m.html, HtmlTooLarge), SizeProblem(m.text, TextTooLarge));
    if Blank(m.to) { BlankNotValid(m.to); }
  }

  /** The subject and body rules: a subject is required, at least one body
      is required, and neither body may exceed the size limit. */
  lemma ContentRules(m: Message)
    ensures var e := RuleErrors(m);
      && ("subject" in e <==> Blank(m.subject))
      && ("content" in e <==> Blank(m.html) && Blank(m.text))
      && ("html" in e <==> ByteLen(m.html) > MaxContentSize)
      && ("text" in e <==> ByteLen(m.text) > MaxContentSize)
  {
    GatherFields(AddressProblem(m.from, FromRequired, FromInvalid),
                 AddressProblem(m.to, ToRequired, ToInvalid),
                 SubjectProblem(m.subject), ContentProblem(m.html, m.text),
                 SizeProblem(m.html, HtmlTooLarge), SizeProblem(m.text, TextTooLarge));
  }

  /** `Validate` returns no error exactly for sendable messages. */
  lemma ValidationSucceedsIff(m: Message)
    ensures ValidationOf(m).None? <==> Sendable(m)
  {
    var e := RuleErrors(m);
    FromRule(m);
    ToRule(m);
    ContentRules(m);
    RuleErrorsShape(m);
    if Sendable(m) {
      forall f | f in e ensures false {
      }
    } else {
      assert e.Keys != {};
    }
  }

  /** The size limit is on bytes: an ASCII HTML body of exactly ten MiB
      passes and one byte more fails, and the same holds for the text body
      when it is ASCII. */
  lemma ContentSizeBoundary(m: Message)
    requires forall p | 0 <= p < |m.html| :: IsAscii(m.html[p])
    ensures "html" in RuleErrors(m) <==> |m.html| > 10 * 1024 * 1024
    ensures (forall p | 0 <= p < |m.text| :: IsAscii(m.text[p])) ==>
              ("text" in RuleErrors(m) <==> |m.text| > 10 * 1024 * 1024)
  {
    ByteLenAscii(m.html);
    if forall p | 0 <= p < |m.text| :: IsAscii(m.text[p]) {
      ByteLenAscii(m.text);
    }
    ContentRules(m);
  }

  /** The sender of the validation cases below is accepted. */
  lemma ExampleSender(from: string)
    requires from == "from@example.com"
    ensures ValidAddress(from)
  {
    var l, a, b := "from", "example", "com";
    assert NoDouble(l, '.');
    assert from == l + "@" + a + "." + b;
    OneDotParts(l, a, b);
  }

  /** The recipient of the validation cases below is accepted. */
  lemma ExampleRecipient(to: string)
    requires to == "to@example.com"
    ensures ValidAddress(to)
  {
    var l, a, b := "to", "example", "com";
    assert NoDouble(l, '.');
    assert to == l + "@" + a + "." + b;
    OneDotParts(l, a, b);
  }

  /** When no rule fires, the message is reported by no field. */
  lemma NoProblemNoErrors(m: Message)
    requires AddressProblem(m.from, FromRequired, FromInvalid).None?
    requires AddressProblem(m.to, ToRequired, ToInvalid).None?
    requires SubjectProblem(m.subject).None? && ContentProblem(m.html, m.text).None?
    requires SizeProblem(m.html, HtmlTooLarge).None? && SizeProblem(m.text, TextTooLarge).None?
    ensures RuleErrors(m) == map[]
  {
  }

  /** An accepted address raises no problem. */
  lemma AcceptedNotReported(address: string, required: string, invalid: string)
    requires ValidAddress(address)
    ensures AddressProblem(address, required, invalid) == None
  {
    if Blank(address) {
      BlankNotValid(address);
    }
  }

  /** A short text with no white space at its ends is neither blank nor too
      large. */
  lemma PresentText(s: string)
    requires |s| > 0 && !IsSpace(s[0]) && !IsSpace(s[|s| - 1]) && |s| <= 1024
    ensures !Blank(s) && ByteLen(s) <= MaxContentSize
  {
    TrimSpaceUntouched(s);
  }

  /** A message with both addresses, a subject and an HTML body passes. */
  lemma HtmlEmailPasses(from: string, to: string, subject: string, html: string)
    requires from == "from@example.com" && to == "to@example.com"
    requires subject == "Test Subject" && html == "<h1>Hello</h1>"
    ensures ValidationOf(Message(from, to, subject, html, "")).None?
  {
    ExampleSender(from);
    AcceptedNotReported(from, FromRequired, FromInvalid);
    ExampleRecipient(to);
    AcceptedNotReported(to, ToRequired, ToInvalid);
    PresentText(subject);
    PresentText(html);
    NoProblemNoErrors(Message(from, to, subject, html, ""));
  }

  /** A message without a sender is reported under "from" alone, with the
      "required" message. */
  lemma MissingFromReported(to: string, subject: string, html: string)
    requires to == "to@example.com" && subject == "Test Subject" && html == "<h1>Hello</h1>"
    ensures var m := Message("", to, subject, html, "");
      ValidationOf(m).Some? && RuleErrors(m) == map["from" := [FromRequired]]
  {
    ExampleRecipient(to);
    AcceptedNotReported(to, ToRequired, ToInvalid);
    PresentText(subject);
    PresentText(html);
    var m := Message("", to, subject, html, "");
    OnlySenderMissing(m);
    ReportedFails(m, "from");
  }

  /** When the sender is blank and nothing else is wrong, only "from" is
      reported. */
  lemma OnlySenderMissing(m: Message)
    requires Blank(m.from)
    requires AddressProblem(m.to, ToRequired, ToInvalid).None?
    requires SubjectProblem(m.subject).None? && ContentProblem(m.html, m.text).None?
    requires SizeProblem(m.html, HtmlTooLarge).None? && SizeProblem(m.text, TextTooLarge).None?
    ensures RuleErrors(m) == map["from" := [FromRequired]]
  {
  }

  /** A message reported under some field fails validation. */
  lemma ReportedFails(m: Message, field: string)
    requires field in RuleErrors(m)
    ensures ValidationOf(m).Some?
  {
  }

  /** An HTML body of ten MiB and one byte is reported under "html". */
  lemma OversizedHtmlReported(m: Message)
    requires m.html == seq(MaxContentSize + 1, _ => 'a')
    ensures ValidationOf(m).Some? && RuleErrors(m)["html"] == [HtmlTooLarge]
  {
    ByteLenAscii(m.html);
    ContentRules(m);
  }

  /** Go's `errors[field] = append(errors[field], message)`: a missing key
      reads as the empty list. */
  function Append(errors: map<string, seq<string>>, field: string, message: string): map<string, seq<string>> {
    if field in errors then errors[field := errors[field] + [message]]
    else errors[field := [message]]
  }

  /** Appending under a field not yet reported records just that message. */
  lemma AppendFresh(errors: map<string, seq<string>>, field: string, message: string)
    requires field !in errors
    ensures Append(errors, field, message) == Add(errors, field, Some(message))
  {
  }

  /** The check `Validate` makes on the sender and on the recipient: a
      blank address is "required", an address that `isValidEmail` rejects
      is "not a valid email". */
  method CheckAddress(errors: map<string, seq<string>>, field: string, address: string,
                      required: string, invalid: string)
    returns (updated: map<string, seq<string>>)
    requires field !in errors
    ensures updated == Add(errors, field, AddressProblem(address, required, invalid))
  {
    updated := errors;
    if TrimSpace(address) == "" {
      AppendFresh(updated, field, required);
      updated := Append(updated, field, required);
    } else {
      var ok := IsValidEmail(address);
      if !ok {
        AppendFresh(updated, field, invalid);
        updated := Append(updated, field, invalid);
      }
    }
  }

  /** The size check `Validate` makes on each body: more than ten MiB of
      UTF-8 is "exceeds maximum size limit". */
  method CheckSize(errors: map<string, seq<string>>, field: string, content: string, tooLarge: string)
    returns (updated: map<string, seq<string>>)
    requires field !in errors
    ensures updated == Add(errors, field, SizeProblem(content, tooLarge))
  {
    updated := errors;
    if ByteLen(content) > MaxContentSize {
      AppendFresh(updated, field, tooLarge);
      updated := Append(updated, field, tooLarge);
    }
  }

  /** The subject check of `Validate`: a blank subject is "required". */
  method CheckSubject(errors: map<string, seq<string>>, subject: string)
    returns (updated: map<string, seq<string>>)
    requires "subject" !in errors
    ensures updated == Add(errors, "subject", SubjectProblem(subject))
  {
    updated := errors;
    if TrimSpace(subject) == "" {
      AppendFresh(updated, "subject", SubjectRequired);
      updated := Append(updated, "subject", SubjectRequired);
    }
  }

  /** The body check of `Validate`: at least one of the two bodies must not
      be blank. */
  method CheckContent(errors: map<string, seq<string>>, html: string, text: string)
    returns (updated: map<string, seq<string>>)
    requires "content" !in errors
    ensures updated == Add(errors, "content", ContentProblem(html, text))
  {
    updated := errors;
    if TrimSpace(html) == "" && TrimSpace(text) == "" {
      AppendFresh(updated, "content", ContentRequired);
      updated := Append(updated, "content", ContentRequired);
    }
  }

  /** While the map is being gathered, each field is still absent when its
      rule runs. */
  lemma FieldsFresh(from: Option<string>, to: Option<string>, subject: Option<string>,
                    content: Option<string>, html: Option<string>)
    ensures var e1 := Add(map[], "from", from);
      var e2 := Add(e1, "to", to);
      var e3 := Add(e2, "subject", subject);
      var e4 := Add(e3, "content", content);
      && "to" !in e1 && "subject" !in e2 && "content" !in e3 && "html" !in e4
      && "text" !in Add(e4, "html", html)
  {
  }

  /** `*Email`: the five fields are updated in place by the setters. */
  class Email {
    var from: string
    var to: string
    var subject: string
    var html: string
    var text: string

    function Value(): Message
      reads this
    {
      Message(from, to, subject, html, text)
    }

    /** `NewEmail`: no body yet. */
    constructor (from: string, to: string, subject: string)
      ensures Value() == Message(from, to, subject, "", "")
    {
      this.from, this.to, this.subject, this.html, this.text := from, to, subject, "", "";
    }

    /** `NewHTMLEmail` */
    constructor WithHTML(from: string, to: string, subject: string, html: string)
      ensures Value() == Message(from, to, subject, html, "")
    {
      this.from, this.to, this.subject, this.html, this.text := from, to, subject, html, "";
    }

    /** `NewTextEmail` */
    constructor WithText(from: string, to: string, subject: string, text: string)
      ensures Value() == Message(from, to, subject, "", text)
    {
      this.from, this.to, this.subject, this.html, this.text := from, to, subject, "", text;
    }

    /** `NewEmailWithBoth` */
    constructor WithBoth(from: string, to: string, subject: string, html: string, text: string)
      ensures Value() == Message(from, to, subject, html, text)
    {
      this.from, this.to, this.subject, this.html, this.text := from, to, subject, html, text;
    }

    /** `Validate`: the checks in the library's order, each appending its
        message under its field. */
    method Validate() returns (err: Option<PoodleError>)
      ensures err == ValidationOf(Value())
    {
      FieldsFresh(AddressProblem(from, FromRequired, FromInvalid), AddressProblem(to, ToRequired, ToInvalid),
                  SubjectProblem(subject), ContentProblem(html, text), SizeProblem(html, HtmlTooLarge));
      var errors: map<string, seq<string>> := map[];
      errors := CheckAddress(errors, "from", from, FromRequired, FromInvalid);
      errors := CheckAddress(errors, "to", to, ToRequired, ToInvalid);
      errors := CheckSubject(errors, subject);
      errors := CheckContent(errors, html, text);
      errors := CheckSize(errors, "html", html, HtmlTooLarge);
      errors := CheckSize(errors, "text", text, TextTooLarge);
      assert errors == RuleErrors(Value());
      if |errors| > 0 {
        return Some(NewValidationError(ValidationSummary, errors));
      }
      return None;
    }

    /** `SetHTML`: replaces the HTML body and returns the same email. */
    method SetHTML(html: string) returns (self: Email)
      modifies this
      ensures self == this && Value() == old(Value()).(html := html)
    {
      this.html := html;
      return this;
    }

    /** `SetText`: replaces the text body and returns the same email. */
    method SetText(text: string) returns (self: Email)
      modifies this
      ensures self == this && Value() == old(Value()).(text := text)
    {
      this.text := text;
      return this;
    }

    /** `SetBoth`: replaces both bodies and returns the same email. */
    method SetBoth(html: string, text: string) returns (self: Email)
      modifies this
      ensures self == this && Value() == old(Value()).(html := html, text := text)
    {
      this.html, this.text := html, text;
      return this;
    }

    /** `HasHTML`: the HTML body is not blank. */
    predicate HasHTML()
      reads this
    {
      !Blank(html)
    }

    /** `HasText`: the text body is not blank. */
    predicate HasText()
      reads this
    {
      !Blank(text)
    }
  }

  /** The content rule of `Validate` fires exactly for an email that has
      neither body, as `HasHTML` and `HasText` see it. */
  lemma ContentRuleMatchesAccessors(e: Email)
    ensures "content" in RuleErrors(e.Value()) <==> !e.HasHTML() && !e.HasText()
  {
    ContentRules(e.Value());
  }

  /** The setters sequence of the library's tests: after `SetHTML` on a new
      email it has HTML and no text, after a further `SetText` it has text,
      and a second email after `SetBoth` has both. */
  method SettersExample() returns (html1: bool, text1: bool, text2: bool, html3: bool, text3: bool)
    ensures html1 && !text1 && text2 && html3 && text3
  {
    var email := new Email("from@example.com", "to@example.com", "Test Subject");
    email := email.SetHTML("<h1>Hello</h1>");
    TrimSpaceUntouched("<h1>Hello</h1>");
    TrimSpaceUntouched("");
    html1 := email.HasHTML();
    text1 := email.HasText();
    email := email.SetText("Hello World");
    TrimSpaceUntouched("Hello World");
    text2 := email.HasText();
    var email2 := new Email("from@example.com", "to@example.com", "Test Subject");
    email2 := email2.SetBoth("<h1>Hello</h1>", "Hello World");
    html3 := email2.HasHTML();
    text3 := email2.HasText();
  }
}
