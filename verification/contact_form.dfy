/** The contact-form submit handler: read five fields, reject the first
    failing check (blank field, malformed e-mail, phone without exactly ten
    digits), otherwise report success and reset the form. No message is sent
    anywhere; the submission is simulated. */
module ContactForm {
  import opened Wrappers
  import opened Text

  /** The outcome of one submit, one per `showMessage` call of the handler. */
  datatype Outcome = EmptyField | BadEmail | BadPhone | Accepted

  /** The `type` argument of `showMessage`, which selects the colour. */
  datatype MessageKind = Success | Warning

  /** What the status element shows after `showMessage`. */
  datatype Status = Status(text: string, kind: MessageKind)

  /** `(element || {}).value || ''`: a missing element reads as "". */
  function FieldValue(element: Option<string>): string {
    match element
    case None => ""
    case Some(v) => v
  }

  /** `!s.trim()`: the field counts as not filled in. */
  predicate IsBlank(s: string) {
    Trim(s) == []
  }

  // ---------------------------------------------------------------------
  // E-mail: the regular expression ^[^\s@]+@[^\s@]+\.[^\s@]+$

  /** A run of the class `[^\s@]` (the `+` is imposed by the caller). */
  predicate EmailAtom(t: string) {
    forall i :: 0 <= i < |t| ==> !IsWhitespace(t[i]) && t[i] != '@'
  }

  /** The language of the e-mail regular expression: `s` splits into three
      non-empty runs of `[^\s@]`, separated by `@` and by `.`. */
  ghost predicate MatchesEmailPattern(s: string) {
    exists at: nat, dot: nat :: EmailSplit(s, at, dot)
  }

  /** `s` is `s[..at] + "@" + s[at + 1..dot] + "." + s[dot + 1..]` with three
      non-empty runs of `[^\s@]`. */
  ghost predicate EmailSplit(s: string, at: nat, dot: nat) {
    0 < at && at + 1 < dot && dot + 1 < |s| && s[at] == '@' && s[dot] == '.'
    && EmailAtom(s[..at]) && EmailAtom(s[at + 1..dot]) && EmailAtom(s[dot + 1..])
  }

  /** The e-mail check as a decision procedure: no white space, exactly one
      `@`, a non-empty local part, and a `.` in the domain that is neither
      the domain's first nor its last character. */
  predicate IsEmail(s: string) {
    (forall i :: 0 <= i < |s| ==> !IsWhitespace(s[i]))
    && Count(s, '@') == 1
    && var at := FirstIndex(s, '@');
       0 < at < |s| && HasInnerDot(s[at + 1..])
  }

  /** `d` holds a `.` that is neither its first nor its last character. */
  predicate HasInnerDot(d: string) {
    |d| >= 3 && FirstIndex(d[1..], '.') < |d| - 2
  }

  /** The decision procedure accepts exactly the strings the regular
      expression matches. */
  lemma EmailPatternIff(s: string)
    ensures IsEmail(s) <==> MatchesEmailPattern(s)
  {
    if IsEmail(s) {
      IsEmailMatches(s);
    }
    if MatchesEmailPattern(s) {
      var at: nat, dot: nat :| EmailSplit(s, at, dot);
      EmailSplitIsEmail(s, at, dot);
    }
  }

  lemma IsEmailMatches(s: string)
    requires IsEmail(s)
    ensures MatchesEmailPattern(s)
  {
    var at := FirstIndex(s, '@');
    var domain := s[at + 1..];
    var j := 1 + FirstIndex(domain[1..], '.');
    var dot := at + 1 + j;
    assert s == s[..at] + ([s[at]] + s[at + 1..]);
    CountAppend(s[..at], [s[at]] + s[at + 1..], '@');
    CountAppend([s[at]], s[at + 1..], '@');
    CountZeroIff(s[..at], '@');
    CountZeroIff(domain, '@');
    assert '@' !in domain;
    assert EmailAtom(s[..at]);
    assert EmailAtom(s[at + 1..dot]);
    assert EmailAtom(s[dot + 1..]);
    assert EmailSplit(s, at, dot);
  }

  lemma EmailSplitIsEmail(s: string, at: nat, dot: nat)
    requires EmailSplit(s, at, dot)
    ensures IsEmail(s)
  {
    EmailSplitNoWhitespace(s, at, dot);
    EmailSplitOneAt(s, at, dot);
    FirstIndexAt(s, '@', at);
    var rest := s[at + 1..];
    assert rest[1..][dot - at - 2] == '.';
  }

  lemma EmailSplitNoWhitespace(s: string, at: nat, dot: nat)
    requires EmailSplit(s, at, dot)
    ensures forall i :: 0 <= i < |s| ==> !IsWhitespace(s[i])
  {
    forall i | 0 <= i < |s| ensures !IsWhitespace(s[i]) {
      if i < at { assert s[i] == s[..at][i]; }
      else if at < i < dot { assert s[i] == s[at + 1..dot][i - at - 1]; }
      else if dot < i { assert s[i] == s[dot + 1..][i - dot - 1]; }
    }
  }

  lemma EmailSplitOneAt(s: string, at: nat, dot: nat)
    requires EmailSplit(s, at, dot)
    ensures Count(s, '@') == 1 && '@' !in s[..at]
  {
    var rest := s[at + 1..];
    assert rest == s[at + 1..dot] + [s[dot]] + s[dot + 1..];
    CountAppend(s[at + 1..dot] + [s[dot]], s[dot + 1..], '@');
    CountAppend(s[at + 1..dot], [s[dot]], '@');
    assert s == s[..at] + ([s[at]] + rest);
    CountAppend(s[..at], [s[at]] + rest, '@');
    CountAppend([s[at]], rest, '@');
    CountZeroIff(s[..at], '@');
    CountZeroIff(s[at + 1..dot], '@');
    CountZeroIff(s[dot + 1..], '@');
  }

  // ---------------------------------------------------------------------
  // Phone: /^\d{10}$/.test(phone.replace(/\D/g, ''))

  /** `s.replace(/\D/g, '')`: the digits of `s`, in order. */
  function Digits(s: string): (r: string)
    ensures |r| <= |s|
    ensures forall i :: 0 <= i < |r| ==> IsDigit(r[i])
  {
    if s == [] then [] else (if IsDigit(s[0]) then [s[0]] else []) + Digits(s[1..])
  }

  /** The regular expression `^\d{10}$`. */
  predicate MatchesTenDigits(t: string) {
    |t| == 10 && forall i :: 0 <= i < |t| ==> IsDigit(t[i])
  }

  predicate IsPhone(s: string) {
    MatchesTenDigits(Digits(s))
  }

  /** A phone number is accepted exactly when it holds ten digits. */
  lemma PhoneIff(s: string)
    ensures IsPhone(s) <==> |Digits(s)| == 10
  {
  }

  /** Stripping distributes over concatenation: digits keep their order. */
  lemma {:induction false} DigitsAppend(a: string, b: string)
    ensures Digits(a + b) == Digits(a) + Digits(b)
  {
    if a == [] {
      assert a + b == b;
    } else {
      assert (a + b)[1..] == a[1..] + b;
      DigitsAppend(a[1..], b);
    }
  }

  /** Stripping keeps every digit of `s` and nothing else. */
  lemma {:induction false} DigitsContents(s: string)
    ensures forall c :: multiset(Digits(s))[c] == if IsDigit(c) then multiset(s)[c] else 0
  {
    if s != [] {
      DigitsContents(s[1..]);
      assert s == [s[0]] + s[1..];
      assert multiset(s) == multiset([s[0]]) + multiset(s[1..]);
    }
  }

  /** A string of digits only is left as it is. */
  lemma {:induction false} DigitsOfDigitString(s: string)
    requires forall i :: 0 <= i < |s| ==> IsDigit(s[i])
    ensures Digits(s) == s
  {
    if s != [] {
      DigitsOfDigitString(s[1..]);
      assert s == [s[0]] + s[1..];
    }
  }

  // ---------------------------------------------------------------------
  // The submit handler

  ghost predicate SomeFieldBlank(name: string, email: string, phone: string, service: string, message: string) {
    AllWhitespace(name) || AllWhitespace(email) || AllWhitespace(phone)
    || AllWhitespace(service) || AllWhitespace(message)
  }

  /** The three checks of the submit handler, first failure wins. The e-mail
      is tested untrimmed; the phone's digits are counted after stripping. */
  function Validate(name: string, email: string, phone: string, service: string, message: string): Outcome {
    if IsBlank(name) || IsBlank(email) || IsBlank(phone) || IsBlank(service) || IsBlank(message) then
      EmptyField
    else if !IsEmail(email) then
      BadEmail
    else if !IsPhone(phone) then
      BadPhone
    else
      Accepted
  }

  /** The blank-field check runs first: any blank field, and only that,
      gives `EmptyField`. */
  lemma ValidateBlankFirst(name: string, email: string, phone: string, service: string, message: string)
    ensures Validate(name, email, phone, service, message) == EmptyField
            <==> SomeFieldBlank(name, email, phone, service, message)
  {
  }

  /** With every field filled in, the e-mail check comes next: the
      submission is refused as `BadEmail` exactly when the regular
      expression does not match. */
  lemma ValidateEmailSecond(name: string, email: string, phone: string, service: string, message: string)
    requires !SomeFieldBlank(name, email, phone, service, message)
    ensures Validate(name, email, phone, service, message) == BadEmail <==> !MatchesEmailPattern(email)
  {
    EmailPatternIff(email);
  }

  /** With every field filled in and a well-formed e-mail, the phone decides:
      ten digits are accepted, any other count is `BadPhone`. */
  lemma ValidatePhoneLast(name: string, email: string, phone: string, service: string, message: string)
    requires !SomeFieldBlank(name, email, phone, service, message) && MatchesEmailPattern(email)
    ensures var r := Validate(name, email, phone, service, message);
      && (r == Accepted <==> |Digits(phone)| == 10)
      && (r == BadPhone <==> |Digits(phone)| != 10)
  {
    EmailPatternIff(email);
    PhoneIff(phone);
  }

  /** The message `showMessage` displays for an outcome. */
  function Report(o: Outcome): (st: Status)
    ensures st.kind == Success <==> o == Accepted
  {
    match o
    case EmptyField => Status("\U{26A0}\U{FE0F} Please fill in all fields.", Warning)
    case BadEmail => Status("\U{26A0}\U{FE0F} Please enter a valid email address.", Warning)
    case BadPhone => Status("\U{26A0}\U{FE0F} Please enter a valid 10-digit phone number.", Warning)
    case Accepted => Status("\U{2705} Thank you! Your message has been sent successfully.", Success)
  }

  /** What `form.reset()` does to one field: a present control goes back to
      its (empty) default value, a missing one stays missing. */
  function Cleared(element: Option<string>): (r: Option<string>)
    ensures r.None? <==> element.None?
    ensures FieldValue(r) == ""
  {
    match element
    case None => None
    case Some(_) => Some("")
  }

  /** The form with its five controls (`None`: the control is not in the
      page) and the status element. */
  class Form {
    var name: Option<string>
    var email: Option<string>
    var phone: Option<string>
    var service: Option<string>
    var message: Option<string>
    const hasStatus: bool
    var status: Option<Status>

    constructor (name: Option<string>, email: Option<string>, phone: Option<string>,
                 service: Option<string>, message: Option<string>, hasStatus: bool)
      ensures this.name == name && this.email == email && this.phone == phone
      ensures this.service == service && this.message == message
      ensures this.hasStatus == hasStatus && status == None
    {
      this.name, this.email, this.phone := name, email, phone;
      this.service, this.message := service, message;
      this.hasStatus := hasStatus;
      status := None;
    }

    /** `showMessage`: overwrites the status text, if there is a status element. */
    method ShowMessage(st: Status)
      modifies this
      ensures status == (if hasStatus then Some(st) else old(status))
      ensures name == old(name) && email == old(email) && phone == old(phone)
      ensures service == old(service) && message == old(message)
    {
      if hasStatus {
        status := Some(st);
      }
    }

    /** The submit handler. The outcome is that of `Validate` on the values
        read; only an accepted submission clears the fields. */
    method Submit() returns (o: Outcome)
      modifies this
      ensures o == Validate(FieldValue(old(name)), FieldValue(old(email)), FieldValue(old(phone)),
                            FieldValue(old(service)), FieldValue(old(message)))
      ensures status == (if hasStatus then Some(Report(o)) else old(status))
      ensures o == Accepted ==>
        name == Cleared(old(name)) && email == Cleared(old(email)) && phone == Cleared(old(phone))
        && service == Cleared(old(service)) && message == Cleared(old(message))
      ensures o != Accepted ==>
        name == old(name) && email == old(email) && phone == old(phone)
        && service == old(service) && message == old(message)
    {
      o := Validate(FieldValue(name), FieldValue(email), FieldValue(phone),
                    FieldValue(service), FieldValue(message));
      Conclude(o);
    }

    /** The part of the handler after the checks: report, and reset the
        form on success. */
    method Conclude(o: Outcome)
      modifies this
      ensures status == (if hasStatus then Some(Report(o)) else old(status))
      ensures o == Accepted ==>
        name == Cleared(old(name)) && email == Cleared(old(email)) && phone == Cleared(old(phone))
        && service == Cleared(old(service)) && message == Cleared(old(message))
      ensures o != Accepted ==>
        name == old(name) && email == old(email) && phone == old(phone)
        && service == old(service) && message == old(message)
    {
      ShowMessage(Report(o));
      if o == Accepted {
        name, email, phone := Cleared(name), Cleared(email), Cleared(phone);
        service, message := Cleared(service), Cleared(message);
      }
    }
  }

  // ---------------------------------------------------------------------
  // Consequences

  /** A missing control reads as "" and so always yields the
      "fill in all fields" warning, before any other check. */
  lemma MissingFieldRejected(name: Option<string>, email: Option<string>, phone: Option<string>,
                             service: Option<string>, message: Option<string>)
    requires name.None? || email.None? || phone.None? || service.None? || message.None?
    ensures Validate(FieldValue(name), FieldValue(email), FieldValue(phone),
                     FieldValue(service), FieldValue(message)) == EmptyField
  {
  }

  /** Submitting again right after an accepted submission is rejected as
      incomplete, since every present field has been cleared. */
  lemma ResubmitAfterAcceptRejected(name: Option<string>, email: Option<string>, phone: Option<string>,
                                    service: Option<string>, message: Option<string>)
    ensures Validate(FieldValue(Cleared(name)), FieldValue(Cleared(email)), FieldValue(Cleared(phone)),
                     FieldValue(Cleared(service)), FieldValue(Cleared(message))) == EmptyField
  {
  }

  lemma EmailAccepted()
    ensures MatchesEmailPattern("a@b.co")
  {
    EmailPatternIff("a@b.co");
  }

  /** No dot after the `@`; a space inside, or before it (the e-mail is not
      trimmed); nothing at all; two `@`s. */
  lemma EmailRejected()
    ensures !MatchesEmailPattern("a@b")
    ensures !MatchesEmailPattern("a @b.co")
    ensures !MatchesEmailPattern(" a@b.co")
    ensures !MatchesEmailPattern("")
    ensures !MatchesEmailPattern("a@@b.co")
  {
    EmailPatternIff("a@b");
    EmailPatternIff("a @b.co");
    EmailPatternIff(" a@b.co");
    EmailPatternIff("");
    EmailPatternIff("a@@b.co");
  }

  lemma PhoneDigitsAccepted()
    ensures IsPhone("1234567890")
  {
  }

  /** Punctuation and spaces are stripped before the digits are counted. */
  lemma PhonePunctuatedAccepted()
    ensures IsPhone("(123) 456-7890")
  {
  }

  lemma PhoneRejected()
    ensures !IsPhone("12345")
    ensures !IsPhone("12345678901")
  {
  }

  /** A submission with an empty service gets the blank-field warning,
      whatever the other fields hold. */
  lemma SubmissionIncomplete()
    ensures Validate("Jo", "jo@x.com", "555-123-4567", "", "Hi") == EmptyField
  {
  }

  /** The e-mail of the complete sample submission is well formed. */
  lemma JoEmail()
    ensures IsEmail("jo@x.com")
  {
    EmailPatternIff("jo@x.com");
    assert EmailSplit("jo@x.com", 2, 4);
  }

  /** Its phone number holds ten digits once the dashes are stripped. */
  lemma JoPhone()
    ensures IsPhone("555-123-4567")
  {
  }

  /** None of its fields is blank. */
  lemma JoNotBlank()
    ensures !IsBlank("Jo") && !IsBlank("jo@x.com") && !IsBlank("555-123-4567")
    ensures !IsBlank("Plumbing") && !IsBlank("Hi")
  {
  }

  /** A complete sample submission passes all three checks. */
  lemma ScenarioAccepted()
    ensures Validate("Jo", "jo@x.com", "555-123-4567", "Plumbing", "Hi") == Accepted
  {
    JoEmail();
    JoPhone();
    JoNotBlank();
  }
}
