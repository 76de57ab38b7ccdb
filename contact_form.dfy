/**
 * Validation of the contact form: three field checks whose failures are
 * reported in a fixed order, and the e-mail pattern
 * `^[^\s@]+@[^\s@]+\.[^\s@]+$`.
 */
module ContactForm {
  import opened Wrappers
  import Projects

  /**
   * The characters JavaScript's `\s` class matches: the ASCII whitespace
   * characters, no-break space, the Unicode space separators, the line and
   * paragraph separators and the byte-order mark.
   */
  predicate IsWhitespace(c: char) {
    || c == ' ' || c == '\t' || c == '\n' || c == '\U{B}' || c == '\U{C}' || c == '\r'
    || c == '\U{A0}' || c == '\U{1680}' || ('\U{2000}' <= c <= '\U{200A}')
    || c == '\U{2028}' || c == '\U{2029}' || c == '\U{202F}' || c == '\U{205F}'
    || c == '\U{3000}' || c == '\U{FEFF}'
  }

  /** A character of the regex class `[^\s@]`. */
  predicate Plain(c: char) {
    !IsWhitespace(c) && c != '@'
  }

  /** Every character of `s` is in `[^\s@]`. */
  predicate AllPlain(s: string) {
    forall k :: 0 <= k < |s| ==> Plain(s[k])
  }

  /**
   * The regular expression read directly: a position `at` holding '@' and a
   * later position `dot` holding '.', with at least one character before
   * `at`, between them and after `dot`, and every character other than the
   * '@' in `[^\s@]`.
   */
  ghost predicate MatchesEmailPattern(s: string) {
    exists at, dot ::
      && 0 < at && at + 1 < dot < |s| - 1
      && s[at] == '@' && s[dot] == '.'
      && forall k :: 0 <= k < |s| && k != at ==> Plain(s[k])
  }

  /** The position of the first `c` in `s`. */
  function FirstIndex(s: string, c: char): (r: nat)
    requires c in s
    ensures r < |s| && s[r] == c
    ensures forall k :: 0 <= k < r ==> s[k] != c
  {
    if s[0] == c then 0 else 1 + FirstIndex(s[1..], c)
  }

  /** The part after '@': no whitespace or '@', and a '.' that is neither its first nor its last character. */
  predicate ValidDomain(d: string) {
    AllPlain(d) && |d| >= 3 && '.' in d[1..|d| - 1]
  }

  /** `isValidEmail`, as a scan: split at the first '@' and check both parts. */
  function IsValidEmail(email: string): (ok: bool)
    // at least "a@b.c", no whitespace anywhere, and exactly one '@'
    ensures ok ==> |email| >= 5 && '@' in email
    ensures ok ==> forall k :: 0 <= k < |email| ==> !IsWhitespace(email[k])
    ensures ok ==> forall j, k :: 0 <= j < k < |email| && email[j] == '@' ==> email[k] != '@'
  {
    && '@' in email
    && var at := FirstIndex(email, '@');
       at > 0 && AllPlain(email[..at]) && ValidDomain(email[at + 1..])
  }

  /** The scan accepts exactly the strings the regular expression matches. */
  lemma IsValidEmailMatchesPattern(s: string)
    ensures IsValidEmail(s) <==> MatchesEmailPattern(s)
  {
  }

  /** The form fields as `FormData.get` returns them: `None` for a field the form lacks. */
  datatype FormData = FormData(name: Option<string>, email: Option<string>, subject: Option<string>, message: Option<string>)

  /** The three complaints `validateForm` can make. */
  datatype FormError = NameTooShort | InvalidEmail | MessageTooShort

  /** The position of each complaint in the report. */
  function Rank(e: FormError): nat {
    match e
    case NameTooShort => 0
    case InvalidEmail => 1
    case MessageTooShort => 2
  }

  /** The notification text of each complaint. */
  function ErrorMessage(e: FormError): string {
    match e
    case NameTooShort => "El nombre debe tener al menos 2 caracteres"
    case InvalidEmail => "Por favor ingresa un email válido"
    case MessageTooShort => "El mensaje debe tener al menos 10 caracteres"
  }

  predicate NameOk(name: Option<string>) {
    name.Some? && |name.value| >= 2
  }

  predicate EmailOk(email: Option<string>) {
    email.Some? && IsValidEmail(email.value)
  }

  predicate MessageOk(message: Option<string>) {
    message.Some? && |message.value| >= 10
  }

  /** The error list `validateForm` builds. */
  function FormErrors(data: FormData): (errors: seq<FormError>)
    ensures NameTooShort in errors <==> !NameOk(data.name)
    ensures InvalidEmail in errors <==> !EmailOk(data.email)
    ensures MessageTooShort in errors <==> !MessageOk(data.message)
    // reported in the order name, email, message, each at most once
    ensures forall i, j :: 0 <= i < j < |errors| ==> Rank(errors[i]) < Rank(errors[j])
  {
    (if NameOk(data.name) then [] else [NameTooShort])
    + (if EmailOk(data.email) then [] else [InvalidEmail])
    + (if MessageOk(data.message) then [] else [MessageTooShort])
  }

  /** `validateForm`: the form is accepted when no complaint is made. */
  function ValidateForm(data: FormData): (ok: bool)
    ensures ok <==> NameOk(data.name) && EmailOk(data.email) && MessageOk(data.message)
  {
    |FormErrors(data)| == 0
  }

  /** No complaint spans more than one line. */
  lemma SingleLine(e: FormError)
    ensures '\n' !in ErrorMessage(e)
  {
    match e
    case NameTooShort => assert '\n' !in "El nombre debe tener al menos 2 caracteres";
    case InvalidEmail => assert '\n' !in "Por favor ingresa un email válido";
    case MessageTooShort => assert '\n' !in "El mensaje debe tener al menos 10 caracteres";
  }

  /** The messages of the complaints, in order. */
  function Messages(errors: seq<FormError>): (lines: seq<string>)
    ensures |lines| == |errors|
    ensures forall i :: 0 <= i < |errors| ==> lines[i] == ErrorMessage(errors[i]) && '\n' !in lines[i]
  {
    forall e | e in errors
      ensures '\n' !in ErrorMessage(e)
    {
      SingleLine(e);
    }
    seq(|errors|, i requires 0 <= i < |errors| => ErrorMessage(errors[i]))
  }

  /** The complaints' messages, one per line (`errors.join('\n')`). */
  function ErrorText(errors: seq<FormError>): (text: string)
    requires |errors| > 0
    // splitting the text at line breaks gives back exactly the complaints' messages
    ensures Projects.Split(text, '\n') == Messages(errors)
    // the first complaint opens the text, a line break follows it when more
    // come, and the last complaint closes the text
    ensures ErrorMessage(errors[0]) <= text
    ensures |errors| > 1 ==> |ErrorMessage(errors[0])| < |text| && text[|ErrorMessage(errors[0])|] == '\n'
    ensures var last := ErrorMessage(errors[|errors| - 1]);
            |last| <= |text| && text[|text| - |last|..] == last
  {
    var lines := Messages(errors);
    Projects.SplitJoin(lines, '\n');
    Projects.JoinEnds(lines, '\n');
    Projects.Join(lines, '\n')
  }

  /** What submitting the form leads to. */
  datatype Submission =
    | ShowErrors(text: string)   // an error notification; nothing is sent
    | Send(data: FormData)       // the message goes out through the messaging link

  /** `handleFormSubmit`: an invalid form only shows its complaints; a valid one is sent as entered. */
  function SubmitForm(data: FormData): (outcome: Submission)
    ensures outcome.Send? <==> NameOk(data.name) && EmailOk(data.email) && MessageOk(data.message)
    ensures outcome.Send? ==> outcome.data == data
    ensures outcome.ShowErrors? ==> outcome.text == ErrorText(FormErrors(data))
  {
    if ValidateForm(data) then Send(data) else ShowErrors(ErrorText(FormErrors(data)))
  }

  /** The subject is never checked: changing it changes neither the verdict nor the report. */
  lemma SubjectIgnored(data: FormData, subject: Option<string>)
    ensures FormErrors(data.(subject := subject)) == FormErrors(data)
    ensures ValidateForm(data.(subject := subject)) == ValidateForm(data)
  {
  }
}
