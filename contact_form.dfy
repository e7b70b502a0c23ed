/**
 * The contact form of the Zacharzyce site: the e-mail check
 * (`isValidEmail`, the pattern `^[^\s@]+@[^\s@]+\.[^\s@]+$`), the chain of
 * checks on submit, and the check of one field as the user leaves it
 * (`validateField`).
 */
module ContactForm {
  import opened JsStrings

  // ----- the e-mail pattern -------------------------------------------------------

  /** A character of the class `[^\s@]`. */
  predicate IsPlainChar(c: char) {
    !IsJsWhitespace(c) && c != '@'
  }

  predicate AllPlain(t: string) {
    forall i :: 0 <= i < |t| ==> IsPlainChar(t[i])
  }

  /** `[^\s@]+`: a non-empty run of such characters. */
  predicate PlainRun(t: string) {
    t != "" && AllPlain(t)
  }

  /**
   * What the pattern accepts, read off its parts: a run, `@`, a run, a
   * literal `.`, and a run, covering the whole string.
   */
  ghost predicate MatchesEmailPattern(s: string) {
    exists i, j :: 0 <= i < j < |s| && s[i] == '@' && s[j] == '.' &&
      PlainRun(s[..i]) && PlainRun(s[i + 1..j]) && PlainRun(s[j + 1..])
  }

  /** The length of the longest prefix of `s` made of `[^\s@]` characters. */
  function PlainPrefix(s: string): (n: nat)
    ensures n <= |s| && AllPlain(s[..n])
    ensures n < |s| ==> !IsPlainChar(s[n])
  {
    if s == [] || !IsPlainChar(s[0]) then 0
    else
      var rest := PlainPrefix(s[1..]);
      assert s[..1 + rest] == [s[0]] + s[1..][..rest];
      1 + rest
  }

  /** Whether `d` has a `.` with at least one character on either side. */
  predicate HasInnerDot(d: string) {
    exists k :: 0 < k < |d| - 1 && d[k] == '.'
  }

  /**
   * `isValidEmail`: the matcher of the pattern. The first run is greedy and
   * must stop at an `@`; what follows may hold neither `@` nor whitespace,
   * and the literal `.` may be any dot with characters on both sides.
   */
  predicate IsValidEmail(email: string) {
    var local := PlainPrefix(email);
    0 < local < |email| && email[local] == '@' &&
    var domain := email[local + 1..];
    AllPlain(domain) && HasInnerDot(domain)
  }

  /** The prefix run ends at the first character outside the class. */
  lemma {:induction false} PlainPrefixAt(s: string, i: nat)
    requires i < |s| && AllPlain(s[..i]) && !IsPlainChar(s[i])
    ensures PlainPrefix(s) == i
  {
    if i > 0 {
      assert s[1..][..i - 1] == s[..i][1..];
      PlainPrefixAt(s[1..], i - 1);
    }
  }

  lemma ValidEmailMatches(s: string)
    requires IsValidEmail(s)
    ensures MatchesEmailPattern(s)
  {
    var i := PlainPrefix(s);
    var d := s[i + 1..];
    var k :| 0 < k < |d| - 1 && d[k] == '.';
    var j := i + 1 + k;
    assert s[i + 1..j] == d[..k];
    assert s[j + 1..] == d[k + 1..];
    assert AllPlain(d[..k]) && AllPlain(d[k + 1..]);
    assert s[j] == d[k];
  }

  lemma PatternIsValidEmail(s: string, i: nat, j: nat)
    requires i < j < |s| && s[i] == '@' && s[j] == '.'
    requires PlainRun(s[..i]) && PlainRun(s[i + 1..j]) && PlainRun(s[j + 1..])
    ensures IsValidEmail(s)
  {
    PlainPrefixAt(s, i);
    var d := s[i + 1..];
    assert d == s[i + 1..j] + [s[j]] + s[j + 1..];
    assert d[j - i - 1] == '.';
  }

  /** The matcher accepts exactly the strings the pattern describes. */
  lemma EmailMatcherIsPattern(s: string)
    ensures IsValidEmail(s) <==> MatchesEmailPattern(s)
  {
    if IsValidEmail(s) {
      ValidEmailMatches(s);
    }
    if MatchesEmailPattern(s) {
      var i, j :| 0 <= i < j < |s| && s[i] == '@' && s[j] == '.' &&
        PlainRun(s[..i]) && PlainRun(s[i + 1..j]) && PlainRun(s[j + 1..]);
      PatternIsValidEmail(s, i, j);
    }
  }

  lemma AllPlainHasNoAt(t: string)
    requires AllPlain(t)
    ensures multiset(t)['@'] == 0
  {
    assert '@' !in t;
  }

  /** No character of `s` is whitespace. */
  predicate NoWhitespace(s: string) {
    forall i :: 0 <= i < |s| ==> !IsJsWhitespace(s[i])
  }

  /** A string cut at an `@` into two runs of `[^\s@]` has no whitespace and that one `@`. */
  lemma AroundAt(s: string, a: nat)
    requires a < |s| && s[a] == '@' && AllPlain(s[..a]) && AllPlain(s[a + 1..])
    ensures NoWhitespace(s) && multiset(s)['@'] == 1
  {
    assert s == s[..a] + [s[a]] + s[a + 1..];
    AllPlainHasNoAt(s[..a]);
    AllPlainHasNoAt(s[a + 1..]);
    forall i | 0 <= i < |s| ensures !IsJsWhitespace(s[i]) {
      if i < a {
        assert s[i] == s[..a][i];
        assert IsPlainChar(s[..a][i]);
      } else if i > a {
        assert s[i] == s[a + 1..][i - a - 1];
        assert IsPlainChar(s[a + 1..][i - a - 1]);
      }
    }
  }

  lemma ValidEmailConditions(s: string)
    requires IsValidEmail(s)
    ensures NoWhitespace(s) && multiset(s)['@'] == 1
    ensures var a := PlainPrefix(s); 0 < a < |s| && s[a] == '@' && HasInnerDot(s[a + 1..])
  {
    AroundAt(s, PlainPrefix(s));
  }

  lemma ConditionsValidEmail(s: string, a: nat)
    requires NoWhitespace(s) && multiset(s)['@'] == 1
    requires 0 < a < |s| && s[a] == '@' && HasInnerDot(s[a + 1..])
    ensures IsValidEmail(s)
  {
    assert s == s[..a] + [s[a]] + s[a + 1..];
    assert multiset(s[..a])['@'] == 0 && multiset(s[a + 1..])['@'] == 0;
    assert '@' !in s[..a] && '@' !in s[a + 1..];
    assert AllPlain(s[..a]) by {
      forall i | 0 <= i < a ensures IsPlainChar(s[..a][i]) {
        assert s[..a][i] == s[i];
      }
    }
    assert AllPlain(s[a + 1..]) by {
      var t := s[a + 1..];
      forall i | 0 <= i < |t| ensures IsPlainChar(t[i]) {
        assert t[i] == s[a + 1 + i];
      }
    }
    PlainPrefixAt(s, a);
  }

  /**
   * The four conditions of a valid address: no whitespace, exactly one `@`,
   * something before it, and a dot after it that neither begins nor ends
   * the part after the `@`.
   */
  lemma EmailConditions(s: string)
    ensures IsValidEmail(s) <==>
      NoWhitespace(s) && multiset(s)['@'] == 1 &&
      exists a :: 0 < a < |s| && s[a] == '@' && HasInnerDot(s[a + 1..])
  {
    if IsValidEmail(s) {
      ValidEmailConditions(s);
    } else if NoWhitespace(s) && multiset(s)['@'] == 1 {
      forall a | 0 < a < |s| && s[a] == '@' ensures !HasInnerDot(s[a + 1..]) {
        if HasInnerDot(s[a + 1..]) {
          ConditionsValidEmail(s, a);
        }
      }
    }
  }

  /** A valid address holds no whitespace and exactly one `@`. */
  lemma ValidEmailShape(s: string)
    requires IsValidEmail(s)
    ensures multiset(s)['@'] == 1 && NoWhitespace(s)
  {
    ValidEmailConditions(s);
  }

  // ----- submitting the form ------------------------------------------------------

  /** What the submit handler reads from the form. */
  datatype ContactFormData = ContactFormData(
    name: string, email: string, phone: string, subject: string, message: string,
    consent: bool, newsletter: bool)

  /** The message the handler shows. */
  datatype SubmitOutcome = MissingFields | InvalidEmail | NoConsent | Sent

  /**
   * The submit handler: required fields filled, then the address, then the
   * consent, each check stopping the submission with its own message.
   */
  function Submit(form: ContactFormData): SubmitOutcome
  {
    if form.name == "" || form.email == "" || form.subject == "" || form.message == "" then
      MissingFields
    else if !IsValidEmail(form.email) then InvalidEmail
    else if !form.consent then NoConsent
    else Sent
  }

  /** The text shown for each outcome, and whether it is shown as an error. */
  function OutcomeMessage(outcome: SubmitOutcome): (string, bool)
  {
    match outcome
    case MissingFields =>
      ("Prosz\U{0119} wype\U{0142}ni\U{0107} wszystkie wymagane pola.", true)
    case InvalidEmail =>
      ("Prosz\U{0119} poda\U{0107} prawid\U{0142}owy adres email.", true)
    case NoConsent =>
      ("Musisz wyrazi\U{0107} zgod\U{0119} na przetwarzanie danych osobowych.", true)
    case Sent =>
      ("Dzi\U{0119}kujemy za wiadomo\U{015B}\U{0107}! Skontaktujemy si\U{0119} z Tob\U{0105} wkr\U{00F3}tce.", false)
  }

  /** A form is sent exactly when all four required fields are filled, the address is valid and consent is given. */
  lemma SubmitSentIff(form: ContactFormData)
    ensures Submit(form) == Sent <==>
      form.name != "" && form.subject != "" && form.message != "" &&
      IsValidEmail(form.email) && form.consent
  {
  }

  /**
   * The checks run in order: an empty required field is reported whatever
   * the address and consent; a bad address only once the fields are
   * filled; missing consent only once the address is valid.
   */
  lemma SubmitOrder(form: ContactFormData)
    ensures Submit(form) == MissingFields <==>
      form.name == "" || form.email == "" || form.subject == "" || form.message == ""
    ensures Submit(form) == InvalidEmail <==>
      form.name != "" && form.email != "" && form.subject != "" && form.message != "" &&
      !IsValidEmail(form.email)
    ensures Submit(form) == NoConsent <==>
      form.name != "" && form.subject != "" && form.message != "" &&
      IsValidEmail(form.email) && !form.consent
  {
  }

  /** The phone number and the newsletter box play no part in the checks. */
  lemma SubmitIgnoresOptional(form: ContactFormData, phone: string, newsletter: bool)
    ensures Submit(form.(phone := phone, newsletter := newsletter)) == Submit(form)
  {
  }

  // ----- checking one field -------------------------------------------------------

  /** A form field as `validateField` sees it: its value and whether it is required or an e-mail field. */
  datatype FormField = FormField(value: string, required: bool, isEmail: bool)

  datatype FieldCheck = FieldOk | RequiredMissing | BadEmailFormat

  /** `validateField`: the check made on the trimmed value when a field loses focus. */
  function ValidateField(field: FormField): FieldCheck
  {
    var value := Trim(field.value);
    if field.required && value == "" then RequiredMissing
    else if field.isEmail && value != "" && !IsValidEmail(value) then BadEmailFormat
    else FieldOk
  }

  /** The error text under a field that fails its check. */
  function FieldErrorText(check: FieldCheck): string
  {
    match check
    case FieldOk => ""
    case RequiredMissing => "To pole jest wymagane"
    case BadEmailFormat => "Nieprawid\U{0142}owy format email"
  }

  /**
   * A field passes when it is optional or holds more than whitespace, and,
   * for an e-mail field holding more than whitespace, its trimmed value is
   * a valid address.
   */
  lemma ValidateFieldIff(field: FormField)
    ensures ValidateField(field) == FieldOk <==>
      (!field.required || !AllWhitespace(field.value)) &&
      (!field.isEmail || AllWhitespace(field.value) || IsValidEmail(Trim(field.value)))
    ensures ValidateField(field) == RequiredMissing <==> field.required && AllWhitespace(field.value)
  {
    TrimEmptyIff(field.value);
  }

  lemma {:induction false} TrimWithoutWhitespace(s: string)
    requires NoWhitespace(s)
    ensures Trim(s) == s
  {
    assert TrimStart(s) == s;
  }

  /** An address the submit handler accepts also passes the e-mail field's own check. */
  lemma SubmittedEmailPassesField(email: string, required: bool)
    requires IsValidEmail(email)
    ensures ValidateField(FormField(email, required, true)) == FieldOk
  {
    ValidEmailShape(email);
    TrimWithoutWhitespace(email);
  }

  /**
   * The two checks disagree on blank text: a name of only spaces passes the
   * submit handler, which tests for the empty string, while the field check,
   * which trims first, reports it as missing.
   */
  lemma BlankNameDisagreement(form: ContactFormData)
    requires form.name != "" && AllWhitespace(form.name)
    requires form.subject != "" && form.message != "" && IsValidEmail(form.email) && form.consent
    ensures Submit(form) == Sent
    ensures ValidateField(FormField(form.name, true, false)) == RequiredMissing
  {
    TrimEmptyIff(form.name);
  }
}
