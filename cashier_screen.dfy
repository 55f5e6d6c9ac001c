/**
 * The cashier's registration form in the mobile app: five text fields are checked in a fixed
 * order, the first failing check shows an error alert and stops, and only a form that passes
 * every check is sent to the cashier endpoint, with the amount run through `parseFloat` and the
 * campus fixed to 'town-a'.
 */
module CashierScreen {
  import opened Wrappers
  import opened Text
  import opened JsNumber

  const NameRequired: string := "Student name is required"
  const EmailRequired: string := "Valid personal email is required"
  const PhoneRequired: string := "Valid phone number is required"
  const MinimumPayment: string := "Minimum payment is 1000 FCFA"
  const ReferenceRequired: string := "Payment reference is required"
  const RegisteredMessage: string := "Student registered! Credentials sent via Email, SMS, and WhatsApp."
  const RegistrationFailed: string := "Registration failed"
  const DefaultFailure: string := "Failed to register student. Please try again."

  const MinimumAmount: int := 1000
  const MinimumPhoneLength: nat := 9
  const FormCampus: string := "town-a"

  /** The five text fields as typed. */
  datatype Form = Form(
    studentName: string,
    personalEmail: string,
    phoneNumber: string,
    amount: string,
    paymentReference: string)

  /** The body of the `registerPayment` call. */
  datatype Request = Request(
    studentName: string,
    personalEmail: string,
    phoneNumber: string,
    amount: Number,
    paymentReference: string,
    campus: string)

  /** What the success view shows of the endpoint's data. */
  datatype Receipt = Receipt(
    institutionalEmail: string,
    matricule: string,
    temporaryPassword: string,
    emailSent: bool,
    smsSent: bool,
    whatsappSent: bool)

  /** How the call ends: an answer with its `success` flag, or a thrown error. */
  datatype Reply = Answered(success: bool, data: Receipt, message: string) | Threw(reason: string)

  datatype Alert = Alert(title: string, message: string)

  /** The checks of the form, in the order they run. */
  datatype Check = NameCheck | EmailCheck | PhoneCheck | AmountCheck | ReferenceCheck

  /** The alert text of a failing check. */
  function Message(c: Check): string {
    match c
    case NameCheck => NameRequired
    case EmailCheck => EmailRequired
    case PhoneCheck => PhoneRequired
    case AmountCheck => MinimumPayment
    case ReferenceCheck => ReferenceRequired
  }

  // ---------------------------------------------------------------------------------------------
  // The checks

  /** The class `[^\s@]`. */
  predicate EmailChar(c: char) {
    !IsJsSpace(c) && c != '@'
  }

  predicate AllEmailChars(s: string) {
    forall i :: 0 <= i < |s| ==> EmailChar(s[i])
  }

  /** A dot with at least one character on each side. */
  predicate HasInnerDot(d: string) {
    exists j :: 0 < j < |d| - 1 && d[j] == '.'
  }

  /** `/^[^\s@]+@[^\s@]+\.[^\s@]+$/.test(s)`, decided at the first '@': the part before it must be
      non-empty, and neither part may hold white space or a second '@'. */
  predicate EmailValid(s: string) {
    match IndexOf(s, '@')
    case None => false
    case Some(i) => 0 < i && AllEmailChars(s[..i]) && AllEmailChars(s[i + 1..]) && HasInnerDot(s[i + 1..])
  }

  /** The regular expression read literally: some '@' and some later '.' cut `s` into three
      non-empty runs of `[^\s@]`. */
  ghost predicate MatchesEmailPattern(s: string) {
    exists i, j :: 0 < i && i + 1 < j < |s| - 1 && s[i] == '@' && s[j] == '.'
      && AllEmailChars(s[..i]) && AllEmailChars(s[i + 1..j]) && AllEmailChars(s[j + 1..])
  }

  /** `s.trim()` is not empty: some character is not white space (see `NotBlankIsTrimmed`). */
  predicate NotBlank(s: string) {
    exists i :: 0 <= i < |s| && !IsJsSpace(s[i])
  }

  predicate NameGiven(name: string) {
    NotBlank(name)
  }

  /** `!phone.trim() || phone.length < 9` fails; the length counts UTF-16 units of the raw text. */
  predicate PhoneValid(phone: string) {
    NotBlank(phone) && Utf16Length(phone) >= MinimumPhoneLength
  }

  /** `!amount || parseFloat(amount) < 1000` fails. */
  predicate AmountAccepted(amount: string) {
    amount != [] && !LessThan(ParseFloat(amount), MinimumAmount)
  }

  predicate ReferenceGiven(reference: string) {
    NotBlank(reference)
  }

  /** The validation chain of `handleRegister`: the first failing check, otherwise the request
      to send. */
  function Validate(f: Form): Result<Request, Check> {
    if !NameGiven(f.studentName) then Err(NameCheck)
    else if !EmailValid(f.personalEmail) then Err(EmailCheck)
    else if !PhoneValid(f.phoneNumber) then Err(PhoneCheck)
    else if !AmountAccepted(f.amount) then Err(AmountCheck)
    else if !ReferenceGiven(f.paymentReference) then Err(ReferenceCheck)
    else Ok(Request(f.studentName, f.personalEmail, f.phoneNumber, ParseFloat(f.amount),
                    f.paymentReference, FormCampus))
  }

  /** The alert shown once the call has ended. A failed answer is rethrown with its message, or
      'Registration failed' when it has none; a thrown error shows its own message, or the
      default text when that is empty. */
  function ReplyAlert(reply: Reply): (a: Alert)
    ensures reply.Answered? && reply.success <==> a.title == "Success"
  {
    match reply
    case Answered(success, _, message) =>
      if success then Alert("Success", RegisteredMessage)
      else Alert("Error", if message != [] then message else RegistrationFailed)
    case Threw(reason) => Alert("Error", if reason != [] then reason else DefaultFailure)
  }

  // ---------------------------------------------------------------------------------------------
  // The component's state

  class CashierForm {
    var studentName: string
    var personalEmail: string
    var phoneNumber: string
    var amount: string
    var paymentReference: string
    var loading: bool
    var result: Option<Receipt>
    /** Every alert shown, oldest first. */
    var alerts: seq<Alert>
    /** Every request sent to the cashier endpoint, oldest first. */
    var sent: seq<Request>

    constructor ()
      ensures Fields() == Form("", "", "", "", "") && !loading && result == None
      ensures alerts == [] && sent == []
    {
      studentName, personalEmail, phoneNumber, amount, paymentReference := "", "", "", "", "";
      loading, result := false, None;
      alerts, sent := [], [];
    }

    function Fields(): Form
      reads this
    {
      Form(studentName, personalEmail, phoneNumber, amount, paymentReference)
    }

    /** `handleRegister`, with the endpoint's reply as a parameter: a form that fails a check
        shows that check's alert and changes nothing else; a valid one is sent, the reply's
        alert is shown, a successful reply's data becomes the result, and loading ends. */
    method HandleRegister(reply: Reply)
      modifies this
      ensures Fields() == old(Fields())
      ensures Validate(old(Fields())).Err? ==>
        && alerts == old(alerts) + [Alert("Error", Message(Validate(old(Fields())).error))]
        && sent == old(sent) && loading == old(loading) && result == old(result)
      ensures Validate(old(Fields())).Ok? ==>
        && sent == old(sent) + [Validate(old(Fields())).value]
        && alerts == old(alerts) + [ReplyAlert(reply)]
        && !loading
        && result == (if reply.Answered? && reply.success then Some(reply.data) else old(result))
    {
      var form := Fields();
      var checked := Validate(form);
      if checked.Err? {
        alerts := alerts + [Alert("Error", Message(checked.error))];
        return;
      }
      loading := true;
      sent := sent + [checked.value];
      if reply.Answered? && reply.success {
        result := Some(reply.data);
      }
      alerts := alerts + [ReplyAlert(reply)];
      loading := false;
    }

    /** `handleReset`: the five fields and the result are cleared; alerts and requests stay. */
    method HandleReset()
      modifies this
      ensures Fields() == Form("", "", "", "", "") && result == None
      ensures loading == old(loading) && alerts == old(alerts) && sent == old(sent)
    {
      studentName, personalEmail, phoneNumber, amount, paymentReference := "", "", "", "", "";
      result := None;
    }
  }

  // ---------------------------------------------------------------------------------------------
  // Properties

  /** The blank test is JavaScript's `!s.trim()`. */
  lemma NotBlankIsTrimmed(s: string)
    ensures NotBlank(s) <==> Trim(s) != []
  {
    TrimEmptyIffBlank(s);
  }

  /** The decision at the first '@' agrees with the regular expression on every string. */
  lemma {:induction false} EmailValidMatchesPattern(s: string)
    ensures EmailValid(s) <==> MatchesEmailPattern(s)
  {
    if EmailValid(s) {
      var i := IndexOf(s, '@').value;
      var d := s[i + 1..];
      var j :| 0 < j < |d| - 1 && d[j] == '.';
      EmailPartsSplit(s, i, i + 1 + j);
    }
    if MatchesEmailPattern(s) {
      var i, j :| 0 < i && i + 1 < j < |s| - 1 && s[i] == '@' && s[j] == '.'
        && AllEmailChars(s[..i]) && AllEmailChars(s[i + 1..j]) && AllEmailChars(s[j + 1..]);
      EmailPartsJoin(s, i, j);
    }
  }

  lemma EmailPartsSplit(s: string, i: nat, j: nat)
    requires i + 1 < j < |s| - 1 && s[j] == '.' && AllEmailChars(s[i + 1..])
    ensures AllEmailChars(s[i + 1..j]) && AllEmailChars(s[j + 1..])
  {
    var d, a, b := s[i + 1..], s[i + 1..j], s[j + 1..];
    forall k | 0 <= k < |a|
      ensures EmailChar(a[k])
    {
      assert a[k] == d[k];
    }
    forall k | 0 <= k < |b|
      ensures EmailChar(b[k])
    {
      assert b[k] == d[k + j - i];
    }
  }

  lemma EmailPartsJoin(s: string, i: nat, j: nat)
    requires 0 < i && i + 1 < j < |s| - 1 && s[i] == '@' && s[j] == '.'
    requires AllEmailChars(s[..i]) && AllEmailChars(s[i + 1..j]) && AllEmailChars(s[j + 1..])
    ensures IndexOf(s, '@') == Some(i)
    ensures AllEmailChars(s[i + 1..]) && HasInnerDot(s[i + 1..])
  {
    assert '@' !in s[..i] by {
      assert forall k :: 0 <= k < i ==> EmailChar(s[..i][k]);
    }
    var d := s[i + 1..];
    forall k | 0 <= k < |d|
      ensures EmailChar(d[k])
    {
      if k < j - (i + 1) {
        assert d[k] == s[i + 1..j][k];
      } else if k > j - (i + 1) {
        assert d[k] == s[j + 1..][k - (j - i)];
      }
    }
    assert d[j - (i + 1)] == '.';
  }

  /** The checks run in the order name, e-mail, phone, amount, reference; a form that passes them
      all is sent exactly as typed, with the parsed amount and the campus 'town-a'. */
  lemma {:induction false} ValidationOrder(f: Form)
    ensures Validate(f) == Err(NameCheck) <==> forall i :: 0 <= i < |f.studentName| ==> IsJsSpace(f.studentName[i])
    ensures Validate(f) == Err(EmailCheck) <==> NameGiven(f.studentName) && !MatchesEmailPattern(f.personalEmail)
    ensures Validate(f) == Err(PhoneCheck) <==>
      NameGiven(f.studentName) && MatchesEmailPattern(f.personalEmail) && !PhoneValid(f.phoneNumber)
    ensures Validate(f) == Err(AmountCheck) <==>
      NameGiven(f.studentName) && MatchesEmailPattern(f.personalEmail) && PhoneValid(f.phoneNumber)
      && !AmountAccepted(f.amount)
    ensures Validate(f) == Err(ReferenceCheck) <==>
      NameGiven(f.studentName) && MatchesEmailPattern(f.personalEmail) && PhoneValid(f.phoneNumber)
      && AmountAccepted(f.amount) && !ReferenceGiven(f.paymentReference)
    ensures Validate(f).Ok? <==>
      NameGiven(f.studentName) && MatchesEmailPattern(f.personalEmail) && PhoneValid(f.phoneNumber)
      && AmountAccepted(f.amount) && ReferenceGiven(f.paymentReference)
    ensures Validate(f).Ok? ==>
      Validate(f).value == Request(f.studentName, f.personalEmail, f.phoneNumber, ParseFloat(f.amount), f.paymentReference, "town-a")
  {
    EmailValidMatchesPattern(f.personalEmail);
  }

  /** A phone number of spaces only is refused; one written in the Basic Multilingual Plane,
      as digits and '+' are, is accepted exactly when it has a non-space character and at least
      nine characters. */
  lemma {:induction false} PhoneRule(phone: string)
    ensures (forall i :: 0 <= i < |phone| ==> IsJsSpace(phone[i])) ==> !PhoneValid(phone)
    ensures (forall i :: 0 <= i < |phone| ==> phone[i] as int <= 0xFFFF) ==>
      (PhoneValid(phone) <==> (exists i :: 0 <= i < |phone| && !IsJsSpace(phone[i])) && |phone| >= 9)
  {
    if forall i :: 0 <= i < |phone| ==> phone[i] as int <= 0xFFFF {
      Utf16LengthOfBmp(phone);
    }
  }

  /** A whole number of francs is accepted exactly when it is at least 1000, whatever follows it
      that cannot continue the number: '1000' and '1500 FCFA' pass, '999' does not. */
  lemma {:induction false} WholeAmountRule(n: nat, rest: string)
    requires rest == [] || !(IsAsciiDigit(rest[0]) || rest[0] == '.' || rest[0] == 'e' || rest[0] == 'E')
    ensures AmountAccepted(NatToString(n) + rest) <==> n >= 1000
  {
    ParseWholeNumber(n, rest);
  }

  /** A decimal amount is compared with its fraction: '999.99' is refused, '1000.5' accepted. */
  lemma {:induction false} FractionAmountRule(n: nat, frac: string, rest: string)
    requires AllDigits(frac)
    requires rest == [] || !(IsAsciiDigit(rest[0]) || rest[0] == 'e' || rest[0] == 'E')
    ensures AmountAccepted(NatToString(n) + "." + frac + rest) <==> n >= 1000
  {
    ParseFraction(n, frac, rest);
    DigitsValueBelow(frac);
    BelowWithFraction(n, DigitsValue(frac), Pow10(|frac|), MinimumAmount);
  }

  /** `n + f/p < bound` for a proper fraction `f/p`, in whole numbers. */
  lemma BelowWithFraction(n: int, f: nat, p: nat, bound: int)
    requires f < p
    ensures n * p + f < bound * p <==> n < bound
  {
    if n < bound {
      MulMonotone(n + 1, bound, p);
    } else {
      MulMonotone(bound, n, p);
    }
  }

  lemma MulMonotone(a: int, b: int, p: nat)
    requires a <= b
    ensures a * p <= b * p
  {
  }

  /** An amount that holds no number at all, such as 'abc', parses to NaN and passes the check,
      because `NaN < 1000` is false. */
  lemma {:induction false} NonNumericAmountAccepted(amount: string)
    requires amount != []
    requires !IsJsSpace(amount[0]) && !IsAsciiDigit(amount[0]) && amount[0] !in "+-.I"
    ensures ParseFloat(amount) == NaN && AmountAccepted(amount)
  {
    NoLiteralIsNaN(amount);
  }

  /** A negative amount is refused, however large. */
  lemma {:induction false} NegativeAmountRefused(n: nat)
    requires n > 0
    ensures !AmountAccepted("-" + NatToString(n))
  {
    MinusNegates(NatToString(n));
    UnsignedWholeNumber(n);
  }
}
