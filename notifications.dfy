/**
 * The notification service: the credentials e-mail, SMS and WhatsApp message built from one set
 * of parameters, and the complaint-update and profile-change e-mails. Each channel is a mock
 * sender that records what it was given and reports success.
 */
module Notifications {
  import opened Wrappers
  import opened Text

  datatype Channel = Email | Sms | WhatsApp

  /** A message a sender is handed, as the template it was built from and the values filled into
      it; `Subject` and `Message` give its text. */
  datatype Template =
    | CredentialsEmail(p: CredentialsParams)
    | CredentialsSms(p: CredentialsParams)
    | CredentialsWhatsApp(p: CredentialsParams)
    | ComplaintUpdate(complaintSubject: string, status: string, response: Option<string>)
    | ProfileChange(requestType: string, decision: Decision, reason: Option<string>)

  /** One call of a mock sender: the channel, the recipient and the message. */
  datatype Delivery = Delivery(channel: Channel, to: string, template: Template)

  /** The per-channel outcome `sendCredentials` returns. */
  datatype DeliveryFlags = DeliveryFlags(emailSent: bool, smsSent: bool, whatsappSent: bool)

  datatype CredentialsParams = CredentialsParams(
    fullName: string,
    institutionalEmail: string,
    personalEmail: string,
    phone: string,
    temporaryPassword: string)

  datatype Decision = Approved | Rejected

  /** The subject line of an e-mail; SMS and WhatsApp messages have none. */
  function Subject(t: Template): Option<string> {
    match t
    case CredentialsEmail(_) => Some(WelcomeSubject)
    case CredentialsSms(_) => None
    case CredentialsWhatsApp(_) => None
    case ComplaintUpdate(subject, _, _) => Some("Complaint Update: " + subject)
    case ProfileChange(_, d, _) => Some("Profile Change Request " + DecisionText(d))
  }

  /** The body of a message. */
  function Message(t: Template): string {
    match t
    case CredentialsEmail(p) => CredentialsEmailMessage(p)
    case CredentialsSms(p) => CredentialsSmsMessage(p)
    case CredentialsWhatsApp(p) => CredentialsWhatsAppMessage(p)
    case ComplaintUpdate(_, status, response) => ComplaintUpdateMessage(status, response)
    case ProfileChange(requestType, d, reason) => ProfileChangeMessage(requestType, d, reason)
  }

  /** Everything the mock channels have been handed, in order, and the warnings logged. */
  class Outbox {
    var sent: seq<Delivery>
    var warnings: seq<string>

    constructor ()
      ensures sent == [] && warnings == []
    {
      sent, warnings := [], [];
    }

    /** The mock e-mail sender: records the message and reports success. */
    method SendEmail(to: string, t: Template) returns (ok: bool)
      modifies this
      ensures ok
      ensures sent == old(sent) + [Delivery(Email, to, t)] && warnings == old(warnings)
    {
      sent := sent + [Delivery(Email, to, t)];
      ok := true;
    }

    method SendSms(to: string, t: Template) returns (ok: bool)
      modifies this
      ensures ok
      ensures sent == old(sent) + [Delivery(Sms, to, t)] && warnings == old(warnings)
    {
      sent := sent + [Delivery(Sms, to, t)];
      ok := true;
    }

    method SendWhatsApp(to: string, t: Template) returns (ok: bool)
      modifies this
      ensures ok
      ensures sent == old(sent) + [Delivery(WhatsApp, to, t)] && warnings == old(warnings)
    {
      sent := sent + [Delivery(WhatsApp, to, t)];
      ok := true;
    }

    method Warn(text: string)
      modifies this
      ensures sent == old(sent) && warnings == old(warnings) + [text]
    {
      warnings := warnings + [text];
    }
  }

  // ---------------------------------------------------------------------------------------------
  // Credentials

  /** The words of the change-password instruction every credentials message carries. */
  const FirstLogin: string := "first login"

  const WelcomeSubject: string := "\U{1F393} Welcome to U-OS - Your Login Credentials"

  // The fixed text between the parameters of each credentials template.
  const EmailOpening: string := "\nDear "
  const EmailGreeting: string := ",\n\nWelcome to the University Operating System (U-OS)!\n\nYour account has been successfully created. Here are your login credentials:\n\n\U{1F4E7} School Email: "
  const EmailPasswordLabel: string := "\n\U{1F511} Temporary Password: "
  const EmailInstruction: string := "\n\nIMPORTANT: For security reasons, please change your password upon "
  const EmailClosing: string := ".\n\nLogin here: https://u-os.university.edu/login\n\nIf you have any questions, contact your campus administrator.\n\nBest regards,\nU-OS Admin Team\n      "

  const SmsOpening: string := "U-OS: Your login is ready! Email: "
  const SmsPasswordLabel: string := " | Password: "
  const SmsInstruction: string := " | Change password on "
  const SmsClosing: string := "."

  const WhatsAppOpening: string := "\n\U{1F393} *Welcome to U-OS!*\n\nYour account is ready:\n\U{1F4E7} Email: "
  const WhatsAppPasswordLabel: string := "\n\U{1F511} Password: "
  const WhatsAppInstruction: string := "\n\n\U{26A0}\U{FE0F} Change your password on "
  const WhatsAppClosing: string := " for security.\n\nLogin: https://u-os.university.edu/login\n      "

  function CredentialsEmailMessage(p: CredentialsParams): string {
    EmailOpening + p.fullName + EmailGreeting + p.institutionalEmail + EmailPasswordLabel
    + p.temporaryPassword + EmailInstruction + FirstLogin + EmailClosing
  }

  function CredentialsSmsMessage(p: CredentialsParams): string {
    SmsOpening + p.institutionalEmail + SmsPasswordLabel + p.temporaryPassword + SmsInstruction
    + FirstLogin + SmsClosing
  }

  function CredentialsWhatsAppMessage(p: CredentialsParams): string {
    WhatsAppOpening + p.institutionalEmail + WhatsAppPasswordLabel + p.temporaryPassword
    + WhatsAppInstruction + FirstLogin + WhatsAppClosing
  }

  /** The three sends of `sendCredentials`, in the order they are attempted. */
  function CredentialsDeliveries(p: CredentialsParams): seq<Delivery> {
    [ Delivery(Email, p.personalEmail, CredentialsEmail(p)),
      Delivery(Sms, p.phone, CredentialsSms(p)),
      Delivery(WhatsApp, p.phone, CredentialsWhatsApp(p)) ]
  }

  /** The credentials go by e-mail to the personal address, with the welcome subject, then by SMS
      and WhatsApp to the phone, without one; each of the three messages gives the school e-mail,
      the temporary password and the instruction to change it at first login. */
  lemma {:induction false} CredentialsMessagesCarryLogin(p: CredentialsParams)
    ensures var d := CredentialsDeliveries(p);
      && |d| == 3 && d[0].channel == Email && d[1].channel == Sms && d[2].channel == WhatsApp
      && d[0].to == p.personalEmail && Subject(d[0].template) == Some(WelcomeSubject)
      && d[1].to == p.phone && d[2].to == p.phone
      && Subject(d[1].template).None? && Subject(d[2].template).None?
      && CarriesLogin(Message(d[0].template), p) && CarriesLogin(Message(d[1].template), p)
      && CarriesLogin(Message(d[2].template), p)
  {
    CredentialsTextsCarryLogin(p);
  }

  lemma {:induction false} CredentialsTextsCarryLogin(p: CredentialsParams)
    ensures CarriesLogin(CredentialsEmailMessage(p), p)
    ensures CarriesLogin(CredentialsSmsMessage(p), p)
    ensures CarriesLogin(CredentialsWhatsAppMessage(p), p)
  {
    var e, pw := p.institutionalEmail, p.temporaryPassword;
    Contains3(EmailOpening + p.fullName + EmailGreeting, e, EmailPasswordLabel, pw, EmailInstruction, FirstLogin, EmailClosing);
    Contains3(SmsOpening, e, SmsPasswordLabel, pw, SmsInstruction, FirstLogin, SmsClosing);
    Contains3(WhatsAppOpening, e, WhatsAppPasswordLabel, pw, WhatsAppInstruction, FirstLogin, WhatsAppClosing);
  }

  /** The message gives the school e-mail, the temporary password and the first-login
      instruction. */
  predicate CarriesLogin(message: string, p: CredentialsParams) {
    && Includes(message, p.institutionalEmail)
    && Includes(message, p.temporaryPassword)
    && Includes(message, FirstLogin)
  }

  /** A template `a e b p c f d` contains each of `e`, `p` and `f`. */
  lemma {:induction false} Contains3(a: string, e: string, b: string, p: string, c: string, f: string, d: string)
    ensures var m := a + e + b + p + c + f + d;
      Includes(m, e) && Includes(m, p) && Includes(m, f)
  {
    var m := a + e + b + p + c + f + d;
    assert m == a + e + (b + p + c + f + d);
    assert m == (a + e + b) + p + (c + f + d);
    IncludesMiddle(a, e, b + p + c + f + d);
    IncludesMiddle(a + e + b, p, c + f + d);
    IncludesMiddle(a + e + b + p + c, f, d);
  }

  /** `sendCredentials`: attempts e-mail, SMS and WhatsApp in that order, with no check on the
      phone, and reports each channel's outcome. */
  method SendCredentials(outbox: Outbox, p: CredentialsParams) returns (flags: DeliveryFlags)
    modifies outbox
    ensures outbox.sent == old(outbox.sent) + CredentialsDeliveries(p)
    ensures outbox.warnings == old(outbox.warnings)
    ensures flags == DeliveryFlags(true, true, true)
  {
    var d := CredentialsDeliveries(p);
    var emailSent := outbox.SendEmail(p.personalEmail, CredentialsEmail(p));
    var smsSent := outbox.SendSms(p.phone, CredentialsSms(p));
    var whatsappSent := outbox.SendWhatsApp(p.phone, CredentialsWhatsApp(p));
    flags := DeliveryFlags(emailSent, smsSent, whatsappSent);
    assert outbox.sent == old(outbox.sent) + [d[0]] + [d[1]] + [d[2]];
  }

  // ---------------------------------------------------------------------------------------------
  // Complaint updates

  /** The JavaScript truthiness of an optional string: present and non-empty. */
  predicate Given(s: Option<string>) { s.Some? && s.value != "" }

  function ComplaintStatusBlock(status: string): string {
    "\nYour complaint has been updated.\n\nStatus: " + status + "\n"
  }

  const ComplaintFooter: string := "\n\nYou can track your complaint in the U-OS mobile app.\n      "

  function ResponseBlock(response: Option<string>): string {
    if Given(response) then "\nResponse:\n" + response.value else ""
  }

  function ComplaintUpdateMessage(status: string, response: Option<string>): string {
    ComplaintStatusBlock(status) + ResponseBlock(response) + ComplaintFooter
  }

  /** A given response adds exactly a Response block to the otherwise fixed message; an absent
      or empty one adds nothing. */
  lemma {:induction false} ComplaintResponseBlock(status: string, response: Option<string>)
    ensures var plain := ComplaintUpdateMessage(status, None);
      var m := ComplaintUpdateMessage(status, response);
      var k := |ComplaintStatusBlock(status)|;
      && k <= |plain|
      && (Given(response) ==> m == plain[..k] + "\nResponse:\n" + response.value + plain[k..])
      && (!Given(response) ==> m == plain)
      && (Given(response) ==> Includes(m, response.value))
  {
    BlockInserted(ComplaintStatusBlock(status), "\nResponse:\n", if Given(response) then response.value else "", ComplaintFooter);
  }

  /** Inserting `x + y` between the two parts of `a + b`. */
  lemma {:induction false} BlockInserted(a: string, x: string, y: string, b: string)
    ensures var plain := a + "" + b;
      && |a| <= |plain|
      && a + (x + y) + b == plain[..|a|] + x + y + plain[|a|..]
      && Includes(a + (x + y) + b, y)
  {
    var plain := a + "" + b;
    assert plain == a + b;
    assert plain[..|a|] == a && plain[|a|..] == b;
    assert a + (x + y) + b == a + x + y + b;
    IncludesMiddle(a + x, y, b);
  }

  /** `sendComplaintUpdate`: one e-mail to the complainant. */
  method SendComplaintUpdate(outbox: Outbox, userEmail: string, complaintSubject: string, status: string, response: Option<string>)
    modifies outbox
    ensures outbox.sent == old(outbox.sent) + [Delivery(Email, userEmail, ComplaintUpdate(complaintSubject, status, response))]
    ensures outbox.warnings == old(outbox.warnings)
  {
    var _ := outbox.SendEmail(userEmail, ComplaintUpdate(complaintSubject, status, response));
  }

  // ---------------------------------------------------------------------------------------------
  // Profile-change decisions

  function DecisionText(d: Decision): string {
    match d
    case Approved => "APPROVED"
    case Rejected => "REJECTED"
  }

  function ReasonBlock(reason: Option<string>): string {
    if Given(reason) then "Reason: " + reason.value else ""
  }

  function ProfileDecisionHead(requestType: string, d: Decision): string {
    "\nYour " + requestType + " change request has been " + ToLower(DecisionText(d)) + ".\n\n"
  }

  const ProfileFooter: string := "\n\nLogin to U-OS to view details.\n      "

  function ProfileChangeMessage(requestType: string, d: Decision, reason: Option<string>): string {
    ProfileDecisionHead(requestType, d) + ReasonBlock(reason) + ProfileFooter
  }

  /** The decision is written in lower case. */
  lemma {:induction false} DecisionLowered(d: Decision)
    ensures ToLower(DecisionText(d)) == if d == Approved then "approved" else "rejected"
  {
    var up := DecisionText(d);
    var low: string := if d == Approved then "approved" else "rejected";
    assert |up| == 8 && |low| == 8;
    assert forall i :: 0 <= i < 8 ==> 'A' <= up[i] <= 'Z' && low[i] as int == up[i] as int + 32;
    UpperLowers(up);
    assert ToLower(up) == low;
  }

  /** A string of ASCII capitals lowers to the same string shifted by 32. */
  lemma {:induction false} UpperLowers(s: string)
    requires forall i :: 0 <= i < |s| ==> 'A' <= s[i] <= 'Z'
    ensures |ToLower(s)| == |s| && forall i :: 0 <= i < |s| ==> ToLower(s)[i] as int == s[i] as int + 32
  {
    if s != [] {
      UpperLowers(s[1..]);
    }
  }

  /** The body gives the decision in lower case (the subject has it in capitals). */
  lemma {:induction false} ProfileDecisionInBody(requestType: string, d: Decision, reason: Option<string>)
    ensures Includes(ProfileChangeMessage(requestType, d, reason), if d == Approved then "approved" else "rejected")
  {
    DecisionLowered(d);
    IncludesAmid("\nYour " + requestType + " change request has been ", if d == Approved then "approved" else "rejected",
                 ".\n\n", ReasonBlock(reason), ProfileFooter);
  }

  lemma {:induction false} IncludesAmid(a: string, t: string, b: string, c: string, d: string)
    ensures Includes(a + t + b + c + d, t)
  {
    assert a + t + b + c + d == a + t + (b + c + d);
    IncludesMiddle(a, t, b + c + d);
  }

  /** A reason is shown, after the decision, exactly when one is given. */
  lemma {:induction false} ProfileReasonBlock(requestType: string, d: Decision, reason: Option<string>)
    ensures var m := ProfileChangeMessage(requestType, d, reason);
      var plain := ProfileChangeMessage(requestType, d, None);
      var k := |ProfileDecisionHead(requestType, d)|;
      && k <= |plain|
      && (Given(reason) ==> m == plain[..k] + "Reason: " + reason.value + plain[k..])
      && (!Given(reason) ==> m == plain)
  {
    BlockInserted(ProfileDecisionHead(requestType, d), "Reason: ", if Given(reason) then reason.value else "", ProfileFooter);
  }

  /** `sendProfileChangeNotification`: one e-mail to the requester. */
  method SendProfileChangeNotification(outbox: Outbox, userEmail: string, requestType: string, d: Decision, reason: Option<string>)
    modifies outbox
    ensures outbox.sent == old(outbox.sent) + [Delivery(Email, userEmail, ProfileChange(requestType, d, reason))]
    ensures outbox.warnings == old(outbox.warnings)
  {
    var _ := outbox.SendEmail(userEmail, ProfileChange(requestType, d, reason));
  }
}
