/**
 * The complaint form in the mobile app: a category, a subject and a description are checked in
 * that order, the priority is derived from the category and from keywords in the description,
 * and a submitted form is cleared.
 */
module ComplaintScreen {
  import opened Wrappers
  import opened Text

  const SelectCategory: string := "Please select a category"
  const EnterSubject: string := "Please enter a subject"
  const DescribeInDetail: string := "Please provide a detailed description (min 20 characters)"
  const SubmittedTitle: string := "Complaint Submitted"

  const MinimumDescriptionLength: nat := 20

  /** The words that make a complaint urgent wherever they occur in its description. */
  const UrgentKeywords: seq<string> := ["urgent", "emergency", "immediate", "critical", "harassment"]

  datatype Priority = Medium | High | Urgent

  function PriorityName(p: Priority): string {
    match p
    case Medium => "MEDIUM"
    case High => "HIGH"
    case Urgent => "URGENT"
  }

  datatype Alert = Alert(title: string, message: string)

  /** The checks of the form, in the order they run. */
  datatype Check = CategoryCheck | SubjectCheck | DescriptionCheck

  function Message(c: Check): string {
    match c
    case CategoryCheck => SelectCategory
    case SubjectCheck => EnterSubject
    case DescriptionCheck => DescribeInDetail
  }

  /** `s.trim()` is not empty: some character is not white space. */
  predicate NotBlank(s: string) {
    exists i :: 0 <= i < |s| && !IsJsSpace(s[i])
  }

  /** The first failing check of `handleSubmit`, if any: no category chosen, a blank subject, or
      a description that is blank or shorter than 20 UTF-16 units. */
  function FirstFailure(category: string, subject: string, description: string): Option<Check> {
    if category == [] then Some(CategoryCheck)
    else if !NotBlank(subject) then Some(SubjectCheck)
    else if !NotBlank(description) || Utf16Length(description) < MinimumDescriptionLength then Some(DescriptionCheck)
    else None
  }

  /** `urgentKeywords.some(k => descLower.includes(k))`. */
  predicate MentionsUrgency(description: string) {
    exists k :: 0 <= k < |UrgentKeywords| && Includes(ToLower(description), UrgentKeywords[k])
  }

  /** Harassment and urgent wording first, then payment and academic complaints, else medium. */
  function PriorityOf(category: string, description: string): Priority {
    if category == "HARASSMENT" || MentionsUrgency(description) then Urgent
    else if category == "PAYMENT" || category == "ACADEMIC" then High
    else Medium
  }

  function SubmittedMessage(p: Priority): string {
    "Your complaint has been submitted with " + PriorityName(p) + " priority. You will receive updates via email."
  }

  class ComplaintForm {
    var category: string
    var subject: string
    var description: string
    /** Every alert shown, oldest first. */
    var alerts: seq<Alert>

    constructor ()
      ensures category == "" && subject == "" && description == "" && alerts == []
    {
      category, subject, description := "", "", "";
      alerts := [];
    }

    /** `handleSubmit`: a failing check shows its alert and keeps the form; a passing form shows
        the submission alert with its priority and is cleared. */
    method HandleSubmit()
      modifies this
      ensures FirstFailure(old(category), old(subject), old(description)).Some? ==>
        && alerts == old(alerts) + [Alert("Error", Message(FirstFailure(old(category), old(subject), old(description)).value))]
        && category == old(category) && subject == old(subject) && description == old(description)
      ensures FirstFailure(old(category), old(subject), old(description)).None? ==>
        && alerts == old(alerts) + [Alert(SubmittedTitle, SubmittedMessage(PriorityOf(old(category), old(description))))]
        && category == "" && subject == "" && description == ""
    {
      var c, s, d := category, subject, description;
      var failure := FirstFailure(c, s, d);
      if failure.Some? {
        alerts := alerts + [Alert("Error", Message(failure.value))];
        return;
      }
      var priority := PriorityOf(c, d);
      alerts := alerts + [Alert(SubmittedTitle, SubmittedMessage(priority))];
      category, subject, description := "", "", "";
    }
  }

  // ---------------------------------------------------------------------------------------------
  // Properties

  /** The checks run in the order category, subject, description, and the first failure wins. */
  lemma {:induction false} ValidationOrder(category: string, subject: string, description: string)
    ensures FirstFailure(category, subject, description) == Some(CategoryCheck) <==> category == ""
    ensures FirstFailure(category, subject, description) == Some(SubjectCheck) <==>
      category != "" && Trim(subject) == ""
    ensures FirstFailure(category, subject, description) == Some(DescriptionCheck) <==>
      category != "" && Trim(subject) != "" && (Trim(description) == "" || Utf16Length(description) < 20)
    ensures FirstFailure(category, subject, description) == None <==>
      category != "" && Trim(subject) != "" && Trim(description) != "" && Utf16Length(description) >= 20
  {
    TrimEmptyIffBlank(subject);
    TrimEmptyIffBlank(description);
  }

  /** A description of fewer than 20 characters never passes, whatever the other fields. */
  lemma {:induction false} ShortDescriptionRefused(category: string, subject: string, description: string)
    requires category != "" && NotBlank(subject)
    requires |description| < 10 || ((forall i :: 0 <= i < |description| ==> description[i] as int <= 0xFFFF) && |description| < 20)
    ensures FirstFailure(category, subject, description) == Some(DescriptionCheck)
  {
    if forall i :: 0 <= i < |description| ==> description[i] as int <= 0xFFFF {
      Utf16LengthOfBmp(description);
    }
  }

  /** The priority: URGENT for harassment or urgent wording, else HIGH for payment and academic
      complaints, else MEDIUM. */
  lemma {:induction false} PriorityRule(category: string, description: string)
    ensures PriorityOf(category, description) == Urgent <==>
      category == "HARASSMENT" || exists k :: k in UrgentKeywords && Includes(ToLower(description), k)
    ensures PriorityOf(category, description) == High <==>
      && !(exists k :: k in UrgentKeywords && Includes(ToLower(description), k))
      && (category == "PAYMENT" || category == "ACADEMIC")
    ensures PriorityOf(category, description) == Medium <==>
      && !(exists k :: k in UrgentKeywords && Includes(ToLower(description), k))
      && category !in ["HARASSMENT", "PAYMENT", "ACADEMIC"]
  {
    if exists k :: k in UrgentKeywords && Includes(ToLower(description), k) {
      var k :| k in UrgentKeywords && Includes(ToLower(description), k);
      var i :| 0 <= i < |UrgentKeywords| && UrgentKeywords[i] == k;
    }
  }

  /** A keyword anywhere in the description, in any letter case, makes the complaint urgent
      whatever its category: 'criticality' in a payment complaint is urgent. */
  lemma {:induction false} KeywordAnywhereIsUrgent(category: string, before: string, word: string, after: string)
    requires ToLower(word) in UrgentKeywords
    ensures PriorityOf(category, before + word + after) == Urgent
  {
    ToLowerConcat(before + word, after);
    ToLowerConcat(before, word);
    IncludesMiddle(ToLower(before), ToLower(word), ToLower(after));
    var k :| 0 <= k < |UrgentKeywords| && UrgentKeywords[k] == ToLower(word);
  }

  /** The keywords are written in lower case, so a keyword typed in lower case is found. */
  lemma {:induction false} LowerKeywordIsUrgent(category: string, before: string, k: nat, after: string)
    requires k < |UrgentKeywords|
    ensures PriorityOf(category, before + UrgentKeywords[k] + after) == Urgent
  {
    var w := UrgentKeywords[k];
    assert forall i :: 0 <= i < |w| ==> IsAsciiLower(w[i]);
    ToLowerOfLower(w);
    KeywordAnywhereIsUrgent(category, before, w, after);
  }
}
