/** `validateField` (index.tsx lines 38-168) as a pure decision: from the
    field's id, its raw value, its `required` attribute and its `checked`
    flag to `None` (valid) or `Some(message)` (invalid, with the message the
    page shows). The display side effects are in module ErrorDisplay. */
module FieldValidator {
  import opened Wrappers
  import opened Text
  import opened Patterns

  /** The branch of the switch an id falls into. */
  datatype Rule =
    | NameRule
    | OrganizationRule(fieldName: string)
    | EmailRule
    | PhoneRule
    | TitleRule(fieldName: string)
    | WebsiteRule
    | TextAreaRule
    | SelectRule
    | BirthDateRule
    | ConsentRule
    | NoRule

  const NAME_IDS: set<string> :=
    {"form-name", "form-booth-name", "form-student-name", "form-sponsor-name", "form-speaker-name"}
  const ORGANIZATION_IDS: set<string> :=
    {"form-organization", "form-booth-company", "form-student-school", "form-sponsor-company",
     "form-speaker-job-org"}
  const EMAIL_IDS: set<string> :=
    {"form-email", "form-booth-email", "form-student-email", "form-sponsor-email", "form-speaker-email"}
  const PHONE_IDS: set<string> :=
    {"form-phone", "form-student-phone", "form-booth-phone", "form-sponsor-phone", "form-speaker-phone"}
  const TITLE_IDS: set<string> := {"form-booth-title", "form-sponsor-title"}
  const WEBSITE_IDS: set<string> := {"form-booth-website", "form-sponsor-website", "form-speaker-linkedin"}
  const TEXTAREA_IDS: set<string> := {"form-sponsor-message", "form-speaker-why", "form-speaker-bio"}
  const SELECT_IDS: set<string> :=
    {"form-interest", "form-booth-package", "form-booth-source", "form-student-nationality",
     "form-student-grade", "form-student-source", "form-booth-country", "form-booth-company-field",
     "form-sponsor-country", "form-sponsor-company-field", "form-speaker-country"}
  const BIRTH_DATE_ID := "form-student-dob"
  const CONSENT_IDS: set<string> := {"form-booth-consent", "form-student-consent", "form-sponsor-consent"}

  function RuleOf(id: string): Rule {
    if id in NAME_IDS then NameRule
    else if id in ORGANIZATION_IDS then
      OrganizationRule(
        if id == "form-booth-company" || id == "form-sponsor-company" then "Company"
        else if id == "form-student-school" then "School/Institution"
        else "Organization")
    else if id in EMAIL_IDS then EmailRule
    else if id in PHONE_IDS then PhoneRule
    else if id in TITLE_IDS then TitleRule(if id == "form-sponsor-title" then "Position" else "Job Title")
    else if id in WEBSITE_IDS then WebsiteRule
    else if id in TEXTAREA_IDS then TextAreaRule
    else if id in SELECT_IDS then SelectRule
    else if id == BIRTH_DATE_ID then BirthDateRule
    else if id in CONSENT_IDS then ConsentRule
    else NoRule
  }

  /** The decision `validateField` takes; `raw` is the element's value before
      trimming. `None` means valid. */
  function Decide(id: string, raw: string, required: bool, checked: bool): Option<string>
  {
    DecideRule(RuleOf(id), raw, required, checked)
  }

  /** The decision of one branch of the switch. */
  function DecideRule(rule: Rule, raw: string, required: bool, checked: bool): Option<string>
  {
    var value := Trim(raw);
    match rule
    case NameRule => if value == "" then Some("Name is required.") else None
    case OrganizationRule(fieldName) => if value == "" then Some(fieldName + " is required.") else None
    case EmailRule =>
      if value == "" then Some("Email is required.")
      else if !IsEmail(value) then Some("Please enter a valid email address.")
      else None
    case PhoneRule =>
      if required && value == "" then Some("Mobile number is required.")
      else if value != "" && !IsPhone(value) then Some("Please enter a valid phone number.")
      else None
    case TitleRule(fieldName) => if value == "" then Some(fieldName + " is required.") else None
    case WebsiteRule =>
      if required && value == "" then Some("Website is required.")
      else if value != "" && !IsUrl(value) then Some("Please enter a valid website URL.")
      else None
    case TextAreaRule => if value == "" then Some("This field is required.") else None
    case SelectRule => if raw == "" then Some("Please make a selection.") else None
    case BirthDateRule => if raw == "" then Some("Date of birth is required.") else None
    case ConsentRule => if !checked then Some("You must consent to continue.") else None
    case NoRule => None
  }

  /** The message of every id whose only rule is "must not be blank", as one
      flat table. */
  const REQUIRED_MESSAGE: map<string, string> := map[
    "form-name" := "Name is required.",
    "form-booth-name" := "Name is required.",
    "form-student-name" := "Name is required.",
    "form-sponsor-name" := "Name is required.",
    "form-speaker-name" := "Name is required.",
    "form-organization" := "Organization is required.",
    "form-booth-company" := "Company is required.",
    "form-student-school" := "School/Institution is required.",
    "form-sponsor-company" := "Company is required.",
    "form-speaker-job-org" := "Organization is required.",
    "form-booth-title" := "Job Title is required.",
    "form-sponsor-title" := "Position is required.",
    "form-sponsor-message" := "This field is required.",
    "form-speaker-why" := "This field is required.",
    "form-speaker-bio" := "This field is required."
  ]

  /** The message of a rule whose only check is "must not be blank". */
  function BlankMessage(rule: Rule): Option<string> {
    match rule
    case NameRule => Some("Name is required.")
    case OrganizationRule(fieldName) => Some(fieldName + " is required.")
    case TitleRule(fieldName) => Some(fieldName + " is required.")
    case TextAreaRule => Some("This field is required.")
    case _ => None
  }

  lemma NameMessages(id: string)
    requires id in NAME_IDS
    ensures id in REQUIRED_MESSAGE && BlankMessage(RuleOf(id)) == Some(REQUIRED_MESSAGE[id])
  {
    if id == "form-name" {
      assert BlankMessage(RuleOf("form-name")) == Some("Name is required.");
    } else if id == "form-booth-name" {
      assert BlankMessage(RuleOf("form-booth-name")) == Some("Name is required.");
    } else if id == "form-student-name" {
      assert BlankMessage(RuleOf("form-student-name")) == Some("Name is required.");
    } else if id == "form-sponsor-name" {
      assert BlankMessage(RuleOf("form-sponsor-name")) == Some("Name is required.");
    } else if id == "form-speaker-name" {
      assert BlankMessage(RuleOf("form-speaker-name")) == Some("Name is required.");
    }
  }

  lemma OrganizationMessages(id: string)
    requires id in ORGANIZATION_IDS
    ensures id in REQUIRED_MESSAGE && BlankMessage(RuleOf(id)) == Some(REQUIRED_MESSAGE[id])
  {
    OrganizationIds(id);
    if id == "form-booth-company" || id == "form-sponsor-company" {
      CompanyMessages(id);
    } else if id == "form-student-school" {
      assert REQUIRED_MESSAGE[id] == "School/Institution is required.";
      assert "School/Institution" + " is required." == "School/Institution is required.";
    } else {
      OrganizationMessageText(id);
    }
  }

  lemma OrganizationIds(id: string)
    requires id in ORGANIZATION_IDS
    ensures RuleOf(id) == OrganizationRule(
      if id == "form-booth-company" || id == "form-sponsor-company" then "Company"
      else if id == "form-student-school" then "School/Institution"
      else "Organization")
  {
  }

  lemma CompanyMessages(id: string)
    requires id == "form-booth-company" || id == "form-sponsor-company"
    ensures id in REQUIRED_MESSAGE && REQUIRED_MESSAGE[id] == "Company" + " is required."
  {
    assert "Company" + " is required." == "Company is required.";
  }

  lemma OrganizationMessageText(id: string)
    requires id == "form-organization" || id == "form-speaker-job-org"
    ensures id in REQUIRED_MESSAGE && REQUIRED_MESSAGE[id] == "Organization" + " is required."
  {
    assert "Organization" + " is required." == "Organization is required.";
  }

  lemma TitleMessages(id: string)
    requires id in TITLE_IDS
    ensures id in REQUIRED_MESSAGE && BlankMessage(RuleOf(id)) == Some(REQUIRED_MESSAGE[id])
  {
    TitleIds(id);
    if id == "form-booth-title" {
      JobTitleMessage();
    } else {
      PositionMessage();
    }
  }

  lemma JobTitleMessage()
    ensures "form-booth-title" in REQUIRED_MESSAGE
    ensures REQUIRED_MESSAGE["form-booth-title"] == "Job Title" + " is required."
  {
    assert "Job Title" + " is required." == "Job Title is required.";
  }

  lemma PositionMessage()
    ensures "form-sponsor-title" in REQUIRED_MESSAGE
    ensures REQUIRED_MESSAGE["form-sponsor-title"] == "Position" + " is required."
  {
    assert "Position" + " is required." == "Position is required.";
  }

  lemma TitleIds(id: string)
    requires id in TITLE_IDS
    ensures RuleOf(id) == TitleRule(if id == "form-sponsor-title" then "Position" else "Job Title")
  {
  }

  lemma TextAreaMessages(id: string)
    requires id in TEXTAREA_IDS
    ensures id in REQUIRED_MESSAGE && BlankMessage(RuleOf(id)) == Some(REQUIRED_MESSAGE[id])
  {
    if id == "form-sponsor-message" {
      assert BlankMessage(RuleOf("form-sponsor-message")) == Some("This field is required.");
    } else if id == "form-speaker-why" {
      assert BlankMessage(RuleOf("form-speaker-why")) == Some("This field is required.");
    } else if id == "form-speaker-bio" {
      assert BlankMessage(RuleOf("form-speaker-bio")) == Some("This field is required.");
    }
  }

  /** The table lists exactly the ids of the four blank-only groups. */
  lemma RequiredMessageKeys()
    ensures REQUIRED_MESSAGE.Keys == NAME_IDS + ORGANIZATION_IDS + TITLE_IDS + TEXTAREA_IDS
  {
  }

  lemma RequiredMessageOf(id: string)
    requires id in REQUIRED_MESSAGE
    ensures BlankMessage(RuleOf(id)) == Some(REQUIRED_MESSAGE[id])
  {
    RequiredMessageKeys();
    if id in NAME_IDS {
      NameMessages(id);
    } else if id in ORGANIZATION_IDS {
      OrganizationMessages(id);
    } else if id in TITLE_IDS {
      TitleMessages(id);
    } else {
      TextAreaMessages(id);
    }
  }

  /** A rule with a blank-only check decides on blankness alone. */
  lemma BlankRuleDecision(rule: Rule, raw: string, required: bool, checked: bool)
    requires BlankMessage(rule).Some?
    ensures DecideRule(rule, raw, required, checked) ==
      (if AllSpace(raw) then BlankMessage(rule) else None)
  {
  }

  /** Name, organisation, title and text-area ids: invalid exactly when the
      value is blank (all whitespace), with the id's message from the table;
      `required` and `checked` play no part. */
  lemma BlankTextRule(id: string, raw: string, required: bool, checked: bool)
    requires id in REQUIRED_MESSAGE
    ensures Decide(id, raw, required, checked) ==
      (if AllSpace(raw) then Some(REQUIRED_MESSAGE[id]) else None)
  {
    RequiredMessageOf(id);
    BlankRuleDecision(RuleOf(id), raw, required, checked);
  }

  lemma SelectIds(id: string)
    requires id in SELECT_IDS
    ensures RuleOf(id) == SelectRule
  {
    if id in {"form-interest", "form-booth-package", "form-booth-source", "form-student-nationality",
              "form-student-grade"} {
      FirstSelectIds(id);
    } else {
      LaterSelectIds(id);
    }
  }

  lemma FirstSelectIds(id: string)
    requires id in {"form-interest", "form-booth-package", "form-booth-source", "form-student-nationality",
                    "form-student-grade"}
    ensures RuleOf(id) == SelectRule
  {
  }

  lemma LaterSelectIds(id: string)
    requires id in {"form-student-source", "form-booth-country", "form-booth-company-field",
                    "form-sponsor-country", "form-sponsor-company-field", "form-speaker-country"}
    ensures RuleOf(id) == SelectRule
  {
  }

  /** Select and date-of-birth ids look at the raw value: a blank but
      non-empty value is a selection. */
  lemma SelectFieldRule(id: string, raw: string, required: bool, checked: bool)
    requires id in SELECT_IDS || id == BIRTH_DATE_ID
    ensures Decide(id, raw, required, checked).Some? <==> raw == ""
    ensures raw == "" ==> (Decide(id, raw, required, checked) ==
      Some(if id == BIRTH_DATE_ID then "Date of birth is required." else "Please make a selection."))
  {
    if id in SELECT_IDS {
      SelectIds(id);
    } else {
      assert RuleOf(BIRTH_DATE_ID) == BirthDateRule;
    }
  }

  lemma ConsentIds(id: string)
    requires id in CONSENT_IDS
    ensures RuleOf(id) == ConsentRule
  {
  }

  lemma ConsentFieldRule(id: string, raw: string, required: bool, checked: bool)
    requires id in CONSENT_IDS
    ensures Decide(id, raw, required, checked) ==
      (if checked then None else Some("You must consent to continue."))
  {
    ConsentIds(id);
  }

  /** An id the switch does not list is always valid. */
  lemma UnlistedIdIsValid(id: string, raw: string, required: bool, checked: bool)
    requires id !in NAME_IDS + ORGANIZATION_IDS + EMAIL_IDS + PHONE_IDS + TITLE_IDS + WEBSITE_IDS
    requires id !in TEXTAREA_IDS + SELECT_IDS + CONSENT_IDS && id != BIRTH_DATE_ID
    ensures Decide(id, raw, required, checked) == None
  {
    assert RuleOf(id) == NoRule;
  }

  lemma EmailIds(id: string)
    requires id in EMAIL_IDS
    ensures RuleOf(id) == EmailRule
  {
  }

  /** Email ids: a blank value is "required" whether or not the field is
      marked required; otherwise valid exactly when the trimmed value has the
      shape L '@' D1 '.' D2 of the regular expression. */
  lemma EmailFieldRule(id: string, raw: string, required: bool, checked: bool)
    requires id in EMAIL_IDS
    ensures AllSpace(raw) ==> Decide(id, raw, required, checked) == Some("Email is required.")
    ensures !AllSpace(raw) ==> (Decide(id, raw, required, checked) ==
      (if EmailShape(Trim(raw)) then None else Some("Please enter a valid email address.")))
  {
    EmailIds(id);
    EmailIffShape(Trim(raw));
  }

  lemma PhoneIds(id: string)
    requires id in PHONE_IDS
    ensures RuleOf(id) == PhoneRule
  {
  }

  /** Phone ids: blank is valid unless required; a non-blank value is valid
      exactly when every character is a digit, whitespace, '(', ')', '+' or '-'. */
  lemma PhoneFieldRule(id: string, raw: string, required: bool, checked: bool)
    requires id in PHONE_IDS
    ensures AllSpace(raw) ==> (Decide(id, raw, required, checked) ==
      (if required then Some("Mobile number is required.") else None))
    ensures !AllSpace(raw) ==> (Decide(id, raw, required, checked) == None <==>
      forall i :: 0 <= i < |Trim(raw)| ==> IsPhoneChar(Trim(raw)[i]))
    ensures !AllSpace(raw) && Decide(id, raw, required, checked) != None ==>
      Decide(id, raw, required, checked) == Some("Please enter a valid phone number.")
  {
    PhoneIds(id);
  }

  lemma WebsiteIds(id: string)
    requires id in WEBSITE_IDS
    ensures RuleOf(id) == WebsiteRule
  {
  }

  /** Website ids: blank is valid unless required; a non-blank value is valid
      exactly when it matches the URL pattern. */
  lemma WebsiteFieldRule(id: string, raw: string, required: bool, checked: bool)
    requires id in WEBSITE_IDS
    ensures AllSpace(raw) ==> (Decide(id, raw, required, checked) ==
      (if required then Some("Website is required.") else None))
    ensures !AllSpace(raw) ==> (Decide(id, raw, required, checked) ==
      (if IsUrl(Trim(raw)) then None else Some("Please enter a valid website URL.")))
  {
    WebsiteIds(id);
  }
}
