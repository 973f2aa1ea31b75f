/**
 * The sign-up form of the mobile site: the age shown while the birth date is
 * typed, today's date as the date input's upper bound, and the submit handler,
 * which checks the form in a fixed order, posts the request, and updates the
 * form's state from the reply.
 */
module SignupForm {
  import opened Optional
  import opened JsText
  import opened JsCore
  import opened CivilDate
  import Signup

  const MinorAge := 14

  // ---------------------------------------------------------------- dates

  /** `getAgeFromBirthDate`: the same text check and calendar round trip as the
      server (in the local calendar), then the age on `today`, refused outside
      0..120. */
  function AgeFromBirthDate(raw: string, today: Civil): (r: Option<int>)
    ensures r.Some? <==> ParseDate(raw).Some? && 0 <= Age(ParseDate(raw).value, today) <= 120
    ensures r.Some? ==> r.value == Age(ParseDate(raw).value, today) && 0 <= r.value <= 120
  {
    match ParseDate(raw)
    case None => None
    case Some(birth) =>
      var age := Age(birth, today);
      if age < 0 || age > 120 then None else Some(age)
  }

  /** `` `${n}`.padStart(2, '0') ``. */
  function Pad2(n: nat): (r: string)
    ensures AllDigits(r) && |r| >= 2
  {
    var s := NatToString(n);
    if |s| < 2 then "0" + s else s
  }

  /** A number below 100 pads to exactly two digits that read back as it. */
  lemma Pad2Value(n: nat)
    requires n < 100
    ensures |Pad2(n)| == 2 && DecimalValue(Pad2(n)) == n
  {
    DecimalValueOfNatToString(n);
    var s := NatToString(n);
    if n < 10 {
      assert s == [DigitChar(n)];
      assert ("0" + s)[..1] == "0";
    } else {
      assert s == NatToString(n / 10) + [DigitChar(n % 10)];
      assert NatToString(n / 10) == [DigitChar(n / 10)];
    }
  }

  /** `getTodayDateInputValue`: year, then month and day padded to two digits. */
  function TodayInputValue(today: Civil): string
    requires Valid(today)
  {
    IntToString(today.year) + "-" + Pad2(today.month0 + 1) + "-" + Pad2(today.day)
  }

  /** A year of four digits is written with four digits. */
  lemma FourDigitYear(y: nat)
    requires 1000 <= y <= 9999
    ensures |NatToString(y)| == 4 && DecimalValue(NatToString(y)) == y
  {
    DecimalValueOfNatToString(y);
    assert NatToString(y) == NatToString(y / 10) + [DigitChar(y % 10)];
    assert NatToString(y / 10) == NatToString(y / 100) + [DigitChar(y / 10 % 10)];
    assert NatToString(y / 100) == NatToString(y / 1000) + [DigitChar(y / 100 % 10)];
  }

  /** Today's value, read back as a birth date, is today again, so a child born
      today is accepted with age 0. */
  lemma TodayInputRoundTrip(today: Civil)
    requires Valid(today) && 1000 <= today.year <= 9999
    ensures ParseDate(TodayInputValue(today)) == Some(today)
    ensures AgeFromBirthDate(TodayInputValue(today), today) == Some(0)
  {
    var y := NatToString(today.year);
    var m := Pad2(today.month0 + 1);
    var d := Pad2(today.day);
    FourDigitYear(today.year);
    Pad2Value(today.month0 + 1);
    Pad2Value(today.day);
    var s := TodayInputValue(today);
    assert s == y + "-" + m + "-" + d;
    assert s[..4] == y;
    assert s[5..7] == m;
    assert s[8..] == d;
    assert DateTextShape(s);
    assert Written(s) == today;
  }

  // ---------------------------------------------------------------- the form

  /** The form's fields as the inputs hold them. */
  datatype FormInput = FormInput(
    username: string, email: string, birthDate: string, password: string, confirmPassword: string,
    userRole: string, agreeTerms: bool, agreePrivacy: bool,
    guardianName: string, guardianContact: string, agreeLegalGuardian: bool)

  /** The initial form, and the one a successful sign-up resets to. */
  const EmptyForm := FormInput("", "", "", "", "", "student", false, false, "", "", false)

  /** The guardian section is shown, and demanded, for a valid age under 14. */
  predicate IsUnder14(form: FormInput, today: Civil) {
    var age := AgeFromBirthDate(form.birthDate, today);
    age.Some? && age.value < MinorAge
  }

  /** The checks of `handleSubmit`, in its order. */
  datatype FormCheck = NameGiven | BirthDateGiven | BirthDateValid | PasswordsMatch
    | GuardianInfoGiven | GuardianConsentGiven | TermsAgreed

  function Rank(c: FormCheck): nat {
    match c
    case NameGiven => 0
    case BirthDateGiven => 1
    case BirthDateValid => 2
    case PasswordsMatch => 3
    case GuardianInfoGiven => 4
    case GuardianConsentGiven => 5
    case TermsAgreed => 6
  }

  /** What each check demands of the form, on its own. */
  predicate Holds(c: FormCheck, form: FormInput, today: Civil) {
    match c
    case NameGiven => Trim(form.username) != ""
    case BirthDateGiven => form.birthDate != ""
    case BirthDateValid => AgeFromBirthDate(form.birthDate, today).Some?
    case PasswordsMatch => form.password == form.confirmPassword
    case GuardianInfoGiven =>
      IsUnder14(form, today) ==> Trim(form.guardianName) != "" && Trim(form.guardianContact) != ""
    case GuardianConsentGiven => IsUnder14(form, today) ==> form.agreeLegalGuardian
    case TermsAgreed => form.agreeTerms && form.agreePrivacy
  }

  /** The first check the form fails, if any. */
  function FirstFailure(form: FormInput, today: Civil): Option<FormCheck> {
    if Trim(form.username) == "" then Some(NameGiven)
    else if form.birthDate == "" then Some(BirthDateGiven)
    else if AgeFromBirthDate(form.birthDate, today).None? then Some(BirthDateValid)
    else if form.password != form.confirmPassword then Some(PasswordsMatch)
    else if IsUnder14(form, today) && (Trim(form.guardianName) == "" || Trim(form.guardianContact) == "") then
      Some(GuardianInfoGiven)
    else if IsUnder14(form, today) && !form.agreeLegalGuardian then Some(GuardianConsentGiven)
    else if !form.agreeTerms || !form.agreePrivacy then Some(TermsAgreed)
    else None
  }

  /** The message shown names the first failing check in the handler's order; the
      form is posted exactly when every check holds. */
  lemma FirstFailureOrder(form: FormInput, today: Civil)
    ensures var r := FirstFailure(form, today);
      r.Some? ==> !Holds(r.value, form, today) && forall c :: Rank(c) < Rank(r.value) ==> Holds(c, form, today)
    ensures FirstFailure(form, today).None? <==> forall c :: Holds(c, form, today)
  {
    var r := FirstFailure(form, today);
    if r.Some? {
      forall c | Rank(c) < Rank(r.value)
        ensures Holds(c, form, today)
      {
        match c
        case NameGiven =>
        case BirthDateGiven =>
        case BirthDateValid =>
        case PasswordsMatch =>
        case GuardianInfoGiven =>
        case GuardianConsentGiven =>
        case TermsAgreed =>
      }
      assert !Holds(r.value, form, today);
    } else {
      forall c
        ensures Holds(c, form, today)
      {
        match c
        case NameGiven =>
        case BirthDateGiven =>
        case BirthDateValid =>
        case PasswordsMatch =>
        case GuardianInfoGiven =>
        case GuardianConsentGiven =>
        case TermsAgreed =>
      }
    }
  }

  /** The JSON body the form posts. */
  datatype Request = Request(
    username: string, email: string, birthDate: string, password: string, userRole: string,
    agreeTerms: bool, agreePrivacy: bool,
    guardianName: string, guardianContact: string, agreeLegalGuardian: bool)

  /** The body: name trimmed, email trimmed and lower-cased, and the guardian fields
      only for a user under 14 (blank and `false` otherwise). */
  function RequestOf(form: FormInput, under14: bool): Request {
    Request(
      Trim(form.username), ToLower(Trim(form.email)), form.birthDate, form.password, form.userRole,
      form.agreeTerms, form.agreePrivacy,
      if under14 then Trim(form.guardianName) else "",
      if under14 then Trim(form.guardianContact) else "",
      if under14 then form.agreeLegalGuardian else false)
  }

  /** A posted body carries guardian details exactly for a user under 14: blank
      fields and no consent otherwise, and otherwise both fields filled in and the
      consent given. */
  lemma PostedGuardianFields(form: FormInput, today: Civil)
    requires FirstFailure(form, today).None?
    ensures var r := RequestOf(form, IsUnder14(form, today));
      (!IsUnder14(form, today) ==> r.guardianName == "" && r.guardianContact == "" && !r.agreeLegalGuardian)
      && (IsUnder14(form, today) ==> r.guardianName != "" && r.guardianContact != "" && r.agreeLegalGuardian)
  {
    var under := IsUnder14(form, today);
    assert Holds(GuardianInfoGiven, form, today) && Holds(GuardianConsentGiven, form, today) by {
      FirstFailureOrder(form, today);
    }
    GuardianFieldsOf(form, under);
  }

  lemma GuardianFieldsOf(form: FormInput, under14: bool)
    ensures var r := RequestOf(form, under14);
      (!under14 ==> r.guardianName == "" && r.guardianContact == "" && !r.agreeLegalGuardian)
      && (under14 ==>
            r.guardianName == Trim(form.guardianName) && r.guardianContact == Trim(form.guardianContact)
            && r.agreeLegalGuardian == form.agreeLegalGuardian)
  {
  }

  /** The body as `JSON.stringify` sends it, fields in the page's order. */
  function PayloadOf(r: Request): JsValue {
    Obj([("username", Str(r.username)), ("email", Str(r.email)), ("birthDate", Str(r.birthDate)),
         ("password", Str(r.password)), ("userRole", Str(r.userRole)),
         ("agreeTerms", Bool(r.agreeTerms)), ("agreePrivacy", Bool(r.agreePrivacy)),
         ("guardianName", Str(r.guardianName)), ("guardianContact", Str(r.guardianContact)),
         ("agreeLegalGuardian", Bool(r.agreeLegalGuardian))])
  }

  /** The server finds the first five fields of that body under their own names. */
  lemma PayloadFields(r: Request)
    ensures var v := PayloadOf(r);
      Get(v, "username") == Str(r.username) && Get(v, "email") == Str(r.email)
      && Get(v, "birthDate") == Str(r.birthDate) && Get(v, "password") == Str(r.password) && Get(v, "userRole") == Str(r.userRole)
  {
    var v := PayloadOf(r);
    assert Get(v, "username") == Str(r.username) by { LookupAt(v.fields, "username", 0); }
    assert Get(v, "email") == Str(r.email) by { LookupAt(v.fields, "email", 1); }
    assert Get(v, "birthDate") == Str(r.birthDate) by { LookupAt(v.fields, "birthDate", 2); }
    assert Get(v, "password") == Str(r.password) by { LookupAt(v.fields, "password", 3); }
    assert Get(v, "userRole") == Str(r.userRole) by { LookupAt(v.fields, "userRole", 4); }
  }

  /** The server finds the consents and the guardian details of that body under their own names. */
  lemma PayloadConsents(r: Request)
    ensures var v := PayloadOf(r);
      Get(v, "agreeTerms") == Bool(r.agreeTerms) && Get(v, "agreePrivacy") == Bool(r.agreePrivacy) && Get(v, "guardianName") == Str(r.guardianName) && Get(v, "guardianContact") == Str(r.guardianContact) && Get(v, "agreeLegalGuardian") == Bool(r.agreeLegalGuardian)
  {
    var v := PayloadOf(r);
    assert Get(v, "agreeTerms") == Bool(r.agreeTerms) by { LookupAt(v.fields, "agreeTerms", 5); }
    assert Get(v, "agreePrivacy") == Bool(r.agreePrivacy) by { LookupAt(v.fields, "agreePrivacy", 6); }
    assert Get(v, "guardianName") == Str(r.guardianName) by { LookupAt(v.fields, "guardianName", 7); }
    assert Get(v, "guardianContact") == Str(r.guardianContact) by { LookupAt(v.fields, "guardianContact", 8); }
    assert Get(v, "agreeLegalGuardian") == Bool(r.agreeLegalGuardian) by { LookupAt(v.fields, "agreeLegalGuardian", 9); }
  }

  /** A form the handler posts passes the server's consent, date, age and guardian
      checks for the same calendar day, and the server's normalisation leaves its
      name and email as the form sent them. */
  lemma PostedFormPassesServerChecks(form: FormInput, today: Civil)
    requires FirstFailure(form, today).None?
    ensures var req := RequestOf(form, IsUnder14(form, today));
      Signup.Normalize(PayloadOf(req)).Some? &&
      var f := Signup.Normalize(PayloadOf(req)).value;
      f.username == req.username && f.email == req.email
      && Signup.Holds(Signup.Consents, f, today)
      && Signup.Holds(Signup.BirthDateFormat, f, today)
      && Signup.Holds(Signup.AgeRange, f, today)
      && Signup.Holds(Signup.GuardianInfo, f, today)
      && Signup.Holds(Signup.GuardianConsent, f, today)
  {
    var under := IsUnder14(form, today);
    assert AgeFromBirthDate(form.birthDate, today).Some? && form.agreeTerms && form.agreePrivacy
      && Holds(GuardianInfoGiven, form, today) && Holds(GuardianConsentGiven, form, today) by {
      FirstFailureOrder(form, today);
    }
    var req := RequestOf(form, under);
    assert SentNormal(req) by {
      assert DateTextShape(form.birthDate);
      RequestIsNormal(form, under);
    }
    var f := ServerFields(req);
    assert Signup.Normalize(PayloadOf(req)) == Some(f) by {
      NormalizedRequest(req);
    }
    GuardianFieldsOf(form, under);
    ChecksOfSentFields(form, today, f);
  }

  /** Server-side fields that carry a valid form's date and consents, and its
      guardian details when it is under 14, pass those five checks. */
  lemma ChecksOfSentFields(form: FormInput, today: Civil, f: Signup.Fields)
    requires AgeFromBirthDate(form.birthDate, today).Some? && form.agreeTerms && form.agreePrivacy
    requires Holds(GuardianInfoGiven, form, today) && Holds(GuardianConsentGiven, form, today)
    requires f.birthDateRaw == form.birthDate && f.agreeTerms && f.agreePrivacy
    requires IsUnder14(form, today) ==>
      f.guardianName == Trim(form.guardianName) && f.guardianContact == Trim(form.guardianContact)
      && f.agreeLegalGuardian == form.agreeLegalGuardian
    ensures Signup.Holds(Signup.Consents, f, today)
    ensures Signup.Holds(Signup.BirthDateFormat, f, today)
    ensures Signup.Holds(Signup.AgeRange, f, today)
    ensures Signup.Holds(Signup.GuardianInfo, f, today)
    ensures Signup.Holds(Signup.GuardianConsent, f, today)
  {
    assert Signup.AgeOf(f, today) == AgeFromBirthDate(form.birthDate, today).value;
  }

  /** The texts of a body are already what the server's normalisation makes of them. */
  predicate SentNormal(req: Request) {
    Trim(req.username) == req.username && Trim(ToLower(req.email)) == req.email
    && Trim(req.birthDate) == req.birthDate
    && Trim(req.guardianName) == req.guardianName && Trim(req.guardianContact) == req.guardianContact
  }

  lemma RequestIsNormal(form: FormInput, under14: bool)
    requires DateTextShape(form.birthDate)
    ensures SentNormal(RequestOf(form, under14))
  {
    NameAndEmailNormal(form, under14);
    GuardianTextsNormal(form, under14);
    ShapedDateUntrimmed(form.birthDate);
  }

  lemma NameAndEmailNormal(form: FormInput, under14: bool)
    ensures var req := RequestOf(form, under14);
      Trim(req.username) == req.username && Trim(ToLower(req.email)) == req.email
  {
    TrimIdempotent(form.username);
    EmailRenormalised(form.email);
  }

  lemma GuardianTextsNormal(form: FormInput, under14: bool)
    ensures var req := RequestOf(form, under14);
      Trim(req.guardianName) == req.guardianName && Trim(req.guardianContact) == req.guardianContact
  {
    TrimIdempotent(form.guardianName);
    TrimIdempotent(form.guardianContact);
    TrimPlain("");
  }

  /** The body's fields as sent, with student as the default role. */
  function ServerFields(req: Request): Signup.Fields {
    Signup.Fields(req.email, req.username, Str(req.password), req.birthDate,
      if req.userRole == "" then Str("student") else Str(req.userRole),
      req.agreeTerms, req.agreePrivacy, req.guardianName, req.guardianContact, req.agreeLegalGuardian)
  }

  /** So the server reads such a body field for field as it was sent. */
  lemma NormalizedRequest(req: Request)
    requires SentNormal(req)
    ensures Signup.Normalize(PayloadOf(req)) == Some(ServerFields(req))
  {
    var v := PayloadOf(req);
    PayloadFields(req);
    PayloadConsents(req);
    assert TextOr(Get(v, "email")) == Some(req.email) && TextOr(Get(v, "username")) == Some(req.username);
    assert TextOr(Get(v, "birthDate")) == Some(req.birthDate);
    assert TextOr(Get(v, "guardianName")) == Some(req.guardianName);
    assert TextOr(Get(v, "guardianContact")) == Some(req.guardianContact);
    assert Or(Get(v, "password"), Str("")) == Str(req.password);
  }

  /** The server's lower-case-then-trim of the form's trimmed, lower-cased email
      changes nothing. */
  lemma EmailRenormalised(e: string)
    ensures Trim(ToLower(ToLower(Trim(e)))) == ToLower(Trim(e))
  {
    ToLowerIdempotent(Trim(e));
    ToLowerTrim(Trim(e));
    TrimIdempotent(e);
  }

  lemma ShapedDateUntrimmed(s: string)
    requires DateTextShape(s)
    ensures Trim(s) == s
  {
    assert IsDigit(s[..4][0]) && IsDigit(s[8..][1]);
    TrimPlain(s);
  }

  // ---------------------------------------------------------------- submitting

  /** The parts of the server's reply the handler reads. */
  datatype Reply = Reply(ok: bool, error: JsValue, requiresTeacherApproval: JsValue, emailSent: JsValue, verifyUrl: JsValue)

  datatype Message = Failed(check: FormCheck) | ServerError(message: JsValue)

  /** Which of the four success texts is shown. */
  datatype Notice = Notice(emailSent: bool, needsTeacherApproval: bool)

  /** The default text shown when the reply carries no error. */
  const SignupFailedText := "회원가입에 실패했습니다."

  class SignupFormState {
    var form: FormInput
    var loading: bool
    var error: Option<Message>
    var success: Option<Notice>
    var debugVerifyUrl: string

    constructor()
      ensures form == EmptyForm && !loading && error.None? && success.None? && debugVerifyUrl == ""
    {
      form := EmptyForm;
      loading := false;
      error := None;
      success := None;
      debugVerifyUrl := "";
    }

    /** `handleSubmit`. `today` is the local calendar date, `reply` what the server
        answers if the form is posted; the result is the posted body, if any. */
    method HandleSubmit(today: Civil, reply: Reply) returns (posted: Option<Request>)
      modifies this
      ensures posted.Some? <==> FirstFailure(old(form), today).None?
      ensures posted.Some? ==> posted.value == RequestOf(old(form), IsUnder14(old(form), today))
      ensures FirstFailure(old(form), today).Some? ==>
        error == Some(Failed(FirstFailure(old(form), today).value)) && loading == old(loading)
        && form == old(form)
      ensures posted.Some? ==> !loading
      ensures posted.Some? && !reply.ok ==>
        error == Some(ServerError(Or(reply.error, Str(SignupFailedText)))) && form == old(form)
      ensures posted.Some? && reply.ok ==>
        error.None? && form == EmptyForm
        && success == Some(Notice(Truthy(reply.emailSent), reply.requiresTeacherApproval == Bool(true)))
        && debugVerifyUrl == (if !Truthy(reply.emailSent) && reply.verifyUrl.Str? then reply.verifyUrl.s else "")
      ensures !(posted.Some? && reply.ok) ==> success.None? && debugVerifyUrl == ""
    {
      var input := form;
      var failure := FirstFailure(input, today);
      var body := RequestOf(input, IsUnder14(input, today));
      error := None;
      success := None;
      debugVerifyUrl := "";
      if failure.Some? {
        error := Some(Failed(failure.value));
        return None;
      }
      loading := true;
      posted := Some(body);
      if !reply.ok {
        loading := false;
        error := Some(ServerError(Or(reply.error, Str(SignupFailedText))));
        assert form == input;
        return;
      }
      var needsTeacherApproval := reply.requiresTeacherApproval == Bool(true);
      loading := false;
      success := Some(Notice(Truthy(reply.emailSent), needsTeacherApproval));
      if !Truthy(reply.emailSent) && reply.verifyUrl.Str? {
        debugVerifyUrl := reply.verifyUrl.s;
      }
      form := EmptyForm;
    }
  }
}
