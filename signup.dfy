/**
 * The sign-up endpoint for students and teachers: the request is normalised,
 * run through a fixed chain of early-return checks (the first failing check
 * decides the answer), and on success a new, unverified user record is built.
 */
module Signup {
  import opened Optional
  import opened JsText
  import opened JsCore
  import opened CivilDate

  const MinorAge := 14
  const MinPasswordLength := 6
  const TermsVersion := "2026-02-26"
  const PrivacyVersion := "2026-02-26"

  /** The request after normalisation. The password and the role are kept as sent
      (`value || default`), since the route only tests them against texts. */
  datatype Fields = Fields(
    email: string, username: string, password: JsValue, birthDateRaw: string, userRole: JsValue,
    agreeTerms: bool, agreePrivacy: bool,
    guardianName: string, guardianContact: string, agreeLegalGuardian: bool)

  /** The body fields a string method is called on. */
  const TextKeys: seq<string> := ["email", "username", "birthDate", "guardianName", "guardianContact"]

  /** Reading the body: the email is lower-cased then trimmed, the name, birth date
      and guardian fields trimmed, the password kept, the role defaulting to student,
      and a consent counting only when it is the boolean `true`. `None` when reading
      throws: a `null` body, or a truthy non-text value in one of the five text
      fields. */
  function Normalize(v: JsValue): (r: Option<Fields>)
    ensures r.Some? <==> !v.Null? && forall k :: 0 <= k < |TextKeys| ==> TextOr(Get(v, TextKeys[k])).Some?
  {
    var email := TextOr(Get(v, "email"));
    var username := TextOr(Get(v, "username"));
    var birthDate := TextOr(Get(v, "birthDate"));
    var guardianName := TextOr(Get(v, "guardianName"));
    var guardianContact := TextOr(Get(v, "guardianContact"));
    assert TextKeys == ["email", "username", "birthDate", "guardianName", "guardianContact"];
    if !v.Null? && email.Some? && username.Some? && birthDate.Some? && guardianName.Some? && guardianContact.Some? then
      assert forall k :: 0 <= k < |TextKeys| ==> TextOr(Get(v, TextKeys[k])).Some? by {
        forall k | 0 <= k < |TextKeys|
          ensures TextOr(Get(v, TextKeys[k])).Some?
        {
          if k == 0 {} else if k == 1 {} else if k == 2 {} else if k == 3 {} else {}
        }
      }
      Some(Fields(
        Trim(ToLower(email.value)), Trim(username.value), Or(Get(v, "password"), Str("")),
        Trim(birthDate.value), Or(Get(v, "userRole"), Str("student")),
        Get(v, "agreeTerms") == Bool(true), Get(v, "agreePrivacy") == Bool(true),
        Trim(guardianName.value), Trim(guardianContact.value),
        Get(v, "agreeLegalGuardian") == Bool(true)))
    else
      assert !v.Null? ==> exists k :: 0 <= k < |TextKeys| && TextOr(Get(v, TextKeys[k])).None? by {
        if !v.Null? {
          if email.None? { assert TextKeys[0] == "email"; }
          else if username.None? { assert TextKeys[1] == "username"; }
          else if birthDate.None? { assert TextKeys[2] == "birthDate"; }
          else if guardianName.None? { assert TextKeys[3] == "guardianName"; }
          else { assert TextKeys[4] == "guardianContact"; }
        }
      }
      None
  }

  // ---------------------------------------------------------------- email shape

  /** A character `[^\s@]` matches. */
  predicate AtFree(s: string) {
    forall i :: 0 <= i < |s| ==> !IsWhitespace(s[i]) && s[i] != '@'
  }

  /** `[^\s@]+\.[^\s@]+`: no blank and no '@', with a dot that is neither first nor last. */
  predicate DomainShaped(d: string) {
    AtFree(d) && exists j :: 0 < j < |d| - 1 && d[j] == '.'
  }

  /** `/^[^\s@]+@[^\s@]+\.[^\s@]+$/`. */
  predicate EmailShaped(e: string) {
    exists k :: 0 < k < |e| && e[k] == '@' && AtFree(e[..k]) && DomainShaped(e[k + 1..])
  }

  /** At most one '@'. */
  predicate SingleAt(e: string) {
    forall i, j :: 0 <= i < |e| && 0 <= j < |e| && e[i] == '@' && e[j] == '@' ==> i == j
  }

  predicate NoAsciiUpper(e: string) {
    forall i :: 0 <= i < |e| ==> !IsAsciiUpper(e[i])
  }

  /** An email of that shape has no blank anywhere and exactly one '@', which
      neither starts nor ends it. */
  lemma EmailShapedFacts(e: string)
    requires EmailShaped(e)
    ensures NoWhitespace(e)
    ensures exists k :: 0 < k < |e| - 1 && e[k] == '@'
    ensures SingleAt(e)
  {
    var k :| 0 < k < |e| && e[k] == '@' && AtFree(e[..k]) && DomainShaped(e[k + 1..]);
    forall i | 0 <= i < |e| && i != k
      ensures !IsWhitespace(e[i]) && e[i] != '@'
    {
      if i < k {
        assert e[i] == e[..k][i];
      } else {
        assert e[i] == e[k + 1..][i - k - 1];
      }
    }
    assert |e[k + 1..]| >= 3;
  }

  // ---------------------------------------------------------------- the checks

  /** The checks of the chain, in the order the handler runs them. */
  datatype Check =
    | Required | Consents | EmailFormat | UsernameLength | PasswordLength
    | BirthDateFormat | AgeRange | GuardianInfo | GuardianConsent | Role

  function Rank(c: Check): nat {
    match c
    case Required => 0
    case Consents => 1
    case EmailFormat => 2
    case UsernameLength => 3
    case PasswordLength => 4
    case BirthDateFormat => 5
    case AgeRange => 6
    case GuardianInfo => 7
    case GuardianConsent => 8
    case Role => 9
  }

  /** The age a well-formed birth date gives on `today`. */
  function AgeOf(f: Fields, today: Civil): int
    requires ParseDate(f.birthDateRaw).Some?
  {
    Age(ParseDate(f.birthDateRaw).value, today)
  }

  /** What each check demands of the request, on its own. The checks after the
      birth-date format speak only about requests whose date parses. */
  predicate Holds(c: Check, f: Fields, today: Civil) {
    match c
    case Required => f.email != "" && f.username != "" && Truthy(f.password) && f.birthDateRaw != ""
    case Consents => f.agreeTerms && f.agreePrivacy
    case EmailFormat => EmailShaped(f.email)
    case UsernameLength => 2 <= |f.username| <= 20
    case PasswordLength => !PasswordTooShort(f.password)
    case BirthDateFormat => ParseDate(f.birthDateRaw).Some?
    case AgeRange => ParseDate(f.birthDateRaw).Some? ==> 0 <= AgeOf(f, today) <= 120
    case GuardianInfo =>
      ParseDate(f.birthDateRaw).Some? && AgeOf(f, today) < MinorAge ==>
        f.guardianName != "" && f.guardianContact != ""
    case GuardianConsent =>
      ParseDate(f.birthDateRaw).Some? && AgeOf(f, today) < MinorAge ==> f.agreeLegalGuardian
    case Role => f.userRole == Str("student") || f.userRole == Str("teacher")
  }

  datatype Validation = Refused(check: Check) | Accepted(birth: Civil, age: int)

  /** `password.length < 6` as written: only a text, an array or an object has a
      length, so a number or a boolean is never too short. */
  predicate PasswordTooShortAsWritten(v: JsValue) {
    LengthBelow(v, MinPasswordLength)
  }

  /** The check the route evidently means: the password is text of at least 6
      characters. */
  predicate PasswordTooShort(v: JsValue) {
    !v.Str? || |v.s| < MinPasswordLength
  }

  /** The checks before the password's length. */
  function EarlyRefusal(f: Fields): (r: Option<Check>)
    ensures r.Some? ==> Rank(r.value) < Rank(PasswordLength)
  {
    if f.email == "" || f.username == "" || !Truthy(f.password) || f.birthDateRaw == "" then Some(Required)
    else if !f.agreeTerms || !f.agreePrivacy then Some(Consents)
    else if !EmailShaped(f.email) then Some(EmailFormat)
    else if |f.username| < 2 || |f.username| > 20 then Some(UsernameLength)
    else None
  }

  /** The checks after the password's length, up to the role. */
  function LateChecks(f: Fields, today: Civil): (r: Validation)
    ensures r.Refused? ==> Rank(r.check) > Rank(PasswordLength)
  {
    match ParseDate(f.birthDateRaw)
    case None => Refused(BirthDateFormat)
    case Some(birth) =>
      var age := Age(birth, today);
      if age < 0 || age > 120 then Refused(AgeRange)
      else if age < MinorAge && (f.guardianName == "" || f.guardianContact == "") then Refused(GuardianInfo)
      else if age < MinorAge && !f.agreeLegalGuardian then Refused(GuardianConsent)
      else if f.userRole != Str("student") && f.userRole != Str("teacher") then Refused(Role)
      else Accepted(birth, age)
  }

  /** The early-return chain of the handler as written, up to the role check. */
  function ValidateAsWritten(f: Fields, today: Civil): Validation {
    match EarlyRefusal(f)
    case Some(c) => Refused(c)
    case None => if PasswordTooShortAsWritten(f.password) then Refused(PasswordLength) else LateChecks(f, today)
  }

  /** The chain with the password check the route means; the rest of the model uses
      this one. */
  function Validate(f: Fields, today: Civil): (r: Validation)
    ensures r.Accepted? ==> f.password.Str? && |f.password.s| >= MinPasswordLength && f.userRole.Str?
  {
    match EarlyRefusal(f)
    case Some(c) => Refused(c)
    case None => if PasswordTooShort(f.password) then Refused(PasswordLength) else LateChecks(f, today)
  }

  /** As written, a password sent as the number 12 passes every check that the same
      request with a six-character password passes, and is stored as the two
      characters "12"; the intended check refuses it. */
  lemma NumericPasswordAsWritten(f: Fields, today: Civil)
    requires Validate(f.(password := Str("secret")), today).Accepted?
    ensures var g := f.(password := Number(Fin(12.0)));
      ValidateAsWritten(g, today).Accepted?
      && MongooseText(g.password) == Some("12")
      && Validate(g, today) == Refused(PasswordLength)
  {
    MongooseTextOfTwelve();
  }

  /** On a text password the two readings agree. */
  lemma ValidateAgreesOnText(f: Fields, today: Civil)
    requires f.password.Str?
    ensures ValidateAsWritten(f, today) == Validate(f, today)
  {
  }

  /** The answer names the first check, in the handler's order, that the request
      fails: every earlier check holds; a request is accepted exactly when every
      check holds, with the parsed birth date and its age. */
  lemma ValidationOrder(f: Fields, today: Civil)
    ensures var r := Validate(f, today);
      r.Refused? ==> !Holds(r.check, f, today) && forall c :: Rank(c) < Rank(r.check) ==> Holds(c, f, today)
    ensures var r := Validate(f, today);
      r.Accepted? <==> forall c :: Holds(c, f, today)
    ensures var r := Validate(f, today);
      r.Accepted? ==> ParseDate(f.birthDateRaw) == Some(r.birth) && r.age == Age(r.birth, today)
  {
    var r := Validate(f, today);
    if r.Refused? {
      forall c | Rank(c) < Rank(r.check)
        ensures Holds(c, f, today)
      {
        match c
        case Required =>
        case Consents =>
        case EmailFormat =>
        case UsernameLength =>
        case PasswordLength =>
        case BirthDateFormat =>
        case AgeRange =>
        case GuardianInfo =>
        case GuardianConsent =>
        case Role =>
      }
      assert !Holds(r.check, f, today);
    } else {
      forall c
        ensures Holds(c, f, today)
      {
        match c
        case Required =>
        case Consents =>
        case EmailFormat =>
        case UsernameLength =>
        case PasswordLength =>
        case BirthDateFormat =>
        case AgeRange =>
        case GuardianInfo =>
        case GuardianConsent =>
        case Role =>
      }
    }
  }

  // ---------------------------------------------------------------- the new user

  datatype GuardianConsentRecord = GuardianConsentRecord(agreedAt: int, guardianName: string, guardianContact: string)

  datatype ConsentRecord = ConsentRecord(agreedAt: int, version: string)

  /** The document `User.create` is given (the verification token hash and expiry
      are left out). */
  datatype NewUser = NewUser(
    email: string, username: string, password: string, role: string,
    teacherApprovalStatus: string, emailVerified: bool, birthDate: Civil,
    isUnder14AtSignup: bool, legalGuardianConsent: Option<GuardianConsentRecord>,
    terms: ConsentRecord, privacy: ConsentRecord)

  function BuildUser(f: Fields, birth: Civil, age: int, consentAt: int): NewUser
    requires f.password.Str? && f.userRole.Str?
  {
    var under14 := age < MinorAge;
    NewUser(
      f.email, f.username, f.password.s, f.userRole.s,
      if f.userRole.s == "teacher" then "pending" else "approved",
      false, birth, under14,
      if under14 then Some(GuardianConsentRecord(consentAt, f.guardianName, f.guardianContact)) else None,
      ConsentRecord(consentAt, TermsVersion), ConsentRecord(consentAt, PrivacyVersion))
  }

  /** Why a request creates no account: a body that is not JSON, an error thrown
      while reading the body, a failed check, a taken address, a mail that failed in
      production. */
  datatype Failure = BadJson | Thrown | Invalid(check: Check) | EmailInUse | MailNotSent

  datatype Outcome =
    | Rejected(status: int, failure: Failure)
    | Created(user: NewUser, emailSent: bool, requiresTeacherApproval: bool)

  /** `POST /api/m/auth/signup`. `today` is the UTC calendar date of the request,
      `consentAt` its time stamp, `emailTaken` whether a user with the email
      exists, `mailOk` whether the verification mail went out, and `production`
      whether the server runs in production, where a user whose mail failed is
      deleted again. */
  function Signup(body: Body, today: Civil, consentAt: int, emailTaken: bool, mailOk: bool, production: bool): (r: Outcome)
    ensures r == Rejected(400, BadJson) <==> body.NotJson?
    ensures r == Rejected(500, Thrown) <==> body.Json? && Normalize(body.value).None?
    ensures r.Rejected? && r.failure.Invalid? <==>
      body.Json? && Normalize(body.value).Some? && Validate(Normalize(body.value).value, today).Refused?
    ensures r.Rejected? && r.failure.Invalid? ==>
      r.status == 400 && r.failure.check == Validate(Normalize(body.value).value, today).check
    ensures r.Rejected? ==> (r.status == 409 <==> r.failure == EmailInUse)
    ensures r.Rejected? ==> (r.status == 500 <==> r.failure == MailNotSent || r.failure == Thrown)
    ensures r.Created? ==> !emailTaken && r.emailSent == mailOk && (!mailOk ==> !production)
    ensures body.Json? && Normalize(body.value).Some? && Validate(Normalize(body.value).value, today).Accepted? ==>
      (r.Created? <==> !emailTaken && (mailOk || !production))
  {
    if body.NotJson? then Rejected(400, BadJson)
    else match Normalize(body.value)
      case None => Rejected(500, Thrown)
      case Some(f) =>
        match Validate(f, today)
        case Refused(check) => Rejected(400, Invalid(check))
        case Accepted(birth, age) =>
          if emailTaken then Rejected(409, EmailInUse)
          else if !mailOk && production then Rejected(500, MailNotSent)
          else Created(BuildUser(f, birth, age, consentAt), mailOk, f.userRole == Str("teacher"))
  }

  /** What a created account is built from. */
  lemma CreatedFrom(body: Body, today: Civil, consentAt: int, emailTaken: bool, mailOk: bool, production: bool)
    requires Signup(body, today, consentAt, emailTaken, mailOk, production).Created?
    ensures body.Json? && Normalize(body.value).Some?
    ensures var f := Normalize(body.value).value;
      Validate(f, today).Accepted?
      && Signup(body, today, consentAt, emailTaken, mailOk, production).user
         == BuildUser(f, Validate(f, today).birth, Validate(f, today).age, consentAt)
  {
  }

  /** The fields normalisation reads that a created account is checked against. */
  lemma NormalizeReads(v: JsValue)
    requires Normalize(v).Some?
    ensures var f := Normalize(v).value;
      f.password == Or(Get(v, "password"), Str(""))
      && f.email == Trim(ToLower(TextOr(Get(v, "email")).value))
      && f.agreeLegalGuardian == (Get(v, "agreeLegalGuardian") == Bool(true))
  {
  }

  /** Everything a created account satisfies: every check held; the role is student
      or teacher, a teacher waits for approval and a student is approved; the user
      is unverified; a guardian consent with both guardian fields is stored exactly
      for a user under 14; the stored password is the text sent, of at least 6
      characters; the stored email is the sent one lower-cased and trimmed. */
  lemma CreatedUser(body: Body, today: Civil, consentAt: int, emailTaken: bool, mailOk: bool, production: bool)
    requires Signup(body, today, consentAt, emailTaken, mailOk, production).Created?
    ensures body.Json? && Normalize(body.value).Some?
    ensures var u := Signup(body, today, consentAt, emailTaken, mailOk, production).user;
      var f := Normalize(body.value).value;
      (forall c :: Holds(c, f, today))
      && (u.role == "student" || u.role == "teacher")
      && (u.teacherApprovalStatus == "pending" <==> u.role == "teacher")
      && (u.teacherApprovalStatus == "approved" <==> u.role == "student")
      && !u.emailVerified
      && Valid(u.birthDate) && ParseDate(f.birthDateRaw) == Some(u.birthDate)
      && (u.isUnder14AtSignup <==> Age(u.birthDate, today) < MinorAge)
      && (u.legalGuardianConsent.Some? <==> u.isUnder14AtSignup)
      && (u.legalGuardianConsent.Some? ==>
            u.legalGuardianConsent.value.guardianName != "" && u.legalGuardianConsent.value.guardianContact != ""
            && Get(body.value, "agreeLegalGuardian") == Bool(true))
      && Get(body.value, "password") == Str(u.password) && |u.password| >= MinPasswordLength
      && Get(body.value, "email").Str? && u.email == Trim(ToLower(Get(body.value, "email").s))
  {
    CreatedFrom(body, today, consentAt, emailTaken, mailOk, production);
    var v := body.value;
    var f := Normalize(v).value;
    NormalizeReads(v);
    BuiltUser(f, today, consentAt);
    assert TextOr(Get(v, "email")).value != "";
  }

  /** The account built from fields that pass every check. */
  lemma BuiltUser(f: Fields, today: Civil, consentAt: int)
    requires Validate(f, today).Accepted?
    ensures var u := BuildUser(f, Validate(f, today).birth, Validate(f, today).age, consentAt);
      (forall c :: Holds(c, f, today))
      && (u.role == "student" || u.role == "teacher")
      && (u.teacherApprovalStatus == "pending" <==> u.role == "teacher")
      && (u.teacherApprovalStatus == "approved" <==> u.role == "student")
      && !u.emailVerified
      && Valid(u.birthDate) && ParseDate(f.birthDateRaw) == Some(u.birthDate)
      && (u.isUnder14AtSignup <==> Age(u.birthDate, today) < MinorAge)
      && (u.legalGuardianConsent.Some? <==> u.isUnder14AtSignup)
      && (u.legalGuardianConsent.Some? ==>
            u.legalGuardianConsent.value.guardianName != "" && u.legalGuardianConsent.value.guardianContact != ""
            && f.agreeLegalGuardian)
      && f.password == Str(u.password) && |u.password| >= MinPasswordLength
      && f.email != "" && u.email == f.email
  {
    ValidationOrder(f, today);
  }

  /** The stored email of a created account is already in the form the handler
      normalises to: no upper-case ASCII letter, no blank, exactly one '@'. */
  lemma CreatedEmailNormal(body: Body, today: Civil, consentAt: int, emailTaken: bool, mailOk: bool, production: bool)
    requires Signup(body, today, consentAt, emailTaken, mailOk, production).Created?
    ensures var e := Signup(body, today, consentAt, emailTaken, mailOk, production).user.email;
      e != [] && NoWhitespace(e)
      && NoAsciiUpper(e) && SingleAt(e)
  {
    CreatedUser(body, today, consentAt, emailTaken, mailOk, production);
    var f := Normalize(body.value).value;
    assert EmailShaped(f.email) by {
      assert Validate(f, today).Accepted?;
    }
    NormalEmail(Get(body.value, "email").s);
  }

  lemma NormalEmail(raw: string)
    requires EmailShaped(Trim(ToLower(raw)))
    ensures var e := Trim(ToLower(raw));
      e != [] && NoWhitespace(e)
      && NoAsciiUpper(e) && SingleAt(e)
  {
    ToLowerTrim(raw);
    EmailShapedFacts(Trim(ToLower(raw)));
  }

  /** A request from someone under 14 without both guardian fields, or without the
      guardian's consent, never creates an account. */
  lemma MinorNeedsGuardian(v: JsValue, today: Civil, consentAt: int, emailTaken: bool, mailOk: bool, production: bool)
    requires Normalize(v).Some?
    requires ParseDate(Normalize(v).value.birthDateRaw).Some?
    requires AgeOf(Normalize(v).value, today) < MinorAge
    requires Normalize(v).value.guardianName == "" || Normalize(v).value.guardianContact == ""
          || Get(v, "agreeLegalGuardian") != Bool(true)
    ensures Signup(Json(v), today, consentAt, emailTaken, mailOk, production).Rejected?
  {
    var f := Normalize(v).value;
    NormalizeReads(v);
    MinorRefused(f, today);
  }

  lemma MinorRefused(f: Fields, today: Civil)
    requires ParseDate(f.birthDateRaw).Some? && AgeOf(f, today) < MinorAge
    requires f.guardianName == "" || f.guardianContact == "" || !f.agreeLegalGuardian
    ensures Validate(f, today).Refused?
  {
    assert !Holds(GuardianInfo, f, today) || !Holds(GuardianConsent, f, today);
    ValidationOrder(f, today);
  }
}
