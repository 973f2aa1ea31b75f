/**
 * The member profile update (`PATCH /api/m/user/profile`): a member edits
 * their phone number, their marketing consent and, when they signed up under
 * 14, their legal guardian's name and contact. The request is checked first;
 * only then are the stored phone, marketing consent and guardian consent
 * changed in place.
 */
module Profile {
  import opened Optional
  import opened JsText
  import opened JsCore
  import opened MobilePhone
  import Signup

  const MarketingVersion := "2026-02-26"

  /** What the handler reads from the body: the digits of the phone, whether
      marketing is agreed (`=== true`), and the trimmed guardian fields. */
  datatype PatchInput = PatchInput(phoneDigits: string, agree: bool, guardianName: string, guardianContact: string)

  /** Reading the parsed body: `None` when reading it throws (a `null` body, or a
      phone or guardian field that is truthy but not text). */
  function ReadBody(body: JsValue): (r: Option<PatchInput>)
    ensures r.None? <==> (body.Null? || TextOr(Get(body, "phone")).None?
                          || TextOr(Get(body, "guardianName")).None? || TextOr(Get(body, "guardianContact")).None?)
    ensures r.Some? ==> AllDigits(r.value.phoneDigits)
    ensures r.Some? ==> (r.value.agree <==> Get(body, "agreeMarketing") == Bool(true))
    ensures r.Some? && Get(body, "phone").Str? ==> r.value.phoneDigits == DigitsOf(Get(body, "phone").s)
    ensures r.Some? && Get(body, "guardianName").Str? ==> r.value.guardianName == Trim(Get(body, "guardianName").s)
    ensures r.Some? && Get(body, "guardianContact").Str? ==> r.value.guardianContact == Trim(Get(body, "guardianContact").s)
  {
    if body.Null? then None
    else
      var phone := TextOr(Get(body, "phone"));
      var name := TextOr(Get(body, "guardianName"));
      var contact := TextOr(Get(body, "guardianContact"));
      if phone.None? || name.None? || contact.None? then None
      else Some(PatchInput(DigitsOf(phone.value), Get(body, "agreeMarketing") == Bool(true), Trim(name.value), Trim(contact.value)))
  }

  datatype PatchError = BadPhone | PhoneNeededForMarketing | GuardianNeeded

  /** The checks, in order; each failure answers 400 and changes nothing. */
  function Check(p: PatchInput, under14AtSignup: bool): Option<PatchError> {
    if p.phoneDigits != "" && !IsMobileNumber(p.phoneDigits) then Some(BadPhone)
    else if p.agree && !IsMobileNumber(p.phoneDigits) then Some(PhoneNeededForMarketing)
    else if under14AtSignup && (p.guardianName == "" || p.guardianContact == "") then Some(GuardianNeeded)
    else None
  }

  /** A request passes exactly when its phone is empty or a mobile number, a mobile
      number is given whenever marketing is agreed, and a member who signed up
      under 14 gives both guardian fields; the first failing check is reported. */
  lemma CheckPassesIff(p: PatchInput, under14AtSignup: bool)
    ensures Check(p, under14AtSignup).None? <==>
      (p.phoneDigits == "" || IsMobileNumber(p.phoneDigits))
      && (p.agree ==> IsMobileNumber(p.phoneDigits))
      && (under14AtSignup ==> p.guardianName != "" && p.guardianContact != "")
    ensures Check(p, under14AtSignup) == Some(BadPhone) <==> p.phoneDigits != "" && !IsMobileNumber(p.phoneDigits)
    ensures Check(p, under14AtSignup) == Some(PhoneNeededForMarketing) <==> p.agree && p.phoneDigits == ""
  {
  }

  /** `user.phone = hasPhoneInput ? phoneDigits : null`. */
  function PhoneAfter(p: PatchInput): Option<string> {
    if p.phoneDigits != "" then Some(p.phoneDigits) else None
  }

  /** The marketing consent after the update: an agreement keeps an existing consent
      as it is and records one (dated `now`) only when there is none; declining
      removes it. */
  function MarketingAfter(m: Option<Signup.ConsentRecord>, agree: bool, now: int): (r: Option<Signup.ConsentRecord>)
    ensures r.Some? <==> agree
    ensures r.Some? ==> r.value.version == MarketingVersion || r == m
  {
    if !agree then None
    else if m.None? then Some(Signup.ConsentRecord(now, MarketingVersion))
    else m
  }

  /** Agreeing again, at any later time, keeps the date and version of the first
      agreement. */
  lemma AgreeingAgainKeepsFirst(m: Option<Signup.ConsentRecord>, t1: int, t2: int)
    ensures MarketingAfter(MarketingAfter(m, true, t1), true, t2) == MarketingAfter(m, true, t1)
    ensures m.Some? ==> MarketingAfter(m, true, t1) == m
  {
  }

  /** The guardian consent after the update of a member who signed up under 14: made
      once, dated `now`; afterwards only its name and contact change. Other members'
      guardian consent is left alone. */
  function GuardianAfter(g: Option<Signup.GuardianConsentRecord>, under14AtSignup: bool, name: string, contact: string, now: int)
    : (r: Option<Signup.GuardianConsentRecord>)
    ensures !under14AtSignup ==> r == g
    ensures under14AtSignup ==> r.Some? && r.value.guardianName == name && r.value.guardianContact == contact
    ensures under14AtSignup && g.Some? ==> r.value.agreedAt == g.value.agreedAt
    ensures under14AtSignup && g.None? ==> r.value.agreedAt == now
  {
    if !under14AtSignup then g
    else if g.None? then Some(Signup.GuardianConsentRecord(now, name, contact))
    else Some(g.value.(guardianName := name, guardianContact := contact))
  }

  /** A stored profile that keeps the rules the update enforces: a stored phone is a
      mobile number, a marketing consent comes with one, and a member who signed up
      under 14 has a guardian consent with both fields filled. */
  predicate Consistent(phone: Option<string>, marketing: Option<Signup.ConsentRecord>,
                       under14AtSignup: bool, guardian: Option<Signup.GuardianConsentRecord>) {
    (phone.Some? ==> IsMobileNumber(phone.value))
    && (marketing.Some? ==> phone.Some?)
    && (under14AtSignup ==> guardian.Some? && guardian.value.guardianName != "" && guardian.value.guardianContact != "")
  }

  /** Whatever was stored before, an accepted update leaves a consistent profile. */
  lemma AcceptedUpdateConsistent(p: PatchInput, m: Option<Signup.ConsentRecord>, under14AtSignup: bool,
                                 g: Option<Signup.GuardianConsentRecord>, now: int)
    requires Check(p, under14AtSignup).None?
    ensures Consistent(PhoneAfter(p), MarketingAfter(m, p.agree, now), under14AtSignup,
                       GuardianAfter(g, under14AtSignup, p.guardianName, p.guardianContact, now))
  {
    if p.phoneDigits != "" {
      assert IsMobileNumber(p.phoneDigits);
    }
  }

  /** The member record the handler loads and saves. Other parts of the record
      (terms and privacy consents, password, role) are not touched by the update. */
  class Member {
    var phone: Option<string>
    var marketing: Option<Signup.ConsentRecord>
    var isUnder14AtSignup: bool
    var guardian: Option<Signup.GuardianConsentRecord>

    constructor(phone: Option<string>, marketing: Option<Signup.ConsentRecord>,
                isUnder14AtSignup: bool, guardian: Option<Signup.GuardianConsentRecord>)
      ensures this.phone == phone && this.marketing == marketing
      ensures this.isUnder14AtSignup == isUnder14AtSignup && this.guardian == guardian
    {
      this.phone := phone;
      this.marketing := marketing;
      this.isUnder14AtSignup := isUnder14AtSignup;
      this.guardian := guardian;
    }

    predicate Valid()
      reads this
    {
      Consistent(phone, marketing, isUnder14AtSignup, guardian)
    }

    /** The PATCH handler's update once the member is found and the body read: a
        rejected request changes nothing; an accepted one sets the phone, the
        marketing consent and the guardian consent, and leaves the member consistent. */
    method Patch(p: PatchInput, now: int) returns (error: Option<PatchError>)
      modifies this
      ensures error == Check(p, old(isUnder14AtSignup))
      ensures error.Some? ==> unchanged(this)
      ensures error.None? ==>
        phone == PhoneAfter(p)
        && marketing == MarketingAfter(old(marketing), p.agree, now)
        && isUnder14AtSignup == old(isUnder14AtSignup)
        && guardian == GuardianAfter(old(guardian), isUnder14AtSignup, p.guardianName, p.guardianContact, now)
        && Valid()
    {
      var hasPhoneInput := |p.phoneDigits| > 0;
      var isValidPhone := IsMobileNumber(p.phoneDigits);
      if hasPhoneInput && !isValidPhone {
        return Some(BadPhone);
      }
      if p.agree && !isValidPhone {
        return Some(PhoneNeededForMarketing);
      }
      if isUnder14AtSignup && (p.guardianName == "" || p.guardianContact == "") {
        return Some(GuardianNeeded);
      }
      error := None;
      phone := if hasPhoneInput then Some(p.phoneDigits) else None;
      if p.agree {
        if marketing.None? {
          marketing := Some(Signup.ConsentRecord(now, MarketingVersion));
        }
      } else {
        marketing := None;
      }
      if isUnder14AtSignup {
        if guardian.None? {
          guardian := Some(Signup.GuardianConsentRecord(now, p.guardianName, p.guardianContact));
        } else {
          guardian := Some(guardian.value.(guardianName := p.guardianName, guardianContact := p.guardianContact));
        }
      }
      AcceptedUpdateConsistent(p, old(marketing), isUnder14AtSignup, old(guardian), now);
    }
  }

  datatype PatchOutcome = Unauthorized | NotFound | BadBody | Crashed | Refused(error: PatchError) | Saved

  /** The status of each outcome. */
  function StatusOf(o: PatchOutcome): (status: int)
    ensures status == 200 <==> o.Saved?
    ensures status == 500 <==> o.Crashed?
  {
    match o
    case Unauthorized => 401
    case NotFound => 404
    case BadBody => 400
    case Crashed => 500
    case Refused(_) => 400
    case Saved => 200
  }

  /** `PATCH /api/m/user/profile`: `sessionEmail` is the session's address (`None`
      without a session) and `found` the member stored under it. The session is
      checked, then the member, then the body; only a saved update changes the member. */
  method PatchRoute(sessionEmail: Option<string>, found: Option<Member>, body: Body, now: int) returns (r: PatchOutcome)
    modifies if found.Some? then {found.value} else {}
    ensures r == Unauthorized <==> sessionEmail.None? || sessionEmail.value == ""
    ensures r == NotFound <==> sessionEmail.Some? && sessionEmail.value != "" && found.None?
    ensures r == BadBody <==> sessionEmail.Some? && sessionEmail.value != "" && found.Some? && body.NotJson?
    ensures r == Crashed <==> sessionEmail.Some? && sessionEmail.value != "" && found.Some? && body.Json? && ReadBody(body.value).None?
    ensures r.Refused? || r.Saved? ==>
      && found.Some? && body.Json? && ReadBody(body.value).Some?
      && (r.Refused? <==> Check(ReadBody(body.value).value, old(found.value.isUnder14AtSignup)).Some?)
      && (r.Refused? ==> r.error == Check(ReadBody(body.value).value, old(found.value.isUnder14AtSignup)).value)
    ensures !r.Saved? && found.Some? ==> unchanged(found.value)
    ensures r.Saved? ==>
      var m := found.value;
      var p := ReadBody(body.value).value;
      m.phone == PhoneAfter(p)
      && m.marketing == MarketingAfter(old(m.marketing), p.agree, now)
      && m.guardian == GuardianAfter(old(m.guardian), m.isUnder14AtSignup, p.guardianName, p.guardianContact, now)
      && m.Valid()
  {
    if sessionEmail.None? || sessionEmail.value == "" {
      return Unauthorized;
    }
    if found.None? {
      return NotFound;
    }
    if body.NotJson? {
      return BadBody;
    }
    var p := ReadBody(body.value);
    if p.None? {
      return Crashed;
    }
    var m := found.value;
    var error := m.Patch(p.value, now);
    if error.Some? {
      return Refused(error.value);
    }
    return Saved;
  }
}
