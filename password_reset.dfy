/**
 * Confirming a password reset (`POST /api/m/auth/password-reset/confirm`):
 * the body names the account's e-mail address, the token from the reset
 * mail and the new password; the user is found by the lower-cased address,
 * the stored token is checked for presence, expiry and hash in that order,
 * and on success the password is replaced and the token removed, so that a
 * reset link works once. Hashing the token and the new password is outside
 * the model: the token's hash is a parameter, and the stored password is
 * the one the save hook is given.
 */
module PasswordReset {
  import opened Optional
  import opened JsText
  import opened JsCore
  import opened UserAccount

  const MinPasswordLength := 8

  /** The three fields the body is destructured into. */
  datatype ResetRequest = ResetRequest(email: JsValue, token: JsValue, newPassword: JsValue)

  /** Each way the route refuses, in the order it checks. `ServerError` is the 500
      the route answers when something it calls throws: `toLowerCase` on an address
      that is not text, hashing a token that is not text, or, as written, saving a
      new password that the cast to text rejects. */
  datatype ResetError = MissingField | ShortPassword | ServerError | UnknownUser | NoToken | ExpiredToken | WrongToken

  /** 500 for a thrown error, 400 for every refusal. */
  function ErrorStatus(e: ResetError): (status: int)
    ensures status == 500 <==> e == ServerError
    ensures status == 400 <==> e != ServerError
  {
    if e == ServerError then 500 else 400
  }

  datatype ResetStep = Refused(error: ResetError) | Reset(saved: UserState)

  /** `newPassword.length < 8` as written: it speaks only of texts, arrays and
      objects, so a number or a boolean is never too short. */
  predicate TooShortAsWritten(v: JsValue) {
    LengthBelow(v, MinPasswordLength)
  }

  /** The check the route evidently means: the new password is text of at least 8
      characters. */
  predicate TooShort(v: JsValue) {
    !v.Str? || |v.s| < MinPasswordLength
  }

  /** The token checks shared by both readings: `None` when the user holds an
      unexpired token whose hash is the hash of the given token. */
  function TokenRefusal(req: ResetRequest, u: UserState, hash: string -> string, now: int): (e: Option<ResetError>)
    ensures e.None? <==>
      u.resetTokenHash.Some? && u.resetTokenHash.value != "" && u.resetTokenExpires.Some?
      && now <= u.resetTokenExpires.value && req.token.Str? && hash(req.token.s) == u.resetTokenHash.value
  {
    if u.resetTokenHash.None? || u.resetTokenHash.value == "" || u.resetTokenExpires.None? then Some(NoToken)
    else if now > u.resetTokenExpires.value then Some(ExpiredToken)
    else if !req.token.Str? then Some(ServerError)
    else if hash(req.token.s) != u.resetTokenHash.value then Some(WrongToken)
    else None
  }

  /** The decision of the route as written. `byEmail` is the user with the
      lower-cased address (looked up only once the fields pass), `hash` is
      `hashPasswordResetToken`. The new password is assigned to the document, whose
      `String` path casts it: a number or a boolean is stored as its text, anything
      else fails the save. */
  function ConfirmAsWritten(req: ResetRequest, byEmail: Option<UserState>, hash: string -> string, now: int): ResetStep {
    if !Truthy(req.email) || !Truthy(req.token) || !Truthy(req.newPassword) then Refused(MissingField)
    else if TooShortAsWritten(req.newPassword) then Refused(ShortPassword)
    else if !req.email.Str? then Refused(ServerError)
    else if byEmail.None? then Refused(UnknownUser)
    else
      var u := byEmail.value;
      match TokenRefusal(req, u, hash, now)
      case Some(e) => Refused(e)
      case None =>
        match MongooseText(req.newPassword)
        case None => Refused(ServerError)
        case Some(p) => Reset(u.(password := p, resetTokenHash := None, resetTokenExpires := None))
  }

  /** As written, a numeric new password passes the length check, which only texts,
      arrays and objects can fail, and the number 12 is stored as the two-character
      password "12"; the intended check refuses it. */
  lemma NumericPasswordAsWritten(email: string, token: string, u: UserState, hash: string -> string, now: int)
    requires email != "" && token != ""
    requires u.resetTokenHash == Some(hash(token)) && hash(token) != ""
    requires u.resetTokenExpires.Some? && now <= u.resetTokenExpires.value
    ensures var req := ResetRequest(Str(email), Str(token), Number(Fin(12.0)));
      ConfirmAsWritten(req, Some(u), hash, now).Reset?
      && ConfirmAsWritten(req, Some(u), hash, now).saved.password == "12"
      && Confirm(req, Some(u), hash, now) == Refused(ShortPassword)
  {
    var req := ResetRequest(Str(email), Str(token), Number(Fin(12.0)));
    MongooseTextOfTwelve();
    assert TokenRefusal(req, u, hash, now).None?;
  }

  /** On a text password the two readings agree. */
  lemma ConfirmAgreesOnText(req: ResetRequest, byEmail: Option<UserState>, hash: string -> string, now: int)
    requires req.newPassword.Str?
    ensures ConfirmAsWritten(req, byEmail, hash, now) == Confirm(req, byEmail, hash, now)
  {
  }

  /** The decision of the route with the length check the route means: a new
      password that is not text is refused like a short one, so the cast on saving
      always keeps the text sent. */
  function Confirm(req: ResetRequest, byEmail: Option<UserState>, hash: string -> string, now: int): ResetStep {
    if !Truthy(req.email) || !Truthy(req.token) || !Truthy(req.newPassword) then Refused(MissingField)
    else if TooShort(req.newPassword) then Refused(ShortPassword)
    else if !req.email.Str? then Refused(ServerError)
    else if byEmail.None? then Refused(UnknownUser)
    else
      var u := byEmail.value;
      match TokenRefusal(req, u, hash, now)
      case Some(e) => Refused(e)
      case None => Reset(u.(password := req.newPassword.s, resetTokenHash := None, resetTokenExpires := None))
  }

  /** A password is reset exactly when the three fields are text, the new password
      has at least 8 characters, the address names a user, and that user holds an
      unexpired token whose hash is the hash of the given token. */
  lemma ResetIff(req: ResetRequest, byEmail: Option<UserState>, hash: string -> string, now: int)
    ensures Confirm(req, byEmail, hash, now).Reset? <==>
      req.email.Str? && req.email.s != "" && req.token.Str? && req.token.s != ""
      && req.newPassword.Str? && |req.newPassword.s| >= MinPasswordLength
      && byEmail.Some? && byEmail.value.resetTokenHash.Some? && byEmail.value.resetTokenHash.value != ""
      && byEmail.value.resetTokenExpires.Some? && now <= byEmail.value.resetTokenExpires.value
      && hash(req.token.s) == byEmail.value.resetTokenHash.value
  {
  }

  /** A reset stores the new password and removes both token fields; nothing
      else about the user changes. */
  lemma ResetReplacesPassword(req: ResetRequest, u: UserState, hash: string -> string, now: int)
    requires Confirm(req, Some(u), hash, now).Reset?
    ensures var s := Confirm(req, Some(u), hash, now).saved;
      s.password == req.newPassword.s && |s.password| >= MinPasswordLength
      && s.resetTokenHash.None? && s.resetTokenExpires.None?
      && s == u.(password := s.password, resetTokenHash := None, resetTokenExpires := None)
  {
  }

  /** A reset link works once: the same request again after a reset is refused
      because the user no longer holds a token. */
  lemma SingleUse(req: ResetRequest, u: UserState, hash: string -> string, now: int, later: int)
    requires Confirm(req, Some(u), hash, now).Reset?
    ensures Confirm(req, Some(Confirm(req, Some(u), hash, now).saved), hash, later) == Refused(NoToken)
  {
  }

  /** The checks come in the route's order: a missing token before an expired one,
      an expired token before a wrong one, and a short password before the user is
      even looked up. */
  lemma RefusalOrder(req: ResetRequest, u: UserState, hash: string -> string, now: int)
    requires Truthy(req.email) && Truthy(req.token) && Truthy(req.newPassword)
    ensures TooShort(req.newPassword) ==> Confirm(req, None, hash, now) == Confirm(req, Some(u), hash, now) == Refused(ShortPassword)
    ensures !TooShort(req.newPassword) && req.email.Str? && (u.resetTokenHash.None? || u.resetTokenExpires.None?) ==>
      Confirm(req, Some(u), hash, now) == Refused(NoToken)
    ensures (!TooShort(req.newPassword) && req.email.Str? && u.resetTokenHash.Some? && u.resetTokenHash.value != ""
             && u.resetTokenExpires.Some? && now > u.resetTokenExpires.value) ==>
      Confirm(req, Some(u), hash, now) == Refused(ExpiredToken)
  {
  }

  /** The route on the stored users: the user is looked up by the lower-cased
      address, which the lookup's cast also trims, and only that user is changed. */
  method ConfirmReset(users: seq<User>, req: ResetRequest, hash: string -> string, now: int) returns (r: Option<ResetError>)
    modifies users
    ensures var found := if req.email.Str? then old(FindByEmail(users, ToLower(req.email.s))) else None;
      var step := Confirm(req, old(StateOf(found)), hash, now);
      (r.None? <==> step.Reset?)
      && (step.Refused? ==> r == Some(step.error))
      && (step.Reset? ==> found.Some? && found.value.State() == step.saved)
      && (forall u :: u in users && !(step.Reset? && found == Some(u)) ==> u.State() == old(u.State()))
  {
    if !Truthy(req.email) || !Truthy(req.token) || !Truthy(req.newPassword) {
      return Some(MissingField);
    }
    if TooShort(req.newPassword) {
      return Some(ShortPassword);
    }
    if !req.email.Str? {
      return Some(ServerError);
    }
    var found := FindByEmail(users, ToLower(req.email.s));
    if found.None? {
      return Some(UnknownUser);
    }
    var user := found.value;
    if user.resetTokenHash.None? || user.resetTokenHash.value == "" || user.resetTokenExpires.None? {
      return Some(NoToken);
    }
    if now > user.resetTokenExpires.value {
      return Some(ExpiredToken);
    }
    if !req.token.Str? {
      return Some(ServerError);
    }
    if hash(req.token.s) != user.resetTokenHash.value {
      return Some(WrongToken);
    }
    user.password := req.newPassword.s;
    user.resetTokenHash := None;
    user.resetTokenExpires := None;
    r := None;
  }
}
