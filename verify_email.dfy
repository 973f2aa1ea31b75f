/**
 * The e-mail verification link (`GET /api/m/auth/verify-email`): the token
 * from the link is hashed and looked up; a known, unexpired token marks the
 * user verified and is kept so the link can be opened again while it is
 * valid; an expired token is cleared; an unknown token still leads to the
 * success page when the link's user id belongs to an already verified user.
 * The answer is a redirect to the mobile home page with `verify=` set.
 */
module VerifyEmail {
  import opened Optional
  import opened UserAccount

  /** Where the link redirects: `?verify=invalid`, `?verify=expired`, or
      `?verify=success`, with `&approval=pending` when `approvalPending`. */
  datatype Redirect = Invalid | Expired | Success(approvalPending: bool)

  /** The success redirect for a user: a teacher still waiting for approval is told so. */
  function SuccessRedirect(s: UserState): (r: Redirect)
    ensures r.Success?
    ensures r.approvalPending <==> s.role == "teacher" && s.teacherApprovalStatus == "pending"
  {
    Success(s.role == "teacher" && s.teacherApprovalStatus == "pending")
  }

  /** A token without an expiry, or whose expiry is before `now`, has expired. */
  predicate TokenExpired(s: UserState, now: int) {
    s.verifyTokenExpires.None? || s.verifyTokenExpires.value < now
  }

  /** What one opening of the link does: the redirect, and the new state of the
      user that holds the token when that user is saved. */
  datatype Step = Step(redirect: Redirect, saved: Option<UserState>)

  /** The decision of the route. `byToken` is the user holding the hashed token,
      `byId` the user with the link's id (consulted only when no user holds the
      token and the id is not empty). */
  function Verify(token: string, uid: string, byToken: Option<UserState>, byId: Option<UserState>, now: int): Step {
    if token == "" then Step(Invalid, None)
    else if byToken.None? then
      if uid != "" && byId.Some? && byId.value.emailVerified then Step(SuccessRedirect(byId.value), None)
      else Step(Invalid, None)
    else
      var u := byToken.value;
      if TokenExpired(u, now) then
        Step(if u.emailVerified then SuccessRedirect(u) else Expired,
             Some(u.(verifyTokenHash := None, verifyTokenExpires := None)))
      else Step(SuccessRedirect(u), Some(u.(emailVerified := true)))
  }

  /** A link without a token is invalid and changes nothing. */
  lemma EmptyTokenInvalid(uid: string, byToken: Option<UserState>, byId: Option<UserState>, now: int)
    ensures Verify("", uid, byToken, byId, now) == Step(Invalid, None)
  {
  }

  /** An unknown token changes nothing, and leads to success exactly when the
      link's user id names a user who is already verified. */
  lemma UnknownToken(token: string, uid: string, byId: Option<UserState>, now: int)
    requires token != ""
    ensures var step := Verify(token, uid, None, byId, now);
      step.saved.None?
      && (step.redirect.Success? <==> uid != "" && byId.Some? && byId.value.emailVerified)
      && (step.redirect.Success? ==> step.redirect == SuccessRedirect(byId.value))
      && (!step.redirect.Success? ==> step.redirect == Invalid)
  {
  }

  /** An expired token is cleared from the user and nothing else about the user
      changes; a verified user still reaches the success page, an unverified one
      the expired page. */
  lemma ExpiredTokenCleared(token: string, uid: string, u: UserState, byId: Option<UserState>, now: int)
    requires token != "" && TokenExpired(u, now)
    ensures var step := Verify(token, uid, Some(u), byId, now);
      step.saved.Some?
      && step.saved.value.verifyTokenHash.None? && step.saved.value.verifyTokenExpires.None?
      && step.saved.value == u.(verifyTokenHash := None, verifyTokenExpires := None)
      && (step.redirect == Expired <==> !u.emailVerified)
      && (u.emailVerified ==> step.redirect == SuccessRedirect(u))
  {
  }

  /** A valid token verifies the user and stays in place with its expiry. */
  lemma ValidTokenVerifies(token: string, uid: string, u: UserState, byId: Option<UserState>, now: int)
    requires token != "" && !TokenExpired(u, now)
    ensures var step := Verify(token, uid, Some(u), byId, now);
      step.saved == Some(u.(emailVerified := true))
      && step.saved.value.verifyTokenHash == u.verifyTokenHash
      && step.saved.value.verifyTokenExpires == u.verifyTokenExpires
      && step.redirect == SuccessRedirect(u)
  {
  }

  /** Opening a valid link again before it expires gives the same answer and the
      same state: verification is idempotent. */
  lemma ValidLinkAgain(token: string, uid: string, u: UserState, byId: Option<UserState>, now: int, later: int)
    requires token != "" && !TokenExpired(u, later)
    ensures var first := Verify(token, uid, Some(u), byId, now);
      var second := Verify(token, uid, first.saved, byId, later);
      second == first
  {
  }

  /** Verification is never undone, and a success reached through the token
      always leaves the user verified. */
  lemma VerifiedStaysVerified(token: string, uid: string, u: UserState, byId: Option<UserState>, now: int)
    ensures var step := Verify(token, uid, Some(u), byId, now);
      (step.saved.Some? && u.emailVerified ==> step.saved.value.emailVerified)
      && (token != "" && step.redirect.Success? ==> step.saved.Some? && step.saved.value.emailVerified)
  {
  }

  /** The route on the stored users: `tokenHash` is what `hashVerificationToken`
      gives for `token`. Only the user holding the token is changed. */
  method Open(users: seq<User>, token: string, uid: string, tokenHash: string, now: int) returns (r: Redirect)
    modifies users
    ensures var owner := old(FindByVerifyToken(users, tokenHash));
      var step := Verify(token, uid, old(StateOf(owner)), old(StateOf(FindById(users, uid))), now);
      r == step.redirect
      && (step.saved.Some? ==> owner.Some? && owner.value.State() == step.saved.value)
      && (forall u :: u in users && !(step.saved.Some? && owner == Some(u)) ==> u.State() == old(u.State()))
  {
    if token == "" {
      return Invalid;
    }
    var owner := FindByVerifyToken(users, tokenHash);
    if owner.None? && uid != "" {
      var fallback := FindById(users, uid);
      if fallback.Some? && fallback.value.emailVerified {
        return SuccessRedirect(fallback.value.State());
      }
    }
    if owner.None? {
      return Invalid;
    }
    var user := owner.value;
    if user.verifyTokenExpires.None? || user.verifyTokenExpires.value < now {
      if user.emailVerified {
        user.verifyTokenHash := None;
        user.verifyTokenExpires := None;
        return SuccessRedirect(user.State());
      }
      user.verifyTokenHash := None;
      user.verifyTokenExpires := None;
      return Expired;
    }
    if !user.emailVerified {
      user.emailVerified := true;
    }
    r := SuccessRedirect(user.State());
  }
}
