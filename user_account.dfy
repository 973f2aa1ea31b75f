/**
 * The stored user as the e-mail verification and password reset routes see
 * it: an object whose token fields and flags the routes change in place,
 * and the three lookups they run against the collection of users.
 *
 * The schema in lib/models/User.ts declares only the address, name, password,
 * role and creation time. The approval status, the verification flag and the
 * two token pairs are the fields that app/api/m/auth/verify-email/route.ts and
 * app/api/m/auth/password-reset/confirm/route.ts read and set; they are taken
 * from those routes.
 */
module UserAccount {
  import opened Optional
  import opened JsText

  /** Every field of a user the two routes read or write, as a value. */
  datatype UserState = UserState(
    email: string, password: string, role: string, teacherApprovalStatus: string, emailVerified: bool,
    verifyTokenHash: Option<string>, verifyTokenExpires: Option<int>,
    resetTokenHash: Option<string>, resetTokenExpires: Option<int>)

  class User {
    const id: string
    var email: string
    var password: string
    var role: string
    var teacherApprovalStatus: string
    var emailVerified: bool
    var verifyTokenHash: Option<string>
    var verifyTokenExpires: Option<int>
    var resetTokenHash: Option<string>
    var resetTokenExpires: Option<int>

    constructor (id: string, s: UserState)
      ensures this.id == id && State() == s
    {
      this.id := id;
      email := s.email;
      password := s.password;
      role := s.role;
      teacherApprovalStatus := s.teacherApprovalStatus;
      emailVerified := s.emailVerified;
      verifyTokenHash := s.verifyTokenHash;
      verifyTokenExpires := s.verifyTokenExpires;
      resetTokenHash := s.resetTokenHash;
      resetTokenExpires := s.resetTokenExpires;
    }

    /** The user's fields as a value. */
    function State(): (s: UserState)
      reads this
      ensures s.emailVerified == emailVerified && s.verifyTokenHash == verifyTokenHash
      ensures s.resetTokenHash == resetTokenHash && s.email == email
    {
      UserState(email, password, role, teacherApprovalStatus, emailVerified,
                verifyTokenHash, verifyTokenExpires, resetTokenHash, resetTokenExpires)
    }
  }

  /** The state of a user a lookup found, if it found one. */
  function StateOf(u: Option<User>): (r: Option<UserState>)
    reads if u.Some? then {u.value} else {}
    ensures r.Some? <==> u.Some?
    ensures u.Some? ==> r.value == u.value.State()
  {
    if u.Some? then Some(u.value.State()) else None
  }

  /** `User.findOne({ verifyTokenHash })`: the first user holding the hash. */
  function FindByVerifyToken(users: seq<User>, hash: string): (r: Option<User>)
    reads users
    ensures r.Some? ==> r.value in users && r.value.verifyTokenHash == Some(hash)
    ensures r.None? ==> forall u :: u in users ==> u.verifyTokenHash != Some(hash)
  {
    if users == [] then None
    else if users[0].verifyTokenHash == Some(hash) then Some(users[0])
    else FindByVerifyToken(users[1..], hash)
  }

  /** `User.findById(id)`. */
  function FindById(users: seq<User>, id: string): (r: Option<User>)
    reads users
    ensures r.Some? ==> r.value in users && r.value.id == id
    ensures r.None? ==> forall u :: u in users ==> u.id != id
  {
    if users == [] then None
    else if users[0].id == id then Some(users[0])
    else FindById(users[1..], id)
  }

  /** The address a query looks for: Mongoose casts a filter value through the
      schema's setters, and the `email` path is declared `lowercase` and `trim`. */
  function EmailKey(email: string): string {
    Trim(ToLower(email))
  }

  /** A cast address is lower-case, trimmed, and no longer than the one given. */
  lemma EmailKeyNormal(email: string)
    ensures var k := EmailKey(email); k == ToLower(k) && Trim(k) == k && |k| <= |email|
  {
    ToLowerTrim(email);
    TrimIdempotent(ToLower(email));
    ToLowerIdempotent(Trim(email));
  }

  /** Casting an address that is already cast changes nothing. */
  lemma EmailKeyIdempotent(email: string)
    ensures EmailKey(EmailKey(email)) == EmailKey(email)
  {
    EmailKeyNormal(email);
    var k := EmailKey(email);
    assert ToLower(k) == k;
  }

  /** The first user whose stored address is `key`. */
  function FindStoredEmail(users: seq<User>, key: string): (r: Option<User>)
    reads users
    ensures r.Some? ==> r.value in users && r.value.email == key
    ensures r.None? ==> forall u :: u in users ==> u.email != key
  {
    if users == [] then None
    else if users[0].email == key then Some(users[0])
    else FindStoredEmail(users[1..], key)
  }

  /** `User.findByEmail(email)`, that is `findOne({ email })`: the first user whose
      stored address is the given one lower-cased and trimmed. */
  function FindByEmail(users: seq<User>, email: string): (r: Option<User>)
    reads users
    ensures r.Some? ==> r.value in users && r.value.email == EmailKey(email)
    ensures r.None? ==> forall u :: u in users ==> u.email != EmailKey(email)
  {
    FindStoredEmail(users, EmailKey(email))
  }

  /** An address found lower-cased and trimmed is found as typed, and the other way
      round: letter case and surrounding whitespace do not matter to the lookup. */
  lemma FindByEmailIgnoresSpelling(users: seq<User>, email: string)
    ensures FindByEmail(users, email) == FindByEmail(users, Trim(ToLower(email)))
    ensures FindByEmail(users, email) == FindByEmail(users, ToLower(email))
  {
    EmailKeyIdempotent(email);
    ToLowerIdempotent(email);
  }
}
