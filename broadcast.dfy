/**
 * The administrators' broadcast endpoint: a message is sent to a list of
 * recipients only when every recipient's number belongs to a member who
 * agreed to marketing messages at sign-up or to a consultation applicant who
 * agreed to them. Recipients are cleaned, de-duplicated by phone number
 * (the first entry for a number wins), and checked against the consenting
 * numbers before anything is sent.
 */
module Broadcast {
  import opened Optional
  import opened JsText
  import opened JsCore

  const MaxMessageLength := 1000

  /** A cleaned recipient: the digits of the phone and the trimmed name. */
  datatype Recipient = Recipient(phone: string, name: string)

  /** `{ phone: digits of a string phone, else '', name: trimmed string name, else '' }`;
      `item` is one entry of `body.phones`. */
  function Clean(item: JsValue): (r: Recipient)
    ensures AllDigits(r.phone)
  {
    var phone := Get(item, "phone");
    var name := Get(item, "name");
    Recipient(if phone.Str? then DigitsOf(phone.s) else "", if name.Str? then Trim(name.s) else "")
  }

  /** The `filter`: an entry is kept when its phone has a digit and its name is not blank. */
  predicate Kept(c: Recipient) {
    c.phone != "" && c.name != ""
  }

  /** The `map` over the entries. */
  function CleanAll(items: seq<JsValue>): (r: seq<Recipient>)
    ensures |r| == |items|
    ensures forall k :: 0 <= k < |r| ==> r[k] == Clean(items[k])
  {
    seq(|items|, k requires 0 <= k < |items| => Clean(items[k]))
  }

  /** The `filter`, in input order. */
  function KeepValid(cs: seq<Recipient>): (r: seq<Recipient>)
    ensures forall k :: 0 <= k < |r| ==> Kept(r[k]) && r[k] in cs
    ensures |r| <= |cs|
  {
    if cs == [] then []
    else
      var rest := KeepValid(cs[1..]);
      if Kept(cs[0]) then [cs[0]] + rest else rest
  }

  /** The `map` then `filter` over the entries: entries whose phone has no digit or
      whose name is blank are dropped. */
  function CleanRecipients(items: seq<JsValue>): (r: seq<Recipient>)
    ensures forall k :: 0 <= k < |r| ==> Kept(r[k]) && AllDigits(r[k].phone)
  {
    var r := KeepValid(CleanAll(items));
    assert forall k :: 0 <= k < |r| ==> AllDigits(r[k].phone) by {
      forall k | 0 <= k < |r| ensures AllDigits(r[k].phone) {
        var j :| 0 <= j < |items| && CleanAll(items)[j] == r[k];
      }
    }
    r
  }

  /** Every entry with a digit in its string phone and a non-blank string name is
      kept. */
  lemma {:induction false} KeepValidKeeps(cs: seq<Recipient>, i: nat)
    requires i < |cs| && Kept(cs[i])
    ensures cs[i] in KeepValid(cs)
  {
    if i > 0 {
      assert cs[1..][i - 1] == cs[i];
      KeepValidKeeps(cs[1..], i - 1);
    }
  }

  lemma CleanKeepsValid(items: seq<JsValue>, i: nat)
    requires i < |items|
    requires Kept(Clean(items[i]))
    ensures Clean(items[i]) in CleanRecipients(items)
  {
    KeepValidKeeps(CleanAll(items), i);
  }

  /** The phone numbers in a list of recipients. */
  function Phones(s: seq<Recipient>): set<string> {
    set k | 0 <= k < |s| :: s[k].phone
  }

  /** The first recipient for each phone, in input order (the specification of the
      de-duplication loop). */
  function FirstPerPhone(s: seq<Recipient>): (r: seq<Recipient>)
    ensures Phones(r) == Phones(s)
    ensures |r| <= |s|
  {
    if s == [] then []
    else
      var init := FirstPerPhone(s[..|s| - 1]);
      var last := s[|s| - 1];
      assert Phones(s) == Phones(s[..|s| - 1]) + {last.phone} by {
        assert forall k :: 0 <= k < |s| - 1 ==> s[..|s| - 1][k] == s[k];
      }
      if last.phone in Phones(s[..|s| - 1]) then init
      else
        assert Phones(init + [last]) == Phones(init) + {last.phone} by {
          assert forall k :: 0 <= k < |init| ==> (init + [last])[k] == init[k];
          assert (init + [last])[|init|] == last;
        }
        init + [last]
  }

  /** No two recipients share a phone. */
  predicate DistinctPhones(s: seq<Recipient>) {
    forall i, j :: 0 <= i < j < |s| ==> s[i].phone != s[j].phone
  }

  /** The position of the first recipient with phone `p`. */
  function FirstIndex(s: seq<Recipient>, p: string): (i: nat)
    requires p in Phones(s)
    ensures i < |s| && s[i].phone == p
    ensures forall j :: 0 <= j < i ==> s[j].phone != p
  {
    if s[0].phone == p then 0
    else
      assert p in Phones(s[1..]) by {
        var k :| 0 <= k < |s| && s[k].phone == p;
        assert s[1..][k - 1] == s[k];
      }
      1 + FirstIndex(s[1..], p)
  }

  /** The de-duplicated list has distinct phones, each recipient is the first one
      given for its phone, and they come in the order of those first occurrences. */
  lemma FirstPerPhoneIsFirst(s: seq<Recipient>)
    ensures var r := FirstPerPhone(s);
      DistinctPhones(r)
      && (forall k :: 0 <= k < |r| ==> r[k] == s[FirstIndex(s, r[k].phone)])
      && (forall k1, k2 :: 0 <= k1 < k2 < |r| ==> FirstIndex(s, r[k1].phone) < FirstIndex(s, r[k2].phone))
  {
    FirstPerPhoneDistinct(s);
    FirstPerPhoneFirst(s);
    FirstPerPhoneOrdered(s);
  }

  lemma {:induction false} FirstPerPhoneDistinct(s: seq<Recipient>)
    ensures DistinctPhones(FirstPerPhone(s))
  {
    if s != [] {
      var init := s[..|s| - 1];
      var last := s[|s| - 1];
      FirstPerPhoneDistinct(init);
      var r0 := FirstPerPhone(init);
      if last.phone !in Phones(init) {
        var r := r0 + [last];
        forall i, j | 0 <= i < j < |r|
          ensures r[i].phone != r[j].phone
        {
          if j == |r0| {
            assert r[i] == r0[i] && r0[i].phone in Phones(r0);
          } else {
            assert r[i] == r0[i] && r[j] == r0[j];
          }
        }
      }
    }
  }

  /** The last recipient, when its phone is new, is the first with that phone. */
  lemma LastIsFirst(s: seq<Recipient>)
    requires s != [] && s[|s| - 1].phone !in Phones(s[..|s| - 1])
    ensures s[|s| - 1].phone in Phones(s) && FirstIndex(s, s[|s| - 1].phone) == |s| - 1
  {
    var init := s[..|s| - 1];
    assert forall j :: 0 <= j < |s| - 1 ==> s[j] == init[j];
    assert s[|s| - 1].phone in Phones(s);
  }

  lemma {:induction false} FirstPerPhoneFirst(s: seq<Recipient>)
    ensures forall k :: 0 <= k < |FirstPerPhone(s)| ==> FirstPerPhone(s)[k] == s[FirstIndex(s, FirstPerPhone(s)[k].phone)]
  {
    if s != [] {
      var init := s[..|s| - 1];
      var last := s[|s| - 1];
      FirstPerPhoneFirst(init);
      var r0 := FirstPerPhone(init);
      var r := FirstPerPhone(s);
      var grows := last.phone !in Phones(init);
      assert r == if grows then r0 + [last] else r0;
      forall k | 0 <= k < |r|
        ensures r[k] == s[FirstIndex(s, r[k].phone)]
      {
        if k < |r0| {
          var p := r0[k].phone;
          assert r[k] == r0[k] && p in Phones(r0);
          assert r0[k] == init[FirstIndex(init, p)];
          FirstIndexPrefix(s, init, p);
          assert s[FirstIndex(init, p)] == init[FirstIndex(init, p)];
        } else {
          assert grows && r[k] == last;
          LastIsFirst(s);
        }
      }
    }
  }

  lemma {:induction false} FirstPerPhoneOrdered(s: seq<Recipient>)
    ensures forall k1, k2 :: 0 <= k1 < k2 < |FirstPerPhone(s)| ==>
      FirstIndex(s, FirstPerPhone(s)[k1].phone) < FirstIndex(s, FirstPerPhone(s)[k2].phone)
  {
    if s != [] {
      var init := s[..|s| - 1];
      var last := s[|s| - 1];
      FirstPerPhoneOrdered(init);
      var r0 := FirstPerPhone(init);
      var r := FirstPerPhone(s);
      var grows := last.phone !in Phones(init);
      assert r == if grows then r0 + [last] else r0;
      forall k1, k2 | 0 <= k1 < k2 < |r|
        ensures FirstIndex(s, r[k1].phone) < FirstIndex(s, r[k2].phone)
      {
        var p1 := r0[k1].phone;
        assert r[k1] == r0[k1] && p1 in Phones(r0);
        FirstIndexPrefix(s, init, p1);
        if k2 < |r0| {
          var p2 := r0[k2].phone;
          assert r[k2] == r0[k2] && p2 in Phones(r0);
          FirstIndexPrefix(s, init, p2);
          assert FirstIndex(init, p1) < FirstIndex(init, p2);
        } else {
          assert grows && r[k2] == last;
          LastIsFirst(s);
          assert FirstIndex(init, p1) < |init|;
        }
      }
    }
  }

  /** In a prefix that already holds phone `p`, its first position is the same. */
  lemma FirstIndexPrefix(s: seq<Recipient>, init: seq<Recipient>, p: string)
    requires |init| <= |s| && init == s[..|init|]
    requires p in Phones(init)
    ensures p in Phones(s) && FirstIndex(s, p) == FirstIndex(init, p)
  {
    var i := FirstIndex(init, p);
    assert s[i] == init[i];
    assert p in Phones(s);
    assert forall k :: 0 <= k < |init| ==> s[k] == init[k];
  }

  /** The de-duplication loop: a set of phones seen and the list of first recipients. */
  method Dedupe(phones: seq<Recipient>) returns (unique: set<string>, deduped: seq<Recipient>)
    ensures unique == Phones(phones)
    ensures deduped == FirstPerPhone(phones)
  {
    unique := {};
    deduped := [];
    for i := 0 to |phones|
      invariant unique == Phones(phones[..i])
      invariant deduped == FirstPerPhone(phones[..i])
    {
      var item := phones[i];
      assert phones[..i + 1][..i] == phones[..i];
      assert Phones(phones[..i + 1]) == Phones(phones[..i]) + {item.phone} by {
        assert forall k :: 0 <= k < i ==> phones[..i + 1][k] == phones[..i][k];
      }
      if item.phone in unique {
        continue;
      }
      unique := unique + {item.phone};
      deduped := deduped + [item];
    }
    assert phones[..|phones|] == phones;
  }

  // ---------------------------------------------------------------- consent

  /** A member as the consent query sees it: the role, the stored phone and whether
      a marketing consent is recorded. */
  datatype Member = Member(role: string, phone: Option<string>, marketingConsent: bool)

  /** A consultation application as the consent query sees it. */
  datatype Application = Application(status: string, phone: Option<string>, marketingConsent: bool)

  predicate MemberConsents(m: Member, unique: set<string>) {
    (m.role == "student" || m.role == "teacher") && m.marketingConsent
    && m.phone.Some? && m.phone.value in unique
  }

  predicate ApplicationConsents(a: Application, unique: set<string>) {
    a.status != "cancelled" && a.marketingConsent && a.phone.Some? && a.phone.value in unique
  }

  /** The phone fields the two queries return: consenting students and teachers, and
      consenting applications that are not cancelled, whose phone is one of the
      recipients' numbers. */
  function MemberPhones(members: seq<Member>, unique: set<string>): (r: seq<Option<string>>)
    ensures forall k :: 0 <= k < |r| ==> r[k].Some? && r[k].value in unique
    ensures forall m :: m in members && MemberConsents(m, unique) ==> m.phone in r
  {
    if members == [] then []
    else
      var rest := MemberPhones(members[1..], unique);
      assert forall m :: m in members[1..] ==> m in members;
      assert forall m :: m in members ==> m == members[0] || m in members[1..];
      if MemberConsents(members[0], unique) then [members[0].phone] + rest else rest
  }

  function ApplicationPhones(apps: seq<Application>, unique: set<string>): (r: seq<Option<string>>)
    ensures forall k :: 0 <= k < |r| ==> r[k].Some? && r[k].value in unique
    ensures forall a :: a in apps && ApplicationConsents(a, unique) ==> a.phone in r
  {
    if apps == [] then []
    else
      var rest := ApplicationPhones(apps[1..], unique);
      assert forall a :: a in apps ==> a == apps[0] || a in apps[1..];
      if ApplicationConsents(apps[0], unique) then [apps[0].phone] + rest else rest
  }

  /** The non-empty digit strings of the string phones in `s`. */
  function DigitPhones(s: seq<Option<string>>): set<string> {
    set k | 0 <= k < |s| && s[k].Some? && DigitsOf(s[k].value) != "" :: DigitsOf(s[k].value)
  }

  /** The digits the loop adds for one returned phone, if any. */
  function DigitPhone(p: Option<string>): set<string> {
    if p.Some? && DigitsOf(p.value) != "" then {DigitsOf(p.value)} else {}
  }

  lemma DigitPhonesStep(s: seq<Option<string>>, i: nat)
    requires i < |s|
    ensures DigitPhones(s[..i + 1]) == DigitPhones(s[..i]) + DigitPhone(s[i])
  {
    assert forall k :: 0 <= k < i ==> s[..i + 1][k] == s[..i][k];
    assert s[..i + 1][i] == s[i];
  }

  /** One loop over the phones a query returned: the non-empty digits of each are
      added to `allowed`. */
  method AddDigitPhones(allowed: set<string>, phones: seq<Option<string>>) returns (r: set<string>)
    ensures r == allowed + DigitPhones(phones)
  {
    r := allowed;
    for i := 0 to |phones|
      invariant r == allowed + DigitPhones(phones[..i])
    {
      DigitPhonesStep(phones, i);
      var phone := if phones[i].Some? then DigitsOf(phones[i].value) else "";
      if phone != "" {
        r := r + {phone};
      }
    }
    assert phones[..|phones|] == phones;
  }

  /** The two loops that fill `allowedPhoneSet`. */
  method AllowedPhones(userPhones: seq<Option<string>>, consultationPhones: seq<Option<string>>)
    returns (allowed: set<string>)
    ensures allowed == DigitPhones(userPhones) + DigitPhones(consultationPhones)
  {
    allowed := AddDigitPhones({}, userPhones);
    allowed := AddDigitPhones(allowed, consultationPhones);
  }

  /** A recipient's number is allowed exactly when a consenting student or teacher,
      or a consenting application that is not cancelled, has that number: the
      queries return only such numbers, and their digits are the numbers themselves. */
  lemma AllowedIff(members: seq<Member>, apps: seq<Application>, unique: set<string>, p: string)
    requires forall q :: q in unique ==> q != "" && AllDigits(q)
    requires p in unique
    ensures p in DigitPhones(MemberPhones(members, unique)) + DigitPhones(ApplicationPhones(apps, unique)) <==>
      (exists m :: m in members && MemberConsents(m, unique) && m.phone == Some(p))
      || (exists a :: a in apps && ApplicationConsents(a, unique) && a.phone == Some(p))
  {
    var mp := MemberPhones(members, unique);
    var ap := ApplicationPhones(apps, unique);
    forall q | q in unique
      ensures DigitsOf(q) == q
    {
      DigitsOfAllDigits(q);
    }
    if p in DigitPhones(mp) {
      var k :| 0 <= k < |mp| && mp[k].Some? && DigitsOf(mp[k].value) == p;
      MemberPhoneSource(members, unique, k);
    }
    if p in DigitPhones(ap) {
      var k :| 0 <= k < |ap| && ap[k].Some? && DigitsOf(ap[k].value) == p;
      ApplicationPhoneSource(apps, unique, k);
    }
    if exists m :: m in members && MemberConsents(m, unique) && m.phone == Some(p) {
      var m :| m in members && MemberConsents(m, unique) && m.phone == Some(p);
      var k :| 0 <= k < |mp| && mp[k] == m.phone;
      assert DigitsOf(mp[k].value) == p;
    }
    if exists a :: a in apps && ApplicationConsents(a, unique) && a.phone == Some(p) {
      var a :| a in apps && ApplicationConsents(a, unique) && a.phone == Some(p);
      var k :| 0 <= k < |ap| && ap[k] == a.phone;
      assert DigitsOf(ap[k].value) == p;
    }
  }

  lemma {:induction false} MemberPhoneSource(members: seq<Member>, unique: set<string>, k: nat)
    requires k < |MemberPhones(members, unique)|
    ensures exists m :: m in members && MemberConsents(m, unique) && m.phone == MemberPhones(members, unique)[k]
  {
    var rest := MemberPhones(members[1..], unique);
    if MemberConsents(members[0], unique) && k == 0 {
      assert members[0] in members;
    } else {
      var k' := if MemberConsents(members[0], unique) then k - 1 else k;
      MemberPhoneSource(members[1..], unique, k');
      var m :| m in members[1..] && MemberConsents(m, unique) && m.phone == rest[k'];
      assert m in members;
    }
  }

  lemma {:induction false} ApplicationPhoneSource(apps: seq<Application>, unique: set<string>, k: nat)
    requires k < |ApplicationPhones(apps, unique)|
    ensures exists a :: a in apps && ApplicationConsents(a, unique) && a.phone == ApplicationPhones(apps, unique)[k]
  {
    var rest := ApplicationPhones(apps[1..], unique);
    if ApplicationConsents(apps[0], unique) && k == 0 {
      assert apps[0] in apps;
    } else {
      var k' := if ApplicationConsents(apps[0], unique) then k - 1 else k;
      ApplicationPhoneSource(apps[1..], unique, k');
      var a :| a in apps[1..] && ApplicationConsents(a, unique) && a.phone == rest[k'];
      assert a in apps;
    }
  }

  // ---------------------------------------------------------------- the endpoint

  datatype Outcome =
    | Forbidden
    | BadBody
    | NoRecipients
    | MessageMissing
    | MessageTooLong
    | Blocked(phones: seq<string>)
    | Sent(recipients: seq<Recipient>, message: string)
    | Crashed

  /** `(body.message as string || '').trim()`: `None` when a truthy value that is not
      a string reaches `trim`, which throws. */
  function MessageOf(message: JsValue): Option<string> {
    if !Truthy(message) then Some("")
    else if message.Str? then Some(Trim(message.s))
    else None
  }

  /** The entries of `body.phones` when it is an array. */
  function EntriesOf(phones: JsValue): seq<JsValue> {
    if phones.Arr? then phones.items else []
  }

  /** Reading `item.phone` of a `null` entry throws. */
  predicate HasNullEntry(items: seq<JsValue>) {
    exists k :: 0 <= k < |items| && (items[k].Null? || items[k].Undefined?)
  }

  /**
   * The answer for an administrator's parsed body: a null entry or a truthy message
   * that is not text throws; otherwise no recipients, then an empty message, then
   * one over 1000 characters are refused in that order; otherwise the message goes
   * to the de-duplicated recipients exactly when every phone is allowed, and is
   * blocked, naming phones that are not allowed, when one is not.
   */
  ghost predicate Answers(phones: JsValue, message: JsValue, members: seq<Member>, apps: seq<Application>, r: Outcome) {
    && (HasNullEntry(EntriesOf(phones)) || MessageOf(message).None? <==> r.Crashed?)
    && (!r.Crashed? ==>
      var rs := CleanRecipients(EntriesOf(phones));
      var text := MessageOf(message).value;
      (r.NoRecipients? <==> rs == [])
      && (r.MessageMissing? <==> rs != [] && text == "")
      && (r.MessageTooLong? <==> rs != [] && text != "" && |text| > MaxMessageLength)
      && (r.Sent? ==>
            r.recipients == FirstPerPhone(rs) && r.message == text
            && 0 < |text| <= MaxMessageLength))
    && (r.Sent? || r.Blocked? ==>
      var rs := CleanRecipients(EntriesOf(phones));
      var allowed := DigitPhones(MemberPhones(members, Phones(rs))) + DigitPhones(ApplicationPhones(apps, Phones(rs)));
      (r.Sent? <==> Phones(rs) <= allowed)
      && (r.Blocked? ==> r.phones != [] && forall k :: 0 <= k < |r.phones| ==> r.phones[k] in Phones(rs) - allowed))
  }

  /** `POST /api/broadcast`: `role` is the session's role (`None` without a session),
      `members` and `apps` the stored members and applications the two consent
      queries run over. Reading a field of a `null` body throws. */
  method Post(role: Option<string>, body: Body, members: seq<Member>, apps: seq<Application>) returns (r: Outcome)
    ensures r == Forbidden <==> role != Some("admin")
    ensures r == BadBody <==> role == Some("admin") && body.NotJson?
    ensures role == Some("admin") && body.Json? && body.value.Null? ==> r == Crashed
    ensures role == Some("admin") && body.Json? && !body.value.Null? ==>
      Answers(Get(body.value, "phones"), Get(body.value, "message"), members, apps, r)
  {
    if role != Some("admin") {
      return Forbidden;
    }
    if body.NotJson? {
      return BadBody;
    }
    if body.value.Null? {
      return Crashed;
    }
    r := Send(Get(body.value, "phones"), Get(body.value, "message"), members, apps);
  }

  /** The handler past its session and body checks. */
  method Send(phones: JsValue, message: JsValue, members: seq<Member>, apps: seq<Application>)
    returns (r: Outcome)
    ensures Answers(phones, message, members, apps, r)
    ensures r != Forbidden && r != BadBody
  {
    var items := EntriesOf(phones);
    if HasNullEntry(items) || MessageOf(message).None? {
      return Crashed;
    }
    var cleaned := CleanRecipients(items);
    var text := MessageOf(message).value;
    if cleaned == [] {
      return NoRecipients;
    }
    if text == "" {
      return MessageMissing;
    }
    if |text| > MaxMessageLength {
      return MessageTooLong;
    }
    var unique, deduped := Dedupe(cleaned);
    var allowed := AllowedPhones(MemberPhones(members, unique), ApplicationPhones(apps, unique));
    var blocked := Blocked(unique, allowed);
    if blocked != [] {
      return Outcome.Blocked(blocked);
    }
    return Sent(deduped, text);
  }

  /** `Array.from(uniquePhoneSet).filter((phone) => !allowedPhoneSet.has(phone))`,
      in some order of the set. */
  method Blocked(unique: set<string>, allowed: set<string>) returns (blocked: seq<string>)
    ensures (blocked == []) <==> unique <= allowed
    ensures forall k :: 0 <= k < |blocked| ==> blocked[k] in unique - allowed
  {
    blocked := [];
    var rest := unique;
    while rest != {}
      invariant rest <= unique
      invariant forall k :: 0 <= k < |blocked| ==> blocked[k] in unique - allowed
      invariant (blocked == []) <==> unique - rest <= allowed
      decreases |rest|
    {
      var p :| p in rest;
      if p !in allowed {
        blocked := blocked + [p];
      }
      rest := rest - {p};
    }
  }

  /** So nothing is sent to a number that no consenting member or application holds. */
  lemma SentOnlyToConsenting(phones: JsValue, message: JsValue, members: seq<Member>, apps: seq<Application>,
                             recipients: seq<Recipient>, p: string)
    requires forall k :: 0 <= k < |recipients| ==> recipients[k].phone != "" && AllDigits(recipients[k].phone)
    requires Phones(recipients) <= DigitPhones(MemberPhones(members, Phones(recipients)))
                                  + DigitPhones(ApplicationPhones(apps, Phones(recipients)))
    requires p in Phones(FirstPerPhone(recipients))
    ensures (exists m :: m in members && MemberConsents(m, Phones(recipients)) && m.phone == Some(p))
         || (exists a :: a in apps && ApplicationConsents(a, Phones(recipients)) && a.phone == Some(p))
  {
    AllowedIff(members, apps, Phones(recipients), p);
  }
}
