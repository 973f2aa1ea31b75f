/**
 * The consultation endpoint: anyone may apply for a consultation (name, a
 * mobile number and one of four consultation types), and administrators list
 * the applications filtered by type, status and a search text, 30 to a page.
 */
module Consult {
  import opened Optional
  import opened JsText
  import opened MobilePhone
  import opened JsCore
  import Paging

  datatype ConsultationType = Admission | Consulting | Coaching | TeacherDesign

  function TypeName(t: ConsultationType): string {
    match t
    case Admission => "admission"
    case Consulting => "consulting"
    case Coaching => "coaching"
    case TeacherDesign => "teacher"
  }

  /** `CONSULTATION_TYPES.includes(s)`: the type a text names exactly, if any. */
  function TypeOf(s: string): (t: Option<ConsultationType>)
    ensures t.Some? ==> TypeName(t.value) == s
    ensures t.None? ==> forall k: ConsultationType :: TypeName(k) != s
  {
    if s == "admission" then Some(Admission)
    else if s == "consulting" then Some(Consulting)
    else if s == "coaching" then Some(Coaching)
    else if s == "teacher" then Some(TeacherDesign)
    else None
  }

  /** Every type is named by its own name and by no other. */
  lemma TypeOfName(t: ConsultationType)
    ensures TypeOf(TypeName(t)) == Some(t)
  {
  }

  datatype ConsultationStatus = Pending | Contacted | Scheduled | Completed | Cancelled

  function StatusName(s: ConsultationStatus): string {
    match s
    case Pending => "pending"
    case Contacted => "contacted"
    case Scheduled => "scheduled"
    case Completed => "completed"
    case Cancelled => "cancelled"
  }

  /** `CONSULTATION_STATUSES.includes(s)`. */
  function StatusOf(s: string): (r: Option<ConsultationStatus>)
    ensures r.Some? ==> StatusName(r.value) == s
    ensures r.None? ==> forall k: ConsultationStatus :: StatusName(k) != s
  {
    if s == "pending" then Some(Pending)
    else if s == "contacted" then Some(Contacted)
    else if s == "scheduled" then Some(Scheduled)
    else if s == "completed" then Some(Completed)
    else if s == "cancelled" then Some(Cancelled)
    else None
  }

  /** `(value || '').trim()` on an optional text. */
  function TrimmedOrEmpty(v: Option<string>): (r: string)
    ensures v.None? ==> r == ""
    ensures v.Some? ==> r == Trim(v.value)
  {
    if v.Some? then Trim(v.value) else ""
  }

  /** The free-text fields of an application, each trimmed. */
  datatype Details = Details(
    schoolGrade: string, currentScore: string, targetUniv: string, direction: string,
    gradeLevel: string, subject: string, message: string)

  /** The marketing consent a consultation may carry: when and under which text version. */
  datatype MarketingConsent = MarketingConsent(agreedAt: int, version: string)

  /** The document `Consultation.create` is given; status, schedule and memo take
      their schema defaults. */
  datatype NewConsultation = NewConsultation(
    kind: ConsultationType, name: string, phone: string,
    marketing: Option<MarketingConsent>, details: Details)

  /** `(v as string || '').trim()`: empty text for a falsy value, the trimmed text of
      a string, and `None` for any other truthy value (a number, `true`, an array or
      an object has no `trim`, so the call throws). */
  function TrimmedText(v: JsValue): (r: Option<string>)
    ensures r.None? <==> Truthy(v) && !v.Str?
    ensures v.Str? ==> r == Some(Trim(v.s))
    ensures !Truthy(v) ==> r == Some("")
  {
    if !Truthy(v) then Some("") else if v.Str? then Some(Trim(v.s)) else None
  }

  /** The names of the seven free-text fields of an application. */
  const DetailKeys: seq<string> := ["schoolGrade", "currentScore", "targetUniv", "direction", "gradeLevel", "subject", "message"]

  /** The values `vals`, each read with `TrimmedText`; `None` when reading one of
      them throws. */
  function TrimmedAll(vals: seq<JsValue>): (r: Option<seq<string>>)
    ensures r.Some? <==> forall k :: 0 <= k < |vals| ==> TrimmedText(vals[k]).Some?
    ensures r.Some? ==> (|r.value| == |vals|
      && forall k :: 0 <= k < |vals| ==> r.value[k] == TrimmedText(vals[k]).value)
  {
    if vals == [] then Some([])
    else
      var first := TrimmedText(vals[0]);
      var rest := TrimmedAll(vals[1..]);
      if first.None? then None
      else if rest.None? then
        assert exists k :: 0 <= k < |vals[1..]| && TrimmedText(vals[1..][k]).None?;
        None
      else
        assert forall k :: 1 <= k < |vals| ==> vals[k] == vals[1..][k - 1];
        Some([first.value] + rest.value)
  }

  /** The seven free-text fields of the body, each read with `TrimmedText`; `None`
      when reading one of them throws. */
  function DetailsOf(b: JsValue): (r: Option<Details>)
    ensures r.Some? <==> forall k :: 0 <= k < |DetailKeys| ==> TrimmedText(Get(b, DetailKeys[k])).Some?
    ensures r.Some? ==> (TrimmedText(Get(b, "subject")).Some? && r.value.subject == TrimmedText(Get(b, "subject")).value
      && TrimmedText(Get(b, "message")).Some? && r.value.message == TrimmedText(Get(b, "message")).value)
  {
    var vals := seq(|DetailKeys|, k requires 0 <= k < |DetailKeys| => Get(b, DetailKeys[k]));
    assert |vals| == 7 && forall k :: 0 <= k < |DetailKeys| ==> vals[k] == Get(b, DetailKeys[k]);
    match TrimmedAll(vals)
    case None => None
    case Some(t) =>
      assert vals[5] == Get(b, "subject") && vals[6] == Get(b, "message");
      Some(Details(t[0], t[1], t[2], t[3], t[4], t[5], t[6]))
  }

  datatype ConsultError = MissingFields | BadPhone | BadType

  /** The answer of the POST: 400 for a body that is not JSON and for each refusal,
      500 for an error thrown while reading the body, 201 with the new record. */
  datatype ConsultOutcome = BadJson | Crashed | Rejected(error: ConsultError) | Created(consultation: NewConsultation)

  function OutcomeStatus(o: ConsultOutcome): int {
    match o
    case BadJson => 400
    case Crashed => 500
    case Rejected(_) => 400
    case Created(_) => 201
  }

  /** `POST /api/consult`: name, phone and type are required, the digits of the
      phone must form a mobile number, and the type must be one of the four; the
      phone is stored as its digits. A `null` body, or a truthy name, phone or
      detail field that is not text, throws. */
  function Apply(body: Body): ConsultOutcome {
    if body.NotJson? then BadJson
    else if body.value.Null? then Crashed
    else
      var b := body.value;
      Screen(TrimmedText(Get(b, "name")), TrimmedText(Get(b, "phone")), Get(b, "type"), DetailsOf(b))
  }

  /** The checks of `Apply` once the body is read: the name and phone as read by
      `TrimmedText`, the raw type, and the detail fields as read by `DetailsOf`. */
  function Screen(name: Option<string>, phone: Option<string>, kind: JsValue, details: Option<Details>): ConsultOutcome {
    if name.None? || phone.None? then Crashed
    else if name.value == "" || phone.value == "" || !Truthy(kind) then Rejected(MissingFields)
    else
      var digits := DigitsOf(phone.value);
      if !IsMobileNumber(digits) then Rejected(BadPhone)
      else if !kind.Str? || TypeOf(kind.s).None? then Rejected(BadType)
      else match details
        case None => Crashed
        case Some(d) => Created(NewConsultation(TypeOf(kind.s).value, name.value, digits, None, d))
  }

  /** `Screen` creates a record exactly when both texts were readable, the name is
      not blank, the phone's digits form a mobile number, the type names one of the
      four and the details were readable; the record holds exactly those values. */
  lemma ScreenAcceptsIff(name: Option<string>, phone: Option<string>, kind: JsValue, details: Option<Details>)
    ensures Screen(name, phone, kind, details).Created? <==>
      name.Some? && name.value != "" && phone.Some? && IsMobileNumber(DigitsOf(phone.value))
      && kind.Str? && TypeOf(kind.s).Some? && details.Some?
    ensures Screen(name, phone, kind, details).Created? ==>
      Screen(name, phone, kind, details).consultation
        == NewConsultation(TypeOf(kind.s).value, name.value, DigitsOf(phone.value), None, details.value)
      && AllDigits(DigitsOf(phone.value)) && 10 <= |DigitsOf(phone.value)| <= 11
  {
    if phone.Some? && IsMobileNumber(DigitsOf(phone.value)) {
      MobileNumberIsDigits(DigitsOf(phone.value));
      assert phone.value != "";
    }
  }

  /** An application is accepted exactly when the body is a JSON value other than
      `null`, its name is a non-blank text, its phone a text whose digits form a
      mobile number, its type the name of one of the four types, and no detail field
      is a truthy non-text; the record then holds the trimmed name, the digits of
      the phone and that type, and no marketing consent. */
  lemma ApplyAcceptsIff(body: Body)
    ensures Apply(body).Created? <==>
      body.Json? && !body.value.Null?
      && Get(body.value, "name").Str? && Trim(Get(body.value, "name").s) != ""
      && Get(body.value, "phone").Str? && IsMobileNumber(DigitsOf(Trim(Get(body.value, "phone").s)))
      && Get(body.value, "type").Str? && TypeOf(Get(body.value, "type").s).Some?
      && DetailsOf(body.value).Some?
    ensures Apply(body).Created? ==>
      var c := Apply(body).consultation;
      c.name == Trim(Get(body.value, "name").s) && c.name != ""
      && c.phone == DigitsOf(Trim(Get(body.value, "phone").s)) && AllDigits(c.phone) && 10 <= |c.phone| <= 11
      && TypeName(c.kind) == Get(body.value, "type").s && c.marketing.None?
  {
    if body.Json? && !body.value.Null? {
      var b := body.value;
      ScreenAcceptsIff(TrimmedText(Get(b, "name")), TrimmedText(Get(b, "phone")), Get(b, "type"), DetailsOf(b));
    }
  }

  /** The refusals before any check: text that is not JSON answers 400; a `null`
      body, or a truthy name or phone that is not text, answers 500. */
  lemma ApplyBodyFaults(body: Body)
    ensures Apply(body) == BadJson <==> body.NotJson?
    ensures body.Json? && (body.value.Null?
        || (Truthy(Get(body.value, "name")) && !Get(body.value, "name").Str?)
        || (Truthy(Get(body.value, "phone")) && !Get(body.value, "phone").Str?))
      ==> Apply(body) == Crashed && OutcomeStatus(Apply(body)) == 500
  {
  }

  /** The checks run in order: a missing field is reported before a bad phone, and a
      bad phone before a bad type; a type that is truthy but not text is a bad type. */
  lemma ApplyErrorOrder(b: JsValue)
    requires b.Obj?
    requires TrimmedText(Get(b, "name")).Some? && TrimmedText(Get(b, "phone")).Some?
    ensures Apply(Json(b)) == Rejected(MissingFields) <==>
      TrimmedText(Get(b, "name")).value == "" || TrimmedText(Get(b, "phone")).value == "" || !Truthy(Get(b, "type"))
    ensures Apply(Json(b)) == Rejected(BadPhone) ==>
      TrimmedText(Get(b, "name")).value != "" && Truthy(Get(b, "type"))
    ensures Apply(Json(b)) == Rejected(BadType) <==>
      TrimmedText(Get(b, "name")).value != "" && Truthy(Get(b, "type"))
      && IsMobileNumber(DigitsOf(TrimmedText(Get(b, "phone")).value))
      && (!Get(b, "type").Str? || TypeOf(Get(b, "type").s).None?)
  {
    var phone := TrimmedText(Get(b, "phone")).value;
    if IsMobileNumber(DigitsOf(phone)) {
      MobileNumberIsDigits(DigitsOf(phone));
      assert phone != "";
    }
  }

  // ---------------------------------------------------------------- listing

  const ListLimit := 30

  /** The filter of the administrators' list: a type or status parameter applies
      only when it names a real type or status; a non-blank search text searches
      name, phone and message. */
  datatype ListFilter = ListFilter(
    kind: Option<ConsultationType>, status: Option<ConsultationStatus>, search: Option<string>)

  function ListFilterOf(typeParam: Option<string>, statusParam: Option<string>, q: Option<string>): ListFilter {
    var t := Paging.ParamOr(typeParam, "");
    var s := Paging.ParamOr(statusParam, "");
    var query := TrimmedOrEmpty(q);
    ListFilter(TypeOf(t), StatusOf(s), if query == "" then None else Some(query))
  }

  /** The part of a stored application the filter reads. */
  datatype Listed = Listed(kind: ConsultationType, status: ConsultationStatus)

  /** The type and status parts of the filter (the search text is a database regular
      expression and is not modelled). */
  predicate MatchesFilter(f: ListFilter, c: Listed) {
    (f.kind.Some? ==> c.kind == f.kind.value) && (f.status.Some? ==> c.status == f.status.value)
  }

  /** An unknown type or status parameter filters nothing out; a known one keeps
      exactly the applications of that type or status. */
  lemma ListFilterApplies(typeParam: Option<string>, statusParam: Option<string>, q: Option<string>, c: Listed)
    ensures var f := ListFilterOf(typeParam, statusParam, q);
      MatchesFilter(f, c) <==>
        (forall t :: TypeOf(Paging.ParamOr(typeParam, "")) == Some(t) ==> c.kind == t)
        && (forall s :: StatusOf(Paging.ParamOr(statusParam, "")) == Some(s) ==> c.status == s)
    ensures TypeOf(Paging.ParamOr(typeParam, "")).None? && StatusOf(Paging.ParamOr(statusParam, "")).None? ==>
      MatchesFilter(ListFilterOf(typeParam, statusParam, q), c)
  {
  }

  /** The page shown and the page count of a listing with `total` matches. */
  datatype ListPage = ListPage(page: int, totalPage: nat)

  function ListPageOf(pageParam: Option<string>, total: nat): (r: ListPage)
    ensures r.page >= 1
    ensures r.totalPage * ListLimit >= total && (r.totalPage > 0 ==> (r.totalPage - 1) * ListLimit < total)
  {
    ListPage(Paging.Page(pageParam, Paging.Unspecified), Paging.TotalPage(total, ListLimit))
  }

  /** With no radix given, `parseInt` reads `?page=0x10` as page 16. */
  lemma ListPageReadsHex(total: nat)
    ensures ListPageOf(Some("0x10"), total).page == 16
  {
    Paging.PageOfHex();
  }

  /** The answer of the GET: 403 for anyone but an administrator, otherwise the
      filter and the page of a listing with `total` matches. */
  datatype ListAnswer = ListForbidden | Listing(filter: ListFilter, page: ListPage)

  /** `GET /api/consult`. `role` is the session's role, `None` without a session. */
  function List(role: Option<string>, typeParam: Option<string>, statusParam: Option<string>, q: Option<string>,
                pageParam: Option<string>, total: nat): (r: ListAnswer)
    ensures r == ListForbidden <==> role != Some("admin")
    ensures r.Listing? ==> r.page.page >= 1 && r.page.totalPage * ListLimit >= total
  {
    if role != Some("admin") then ListForbidden
    else Listing(ListFilterOf(typeParam, statusParam, q), ListPageOf(pageParam, total))
  }
}
