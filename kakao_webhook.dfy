/**
 * The KakaoTalk channel webhook: the channel's chatbot posts an action and
 * its parameters. Three actions act on an applicant's scheduled consultation
 * (ask for a new time, cancel, confirm); the four `submit_*` application
 * actions create a consultation. Every action taken through the channel
 * records the applicant's consent to marketing messages.
 */
module KakaoWebhook {
  import opened Optional
  import opened JsText
  import Consult

  const ChannelConsentVersion := "2026-02-26-kakao-channel"
  const DefaultChangeRequest := "일정 변경 요청"
  const CancelRequest := "취소 요청"

  // ---------------------------------------------------------------- the request

  /** `body.action`: its name and its parameters, each possibly absent. */
  datatype Action = Action(name: Option<string>, params: Option<map<string, string>>)

  /** The parsed body; `None` when it is not JSON. */
  datatype SkillRequest = SkillRequest(action: Option<Action>)

  /** `body.action?.params || {}`. */
  function ParamsOf(body: SkillRequest): map<string, string> {
    if body.action.Some? && body.action.value.params.Some? then body.action.value.params.value else map[]
  }

  /** `params.key || ''`. */
  function Param(params: map<string, string>, key: string): string {
    if key in params then params[key] else ""
  }

  /** `params.action_type || body.action?.name || ''`: the parameter wins unless it is
      absent or empty, then the action's name, then the empty text. */
  function ActionType(body: SkillRequest): (r: string)
    ensures Param(ParamsOf(body), "action_type") != "" ==> r == Param(ParamsOf(body), "action_type")
    ensures Param(ParamsOf(body), "action_type") == "" && body.action.Some? && body.action.value.name.Some?
            ==> r == body.action.value.name.value
    ensures Param(ParamsOf(body), "action_type") == "" && (body.action.None? || body.action.value.name.None?) ==> r == ""
  {
    var fromParams := Param(ParamsOf(body), "action_type");
    if fromParams != "" then fromParams
    else if body.action.Some? && body.action.value.name.Some? && body.action.value.name.value != "" then body.action.value.name.value
    else ""
  }

  /** `ACTION_TYPE_MAP[actionType]`: the four application actions and their types. */
  function ApplicationType(actionType: string): (t: Option<Consult.ConsultationType>)
    ensures t.Some? <==> actionType in {"submit_admission", "submit_consulting", "submit_coaching", "submit_teacher"}
    ensures t.Some? ==> actionType == "submit_" + Consult.TypeName(t.value)
  {
    if actionType == "submit_admission" then Some(Consult.Admission)
    else if actionType == "submit_consulting" then Some(Consult.Consulting)
    else if actionType == "submit_coaching" then Some(Consult.Coaching)
    else if actionType == "submit_teacher" then Some(Consult.TeacherDesign)
    else None
  }

  /** The three actions on a scheduled consultation. */
  datatype ScheduledAction = ScheduleChange | Cancel | Confirm

  function ScheduledActionOf(actionType: string): Option<ScheduledAction> {
    if actionType == "submit_schedule_change" then Some(ScheduleChange)
    else if actionType == "submit_cancel" then Some(Cancel)
    else if actionType == "submit_schedule_confirm" then Some(Confirm)
    else None
  }

  /** No action name is both an application and an action on a scheduled
      consultation, so the handler's order of tests does not matter. */
  lemma ActionKindsDisjoint(actionType: string)
    ensures !(ApplicationType(actionType).Some? && ScheduledActionOf(actionType).Some?)
  {
  }

  // ---------------------------------------------------------------- request texts

  /** `message || '일정 변경 요청'`. */
  function ChangeRequestText(message: string): (r: string)
    ensures r != ""
    ensures message != "" ==> r == message
  {
    if message != "" then message else DefaultChangeRequest
  }

  /** `reason ? '취소 요청: ' + reason : '취소 요청'`. */
  function CancelRequestText(reason: string): (r: string)
    ensures StartsWith(r, CancelRequest)
    ensures reason == "" <==> r == CancelRequest
  {
    if reason != "" then CancelRequest + ": " + reason else CancelRequest
  }

  /** The reason can be read back from a cancellation request. */
  lemma CancelReasonReadBack(reason: string)
    requires reason != ""
    ensures var r := CancelRequestText(reason);
      |r| == |CancelRequest| + 2 + |reason| && r[|CancelRequest| + 2..] == reason
  {
  }

  // ---------------------------------------------------------------- phone lookup

  /** `phone.replace(/-/g, '')`. */
  function RemoveHyphens(s: string): (r: string)
    ensures forall i :: 0 <= i < |r| ==> r[i] != '-'
    ensures |r| <= |s|
  {
    if s == [] then ""
    else if s[0] == '-' then RemoveHyphens(s[1..])
    else [s[0]] + RemoveHyphens(s[1..])
  }

  /** A text without hyphens is its own cleaned form, so cleaning twice is cleaning once. */
  lemma {:induction false} RemoveHyphensNoHyphen(s: string)
    requires forall i :: 0 <= i < |s| ==> s[i] != '-'
    ensures RemoveHyphens(s) == s
  {
    if s != [] {
      RemoveHyphensNoHyphen(s[1..]);
    }
  }

  /** The fields the lookup reads of a stored consultation. */
  datatype Key = Key(name: string, phone: string, status: Consult.ConsultationStatus, updatedAt: int)

  predicate Matches(k: Key, name: string, phone: string) {
    k.name == name && k.phone == phone && k.status == Consult.Scheduled
  }

  /** `findOne({ name, phone, status: 'scheduled' }).sort({ updatedAt: -1 })`: the most
      recently updated match (among equally recent ones, the first stored). */
  function Latest(keys: seq<Key>, name: string, phone: string): (r: Option<nat>)
    ensures r.Some? ==> r.value < |keys| && Matches(keys[r.value], name, phone)
    ensures r.Some? ==> forall j :: 0 <= j < |keys| && Matches(keys[j], name, phone) ==> keys[j].updatedAt <= keys[r.value].updatedAt
    ensures r.None? <==> forall j :: 0 <= j < |keys| ==> !Matches(keys[j], name, phone)
  {
    if keys == [] then None
    else
      var n := |keys| - 1;
      var init := keys[..n];
      var r := Latest(init, name, phone);
      assert forall j :: 0 <= j < n ==> keys[j] == init[j];
      if Matches(keys[n], name, phone) && (r.None? || keys[r.value].updatedAt < keys[n].updatedAt) then Some(n)
      else r
  }

  /** `findScheduledConsultation`: first with the phone's hyphens removed, then with
      the phone as given. */
  function FindScheduled(keys: seq<Key>, name: string, phone: string): Option<nat> {
    var cleaned := Latest(keys, name, RemoveHyphens(phone));
    if cleaned.Some? then cleaned else Latest(keys, name, phone)
  }

  /** The lookup finds a scheduled consultation of that name exactly when one is stored
      under the cleaned or the given phone; one under the cleaned phone is preferred,
      and the one found is the most recently updated under its phone. */
  lemma FindScheduledIff(keys: seq<Key>, name: string, phone: string)
    ensures var r := FindScheduled(keys, name, phone);
      (r.None? <==> forall j :: 0 <= j < |keys| ==> !Matches(keys[j], name, RemoveHyphens(phone)) && !Matches(keys[j], name, phone))
      && (r.Some? ==> r.value < |keys| && keys[r.value].name == name && keys[r.value].status == Consult.Scheduled)
      && ((exists j :: 0 <= j < |keys| && Matches(keys[j], name, RemoveHyphens(phone)))
            ==> r.Some? && keys[r.value].phone == RemoveHyphens(phone))
      && (r.Some? ==> forall j :: 0 <= j < |keys| && Matches(keys[j], name, keys[r.value].phone) ==> keys[j].updatedAt <= keys[r.value].updatedAt)
  {
  }

  // ---------------------------------------------------------------- consultations

  /** The channel marketing consent fields of a consultation. */
  datatype ChannelConsent = ChannelConsent(given: bool, at: Option<int>, version: Option<string>)

  /** `markChannelMarketingConsent`: consent is set; the time and version are filled
      only when missing (an empty version counts as missing). */
  function Marked(c: ChannelConsent, now: int): (r: ChannelConsent)
    ensures r.given && r.at.Some? && r.version.Some? && r.version.value != ""
    ensures c.at.Some? ==> r.at == c.at
    ensures c.version.Some? && c.version.value != "" ==> r.version == c.version
  {
    ChannelConsent(
      true,
      if c.at.None? then Some(now) else c.at,
      if c.version.None? || c.version.value == "" then Some(ChannelConsentVersion) else c.version)
  }

  /** Marking again changes nothing: the first consent's time and version stay. */
  lemma MarkedIdempotent(c: ChannelConsent, t1: int, t2: int)
    ensures Marked(Marked(c, t1), t2) == Marked(c, t1)
  {
  }

  /** The change request an action leaves on the consultation. */
  function RequestAfter(action: ScheduledAction, message: string, previous: string): string {
    match action
    case ScheduleChange => ChangeRequestText(message)
    case Cancel => CancelRequestText(message)
    case Confirm => previous
  }

  /** A stored consultation as the webhook reads and changes it. */
  class Consultation {
    var name: string
    var phone: string
    var status: Consult.ConsultationStatus
    var consent: ChannelConsent
    var scheduledDate: string
    var scheduledTime: string
    var scheduleChangeRequest: string
    var scheduleConfirmedAt: Option<int>
    var updatedAt: int

    constructor(name: string, phone: string, status: Consult.ConsultationStatus, updatedAt: int)
      ensures this.name == name && this.phone == phone && this.status == status && this.updatedAt == updatedAt
      ensures consent == ChannelConsent(false, None, None)
      ensures scheduledDate == "" && scheduledTime == "" && scheduleChangeRequest == "" && scheduleConfirmedAt.None?
    {
      this.name := name;
      this.phone := phone;
      this.status := status;
      this.updatedAt := updatedAt;
      consent := ChannelConsent(false, None, None);
      scheduledDate := "";
      scheduledTime := "";
      scheduleChangeRequest := "";
      scheduleConfirmedAt := None;
    }

    function KeyOf(): Key
      reads this
    {
      Key(name, phone, status, updatedAt)
    }

    method MarkChannelMarketingConsent(now: int)
      modifies this
      ensures consent == Marked(old(consent), now)
      ensures name == old(name) && phone == old(phone) && status == old(status) && updatedAt == old(updatedAt)
      ensures scheduledDate == old(scheduledDate) && scheduledTime == old(scheduledTime)
      ensures scheduleChangeRequest == old(scheduleChangeRequest) && scheduleConfirmedAt == old(scheduleConfirmedAt)
    {
      consent := consent.(given := true);
      if consent.at.None? {
        consent := consent.(at := Some(now));
      }
      if consent.version.None? || consent.version.value == "" {
        consent := consent.(version := Some(ChannelConsentVersion));
      }
    }

    /** What each action records on the consultation found: a change request (the
        message, or the default text), a cancellation request, or the confirmation
        time; then the consent is marked and `updatedAt` is set. */
    method Record(action: ScheduledAction, message: string, now: int)
      modifies this
      ensures consent == Marked(old(consent), now) && updatedAt == now
      ensures scheduleChangeRequest == RequestAfter(action, message, old(scheduleChangeRequest))
      ensures scheduleConfirmedAt == if action == Confirm then Some(now) else old(scheduleConfirmedAt)
      ensures name == old(name) && phone == old(phone) && status == old(status)
      ensures scheduledDate == old(scheduledDate) && scheduledTime == old(scheduledTime)
    {
      match action {
        case ScheduleChange => scheduleChangeRequest := ChangeRequestText(message);
        case Cancel => scheduleChangeRequest := CancelRequestText(message);
        case Confirm => scheduleConfirmedAt := Some(now);
      }
      MarkChannelMarketingConsent(now);
      updatedAt := now;
    }
  }

  function KeysOf(docs: seq<Consultation>): (keys: seq<Key>)
    reads docs
    ensures |keys| == |docs|
  {
    if docs == [] then [] else [docs[0].KeyOf()] + KeysOf(docs[1..])
  }

  // ---------------------------------------------------------------- replies

  /** The chatbot's reply (the Korean texts are not modelled beyond their kind). */
  datatype Reply =
    | BadRequest
    | NeedNameAndPhone
    | NotFound(name: string)
    | ChangeReceived(name: string)
    | CancelReceived(name: string)
    | Confirmed(name: string, date: string, time: string)
    | UnknownAction
    | Applied(name: string)

  /** The consultation an application action creates. */
  datatype KakaoApplication = KakaoApplication(
    kind: Consult.ConsultationType, name: string, phone: string,
    consent: ChannelConsent, details: Consult.Details)

  function DetailsOf(params: map<string, string>): Consult.Details {
    Consult.Details(
      Trim(Param(params, "schoolGrade")), Trim(Param(params, "currentScore")), Trim(Param(params, "targetUniv")),
      Trim(Param(params, "direction")), Trim(Param(params, "gradeLevel")), Trim(Param(params, "subject")),
      Trim(Param(params, "message")))
  }

  /** An application action: unknown actions are refused; the trimmed name and the
      digits of the trimmed phone are required; the consultation is created with the
      channel consent given at `now`. */
  function Apply(actionType: string, params: map<string, string>, now: int): (r: (Reply, Option<KakaoApplication>))
    ensures r.1.Some? <==> r.0.Applied?
    ensures r.0 == UnknownAction <==> ApplicationType(actionType).None?
  {
    match ApplicationType(actionType)
    case None => (UnknownAction, None)
    case Some(t) =>
      var name := Trim(Param(params, "name"));
      var phone := DigitsOf(Trim(Param(params, "phone")));
      if name == "" || phone == "" then (NeedNameAndPhone, None)
      else (Applied(name), Some(KakaoApplication(t, name, phone, ChannelConsent(true, Some(now), Some(ChannelConsentVersion)), DetailsOf(params))))
  }

  /** A created consultation has the action's type, a non-blank name, a phone of
      digits only, and the channel consent given at `now`. */
  lemma AppliedRecord(actionType: string, params: map<string, string>, now: int)
    requires Apply(actionType, params, now).1.Some?
    ensures var c := Apply(actionType, params, now).1.value;
      ApplicationType(actionType) == Some(c.kind)
      && c.name == Trim(Param(params, "name")) && c.name != ""
      && c.phone == DigitsOf(Trim(Param(params, "phone"))) && c.phone != "" && AllDigits(c.phone)
      && c.consent == ChannelConsent(true, Some(now), Some(ChannelConsentVersion))
  {
  }

  /** The reply to an action on the consultation found. */
  function ReplyFor(action: ScheduledAction, name: string, date: string, time: string): Reply {
    match action
    case ScheduleChange => ChangeReceived(name)
    case Cancel => CancelReceived(name)
    case Confirm => Confirmed(name, date, time)
  }

  /** The consultation an action on a scheduled consultation acts on: none when the
      name or phone is blank or the lookup finds nothing. */
  function Target(name: string, phone: string, keys: seq<Key>): (r: Option<nat>)
    ensures r.Some? ==> r.value < |keys|
  {
    if name == "" || phone == "" then None else FindScheduled(keys, name, phone)
  }

  /** The reply when there is no consultation to act on. */
  function NoTargetReply(name: string, phone: string): Reply {
    if name == "" || phone == "" then NeedNameAndPhone else NotFound(name)
  }

  /** The handlers of the three actions on a scheduled consultation, given the
      trimmed `name`, `phone` and `message` parameters: name and phone are required;
      the consultation the lookup finds records the action, and no other
      consultation changes. `target` is the position of the consultation acted on,
      if any. */
  method HandleScheduled(action: ScheduledAction, name: string, phone: string, message: string,
                         docs: seq<Consultation>, now: int)
    returns (reply: Reply, target: Option<nat>)
    modifies docs
    ensures target == Target(name, phone, old(KeysOf(docs)))
    ensures target.None? ==> NoneChanged(docs) && reply == NoTargetReply(name, phone)
    ensures target.Some? ==>
      var d := docs[target.value];
      reply == ReplyFor(action, name, d.scheduledDate, d.scheduledTime)
      && Recorded(d, action, message, now)
      && OthersUnchanged(docs, d)
  {
    target := Target(name, phone, KeysOf(docs));
    if target.None? {
      reply := NoTargetReply(name, phone);
    } else {
      var d := docs[target.value];
      d.Record(action, message, now);
      reply := ReplyFor(action, name, d.scheduledDate, d.scheduledTime);
    }
  }

  /** The consultation `d` records the action: the change request or the
      confirmation time, the channel consent, and `updatedAt`; its name, phone,
      status and schedule stay. */
  twostate predicate Recorded(d: Consultation, action: ScheduledAction, message: string, now: int)
    reads d
  {
    d.consent == Marked(old(d.consent), now)
    && d.scheduleChangeRequest == RequestAfter(action, message, old(d.scheduleChangeRequest))
    && d.scheduleConfirmedAt == (if action == Confirm then Some(now) else old(d.scheduleConfirmedAt))
    && d.name == old(d.name) && d.phone == old(d.phone) && d.status == old(d.status) && d.updatedAt == now
    && d.scheduledDate == old(d.scheduledDate) && d.scheduledTime == old(d.scheduledTime)
  }

  /** Every consultation is as it was. */
  twostate predicate NoneChanged(docs: seq<Consultation>)
    reads docs
  {
    forall j :: 0 <= j < |docs| ==> unchanged(docs[j])
  }

  /** Every consultation other than `d` is as it was. */
  twostate predicate OthersUnchanged(docs: seq<Consultation>, d: Consultation)
    reads docs
  {
    forall j :: 0 <= j < |docs| && docs[j] != d ==> unchanged(docs[j])
  }

  /** `POST /api/kakao/webhook` (`body` is `None` when it is not JSON). The
      application's creation, and the notification sent after it, happen outside
      the model: `created` is the record to be stored. */
  method Post(body: Option<SkillRequest>, docs: seq<Consultation>, now: int)
    returns (reply: Reply, created: Option<KakaoApplication>)
    modifies docs
    ensures body.None? ==> reply == BadRequest && created.None? && unchanged(docs)
    ensures body.Some? && ScheduledActionOf(ActionType(body.value)).None? ==>
      (reply, created) == Apply(ActionType(body.value), ParamsOf(body.value), now) && unchanged(docs)
    ensures body.Some? && ScheduledActionOf(ActionType(body.value)).Some? ==> created.None?
    ensures body.Some? && ScheduledActionOf(ActionType(body.value)).Some? ==>
      var action := ScheduledActionOf(ActionType(body.value)).value;
      var params := ParamsOf(body.value);
      var name, phone := Trim(Param(params, "name")), Trim(Param(params, "phone"));
      var target := Target(name, phone, old(KeysOf(docs)));
      (target.None? ==> reply == NoTargetReply(name, phone) && NoneChanged(docs))
      && (target.Some? ==>
            reply == ReplyFor(action, name, docs[target.value].scheduledDate, docs[target.value].scheduledTime)
            && Recorded(docs[target.value], action, Trim(Param(params, "message")), now)
            && OthersUnchanged(docs, docs[target.value]))
    ensures created.Some? ==> created.value.consent.given && AllDigits(created.value.phone)
  {
    if body.None? {
      return BadRequest, None;
    }
    var params := ParamsOf(body.value);
    var actionType := ActionType(body.value);
    var scheduled := ScheduledActionOf(actionType);
    if scheduled.Some? {
      var target;
      reply, target := HandleScheduled(
        scheduled.value, Trim(Param(params, "name")), Trim(Param(params, "phone")), Trim(Param(params, "message")), docs, now);
      return reply, None;
    }
    var r := Apply(actionType, params, now);
    reply, created := r.0, r.1;
  }
}
