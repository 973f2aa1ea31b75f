/**
 * The teacher-coaching application form: the phone input reformats what is
 * typed into a hyphenated mobile number as the user types, and the submit
 * handler checks the name and the number before posting the form to the
 * consultation endpoint as a "teacher" application.
 */
module CoachingForm {
  import opened Optional
  import opened JsText
  import opened MobilePhone
  import opened JsCore
  import Consult

  const MaxPhoneDigits := 11

  /** `value.replace(/\D/g, '').slice(0, 11)`. */
  function PhoneDigits(value: string): (d: string)
    ensures AllDigits(d) && |d| <= MaxPhoneDigits
    ensures d == (if |DigitsOf(value)| <= MaxPhoneDigits then DigitsOf(value) else DigitsOf(value)[..MaxPhoneDigits])
  {
    var all := DigitsOf(value);
    if |all| <= MaxPhoneDigits then all else all[..MaxPhoneDigits]
  }

  /** The layout of the digits: up to 3 as they are, up to 7 as `ddd-rest`, beyond
      that `ddd-dddd-rest`. */
  function Layout(d: string): (r: string)
    requires AllDigits(d)
    ensures |d| <= 3 ==> r == d
    ensures 3 < |d| <= 7 ==> r == d[..3] + "-" + d[3..]
    ensures 7 < |d| ==> r == d[..3] + "-" + d[3..7] + "-" + d[7..]
  {
    if |d| <= 3 then d
    else if |d| <= 7 then d[..3] + "-" + d[3..]
    else d[..3] + "-" + d[3..7] + "-" + d[7..]
  }

  /** The phone input's `onChange`: the typed text becomes the layout of its first
      eleven digits. */
  function FormatPhone(value: string): string {
    Layout(PhoneDigits(value))
  }

  /** Only digits and hyphens. */
  predicate DigitsAndHyphens(s: string) {
    forall i :: 0 <= i < |s| ==> IsDigit(s[i]) || s[i] == '-'
  }

  lemma DigitsOfHyphen()
    ensures DigitsOf("-") == ""
  {
    assert !IsDigit("-"[0]);
    assert "-"[1..] == "";
  }

  /** Appending a hyphen and a run of digits to a text of digits and hyphens keeps it
      one, and adds exactly that run to its digits. */
  lemma HyphenThen(x: string, c: string)
    requires DigitsAndHyphens(x) && AllDigits(c)
    ensures DigitsOf(x + "-" + c) == DigitsOf(x) + c
    ensures DigitsAndHyphens(x + "-" + c)
  {
    DigitsOfHyphen();
    DigitsOfAllDigits(c);
    DigitsOfConcat(x, "-");
    assert DigitsOf(x + "-") == DigitsOf(x) + "" == DigitsOf(x);
    DigitsOfConcat(x + "-", c);
    var y := x + "-" + c;
    forall i | 0 <= i < |y| ensures IsDigit(y[i]) || y[i] == '-' {
      if i < |x| { assert y[i] == x[i]; }
      else if i > |x| { assert y[i] == c[i - |x| - 1]; }
    }
  }

  /** Taking the digits of the layout gives the digits back: the layout only inserts
      hyphens. */
  lemma LayoutDigits(d: string)
    requires AllDigits(d)
    ensures DigitsOf(Layout(d)) == d
    ensures DigitsAndHyphens(Layout(d))
  {
    if |d| <= 3 {
      DigitsOfAllDigits(d);
    } else {
      var a := d[..3];
      DigitsOfAllDigits(a);
      if |d| <= 7 {
        var b := d[3..];
        assert AllDigits(b) by {
          forall i | 0 <= i < |b| ensures IsDigit(b[i]) { assert b[i] == d[3 + i]; }
        }
        HyphenThen(a, b);
        assert a + b == d;
      } else {
        var b, c := d[3..7], d[7..];
        assert AllDigits(b) && AllDigits(c) by {
          forall i | 0 <= i < |b| ensures IsDigit(b[i]) { assert b[i] == d[3 + i]; }
          forall i | 0 <= i < |c| ensures IsDigit(c[i]) { assert c[i] == d[7 + i]; }
        }
        HyphenThen(a, b);
        HyphenThen(a + "-" + b, c);
        assert a + b + c == d;
      }
    }
  }

  /** The formatted phone holds only digits and hyphens, and removing the hyphens
      gives the first eleven digits of what was typed. */
  lemma FormatPhoneDigits(value: string)
    ensures DigitsAndHyphens(FormatPhone(value))
    ensures DigitsOf(FormatPhone(value)) == PhoneDigits(value)
  {
    LayoutDigits(PhoneDigits(value));
  }

  /** Reformatting the field's own text changes nothing. */
  lemma FormatPhoneIdempotent(value: string)
    ensures FormatPhone(FormatPhone(value)) == FormatPhone(value)
  {
    var d := PhoneDigits(value);
    LayoutDigits(d);
    assert PhoneDigits(FormatPhone(value)) == d;
  }

  /** A complete eleven-digit mobile number is shown as `ddd-dddd-dddd`. */
  lemma FormatElevenDigits(value: string)
    requires |DigitsOf(value)| == 11
    ensures |FormatPhone(value)| == 13
    ensures FormatPhone(value)[3] == '-' && FormatPhone(value)[8] == '-'
  {
  }

  // ---------------------------------------------------------------- submitting

  datatype CoachingInput = CoachingInput(name: string, phone: string, subject: string, message: string, agreeMarketing: bool)

  const EmptyInput := CoachingInput("", "", "", "", false)

  /** The alert `handleSubmit` shows before posting, if any. */
  datatype FormAlert = NameMissing | PhoneInvalid

  /** The checks of `handleSubmit`, in order: a non-blank name, then the digits of
      the phone forming a mobile number. */
  function Check(form: CoachingInput): (r: Option<FormAlert>)
    ensures r == Some(NameMissing) <==> Trim(form.name) == ""
    ensures r == Some(PhoneInvalid) <==> Trim(form.name) != "" && !IsMobileNumber(DigitsOf(form.phone))
    ensures r.None? <==> Trim(form.name) != "" && IsMobileNumber(DigitsOf(form.phone))
  {
    if Trim(form.name) == "" then Some(NameMissing)
    else if !IsMobileNumber(DigitsOf(form.phone)) then Some(PhoneInvalid)
    else None
  }

  /** The body posted, `{ ...form, type: 'teacher' }` (the marketing flag is sent
      too, and the endpoint ignores it). */
  function BodyOf(form: CoachingInput): JsValue {
    Obj([("name", Str(form.name)), ("phone", Str(form.phone)), ("subject", Str(form.subject)),
         ("message", Str(form.message)), ("agreeMarketing", Bool(form.agreeMarketing)), ("type", Str("teacher"))])
  }

  /** A form the handler posts is accepted by the endpoint as a teacher-coaching
      application with the form's digits as its phone. */
  lemma PostedFormAccepted(form: CoachingInput)
    requires Check(form).None?
    ensures Consult.Apply(Json(BodyOf(form))).Created?
    ensures Consult.Apply(Json(BodyOf(form))).consultation.kind == Consult.TeacherDesign
    ensures Consult.Apply(Json(BodyOf(form))).consultation.phone == DigitsOf(form.phone)
  {
    var b := BodyOf(form);
    PostedBodyRead(form);
    TrimDigitsOf(form.phone);
    Consult.TypeOfName(Consult.TeacherDesign);
    Consult.ScreenAcceptsIff(Some(Trim(form.name)), Some(Trim(form.phone)), Str("teacher"), Consult.DetailsOf(b));
  }

  /** How the endpoint reads the posted body: the form's name and phone as text, the
      type "teacher", and readable detail fields. */
  lemma PostedBodyRead(form: CoachingInput)
    ensures Consult.DetailsOf(BodyOf(form)).Some?
    ensures Consult.Apply(Json(BodyOf(form)))
      == Consult.Screen(Some(Trim(form.name)), Some(Trim(form.phone)), Str("teacher"), Consult.DetailsOf(BodyOf(form)))
  {
    var b := BodyOf(form);
    assert Get(b, "name") == Str(form.name) by { LookupAt(b.fields, "name", 0); }
    assert Get(b, "phone") == Str(form.phone) by { LookupAt(b.fields, "phone", 1); }
    assert Get(b, "type") == Str("teacher") by { LookupAt(b.fields, "type", 5); }
    forall k | 0 <= k < |Consult.DetailKeys|
      ensures Consult.TrimmedText(Get(b, Consult.DetailKeys[k])).Some?
    {
      NoBoolDetail(b.fields, Consult.DetailKeys[k]);
    }
  }

  /** Every field of the posted body except the marketing flag is text. */
  lemma {:induction false} NoBoolDetail(fields: seq<(string, JsValue)>, key: string)
    requires key != "agreeMarketing"
    requires forall j :: 0 <= j < |fields| ==> fields[j].1.Str? || fields[j].0 == "agreeMarketing"
    ensures Lookup(fields, key).Str? || Lookup(fields, key) == Undefined
  {
    if fields != [] && fields[0].0 != key {
      NoBoolDetail(fields[1..], key);
    }
  }

  /** Trimming first does not change the digits of a text. */
  lemma TrimDigitsOf(s: string)
    ensures DigitsOf(Trim(s)) == DigitsOf(s)
  {
    TrimStartDigits(s);
    TrimEndDigits(TrimStart(s));
  }

  lemma {:induction false} TrimStartDigits(s: string)
    ensures DigitsOf(TrimStart(s)) == DigitsOf(s)
  {
    if s != [] && IsWhitespace(s[0]) {
      TrimStartDigits(s[1..]);
    }
  }

  lemma {:induction false} TrimEndDigits(s: string)
    ensures DigitsOf(TrimEnd(s)) == DigitsOf(s)
  {
    if s != [] && IsWhitespace(s[|s| - 1]) {
      var init, last := s[..|s| - 1], s[|s| - 1..];
      assert s == init + last;
      DigitsOfConcat(init, last);
      assert DigitsOf(last) == "" by {
        assert last[1..] == "";
      }
      TrimEndDigits(init);
    }
  }

  /** How the request ended: accepted, or failed (an error status or a network error). */
  datatype SubmitResult = Success | Error

  class CoachingFormState {
    var form: CoachingInput
    var submitting: bool
    var result: Option<SubmitResult>
    var alert: Option<FormAlert>

    constructor()
      ensures form == EmptyInput && !submitting && result.None? && alert.None?
    {
      form := EmptyInput;
      submitting := false;
      result := None;
      alert := None;
    }

    /** `onChange` of the phone input. */
    method TypePhone(value: string)
      modifies this
      ensures form == old(form).(phone := FormatPhone(value))
      ensures submitting == old(submitting) && result == old(result) && alert == old(alert)
    {
      form := form.(phone := FormatPhone(value));
    }

    /** `handleSubmit`. `accepted` is whether the endpoint answers with an ok status;
        the result is the body posted, if any. */
    method HandleSubmit(accepted: bool) returns (posted: Option<JsValue>)
      modifies this
      ensures alert == Check(old(form))
      ensures posted.Some? <==> Check(old(form)).None?
      ensures posted.Some? ==> posted.value == BodyOf(old(form)) && !submitting
      ensures posted.None? ==> form == old(form) && submitting == old(submitting) && result == old(result)
      ensures posted.Some? && accepted ==> result == Some(Success) && form == EmptyInput
      ensures posted.Some? && !accepted ==> result == Some(Error) && form == old(form)
    {
      alert := Check(form);
      if alert.Some? {
        return None;
      }
      submitting := true;
      result := None;
      posted := Some(BodyOf(form));
      if accepted {
        result := Some(Success);
        form := EmptyInput;
      } else {
        result := Some(Error);
      }
      submitting := false;
    }
  }
}
