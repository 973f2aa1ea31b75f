/**
 * The request-body helpers shared by the API routes: text and key
 * normalisation, recognising MongoDB duplicate-key errors, and parsing a
 * sort order and an amount out of untyped JSON values. Routes and libraries
 * that keep their own copies of these helpers use these definitions.
 */
module ApiHelpers {
  import opened JsText
  import opened JsCore
  import opened Optional

  /** `normalizeText`: the trimmed text of a string; '' for any other value. */
  function NormalizeText(v: JsValue): (r: string)
    ensures !v.Str? ==> r == ""
    ensures r == [] || (!IsWhitespace(r[0]) && !IsWhitespace(r[|r| - 1]))
  {
    if v.Str? then Trim(v.s) else ""
  }

  /** `normalizeKey`: the lower-cased normalised text. */
  function NormalizeKey(v: JsValue): (r: string)
    ensures forall i :: 0 <= i < |r| ==> !IsAsciiUpper(r[i])
  {
    ToLower(NormalizeText(v))
  }

  /** Normalising text that is already normalised changes nothing. */
  lemma NormalizeTextIdempotent(v: JsValue)
    ensures NormalizeText(Str(NormalizeText(v))) == NormalizeText(v)
  {
    if v.Str? {
      TrimIdempotent(v.s);
    }
  }

  /** A normalised key is its own key: trimming and lower-casing commute and are idempotent. */
  lemma NormalizeKeyIdempotent(v: JsValue)
    ensures NormalizeKey(Str(NormalizeKey(v))) == NormalizeKey(v)
  {
    var t := NormalizeText(v);
    ToLowerTrim(t);
    NormalizeTextIdempotent(v);
    ToLowerIdempotent(t);
  }

  /** A key with no surrounding whitespace and no capital letter is its own key. */
  lemma NormalizeKeyPlain(s: string)
    requires s == [] || (!IsWhitespace(s[0]) && !IsWhitespace(s[|s| - 1]))
    requires forall i :: 0 <= i < |s| ==> !IsAsciiUpper(s[i])
    ensures NormalizeKey(Str(s)) == s
  {
    TrimPlain(s);
  }

  /** `isDuplicateKeyError`: an object whose `code` is the number 11000 or whose
      `message` is a string containing "E11000". */
  function IsDuplicateKeyError(e: JsValue): bool {
    if !Truthy(e) || !(e.Obj? || e.Arr?) then false
    else if Get(e, "code") == Number(Fin(11000.0)) then true
    else
      var message := Get(e, "message");
      message.Str? && Contains(message.s, "E11000")
  }

  lemma DuplicateKeyErrorIff(e: JsValue)
    ensures IsDuplicateKeyError(e) <==>
      e.Obj? && (Lookup(e.fields, "code") == Number(Fin(11000.0))
                 || (Lookup(e.fields, "message").Str? && Contains(Lookup(e.fields, "message").s, "E11000")))
  {
  }

  /** `parseSortOrder`: `undefined` is 0, a value `Number` cannot make finite is refused
      (`None`), anything else is truncated toward zero. */
  function ParseSortOrder(v: JsValue): (r: Option<int>)
    ensures v.Undefined? ==> r == Some(0)
    ensures !v.Undefined? ==> (r.Some? <==> ToNumber(v).Fin?)
    ensures !v.Undefined? && r.Some? ==>
      var x := ToNumber(v).r;
      (x >= 0.0 ==> 0 <= r.value && r.value as real <= x < r.value as real + 1.0)
      && (x < 0.0 ==> r.value <= 0 && r.value as real - 1.0 < x <= r.value as real)
  {
    if v.Undefined? then Some(0)
    else
      match ToNumber(v)
      case Fin(x) => Some(Trunc(x))
      case _ => None
  }

  /** A sort order written as decimal digits reads back as its value when it is
      below the overflow to Infinity, and is refused from there on. */
  lemma ParseSortOrderOfDigits(n: nat)
    ensures (n as real) < OverflowMagnitude ==> ParseSortOrder(Str(NatToString(n))) == Some(n)
    ensures (n as real) >= OverflowMagnitude ==> ParseSortOrder(Str(NatToString(n))).None?
  {
    StringToNumberOfNat(n);
  }

  const MaxAmount := 1000000000

  /** `parseAmount`: an integer between 0 and 1e9, or `None`. */
  function ParseAmount(v: JsValue): (r: Option<int>)
    ensures r.Some? ==> 0 <= r.value <= MaxAmount && ToNumber(v) == Fin(r.value as real)
    ensures ToNumber(v).Fin? && IsIntegral(ToNumber(v).r) && 0.0 <= ToNumber(v).r <= MaxAmount as real ==> r.Some?
  {
    match ToNumber(v)
    case Fin(x) =>
      if !IsIntegral(x) then None
      else if x < 0.0 || x > MaxAmount as real then None
      else Some(x.Floor)
    case _ => None
  }

  /** Every amount in range is accepted whether it arrives as a number or as its digits. */
  lemma ParseAmountAcceptsRange(n: nat)
    requires n <= MaxAmount
    ensures ParseAmount(Number(Fin(n as real))) == Some(n)
    ensures ParseAmount(Str(NatToString(n))) == Some(n)
  {
    StringToNumberOfNat(n);
  }
}
