/**
 * Input sanitisers: bounded text normalisation, escaping text for use inside
 * a regular expression, keeping only allow-listed keys of a request object,
 * and reading a bounded integer.
 */
module SecurityInput {
  import opened JsText
  import opened JsCore
  import opened Optional
  import Assoc

  const MaxKeyLogCount := 10
  const DefaultMaxLength := 500

  /** `normalizeText(value, maxLength)`: the trimmed text cut to `max(0, maxLength)` characters. */
  function NormalizeText(v: JsValue, maxLength: int): (r: string)
    ensures !v.Str? ==> r == ""
    ensures v.Str? ==> StartsWith(Trim(v.s), r)
    ensures |r| <= if maxLength < 0 then 0 else maxLength
    ensures v.Str? && |Trim(v.s)| <= maxLength ==> r == Trim(v.s)
    ensures v.Str? ==> |r| == (if maxLength < 0 then 0 else if |Trim(v.s)| <= maxLength then |Trim(v.s)| else maxLength)
  {
    if !v.Str? then ""
    else
      var t := Trim(v.s);
      var n := if maxLength < 0 then 0 else maxLength;
      if |t| <= n then t else t[..n]
  }

  // ---------------------------------------------------------------- escapeRegex

  /** The characters `escapeRegex` prefixes with a backslash. */
  predicate IsRegexMeta(c: char) {
    c in ".*+?^${}()|[]\\"
  }

  /** `value.replace(/[.*+?^${}()|[\]\\]/g, '\\$&')`. */
  function EscapeRegex(s: string): (r: string)
    ensures |r| >= |s|
  {
    if s == [] then ""
    else (if IsRegexMeta(s[0]) then ['\\', s[0]] else [s[0]]) + EscapeRegex(s[1..])
  }

  /** Reading an escaped pattern back as literal text: a backslash stands for the character after it. */
  function Unescape(r: string): string
    decreases |r|
  {
    if r == [] then ""
    else if r[0] == '\\' && |r| >= 2 then [r[1]] + Unescape(r[2..])
    else [r[0]] + Unescape(r[1..])
  }

  /** Escaping loses nothing: the escaped text reads back as the original. */
  lemma {:induction false} UnescapeEscapeRegex(s: string)
    ensures Unescape(EscapeRegex(s)) == s
    decreases |s|
  {
    if s != [] {
      UnescapeEscapeRegex(s[1..]);
      var rest := EscapeRegex(s[1..]);
      if IsRegexMeta(s[0]) {
        assert EscapeRegex(s) == ['\\', s[0]] + rest;
        assert (['\\', s[0]] + rest)[2..] == rest;
      } else {
        assert EscapeRegex(s) == [s[0]] + rest;
        assert ([s[0]] + rest)[1..] == rest;
      }
      assert s == [s[0]] + s[1..];
    }
  }

  /** Escaping works character by character. */
  lemma {:induction false} EscapeRegexConcat(a: string, b: string)
    ensures EscapeRegex(a + b) == EscapeRegex(a) + EscapeRegex(b)
    decreases |a|
  {
    if a != [] {
      EscapeRegexConcat(a[1..], b);
      assert (a + b)[1..] == a[1..] + b;
    } else {
      assert a + b == b;
    }
  }

  /** A metacharacter gains exactly one backslash in front; any other character is kept as it is. */
  lemma EscapeRegexChar(c: char)
    ensures EscapeRegex([c]) == if IsRegexMeta(c) then ['\\', c] else [c]
  {
  }

  /** Text without metacharacters is left exactly as it is. */
  lemma {:induction false} EscapeRegexPlain(s: string)
    requires forall i :: 0 <= i < |s| ==> !IsRegexMeta(s[i])
    ensures EscapeRegex(s) == s
    decreases |s|
  {
    if s != [] {
      EscapeRegexPlain(s[1..]);
      assert s == [s[0]] + s[1..];
    }
  }

  // ---------------------------------------------------------------- pickAllowedObject

  /** The entries whose keys are allowed, in source order, values untouched. */
  function AllowedEntries(source: seq<(string, JsValue)>, allowed: seq<string>): seq<(string, JsValue)> {
    if source == [] then []
    else (if source[0].0 in allowed then [source[0]] else []) + AllowedEntries(source[1..], allowed)
  }

  /** The keys that are not allowed, in source order. */
  function DroppedKeys(source: seq<(string, JsValue)>, allowed: seq<string>): seq<string> {
    if source == [] then []
    else (if source[0].0 !in allowed then [source[0].0] else []) + DroppedKeys(source[1..], allowed)
  }

  /** `pickAllowedObject`: one pass over the entries, copying allowed ones and listing the rest. */
  method PickAllowedObject(source: seq<(string, JsValue)>, allowedKeys: seq<string>, context: string)
    returns (safe: seq<(string, JsValue)>, dropped: seq<string>, warning: Option<string>)
    ensures safe == AllowedEntries(source, allowedKeys)
    ensures dropped == DroppedKeys(source, allowedKeys)
    ensures warning == DroppedWarning(dropped, context)
  {
    safe, dropped := [], [];
    var i := 0;
    while i < |source|
      invariant 0 <= i <= |source|
      invariant safe + AllowedEntries(source[i..], allowedKeys) == AllowedEntries(source, allowedKeys)
      invariant dropped + DroppedKeys(source[i..], allowedKeys) == DroppedKeys(source, allowedKeys)
    {
      var (key, value) := source[i];
      assert source[i..] == [source[i]] + source[i + 1..];
      if key !in allowedKeys {
        dropped := dropped + [key];
      } else {
        safe := safe + [(key, value)];
      }
      i := i + 1;
    }
    warning := DroppedWarning(dropped, context);
  }

  /** The kept keys are exactly the allowed source keys, each with its source value. */
  lemma {:induction false} AllowedEntriesExact(source: seq<(string, JsValue)>, allowed: seq<string>)
    ensures forall e :: e in AllowedEntries(source, allowed) <==> e in source && e.0 in allowed
  {
    if source != [] {
      AllowedEntriesExact(source[1..], allowed);
      assert source == [source[0]] + source[1..];
    }
  }

  /** The dropped list names exactly the source keys that are not allowed. */
  lemma {:induction false} DroppedKeysExact(source: seq<(string, JsValue)>, allowed: seq<string>)
    ensures forall k :: k in DroppedKeys(source, allowed) <==> k in Assoc.Keys(source) && k !in allowed
  {
    if source != [] {
      DroppedKeysExact(source[1..], allowed);
      assert Assoc.Keys(source) == [source[0].0] + Assoc.Keys(source[1..]);
    }
  }

  /** Every entry is either kept or reported, never both and never neither. */
  lemma {:induction false} PickPartitions(source: seq<(string, JsValue)>, allowed: seq<string>)
    ensures |AllowedEntries(source, allowed)| + |DroppedKeys(source, allowed)| == |source|
  {
    if source != [] {
      PickPartitions(source[1..], allowed);
    }
  }

  /** The warning logged for dropped keys: at most ten names, then "+n" for the rest. */
  function DroppedWarning(dropped: seq<string>, context: string): (w: Option<string>)
    ensures w.None? <==> dropped == []
  {
    if dropped == [] then None
    else
      var shown := if |dropped| <= MaxKeyLogCount then dropped else dropped[..MaxKeyLogCount];
      var suffix := if |dropped| > MaxKeyLogCount then " +" + NatToString(|dropped| - MaxKeyLogCount) else "";
      Some("[security] dropped unknown keys (" + context + "): " + Join(shown, ", ") + suffix)
  }

  // ---------------------------------------------------------------- parsePositiveInt

  /** `parsePositiveInt(value, min, max)`: a number is taken as it is, a string through
      `parseInt`, anything else is NaN; the result must be an integer in `[min, max]`. */
  function ParsePositiveInt(v: JsValue, min: int, max: int): (r: Option<int>)
    ensures r.Some? ==> min <= r.value <= max
    ensures v.Number? ==> (r.Some? <==> v.n.Fin? && IsIntegral(v.n.r) && min as real <= v.n.r <= max as real)
  {
    var parsed: Option<int> :=
      if v.Number? then (if v.n.Fin? && IsIntegral(v.n.r) then Some(v.n.r.Floor) else None)
      else if v.Str? then ParseIntText(v.s)
      else None;
    if parsed.None? then None
    else if parsed.value < min || parsed.value > max then None
    else parsed
  }

  /** A string of digits naming a value in range parses to that value. */
  lemma ParsePositiveIntDigits(n: nat, min: int, max: int)
    requires min <= n <= max
    ensures ParsePositiveInt(Str(NatToString(n)), min, max) == Some(n)
  {
    ParseIntOfNatToString(n);
  }
}
