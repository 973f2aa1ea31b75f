/**
 * JavaScript values as the site's code receives them (parsed JSON bodies,
 * query parameters, documents read back from the database) and the
 * conversions it applies to them: truthiness, `Number(...)`,
 * `Number.parseInt`, `Math.round`, `Math.trunc`, `Number.isFinite`.
 */
module JsCore {
  import opened JsText
  import opened Optional

  /** A JavaScript number: finite values as exact rationals, NaN and the two infinities. */
  datatype Num = Fin(r: real) | NaN | PosInf | NegInf

  /** A value of static type `unknown`. Object fields keep their insertion order. */
  datatype JsValue =
    | Undefined
    | Null
    | Bool(b: bool)
    | Number(n: Num)
    | Str(s: string)
    | Arr(items: seq<JsValue>)
    | Obj(fields: seq<(string, JsValue)>)

  /** What `await req.json()` yields: a parsed value, or a throw for text that is not JSON. */
  datatype Body = NotJson | Json(value: JsValue)

  /** `Boolean(v)`. */
  predicate Truthy(v: JsValue) {
    match v
    case Undefined => false
    case Null => false
    case Bool(b) => b
    case Number(n) => n.PosInf? || n.NegInf? || (n.Fin? && n.r != 0.0)
    case Str(s) => s != ""
    case Arr(_) => true
    case Obj(_) => true
  }

  /** `a || b`. */
  function Or(a: JsValue, b: JsValue): (r: JsValue)
    ensures Truthy(a) ==> r == a
    ensures !Truthy(a) ==> r == b
  {
    if Truthy(a) then a else b
  }

  /** Reading property `key`: the field of an object, `undefined` otherwise. */
  function Get(v: JsValue, key: string): JsValue {
    if v.Obj? then Lookup(v.fields, key) else Undefined
  }

  function Lookup(fields: seq<(string, JsValue)>, key: string): JsValue {
    if fields == [] then Undefined
    else if fields[0].0 == key then fields[0].1
    else Lookup(fields[1..], key)
  }

  /** Looking up a key finds its first field. */
  lemma {:induction false} LookupAt(fields: seq<(string, JsValue)>, key: string, i: nat)
    requires i < |fields| && fields[i].0 == key
    requires forall j :: 0 <= j < i ==> fields[j].0 != key
    ensures Lookup(fields, key) == fields[i].1
  {
    if i > 0 {
      LookupAt(fields[1..], key, i - 1);
    }
  }

  /** `(v || '')` as text, where a string method is called on it next: `None` when
      a truthy value that is not text reaches `trim`, `replace` or `toLowerCase`,
      which throw. */
  function TextOr(v: JsValue): (r: Option<string>)
    ensures !Truthy(v) ==> r == Some("")
    ensures v.Str? ==> r == Some(v.s)
    ensures r.None? <==> Truthy(v) && !v.Str?
  {
    if !Truthy(v) then Some("") else if v.Str? then Some(v.s) else None
  }

  /** `v.length < k`: the length of a text or an array; for an object, its own
      `length` field compared as a number; for any other value the length is
      `undefined` and the comparison is false. */
  predicate LengthBelow(v: JsValue, k: nat) {
    match v
    case Str(s) => |s| < k
    case Arr(items) => |items| < k
    case Obj(_) => var n := ToNumber(Get(v, "length")); n.NegInf? || (n.Fin? && n.r < k as real)
    case _ => false
  }

  /** 10^21: from this magnitude on, `String(n)` writes a number in exponent form. */
  const ExponentFormAt: real := 1000000000000000000000.0

  /** The text a Mongoose `String` path stores for a value: text as it is, a boolean
      or an integral number below 10^21 in magnitude as its `String(...)` text, and
      `None` for everything else. An array or an object fails the cast; a fraction,
      a number of 10^21 or more, NaN and the infinities are cast to text the model
      does not produce and are also `None`. */
  function MongooseText(v: JsValue): (r: Option<string>)
    ensures v.Str? ==> r == Some(v.s)
    ensures v.Arr? || v.Obj? || v.Null? || v.Undefined? ==> r.None?
    ensures v.Number? && v.n.Fin? && IsIntegral(v.n.r) && 0.0 <= v.n.r < ExponentFormAt ==>
      r.Some? && AllDigits(r.value) && DecimalValue(r.value) == v.n.r.Floor
  {
    match v
    case Str(s) => Some(s)
    case Bool(b) => Some(if b then "true" else "false")
    case Number(n) =>
      if n.Fin? && IsIntegral(n.r) && -ExponentFormAt < n.r < ExponentFormAt then
        assert n.r >= 0.0 ==> DecimalValue(IntToString(n.r.Floor)) == n.r.Floor by {
          if n.r >= 0.0 { DecimalValueOfNatToString(n.r.Floor); }
        }
        Some(IntToString(n.r.Floor))
      else None
    case _ => None
  }

  /** The number 12 is stored as the text "12". */
  lemma MongooseTextOfTwelve()
    ensures MongooseText(Number(Fin(12.0))) == Some("12")
  {
    assert IsIntegral(12.0) && 12.0.Floor == 12;
    assert DigitChar(1) == '1' && DigitChar(2) == '2';
    assert NatToString(12) == NatToString(1) + [DigitChar(2)] == "12";
  }

  /** `typeof v === 'string' ? v : ''` style reads: the text of a string, else nothing. */
  function AsString(v: JsValue): Option<string> {
    if v.Str? then Some(v.s) else None
  }

  // ---------------------------------------------------------------- Math

  /** `Math.trunc` of a finite number. */
  function Trunc(x: real): (r: int)
    ensures x >= 0.0 ==> 0 <= r && r as real <= x < r as real + 1.0
    ensures x < 0.0 ==> r <= 0 && r as real - 1.0 < x <= r as real
  {
    if x >= 0.0 then x.Floor else -((-x).Floor)
  }

  /** `Math.round` of a finite number: halves go up. */
  function Round(x: real): (r: int)
    ensures x - 0.5 < r as real <= x + 0.5
  {
    (x + 0.5).Floor
  }

  lemma RoundOfInt(n: int)
    ensures Round(n as real) == n
  {
  }

  /** `Math.round(x)` stays between integer bounds `x` already lies between. */
  lemma RoundBetween(x: real, lo: int, hi: int)
    requires lo as real <= x <= hi as real
    ensures lo <= Round(x) <= hi
  {
  }

  /** `Math.ceil`. */
  function Ceil(x: real): (r: int)
    ensures x <= r as real < x + 1.0
  {
    -((-x).Floor)
  }

  /** `Number.isInteger` of a finite number. */
  predicate IsIntegral(x: real) {
    x == x.Floor as real
  }

  function Pow10(n: nat): (r: real)
    ensures r >= 1.0
  {
    if n == 0 then 1.0 else 10.0 * Pow10(n - 1)
  }

  // ---------------------------------------------------------------- parseInt

  /** `Number.parseInt(s, 10)`: skip leading whitespace, read an optional sign and
      the longest run of decimal digits; `None` is NaN (no digit at all). */
  function ParseIntText(s: string): (r: Option<int>)
    ensures r.None? <==> DigitRun(SignStripped(TrimStart(s))) == 0
  {
    var t := TrimStart(s);
    var u := SignStripped(t);
    var k := DigitRun(u);
    if k == 0 then None
    else if t[0] == '-' then Some(-(DecimalValue(u[..k]) as int))
    else Some(DecimalValue(u[..k]))
  }

  function SignStripped(t: string): (u: string)
    ensures |u| <= |t|
  {
    if t != [] && (t[0] == '-' || t[0] == '+') then t[1..] else t
  }

  /** Text that starts with a letter (neither whitespace, a sign nor a digit) has no
      integer reading: `parseInt` gives NaN. */
  lemma ParseIntLetterStart(s: string)
    requires s != [] && ('a' <= s[0] <= 'z' || 'A' <= s[0] <= 'Z')
    ensures ParseIntText(s).None?
  {
    assert TrimStart(s) == s;
    assert SignStripped(s) == s;
  }

  /** `parseInt` reads back the decimal text of every non-negative integer. */
  lemma ParseIntOfNatToString(n: nat)
    ensures ParseIntText(NatToString(n)) == Some(n)
  {
    var s := NatToString(n);
    assert TrimStart(s) == s by {
      assert IsDigit(s[0]);
      TrimStartNoLead(s);
    }
    DigitRunAllDigits(s);
    assert s[..|s|] == s;
    DecimalValueOfNatToString(n);
  }

  /** `parseInt` stops at the first character that is not a digit. */
  lemma ParseIntDigitsThen(ds: string, rest: string)
    requires |ds| >= 1 && AllDigits(ds)
    requires rest == [] || !IsDigit(rest[0])
    ensures ParseIntText(ds + rest) == Some(DecimalValue(ds))
  {
    var s := ds + rest;
    assert !IsWhitespace(s[0]) && s[0] != '-' && s[0] != '+';
    assert TrimStart(s) == s;
    assert SignStripped(s) == s;
    DigitRunPrefix(ds, rest);
    assert s[..|ds|] == ds;
  }

  lemma {:induction false} DigitRunPrefix(ds: string, rest: string)
    requires AllDigits(ds)
    requires rest == [] || !IsDigit(rest[0])
    ensures DigitRun(ds + rest) == |ds|
    decreases |ds|
  {
    if ds != [] {
      assert (ds + rest)[1..] == ds[1..] + rest;
      DigitRunPrefix(ds[1..], rest);
    } else {
      assert ds + rest == rest;
    }
  }

  /** `0x` or `0X`, the prefix that makes `parseInt` without a radix read base 16. */
  predicate HexPrefixed(u: string) {
    |u| >= 2 && u[0] == '0' && (u[1] == 'x' || u[1] == 'X')
  }

  /** Length of the run of hexadecimal digits that starts `s`. */
  function HexRun(s: string): (k: nat)
    ensures k <= |s|
    ensures forall i :: 0 <= i < k ==> RadixDigit(s[i]) < 16
    ensures k < |s| ==> RadixDigit(s[k]) >= 16
  {
    if s == [] || RadixDigit(s[0]) >= 16 then 0 else 1 + HexRun(s[1..])
  }

  /** `parseInt(s)` with no radix: as with radix 10, except that digits announced by
      `0x` or `0X` after the sign are read in base 16, and such a prefix with no
      hexadecimal digit after it is NaN. */
  function ParseIntAuto(s: string): (r: Option<int>)
    ensures !HexPrefixed(SignStripped(TrimStart(s))) ==> r == ParseIntText(s)
  {
    var t := TrimStart(s);
    var u := SignStripped(t);
    if !HexPrefixed(u) then ParseIntText(s)
    else
      var ds := u[2..];
      var k := HexRun(ds);
      if k == 0 then None
      else if t[0] == '-' then Some(-RadixValue(ds[..k], 16))
      else Some(RadixValue(ds[..k], 16))
  }

  /** Text of decimal digits has no hexadecimal prefix, so both readings agree on it. */
  lemma ParseIntAutoOfDigits(s: string)
    requires AllDigits(s)
    ensures ParseIntAuto(s) == ParseIntText(s)
  {
    if s != [] {
      assert !IsWhitespace(s[0]) && s[0] != '-' && s[0] != '+';
      assert TrimStart(s) == s;
      assert |s| >= 2 ==> IsDigit(s[1]);
    }
  }

  /** `parseInt("0x10")` is 16, where `parseInt("0x10", 10)` is 0. */
  lemma ParseIntAutoHex()
    ensures ParseIntAuto("0x10") == Some(16)
    ensures ParseIntText("0x10") == Some(0)
  {
    var s := "0x10";
    assert TrimStart(s) == s by { TrimStartNoLead(s); }
    assert SignStripped(s) == s;
    assert HexPrefixed(s);
    HexTen(s[2..]);
    DecimalZero(s);
  }

  /** `parseInt("0")` is 0. */
  lemma ParseIntAutoZero()
    ensures ParseIntAuto("0") == Some(0)
  {
    var z := "0";
    ParseIntAutoOfDigits(z);
    ParseIntOfNatToString(0);
    assert NatToString(0) == z;
  }

  lemma HexTen(ds: string)
    requires ds == "10"
    ensures HexRun(ds) == 2 && RadixValue(ds[..2], 16) == 16
  {
    assert ds[..2] == ds;
    assert ds[..1] == "1" && ds[1..] == "0";
    assert "1"[..0] == "";
    assert HexRun("0") == 1;
  }

  lemma DecimalZero(s: string)
    requires s == "0x10"
    ensures ParseIntText(s) == Some(0)
  {
    assert TrimStart(s) == s by { TrimStartNoLead(s); }
    assert SignStripped(s) == s;
    assert s[1..] == "x10";
    assert DigitRun(s[1..]) == 0;
    assert DigitRun(s) == 1;
    assert s[..1] == "0";
    assert DecimalValue("0") == 0 by { assert "0"[..0] == []; }
    assert s[0] != '-';
  }

  /** `parseInt(v)` with no radix on any value: as `ParseIntValue`, with text read by
      `ParseIntAuto`. The string form of a number never starts with `0x`. */
  function ParseIntAutoValue(v: JsValue): Option<int> {
    match v
    case Str(s) => ParseIntAuto(s)
    case Number(n) =>
      if n.Fin? then Some(ParseIntOfNumberText(n.r)) else None
    case Arr(items) =>
      if items == [] || items[0].Null? || items[0].Undefined? then None
      else ParseIntAutoValue(items[0])
    case _ => None
  }

  /** The two readings differ only on text with a hexadecimal prefix. */
  lemma {:induction false} ParseIntAutoValueAgrees(v: JsValue)
    ensures v.Str? && !HexPrefixed(SignStripped(TrimStart(v.s))) ==> ParseIntAutoValue(v) == ParseIntValue(v)
    ensures !v.Str? && !v.Arr? ==> ParseIntAutoValue(v) == ParseIntValue(v)
  {
  }

  /** `parseInt(v)` on any value: the value is first turned into its string form. */
  function ParseIntValue(v: JsValue): Option<int> {
    match v
    case Str(s) => ParseIntText(s)
    case Number(n) =>
      if n.Fin? then Some(ParseIntOfNumberText(n.r)) else None
    case Arr(items) =>
      // `String([x, ...])` begins with `String(x)` and a comma, where parsing stops
      if items == [] || items[0].Null? || items[0].Undefined? then None
      else ParseIntValue(items[0])
    case _ => None
  }

  /** `parseInt(String(x))` for a finite number: the integer part for numbers that
      JavaScript writes in plain decimal notation, and the first significant digit
      for those it writes in exponent notation (at least 1e21, or below 1e-6). */
  function ParseIntOfNumberText(x: real): int {
    if x == 0.0 then 0
    else if 1.0 / 1000000.0 <= x < 1000000000000000000000.0 then Trunc(x)
    else if -1000000000000000000000.0 < x <= -1.0 / 1000000.0 then Trunc(x)
    else if x > 0.0 then LeadingDigit(x)
    else -LeadingDigit(-x)
  }

  function LeadingDigit(x: real): (d: int)
    requires x > 0.0
    ensures 1 <= d <= 9
  {
    if x >= 1.0 then LeadingDigitAbove(x) else LeadingDigitBelow(x, 0)
  }

  function LeadingDigitAbove(x: real): (d: int)
    requires x >= 1.0
    ensures 1 <= d <= 9
    decreases x.Floor
  {
    if x < 10.0 then x.Floor else LeadingDigitAbove(x / 10.0)
  }

  /** Leading digit of `x * 10^k` for `0 < x < 1`, scaling up until the value reaches 1.
      The smallest positive double is above 1e-324, so 400 scalings reach 1 for
      every JavaScript number; the bound only stops the recursion for other reals. */
  function LeadingDigitBelow(x: real, k: nat): (d: int)
    requires 0.0 < x < 1.0
    ensures 1 <= d <= 9
    decreases 400 - k
  {
    var scaled := x * Pow10(k);
    if scaled >= 1.0 then LeadingDigitAbove(scaled)
    else if k >= 400 then 1
    else LeadingDigitBelow(x, k + 1)
  }

  // ---------------------------------------------------------------- Number(...)

  /** `Number(s)` for a string: a blank string is 0, otherwise the trimmed text must be
      a whole numeric literal (decimal with optional fraction and exponent, signed
      `Infinity`, or unsigned `0x`/`0o`/`0b` integers); anything else is NaN. */
  function StringToNumber(s: string): Num {
    var t := Trim(s);
    if t == [] then Fin(0.0) else NumericLiteral(t)
  }

  /** The value of a trimmed, non-blank string under `Number(...)`. */
  function NumericLiteral(t: string): Num {
    if t == "Infinity" || t == "+Infinity" then PosInf
    else if t == "-Infinity" then NegInf
    else if RadixOf(t) > 0 then RadixLiteral(t[2..], RadixOf(t))
    else DecimalNumber(t)
  }

  /** The radix a `0x`, `0o` or `0b` prefix announces (with at least one digit after it), or 0. */
  function RadixOf(t: string): (radix: nat)
    ensures radix == 0 || radix == 2 || radix == 8 || radix == 16
    ensures radix > 0 ==> |t| > 2 && t[0] == '0'
  {
    if |t| <= 2 || t[0] != '0' then 0
    else if t[1] == 'x' || t[1] == 'X' then 16
    else if t[1] == 'o' || t[1] == 'O' then 8
    else if t[1] == 'b' || t[1] == 'B' then 2
    else 0
  }

  function DecimalNumber(t: string): Num {
    match DecimalLiteral(t)
    case Some(x) => Rounded(x)
    case None => NaN
  }

  /** The least magnitude that rounds to infinity: 2^1024 - 2^970, halfway between
      the largest double (2^1024 - 2^971) and 2^1024, where a tie rounds to the
      even 2^1024 and so overflows. */
  const OverflowMagnitude: real := 179769313486231580793728971405303415079934132710037826936173778980444968292764750946649017977587207096330286416692887910946555547851940402630657488671505820681908902000708383676273854845817711531764475730270069855571366959622842914819860834936475292719074168444365510704342711559699508093042880177904174497792.0

  /** A literal's value as a number: the infinities past the largest double. Finite
      values stay exact (the rounding to 53 significant bits is not modelled). */
  function Rounded(x: real): (n: Num)
    ensures n.Fin? <==> -OverflowMagnitude < x < OverflowMagnitude
    ensures n.Fin? ==> n.r == x
    ensures n.PosInf? <==> x >= OverflowMagnitude
  {
    if x >= OverflowMagnitude then PosInf
    else if x <= -OverflowMagnitude then NegInf
    else Fin(x)
  }

  function RadixDigit(c: char): int {
    if '0' <= c <= '9' then c as int - '0' as int
    else if 'a' <= c <= 'z' then c as int - 'a' as int + 10
    else if 'A' <= c <= 'Z' then c as int - 'A' as int + 10
    else 99
  }

  function RadixLiteral(ds: string, radix: nat): Num
    requires 2 <= radix <= 16
  {
    if forall i :: 0 <= i < |ds| ==> RadixDigit(ds[i]) < radix then Rounded(RadixValue(ds, radix) as real)
    else NaN
  }

  function RadixValue(ds: string, radix: nat): int
    requires 2 <= radix <= 16
  {
    if ds == [] then 0 else RadixValue(ds[..|ds| - 1], radix) * radix + RadixDigit(ds[|ds| - 1])
  }

  /** A whole StrDecimalLiteral: sign, digits with an optional fraction (at least one
      digit in all), then an optional exponent. */
  function DecimalLiteral(t: string): Option<real> {
    var negative := t != [] && t[0] == '-';
    var u := SignStripped(t);
    var i := DigitRun(u);
    var afterInt := u[i..];
    var hasDot := afterInt != [] && afterInt[0] == '.';
    var fracText := if hasDot then afterInt[1..] else [];
    var f := DigitRun(fracText);
    var rest := if hasDot then fracText[f..] else afterInt;
    if i == 0 && f == 0 then None
    else
      match ExponentPart(rest)
      case None => None
      case Some(e) =>
        var mantissa := DecimalValue(u[..i]) as real + DecimalValue(fracText[..f]) as real / Pow10(f);
        var magnitude := if e >= 0 then mantissa * Pow10(e) else mantissa / Pow10(-e);
        Some(if negative then -magnitude else magnitude)
  }

  /** The exponent written at the end of a literal; `Some(0)` when there is none. */
  function ExponentPart(rest: string): Option<int> {
    if rest == [] then Some(0)
    else if rest[0] != 'e' && rest[0] != 'E' then None
    else
      var body := rest[1..];
      var ds := SignStripped(body);
      if ds == [] || DigitRun(ds) != |ds| then None
      else
        assert ds[..|ds|] == ds;
        var n: int := DecimalValue(ds);
        Some(if body[0] == '-' then -n else n)
  }

  /** `Number(v)`. An array converts through its string form: `[]` and `[null]` are 0,
      a one-element array converts as its element does, a longer one contains a comma
      and is NaN; a plain object reads as "[object Object]", NaN. */
  function ToNumber(v: JsValue): Num {
    match v
    case Undefined => NaN
    case Null => Fin(0.0)
    case Bool(b) => Fin(if b then 1.0 else 0.0)
    case Number(n) => n
    case Str(s) => StringToNumber(s)
    case Arr(items) =>
      if items == [] then Fin(0.0)
      else if |items| > 1 then NaN
      else (match items[0]
            case Undefined => Fin(0.0)
            case Null => Fin(0.0)
            case Bool(_) => NaN
            case Number(n) => n
            case Str(s) => StringToNumber(s)
            case Arr(_) => ToNumber(items[0])
            case Obj(_) => NaN)
    case Obj(_) => NaN
  }

  /** `Number(v)` is finite. */
  predicate FiniteNumber(v: JsValue) {
    ToNumber(v).Fin?
  }

  /** A plain run of digits is a decimal literal of its own value. */
  lemma DecimalLiteralOfDigits(s: string)
    requires |s| >= 1 && AllDigits(s)
    ensures DecimalLiteral(s) == Some(DecimalValue(s) as real)
  {
    assert s[0] != '-' && s[0] != '+';
    assert SignStripped(s) == s;
    DigitRunAllDigits(s);
    assert s[..|s|] == s;
    assert s[|s|..] == [];
  }

  /** `Number(String(n))` reads back every non-negative integer. */
  /** A run of decimal digits is read as its value, which is infinite past the
      largest double. */
  lemma StringToNumberOfNat(n: nat)
    ensures StringToNumber(NatToString(n)) == Rounded(n as real)
    ensures (n as real) < OverflowMagnitude ==> StringToNumber(NatToString(n)) == Fin(n as real)
    ensures (n as real) >= OverflowMagnitude ==> StringToNumber(NatToString(n)) == PosInf
  {
    var s := NatToString(n);
    TrimStartNoLead(s);
    TrimEndNoTrail(s);
    assert Trim(s) == s;
    DecimalValueOfNatToString(n);
    DigitsAreNumericLiteral(s);
  }

  lemma DigitsAreNumericLiteral(t: string)
    requires |t| >= 1 && AllDigits(t)
    ensures NumericLiteral(t) == Rounded(DecimalValue(t) as real)
  {
    assert t[0] != 'I' && t[0] != '+' && t[0] != '-';
    assert t != "Infinity" && t != "+Infinity" && t != "-Infinity";
    assert |t| > 2 ==> IsDigit(t[1]);
    assert RadixOf(t) == 0;
    DecimalLiteralOfDigits(t);
  }
}
