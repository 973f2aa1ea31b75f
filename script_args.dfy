/**
 * The command-line and value helpers the maintenance scripts share: flags,
 * `--name=value` / `--name value` options, positive-integer options, the
 * database name inside a MongoDB URI, the `--limit=` option of the category
 * scripts, and the lenient integer readers applied to stored fields.
 */
module ScriptArgs {
  import opened JsText
  import opened JsCore
  import opened Optional

  /** `process.argv.includes(name)`. */
  predicate HasFlag(argv: seq<string>, name: string) {
    name in argv
  }

  /** The first argument starting with `prefix`, if any. */
  function FindPrefixed(argv: seq<string>, prefix: string): (r: Option<string>)
    ensures r.Some? ==> (StartsWith(r.value, prefix)
      && exists i :: 0 <= i < |argv| && argv[i] == r.value && forall j :: 0 <= j < i ==> !StartsWith(argv[j], prefix))
    ensures r.None? <==> forall i :: 0 <= i < |argv| ==> !StartsWith(argv[i], prefix)
  {
    if argv == [] then None
    else if StartsWith(argv[0], prefix) then Some(argv[0])
    else
      var r := FindPrefixed(argv[1..], prefix);
      assert r.Some? ==> exists i :: 1 <= i < |argv| && argv[i] == r.value && forall j :: 0 <= j < i ==> !StartsWith(argv[j], prefix)
      by {
        if r.Some? {
          var i :| 0 <= i < |argv[1..]| && argv[1..][i] == r.value && forall j :: 0 <= j < i ==> !StartsWith(argv[1..][j], prefix);
          assert forall j :: 0 <= j < i + 1 ==> !StartsWith(argv[j], prefix) by {
            forall j | 0 <= j < i + 1 ensures !StartsWith(argv[j], prefix) {
              if j > 0 { assert argv[j] == argv[1..][j - 1]; }
            }
          }
        }
      }
      r
  }

  /** `process.argv.indexOf(name)`: the first exact position, or -1. */
  function IndexOfArg(argv: seq<string>, name: string): (i: int)
    ensures -1 <= i < |argv|
    ensures i >= 0 ==> argv[i] == name && forall j :: 0 <= j < i ==> argv[j] != name
    ensures i == -1 <==> name !in argv
  {
    if argv == [] then -1
    else if argv[0] == name then 0
    else
      var k := IndexOfArg(argv[1..], name);
      if k == -1 then -1 else k + 1
  }

  /** `getArgValue(name)`: the trimmed text after `name=` in the first argument of that
      form (nothing when it is blank); failing that, the trimmed argument after `name`
      when there is one, it is not empty and it does not start with `--`. */
  function GetArgValue(argv: seq<string>, name: string): (r: Option<string>)
    ensures FindPrefixed(argv, name + "=").Some? ==>
      r == (var v := Trim(FindPrefixed(argv, name + "=").value[|name| + 1..]); if v == "" then None else Some(v))
    ensures FindPrefixed(argv, name + "=").None? ==> r == FollowingArg(argv, name)
  {
    match FindPrefixed(argv, name + "=")
    case Some(arg) =>
      var v := Trim(arg[|name| + 1..]);
      if v == "" then None else Some(v)
    case None => FollowingArg(argv, name)
  }

  /** The `name value` form: the trimmed argument after the first `name`, when there
      is one, it is not empty and it does not start with `--`. */
  function FollowingArg(argv: seq<string>, name: string): (r: Option<string>)
    ensures r.Some? <==> exists i :: 0 <= i < |argv| - 1 && argv[i] == name && name !in argv[..i]
                                     && argv[i + 1] != "" && !StartsWith(argv[i + 1], "--")
    ensures r.Some? ==>
      exists i :: 0 <= i < |argv| - 1 && argv[i] == name && name !in argv[..i] && r.value == Trim(argv[i + 1])
  {
    var idx := IndexOfArg(argv, name);
    assert forall i :: 0 <= i < |argv| && argv[i] == name && name !in argv[..i] ==> i == idx by {
      forall i | 0 <= i < |argv| && argv[i] == name && name !in argv[..i] ensures i == idx {
        IndexOfArgFirst(argv, name, i);
      }
    }
    assert idx >= 0 ==> name !in argv[..idx];
    if idx >= 0 && idx + 1 < |argv| && argv[idx + 1] != "" && !StartsWith(argv[idx + 1], "--") then
      Some(Trim(argv[idx + 1]))
    else None
  }

  /** The first position holding `name` is the one `IndexOfArg` finds. */
  lemma IndexOfArgFirst(argv: seq<string>, name: string, i: nat)
    requires i < |argv| && argv[i] == name && name !in argv[..i]
    ensures IndexOfArg(argv, name) == i
  {
  }

  /** Without a `name=` argument, a usable value after the first `name` is found,
      and it is that value, trimmed. */
  lemma FollowingValueFound(argv: seq<string>, name: string, i: nat)
    requires i < |argv| - 1 && argv[i] == name && name !in argv[..i]
    requires argv[i + 1] != "" && !StartsWith(argv[i + 1], "--")
    requires forall j :: 0 <= j < |argv| ==> !StartsWith(argv[j], name + "=")
    ensures GetArgValue(argv, name) == Some(Trim(argv[i + 1]))
  {
    var r := FollowingArg(argv, name);
    var k :| 0 <= k < |argv| - 1 && argv[k] == name && name !in argv[..k] && r.value == Trim(argv[k + 1]);
    IndexOfArgFirst(argv, name, i);
    IndexOfArgFirst(argv, name, k);
  }

  /** The first `name=` argument decides, wherever a separate `name value` pair stands. */
  lemma EqualsFormWins(before: seq<string>, name: string, value: string, after: seq<string>)
    requires forall i :: 0 <= i < |before| ==> !StartsWith(before[i], name + "=")
    ensures GetArgValue(before + [name + "=" + value] + after, name)
      == if Trim(value) == "" then None else Some(Trim(value))
  {
    var arg := name + "=" + value;
    assert StartsWith(arg, name + "=") by {
      assert arg[..|name + "="|] == name + "=";
    }
    FindPrefixedAfter(before, [arg] + after, name + "=");
    assert before + [arg] + after == before + ([arg] + after);
    assert arg[|name| + 1..] == value;
  }

  lemma {:induction false} FindPrefixedAfter(before: seq<string>, after: seq<string>, prefix: string)
    requires forall i :: 0 <= i < |before| ==> !StartsWith(before[i], prefix)
    ensures FindPrefixed(before + after, prefix) == FindPrefixed(after, prefix)
    decreases |before|
  {
    if before != [] {
      assert (before + after)[0] == before[0];
      assert (before + after)[1..] == before[1..] + after;
      FindPrefixedAfter(before[1..], after, prefix);
    } else {
      assert before + after == after;
    }
  }

  /** The scripts' `parsePositiveInt(value, fallback)`: a missing or unreadable value, or
      one that is not above zero, gives the fallback. */
  function ParsePositiveIntArg(value: Option<string>, fallback: int): (r: int)
    ensures r == fallback || r > 0
    ensures value.None? || value == Some("") ==> r == fallback
    ensures value.Some? && value.value != "" && ParseIntText(value.value).Some? && ParseIntText(value.value).value > 0
      ==> r == ParseIntText(value.value).value
  {
    match value
    case None => fallback
    case Some(text) =>
      if text == "" then fallback
      else
        match ParseIntText(text)
        case None => fallback
        case Some(n) => if n <= 0 then fallback else n
  }

  /** A positive number written in digits is read as itself. */
  lemma ParsePositiveIntArgDigits(n: nat, fallback: int)
    requires n > 0
    ensures ParsePositiveIntArg(Some(NatToString(n)), fallback) == n
  {
    ParseIntOfNatToString(n);
  }

  // ---------------------------------------------------------------- database name

  /** Does a `/` at position `i` start a match of `\/([^/?]+)(?:\?|$)`? */
  predicate DbNameAt(uri: string, i: nat)
    requires i < |uri|
  {
    uri[i] == '/' && SegmentEnd(uri, i + 1) > i + 1
    && (SegmentEnd(uri, i + 1) == |uri| || uri[SegmentEnd(uri, i + 1)] == '?')
  }

  /** The end of the run of characters other than `/` and `?` that starts at `j`. */
  function SegmentEnd(uri: string, j: nat): (e: nat)
    requires j <= |uri|
    ensures j <= e <= |uri|
    ensures forall k :: j <= k < e ==> uri[k] != '/' && uri[k] != '?'
    ensures e < |uri| ==> uri[e] == '/' || uri[e] == '?'
    decreases |uri| - j
  {
    if j == |uri| || uri[j] == '/' || uri[j] == '?' then j else SegmentEnd(uri, j + 1)
  }

  /** The regular expression's first match at or after position `i`. */
  function FirstDbName(uri: string, i: nat): (r: Option<string>)
    requires i <= |uri|
    ensures r.Some? ==> r.value != "" && '/' !in r.value && '?' !in r.value
    decreases |uri| - i
  {
    if i == |uri| then None
    else if DbNameAt(uri, i) then Some(uri[i + 1..SegmentEnd(uri, i + 1)])
    else FirstDbName(uri, i + 1)
  }

  /** `parseDbNameFromUri(uri, fallback)`, with the percent-decoding left out. */
  function ParseDbNameFromUri(uri: string, fallback: string): (r: string)
    ensures FirstDbName(uri, 0).None? ==> r == fallback
    ensures FirstDbName(uri, 0).Some? ==> r != "" && '/' !in r && '?' !in r
  {
    match FirstDbName(uri, 0)
    case Some(name) => name
    case None => fallback
  }

  /** Without a query string, the name is the last path segment: the text after the
      last `/`, when that text is not empty. */
  lemma {:induction false} DbNameIsLastSegment(uri: string, i: nat)
    requires i <= |uri| && '?' !in uri
    ensures FirstDbName(uri, i).Some? ==> EndsWith(uri, "/" + FirstDbName(uri, i).value)
    ensures FirstDbName(uri, i).None? && LastIndexOf(uri, '/') >= i ==> LastIndexOf(uri, '/') == |uri| - 1
    decreases |uri| - i
  {
    if i < |uri| {
      if DbNameAt(uri, i) {
        var e := SegmentEnd(uri, i + 1);
        assert e == |uri|;
        var name := uri[i + 1..e];
        assert uri[|uri| - |"/" + name|..] == "/" + name;
      } else {
        DbNameIsLastSegment(uri, i + 1);
        var l := LastIndexOf(uri, '/');
        if FirstDbName(uri, i).None? && l == i {
          var e := SegmentEnd(uri, i + 1);
          assert e == |uri|;
        }
      }
    }
  }

  /** `SegmentEnd` found by inspection. */
  lemma {:induction false} SegmentEndIs(uri: string, j: nat, e: nat)
    requires j <= e <= |uri|
    requires forall k :: j <= k < e ==> uri[k] != '/' && uri[k] != '?'
    requires e == |uri| || uri[e] == '/' || uri[e] == '?'
    ensures SegmentEnd(uri, j) == e
    decreases e - j
  {
    if j < e {
      SegmentEndIs(uri, j + 1, e);
    }
  }

  /** An address without a query string whose last segment is a name yields that name,
      such as `dre-edu` from `mongodb://localhost:27017/dre-edu`. */
  lemma DbNameOfPlainUri(prefix: string, name: string, fallback: string)
    requires '?' !in prefix && '?' !in name && '/' !in name && name != ""
    ensures ParseDbNameFromUri(prefix + "/" + name, fallback) == name
  {
    var uri := prefix + "/" + name;
    var p := |prefix|;
    forall i | 0 <= i < p
      ensures !DbNameAt(uri, i)
    {
      var e := SegmentEnd(uri, i + 1);
      assert uri[p] == '/';
      assert e <= p;
      assert uri[e] != '?' by {
        if e < p {
          assert uri[e] == prefix[e];
        }
      }
    }
    forall k | p + 1 <= k < |uri|
      ensures uri[k] != '/' && uri[k] != '?'
    {
      assert uri[k] == name[k - p - 1];
    }
    SegmentEndIs(uri, p + 1, |uri|);
    assert uri[p + 1..] == name;
    FirstDbNameSkips(uri, 0, p);
  }

  lemma {:induction false} FirstDbNameSkips(uri: string, i: nat, j: nat)
    requires i <= j <= |uri|
    requires forall k :: i <= k < j ==> !DbNameAt(uri, k)
    ensures FirstDbName(uri, i) == FirstDbName(uri, j)
    decreases j - i
  {
    if i < j {
      FirstDbNameSkips(uri, i + 1, j);
    }
  }

  // ---------------------------------------------------------------- --limit= of the category scripts

  /** `LIMIT`: the integer after the first `=` of the first `--limit=` argument (`0` when
      that text is empty), floored at 0; text `parseInt` cannot read gives NaN, which
      never counts as a limit, so it is 0 here too. */
  function LimitArg(argv: seq<string>): (limit: nat)
    ensures FindPrefixed(argv, "--limit=").None? ==> limit == 0
  {
    match FindPrefixed(argv, "--limit=")
    case None => 0
    case Some(arg) =>
      var pieces := Split(arg, '=');
      var text := if |pieces| > 1 && pieces[1] != "" then pieces[1] else "0";
      match ParseIntText(text)
      case None => 0
      case Some(n) => if n < 0 then 0 else n
  }

  /** `--limit=n` for a positive `n` written in digits limits the run to `n` documents. */
  lemma LimitArgDigits(n: nat)
    ensures LimitArg(["--limit=" + NatToString(n)]) == n
  {
    var arg := "--limit=" + NatToString(n);
    assert StartsWith(arg, "--limit=") by {
      assert arg[..8] == "--limit=";
    }
    assert FindPrefixed([arg], "--limit=") == Some(arg);
    var ds := NatToString(n);
    assert '=' !in ds by {
      assert AllDigits(ds);
    }
    assert IndexOf(arg, '=') == 7 by {
      assert arg[7] == '=';
      assert forall j :: 0 <= j < 7 ==> arg[j] != '=';
    }
    assert arg[8..] == ds;
    SplitNoSeparator(ds, '=');
    assert Split(arg, '=') == [arg[..7]] + Split(ds, '=');
    ParseIntOfNatToString(n);
  }

  lemma SplitNoSeparator(s: string, c: char)
    requires c !in s
    ensures Split(s, c) == [s]
  {
    assert IndexOf(s, c) == |s|;
  }

  /** `query.limit(LIMIT)` when the limit is positive. */
  function Limited<T>(docs: seq<T>, limit: nat): (r: seq<T>)
    ensures limit == 0 ==> r == docs
    ensures limit > 0 ==> |r| == if |docs| <= limit then |docs| else limit
    ensures r == docs[..|r|]
  {
    if limit > 0 && limit < |docs| then docs[..limit] else docs
  }

  // ---------------------------------------------------------------- lenient integers

  /** `toInt(value, fallback)` of the legacy migration: a finite number truncated, a
      non-blank string through `parseInt`, and the fallback for everything else. */
  function ToInt(v: JsValue, fallback: int): (r: int)
    ensures v.Number? && v.n.Fin? ==> r == Trunc(v.n.r)
    ensures v.Str? && Trim(v.s) != "" && ParseIntText(v.s).Some? ==> r == ParseIntText(v.s).value
    ensures !v.Number? && !v.Str? ==> r == fallback
  {
    if v.Number? && v.n.Fin? then Trunc(v.n.r)
    else if v.Str? && Trim(v.s) != "" then
      match ParseIntText(v.s)
      case Some(n) => n
      case None => fallback
    else fallback
  }

  /** `toNonNegativeInt` of the legacy migration: `toInt`, with a negative result replaced
      by the fallback. */
  function ToNonNegativeInt(v: JsValue, fallback: int): (r: int)
    ensures r == fallback || r >= 0
    ensures ToInt(v, fallback) >= 0 ==> r == ToInt(v, fallback)
  {
    var parsed := ToInt(v, fallback);
    if parsed < 0 then fallback else parsed
  }

  /** `toNonNegativeInt` of the audit script: a negative number or a string reading as a
      negative integer gives the fallback; otherwise the truncated value. */
  function AuditNonNegativeInt(v: JsValue, fallback: int): (r: int)
    ensures r == fallback || r >= 0
    ensures v.Number? && v.n.Fin? && v.n.r >= 0.0 ==> r == Trunc(v.n.r)
    ensures v.Number? && v.n.Fin? && v.n.r < 0.0 ==> r == fallback
    ensures !(v.Number? && v.n.Fin?) && !v.Str? ==> r == fallback
  {
    if v.Number? && v.n.Fin? then (if v.n.r < 0.0 then fallback else Trunc(v.n.r))
    else if v.Str? && Trim(v.s) != "" then
      match ParseIntText(v.s)
      case Some(n) => if n < 0 then fallback else n
      case None => fallback
    else fallback
  }

  /** The two readers differ only on numbers strictly between -1 and 0: the legacy one
      truncates first (to 0), the audit one sees a negative number (the fallback). */
  lemma NonNegativeReadersAgree(v: JsValue, fallback: int)
    requires !(v.Number? && v.n.Fin? && -1.0 < v.n.r < 0.0)
    ensures ToNonNegativeInt(v, fallback) == AuditNonNegativeInt(v, fallback)
  {
  }

  lemma NonNegativeReadersDiffer()
    ensures ToNonNegativeInt(Number(Fin(-0.5)), 7) == 0
    ensures AuditNonNegativeInt(Number(Fin(-0.5)), 7) == 7
  {
  }

  // ---------------------------------------------------------------- option chains

  /** `process.env[name]` as `||` sees it: an unset or empty variable is no value. */
  function EnvValue(env: map<string, string>, name: string): (r: Option<string>)
    ensures r.Some? <==> name in env && env[name] != ""
    ensures r.Some? ==> r.value == env[name]
  {
    if name in env && env[name] != "" then Some(env[name]) else None
  }

  /** `a || b || ... || fallback` over texts that may be missing: the first present,
      non-empty one, else the fallback. */
  function FirstText(options: seq<Option<string>>, fallback: string): (r: string)
    ensures r == fallback || r != ""
    ensures options != [] && options[0].Some? && options[0].value != "" ==> r == options[0].value
    ensures (forall i :: 0 <= i < |options| ==> options[i].None? || options[i].value == "") ==> r == fallback
  {
    if options == [] then fallback
    else if options[0].Some? && options[0].value != "" then options[0].value
    else FirstText(options[1..], fallback)
  }

  // ---------------------------------------------------------------- scan loops

  /** The prefix facts the scripts' scan loops use to extend their tallies by one document. */
  lemma PrefixOfPrefix<T>(s: seq<T>, i: nat)
    requires i < |s|
    ensures s[..i + 1][..i] == s[..i] && s[..i + 1][i] == s[i]
  {
  }

  lemma WholePrefix<T>(s: seq<T>)
    ensures s[..|s|] == s
  {
  }
}
